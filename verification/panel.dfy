/** The property panel's edits (src/components/PropertyPanel.tsx): every
    edit is a patch routed to the selected module, the button URL input
    normalises what it stores, and a padding input replaces one side. */
module Panel {
  import opened Wrappers
  import opened Strings
  import opened Schema
  import opened Urls
  import opened Builder

  /** `handleUpdate(updates)`: the patch goes to `updateModule` under the
      selected module's id. Without a selected module the panel shows no
      form, so nothing can be edited. */
  function PanelUpdate(e: Editor, p: Patch): (r: Editor)
    ensures r.selected == e.selected && r.state.settings == e.state.settings
    ensures |r.state.modules| == |e.state.modules|
    ensures SelectedModule(e).None? ==> r == e
    ensures forall i :: 0 <= i < |e.state.modules| && e.selected != Some(e.state.modules[i].id) ==>
              r.state.modules[i] == e.state.modules[i]
    ensures forall i :: 0 <= i < |e.state.modules| && e.selected == Some(e.state.modules[i].id) ==>
              r.state.modules[i] == Merge(e.state.modules[i], p)
  {
    match SelectedModule(e)
    case None => e
    case Some(m) => e.(state := TemplateReducer(e.state, Known(UpdateModule(m.id, p)), ""))
  }

  /** Under a patch that keeps ids, the first module with an id is still the
      first, now merged with the patch. */
  lemma {:induction false} FindAfterUpdate(ms: seq<Module>, id: string, p: Patch)
    requires p.id.None?
    ensures FindModule(UpdateWhere(ms, id, p), id) ==
      if FindModule(ms, id).Some? then Some(Merge(FindModule(ms, id).value, p)) else None
  {
    if |ms| > 0 {
      FindAfterUpdate(ms[1..], id, p);
      assert UpdateWhere(ms, id, p)[1..] == UpdateWhere(ms[1..], id, p);
    }
  }

  /** After an edit that keeps ids, the selection resolves to the selected
      module merged with the patch. */
  lemma EditedSelection(e: Editor, p: Patch)
    requires p.id.None?
    requires SelectedModule(e).Some?
    ensures SelectedModule(PanelUpdate(e, p)) == Some(Merge(SelectedModule(e).value, p))
  {
    FindAfterUpdate(e.state.modules, e.selected.value, p);
  }

  // ----- The button URL input -----

  /** The button URL `onChange`: the input is trimmed, an empty value is
      stored as it is, and an `https://` prefix is added to any other value
      without an http(s) scheme. */
  function NormalizeHref(input: string): (r: string)
    ensures r == [] <==> Trim(input) == []
    ensures r == [] || HasScheme(r)
    ensures HasScheme(Trim(input)) ==> r == Trim(input)
    ensures Trim(input) != [] && !HasScheme(Trim(input)) ==> r == "https://" + Trim(input)
    ensures |Trim(input)| <= |r| && r[|r| - |Trim(input)|..] == Trim(input)
    ensures Trim(r) == r
  {
    var url := Trim(input);
    TrimIdempotent(input);
    if url != [] && !HasScheme(url) then
      HttpsPrefixHasScheme(url);
      PrefixedStaysTrimmed(url);
      "https://" + url
    else url
  }

  /** Prefixing a trimmed, non-empty string with `https://` keeps it trimmed. */
  lemma PrefixedStaysTrimmed(url: string)
    requires url != [] && Trim(url) == url
    ensures Trim("https://" + url) == "https://" + url
  {
    var r := "https://" + url;
    assert r[0] == 'h' && r[|r| - 1] == url[|url| - 1];
    TrimOfTrimmed(r);
  }

  /** The patch the URL input sends. */
  function HrefPatch(input: string): (p: Patch)
    ensures p.id.None? && p.kind.None? && p.fields.Keys == {"href"}
    ensures p.fields["href"] == Str(NormalizeHref(input))
  {
    Patch(None, None, map["href" := Str(NormalizeHref(input))])
  }

  /** On input that is not blank the stored href is what `sanitizeUrl` renders. */
  lemma HrefAgreesWithSanitize(input: string)
    requires Trim(input) != []
    ensures NormalizeHref(input) == SanitizeUrl(input)
  {
  }

  /** Blank input differs: the panel stores the empty string, while
      `sanitizeUrl` renders `#` for "" and `https://` for white space. */
  lemma HrefBlankInput(input: string)
    requires Trim(input) == []
    ensures NormalizeHref(input) == ""
    ensures SanitizeUrl(input) == if input == [] then "#" else "https://"
  {
    if input != [] {
      TrimEmptyIffBlank(input);
      SanitizeBlank(input);
    }
  }

  /** A stored non-empty href is left as it is when rendered. */
  lemma HrefFixedBySanitize(input: string)
    requires Trim(input) != []
    ensures SanitizeUrl(NormalizeHref(input)) == NormalizeHref(input)
  {
  }

  /** Re-entering a stored href stores it again unchanged. */
  lemma NormalizeHrefIdempotent(input: string)
    ensures NormalizeHref(NormalizeHref(input)) == NormalizeHref(input)
  {
  }

  /** Editing the URL of the selected button stores the normalised href on it. */
  lemma HrefEditStored(e: Editor, input: string)
    requires SelectedModule(e).Some?
    ensures SelectedModule(PanelUpdate(e, HrefPatch(input))).Some?
    ensures SelectedModule(PanelUpdate(e, HrefPatch(input))).value.fields["href"] == Str(NormalizeHref(input))
  {
    EditedSelection(e, HrefPatch(input));
  }

  // ----- Padding inputs -----

  /** One padding input's `onChange`: `{ ...padding, [side]: n }`, where a
      missing padding spreads as an empty object. */
  function PaddingPatch(m: Module, side: Side, n: int): (p: Patch)
    ensures p.id.None? && p.kind.None? && p.fields.Keys == {"padding"} && p.fields["padding"].Obj?
    ensures SideName(side) in p.fields["padding"].props
    ensures p.fields["padding"].props[SideName(side)] == Num(n as real)
    ensures forall k :: k != SideName(side) ==>
              (k in p.fields["padding"].props <==> Member(Get(m.fields, "padding"), k).Some?)
    ensures forall k :: k != SideName(side) && k in p.fields["padding"].props ==>
              Member(Get(m.fields, "padding"), k) == Some(p.fields["padding"].props[k])
  {
    var before := if "padding" in m.fields && m.fields["padding"].Obj? then m.fields["padding"].props else map[];
    Patch(None, None, map["padding" := Obj(before[SideName(side) := Num(n as real)])])
  }

  /** The value a padding input shows: `padding?.[side] || 0`. */
  function PaddingShown(m: Module, side: Side): (r: Value)
    ensures Member(Get(m.fields, "padding"), SideName(side)).None? ==> r == Num(0.0)
    ensures var v := Member(Get(m.fields, "padding"), SideName(side));
      v.Some? && Truthy(v.value) ==> r == v.value
    ensures var v := Member(Get(m.fields, "padding"), SideName(side));
      v.Some? && !Truthy(v.value) ==> r == Num(0.0)
    ensures Truthy(r) || r == Num(0.0)
  {
    Or(Member(Get(m.fields, "padding"), SideName(side)), Num(0.0))
  }

  /** After an edit the input shows the number typed, zero included. */
  lemma PaddingShownAfterEdit(e: Editor, side: Side, n: int)
    requires SelectedModule(e).Some?
    ensures var m := SelectedModule(e).value;
      var after := SelectedModule(PanelUpdate(e, PaddingPatch(m, side, n)));
      after.Some? && PaddingShown(after.value, side) == Num(n as real)
  {
    PaddingEditStored(e, side, n);
  }

  /** Editing one padding side of the selected module sets that side and
      copies the other sides from its previous padding. */
  lemma PaddingEditStored(e: Editor, side: Side, n: int)
    requires SelectedModule(e).Some?
    ensures var m := SelectedModule(e).value;
      var after := SelectedModule(PanelUpdate(e, PaddingPatch(m, side, n)));
      && after.Some? && "padding" in after.value.fields && after.value.fields["padding"].Obj?
      && after.value.fields["padding"].props[SideName(side)] == Num(n as real)
      && forall other: Side :: other != side ==>
           Member(Get(after.value.fields, "padding"), SideName(other)) ==
           Member(Get(m.fields, "padding"), SideName(other))
  {
    var m := SelectedModule(e).value;
    EditedSelection(e, PaddingPatch(m, side, n));
    forall other: Side | other != side
      ensures SideName(other) != SideName(side)
    {
      match other
      case Top =>
      case RightSide =>
      case Bottom =>
      case LeftSide =>
    }
  }
}

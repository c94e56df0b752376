/** The document store: the initial state, the five-action reducer, the
    per-kind default factory and the selection-aware wrappers the editor
    calls (src/hooks/useEmailBuilder.tsx). Every operation works on the
    top-level module list only. */
module Builder {
  import opened Wrappers
  import opened Schema

  /** The error `getModuleDefaults` throws for a `type` outside the kind set. */
  datatype FactoryError = UnknownModuleType(requested: string)

  /** An empty document with the default settings. */
  const InitialState: State := State([], Settings("", "", "#ffffff", 600.0))

  /** The initial document has no modules, empty subject and preheader, a
      white background and a 600-pixel content width. */
  lemma InitialStateFacts()
    ensures |InitialState.modules| == 0
    ensures InitialState.settings.subject == "" && InitialState.settings.preheader == ""
    ensures InitialState.settings.backgroundColor == "#ffffff"
    ensures InitialState.settings.contentWidth == 600.0
  {
  }

  // ----- The default factory -----

  function PaddingValue(top: real, right: real, bottom: real, left: real): Value {
    Obj(map["top" := Num(top), "right" := Num(right), "bottom" := Num(bottom), "left" := Num(left)])
  }

  function LinkValue(platform: string, url: string): Value {
    Obj(map["platform" := Str(platform), "url" := Str(url)])
  }

  /** The literal default fields of each kind. */
  function DefaultFields(k: Kind): map<string, Value> {
    match k
    case Text => map[
      "content" := Str("Enter your text here..."), "fontSize" := Num(16.0),
      "fontFamily" := Str("Arial, sans-serif"), "textAlign" := Str("left"),
      "fontWeight" := Str("normal"), "fontStyle" := Str("normal"),
      "textDecoration" := Str("none"), "lineHeight" := Num(1.4),
      "color" := Str("#000000"), "backgroundColor" := Str("#ffffff"),
      "highlightColor" := Str("#ffffff"), "padding" := PaddingValue(18.0, 0.0, 18.0, 0.0)]
    case Image => map[
      "src" := Str(""), "alt" := Str("Image"), "width" := Str("100%"),
      "height" := Str("auto"), "alignment" := Str("center")]
    case Button => map[
      "text" := Str(""), "href" := Str(""), "backgroundColor" := Str("#007bff"),
      "textColor" := Str("#ffffff"), "width" := Str("auto"), "height" := Str("auto"),
      "padding" := PaddingValue(12.0, 24.0, 12.0, 24.0), "alignment" := Str("left"),
      "borderColor" := Str("#007bff"), "borderWidth" := Num(0.0), "borderRadius" := Num(4.0),
      "fontFamily" := Str("Arial, sans-serif"), "fontWeight" := Str("normal"),
      "fontSize" := Num(14.0)]
    case Divider => map["height" := Num(1.0), "color" := Str("#cccccc"), "style" := Str("solid")]
    case Spacer => map["height" := Num(30.0), "backgroundColor" := Str("transparent")]
    case ImageText => map["image" := Str(""), "text" := Str("Your caption or content...")]
    case Columns => map["columns" := Arr([])]
    case Code => map["code" := Str("// your code here"), "language" := Str("html")]
    case Social => map["links" := Arr([LinkValue("facebook", ""), LinkValue("twitter", "")])]
    case Unsubscribe => map["label" := Str("Unsubscribe - Manage Preferences")]
  }

  /** Every kind's default carries the fields its interface requires, each
      with its declared shape, alignment and style values included. */
  lemma DefaultsConform(k: Kind)
    ensures Conforms(k, DefaultFields(k))
  {
    match k
    case Text => TextDefaultConforms();
    case Image => ImageDefaultConforms();
    case Button => ButtonDefaultConforms();
    case Divider => DividerDefaultConforms();
    case Spacer => SpacerAndImageTextDefaultsConform();
    case ImageText => SpacerAndImageTextDefaultsConform();
    case Columns => ColumnsCodeUnsubscribeDefaultsConform();
    case Code => ColumnsCodeUnsubscribeDefaultsConform();
    case Social => SocialDefaultConforms();
    case Unsubscribe => ColumnsCodeUnsubscribeDefaultsConform();
  }

  lemma SpacerAndImageTextDefaultsConform()
    ensures Conforms(Spacer, DefaultFields(Spacer))
    ensures Conforms(ImageText, DefaultFields(ImageText))
  {
  }

  lemma ColumnsCodeUnsubscribeDefaultsConform()
    ensures Conforms(Columns, DefaultFields(Columns))
    ensures Conforms(Code, DefaultFields(Code))
    ensures Conforms(Unsubscribe, DefaultFields(Unsubscribe))
  {
  }

  lemma ImageDefaultConforms()
    ensures Conforms(Image, DefaultFields(Image))
  {
    AlignNamesKnown();
  }

  lemma DividerDefaultConforms()
    ensures Conforms(Divider, DefaultFields(Divider))
  {
    assert LineStyleName(Solid) == "solid";
  }

  lemma SocialDefaultConforms()
    ensures Conforms(Social, DefaultFields(Social))
  {
    assert IsLink(LinkValue("facebook", "")) && IsLink(LinkValue("twitter", ""));
  }

  lemma TextDefaultConforms()
    ensures Conforms(Text, DefaultFields(Text))
  {
    var specs := DeclaredFields(Text);
    var f := DefaultFields(Text);
    forall i | 0 <= i < |specs|
      ensures SpecHolds(specs[i], f)
    {
      if i < 4 {
        TextDefaultFirstPart(i);
      } else if i < 8 {
        TextDefaultSecondPart(i);
      } else {
        TextDefaultThirdPart(i);
      }
    }
  }

  lemma TextDefaultFirstPart(i: nat)
    requires i < 4
    ensures SpecHolds(DeclaredFields(Text)[i], DefaultFields(Text))
  {
    if i == 0 {} else if i == 1 {} else if i == 2 {} else {}
  }

  lemma TextDefaultSecondPart(i: nat)
    requires 4 <= i < 8
    ensures SpecHolds(DeclaredFields(Text)[i], DefaultFields(Text))
  {
    AlignNamesKnown();
    if i == 4 {} else if i == 5 {} else if i == 6 {} else {}
  }

  lemma TextDefaultThirdPart(i: nat)
    requires 8 <= i < 12
    ensures SpecHolds(DeclaredFields(Text)[i], DefaultFields(Text))
  {
    PaddingDefaultsArePaddings();
    if i == 8 {} else if i == 9 {} else if i == 10 {} else {}
  }

  lemma ButtonDefaultConforms()
    ensures Conforms(Button, DefaultFields(Button))
  {
    var specs := DeclaredFields(Button);
    var f := DefaultFields(Button);
    forall i | 0 <= i < |specs|
      ensures SpecHolds(specs[i], f)
    {
      if i < 5 {
        ButtonDefaultFirstPart(i);
      } else if i < 10 {
        ButtonDefaultSecondPart(i);
      } else {
        ButtonDefaultThirdPart(i);
      }
    }
  }

  lemma ButtonDefaultFirstPart(i: nat)
    requires i < 5
    ensures SpecHolds(DeclaredFields(Button)[i], DefaultFields(Button))
  {
    if i == 0 {} else if i == 1 {} else if i == 2 {} else if i == 3 {} else {}
  }

  lemma ButtonDefaultSecondPart(i: nat)
    requires 5 <= i < 10
    ensures SpecHolds(DeclaredFields(Button)[i], DefaultFields(Button))
  {
    PaddingDefaultsArePaddings();
    AlignNamesKnown();
    if i == 5 {} else if i == 6 {} else if i == 7 {} else if i == 8 {} else {}
  }

  lemma ButtonDefaultThirdPart(i: nat)
    requires 10 <= i < 14
    ensures SpecHolds(DeclaredFields(Button)[i], DefaultFields(Button))
  {
    if i == 10 {} else if i == 11 {} else if i == 12 {} else {}
  }

  lemma AlignNamesKnown()
    ensures IsAlignName("left") && IsAlignName("center")
  {
    assert AlignName(AlignLeft) == "left" && AlignName(AlignCenter) == "center";
  }

  lemma PaddingDefaultsArePaddings()
    ensures IsPadding(PaddingValue(18.0, 0.0, 18.0, 0.0))
    ensures IsPadding(PaddingValue(12.0, 24.0, 12.0, 24.0))
  {
  }

  /** `getModuleDefaults(type)`: the default payload for a known kind; any
      other `type` throws. Only the text default carries an `id` of its own
      (`textId`, a freshly generated uuid in the source). */
  function ModuleDefaults(moduleType: string, textId: string): (r: Result<Draft, FactoryError>)
    ensures r.Success? <==> exists k: Kind :: KindName(k) == moduleType
    ensures r.Success? ==> KindName(r.value.kind) == moduleType
    ensures r.Success? ==> Conforms(r.value.kind, r.value.fields)
    ensures r.Success? ==> (r.value.id.Some? <==> r.value.kind == Text)
    ensures r.Failure? ==> r.error == UnknownModuleType(moduleType)
  {
    match ParseKind(moduleType)
    case None => Failure(UnknownModuleType(moduleType))
    case Some(k) =>
      DefaultsConform(k);
      Success(Draft(if k == Text then Some(textId) else None, k, DefaultFields(k)))
  }

  // ----- The reducer -----

  /** `{ ...m, ...p }`: keys present in the patch replace the module's, the
      others are kept. */
  function Merge(m: Module, p: Patch): (r: Module)
    ensures r.id == p.id.GetOr(m.id) && r.kind == p.kind.GetOr(m.kind)
    ensures r.fields.Keys == m.fields.Keys + p.fields.Keys
    ensures forall key :: key in p.fields ==> r.fields[key] == p.fields[key]
    ensures forall key :: key in m.fields && key !in p.fields ==> r.fields[key] == m.fields[key]
    ensures PlainFields(m.fields) && PlainFields(p.fields) ==> PlainFields(r.fields)
  {
    Module(p.id.GetOr(m.id), p.kind.GetOr(m.kind), m.fields + p.fields)
  }

  /** `{ ...s, ...p }` on the settings. */
  function MergeSettings(s: Settings, p: SettingsPatch): (r: Settings)
    ensures p.subject.Some? ==> r.subject == p.subject.value
    ensures p.subject.None? ==> r.subject == s.subject
    ensures p.preheader.Some? ==> r.preheader == p.preheader.value
    ensures p.preheader.None? ==> r.preheader == s.preheader
    ensures p.backgroundColor.Some? ==> r.backgroundColor == p.backgroundColor.value
    ensures p.backgroundColor.None? ==> r.backgroundColor == s.backgroundColor
    ensures p.contentWidth.Some? ==> r.contentWidth == p.contentWidth.value
    ensures p.contentWidth.None? ==> r.contentWidth == s.contentWidth
  {
    Settings(
      p.subject.GetOr(s.subject), p.preheader.GetOr(s.preheader),
      p.backgroundColor.GetOr(s.backgroundColor), p.contentWidth.GetOr(s.contentWidth))
  }

  /** `modules.map(m => m.id === id ? { ...m, ...p } : m)`. */
  function UpdateWhere(ms: seq<Module>, id: string, p: Patch): (r: seq<Module>)
    ensures |r| == |ms|
    ensures forall i :: 0 <= i < |ms| && ms[i].id != id ==> r[i] == ms[i]
    ensures forall i :: 0 <= i < |ms| && ms[i].id == id ==> r[i] == Merge(ms[i], p)
  {
    seq(|ms|, i requires 0 <= i < |ms| => if ms[i].id == id then Merge(ms[i], p) else ms[i])
  }

  /** `modules.filter(m => m.id !== id)`. */
  function RemoveId(ms: seq<Module>, id: string): (r: seq<Module>)
    ensures |r| <= |ms|
    ensures forall i :: 0 <= i < |r| ==> r[i].id != id
  {
    if |ms| == 0 then []
    else if ms[0].id == id then RemoveId(ms[1..], id)
    else [ms[0]] + RemoveId(ms[1..], id)
  }

  /** `templateReducer`. `freshId` is the uuid the add branch generates. An
      action of any other `type` leaves the state as it was. */
  function TemplateReducer(s: State, d: Dispatch, freshId: string): (r: State)
    ensures d.Unknown? ==> r == s
    ensures d.Known? && !d.action.UpdateSettings? ==> r.settings == s.settings
    ensures d.Known? && d.action.UpdateSettings? ==> r.modules == s.modules
  {
    match d
    case Unknown(_) => s
    case Known(a) =>
      match a
      case AddModule(draft) => s.(modules := s.modules + [Module(freshId, draft.kind, draft.fields)])
      case UpdateModule(id, p) => s.(modules := UpdateWhere(s.modules, id, p))
      case DeleteModule(id) => s.(modules := RemoveId(s.modules, id))
      case ReorderModules(order) => s.(modules := order)
      case UpdateSettings(p) => s.(settings := MergeSettings(s.settings, p))
  }

  /** No two top-level modules share an id. */
  predicate UniqueIds(ms: seq<Module>) {
    forall i, j :: 0 <= i < j < |ms| ==> ms[i].id != ms[j].id
  }

  /** Adding appends exactly one module, whose id is the fresh one whatever
      id the payload carries; the earlier modules and the settings are kept. */
  lemma AddModuleAppends(s: State, draft: Draft, freshId: string)
    ensures var r := TemplateReducer(s, Known(AddModule(draft)), freshId);
      && |r.modules| == |s.modules| + 1
      && r.modules[..|s.modules|] == s.modules
      && r.modules[|s.modules|] == Module(freshId, draft.kind, draft.fields)
      && r.settings == s.settings
  {
  }

  /** Adding with an id no top-level module uses keeps the ids unique. */
  lemma AddModuleKeepsIdsUnique(s: State, draft: Draft, freshId: string)
    requires UniqueIds(s.modules)
    requires forall m :: m in s.modules ==> m.id != freshId
    ensures UniqueIds(TemplateReducer(s, Known(AddModule(draft)), freshId).modules)
  {
    var r := TemplateReducer(s, Known(AddModule(draft)), freshId);
    forall i, j | 0 <= i < j < |r.modules|
      ensures r.modules[i].id != r.modules[j].id
    {
      if j == |s.modules| {
        assert r.modules[i] == s.modules[i];
        assert s.modules[i] in s.modules;
      }
    }
  }

  /** Updating keeps the length and order; each module with the id is
      shallow-merged with the patch and every other module is untouched. */
  lemma UpdateModuleSpec(s: State, id: string, p: Patch, freshId: string)
    ensures var r := TemplateReducer(s, Known(UpdateModule(id, p)), freshId);
      && |r.modules| == |s.modules|
      && r.settings == s.settings
      && (forall i :: 0 <= i < |s.modules| && s.modules[i].id != id ==> r.modules[i] == s.modules[i])
      && (forall i :: 0 <= i < |s.modules| && s.modules[i].id == id ==>
            && r.modules[i].id == p.id.GetOr(id)
            && r.modules[i].kind == p.kind.GetOr(s.modules[i].kind)
            && r.modules[i].fields.Keys == s.modules[i].fields.Keys + p.fields.Keys
            && (forall key :: key in p.fields ==> r.modules[i].fields[key] == p.fields[key])
            && (forall key :: key in s.modules[i].fields && key !in p.fields ==>
                  r.modules[i].fields[key] == s.modules[i].fields[key]))
  {
  }

  /** Updating an id no top-level module has changes nothing. */
  lemma UpdateAbsentIsNoop(s: State, id: string, p: Patch, freshId: string)
    requires forall m :: m in s.modules ==> m.id != id
    ensures TemplateReducer(s, Known(UpdateModule(id, p)), freshId) == s
  {
    var r := TemplateReducer(s, Known(UpdateModule(id, p)), freshId);
    assert forall i :: 0 <= i < |s.modules| ==> s.modules[i] in s.modules;
    assert r.modules == s.modules;
  }

  /** A patch that does not reassign the id keeps every position's id, so
      top-level ids stay unique. */
  lemma UpdateKeepsIds(s: State, id: string, p: Patch, freshId: string)
    requires p.id.None?
    ensures var r := TemplateReducer(s, Known(UpdateModule(id, p)), freshId);
      && (forall i :: 0 <= i < |s.modules| ==> r.modules[i].id == s.modules[i].id)
      && (UniqueIds(s.modules) ==> UniqueIds(r.modules))
  {
  }

  /** Deleting filters: it distributes over concatenation, so the survivors
      keep their relative order. */
  lemma {:induction false} RemoveIdConcat(a: seq<Module>, b: seq<Module>, id: string)
    ensures RemoveId(a + b, id) == RemoveId(a, id) + RemoveId(b, id)
  {
    if |a| == 0 {
      assert a + b == b;
    } else {
      var x, rest := a[0], a[1..];
      assert a == [x] + rest;
      assert a + b == [x] + (rest + b);
      RemoveIdConcat(rest, b, id);
      RemoveIdCons(x, rest + b, id);
      RemoveIdCons(x, rest, id);
      if x.id != id {
        ConsConcat(x, RemoveId(rest, id), RemoveId(b, id));
      }
    }
  }

  /** Prepending regroups over a concatenation. */
  lemma ConsConcat(x: Module, u: seq<Module>, v: seq<Module>)
    ensures [x] + (u + v) == ([x] + u) + v
  {
  }

  /** One step of the filter. */
  lemma RemoveIdCons(m: Module, rest: seq<Module>, id: string)
    ensures RemoveId([m] + rest, id) == if m.id == id then RemoveId(rest, id) else [m] + RemoveId(rest, id)
  {
    assert ([m] + rest)[1..] == rest;
  }

  /** Deleting keeps exactly the modules whose id differs. */
  lemma {:induction false} RemoveIdMembers(ms: seq<Module>, id: string)
    ensures forall m :: m in RemoveId(ms, id) <==> m in ms && m.id != id
  {
    if ms != [] {
      RemoveIdMembers(ms[1..], id);
      assert ms == [ms[0]] + ms[1..];
    }
  }

  /** A one-element list survives deletion exactly when its id differs. */
  lemma RemoveIdSingle(m: Module, id: string)
    ensures RemoveId([m], id) == if m.id == id then [] else [m]
  {
  }

  /** Deleting an id no top-level module has changes nothing. */
  lemma {:induction false} RemoveAbsentIsNoop(ms: seq<Module>, id: string)
    requires forall m :: m in ms ==> m.id != id
    ensures RemoveId(ms, id) == ms
  {
    if ms != [] {
      RemoveAbsentIsNoop(ms[1..], id);
      assert [ms[0]] + ms[1..] == ms;
    }
  }

  /** Deleting twice is deleting once. */
  lemma DeleteIdempotent(s: State, id: string, freshId: string)
    ensures var once := TemplateReducer(s, Known(DeleteModule(id)), freshId);
      TemplateReducer(once, Known(DeleteModule(id)), freshId) == once
  {
    RemoveIdMembers(s.modules, id);
    RemoveAbsentIsNoop(RemoveId(s.modules, id), id);
  }

  /** Deleting keeps exactly the modules whose id differs, and the settings. */
  lemma DeleteModuleSpec(s: State, id: string, freshId: string)
    ensures var r := TemplateReducer(s, Known(DeleteModule(id)), freshId);
      && (forall m :: m in r.modules <==> m in s.modules && m.id != id)
      && r.settings == s.settings
      && ((forall m :: m in s.modules ==> m.id != id) ==> r == s)
  {
    RemoveIdMembers(s.modules, id);
    if forall m :: m in s.modules ==> m.id != id {
      RemoveAbsentIsNoop(s.modules, id);
    }
  }

  /** Reordering replaces the list wholesale and leaves the settings alone. */
  lemma ReorderReplaces(s: State, order: seq<Module>, freshId: string)
    ensures var r := TemplateReducer(s, Known(ReorderModules(order)), freshId);
      r.modules == order && r.settings == s.settings
  {
  }

  /** A settings update merges into the settings and leaves the modules alone;
      a patch that names no field changes nothing. */
  lemma UpdateSettingsSpec(s: State, p: SettingsPatch, freshId: string)
    ensures var r := TemplateReducer(s, Known(UpdateSettings(p)), freshId);
      && r.modules == s.modules
      && r.settings.subject == p.subject.GetOr(s.settings.subject)
      && r.settings.preheader == p.preheader.GetOr(s.settings.preheader)
      && r.settings.backgroundColor == p.backgroundColor.GetOr(s.settings.backgroundColor)
      && r.settings.contentWidth == p.contentWidth.GetOr(s.settings.contentWidth)
      && (p == SettingsPatch(None, None, None, None) ==> r == s)
  {
  }

  // ----- The editor wrappers -----

  /** The document plus the selected module's id (`null` when nothing is selected). */
  datatype Editor = Editor(state: State, selected: Option<string>)

  /** `modules.find(m => m.id === id)`: the first module with the id. */
  function FindModule(ms: seq<Module>, id: string): (r: Option<Module>)
    ensures r.Some? ==> exists i :: 0 <= i < |ms| && ms[i] == r.value && r.value.id == id
                          && forall j :: 0 <= j < i ==> ms[j].id != id
    ensures r.None? <==> forall m :: m in ms ==> m.id != id
  {
    if |ms| == 0 then None
    else if ms[0].id == id then Some(ms[0])
    else
      var r := FindModule(ms[1..], id);
      if r.Some? then
        var i :| 0 <= i < |ms[1..]| && ms[1..][i] == r.value && r.value.id == id
                 && forall j :: 0 <= j < i ==> ms[1..][j].id != id;
        assert ms[i + 1] == r.value;
        r
      else r
  }

  /** `getSelectedModule`: the first top-level module whose id is the
      selected one, or nothing when no id is selected or none matches. */
  function SelectedModule(e: Editor): (r: Option<Module>)
    ensures r.Some? ==> e.selected == Some(r.value.id) && r.value in e.state.modules
    ensures r.Some? ==> exists i :: 0 <= i < |e.state.modules| && e.state.modules[i] == r.value
                          && forall j :: 0 <= j < i ==> e.state.modules[j].id != r.value.id
    ensures r.None? <==> e.selected.None? || forall m :: m in e.state.modules ==> m.id != e.selected.value
  {
    match e.selected
    case None => None
    case Some(id) => FindModule(e.state.modules, id)
  }

  /** `addModule(type)`: the default for `type`, appended under `freshId`;
      an unknown `type` throws and the editor is left as it was. */
  function AddModuleOp(e: Editor, moduleType: string, textId: string, freshId: string): (r: Result<Editor, FactoryError>)
    ensures r.Failure? <==> forall k: Kind :: KindName(k) != moduleType
    ensures r.Failure? ==> r.error == UnknownModuleType(moduleType)
    ensures r.Success? ==>
      var ms := r.value.state.modules;
      && r.value.selected == e.selected
      && r.value.state.settings == e.state.settings
      && |ms| == |e.state.modules| + 1
      && ms[..|e.state.modules|] == e.state.modules
      && ms[|e.state.modules|].id == freshId
      && KindName(ms[|e.state.modules|].kind) == moduleType
      && Conforms(ms[|e.state.modules|].kind, ms[|e.state.modules|].fields)
  {
    match ModuleDefaults(moduleType, textId)
    case Failure(err) => Failure(err)
    case Success(draft) =>
      Success(e.(state := TemplateReducer(e.state, Known(AddModule(draft)), freshId)))
  }

  /** `deleteModule(id)`: removes the top-level modules with the id and
      clears the selection exactly when the deleted id is the selected one. */
  function DeleteModuleOp(e: Editor, id: string): (r: Editor)
    ensures r.selected == (if e.selected == Some(id) then None else e.selected)
    ensures forall m :: m in r.state.modules <==> m in e.state.modules && m.id != id
    ensures r.state.settings == e.state.settings
  {
    RemoveIdMembers(e.state.modules, id);
    Editor(
      TemplateReducer(e.state, Known(DeleteModule(id)), ""),
      if e.selected == Some(id) then None else e.selected)
  }

  /** Deleting one id leaves the first module with any other id where it was first. */
  lemma {:induction false} FindAfterRemove(ms: seq<Module>, x: string, id: string)
    requires x != id
    ensures FindModule(RemoveId(ms, id), x) == FindModule(ms, x)
  {
    if ms != [] {
      FindAfterRemove(ms[1..], x, id);
      if ms[0].id != id {
        assert RemoveId(ms, id) == [ms[0]] + RemoveId(ms[1..], id);
        assert ([ms[0]] + RemoveId(ms[1..], id))[1..] == RemoveId(ms[1..], id);
      }
    }
  }

  /** Deleting a module other than the selected one leaves the selection
      resolving to the same module. */
  lemma DeleteKeepsOtherSelection(e: Editor, id: string)
    requires e.selected != Some(id)
    ensures SelectedModule(DeleteModuleOp(e, id)) == SelectedModule(e)
  {
    if e.selected.Some? {
      FindAfterRemove(e.state.modules, e.selected.value, id);
    }
  }
}

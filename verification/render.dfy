/** The decisions the module renderer makes before it draws anything
    (src/components/EditableModule.tsx): column widths from the layout
    ratio, which social platforms are active, and the button's fallbacks. */
module Render {
  import opened Wrappers
  import opened Strings
  import opened Schema
  import opened Urls
  import opened Builder

  // ----- Column widths -----

  /** `module.layout || "1"`. */
  function LayoutOf(m: Module): (r: string)
    ensures r != []
    ensures Get(m.fields, "layout").Some? && Get(m.fields, "layout").value.Str? && m.fields["layout"].s != [] ==>
              r == m.fields["layout"].s
    ensures !(Get(m.fields, "layout").Some? && Get(m.fields, "layout").value.Str? && m.fields["layout"].s != []) ==>
              r == "1"
  {
    if "layout" in m.fields && m.fields["layout"].Str? && m.fields["layout"].s != [] then m.fields["layout"].s else "1"
  }

  /** `module.columns`, an empty list when there is none. */
  function ColumnsOf(m: Module): seq<Value> {
    if "columns" in m.fields && m.fields["columns"].Arr? then m.fields["columns"].items else []
  }

  predicate IsDigit(c: char) {
    '0' <= c <= '9'
  }

  /** The value of a string of decimal digits. */
  function DigitsValue(s: string): nat
    requires forall i :: 0 <= i < |s| ==> IsDigit(s[i])
  {
    if |s| == 0 then 0
    else
      assert IsDigit(s[|s| - 1]);
      DigitsValue(s[..|s| - 1]) * 10 + (s[|s| - 1] as int - '0' as int)
  }

  /** `Number(part)` for the forms the model covers: white space around the
      number is ignored, a blank part is 0, decimal digits give their value,
      and anything else is `None`, standing for `NaN`. */
  function ParsePart(p: string): (r: Option<nat>)
    ensures Trim(p) == [] ==> r == Some(0)
    ensures r.None? ==> exists i :: 0 <= i < |Trim(p)| && !IsDigit(Trim(p)[i])
    ensures (exists i :: 0 <= i < |Trim(p)| && !IsDigit(Trim(p)[i])) ==> r.None?
    ensures Trim(p) != [] && (forall i :: 0 <= i < |Trim(p)| ==> IsDigit(Trim(p)[i])) ==>
              r == Some(DigitsValue(Trim(p)))
  {
    var t := Trim(p);
    if t == [] then Some(0)
    else if forall i :: 0 <= i < |t| ==> IsDigit(t[i]) then Some(DigitsValue(t))
    else None
  }

  /** Every part parsed, or `None` when one of them is not a number. */
  function ParseParts(parts: seq<string>): (r: Option<seq<nat>>)
    ensures r.Some? ==> |r.value| == |parts|
    ensures r.Some? ==> forall i :: 0 <= i < |parts| ==> ParsePart(parts[i]) == Some(r.value[i])
    ensures r.None? ==> exists i :: 0 <= i < |parts| && ParsePart(parts[i]).None?
  {
    if |parts| == 0 then Some([])
    else
      match ParsePart(parts[0])
      case None => None
      case Some(v) =>
        match ParseParts(parts[1..])
        case None => None
        case Some(vs) => Some([v] + vs)
  }

  /** `layout.split(":").map(Number)`. */
  function ParseRatio(layout: string): (r: Option<seq<nat>>)
    ensures r.Some? ==> |r.value| == |Split(layout, ':')|
    ensures r.Some? ==> forall i :: 0 <= i < |r.value| ==> ParsePart(Split(layout, ':')[i]) == Some(r.value[i])
    ensures r.None? <==> exists i :: 0 <= i < |Split(layout, ':')| && ParsePart(Split(layout, ':')[i]).None?
  {
    var parts := Split(layout, ':');
    var r := ParseParts(parts);
    assert r.Some? ==> forall i :: 0 <= i < |parts| ==> ParsePart(parts[i]).Some?;
    r
  }

  function Sum(ns: seq<nat>): nat {
    if |ns| == 0 then 0 else ns[0] + Sum(ns[1..])
  }

  function SumReal(rs: seq<real>): real {
    if |rs| == 0 then 0.0 else rs[0] + SumReal(rs[1..])
  }

  /** Each part as a percentage of `total`: `p / total * 100`. */
  function Percentages(parts: seq<nat>, total: nat): (r: seq<real>)
    requires total > 0
    ensures |r| == |parts|
    ensures forall i :: 0 <= i < |parts| ==> r[i] == parts[i] as real / total as real * 100.0
  {
    if |parts| == 0 then [] else [parts[0] as real / total as real * 100.0] + Percentages(parts[1..], total)
  }

  lemma ScaleAdd(a: real, b: real, t: real)
    requires t > 0.0
    ensures a / t * 100.0 + b / t * 100.0 == (a + b) / t * 100.0
  {
  }

  /** The percentages add up to the parts' share of the total. */
  lemma {:induction false} SumPercentages(parts: seq<nat>, total: nat)
    requires total > 0
    ensures SumReal(Percentages(parts, total)) == Sum(parts) as real / total as real * 100.0
  {
    if |parts| > 0 {
      SumPercentages(parts[1..], total);
      var r := Percentages(parts, total);
      assert r[1..] == Percentages(parts[1..], total);
      ScaleAdd(parts[0] as real, Sum(parts[1..]) as real, total as real);
    }
  }

  /** No part exceeds the sum of the parts. */
  lemma {:induction false} PartAtMostSum(parts: seq<nat>, i: nat)
    requires i < |parts|
    ensures parts[i] <= Sum(parts)
  {
    if i > 0 {
      PartAtMostSum(parts[1..], i - 1);
    }
  }

  lemma PercentBounds(p: nat, total: nat)
    requires 0 < total && p <= total
    ensures 0.0 <= p as real / total as real * 100.0 <= 100.0
  {
    assert p as real / total as real <= 1.0;
  }

  /** Every percentage of the total lies between 0 and 100. */
  lemma PercentagesBounded(parts: seq<nat>)
    requires Sum(parts) > 0
    ensures forall i :: 0 <= i < |parts| ==> 0.0 <= Percentages(parts, Sum(parts))[i] <= 100.0
  {
    forall i | 0 <= i < |parts|
      ensures 0.0 <= Percentages(parts, Sum(parts))[i] <= 100.0
    {
      PartAtMostSum(parts, i);
      PercentBounds(parts[i], Sum(parts));
    }
  }

  /** The widths for parsed ratio parts: each part's percentage of their
      total when the total is positive, none otherwise. */
  function PartWidths(parts: seq<nat>): (r: seq<real>)
    ensures Sum(parts) == 0 ==> r == []
    ensures Sum(parts) > 0 ==> |r| == |parts|
    ensures Sum(parts) > 0 ==> forall i :: 0 <= i < |parts| ==> r[i] == parts[i] as real / Sum(parts) as real * 100.0
    ensures r != [] ==> SumReal(r) == 100.0
    ensures forall i :: 0 <= i < |r| ==> 0.0 <= r[i] <= 100.0
  {
    var total := Sum(parts);
    if total > 0 then
      SumPercentages(parts, total);
      PercentagesBounded(parts);
      Percentages(parts, total)
    else []
  }

  /** The column widths of a `columns` module: one percentage per ratio part
      when the parts are numbers with a positive total, none otherwise. */
  function ColumnWidths(layout: string): (r: seq<real>)
    ensures ParseRatio(layout).None? ==> r == []
    ensures ParseRatio(layout).Some? ==> r == PartWidths(ParseRatio(layout).value)
    ensures r != [] ==> SumReal(r) == 100.0
    ensures forall i :: 0 <= i < |r| ==> 0.0 <= r[i] <= 100.0
  {
    match ParseRatio(layout)
    case None => []
    case Some(parts) => PartWidths(parts)
  }

  /** The `flexBasis` of every column, as a percentage: its computed width,
      or 100 for a column whose index has none. When there is a width for
      every column, the columns fill the row exactly. */
  function ColumnBases(m: Module): (r: seq<real>)
    ensures |r| == |ColumnsOf(m)|
    ensures forall i :: |ColumnWidths(LayoutOf(m))| <= i < |r| ==> r[i] == 100.0
    ensures forall i :: 0 <= i < |r| ==> 0.0 <= r[i] <= 100.0
    ensures forall i :: 0 <= i < |r| && i < |ColumnWidths(LayoutOf(m))| ==> r[i] == ColumnWidths(LayoutOf(m))[i]
    ensures 0 < |r| == |ColumnWidths(LayoutOf(m))| ==> SumReal(r) == 100.0
  {
    var widths := ColumnWidths(LayoutOf(m));
    var r := seq(|ColumnsOf(m)|, i requires 0 <= i < |ColumnsOf(m)| => if i < |widths| then widths[i] else 100.0);
    assert |r| == |widths| ==> r == widths;
    r
  }

  /** The ratio "1" is the single part 1. */
  lemma RatioOne()
    ensures ParseRatio("1") == Some([1])
  {
    SplitNoSeparator("1", ':');
    OnePart();
    var ps: seq<string> := ["1"];
    assert ps[0] == "1" && ps[1..] == [];
    assert ParseParts(ps[1..]) == Some([]);
    assert ParseParts(ps) == Some([1] + []);
    assert [1] + [] == [1];
  }

  lemma OnePart()
    ensures ParsePart("1") == Some(1)
  {
    TrimOfTrimmed("1");
    assert "1"[..0] == [];
    assert DigitsValue("1") == 1;
  }

  /** The default `columns` module has no layout: it reads as "1", one full
      width, and no column to give it to. */
  lemma DefaultColumnsLayout(m: Module)
    requires m.fields == map["columns" := Arr([])]
    ensures LayoutOf(m) == "1"
    ensures ColumnWidths(LayoutOf(m)) == [100.0]
    ensures ColumnBases(m) == []
  {
    WidthsOfOne();
    assert ColumnsOf(m) == [];
  }

  /** The ratio "1" is one column of full width. */
  lemma WidthsOfOne()
    ensures ColumnWidths("1") == [100.0]
  {
    RatioOne();
    assert Sum([1]) == 1 by { assert [1][1..] == []; }
    assert Percentages([1], 1) == [100.0];
  }

  // ----- Social icons -----

  /** A `{ platform, url }` entry of a social module. */
  datatype Link = Link(platform: string, url: string)

  /** A supported platform and its brand colour. */
  datatype Platform = Platform(name: string, color: string)

  /** The six platforms the renderer draws, in drawing order. */
  const Platforms: seq<Platform> := [
    Platform("facebook", "#1877F3"), Platform("instagram", "#E4405F"),
    Platform("x", "#000000"), Platform("pinterest", "#E60023"),
    Platform("linkedin", "#0A66C2"), Platform("tiktok", "#000000")]

  /** The colour of a platform without a url. */
  const InactiveColor: string := "#B0B0B0"

  /** One drawn icon: a link to `href` when active, a dimmed span otherwise. */
  datatype SocialIcon = SocialIcon(platform: string, color: string, href: Option<string>)

  /** A string member of a link entry, the empty string otherwise. */
  function StrMember(v: Value, key: string): (r: string)
    ensures v.Obj? && key in v.props && v.props[key].Str? ==> r == v.props[key].s
    ensures !(v.Obj? && key in v.props && v.props[key].Str?) ==> r == ""
  {
    match Member(Some(v), key)
    case Some(Str(s)) => s
    case _ => ""
  }

  /** `module.links || []`, each entry read as `{ platform, url }`. */
  function LinksOf(m: Module): (r: seq<Link>)
    ensures "links" in m.fields && m.fields["links"].Arr? ==> |r| == |m.fields["links"].items|
    ensures "links" in m.fields && m.fields["links"].Arr? ==>
              forall i :: 0 <= i < |r| ==>
                && r[i].platform == StrMember(m.fields["links"].items[i], "platform")
                && r[i].url == StrMember(m.fields["links"].items[i], "url")
    ensures !("links" in m.fields && m.fields["links"].Arr?) ==> r == []
  {
    if "links" in m.fields && m.fields["links"].Arr? then
      var items := m.fields["links"].items;
      seq(|items|, i requires 0 <= i < |items| => Link(StrMember(items[i], "platform"), StrMember(items[i], "url")))
    else []
  }

  /** `Object.fromEntries(links.map(l => [l.platform, l.url]))`: entries are
      taken in order, so a later entry for a platform replaces an earlier one. */
  function LinksMap(links: seq<Link>): map<string, string> {
    if |links| == 0 then map[]
    else LinksMap(links[..|links| - 1])[links[|links| - 1].platform := links[|links| - 1].url]
  }

  /** `linksMap[name] || ""`: the url of the last link naming the platform,
      or "" when no link names it. */
  function LookupUrl(links: seq<Link>, name: string): (r: string)
    ensures (forall i :: 0 <= i < |links| ==> links[i].platform != name) ==> r == ""
    ensures forall i :: (0 <= i < |links| && links[i].platform == name &&
                         forall j :: i < j < |links| ==> links[j].platform != name) ==> r == links[i].url
  {
    LinksMapKeys(links);
    LinksMapLastWins(links);
    var m := LinksMap(links);
    if name in m then m[name] else ""
  }

  /** A platform has an entry in the map exactly when some link names it. */
  lemma {:induction false} LinksMapKeys(links: seq<Link>)
    ensures forall name :: name in LinksMap(links) <==> exists i :: 0 <= i < |links| && links[i].platform == name
  {
    if |links| > 0 {
      var init := links[..|links| - 1];
      LinksMapKeys(init);
      forall name | name in LinksMap(links)
        ensures exists i :: 0 <= i < |links| && links[i].platform == name
      {
        if name != links[|links| - 1].platform {
          assert name in LinksMap(init);
          var i :| 0 <= i < |init| && init[i].platform == name;
          assert links[i] == init[i];
        }
      }
      forall i | 0 <= i < |links|
        ensures links[i].platform in LinksMap(links)
      {
        if i < |init| {
          assert init[i] == links[i];
        }
      }
    }
  }

  /** The entry for a platform is the url of the last link that names it. */
  lemma {:induction false} LinksMapLastWins(links: seq<Link>)
    ensures forall i :: 0 <= i < |links| && (forall j :: i < j < |links| ==> links[j].platform != links[i].platform) ==>
              links[i].platform in LinksMap(links) && LinksMap(links)[links[i].platform] == links[i].url
  {
    if |links| > 0 {
      var init := links[..|links| - 1];
      LinksMapLastWins(init);
      forall i | 0 <= i < |links| && (forall j :: i < j < |links| ==> links[j].platform != links[i].platform)
        ensures links[i].platform in LinksMap(links) && LinksMap(links)[links[i].platform] == links[i].url
      {
        if i < |init| {
          assert init[i] == links[i];
          assert forall j :: i < j < |init| ==> init[j] == links[j];
        }
      }
    }
  }

  /** The six icons, in the fixed platform order whatever the order of the
      links; a platform is active, and drawn as a link in its brand colour,
      exactly when its looked-up url is non-empty. */
  function SocialIcons(links: seq<Link>): (r: seq<SocialIcon>)
    ensures |r| == |Platforms|
    ensures forall i :: 0 <= i < |r| ==> r[i].platform == Platforms[i].name
    ensures forall i :: 0 <= i < |r| ==> (r[i].href.Some? <==> LookupUrl(links, Platforms[i].name) != "")
    ensures forall i :: 0 <= i < |r| && r[i].href.Some? ==>
              r[i].href.value == LookupUrl(links, Platforms[i].name) && r[i].color == Platforms[i].color
    ensures forall i :: 0 <= i < |r| && r[i].href.None? ==> r[i].color == InactiveColor
  {
    seq(|Platforms|, i requires 0 <= i < |Platforms| =>
      var url := LookupUrl(links, Platforms[i].name);
      if url != "" then SocialIcon(Platforms[i].name, Platforms[i].color, Some(url))
      else SocialIcon(Platforms[i].name, InactiveColor, None))
  }

  /** A link for a platform the renderer does not draw changes nothing. */
  lemma IgnoresOtherPlatforms(links: seq<Link>, l: Link)
    requires forall p :: p in Platforms ==> p.name != l.platform
    ensures SocialIcons(links + [l]) == SocialIcons(links)
  {
    assert (links + [l])[..|links|] == links;
    assert forall i :: 0 <= i < |Platforms| ==> Platforms[i] in Platforms;
  }

  /** A later link for a platform overrides an earlier one. */
  lemma LastLinkWins(links: seq<Link>, l: Link)
    ensures LookupUrl(links + [l], l.platform) == l.url
    ensures forall name :: name != l.platform ==> LookupUrl(links + [l], name) == LookupUrl(links, name)
  {
    assert (links + [l])[..|links|] == links;
  }

  /** The default social links, facebook with no url and twitter, leave all
      six icons dimmed. */
  lemma DefaultSocialAllDimmed(id: string)
    ensures var icons := SocialIcons(LinksOf(Module(id, Social, DefaultFields(Social))));
      forall i :: 0 <= i < |icons| ==> icons[i].href.None?
  {
    var items := [LinkValue("facebook", ""), LinkValue("twitter", "")];
    assert DefaultFields(Social)["links"] == Arr(items);
    var links := [Link("facebook", ""), Link("twitter", "")];
    assert StrMember(items[0], "platform") == "facebook" && StrMember(items[0], "url") == "";
    assert StrMember(items[1], "platform") == "twitter" && StrMember(items[1], "url") == "";
    assert LinksOf(Module(id, Social, DefaultFields(Social))) == links;
    assert links[..1] == [Link("facebook", "")];
    assert [Link("facebook", "")][..0] == [];
    assert LinksMap(links) == map["facebook" := "", "twitter" := ""];
  }

  // ----- Button -----

  /** The four padding sides in CSS shorthand order. */
  datatype Box = Box(top: Value, right: Value, bottom: Value, left: Value)

  function BoxSide(b: Box, side: Side): Value {
    match side
    case Top => b.top
    case RightSide => b.right
    case Bottom => b.bottom
    case LeftSide => b.left
  }

  /** A box built side by side from the padding value reads back, side by
      side, as the `|| 0` of that side. */
  lemma BoxOfSides(box: Box, pad: Option<Value>)
    requires box == Box(
      Or(Member(pad, "top"), Num(0.0)), Or(Member(pad, "right"), Num(0.0)),
      Or(Member(pad, "bottom"), Num(0.0)), Or(Member(pad, "left"), Num(0.0)))
    ensures forall side: Side :: BoxSide(box, side) == Or(Member(pad, SideName(side)), Num(0.0))
  {
    forall side: Side
      ensures BoxSide(box, side) == Or(Member(pad, SideName(side)), Num(0.0))
    {
      match side
      case Top =>
      case RightSide =>
      case Bottom =>
      case LeftSide =>
    }
  }

  /** What the renderer draws for a button. `href` is present only in
      preview, where the anchor is a live link. */
  datatype ButtonView = ButtonView(
    text: Value, alignment: Value, padding: Box, borderWidth: Value, borderColor: Value,
    borderRadius: Value, width: Value, height: Value, href: Option<string>)

  /** The button's `href` as `sanitizeUrl` reads it: a missing value is as falsy as "". */
  function HrefOf(m: Module): string {
    if "href" in m.fields && m.fields["href"].Str? then m.fields["href"].s else ""
  }

  /** The button case of `renderModule`: label, padding sides, border width
      and radius fall back to "Button", 0, 0 and 0 when missing or falsy; in
      preview the link goes through `sanitizeUrl`. */
  function RenderButton(m: Module, preview: bool): (r: ButtonView)
    ensures Truthy(r.text)
    ensures !(Get(m.fields, "text").Some? && Truthy(m.fields["text"])) ==> r.text == Str("Button")
    ensures Get(m.fields, "text").Some? && Truthy(m.fields["text"]) ==> r.text == m.fields["text"]
    ensures forall side: Side :: BoxSide(r.padding, side) == Or(Member(Get(m.fields, "padding"), SideName(side)), Num(0.0))
    ensures forall side: Side :: BoxSide(r.padding, side) == Num(0.0) || Truthy(BoxSide(r.padding, side))
    ensures forall side: Side :: Member(Get(m.fields, "padding"), SideName(side)).None? ==>
              BoxSide(r.padding, side) == Num(0.0)
    ensures !(Get(m.fields, "borderWidth").Some? && Truthy(m.fields["borderWidth"])) ==> r.borderWidth == Num(0.0)
    ensures r.alignment == Or(Get(m.fields, "alignment"), Str("left"))
    ensures r.borderWidth == Or(Get(m.fields, "borderWidth"), Num(0.0))
    ensures r.borderColor == Or(Get(m.fields, "borderColor"), Str("transparent"))
    ensures r.borderRadius == Or(Get(m.fields, "borderRadius"), Num(0.0))
    ensures r.width == Or(Get(m.fields, "width"), Str("auto"))
    ensures r.height == Or(Get(m.fields, "height"), Str("auto"))
    ensures preview <==> r.href.Some?
    ensures preview ==> r.href.value == SanitizeUrl(HrefOf(m)) && r.href.value != ""
  {
    var pad := Get(m.fields, "padding");
    var box := Box(
      Or(Member(pad, "top"), Num(0.0)), Or(Member(pad, "right"), Num(0.0)),
      Or(Member(pad, "bottom"), Num(0.0)), Or(Member(pad, "left"), Num(0.0)));
    BoxOfSides(box, pad);
    ButtonView(
      Or(Get(m.fields, "text"), Str("Button")),
      Or(Get(m.fields, "alignment"), Str("left")),
      box,
      Or(Get(m.fields, "borderWidth"), Num(0.0)),
      Or(Get(m.fields, "borderColor"), Str("transparent")),
      Or(Get(m.fields, "borderRadius"), Num(0.0)),
      Or(Get(m.fields, "width"), Str("auto")),
      Or(Get(m.fields, "height"), Str("auto")),
      if preview then Some(SanitizeUrl(HrefOf(m))) else None)
  }
}

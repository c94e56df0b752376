/** The email document schema: the closed set of module kinds, the loosely
    typed field values a module carries, the global settings, the editor state
    and the actions the reducer accepts (src/types/index.ts). */
module Schema {
  import opened Wrappers

  /** The ten module kinds; the set is closed. */
  datatype Kind =
    | Text | Image | Button | Divider | Spacer
    | ImageText | Columns | Code | Social | Unsubscribe

  /** Every kind, in the order the source declares them. */
  const AllKinds: seq<Kind> :=
    [Text, Image, Button, Divider, Spacer, ImageText, Columns, Code, Social, Unsubscribe]

  /** The `type` discriminant string of a kind. */
  function KindName(k: Kind): string {
    match k
    case Text => "text"
    case Image => "image"
    case Button => "button"
    case Divider => "divider"
    case Spacer => "spacer"
    case ImageText => "image-text"
    case Columns => "columns"
    case Code => "code"
    case Social => "social"
    case Unsubscribe => "unsubscribe"
  }

  /** The kind whose discriminant is `s`, if there is one. */
  function ParseKind(s: string): (r: Option<Kind>)
    ensures r.Some? ==> KindName(r.value) == s
    ensures r.None? ==> forall k: Kind :: KindName(k) != s
  {
    if s == "text" then Some(Text)
    else if s == "image" then Some(Image)
    else if s == "button" then Some(Button)
    else if s == "divider" then Some(Divider)
    else if s == "spacer" then Some(Spacer)
    else if s == "image-text" then Some(ImageText)
    else if s == "columns" then Some(Columns)
    else if s == "code" then Some(Code)
    else if s == "social" then Some(Social)
    else if s == "unsubscribe" then Some(Unsubscribe)
    else None
  }

  /** The kind set has exactly ten members, each with its own discriminant,
      and parsing a discriminant gives back its kind. */
  lemma KindsClosed()
    ensures |AllKinds| == 10
    ensures forall k: Kind :: k in AllKinds
    ensures forall i, j :: 0 <= i < j < |AllKinds| ==> KindName(AllKinds[i]) != KindName(AllKinds[j])
    ensures forall k: Kind :: ParseKind(KindName(k)) == Some(k)
  {
    AllKindsListed();
    KindNamesDistinct();
  }

  lemma AllKindsListed()
    ensures forall k: Kind :: k in AllKinds
  {
    forall k: Kind
      ensures k in AllKinds
    {
      match k
      case Text => assert AllKinds[0] == k;
      case Image => assert AllKinds[1] == k;
      case Button => assert AllKinds[2] == k;
      case Divider => assert AllKinds[3] == k;
      case Spacer => assert AllKinds[4] == k;
      case ImageText => assert AllKinds[5] == k;
      case Columns => assert AllKinds[6] == k;
      case Code => assert AllKinds[7] == k;
      case Social => assert AllKinds[8] == k;
      case Unsubscribe => assert AllKinds[9] == k;
    }
  }

  /** Distinct kinds have distinct discriminants. */
  lemma KindNamesDistinct()
    ensures forall i, j :: 0 <= i < j < |AllKinds| ==> KindName(AllKinds[i]) != KindName(AllKinds[j])
  {
    forall i, j | 0 <= i < j < |AllKinds|
      ensures KindName(AllKinds[i]) != KindName(AllKinds[j])
    {
      assert ParseKind(KindName(AllKinds[i])) == Some(AllKinds[i]);
      assert ParseKind(KindName(AllKinds[j])) == Some(AllKinds[j]);
    }
  }

  /** The three values an alignment field ranges over. */
  datatype Align = AlignLeft | AlignCenter | AlignRight

  function AlignName(a: Align): string {
    match a
    case AlignLeft => "left"
    case AlignCenter => "center"
    case AlignRight => "right"
  }

  /** The three divider line styles. */
  datatype LineStyle = Solid | Dashed | Dotted

  function LineStyleName(l: LineStyle): string {
    match l
    case Solid => "solid"
    case Dashed => "dashed"
    case Dotted => "dotted"
  }

  /** The four sides of a padding record. */
  datatype Side = Top | RightSide | Bottom | LeftSide

  function SideName(s: Side): string {
    match s
    case Top => "top"
    case RightSide => "right"
    case Bottom => "bottom"
    case LeftSide => "left"
  }

  /** A field value as JavaScript holds it: a string, a number, an array or a
      plain object. */
  datatype Value =
    | Str(s: string)
    | Num(x: real)
    | Arr(items: seq<Value>)
    | Obj(props: map<string, Value>)

  /** JavaScript truthiness of a value: the empty string and zero are falsy. */
  predicate Truthy(v: Value) {
    match v
    case Str(s) => s != ""
    case Num(x) => x != 0.0
    case _ => true
  }

  /** `v.key` where `v` may be undefined: only an object has members. */
  function Member(v: Option<Value>, key: string): Option<Value> {
    if v.Some? && v.value.Obj? && key in v.value.props then Some(v.value.props[key]) else None
  }

  /** `fields[key]`, undefined when the key is absent. */
  function Get(fields: map<string, Value>, key: string): Option<Value> {
    if key in fields then Some(fields[key]) else None
  }

  /** `v || fallback`. */
  function Or(v: Option<Value>, fallback: Value): (r: Value)
    ensures v.Some? && Truthy(v.value) ==> r == v.value
    ensures (v.None? || !Truthy(v.value)) ==> r == fallback
  {
    if v.Some? && Truthy(v.value) then v.value else fallback
  }

  /** The per-kind fields, with `id` and `type` held apart in their own slots. */
  predicate PlainFields(fields: map<string, Value>) {
    "id" !in fields && "type" !in fields
  }

  /** A module: its identifier, its kind discriminant and the kind's fields. */
  datatype Module = Module(id: string, kind: Kind, fields: map<string, Value>)

  /** The payload of an add: a module without an `id`, although a default
      may carry one that the reducer overrides. */
  datatype Draft = Draft(id: Option<string>, kind: Kind, fields: map<string, Value>)

  /** `Partial<ModuleUnion>`: any subset of a module's keys, `id` and `type` included. */
  datatype Patch = Patch(id: Option<string>, kind: Option<Kind>, fields: map<string, Value>)

  /** The global, per-document settings. */
  datatype Settings = Settings(subject: string, preheader: string, backgroundColor: string, contentWidth: real)

  /** `Partial<EmailSettings>`. */
  datatype SettingsPatch = SettingsPatch(
    subject: Option<string>, preheader: Option<string>,
    backgroundColor: Option<string>, contentWidth: Option<real>)

  /** The whole document: the top-level module list and the settings. */
  datatype State = State(modules: seq<Module>, settings: Settings)

  /** The five actions the reducer declares. */
  datatype Action =
    | AddModule(payload: Draft)
    | UpdateModule(id: string, updates: Patch)
    | DeleteModule(id: string)
    | ReorderModules(order: seq<Module>)
    | UpdateSettings(changes: SettingsPatch)

  /** What reaches the reducer at run time: a declared action, or an object
      whose `type` is none of the five. */
  datatype Dispatch = Known(action: Action) | Unknown(actionType: string)

  /** The value shapes the declared module interfaces give their fields. */
  datatype FieldType = StrField | NumField | AlignField | StyleField | PaddingField | LinksField | ListField

  /** One declared field of a module interface; optional fields are `?` in the source. */
  datatype FieldSpec = FieldSpec(key: string, ty: FieldType, required: bool)

  /** The fields each module interface declares besides `id` and `type`. */
  function DeclaredFields(k: Kind): seq<FieldSpec> {
    match k
    case Text => [
      FieldSpec("content", StrField, true), FieldSpec("fontSize", NumField, true),
      FieldSpec("fontFamily", StrField, true), FieldSpec("fontWeight", StrField, false),
      FieldSpec("fontStyle", StrField, false), FieldSpec("textDecoration", StrField, false),
      FieldSpec("textAlign", AlignField, true), FieldSpec("lineHeight", NumField, false),
      FieldSpec("color", StrField, true), FieldSpec("backgroundColor", StrField, false),
      FieldSpec("highlightColor", StrField, false), FieldSpec("padding", PaddingField, false)]
    case Image => [
      FieldSpec("src", StrField, true), FieldSpec("alt", StrField, true),
      FieldSpec("width", StrField, true), FieldSpec("height", StrField, false),
      FieldSpec("alignment", AlignField, false)]
    case Button => [
      FieldSpec("text", StrField, true), FieldSpec("href", StrField, true),
      FieldSpec("backgroundColor", StrField, true), FieldSpec("textColor", StrField, true),
      FieldSpec("width", StrField, false), FieldSpec("height", StrField, false),
      FieldSpec("padding", PaddingField, false), FieldSpec("alignment", AlignField, false),
      FieldSpec("borderColor", StrField, false), FieldSpec("borderWidth", NumField, false),
      FieldSpec("borderRadius", NumField, false), FieldSpec("fontFamily", StrField, false),
      FieldSpec("fontWeight", StrField, false), FieldSpec("fontSize", NumField, false)]
    case Divider => [
      FieldSpec("height", NumField, true), FieldSpec("color", StrField, true),
      FieldSpec("style", StyleField, true)]
    case Spacer => [FieldSpec("height", NumField, true), FieldSpec("backgroundColor", StrField, false)]
    case ImageText => [FieldSpec("image", StrField, true), FieldSpec("text", StrField, true)]
    case Columns => [FieldSpec("columns", ListField, true)]
    case Code => [FieldSpec("code", StrField, true), FieldSpec("language", StrField, true)]
    case Social => [FieldSpec("links", LinksField, true)]
    case Unsubscribe => [FieldSpec("label", StrField, true)]
  }

  /** A string one of the alignment names. */
  predicate IsAlignName(s: string) {
    exists a: Align :: AlignName(a) == s
  }

  /** A string one of the divider style names. */
  predicate IsLineStyleName(s: string) {
    exists l: LineStyle :: LineStyleName(l) == s
  }

  /** The alignment domain is exactly `left`, `center` and `right`. */
  lemma AlignNamesClosed(s: string)
    ensures IsAlignName(s) <==> s == "left" || s == "center" || s == "right"
  {
    if s == "left" {
      assert AlignName(AlignLeft) == s;
    } else if s == "center" {
      assert AlignName(AlignCenter) == s;
    } else if s == "right" {
      assert AlignName(AlignRight) == s;
    }
  }

  /** The divider style domain is exactly `solid`, `dashed` and `dotted`. */
  lemma LineStyleNamesClosed(s: string)
    ensures IsLineStyleName(s) <==> s == "solid" || s == "dashed" || s == "dotted"
  {
    if s == "solid" {
      assert LineStyleName(Solid) == s;
    } else if s == "dashed" {
      assert LineStyleName(Dashed) == s;
    } else if s == "dotted" {
      assert LineStyleName(Dotted) == s;
    }
  }

  /** A padding object with a number on every side. */
  predicate IsPadding(v: Value) {
    v.Obj? && forall side: Side :: SideName(side) in v.props && v.props[SideName(side)].Num?
  }

  /** A social link object `{ platform, url }` with string members. */
  predicate IsLink(v: Value) {
    && v.Obj? && "platform" in v.props && v.props["platform"].Str?
    && "url" in v.props && v.props["url"].Str?
  }

  /** `v` has the shape a field of type `t` declares. */
  predicate HasType(v: Value, t: FieldType) {
    match t
    case StrField => v.Str?
    case NumField => v.Num?
    case AlignField => v.Str? && IsAlignName(v.s)
    case StyleField => v.Str? && IsLineStyleName(v.s)
    case PaddingField => IsPadding(v)
    case LinksField => v.Arr? && forall i :: 0 <= i < |v.items| ==> IsLink(v.items[i])
    case ListField => v.Arr?
  }

  /** One declared field is present when required, and has its declared
      shape when present. */
  predicate SpecHolds(f: FieldSpec, fields: map<string, Value>) {
    && (f.required ==> f.key in fields)
    && (f.key in fields ==> HasType(fields[f.key], f.ty))
  }

  /** The fields carry every required field of the kind's interface, and every
      declared field present has its declared shape. Undeclared keys are
      allowed, as the interfaces' index signature allows them. */
  predicate Conforms(k: Kind, fields: map<string, Value>) {
    && PlainFields(fields)
    && forall i :: 0 <= i < |DeclaredFields(k)| ==> SpecHolds(DeclaredFields(k)[i], fields)
  }
}

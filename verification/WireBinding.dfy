/** What the generated Go types marshal to, and why the validator accepts it.

    `Marshal` is encoding/json on a value of a generated type.  `Faithful` is what the
    generator leaves behind: every struct mirrors its definition and every name it uses
    is declared.  The main result closes the chain contract, schema, Go types. */
module WireBinding {
  import opened Framing
  import opened Json
  import opened Contract
  import opened Schema
  import opened WireGen

  datatype GoVal =
    | VString(s: string)
    | VInt(i: int)
    | VFloat(r: real)
    | VBool(b: bool)
    | VNilRaw
    | VRaw(json: Json)
    | VNilSlice
    | VSlice(items: seq<GoVal>)
    | VNilPtr
    | VPtr(target: GoVal)
    | VStruct(name: string, fields: map<string, GoVal>)

  /** What `omitempty` leaves out. */
  predicate Empty(g: GoVal) {
    match g
    case VString(s) => s == ""
    case VInt(i) => i == 0
    case VFloat(r) => r == 0.0
    case VBool(b) => !b
    case VSlice(items) => items == []
    case VNilRaw => true
    case VNilSlice => true
    case VNilPtr => true
    case _ => false
  }

  predicate Dropped(fields: seq<GoField>, k: string, g: GoVal) {
    Empty(g) && exists i :: 0 <= i < |fields| && fields[i].json == k && fields[i].omitempty
  }

  /** From here on a float is written with an exponent. */
  const EXPONENT_FROM: real := 1000000000000000000000.0

  /** A whole float is written without a fraction, so it reads back as an integer. */
  function FloatJson(r: real): Json {
    if IsIntegral(r) && -EXPONENT_FROM < r < EXPONENT_FROM then Int(r.Floor) else Num(r)
  }

  function Marshal(structs: StructTypes, g: GoVal): Json {
    match g
    case VString(s) => Str(s)
    case VInt(i) => Int(i)
    case VFloat(r) => FloatJson(r)
    case VBool(b) => Bool(b)
    case VNilRaw => Null
    case VRaw(json) => json
    case VNilSlice => Null
    case VSlice(items) => Arr(seq(|items|, i requires 0 <= i < |items| => Marshal(structs, items[i])))
    case VNilPtr => Null
    case VPtr(x) => Marshal(structs, x)
    case VStruct(n, fields) =>
      Obj(map k | k in fields && !(n in structs && Dropped(structs[n], k, fields[k])) :: Marshal(structs, fields[k]))
  }

  predicate HasGoType(types: Types, t: GoTy, g: GoVal)
    decreases g, t
  {
    match t
    case GoString => g.VString?
    case GoInt => g.VInt?
    case GoFloat64 => g.VFloat?
    case GoBool => g.VBool?
    case GoRaw => g.VNilRaw? || g.VRaw?
    case GoSlice(e) => g.VNilSlice? || (g.VSlice? && forall i | 0 <= i < |g.items| :: HasGoType(types, e, g.items[i]))
    case GoPtr(e) => g.VNilPtr? || (g.VPtr? && HasGoType(types, e, g.target))
    case GoNamed(n) =>
      if n in types.structs then
        g.VStruct? && g.name == n && forall i | 0 <= i < |types.structs[n]| ::
          var f := types.structs[n][i]; f.json in g.fields && HasGoType(types, f.ty, g.fields[f.json])
      else
        n in types.enums && g.VString? && g.s in types.enums[n]
  }

  /** The caller's part: raw members hold valid JSON, and nil stands only where the schema
      takes null or the member is left out. */
  predicate Filled(defs: Defs, s: Schema, g: GoVal)
    decreases g, 1, s
  {
    if g.VNilRaw? || g.VNilSlice? then Valid(defs, s, Null)
    else if g.VRaw? then Valid(defs, s, g.json)
    else if g.VNilPtr? then true
    else if g.VPtr? then Filled(defs, s, g.target)
    else
      match s
      case AnyOf(options) =>
        var concrete := ConcreteOptions(options);
        |concrete| == 1 ==> (assert concrete[0] in options; Filled(defs, concrete[0], g))
      case ArrayOf(items) => g.VSlice? ==> forall i | 0 <= i < |g.items| :: Filled(defs, items, g.items[i])
      case Ref(n) => g.VStruct? && n in defs ==> FilledFields(defs, defs[n], g)
      case _ => true
  }

  predicate FilledFields(defs: Defs, d: Def, g: GoVal)
    requires g.VStruct?
    decreases g, 0
  {
    d.ObjectDef? ==> forall i | 0 <= i < |d.properties| && d.properties[i].name in g.fields ::
      (d.properties[i].name !in d.required && Empty(g.fields[d.properties[i].name]))
      || Filled(defs, d.properties[i].schema, g.fields[d.properties[i].name])
  }

  // ---- what the generator leaves behind -------------------------------------------------------

  /** Every name the fragment needs is declared, an enum's with its own values. */
  predicate Settled(types: Types, s: Schema) {
    match s
    case Ref(n) => '/' !in n && n in types.structs
    case AnyOf(options) => forall o | o in options :: Settled(types, o)
    case StringEnum(values) =>
      && values != [] && EnumKey(values) in ENUM_NAMES
      && var name := ENUM_NAMES[EnumKey(values)];
         name !in types.structs && name in types.enums && multiset(types.enums[name]) == multiset(values)
    case ArrayOf(items) => Settled(types, items)
    case _ => true
  }

  ghost predicate FaithfulDef(types: Types, d: Def, fields: seq<GoField>) {
    && d.ObjectDef?
    && |fields| == |d.properties|
    && (forall i | 0 <= i < |d.properties| ::
          FieldOf(d.properties[i], d.required) == Some(fields[i]) && Settled(types, d.properties[i].schema))
    && forall i | 0 <= i < |d.required| :: exists j :: 0 <= j < |d.properties| && d.properties[j].name == d.required[i]
  }

  ghost predicate Faithful(types: Types, defs: Defs) {
    && types.structs.Keys == defs.Keys
    && forall n | n in defs :: FaithfulDef(types, defs[n], types.structs[n])
  }

  // ---- marshalling is sound --------------------------------------------------------------------

  lemma SettledIsPlain(types: Types, s: Schema)
    requires Settled(types, s)
    ensures PlainRefs(s)
  {
  }

  /** Every value of a fragment's Go type marshals to JSON the fragment accepts. */
  lemma {:induction false} MarshalIsValid(types: Types, defs: Defs, s: Schema, t: GoTy, g: GoVal)
    requires Faithful(types, defs) && Settled(types, s) && TypeFor(s) == Some(t)
    requires HasGoType(types, t, g) && Filled(defs, s, g)
    ensures Valid(defs, s, Marshal(types.structs, g))
    decreases g, 1, s
  {
    match s
    case Ref(n) => StructIsValid(types, defs, n, g);
    case AnyOf(options) => ChoiceIsValid(types, defs, s, t, g);
    case ArrayOf(items) =>
      if g.VSlice? {
        forall i | 0 <= i < |g.items| ensures Valid(defs, items, Marshal(types.structs, g.items[i])) {
          MarshalIsValid(types, defs, items, t.elem, g.items[i]);
        }
      }
    case StringEnum(values) =>
      assert g.s in multiset(values);
    case _ =>
  }

  lemma PointsAtNonNil(types: Types, s: Schema, t: GoTy)
    requires Settled(types, s) && TypeFor(s) == Some(t)
    ensures t.GoPtr? ==> !Nilable(t.elem)
  {
    SettledIsPlain(types, s);
    NodeHasType(s);
    NoDoublePointer(NodeOf(s), t);
  }

  lemma FilledAlternative(defs: Defs, s: Schema, g: GoVal)
    requires s.AnyOf? && |ConcreteOptions(s.options)| == 1 && Filled(defs, s, g)
    requires !g.VRaw? && !g.VNilRaw? && !g.VNilSlice?
    requires g.VPtr? ==> !g.target.VRaw? && !g.target.VNilRaw? && !g.target.VNilSlice? && !g.target.VPtr?
    ensures Filled(defs, ConcreteOptions(s.options)[0], g)
    ensures g.VPtr? ==> Filled(defs, ConcreteOptions(s.options)[0], g.target)
  {
    hide Valid;
  }

  /** The one alternative besides null, when there is one, is what the Go value fills. */
  lemma OneAlternative(types: Types, defs: Defs, s: Schema, t: GoTy, g: GoVal) returns (c: Schema, inner: GoTy, x: GoVal)
    requires Settled(types, s) && s.AnyOf? && TypeFor(s) == Some(t) && |ConcreteOptions(s.options)| == 1
    requires HasGoType(types, t, g) && Filled(defs, s, g) && !g.VRaw? && !g.VNilRaw? && !g.VNilSlice?
    requires g.VNilPtr? ==> NullType !in s.options
    ensures c in s.options && Settled(types, c) && TypeFor(c) == Some(inner)
    ensures HasGoType(types, inner, x) && Filled(defs, c, x)
    ensures x == g || (g.VPtr? && x == g.target)
  {
    PointsAtNonNil(types, s, t);
    FilledAlternative(defs, s, g);
    hide Filled;
    c := ConcreteOptions(s.options)[0];
    inner := TypeFor(c).value;
    x := if t == inner then g else g.target;
  }

  lemma {:induction false} ChoiceIsValid(types: Types, defs: Defs, s: Schema, t: GoTy, g: GoVal)
    requires Faithful(types, defs) && Settled(types, s) && s.AnyOf? && TypeFor(s) == Some(t)
    requires HasGoType(types, t, g) && Filled(defs, s, g)
    ensures Valid(defs, s, Marshal(types.structs, g))
    decreases g, 1, s, 0
  {
    hide Faithful, Settled, HasGoType;
    if g.VRaw? || g.VNilRaw? || g.VNilSlice? {
    } else if g.VNilPtr? && NullType in s.options {
      assert Valid(defs, NullType, Null);
    } else {
      ChoiceIsNotRaw(types, s, t, g);
      var c, inner, x := OneAlternative(types, defs, s, t, g);
      MarshalIsValid(types, defs, c, inner, x);
      hide Filled, TypeFor;
      assert Marshal(types.structs, x) == Marshal(types.structs, g);
    }
  }

  lemma ChoiceIsNotRaw(types: Types, s: Schema, t: GoTy, g: GoVal)
    requires s.AnyOf? && TypeFor(s) == Some(t) && HasGoType(types, t, g) && !g.VRaw? && !g.VNilRaw?
    ensures |ConcreteOptions(s.options)| == 1
  {
  }

  lemma {:induction false} StructIsValid(types: Types, defs: Defs, n: string, g: GoVal)
    requires Faithful(types, defs) && n in defs
    requires HasGoType(types, GoNamed(n), g) && Filled(defs, Ref(n), g)
    ensures Valid(defs, Ref(n), Marshal(types.structs, g))
    decreases g, 0
  {
    var d, fields, m := defs[n], types.structs[n], Marshal(types.structs, g);
    assert FaithfulDef(types, d, fields) && FilledFields(defs, d, g);
    forall i | 0 <= i < |d.properties| && d.properties[i].name in m.fields
      ensures Valid(defs, d.properties[i].schema, m.fields[d.properties[i].name])
    {
      var p := d.properties[i];
      assert FieldOf(p, d.required) == Some(fields[i]) && fields[i].json in g.fields;
      SettledIsPlain(types, p.schema);
      NodeHasType(p.schema);
      FieldIsValid(types, defs, p.schema, TypeFor(p.schema).value, p.name in d.required, g.fields[p.name]);
    }
    forall i | 0 <= i < |d.required| ensures d.required[i] in m.fields {
      var j :| 0 <= j < |d.properties| && d.properties[j].name == d.required[i];
      assert FieldOf(d.properties[j], d.required) == Some(fields[j]);
      assert fields[j].json in g.fields;
      assert forall k | 0 <= k < |fields| && fields[k].json == d.required[i] :: !fields[k].omitempty by {
        forall k | 0 <= k < |fields| && fields[k].json == d.required[i] ensures !fields[k].omitempty {
          assert FieldOf(d.properties[k], d.required) == Some(fields[k]);
        }
      }
    }
  }

  lemma {:induction false} FieldIsValid(types: Types, defs: Defs, s: Schema, inner: GoTy, required: bool, x: GoVal)
    requires Faithful(types, defs) && Settled(types, s) && TypeFor(s) == Some(inner)
    requires HasGoType(types, if required then inner else Nullable(inner), x) && Filled(defs, s, x)
    requires required || !Empty(x)
    ensures Valid(defs, s, Marshal(types.structs, x))
    decreases x, 2
  {
    if required || Nilable(inner) {
      MarshalIsValid(types, defs, s, inner, x);
    } else {
      MarshalIsValid(types, defs, s, inner, x.target);
    }
  }

  // ---- ... and the caller's part is needed ---------------------------------------------------------

  lemma OnlyNilIsNull(structs: StructTypes, g: GoVal)
    requires !g.VNilRaw? && !g.VRaw? && !g.VNilSlice? && !g.VNilPtr? && !g.VPtr?
    ensures Marshal(structs, g) != Null
  {
  }

  lemma {:induction false} OneConcrete(options: seq<Schema>, i: nat)
    requires i < |options| && options[i] != NullType && |ConcreteOptions(options)| == 1
    ensures options[i] == ConcreteOptions(options)[0]
    decreases |options|
  {
    var n := |options| - 1;
    if i < n {
      IsConcrete(options[..n], i);
      OneConcrete(options[..n], i);
    }
  }

  lemma {:induction false} IsConcrete(options: seq<Schema>, i: nat)
    requires i < |options| && options[i] != NullType
    ensures ConcreteOptions(options) != []
    decreases |options|
  {
    var n := |options| - 1;
    if i < n {
      IsConcrete(options[..n], i);
    }
  }

  lemma ValidAlternative(defs: Defs, options: seq<Schema>, v: Json)
    requires |ConcreteOptions(options)| == 1 && v != Null && Valid(defs, AnyOf(options), v)
    ensures Valid(defs, ConcreteOptions(options)[0], v)
  {
    var i :| 0 <= i < |options| && Valid(defs, options[i], v);
    OneConcrete(options, i);
  }

  /** A value whose JSON its fragment accepts was filled as asked. */
  lemma {:induction false} ValidIsFilled(types: Types, defs: Defs, s: Schema, t: GoTy, g: GoVal)
    requires Faithful(types, defs) && Settled(types, s) && TypeFor(s) == Some(t)
    requires HasGoType(types, t, g) && Valid(defs, s, Marshal(types.structs, g))
    ensures Filled(defs, s, g)
    decreases g, 1, s
  {
    if g.VNilRaw? || g.VRaw? || g.VNilSlice? || g.VNilPtr? {
    } else if s.AnyOf? {
      ChoiceIsFilled(types, defs, s, t, g);
    } else {
      match s
      case Ref(n) => StructIsFilled(types, defs, n, g);
      case ArrayOf(items) =>
        forall i | 0 <= i < |g.items| ensures Filled(defs, items, g.items[i]) {
          assert Valid(defs, items, Marshal(types.structs, g).items[i]);
          ValidIsFilled(types, defs, items, t.elem, g.items[i]);
        }
      case _ =>
    }
  }

  lemma {:induction false} ChoiceIsFilled(types: Types, defs: Defs, s: Schema, t: GoTy, g: GoVal)
    requires Faithful(types, defs) && Settled(types, s) && s.AnyOf? && TypeFor(s) == Some(t)
    requires HasGoType(types, t, g) && Valid(defs, s, Marshal(types.structs, g))
    requires !g.VNilRaw? && !g.VRaw? && !g.VNilSlice? && !g.VNilPtr?
    ensures Filled(defs, s, g)
    decreases g, 1, s, 0
  {
    ChoiceIsNotRaw(types, s, t, g);
    PointsAtNonNil(types, s, t);
    var c := ConcreteOptions(s.options)[0];
    assert c in s.options;
    var inner := TypeFor(c).value;
    OnlyNilIsNull(types.structs, if g.VPtr? then g.target else g);
    ValidAlternative(defs, s.options, Marshal(types.structs, g));
    ValidIsFilled(types, defs, c, inner, if t == inner then g else g.target);
  }

  lemma {:induction false} StructIsFilled(types: Types, defs: Defs, n: string, g: GoVal)
    requires Faithful(types, defs) && n in defs && HasGoType(types, GoNamed(n), g)
    requires Valid(defs, Ref(n), Marshal(types.structs, g))
    ensures Filled(defs, Ref(n), g)
    decreases g, 0
  {
    var d, fields, m := defs[n], types.structs[n], Marshal(types.structs, g);
    assert FaithfulDef(types, d, fields);
    forall i | 0 <= i < |d.properties| && d.properties[i].name in g.fields
      && !(d.properties[i].name !in d.required && Empty(g.fields[d.properties[i].name]))
      ensures Filled(defs, d.properties[i].schema, g.fields[d.properties[i].name])
    {
      var p := d.properties[i];
      NotDropped(types, d, fields, p.name, g.fields[p.name]);
      assert p.name in m.fields;
      assert FieldOf(p, d.required) == Some(fields[i]) && fields[i].json in g.fields;
      SettledIsPlain(types, p.schema);
      NodeHasType(p.schema);
      FieldIsFilled(types, defs, p.schema, TypeFor(p.schema).value, p.name in d.required, g.fields[p.name]);
    }
    assert FilledFields(defs, d, g);
  }

  lemma NotDropped(types: Types, d: Def, fields: seq<GoField>, k: string, x: GoVal)
    requires FaithfulDef(types, d, fields) && !(k !in d.required && Empty(x))
    ensures !Dropped(fields, k, x)
  {
    forall i | 0 <= i < |fields| && fields[i].json == k && k in d.required ensures !fields[i].omitempty {
      assert FieldOf(d.properties[i], d.required) == Some(fields[i]);
    }
  }

  lemma {:induction false} FieldIsFilled(types: Types, defs: Defs, s: Schema, inner: GoTy, required: bool, x: GoVal)
    requires Faithful(types, defs) && Settled(types, s) && TypeFor(s) == Some(inner)
    requires HasGoType(types, if required then inner else Nullable(inner), x)
    requires Valid(defs, s, Marshal(types.structs, x))
    ensures Filled(defs, s, x)
    decreases x, 2
  {
    if required || Nilable(inner) {
      ValidIsFilled(types, defs, s, inner, x);
    } else if x.VPtr? {
      ValidIsFilled(types, defs, s, inner, x.target);
    }
  }

  // ---- the generator is faithful ------------------------------------------------------------------

  /** Fragments the generator can bind: references resolve, value sets are not empty and
      hold no separator. */
  predicate Bindable(names: set<string>, s: Schema) {
    match s
    case Ref(n) => '/' !in n && n in names
    case AnyOf(options) => forall o | o in options :: Bindable(names, o)
    case StringEnum(values) => values != [] && NoBars(values)
    case ArrayOf(items) => Bindable(names, items)
    case _ => true
  }

  predicate BindableDef(names: set<string>, d: Def) {
    d.ObjectDef? ==>
      && (forall i | 0 <= i < |d.properties| :: Bindable(names, d.properties[i].schema))
      && forall i | 0 <= i < |d.required| :: exists j :: 0 <= j < |d.properties| && d.properties[j].name == d.required[i]
  }

  predicate BindableDocument(doc: Document) {
    forall k | 0 <= k < |doc| :: doc[k].name !in ENUM_NAMES.Values && BindableDef(DefsOf(doc).Keys, doc[k].def)
  }

  lemma {:induction false} EveryEnumIsCollected(enums: seq<seq<string>>, values: seq<string>)
    requires Collected(enums).Some? && values in enums
    ensures EnumKey(values) in ENUM_NAMES && ENUM_NAMES[EnumKey(values)] in Collected(enums).value
    decreases |enums|
  {
    hide EnumKey;
    var k := |enums| - 1;
    if values != enums[k] {
      assert values in enums[..k];
      EveryEnumIsCollected(enums[..k], values);
    }
  }

  lemma {:induction false} CollectedComesFrom(enums: seq<seq<string>>, name: string)
    requires Collected(enums).Some? && name in Collected(enums).value
    ensures var values := Collected(enums).value[name];
      values in enums && EnumKey(values) in ENUM_NAMES && ENUM_NAMES[EnumKey(values)] == name
    decreases |enums|
  {
    hide EnumKey;
    var k := |enums| - 1;
    var rest := Collected(enums[..k]).value;
    if name in rest {
      CollectedComesFrom(enums[..k], name);
    }
  }

  lemma NamesAreDistinct(a: string, b: string)
    requires a in ENUM_NAMES && b in ENUM_NAMES && ENUM_NAMES[a] == ENUM_NAMES[b]
    ensures a == b
  {
    assert "CaptureMode"[0] != "LogLevel"[0];
    assert |"CaptureMode"| != |"Capability"|;
  }

  lemma {:induction false} EnumsOfAllMeaning(nodes: seq<Node>, e: seq<string>)
    ensures e in EnumsOfAll(nodes) <==> exists i :: 0 <= i < |nodes| && e in EnumsOf(nodes[i])
    decreases |nodes|
  {
    hide EnumsOf;
    if nodes != [] {
      var k := |nodes| - 1;
      EnumsOfAllMeaning(nodes[..k], e);
      if e in EnumsOfAll(nodes[..k]) {
        var i :| 0 <= i < k && e in EnumsOf(nodes[..k][i]);
        assert e in EnumsOf(nodes[i]);
      }
      if i :| 0 <= i < k && e in EnumsOf(nodes[i]) {
        assert e in EnumsOf(nodes[..k][i]);
      }
    }
  }

  lemma {:induction false} EnumInDocument(doc: Document, k: nat, i: nat, e: seq<string>)
    requires k < |doc| && i < |PropertiesOf(doc[k].def)|
    requires e in EnumsOf(NodeOf(PropertiesOf(doc[k].def)[i].schema))
    ensures e in EnumsOfDocument(doc)
    decreases |doc|
  {
    hide EnumsOf, NodeOf;
    var last := |doc| - 1;
    if k == last {
      DefNodeEnums(doc[k].def);
      var nodes := PropertyNodes(PropertiesOf(doc[k].def));
      EnumsOfAllMeaning(nodes, e);
      assert e in EnumsOf(nodes[i]);
    } else {
      EnumInDocument(doc[..last], k, i, e);
    }
  }

  lemma {:induction false} EnumIsBindable(names: set<string>, s: Schema, e: seq<string>)
    requires Bindable(names, s) && e in EnumsOf(NodeOf(s))
    ensures e != [] && NoBars(e)
  {
    match s
    case AnyOf(options) =>
      EnumsOfAllMeaning(NodesOf(options), e);
      var i :| 0 <= i < |options| && e in EnumsOf(NodeOf(options[i]));
      EnumIsBindable(names, options[i], e);
    case ArrayOf(items) => EnumIsBindable(names, items, e);
    case _ =>
  }

  lemma {:induction false} DocumentEnumIsBindable(names: set<string>, doc: Document, e: seq<string>)
    requires forall k | 0 <= k < |doc| :: BindableDef(names, doc[k].def)
    requires e in EnumsOfDocument(doc)
    ensures e != [] && NoBars(e)
    decreases |doc|
  {
    hide EnumsOf, NodeOf, Bindable;
    var last := |doc| - 1;
    if e in EnumsOfDocument(doc[..last]) {
      DocumentEnumIsBindable(names, doc[..last], e);
    } else {
      DefNodeEnums(doc[last].def);
      var properties := PropertiesOf(doc[last].def);
      EnumsOfAllMeaning(PropertyNodes(properties), e);
      var i :| 0 <= i < |properties| && e in EnumsOf(PropertyNodes(properties)[i]);
      assert BindableDef(names, doc[last].def);
      EnumIsBindable(names, properties[i].schema, e);
    }
  }

  /** A value set in the document has its own values behind its Go name. */
  lemma EnumIsDeclared(doc: Document, types: Types, values: seq<string>)
    requires BindableDocument(doc) && Collected(EnumsOfDocument(doc)) == Some(types.enums)
    requires values in EnumsOfDocument(doc)
    ensures values != [] && EnumKey(values) in ENUM_NAMES
    ensures var name := ENUM_NAMES[EnumKey(values)];
      name in types.enums && multiset(types.enums[name]) == multiset(values)
  {
    hide EnumKey, Collected, EnumsOfDocument, BindableDef;
    var enums, names := EnumsOfDocument(doc), DefsOf(doc).Keys;
    EveryEnumIsCollected(enums, values);
    var name := ENUM_NAMES[EnumKey(values)];
    CollectedComesFrom(enums, name);
    var declared := types.enums[name];
    NamesAreDistinct(EnumKey(values), EnumKey(declared));
    DocumentEnumIsBindable(names, doc, values);
    DocumentEnumIsBindable(names, doc, declared);
    KeyIdentifiesValues(values, declared);
  }

  lemma {:induction false} BindableIsSettled(doc: Document, types: Types, s: Schema)
    requires BindableDocument(doc) && Compiled(doc, types)
    requires types.structs.Keys == DefsOf(doc).Keys && types.structs.Keys !! ENUM_NAMES.Values
    requires Bindable(DefsOf(doc).Keys, s) && forall e | e in EnumsOf(NodeOf(s)) :: e in EnumsOfDocument(doc)
    ensures Settled(types, s)
  {
    hide BindableDocument, EnumsOfDocument, Collected, StructsOf, EnumKey;
    match s
    case AnyOf(options) =>
      forall o | o in options ensures Settled(types, o) {
        var i :| 0 <= i < |options| && options[i] == o;
        forall e | e in EnumsOf(NodeOf(o)) ensures e in EnumsOfDocument(doc) {
          EnumsOfAllMeaning(NodesOf(options), e);
          assert e in EnumsOf(NodesOf(options)[i]);
        }
        BindableIsSettled(doc, types, o);
      }
    case StringEnum(values) =>
      assert values in EnumsOf(NodeOf(s));
      EnumIsDeclared(doc, types, values);
    case ArrayOf(items) =>
      assert forall e | e in EnumsOf(NodeOf(items)) :: e in EnumsOf(NodeOf(s));
      BindableIsSettled(doc, types, items);
    case _ =>
  }

  lemma {:induction false} StructComesFrom(doc: Document, n: string) returns (k: nat)
    requires StructsOf(doc).Some?
    requires n in DefsOf(doc)
    ensures k < |doc| && doc[k].name == n && DefsOf(doc)[n] == doc[k].def
    ensures n in StructsOf(doc).value && StructOf(doc[k].def) == Some(StructsOf(doc).value[n])
    decreases |doc|
  {
    hide StructOf;
    k := |doc| - 1;
    if doc[k].name != n {
      var init := doc[..k];
      k := StructComesFrom(init, n);
      assert init[k] == doc[k];
    }
  }

  lemma {:induction false} StructsAreDefs(doc: Document)
    requires StructsOf(doc).Some?
    ensures StructsOf(doc).value.Keys == DefsOf(doc).Keys
    decreases |doc|
  {
    hide StructOf;
    if doc != [] {
      StructsAreDefs(doc[..|doc| - 1]);
    }
  }

  lemma {:induction false} FieldsMirror(properties: seq<Property>, required: seq<string>, i: nat)
    requires FieldsOf(properties, required).Some? && i < |properties|
    ensures |FieldsOf(properties, required).value| == |properties|
    ensures FieldOf(properties[i], required) == Some(FieldsOf(properties, required).value[i])
    decreases |properties|
  {
    hide FieldOf;
    var last := |properties| - 1;
    if last > 0 {
      FieldsMirror(properties[..last], required, if i < last then i else 0);
    }
  }

  /** Whatever document the generator accepts, its structs mirror the definitions. */
  lemma GeneratedIsFaithful(doc: Document, types: Types)
    requires BindableDocument(doc) && Compiled(doc, types)
    ensures Faithful(types, DefsOf(doc))
  {
    hide EnumsOf, NodeOf, Settled, FieldOf, Bindable, Collected;
    var defs := DefsOf(doc);
    StructsAreDefs(doc);
    forall n | n in types.structs ensures n !in ENUM_NAMES.Values {
      var k := StructComesFrom(doc, n);
    }
    forall n | n in defs ensures FaithfulDef(types, defs[n], types.structs[n]) {
      var k := StructComesFrom(doc, n);
      var d := defs[n];
      assert BindableDef(defs.Keys, d);
      forall i | 0 <= i < |d.properties|
        ensures |types.structs[n]| == |d.properties|
        ensures FieldOf(d.properties[i], d.required) == Some(types.structs[n][i])
        ensures Settled(types, d.properties[i].schema)
      {
        FieldsMirror(d.properties, d.required, i);
        forall e | e in EnumsOf(NodeOf(d.properties[i].schema)) ensures e in EnumsOfDocument(doc) {
          EnumInDocument(doc, k, i, e);
        }
        BindableIsSettled(doc, types, d.properties[i].schema);
      }
    }
  }

  // ---- what the declarations promise ---------------------------------------------------------------

  /** The type at the end of a chain of slices and pointers. */
  function Leaf(t: GoTy): GoTy {
    match t
    case GoSlice(e) => Leaf(e)
    case GoPtr(e) => Leaf(e)
    case _ => t
  }

  predicate Declared(types: Types, t: GoTy) {
    Leaf(t).GoNamed? ==> Leaf(t).name in types.structs || Leaf(t).name in types.enums
  }

  lemma {:induction false} FragmentTypeIsDeclared(types: Types, s: Schema, t: GoTy)
    requires Settled(types, s) && TypeFor(s) == Some(t)
    ensures Declared(types, t)
  {
    match s
    case AnyOf(options) =>
      var concrete := ConcreteOptions(options);
      if |concrete| == 1 {
        assert concrete[0] in options;
        FragmentTypeIsDeclared(types, concrete[0], TypeFor(concrete[0]).value);
      }
    case ArrayOf(items) => FragmentTypeIsDeclared(types, items, t.elem);
    case _ =>
  }

  /** Every struct is closed: the types its fields name are declared, none has two pointer
      levels, and a field that may be left out can say "absent". */
  lemma EveryFieldIsSound(doc: Document, types: Types, n: string, i: nat)
    requires BindableDocument(doc) && Compiled(doc, types)
    requires n in types.structs && i < |types.structs[n]|
    ensures var f := types.structs[n][i];
      Declared(types, f.ty) && OnePointer(f.ty) && (f.omitempty ==> Nilable(f.ty))
  {
    hide BindableDocument, Compiled, Leaf;
    GeneratedIsFaithful(doc, types);
    var d := DefsOf(doc)[n];
    assert FaithfulDef(types, d, types.structs[n]);
    var p := d.properties[i];
    SettledIsPlain(types, p.schema);
    NodeHasType(p.schema);
    var t := TypeFor(p.schema).value;
    FragmentTypeIsDeclared(types, p.schema, t);
    NoDoublePointer(NodeOf(p.schema), t);
    SameLeaf(t);
  }

  lemma SameLeaf(t: GoTy)
    ensures Leaf(Nullable(t)) == Leaf(t)
  {
  }

  /** A value of a generated struct marshals to JSON valid against its definition exactly
      when the caller did its part: nothing else about the value matters. */
  lemma MarshalledStructIsValid(doc: Document, types: Types, n: string, g: GoVal)
    requires BindableDocument(doc) && Compiled(doc, types) && n in DefsOf(doc)
    requires HasGoType(types, GoNamed(n), g)
    ensures ValidDef(DefsOf(doc), DefsOf(doc)[n], Marshal(types.structs, g)) <==> Filled(DefsOf(doc), Ref(n), g)
  {
    hide BindableDocument, Compiled, HasGoType, Filled, Marshal, ValidDef;
    GeneratedIsFaithful(doc, types);
    assert Valid(DefsOf(doc), Ref(n), Marshal(types.structs, g)) <==>
           ValidDef(DefsOf(doc), DefsOf(doc)[n], Marshal(types.structs, g));
    if Filled(DefsOf(doc), Ref(n), g) {
      StructIsValid(types, DefsOf(doc), n, g);
    }
    if Valid(DefsOf(doc), Ref(n), Marshal(types.structs, g)) {
      StructIsFilled(types, DefsOf(doc), n, g);
    }
  }

  // ---- from the contract to Go and back ---------------------------------------------------------------

  /** Class names are single segments that are not Go enum names, and the string enums have
      values without the separator. */
  predicate PlainTable(table: Table) {
    && (forall n | n in table.classes :: '/' !in n && n !in ENUM_NAMES.Values)
    && forall n | n in table.enums :: table.enums[n] != [] && NoBars(table.enums[n])
  }

  lemma {:induction false} FragmentIsBindable(table: Table, names: set<string>, t: Ty)
    requires PlainTable(table) && Known(table, t) && Refs(t) <= names
    ensures Bindable(names, Fragment(table, t))
  {
    match t
    case TList(e) => FragmentIsBindable(table, names, e);
    case TUnion(args, nullable) =>
      var plain := Fragments(table, args);
      var options := plain + if nullable then [NullType] else [];
      forall o | o in options ensures Bindable(names, o) {
        var i :| 0 <= i < |options| && options[i] == o;
        if i < |args| {
          ArgRefsInside(args, i);
          FragmentIsBindable(table, names, args[i]);
        }
      }
    case _ =>
  }

  lemma ClassIsBindable(table: Table, names: set<string>, fields: seq<Field>)
    requires PlainTable(table) && FieldsKnown(table, fields) && FieldRefs(fields) <= names
    ensures BindableDef(names, ClassSchema(table, fields))
  {
    hide Bindable, Fragment, FieldRefs, RequiredNames;
    var d := ClassSchema(table, fields);
    forall i | 0 <= i < |d.properties| ensures Bindable(names, d.properties[i].schema) {
      FieldRefsInside(fields, i);
      FragmentIsBindable(table, names, fields[i].ty);
    }
    forall i | 0 <= i < |d.required|
      ensures exists j :: 0 <= j < |d.properties| && d.properties[j].name == d.required[i]
    {
      RequiredNamesMeaning(fields, d.required[i]);
      var j :| 0 <= j < |fields| && fields[j].name == d.required[i] && fields[j].default.None?;
      assert d.properties[j].name == d.required[i];
    }
    assert forall i | 0 <= i < |d.properties| :: Bindable(names, d.properties[i].schema);
    assert forall i | 0 <= i < |d.required| :: exists j :: 0 <= j < |d.properties| && d.properties[j].name == d.required[i];
  }

  /** The document lists these definitions, each once. */
  ghost predicate Lists(doc: Document, defs: Defs) {
    DefsOf(doc) == defs && forall k | 0 <= k < |doc| :: doc[k].name in defs && defs[doc[k].name] == doc[k].def
  }

  /** The whole chain: what a generated struct marshals to is accepted by the validator the
      schema was generated from. */
  lemma MarshalledStructIsAccepted(table: Table, doc: Document, types: Types, n: string, g: GoVal)
    requires PlainTable(table) && Generated(table, DefsOf(doc)) && Lists(doc, DefsOf(doc))
    requires Compiled(doc, types) && n in DefsOf(doc)
    requires HasGoType(types, GoNamed(n), g) && Filled(DefsOf(doc), Ref(n), g)
    ensures var m := Marshal(types.structs, g);
      Accepts(table, TClass(n), Integral(m)) && (Integral(m) == m ==> Accepts(table, TClass(n), m))
  {
    hide BindableDef, ClassSchema, FieldRefs, HasGoType, Filled, Marshal, Valid, Accepts, Integral;
    var defs := DefsOf(doc);
    forall k | 0 <= k < |doc| ensures BindableDef(defs.Keys, doc[k].def) {
      ClassIsBindable(table, defs.Keys, table.classes[doc[k].name]);
    }
    GeneratedIsFaithful(doc, types);
    StructIsValid(types, defs, n, g);
    SchemaMeansValidator(table, defs, TClass(n), Marshal(types.structs, g));
  }
}

/** The wire contract's generic validator.

    A contract is a table of dataclasses and string enums.  `Coerced` says what the
    validator makes of a JSON value at a type (None: it raises), `ToJson` is the way
    back, and the methods `Coerce` and `FromDict` are the code: a recursion with loops
    over union members, list items, dictionary entries and fields. */
module Contract {
  import opened Framing
  import opened Json

  datatype Ty =
    | TAny
    | TBool
    | TInt
    | TFloat
    | TStr
    | TEnum(name: string)
    | TList(elem: Ty)
    | TDict(val: Ty)                              // string keys
    | TUnion(args: seq<Ty>, nullable: bool)       // Optional[T] is TUnion([T], true)
    | TClass(name: string)

  /** Values in the Python host. */
  datatype Py =
    | PNone
    | PBool(b: bool)
    | PInt(i: int)
    | PFloat(r: real)
    | PStr(s: string)
    | PEnum(enum: string, member: string)
    | PList(items: seq<Py>)
    | PDict(entries: map<string, Py>)
    | PObj(cls: string, attrs: map<string, Py>)

  datatype Field = Field(name: string, ty: Ty, default: Option<Py>)

  datatype Table = Table(classes: map<string, seq<Field>>, enums: map<string, seq<string>>)

  /** Every name a type mentions is in the table. */
  predicate Known(table: Table, t: Ty) {
    match t
    case TEnum(n) => n in table.enums
    case TClass(n) => n in table.classes
    case TList(e) => Known(table, e)
    case TDict(e) => Known(table, e)
    case TUnion(args, nullable) => (args != [] || nullable) && forall i | 0 <= i < |args| :: Known(table, args[i])
    case _ => true
  }

  predicate FieldsKnown(table: Table, fields: seq<Field>) {
    forall i | 0 <= i < |fields| :: Known(table, fields[i].ty)
  }

  predicate TableKnown(table: Table) {
    forall c | c in table.classes :: FieldsKnown(table, table.classes[c])
  }

  predicate DistinctNames(fields: seq<Field>) {
    forall i, j | 0 <= i < j < |fields| :: fields[i].name != fields[j].name
  }

  /** What Python guarantees of any dataclass. */
  predicate Dataclasses(table: Table) {
    TableKnown(table) && forall c | c in table.classes :: DistinctNames(table.classes[c])
  }

  /** ... and every default has its field's type. */
  ghost predicate WellFormed(table: Table) {
    Dataclasses(table) && forall c | c in table.classes ::
      forall i | 0 <= i < |table.classes[c]| :: FieldOk(table, table.classes[c][i])
  }

  ghost predicate FieldOk(table: Table, f: Field) {
    Known(table, f.ty) && (f.default.Some? ==> HasType(table, f.ty, f.default.value))
  }

  // ---- what the validator computes ------------------------------------------------

  /** A plain JSON value, as an `Any` field holds it. */
  function Embed(v: Json): Py {
    match v
    case Null => PNone
    case Bool(b) => PBool(b)
    case Int(i) => PInt(i)
    case Num(r) => PFloat(r)
    case Str(s) => PStr(s)
    case Arr(items) => PList(seq(|items|, i requires 0 <= i < |items| => Embed(items[i])))
    case Obj(fields) => PDict(map k | k in fields :: Embed(fields[k]))
  }

  function Coerced(table: Table, t: Ty, v: Json): Option<Py>
    requires TableKnown(table) && Known(table, t)
    decreases v, 1, t
  {
    match t
    case TAny => Some(Embed(v))
    case TBool => if v.Bool? then Some(PBool(v.b)) else None
    case TInt => if v.Int? then Some(PInt(v.i)) else None
    case TFloat => if v.Int? then Some(PFloat(v.i as real)) else if v.Num? then Some(PFloat(v.r)) else None
    case TStr => if v.Str? then Some(PStr(v.s)) else None
    case TEnum(n) => if v.Str? && v.s in table.enums[n] then Some(PEnum(n, v.s)) else None
    case TList(e) =>
      if v.Arr? && forall i | 0 <= i < |v.items| :: Coerced(table, e, v.items[i]).Some?
      then Some(PList(seq(|v.items|, i requires 0 <= i < |v.items| => Coerced(table, e, v.items[i]).value)))
      else None
    case TDict(e) =>
      if v.Obj? && forall k | k in v.fields :: Coerced(table, e, v.fields[k]).Some?
      then Some(PDict(map k | k in v.fields :: Coerced(table, e, v.fields[k]).value))
      else None
    case TUnion(args, nullable) =>
      if v.Null? && nullable then Some(PNone) else FirstCoerced(table, args, v)
    case TClass(n) =>
      if v.Obj? && CoercedFields(table, table.classes[n], v).Some?
      then Some(PObj(n, CoercedFields(table, table.classes[n], v).value))
      else None
  }

  /** The first union member that accepts the value. */
  function FirstCoerced(table: Table, args: seq<Ty>, v: Json): Option<Py>
    requires TableKnown(table) && forall i | 0 <= i < |args| :: Known(table, args[i])
    decreases v, 1, args
  {
    if args == [] then None
    else if Coerced(table, args[0], v).Some? then Coerced(table, args[0], v)
    else FirstCoerced(table, args[1..], v)
  }

  /** What a field becomes: its coerced member, or its default when it is missing. */
  function FieldValue(table: Table, f: Field, v: Json): Option<Py>
    requires v.Obj? && TableKnown(table) && Known(table, f.ty)
    decreases v, 0, 0
  {
    if f.name in v.fields then Coerced(table, f.ty, v.fields[f.name]) else f.default
  }

  function CoercedFields(table: Table, fields: seq<Field>, v: Json): Option<map<string, Py>>
    requires v.Obj? && TableKnown(table) && FieldsKnown(table, fields)
    decreases v, 0, |fields| + 1
  {
    if fields == [] then Some(map[])
    else
      var n := |fields| - 1;
      var rest := CoercedFields(table, fields[..n], v);
      var value := FieldValue(table, fields[n], v);
      if rest.Some? && value.Some? then Some(rest.value[fields[n].name := value.value]) else None
  }

  ghost predicate HasType(table: Table, t: Ty, p: Py)
    decreases p, 1, t
  {
    match t
    case TAny => exists v :: p == Embed(v)
    case TBool => p.PBool?
    case TInt => p.PInt?
    case TFloat => p.PFloat?
    case TStr => p.PStr?
    case TEnum(n) => p.PEnum? && p.enum == n && n in table.enums && p.member in table.enums[n]
    case TList(e) => p.PList? && forall i | 0 <= i < |p.items| :: HasType(table, e, p.items[i])
    case TDict(e) => p.PDict? && forall k | k in p.entries :: HasType(table, e, p.entries[k])
    case TUnion(args, nullable) => (nullable && p == PNone) || exists i :: 0 <= i < |args| && HasType(table, args[i], p)
    case TClass(n) =>
      p.PObj? && p.cls == n && n in table.classes
      && p.attrs.Keys == Names(table.classes[n])
      && forall i | 0 <= i < |table.classes[n]| ::
           table.classes[n][i].name in p.attrs && HasType(table, table.classes[n][i].ty, p.attrs[table.classes[n][i].name])
  }

  ghost function Names(fields: seq<Field>): set<string> {
    set i | 0 <= i < |fields| :: fields[i].name
  }

  function ToJson(p: Py): Json {
    match p
    case PNone => Null
    case PBool(b) => Bool(b)
    case PInt(i) => Int(i)
    case PFloat(r) => Num(r)
    case PStr(s) => Str(s)
    case PEnum(_, s) => Str(s)
    case PList(items) => Arr(seq(|items|, i requires 0 <= i < |items| => ToJson(items[i])))
    case PDict(entries) => Obj(map k | k in entries :: ToJson(entries[k]))
    case PObj(_, attrs) => Obj(map k | k in attrs :: ToJson(attrs[k]))
  }

  // ---- accepted objects -------------------------------------------------------------

  /** An object is accepted exactly when every field is ... */
  lemma {:induction false} FieldsAccepted(table: Table, fields: seq<Field>, v: Json)
    requires v.Obj? && TableKnown(table) && FieldsKnown(table, fields)
    ensures CoercedFields(table, fields, v).Some? <==>
              forall i | 0 <= i < |fields| :: FieldValue(table, fields[i], v).Some?
    decreases |fields|
  {
    if fields != [] {
      var n := |fields| - 1;
      FieldsAccepted(table, fields[..n], v);
      assert forall i | 0 <= i < n :: fields[..n][i] == fields[i];
    }
  }

  /** ... and then has one attribute per field and no other, whatever extra keys the
      object carried. */
  lemma {:induction false} FieldsMeaning(table: Table, fields: seq<Field>, v: Json)
    requires v.Obj? && TableKnown(table) && FieldsKnown(table, fields) && DistinctNames(fields)
    requires CoercedFields(table, fields, v).Some?
    ensures var attrs := CoercedFields(table, fields, v).value;
            && attrs.Keys == Names(fields)
            && forall i | 0 <= i < |fields| ::
                 fields[i].name in attrs && FieldValue(table, fields[i], v) == Some(attrs[fields[i].name])
    decreases |fields|
  {
    FieldNames(table, fields, v);
    hide CoercedFields, FieldValue;
    forall i | 0 <= i < |fields|
      ensures fields[i].name in CoercedFields(table, fields, v).value
      ensures FieldValue(table, fields[i], v) == Some(CoercedFields(table, fields, v).value[fields[i].name])
    {
      FieldIsThere(table, fields, v, i);
    }
  }

  lemma {:induction false} FieldNames(table: Table, fields: seq<Field>, v: Json)
    requires v.Obj? && TableKnown(table) && FieldsKnown(table, fields) && DistinctNames(fields)
    requires CoercedFields(table, fields, v).Some?
    ensures CoercedFields(table, fields, v).value.Keys == Names(fields)
    decreases |fields|
  {
    if fields == [] {
      assert Names(fields) == {};
    } else {
      var n := |fields| - 1;
      LastFieldValue(table, fields, v);
      FieldNames(table, fields[..n], v);
      NextField(fields, n);
      assert fields[..n + 1] == fields;
    }
  }

  lemma {:induction false} FieldIsThere(table: Table, fields: seq<Field>, v: Json, i: nat)
    requires v.Obj? && TableKnown(table) && FieldsKnown(table, fields) && DistinctNames(fields)
    requires CoercedFields(table, fields, v).Some? && i < |fields|
    ensures fields[i].name in CoercedFields(table, fields, v).value
    ensures FieldValue(table, fields[i], v) == Some(CoercedFields(table, fields, v).value[fields[i].name])
    decreases |fields|
  {
    LastFieldValue(table, fields, v);
    hide CoercedFields, FieldValue;
    if i < |fields| - 1 {
      FieldIsThere(table, fields[..|fields| - 1], v, i);
    }
  }

  lemma LastFieldValue(table: Table, fields: seq<Field>, v: Json)
    requires v.Obj? && TableKnown(table) && FieldsKnown(table, fields) && fields != []
    requires CoercedFields(table, fields, v).Some?
    ensures var last := fields[|fields| - 1];
            && FieldValue(table, last, v).Some?
            && CoercedFields(table, fields[..|fields| - 1], v).Some?
            && CoercedFields(table, fields, v).value ==
                 CoercedFields(table, fields[..|fields| - 1], v).value[last.name := FieldValue(table, last, v).value]
  {
    hide FieldValue;
  }

  lemma NextField(fields: seq<Field>, i: nat)
    requires i < |fields| && DistinctNames(fields)
    ensures fields[..i + 1][..i] == fields[..i]
    ensures fields[i].name !in Names(fields[..i])
    ensures Names(fields[..i + 1]) == Names(fields[..i]) + {fields[i].name}
  {
    assert fields[..i + 1] == fields[..i] + [fields[i]];
  }

  /** Whatever the validator returns has the type it was asked for. */
  lemma {:induction false} CoercedHasType(table: Table, t: Ty, v: Json)
    requires WellFormed(table) && Known(table, t) && Coerced(table, t, v).Some?
    ensures HasType(table, t, Coerced(table, t, v).value)
    decreases v, 1, t
  {
    var p := Coerced(table, t, v).value;
    match t
    case TAny =>
      assert p == Embed(v);
    case TList(e) =>
      forall i | 0 <= i < |v.items| ensures HasType(table, e, p.items[i]) {
        CoercedHasType(table, e, v.items[i]);
      }
    case TDict(e) =>
      forall k | k in v.fields ensures HasType(table, e, p.entries[k]) {
        CoercedHasType(table, e, v.fields[k]);
      }
    case TUnion(args, nullable) =>
      if !(v.Null? && nullable) {
        FirstCoercedHasType(table, args, v);
      }
    case TClass(n) =>
      var fields := table.classes[n];
      FieldsMeaning(table, fields, v);
      forall i | 0 <= i < |fields| ensures HasType(table, fields[i].ty, p.attrs[fields[i].name]) {
        assert FieldOk(table, fields[i]);
        if fields[i].name in v.fields {
          CoercedHasType(table, fields[i].ty, v.fields[fields[i].name]);
        }
      }
    case _ =>
  }

  lemma {:induction false} FirstCoercedHasType(table: Table, args: seq<Ty>, v: Json)
    requires WellFormed(table) && (forall i | 0 <= i < |args| :: Known(table, args[i]))
    requires FirstCoerced(table, args, v).Some?
    ensures exists i :: 0 <= i < |args| && HasType(table, args[i], FirstCoerced(table, args, v).value)
    decreases v, 1, args
  {
    if Coerced(table, args[0], v).Some? {
      CoercedHasType(table, args[0], v);
    } else {
      FirstCoercedHasType(table, args[1..], v);
      var i :| 0 <= i < |args[1..]| && HasType(table, args[1..][i], FirstCoerced(table, args, v).value);
      assert args[i + 1] == args[1..][i];
    }
  }

  // ---- decoding undoes encoding -------------------------------------------------------

  /** Every union is an Optional. */
  predicate OptionalTy(t: Ty) {
    match t
    case TList(e) => OptionalTy(e)
    case TDict(e) => OptionalTy(e)
    case TUnion(args, nullable) => nullable && |args| == 1 && OptionalTy(args[0])
    case _ => true
  }

  ghost predicate OptionalOnly(table: Table) {
    forall c | c in table.classes ::
      forall i | 0 <= i < |table.classes[c]| :: OptionalTy(table.classes[c][i].ty)
  }

  lemma {:induction false} ToJsonEmbed(v: Json)
    ensures ToJson(Embed(v)) == v
  {
    match v
    case Arr(items) =>
      forall i | 0 <= i < |items| ensures ToJson(Embed(items[i])) == items[i] {
        ToJsonEmbed(items[i]);
      }
      assert ToJson(Embed(v)).items == items;
    case Obj(fields) =>
      forall k | k in fields ensures ToJson(Embed(fields[k])) == fields[k] {
        ToJsonEmbed(fields[k]);
      }
      assert ToJson(Embed(v)).fields == fields;
    case _ =>
  }

  /** Decoding undoes encoding, for every value of every type whose unions are Optional. */
  lemma {:induction false} DecodeUndoesEncode(table: Table, t: Ty, p: Py)
    requires WellFormed(table) && OptionalOnly(table) && Known(table, t) && OptionalTy(t)
    requires HasType(table, t, p)
    ensures Coerced(table, t, ToJson(p)) == Some(p)
    decreases p, 1, t
  {
    match t
    case TAny =>
      var v :| p == Embed(v);
      ToJsonEmbed(v);
    case TList(e) =>
      forall i | 0 <= i < |p.items| ensures Coerced(table, e, ToJson(p.items[i])) == Some(p.items[i]) {
        DecodeUndoesEncode(table, e, p.items[i]);
      }
      assert Coerced(table, t, ToJson(p)).value.items == p.items;
    case TDict(e) =>
      forall k | k in p.entries ensures Coerced(table, e, ToJson(p.entries[k])) == Some(p.entries[k]) {
        DecodeUndoesEncode(table, e, p.entries[k]);
      }
      assert Coerced(table, t, ToJson(p)).value.entries == p.entries;
    case TUnion(args, nullable) =>
      if p != PNone {
        DecodeUndoesEncode(table, args[0], p);
      }
    case TClass(n) =>
      DecodeObject(table, n, p);
    case _ =>
  }

  lemma {:induction false} DecodeObject(table: Table, n: string, p: Py)
    requires WellFormed(table) && OptionalOnly(table) && n in table.classes && HasType(table, TClass(n), p)
    ensures Coerced(table, TClass(n), ToJson(p)) == Some(p)
    decreases p, 0
  {
    var fields, v := table.classes[n], ToJson(p);
    forall i | 0 <= i < |fields| ensures FieldValue(table, fields[i], v) == Some(p.attrs[fields[i].name]) {
      DecodeUndoesEncode(table, fields[i].ty, p.attrs[fields[i].name]);
    }
    FieldsAccepted(table, fields, v);
    FieldsMeaning(table, fields, v);
    var attrs := CoercedFields(table, fields, v).value;
    forall k | k in attrs ensures attrs[k] == p.attrs[k] {
      var i :| 0 <= i < |fields| && fields[i].name == k;
    }
    assert attrs == p.attrs;
  }

  /** One trip through the validator and back settles a value: defaults are filled and
      extra keys dropped once and for all. */
  lemma DecodeIsFixpoint(table: Table, t: Ty, v: Json)
    requires WellFormed(table) && OptionalOnly(table) && Known(table, t) && OptionalTy(t)
    requires Coerced(table, t, v).Some?
    ensures Coerced(table, t, ToJson(Coerced(table, t, v).value)) == Coerced(table, t, v)
  {
    CoercedHasType(table, t, v);
    DecodeUndoesEncode(table, t, Coerced(table, t, v).value);
  }

  const TWO_SHAPES := Table(
    map["A" := [Field("y", TInt, None)], "B" := [Field("y", TInt, Some(PInt(0)))]], map[])

  lemma SingleField(table: Table, f: Field, v: Json)
    requires v.Obj? && TableKnown(table) && Known(table, f.ty)
    ensures CoercedFields(table, [f], v) ==
            if FieldValue(table, f, v).Some? then Some(map[f.name := FieldValue(table, f, v).value]) else None
  {
    assert [f][..0] == [];
    assert CoercedFields(table, [], v) == Some(map[]);
  }

  lemma TwoShapesKnown()
    ensures WellFormed(TWO_SHAPES)
  {
  }

  lemma FirstOfTwo(v: Json)
    requires v == Obj(map["y" := Int(0)])
    ensures TableKnown(TWO_SHAPES) && Coerced(TWO_SHAPES, TClass("A"), v) == Some(PObj("A", map["y" := PInt(0)]))
  {
    TwoShapesKnown();
    hide CoercedFields;
    SingleField(TWO_SHAPES, Field("y", TInt, None), v);
  }

  lemma SecondOfTwo(v: Json)
    requires v == Obj(map[])
    ensures TableKnown(TWO_SHAPES) && Coerced(TWO_SHAPES, TClass("A"), v) == None
    ensures Coerced(TWO_SHAPES, TClass("B"), v) == Some(PObj("B", map["y" := PInt(0)]))
  {
    TwoShapesKnown();
    hide CoercedFields;
    SingleField(TWO_SHAPES, Field("y", TInt, None), v);
    SingleField(TWO_SHAPES, Field("y", TInt, Some(PInt(0))), v);
  }

  /** With a union of two classes it would not: the defaults filled in by the second
      member can make the first one accept. */
  lemma UnionOfClassesIsNoFixpoint(t: Ty)
    requires t == TUnion([TClass("A"), TClass("B")], false)
    ensures TableKnown(TWO_SHAPES)
    ensures Coerced(TWO_SHAPES, t, Obj(map[])) == Some(PObj("B", map["y" := PInt(0)]))
    ensures ToJson(PObj("B", map["y" := PInt(0)])) == Obj(map["y" := Int(0)])
    ensures Coerced(TWO_SHAPES, t, Obj(map["y" := Int(0)])) == Some(PObj("A", map["y" := PInt(0)]))
  {
    FirstOfTwo(Obj(map["y" := Int(0)]));
    SecondOfTwo(Obj(map[]));
    EitherClass(TWO_SHAPES, TClass("A"), TClass("B"), Obj(map[]));
    EitherClass(TWO_SHAPES, TClass("A"), TClass("B"), Obj(map["y" := Int(0)]));
    SecondAsJson();
    hide Coerced, TableKnown, ToJson;
  }

  lemma SecondAsJson()
    ensures ToJson(PObj("B", map["y" := PInt(0)])) == Obj(map["y" := Int(0)])
  {
  }

  lemma EitherClass(table: Table, a: Ty, b: Ty, v: Json)
    requires TableKnown(table) && Known(table, a) && Known(table, b)
    ensures Coerced(table, TUnion([a, b], false), v) ==
              if Coerced(table, a, v).Some? then Coerced(table, a, v) else Coerced(table, b, v)
  {
    assert [a, b][1..] == [b] && [b][1..] == [];
    assert FirstCoerced(table, [b], v) == Coerced(table, b, v);
  }

  // ---- the code ---------------------------------------------------------------------

  /** The keyword arguments a dataclass is built with, completed by its defaults. */
  function WithDefaults(fields: seq<Field>, kwargs: map<string, Py>): map<string, Py> {
    if fields == [] then map[]
    else
      var f, rest := fields[|fields| - 1], WithDefaults(fields[..|fields| - 1], kwargs);
      if f.name in kwargs then rest[f.name := kwargs[f.name]]
      else if f.default.Some? then rest[f.name := f.default.value]
      else rest
  }

  lemma {:induction false} OtherArgument(fields: seq<Field>, kwargs: map<string, Py>, name: string, value: Py)
    requires name !in Names(fields)
    ensures WithDefaults(fields, kwargs[name := value]) == WithDefaults(fields, kwargs)
    decreases |fields|
  {
    if fields != [] {
      var n := |fields| - 1;
      assert fields[n].name in Names(fields);
      assert Names(fields[..n]) <= Names(fields) by {
        forall i | 0 <= i < n ensures fields[..n][i].name in Names(fields) {
          assert fields[i] == fields[..n][i];
        }
      }
      OtherArgument(fields[..n], kwargs, name, value);
    }
  }

  method Coerce(table: Table, t: Ty, v: Json) returns (r: Option<Py>)
    requires Dataclasses(table) && Known(table, t)
    ensures r == Coerced(table, t, v)
    decreases v, 1, t
  {
    match t
    case TAny => return Some(Embed(v));
    case TUnion(args, nullable) =>
      if v.Null? && nullable {
        return Some(PNone);
      }
      for i := 0 to |args|
        invariant Coerced(table, t, v) == FirstCoerced(table, args[i..], v)
      {
        var tried := Coerce(table, args[i], v);
        if tried.Some? {
          return tried;
        }
        assert args[i..][1..] == args[i + 1..];
      }
      return None;
    case TList(e) =>
      if !v.Arr? {
        return None;
      }
      var items: seq<Py> := [];
      for i := 0 to |v.items|
        invariant |items| == i
        invariant forall k | 0 <= k < i :: Coerced(table, e, v.items[k]) == Some(items[k])
      {
        var item := Coerce(table, e, v.items[i]);
        if item.None? {
          return None;
        }
        items := items + [item.value];
      }
      assert Coerced(table, t, v).value.items == items;
      return Some(PList(items));
    case TDict(e) =>
      if !v.Obj? {
        return None;
      }
      var entries: map<string, Py> := map[];
      var left := v.fields.Keys;
      while left != {}
        invariant left <= v.fields.Keys && entries.Keys == v.fields.Keys - left
        invariant forall k | k in entries :: Coerced(table, e, v.fields[k]) == Some(entries[k])
        decreases |left|
      {
        var k :| k in left;
        var entry := Coerce(table, e, v.fields[k]);
        if entry.None? {
          return None;
        }
        entries, left := entries[k := entry.value], left - {k};
      }
      assert Coerced(table, t, v).value.entries == entries;
      return Some(PDict(entries));
    case TClass(n) =>
      if !v.Obj? {
        return None;
      }
      r := FromDict(table, n, v);
    case TEnum(n) =>
      return if v.Str? && v.s in table.enums[n] then Some(PEnum(n, v.s)) else None;
    case TBool =>
      return if v.Bool? then Some(PBool(v.b)) else None;
    case TInt =>
      return if v.Bool? || !v.Int? then None else Some(PInt(v.i));
    case TFloat =>
      return if v.Bool? || !(v.Int? || v.Num?) then None
             else Some(PFloat(if v.Int? then v.i as real else v.r));
    case TStr =>
      return if v.Str? then Some(PStr(v.s)) else None;
  }

  method FromDict(table: Table, n: string, v: Json) returns (r: Option<Py>)
    requires Dataclasses(table) && n in table.classes && v.Obj?
    ensures r == Coerced(table, TClass(n), v)
    decreases v, 0
  {
    var fields := table.classes[n];
    var kwargs: map<string, Py> := map[];
    FieldsAccepted(table, fields, v);
    for i := 0 to |fields|
      invariant kwargs.Keys <= Names(fields[..i])
      invariant CoercedFields(table, fields[..i], v) == Some(WithDefaults(fields[..i], kwargs))
    {
      var f := fields[i];
      NextField(fields, i);
      if f.name !in v.fields {
        if f.default.Some? {
          continue;
        }
        assert FieldValue(table, f, v).None?;
        return None;
      }
      var value := Coerce(table, f.ty, v.fields[f.name]);
      if value.None? {
        assert FieldValue(table, f, v).None?;
        return None;
      }
      OtherArgument(fields[..i], kwargs, f.name, value.value);
      kwargs := kwargs[f.name := value.value];
    }
    assert fields[..|fields|] == fields;
    return Some(PObj(n, WithDefaults(fields, kwargs)));
  }
}

/** The contract compiled to JSON Schema (draft 2020-12).

    `Fragment` and `ClassSchema` say what the generator emits, `Valid` what a schema
    accepts; the main result is that the generated schema accepts exactly the values
    the validator accepts, up to the one thing JSON Schema cannot tell apart: a number
    written with a zero fractional part is an integer there (Validation section 6.1.1). */
module Schema {
  import opened Framing
  import opened Json
  import opened Contract

  datatype Schema =
    | Anything                                     // {}
    | Ref(name: string)                            // $ref to #/$defs/name
    | AnyOf(options: seq<Schema>)
    | StringEnum(values: seq<string>)              // type string with an enum
    | StringType
    | IntegerType
    | NumberType
    | BooleanType
    | NullType
    | ArrayOf(items: Schema)
    | ObjectOf(additional: Schema)                 // additionalProperties

  datatype Property = Property(name: string, schema: Schema)

  /** A `$defs` entry: the empty schema reserved for a class being built, or its object
      schema, which allows additional properties. */
  datatype Def = Reserved | ObjectDef(properties: seq<Property>, required: seq<string>)

  type Defs = map<string, Def>

  // ---- what a schema accepts ------------------------------------------------------------

  predicate IsIntegral(r: real) {
    r.Floor as real == r
  }

  predicate Valid(defs: Defs, s: Schema, v: Json)
    decreases v, 1, s
  {
    match s
    case Anything => true
    case Ref(n) => n in defs && ValidDef(defs, defs[n], v)
    case AnyOf(options) => exists i :: 0 <= i < |options| && Valid(defs, options[i], v)
    case StringEnum(values) => v.Str? && v.s in values
    case StringType => v.Str?
    case IntegerType => v.Int? || (v.Num? && IsIntegral(v.r))
    case NumberType => v.Int? || v.Num?
    case BooleanType => v.Bool?
    case NullType => v.Null?
    case ArrayOf(items) => v.Arr? && forall i | 0 <= i < |v.items| :: Valid(defs, items, v.items[i])
    case ObjectOf(additional) => v.Obj? && forall k | k in v.fields :: Valid(defs, additional, v.fields[k])
  }

  predicate ValidDef(defs: Defs, d: Def, v: Json)
    decreases v, 0
  {
    match d
    case Reserved => true
    case ObjectDef(properties, required) =>
      && v.Obj?
      && (forall i | 0 <= i < |required| :: required[i] in v.fields)
      && forall i | 0 <= i < |properties| && properties[i].name in v.fields ::
           Valid(defs, properties[i].schema, v.fields[properties[i].name])
  }

  // ---- what the generator emits ------------------------------------------------------------

  function Fragment(table: Table, t: Ty): Schema
    requires Known(table, t)
  {
    match t
    case TAny => Anything
    case TBool => BooleanType
    case TInt => IntegerType
    case TFloat => NumberType
    case TStr => StringType
    case TEnum(n) => StringEnum(table.enums[n])
    case TList(e) => ArrayOf(Fragment(table, e))
    case TDict(e) => ObjectOf(Fragment(table, e))
    case TUnion(args, nullable) =>
      Choice(Fragments(table, args) + if nullable then [NullType] else [])
    case TClass(n) => Ref(n)
  }

  function Fragments(table: Table, args: seq<Ty>): (options: seq<Schema>)
    requires forall i | 0 <= i < |args| :: Known(table, args[i])
    ensures |options| == |args|
    ensures forall i | 0 <= i < |args| :: options[i] == Fragment(table, args[i])
  {
    if args == [] then []
    else Fragments(table, args[..|args| - 1]) + [Fragment(table, args[|args| - 1])]
  }

  function Choice(options: seq<Schema>): Schema
    requires options != []
  {
    if |options| == 1 then options[0] else AnyOf(options)
  }

  function ClassSchema(table: Table, fields: seq<Field>): Def
    requires FieldsKnown(table, fields)
  {
    ObjectDef(
      seq(|fields|, i requires 0 <= i < |fields| => Property(fields[i].name, Fragment(table, fields[i].ty))),
      RequiredNames(fields))
  }

  function RequiredNames(fields: seq<Field>): seq<string> {
    if fields == [] then []
    else
      var n := |fields| - 1;
      RequiredNames(fields[..n]) + if fields[n].default.None? then [fields[n].name] else []
  }

  /** Classes a type refers to directly. */
  function Refs(t: Ty): set<string> {
    match t
    case TClass(n) => {n}
    case TList(e) => Refs(e)
    case TDict(e) => Refs(e)
    case TUnion(args, _) => ArgRefs(args)
    case _ => {}
  }

  function ArgRefs(args: seq<Ty>): set<string> {
    if args == [] then {} else ArgRefs(args[..|args| - 1]) + Refs(args[|args| - 1])
  }

  function FieldRefs(fields: seq<Field>): set<string> {
    if fields == [] then {} else FieldRefs(fields[..|fields| - 1]) + Refs(fields[|fields| - 1].ty)
  }

  lemma ArgRefsMeaning(args: seq<Ty>, n: string)
    ensures n in ArgRefs(args) <==> exists i :: 0 <= i < |args| && n in Refs(args[i])
  {
    if args != [] {
      var k := |args| - 1;
      ArgRefsMeaning(args[..k], n);
      assert forall i | 0 <= i < k :: args[..k][i] == args[i];
    }
  }

  lemma FieldRefsMeaning(fields: seq<Field>, n: string)
    ensures n in FieldRefs(fields) <==> exists i :: 0 <= i < |fields| && n in Refs(fields[i].ty)
  {
    if fields != [] {
      var k := |fields| - 1;
      FieldRefsMeaning(fields[..k], n);
      assert forall i | 0 <= i < k :: fields[..k][i] == fields[i];
    }
  }

  lemma ArgRefsInside(args: seq<Ty>, i: nat)
    requires i < |args|
    ensures Refs(args[i]) <= ArgRefs(args)
  {
    forall n | n in Refs(args[i]) ensures n in ArgRefs(args) {
      ArgRefsMeaning(args, n);
    }
  }

  lemma FieldRefsInside(fields: seq<Field>, i: nat)
    requires i < |fields|
    ensures Refs(fields[i].ty) <= FieldRefs(fields)
  {
    forall n | n in Refs(fields[i].ty) ensures n in FieldRefs(fields) {
      FieldRefsMeaning(fields, n);
    }
  }

  // ---- preservation ----------------------------------------------------------------------

  /** These definitions are the contract's, for every class they name and refer to. */
  ghost predicate Generated(table: Table, defs: Defs) {
    && TableKnown(table)
    && forall n | n in defs ::
         n in table.classes && defs[n] == ClassSchema(table, table.classes[n])
         && FieldRefs(table.classes[n]) <= defs.Keys
  }

  /** Writes every number with a zero fractional part as an integer. */
  function Integral(v: Json): Json {
    match v
    case Num(r) => if IsIntegral(r) then Int(r.Floor) else v
    case Arr(items) => Arr(seq(|items|, i requires 0 <= i < |items| => Integral(items[i])))
    case Obj(fields) => Obj(map k | k in fields :: Integral(fields[k]))
    case _ => v
  }

  predicate Accepts(table: Table, t: Ty, v: Json)
    requires TableKnown(table) && Known(table, t)
  {
    Coerced(table, t, v).Some?
  }

  lemma FirstAccepts(table: Table, args: seq<Ty>, v: Json)
    requires TableKnown(table) && forall i | 0 <= i < |args| :: Known(table, args[i])
    ensures FirstCoerced(table, args, v).Some? <==> exists i :: 0 <= i < |args| && Accepts(table, args[i], v)
  {
    if args != [] && !Accepts(table, args[0], v) {
      FirstAccepts(table, args[1..], v);
      assert forall i | 0 <= i < |args| - 1 :: args[1..][i] == args[i + 1];
      if i :| 0 <= i < |args| && Accepts(table, args[i], v) {
        assert args[1..][i - 1] == args[i];
      }
    }
  }

  lemma {:induction false} RequiredNamesMeaning(fields: seq<Field>, name: string)
    ensures name in RequiredNames(fields) <==>
              exists i :: 0 <= i < |fields| && fields[i].name == name && fields[i].default.None?
    decreases |fields|
  {
    if fields != [] {
      var n := |fields| - 1;
      var init := fields[..n];
      RequiredNamesMeaning(init, name);
      if name in RequiredNames(init) {
        var i :| 0 <= i < n && init[i].name == name && init[i].default.None?;
        assert fields[i] == init[i];
      } else {
        assert forall i | 0 <= i < n :: fields[i] == init[i];
      }
    }
  }

  lemma ChoiceMeaning(defs: Defs, options: seq<Schema>, v: Json)
    requires options != []
    ensures Valid(defs, Choice(options), v) <==> exists i :: 0 <= i < |options| && Valid(defs, options[i], v)
  {
    if |options| == 1 {
      assert Valid(defs, options[0], v) ==> exists i :: 0 <= i < |options| && Valid(defs, options[i], v);
    }
  }

  /** The generated schema means what the validator does: a value is schema-valid exactly
      when the validator accepts it with its whole-valued numbers written as integers. */
  lemma {:induction false} SchemaMeansValidator(table: Table, defs: Defs, t: Ty, v: Json)
    requires Generated(table, defs) && Known(table, t) && Refs(t) <= defs.Keys
    ensures Valid(defs, Fragment(table, t), v) <==> Accepts(table, t, Integral(v))
    decreases v, 1, t
  {
    match t
    case TList(e) =>
      if v.Arr? {
        forall i | 0 <= i < |v.items|
          ensures Valid(defs, Fragment(table, e), v.items[i]) <==> Accepts(table, e, Integral(v).items[i])
        {
          SchemaMeansValidator(table, defs, e, v.items[i]);
        }
      }
    case TDict(e) =>
      if v.Obj? {
        forall k | k in v.fields
          ensures Valid(defs, Fragment(table, e), v.fields[k]) <==> Accepts(table, e, Integral(v).fields[k])
        {
          SchemaMeansValidator(table, defs, e, v.fields[k]);
        }
      }
    case TUnion(args, nullable) =>
      UnionMeansValidator(table, defs, t, v);
    case TClass(n) =>
      if v.Obj? {
        ClassMeansValidator(table, defs, n, v);
      }
    case _ =>
  }

  lemma {:induction false} UnionMeansValidator(table: Table, defs: Defs, t: Ty, v: Json)
    requires Generated(table, defs) && Known(table, t) && t.TUnion? && Refs(t) <= defs.Keys
    ensures Valid(defs, Fragment(table, t), v) <==> Accepts(table, t, Integral(v))
    decreases v, 1, t, 0
  {
    forall i | 0 <= i < |t.args|
      ensures Valid(defs, Fragment(table, t.args[i]), v) <==> Accepts(table, t.args[i], Integral(v))
    {
      ArgRefsInside(t.args, i);
      SchemaMeansValidator(table, defs, t.args[i], v);
    }
    UnionSchemaMeaning(table, defs, t, v);
    FirstAccepts(table, t.args, Integral(v));
  }

  lemma UnionSchemaMeaning(table: Table, defs: Defs, t: Ty, v: Json)
    requires t.TUnion? && Known(table, t)
    ensures Valid(defs, Fragment(table, t), v) <==>
              (t.nullable && v.Null?) || exists i :: 0 <= i < |t.args| && Valid(defs, Fragment(table, t.args[i]), v)
  {
    var plain := Fragments(table, t.args);
    var options := plain + if t.nullable then [NullType] else [];
    ChoiceMeaning(defs, options, v);
    assert forall i | 0 <= i < |t.args| :: options[i] == plain[i];
    if t.nullable {
      assert options[|t.args|] == NullType;
    }
  }

  lemma {:induction false} ClassMeansValidator(table: Table, defs: Defs, n: string, v: Json)
    requires Generated(table, defs) && n in defs && v.Obj?
    ensures Valid(defs, Ref(n), v) <==> Accepts(table, TClass(n), Integral(v))
    decreases v, 0
  {
    var fields, w := table.classes[n], Integral(v);
    FieldsAccepted(table, fields, w);
    forall i | 0 <= i < |fields|
      ensures FieldValue(table, fields[i], w).Some? <==> FieldValid(table, defs, fields[i], v)
    {
      FieldRefsInside(fields, i);
      if fields[i].name in v.fields {
        SchemaMeansValidator(table, defs, fields[i].ty, v.fields[fields[i].name]);
      }
    }
    ObjectSchemaByField(table, defs, fields, v);
  }

  /** A field's part of the object schema: a member that is there is valid, and one that
      is not has a default. */
  predicate FieldValid(table: Table, defs: Defs, f: Field, v: Json)
    requires v.Obj? && Known(table, f.ty)
  {
    if f.name in v.fields then Valid(defs, Fragment(table, f.ty), v.fields[f.name]) else f.default.Some?
  }

  lemma ObjectSchemaByField(table: Table, defs: Defs, fields: seq<Field>, v: Json)
    requires v.Obj? && FieldsKnown(table, fields)
    ensures ValidDef(defs, ClassSchema(table, fields), v) <==>
              forall i | 0 <= i < |fields| :: FieldValid(table, defs, fields[i], v)
  {
    var d := ClassSchema(table, fields);
    if ValidDef(defs, d, v) {
      forall i | 0 <= i < |fields| ensures FieldValid(table, defs, fields[i], v) {
        assert d.properties[i] == Property(fields[i].name, Fragment(table, fields[i].ty));
        RequiredNamesMeaning(fields, fields[i].name);
      }
    }
    if forall i | 0 <= i < |fields| :: FieldValid(table, defs, fields[i], v) {
      forall k | 0 <= k < |d.required| ensures d.required[k] in v.fields {
        RequiredNamesMeaning(fields, d.required[k]);
        var i :| 0 <= i < |fields| && fields[i].name == d.required[k] && fields[i].default.None?;
        assert FieldValid(table, defs, fields[i], v);
      }
      forall i | 0 <= i < |d.properties| && d.properties[i].name in v.fields
        ensures Valid(defs, d.properties[i].schema, v.fields[d.properties[i].name])
      {
        assert FieldValid(table, defs, fields[i], v);
      }
    }
  }

  /** Whatever the validator accepts it also accepts with whole numbers as integers. */
  lemma {:induction false} IntegralIsAccepted(table: Table, t: Ty, v: Json)
    requires TableKnown(table) && Known(table, t) && Accepts(table, t, v)
    ensures Accepts(table, t, Integral(v))
    decreases v, 1, t
  {
    match t
    case TList(e) =>
      forall i | 0 <= i < |v.items| ensures Accepts(table, e, Integral(v).items[i]) {
        IntegralIsAccepted(table, e, v.items[i]);
      }
    case TDict(e) =>
      forall k | k in v.fields ensures Accepts(table, e, Integral(v).fields[k]) {
        IntegralIsAccepted(table, e, v.fields[k]);
      }
    case TUnion(args, nullable) =>
      if !(v.Null? && nullable) {
        FirstAccepts(table, args, v);
        var i :| 0 <= i < |args| && Accepts(table, args[i], v);
        IntegralIsAccepted(table, args[i], v);
        FirstAccepts(table, args, Integral(v));
      }
    case TClass(n) =>
      var fields, w := table.classes[n], Integral(v);
      FieldsAccepted(table, fields, v);
      forall i | 0 <= i < |fields| ensures FieldValue(table, fields[i], w).Some? {
        assert FieldValue(table, fields[i], v).Some?;
        if fields[i].name in v.fields {
          IntegralIsAccepted(table, fields[i].ty, v.fields[fields[i].name]);
        }
      }
      FieldsAccepted(table, fields, w);
    case _ =>
  }

  /** Every value the validator accepts is schema-valid, and every schema-valid value
      without whole-valued fractional numbers is accepted. */
  lemma AcceptedIsValid(table: Table, defs: Defs, t: Ty, v: Json)
    requires Generated(table, defs) && Known(table, t) && Refs(t) <= defs.Keys
    ensures Accepts(table, t, v) ==> Valid(defs, Fragment(table, t), v)
    ensures Integral(v) == v ==> (Valid(defs, Fragment(table, t), v) <==> Accepts(table, t, v))
  {
    SchemaMeansValidator(table, defs, t, v);
    if Accepts(table, t, v) {
      IntegralIsAccepted(table, t, v);
    }
  }

  // ---- the generator ------------------------------------------------------------------------

  /** `after` adds to `before` only finished classes whose references are all there. */
  ghost predicate Grown(table: Table, before: Defs, after: Defs)
    requires TableKnown(table)
  {
    && (forall n | n in before :: n in after && after[n] == before[n])
    && forall n | n in after && n !in before ::
         n in table.classes && after[n] == ClassSchema(table, table.classes[n])
         && FieldRefs(table.classes[n]) <= after.Keys
  }

  lemma GrownTwice(table: Table, a: Defs, b: Defs, c: Defs)
    requires TableKnown(table) && Grown(table, a, b) && Grown(table, b, c)
    ensures Grown(table, a, c)
  {
    assert b.Keys <= c.Keys;
  }

  lemma FinishedClass(table: Table, before: Defs, reserved: Defs, after: Defs, n: string, d: Def)
    requires TableKnown(table) && n in table.classes && n !in before && reserved == before[n := Reserved]
    requires Grown(table, reserved, after)
    requires d == ClassSchema(table, table.classes[n]) && FieldRefs(table.classes[n]) <= after.Keys
    ensures Grown(table, before, after[n := d])
  {
    assert after[n := d].Keys == after.Keys;
  }

  ghost predicate ClosedUnderRefs(table: Table, names: set<string>) {
    forall n | n in names :: n in table.classes && FieldRefs(table.classes[n]) <= names
  }

  lemma GrownKeys(table: Table, before: Defs, after: Defs)
    requires TableKnown(table) && Grown(table, before, after)
    ensures before.Keys <= after.Keys
  {
  }

  lemma UnionKnown(table: Table, t: Ty)
    requires t.TUnion? && Known(table, t)
    ensures (t.args != [] || t.nullable) && forall i | 0 <= i < |t.args| :: Known(table, t.args[i])
    ensures Refs(t) == ArgRefs(t.args)
  {
  }

  lemma NoArgs(table: Table, defs: Defs, args: seq<Ty>)
    requires TableKnown(table)
    ensures Fragments(table, args[..0]) == [] && ArgRefs(args[..0]) == {} && Grown(table, defs, defs)
  {
  }

  lemma NextArg(table: Table, args: seq<Ty>, i: nat)
    requires i < |args| && forall j | 0 <= j < |args| :: Known(table, args[j])
    ensures Fragments(table, args[..i + 1]) == Fragments(table, args[..i]) + [Fragment(table, args[i])]
    ensures ArgRefs(args[..i + 1]) == ArgRefs(args[..i]) + Refs(args[i])
  {
    hide Known;
    assert args[..i + 1][..i] == args[..i];
  }

  /** The schema generator: one recursion that collects the classes it meets in `defs`. */
  class Generator {
    const table: Table
    var defs: Defs

    constructor (table: Table)
      ensures this.table == table && defs == map[]
    {
      this.table := table;
      defs := map[];
    }

    /** The classes whose schemas are still to come; shrinks as `defs` fills. */
    ghost function Left(): set<string>
      reads this
    {
      table.classes.Keys - defs.Keys
    }

    /** The fragment for one type.  Terminates on any table, however its classes refer to
        each other: each class is entered once.  `bound` is any set closed under
        references; nothing outside it is ever added. */
    method SchemaFor(t: Ty, ghost bound: set<string>) returns (s: Schema)
      requires TableKnown(table) && Known(table, t)
      requires ClosedUnderRefs(table, bound) && Refs(t) <= bound && defs.Keys <= bound
      modifies this
      ensures s == Fragment(table, t)
      ensures Grown(table, old(defs), defs) && Refs(t) <= defs.Keys <= bound
      decreases Left(), 1, t, 1
    {
      match t
      case TAny => s := Anything;
      case TUnion(_, _) => s := UnionSchema(t, bound);
      case TList(e) =>
        var items := SchemaFor(e, bound);
        s := ArrayOf(items);
      case TDict(e) =>
        var additional := SchemaFor(e, bound);
        s := ObjectOf(additional);
      case TClass(n) =>
        if n !in defs {
          DefineClass(n, bound);
        }
        s := Ref(n);
      case TEnum(n) => s := StringEnum(table.enums[n]);
      case TBool => s := BooleanType;
      case TInt => s := IntegerType;
      case TFloat => s := NumberType;
      case TStr => s := StringType;
    }

    method UnionSchema(t: Ty, ghost bound: set<string>) returns (s: Schema)
      requires TableKnown(table) && t.TUnion? && Known(table, t)
      requires ClosedUnderRefs(table, bound) && Refs(t) <= bound && defs.Keys <= bound
      modifies this
      ensures s == Fragment(table, t)
      ensures Grown(table, old(defs), defs) && Refs(t) <= defs.Keys <= bound
      decreases Left(), 1, t, 0
    {
      hide ClosedUnderRefs, TableKnown, ArgRefs, Grown;
      UnionKnown(table, t);
      var args := t.args;
      var options: seq<Schema> := [];
      NoArgs(table, defs, args);
      for i := 0 to |args|
        invariant options == Fragments(table, args[..i])
        invariant Grown(table, old(defs), defs) && defs.Keys <= bound && old(defs.Keys) <= defs.Keys
        invariant ArgRefs(args[..i]) <= defs.Keys
      {
        assert Left() <= old(Left());
        ArgRefsInside(args, i);
        NextArg(table, args, i);
        ghost var before := defs;
        hide Fragment, Fragments, Known;
        var option := SchemaFor(args[i], bound);
        GrownKeys(table, before, defs);
        GrownTwice(table, old(defs), before, defs);
        options := options + [option];
      }
      assert args[..|args|] == args;
      if t.nullable {
        options := options + [NullType];
      } else {
        assert options + [] == options;
      }
      s := if |options| == 1 then options[0] else AnyOf(options);
    }

    /** Reserves the class's entry first, so that a reference back to it resolves. */
    method DefineClass(n: string, ghost bound: set<string>)
      requires TableKnown(table) && n in table.classes && n !in defs
      requires ClosedUnderRefs(table, bound) && n in bound && defs.Keys <= bound
      modifies this
      ensures Grown(table, old(defs), defs) && n in defs && defs.Keys <= bound
      decreases Left(), 0
    {
      defs := defs[n := Reserved];
      assert Left() < old(Left()) by { assert n in old(Left()) && n !in Left(); }
      ghost var reserved := defs;
      var d := ObjectSchema(n, bound);
      FinishedClass(table, old(defs), reserved, defs, n, d);
      defs := defs[n := d];
    }

    method ObjectSchema(n: string, ghost bound: set<string>) returns (d: Def)
      requires TableKnown(table) && n in table.classes
      requires ClosedUnderRefs(table, bound) && n in bound && defs.Keys <= bound
      modifies this
      ensures d == ClassSchema(table, table.classes[n])
      ensures Grown(table, old(defs), defs) && FieldRefs(table.classes[n]) <= defs.Keys <= bound
      decreases Left(), 2
    {
      hide ClassSchema, FieldRefs, Fragment, RequiredNames;
      var fields := table.classes[n];
      NoFieldsSchema(table, fields);
      var properties: seq<Property> := [];
      var required: seq<string> := [];
      for i := 0 to |fields|
        invariant ObjectDef(properties, required) == ClassSchema(table, fields[..i])
        invariant Grown(table, old(defs), defs) && FieldRefs(fields[..i]) <= defs.Keys <= bound
      {
        NextFieldSchema(table, fields, i);
        FieldRefsInside(fields, i);
        assert Left() <= old(Left());
        ghost var before := defs;
        var schema := SchemaFor(fields[i].ty, bound);
        GrownTwice(table, old(defs), before, defs);
        properties := properties + [Property(fields[i].name, schema)];
        if fields[i].default.None? {
          required := required + [fields[i].name];
        }
      }
      assert fields[..|fields|] == fields;
      d := ObjectDef(properties, required);
    }
  }

  lemma NoFieldsSchema(table: Table, fields: seq<Field>)
    ensures ClassSchema(table, fields[..0]) == ObjectDef([], []) && FieldRefs(fields[..0]) == {}
  {
  }

  lemma NextFieldSchema(table: Table, fields: seq<Field>, i: nat)
    requires i < |fields| && FieldsKnown(table, fields)
    ensures
      var d, f := ClassSchema(table, fields[..i]), fields[i];
      ClassSchema(table, fields[..i + 1]) ==
        ObjectDef(d.properties + [Property(f.name, Fragment(table, f.ty))],
                  d.required + if f.default.None? then [f.name] else [])
    ensures FieldRefs(fields[..i + 1]) == FieldRefs(fields[..i]) + Refs(fields[i].ty)
  {
    assert fields[..i + 1][..i] == fields[..i];
    assert fields[..i + 1] == fields[..i] + [fields[i]];
  }

  // ---- the whole document --------------------------------------------------------------------

  /** A command with its parameter class, if it has one, and its result class. */
  datatype Shape = Shape(command: string, params: Option<string>, result: string)

  datatype CommandSchema = CommandSchema(command: string, params: Option<Schema>, result: Schema)

  datatype WireSchema = WireSchema(defs: Defs, envelope: CommandSchema, commands: seq<CommandSchema>)

  function ShapeRefs(s: Shape): set<string> {
    (if s.params.Some? then {s.params.value} else {}) + {s.result}
  }

  /** A command's entry: `params` is null for a command that takes none. */
  function CommandEntry(s: Shape): CommandSchema {
    CommandSchema(s.command, if s.params.Some? then Some(Ref(s.params.value)) else None, Ref(s.result))
  }

  function CommandEntries(shapes: seq<Shape>): seq<CommandSchema> {
    if shapes == [] then []
    else CommandEntries(shapes[..|shapes| - 1]) + [CommandEntry(shapes[|shapes| - 1])]
  }

  /** The classes the commands name. */
  function Named(shapes: seq<Shape>): set<string> {
    if shapes == [] then {} else Named(shapes[..|shapes| - 1]) + ShapeRefs(shapes[|shapes| - 1])
  }

  const ENVELOPE := Shape("envelope", Some("Request"), "Response")

  /** The classes the document starts from. */
  function Roots(shapes: seq<Shape>): set<string> {
    ShapeRefs(ENVELOPE) + Named(shapes)
  }

  /** `path` follows field types from class to class. */
  ghost predicate IsPath(table: Table, path: seq<string>) {
    && path != []
    && (forall i | 0 <= i < |path| :: path[i] in table.classes)
    && forall i | 0 <= i < |path| - 1 :: path[i + 1] in FieldRefs(table.classes[path[i]])
  }

  ghost predicate ReachableFrom(table: Table, roots: set<string>, n: string) {
    exists path :: IsPath(table, path) && path[0] in roots && path[|path| - 1] == n
  }

  ghost function Reachable(table: Table, roots: set<string>): set<string> {
    set n | n in table.classes && ReachableFrom(table, roots, n)
  }

  lemma RefsAreKnown(table: Table, t: Ty)
    requires Known(table, t)
    ensures Refs(t) <= table.classes.Keys
    decreases t
  {
    match t
    case TList(e) => RefsAreKnown(table, e);
    case TDict(e) => RefsAreKnown(table, e);
    case TUnion(args, _) =>
      forall n | n in ArgRefs(args) ensures n in table.classes {
        ArgRefsMeaning(args, n);
        var i :| 0 <= i < |args| && n in Refs(args[i]);
        RefsAreKnown(table, args[i]);
      }
    case _ =>
  }

  lemma ReachableIsClosed(table: Table, roots: set<string>)
    requires TableKnown(table) && roots <= table.classes.Keys
    ensures ClosedUnderRefs(table, Reachable(table, roots)) && roots <= Reachable(table, roots)
  {
    forall n | n in roots ensures n in Reachable(table, roots) {
      assert IsPath(table, [n]) && [n][0] in roots;
    }
    forall n, m | n in Reachable(table, roots) && m in FieldRefs(table.classes[n])
      ensures m in Reachable(table, roots)
    {
      var path :| IsPath(table, path) && path[0] in roots && path[|path| - 1] == n;
      LongerPath(table, roots, path, m);
    }
  }

  lemma LongerPath(table: Table, roots: set<string>, path: seq<string>, m: string)
    requires TableKnown(table) && IsPath(table, path) && path[0] in roots
    requires m in FieldRefs(table.classes[path[|path| - 1]])
    ensures m in Reachable(table, roots)
  {
    hide FieldRefs, Refs;
    var fields := table.classes[path[|path| - 1]];
    FieldRefsMeaning(fields, m);
    var i :| 0 <= i < |fields| && m in Refs(fields[i].ty);
    RefsAreKnown(table, fields[i].ty);
    var longer := path + [m];
    assert IsPath(table, longer) && longer[0] in roots && longer[|longer| - 1] == m;
  }

  lemma {:induction false} PathStaysInside(table: Table, names: set<string>, path: seq<string>)
    requires ClosedUnderRefs(table, names) && IsPath(table, path) && path[0] in names
    ensures path[|path| - 1] in names
    decreases |path|
  {
    if |path| > 1 {
      var n := |path| - 1;
      PathStaysInside(table, names, path[..n]);
      assert path[..n][n - 1] == path[n - 1];
      assert path[n] in FieldRefs(table.classes[path[n - 1]]);
    }
  }

  method EmitCommand(g: Generator, shape: Shape, ghost bound: set<string>) returns (c: CommandSchema)
    requires TableKnown(g.table) && ClosedUnderRefs(g.table, bound)
    requires ShapeRefs(shape) <= bound && g.defs.Keys <= bound
    modifies g
    ensures c == CommandEntry(shape)
    ensures Grown(g.table, old(g.defs), g.defs) && ShapeRefs(shape) <= g.defs.Keys <= bound
  {
    var params: Option<Schema> := None;
    if shape.params.Some? {
      var schema := g.SchemaFor(TClass(shape.params.value), bound);
      params := Some(schema);
    }
    ghost var before := g.defs;
    var result := g.SchemaFor(TClass(shape.result), bound);
    GrownTwice(g.table, old(g.defs), before, g.defs);
    c := CommandSchema(shape.command, params, result);
  }

  method EmitCommands(g: Generator, shapes: seq<Shape>, ghost bound: set<string>) returns (commands: seq<CommandSchema>)
    requires TableKnown(g.table) && ClosedUnderRefs(g.table, bound)
    requires Named(shapes) <= bound && g.defs.Keys <= bound
    modifies g
    ensures commands == CommandEntries(shapes)
    ensures Grown(g.table, old(g.defs), g.defs) && Named(shapes) <= g.defs.Keys <= bound
  {
    commands := [];
    for i := 0 to |shapes|
      invariant Grown(g.table, old(g.defs), g.defs) && Named(shapes[..i]) <= g.defs.Keys <= bound
      invariant commands == CommandEntries(shapes[..i])
    {
      assert shapes[..i + 1][..i] == shapes[..i];
      NamedInside(shapes, i);
      ghost var before := g.defs;
      var c := EmitCommand(g, shapes[i], bound);
      GrownTwice(g.table, old(g.defs), before, g.defs);
      commands := commands + [c];
    }
    assert shapes[..|shapes|] == shapes;
  }

  lemma NamedInside(shapes: seq<Shape>, i: nat)
    requires i < |shapes|
    ensures ShapeRefs(shapes[i]) <= Named(shapes)
    decreases |shapes|
  {
    var n := |shapes| - 1;
    if i < n {
      NamedInside(shapes[..n], i);
    }
  }

  /** The published document: every reference resolves, and `$defs` holds each class
      reachable from the envelope or a command, with its own full schema, and no other. */
  method BuildWireSchema(table: Table, shapes: seq<Shape>) returns (doc: WireSchema)
    requires TableKnown(table) && Roots(shapes) <= table.classes.Keys
    ensures doc.defs.Keys == Reachable(table, Roots(shapes)) && Roots(shapes) <= doc.defs.Keys
    ensures Generated(table, doc.defs)
    ensures doc.envelope == CommandEntry(ENVELOPE) && doc.commands == CommandEntries(shapes)
  {
    hide Reachable;
    ghost var bound := Reachable(table, Roots(shapes));
    ReachableIsClosed(table, Roots(shapes));
    var g := new Generator(table);
    var envelope := EmitCommand(g, ENVELOPE, bound);
    ghost var before := g.defs;
    var commands := EmitCommands(g, shapes, bound);
    GrownTwice(table, map[], before, g.defs);
    ReachableIsInside(table, Roots(shapes), g.defs.Keys);
    doc := WireSchema(g.defs, envelope, commands);
  }

  lemma ReachableIsInside(table: Table, roots: set<string>, names: set<string>)
    requires ClosedUnderRefs(table, names) && roots <= names
    ensures Reachable(table, roots) <= names
  {
    forall n | n in Reachable(table, roots) ensures n in names {
      var path :| IsPath(table, path) && path[0] in roots && path[|path| - 1] == n;
      PathStaysInside(table, names, path);
    }
  }
}

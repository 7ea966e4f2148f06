/** The binding generator: the published schema compiled once more, to Go types.

    A document is its `$defs`, in order.  `GoTypeOf` is the mapping decision for one
    fragment, `EmitEnums` and `EmitStructs` write the declarations.  The main result is
    that whatever such a struct marshals to is valid against its definition. */
module WireGen {
  import opened Framing
  import opened Schema

  // ---- the schema as the generator reads it ------------------------------------------------

  /** The `type` keyword of a fragment. */
  datatype TypeName =
    | NoType | TypeString | TypeInteger | TypeNumber | TypeBoolean | TypeNull | TypeArray | TypeObject
    | TypeOther(name: string)

  /** One fragment, decoded field by field; what is absent is empty. */
  datatype Node = Node(
    ref: string, typ: TypeName, enum: seq<string>, items: Option<Node>, anyOf: seq<Node>, properties: seq<Node>)

  const EMPTY := Node("", NoType, [], None, [], [])

  function NodeOf(s: Schema): Node {
    match s
    case Anything => EMPTY
    case Ref(n) => EMPTY.(ref := "#/$defs/" + n)
    case AnyOf(options) => EMPTY.(anyOf := NodesOf(options))
    case StringEnum(values) => EMPTY.(typ := TypeString, enum := values)
    case StringType => EMPTY.(typ := TypeString)
    case IntegerType => EMPTY.(typ := TypeInteger)
    case NumberType => EMPTY.(typ := TypeNumber)
    case BooleanType => EMPTY.(typ := TypeBoolean)
    case NullType => EMPTY.(typ := TypeNull)
    case ArrayOf(items) => EMPTY.(typ := TypeArray, items := Some(NodeOf(items)))
    case ObjectOf(_) => EMPTY.(typ := TypeObject)
  }

  function NodesOf(options: seq<Schema>): (nodes: seq<Node>)
    ensures |nodes| == |options| && forall i | 0 <= i < |nodes| :: nodes[i] == NodeOf(options[i])
  {
    if options == [] then []
    else NodesOf(options[..|options| - 1]) + [NodeOf(options[|options| - 1])]
  }

  datatype Entry = Entry(name: string, def: Def)

  type Document = seq<Entry>

  function DefsOf(doc: Document): Defs {
    if doc == [] then map[]
    else DefsOf(doc[..|doc| - 1])[doc[|doc| - 1].name := doc[|doc| - 1].def]
  }

  // ---- Go types ------------------------------------------------------------------------------

  datatype GoTy =
    | GoString
    | GoInt
    | GoFloat64
    | GoBool
    | GoRaw                       // json.RawMessage
    | GoNamed(name: string)
    | GoSlice(elem: GoTy)
    | GoPtr(elem: GoTy)

  /** The Go names of the contract's closed value sets. */
  const ENUM_NAMES: map<string, string> :=
    map["live|silent" := "CaptureMode",
        "debug|debugwarning|info|io" := "LogLevel",
        "announce|braille|config|focus|gestures|speech|state" := "Capability"]

  predicate Less(a: string, b: string) {
    if b == [] then false
    else if a == [] then true
    else if a[0] != b[0] then a[0] < b[0]
    else Less(a[1..], b[1..])
  }

  function Inserted(x: string, sorted: seq<string>): seq<string> {
    if sorted == [] then [x]
    else if Less(sorted[0], x) then [sorted[0]] + Inserted(x, sorted[1..])
    else [x] + sorted
  }

  function Sorted(values: seq<string>): seq<string> {
    if values == [] then [] else Inserted(values[0], Sorted(values[1..]))
  }

  function Join(values: seq<string>): string {
    if values == [] then ""
    else if |values| == 1 then values[0]
    else values[0] + "|" + Join(values[1..])
  }

  /** The order-independent identity of a value set. */
  function EnumKey(values: seq<string>): string {
    Join(Sorted(values))
  }

  function AfterLastSlash(s: string): string {
    if s == "" then ""
    else if '/' !in s then s
    else if s[0] == '/' && '/' !in s[1..] then s[1..]
    else AfterLastSlash(s[1..])
  }

  /** Makes a type able to say "absent"; what already can is left alone. */
  function Nullable(t: GoTy): GoTy {
    if t.GoPtr? || t.GoSlice? || t.GoRaw? then t else GoPtr(t)
  }

  function Concrete(anyOf: seq<Node>): (r: seq<Node>)
    ensures forall n | n in r :: n in anyOf
  {
    if anyOf == [] then []
    else
      Concrete(anyOf[..|anyOf| - 1]) +
      if anyOf[|anyOf| - 1].typ.TypeNull? then [] else [anyOf[|anyOf| - 1]]
  }

  predicate HasNull(anyOf: seq<Node>) {
    exists i :: 0 <= i < |anyOf| && anyOf[i].typ.TypeNull?
  }

  /** The Go type of a fragment; None when the generator refuses it. */
  function GoTypeOf(n: Node): Option<GoTy> {
    if n.ref != "" then Some(GoNamed(AfterLastSlash(n.ref)))
    else if n.anyOf != [] then
      var concrete := Concrete(n.anyOf);
      if |concrete| != 1 then Some(GoRaw)
      else
        assert concrete[0] in n.anyOf;
        match GoTypeOf(concrete[0])
        case None => None
        case Some(inner) => Some(if HasNull(n.anyOf) then Nullable(inner) else inner)
    else if n.enum != [] then
      if EnumKey(n.enum) in ENUM_NAMES then Some(GoNamed(ENUM_NAMES[EnumKey(n.enum)])) else None
    else if n.typ.TypeString? then Some(GoString)
    else if n.typ.TypeInteger? then Some(GoInt)
    else if n.typ.TypeNumber? then Some(GoFloat64)
    else if n.typ.TypeBoolean? then Some(GoBool)
    else if n.typ.TypeArray? then
      match n.items
      case None => Some(GoSlice(GoRaw))
      case Some(items) =>
        (match GoTypeOf(items)
         case None => None
         case Some(elem) => Some(GoSlice(elem)))
    else if n.typ.TypeObject? then (if n.properties != [] then None else Some(GoRaw))
    else if n.typ.NoType? then Some(GoRaw)
    else None
  }

  method GoType(n: Node) returns (r: Option<GoTy>)
    ensures r == GoTypeOf(n)
    decreases n
  {
    if n.ref != "" {
      return Some(GoNamed(AfterLastSlash(n.ref)));
    }
    if n.anyOf != [] {
      var concrete: seq<Node>, nullable := [], false;
      for i := 0 to |n.anyOf|
        invariant concrete == Concrete(n.anyOf[..i])
        invariant nullable <==> HasNull(n.anyOf[..i])
      {
        assert n.anyOf[..i + 1][..i] == n.anyOf[..i];
        if n.anyOf[i].typ.TypeNull? {
          assert n.anyOf[..i + 1][i] == n.anyOf[i];
          nullable := true;
          continue;
        }
        concrete := concrete + [n.anyOf[i]];
      }
      assert n.anyOf[..|n.anyOf|] == n.anyOf;
      if |concrete| != 1 {
        return Some(GoRaw);
      }
      assert concrete[0] in n.anyOf;
      var inner := GoType(concrete[0]);
      if inner.None? {
        return None;
      }
      return Some(if nullable then Nullable(inner.value) else inner.value);
    }
    if n.enum != [] {
      var key := EnumKey(n.enum);
      return if key in ENUM_NAMES then Some(GoNamed(ENUM_NAMES[key])) else None;
    }
    match n.typ {
      case TypeString => return Some(GoString);
      case TypeInteger => return Some(GoInt);
      case TypeNumber => return Some(GoFloat64);
      case TypeBoolean => return Some(GoBool);
      case TypeArray =>
        if n.items.None? {
          return Some(GoSlice(GoRaw));
        }
        var elem := GoType(n.items.value);
        return if elem.None? then None else Some(GoSlice(elem.value));
      case TypeObject => return if n.properties != [] then None else Some(GoRaw);
      case NoType => return Some(GoRaw);
      case TypeNull => return None;
      case TypeOther(_) => return None;
    }
  }

  // ---- what a fragment's Go type is -----------------------------------------------------------

  predicate Nilable(t: GoTy) {
    t.GoPtr? || t.GoSlice? || t.GoRaw?
  }

  function ConcreteOptions(options: seq<Schema>): (r: seq<Schema>)
    ensures forall s | s in r :: s in options && s != NullType
  {
    if options == [] then []
    else
      ConcreteOptions(options[..|options| - 1]) +
      if options[|options| - 1] == NullType then [] else [options[|options| - 1]]
  }

  /** The mapping read off the schema itself: the type a value of this fragment needs. */
  function TypeFor(s: Schema): Option<GoTy> {
    match s
    case Anything => Some(GoRaw)
    case Ref(n) => Some(GoNamed(n))
    case AnyOf(options) =>
      var concrete := ConcreteOptions(options);
      if |concrete| != 1 then Some(GoRaw)
      else
        assert concrete[0] in options;
        (match TypeFor(concrete[0])
         case None => None
         case Some(inner) => Some(if NullType in options then Nullable(inner) else inner))
    case StringEnum(values) =>
      if values == [] then Some(GoString)
      else if EnumKey(values) in ENUM_NAMES then Some(GoNamed(ENUM_NAMES[EnumKey(values)]))
      else None
    case StringType => Some(GoString)
    case IntegerType => Some(GoInt)
    case NumberType => Some(GoFloat64)
    case BooleanType => Some(GoBool)
    case NullType => None
    case ArrayOf(items) =>
      (match TypeFor(items)
       case None => None
       case Some(elem) => Some(GoSlice(elem)))
    case ObjectOf(_) => Some(GoRaw)
  }

  lemma {:induction false} LastSegment(path: string, n: string)
    requires '/' !in n
    ensures AfterLastSlash(path + "/" + n) == n
  {
    var s := path + "/" + n;
    assert s[|path|] == '/';
    if path == "" {
      assert s[1..] == n;
    } else {
      assert s[1..] == path[1..] + "/" + n;
      assert s[1..][|path| - 1] == '/';
      LastSegment(path[1..], n);
    }
  }

  lemma NullNode(s: Schema)
    ensures NodeOf(s).typ.TypeNull? <==> s == NullType
  {
  }

  lemma {:induction false} NodesConcrete(options: seq<Schema>)
    ensures Concrete(NodesOf(options)) == NodesOf(ConcreteOptions(options))
    decreases |options|
  {
    hide NodeOf;
    if options != [] {
      var k := |options| - 1;
      NodesConcrete(options[..k]);
      NullNode(options[k]);
      assert NodesOf(options)[..k] == NodesOf(options[..k]);
      var c := ConcreteOptions(options[..k]);
      assert (c + [options[k]])[..|c|] == c;
    }
  }

  lemma NodesHaveNull(options: seq<Schema>)
    ensures HasNull(NodesOf(options)) <==> NullType in options
  {
    hide NodeOf;
    forall i | 0 <= i < |options| ensures NodesOf(options)[i].typ.TypeNull? <==> options[i] == NullType {
      NullNode(options[i]);
    }
    if NullType in options {
      var i :| 0 <= i < |options| && options[i] == NullType;
      assert NodesOf(options)[i].typ.TypeNull?;
    }
  }

  /** Every name a fragment refers to is one path segment. */
  predicate PlainRefs(s: Schema) {
    match s
    case Ref(n) => '/' !in n
    case AnyOf(options) => forall o | o in options :: PlainRefs(o)
    case ArrayOf(items) => PlainRefs(items)
    case _ => true
  }

  lemma RefType(n: string)
    requires '/' !in n
    ensures GoTypeOf(NodeOf(Ref(n))) == Some(GoNamed(n))
  {
    assert "#/$defs/" + n == "#/$defs" + "/" + n;
    LastSegment("#/$defs", n);
  }

  lemma ChoiceNode(options: seq<Schema>)
    ensures NodeOf(AnyOf(options)) == EMPTY.(anyOf := NodesOf(options))
  {
  }

  lemma ChoiceType(options: seq<Schema>)
    requires forall o | o in ConcreteOptions(options) :: GoTypeOf(NodeOf(o)) == TypeFor(o)
    ensures GoTypeOf(NodeOf(AnyOf(options))) == TypeFor(AnyOf(options))
  {
    ChoiceNode(options);
    hide NodeOf, HasNull;
    NodesConcrete(options);
    NodesHaveNull(options);
    var c := ConcreteOptions(options);
    assert |c| == 1 ==> Concrete(NodesOf(options))[0] == NodeOf(c[0]);
  }

  /** Decoding a fragment field by field and deciding on the fields gives that type. */
  lemma {:induction false} NodeHasType(s: Schema)
    requires PlainRefs(s)
    ensures GoTypeOf(NodeOf(s)) == TypeFor(s)
  {
    match s
    case Ref(n) => RefType(n);
    case AnyOf(options) =>
      forall o | o in ConcreteOptions(options) ensures GoTypeOf(NodeOf(o)) == TypeFor(o) {
        assert o in options;
        NodeHasType(o);
      }
      ChoiceType(options);
    case ArrayOf(items) => NodeHasType(items);
    case _ =>
  }

  /** A pointer only ever points to a type that has no nil of its own. */
  predicate OnePointer(t: GoTy) {
    match t
    case GoPtr(e) => !Nilable(e) && OnePointer(e)
    case GoSlice(e) => OnePointer(e)
    case _ => true
  }

  lemma {:induction false} NoDoublePointer(n: Node, t: GoTy)
    requires GoTypeOf(n) == Some(t)
    ensures OnePointer(t) && OnePointer(Nullable(t)) && Nilable(Nullable(t)) && Nullable(Nullable(t)) == Nullable(t)
    decreases n
  {
    if n.ref == "" {
      if n.anyOf != [] {
        var concrete := Concrete(n.anyOf);
        if |concrete| == 1 {
          assert concrete[0] in n.anyOf;
          NoDoublePointer(concrete[0], GoTypeOf(concrete[0]).value);
        }
      } else if n.enum == [] && n.typ.TypeArray? && n.items.Some? {
        NoDoublePointer(n.items.value, GoTypeOf(n.items.value).value);
      }
    }
  }

  // ---- the identity of a value set --------------------------------------------------------------

  lemma {:induction false} LessIsTotal(a: string, b: string)
    ensures (Less(a, b) || Less(b, a)) <==> a != b
    ensures !(Less(a, b) && Less(b, a))
  {
    if a != [] && b != [] && a[0] == b[0] {
      LessIsTotal(a[1..], b[1..]);
      assert a == [a[0]] + a[1..] && b == [b[0]] + b[1..];
    }
  }

  lemma {:induction false} LessIsTransitive(a: string, b: string, c: string)
    requires Less(a, b) && Less(b, c)
    ensures Less(a, c)
  {
    if a != [] && a[0] == b[0] == c[0] {
      LessIsTransitive(a[1..], b[1..], c[1..]);
    }
  }

  lemma {:induction false} InsertionsCommute(x: string, y: string, s: seq<string>)
    ensures Inserted(x, Inserted(y, s)) == Inserted(y, Inserted(x, s))
  {
    hide Less;
    LessIsTotal(x, y);
    if s != [] {
      assert ([x] + s)[1..] == s && ([y] + s)[1..] == s;
      if Less(s[0], x) && Less(x, y) {
        LessIsTransitive(s[0], x, y);
      } else if Less(s[0], y) && Less(y, x) {
        LessIsTransitive(s[0], y, x);
      }
      if Less(s[0], x) && Less(s[0], y) {
        InsertionsCommute(x, y, s[1..]);
        assert ([s[0]] + Inserted(x, s[1..]))[1..] == Inserted(x, s[1..]);
        assert ([s[0]] + Inserted(y, s[1..]))[1..] == Inserted(y, s[1..]);
      }
    }
  }

  lemma {:induction false} SortedPicks(values: seq<string>, i: nat)
    requires i < |values|
    ensures Sorted(values) == Inserted(values[i], Sorted(values[..i] + values[i + 1..]))
  {
    var others := values[..i] + values[i + 1..];
    if i == 0 {
      assert others == values[1..];
    } else {
      SortedPicks(values[1..], i - 1);
      assert others[1..] == values[1..][..i - 1] + values[1..][i..];
      InsertionsCommute(values[0], values[i], Sorted(others[1..]));
    }
  }

  lemma {:induction false} InsertedKeeps(x: string, s: seq<string>)
    ensures multiset(Inserted(x, s)) == multiset(s) + multiset{x}
  {
    if s != [] && Less(s[0], x) {
      InsertedKeeps(x, s[1..]);
    }
    assert s != [] ==> s == [s[0]] + s[1..];
  }

  lemma {:induction false} SortedKeeps(values: seq<string>)
    ensures multiset(Sorted(values)) == multiset(values) && |Sorted(values)| == |values|
  {
    if values != [] {
      SortedKeeps(values[1..]);
      InsertedKeeps(values[0], Sorted(values[1..]));
      assert values == [values[0]] + values[1..];
    }
    assert |Sorted(values)| == |multiset(Sorted(values))| == |multiset(values)| == |values|;
  }

  lemma Picked(s: seq<string>, i: nat)
    requires i < |s|
    ensures multiset(s) == multiset(s[..i] + s[i + 1..]) + multiset{s[i]}
  {
    assert s == s[..i] + [s[i]] + s[i + 1..];
  }

  lemma SameWithout(a: multiset<string>, b: multiset<string>, x: string)
    requires a + multiset{x} == b + multiset{x}
    ensures a == b
  {
    assert a == (a + multiset{x}) - multiset{x};
    assert b == (b + multiset{x}) - multiset{x};
  }

  lemma {:induction false} SortedIsCanonical(a: seq<string>, b: seq<string>)
    requires multiset(a) == multiset(b)
    ensures Sorted(a) == Sorted(b)
  {
    hide Inserted;
    if a == [] {
      assert |b| == |multiset(b)| == 0;
    } else {
      Picked(a, 0);
      assert a[..0] + a[1..] == a[1..];
      assert a[0] in multiset(b);
      var i :| 0 <= i < |b| && b[i] == a[0];
      Picked(b, i);
      SameWithout(multiset(a[1..]), multiset(b[..i] + b[i + 1..]), a[0]);
      SortedIsCanonical(a[1..], b[..i] + b[i + 1..]);
      SortedPicks(b, i);
    }
  }

  predicate NoBars(values: seq<string>) {
    forall v | v in values :: '|' !in v
  }

  function FirstBar(s: string): nat {
    if s == "" || s[0] == '|' then 0 else 1 + FirstBar(s[1..])
  }

  lemma {:induction false} FirstBarAfter(head: string, rest: string)
    requires '|' !in head && (rest == "" || rest[0] == '|')
    ensures FirstBar(head + rest) == |head|
  {
    if head == "" {
      assert head + rest == rest;
    } else {
      assert (head + rest)[1..] == head[1..] + rest;
      FirstBarAfter(head[1..], rest);
    }
  }

  lemma JoinHead(a: seq<string>)
    requires a != [] && NoBars(a)
    ensures FirstBar(Join(a)) == |a[0]| <= |Join(a)| && Join(a)[..|a[0]|] == a[0]
    ensures |a| == 1 ==> Join(a) == a[0]
    ensures |a| > 1 ==> |Join(a)| > |a[0]| && Join(a)[|a[0]| + 1..] == Join(a[1..])
  {
    assert a[0] in a;
    if |a| > 1 {
      assert Join(a) == a[0] + ("|" + Join(a[1..]));
      FirstBarAfter(a[0], "|" + Join(a[1..]));
    } else {
      assert Join(a) == a[0] + "";
      FirstBarAfter(a[0], "");
    }
  }

  lemma {:induction false} JoinIsInjective(a: seq<string>, b: seq<string>)
    requires a != [] && b != [] && NoBars(a) && NoBars(b) && Join(a) == Join(b)
    ensures a == b
  {
    hide Join, FirstBar;
    JoinHead(a);
    JoinHead(b);
    if |a| > 1 {
      JoinIsInjective(a[1..], b[1..]);
    }
    assert a == [a[0]] + a[1..] && b == [b[0]] + b[1..];
  }

  /** Two value sets have the same key exactly when they hold the same values ... */
  lemma KeyIdentifiesValues(a: seq<string>, b: seq<string>)
    requires a != [] && b != [] && NoBars(a) && NoBars(b)
    ensures EnumKey(a) == EnumKey(b) <==> multiset(a) == multiset(b)
  {
    SortedKeeps(a);
    SortedKeeps(b);
    if multiset(a) == multiset(b) {
      SortedIsCanonical(a, b);
    }
    if EnumKey(a) == EnumKey(b) {
      forall v | v in Sorted(a) ensures '|' !in v { assert v in multiset(Sorted(a)); }
      forall v | v in Sorted(b) ensures '|' !in v { assert v in multiset(Sorted(b)); }
      JoinIsInjective(Sorted(a), Sorted(b));
    }
  }

  /** The values a key spells: the parts between its bars. */
  function Split(key: string): (parts: seq<string>)
    ensures parts != [] && NoBars(parts) && Join(parts) == key
  {
    var i := FirstBar(key);
    BarIsFirst(key);
    if i == |key| then [key]
    else
      var rest := Split(key[i + 1..]);
      assert ([key[..i]] + rest)[1..] == rest && key == key[..i] + "|" + key[i + 1..];
      [key[..i]] + rest
  }

  lemma {:induction false} BarIsFirst(key: string)
    ensures FirstBar(key) <= |key| && '|' !in key[..FirstBar(key)]
    ensures FirstBar(key) < |key| ==> key[FirstBar(key)] == '|'
  {
    if key != "" && key[0] != '|' {
      BarIsFirst(key[1..]);
      assert key[..FirstBar(key)] == [key[0]] + key[1..][..FirstBar(key[1..])];
    }
  }

  /** ... and a value set is what its key spells exactly when no value of it holds the
      separator.  A set that goes by a Go name has that type's own values in that case, and
      takes the name of a type with other values in every other. */
  lemma KeySpellsValues(values: seq<string>)
    requires values != []
    ensures multiset(values) == multiset(Split(EnumKey(values))) <==> NoBars(values)
    ensures EnumKey(values) in ENUM_NAMES ==>
              GoTypeOf(NodeOf(StringEnum(values))) == Some(GoNamed(ENUM_NAMES[EnumKey(values)]))
  {
    hide Split, Join, Sorted, Inserted;
    var parts := Split(EnumKey(values));
    SortedKeeps(values);
    if NoBars(values) {
      forall v | v in Sorted(values) ensures '|' !in v { assert v in multiset(Sorted(values)); }
      JoinIsInjective(Sorted(values), parts);
    }
    if multiset(values) == multiset(parts) {
      forall v | v in values ensures '|' !in v {
        assert v in multiset(parts);
      }
    }
  }

  /** A set of one value that takes another set's name. */
  lemma SeparatorInValue()
    ensures EnumKey(["live|silent"]) == EnumKey(["live", "silent"])
    ensures GoTypeOf(NodeOf(StringEnum(["live|silent"]))) == Some(GoNamed("CaptureMode"))
  {
    var one, two := ["live|silent"], ["live", "silent"];
    assert Less("live", "silent");
    assert one[1..] == [] && two[1..] == ["silent"] && ["silent"][1..] == [];
    assert Sorted(["silent"]) == ["silent"];
    assert Sorted(two) == two && Sorted(one) == one;
    assert Join(two) == "live" + "|" + Join(["silent"]);
    assert "live" + "|" + "silent" == "live|silent";
  }

  // ---- emission: enums --------------------------------------------------------------------------

  /** The enums typed string, in the order the walk meets them. */
  function EnumsOf(n: Node): seq<seq<string>> {
    (if n.enum != [] && n.typ.TypeString? then [n.enum] else [])
    + (if n.items.Some? then EnumsOf(n.items.value) else [])
    + EnumsOfAll(n.anyOf)
    + EnumsOfAll(n.properties)
  }

  function EnumsOfAll(nodes: seq<Node>): seq<seq<string>> {
    if nodes == [] then []
    else EnumsOfAll(nodes[..|nodes| - 1]) + EnumsOf(nodes[|nodes| - 1])
  }

  function PropertyNodes(properties: seq<Property>): seq<Node> {
    seq(|properties|, i requires 0 <= i < |properties| => NodeOf(properties[i].schema))
  }

  function PropertiesOf(d: Def): seq<Property> {
    if d.ObjectDef? then d.properties else []
  }

  /** A definition, decoded as a fragment. */
  function DefNode(d: Def): Node {
    if d.ObjectDef? then EMPTY.(typ := TypeObject, properties := PropertyNodes(d.properties)) else EMPTY
  }

  lemma DefNodeEnums(d: Def)
    ensures EnumsOf(DefNode(d)) == EnumsOfAll(PropertyNodes(PropertiesOf(d)))
  {
    assert PropertyNodes([]) == [];
  }

  function EnumsOfDocument(doc: Document): seq<seq<string>> {
    if doc == [] then []
    else EnumsOfDocument(doc[..|doc| - 1]) + EnumsOf(DefNode(doc[|doc| - 1].def))
  }

  type EnumTypes = map<string, seq<string>>

  /** One type per name, with the values of the first set met that has it; None when some
      set has no name. */
  function Collected(enums: seq<seq<string>>): Option<EnumTypes> {
    if enums == [] then Some(map[])
    else
      var rest := Collected(enums[..|enums| - 1]);
      var key := EnumKey(enums[|enums| - 1]);
      if rest.None? || key !in ENUM_NAMES then None
      else if ENUM_NAMES[key] in rest.value then rest
      else Some(rest.value[ENUM_NAMES[key] := enums[|enums| - 1]])
  }

  lemma {:induction false} OneMore(seen: seq<seq<string>>, more: seq<seq<string>>)
    ensures Collected(seen).None? ==> Collected(seen + more).None?
    decreases |more|
  {
    if more == [] {
      assert seen + more == seen;
    } else {
      OneMore(seen, more[..|more| - 1]);
      assert (seen + more)[..|seen + more| - 1] == seen + more[..|more| - 1];
    }
  }

  lemma AllTogether(a: seq<seq<string>>, b: seq<seq<string>>, c: seq<seq<string>>)
    ensures (a + b) + c == a + (b + c)
  {
  }

  lemma Regroup(
    seen: seq<seq<string>>, a: seq<seq<string>>, b: seq<seq<string>>, c: seq<seq<string>>, d: seq<seq<string>>)
    ensures seen + (a + b + c + d) == seen + a + b + c + d
  {
  }

  lemma SamePrefixWalk(nodes: seq<Node>, i: nat)
    requires i < |nodes|
    ensures EnumsOfAll(nodes[..i + 1]) == EnumsOfAll(nodes[..i]) + EnumsOf(nodes[i])
    ensures EnumsOfAll(nodes[..i + 1]) <= EnumsOfAll(nodes)
    decreases |nodes| - i
  {
    assert nodes[..i + 1][..i] == nodes[..i];
    if i + 1 == |nodes| {
      assert nodes[..i + 1] == nodes;
    } else {
      SamePrefixWalk(nodes, i + 1);
    }
  }

  /** The walk over the document, with the types found so far. */
  class EnumWalk {
    var values: EnumTypes

    constructor ()
      ensures values == map[]
    {
      values := map[];
    }

    /** One enum of its own, then items, alternatives and properties; stops at the first set
        without a name. */
    method Walk(n: Node, ghost seen: seq<seq<string>>) returns (ok: bool)
      requires Collected(seen) == Some(values)
      modifies this
      ensures Collected(seen + EnumsOf(n)) == if ok then Some(values) else None
      decreases n
    {
      hide EnumKey;
      ghost var own := if n.enum != [] && n.typ.TypeString? then [n.enum] else [];
      ghost var inItems := if n.items.Some? then EnumsOf(n.items.value) else [];
      ghost var inChoices, inProperties := EnumsOfAll(n.anyOf), EnumsOfAll(n.properties);
      Regroup(seen, own, inItems, inChoices, inProperties);
      assert EnumsOf(n) == own + inItems + inChoices + inProperties;
      hide Collected, EnumsOf, EnumsOfAll;
      ok := true;
      if n.enum != [] && n.typ.TypeString? {
        ok := Note(n.enum, seen);
      } else {
        assert seen + own == seen;
      }
      if ok && n.items.Some? {
        ok := Walk(n.items.value, seen + own);
      } else if ok {
        assert seen + own + inItems == seen + own;
      } else {
        OneMore(seen + own, inItems);
      }
      if ok {
        ok := WalkAll(n.anyOf, seen + own + inItems);
      } else {
        OneMore(seen + own + inItems, inChoices);
      }
      if ok {
        ok := WalkAll(n.properties, seen + own + inItems + inChoices);
      } else {
        OneMore(seen + own + inItems + inChoices, inProperties);
      }
    }

    /** One value set: named, and kept if it is the first of that name. */
    method Note(enum: seq<string>, ghost seen: seq<seq<string>>) returns (ok: bool)
      requires Collected(seen) == Some(values)
      modifies this
      ensures Collected(seen + [enum]) == if ok then Some(values) else None
    {
      hide EnumKey;
      assert (seen + [enum])[..|seen + [enum]| - 1] == seen;
      var key := EnumKey(enum);
      if key !in ENUM_NAMES {
        return false;
      }
      if ENUM_NAMES[key] !in values {
        values := values[ENUM_NAMES[key] := enum];
      }
      ok := true;
    }

    method WalkAll(nodes: seq<Node>, ghost seen: seq<seq<string>>) returns (ok: bool)
      requires Collected(seen) == Some(values)
      modifies this
      ensures Collected(seen + EnumsOfAll(nodes)) == if ok then Some(values) else None
      decreases nodes
    {
      hide EnumKey, EnumsOf, Collected;
      assert seen + EnumsOfAll([]) == seen;
      for i := 0 to |nodes|
        invariant Collected(seen + EnumsOfAll(nodes[..i])) == Some(values)
      {
        SamePrefixWalk(nodes, i);
        AllTogether(seen, EnumsOfAll(nodes[..i]), EnumsOf(nodes[i]));
        ok := Walk(nodes[i], seen + EnumsOfAll(nodes[..i]));
        if !ok {
          ghost var walked := EnumsOfAll(nodes[..i + 1]);
          ghost var rest := EnumsOfAll(nodes)[|walked|..];
          assert EnumsOfAll(nodes) == walked + rest;
          OneMore(seen + walked, rest);
          AllTogether(seen, walked, rest);
          return;
        }
      }
      assert nodes[..|nodes|] == nodes;
      ok := true;
    }
  }

  lemma SamePrefixDocument(doc: Document, i: nat)
    requires i < |doc|
    ensures EnumsOfDocument(doc[..i + 1]) ==
              EnumsOfDocument(doc[..i]) + EnumsOf(DefNode(doc[i].def))
    ensures EnumsOfDocument(doc[..i + 1]) <= EnumsOfDocument(doc)
    decreases |doc| - i
  {
    assert doc[..i + 1][..i] == doc[..i];
    if i + 1 == |doc| {
      assert doc[..i + 1] == doc;
    } else {
      SamePrefixDocument(doc, i + 1);
    }
  }

  lemma NothingCollected()
    ensures Collected([]) == Some(map[])
  {
  }

  /** Each named enum type once. */
  method EmitEnums(doc: Document) returns (types: Option<EnumTypes>)
    ensures types == Collected(EnumsOfDocument(doc))
  {
    hide Collected, EnumsOf, DefNode;
    var walk := new EnumWalk();
    NothingCollected();
    for i := 0 to |doc|
      invariant Collected(EnumsOfDocument(doc[..i])) == Some(walk.values)
    {
      SamePrefixDocument(doc, i);
      var ok := walk.Walk(DefNode(doc[i].def), EnumsOfDocument(doc[..i]));
      if !ok {
        ghost var walked := EnumsOfDocument(doc[..i + 1]);
        ghost var rest := EnumsOfDocument(doc)[|walked|..];
        assert EnumsOfDocument(doc) == walked + rest;
        OneMore(walked, rest);
        return None;
      }
    }
    assert doc[..|doc|] == doc;
    types := Some(walk.values);
  }

  // ---- emission: structs ------------------------------------------------------------------------

  datatype GoField = GoField(json: string, ty: GoTy, omitempty: bool)

  type StructTypes = map<string, seq<GoField>>

  /** A field that may be missing is made nilable and left out while it is nil. */
  function FieldOf(p: Property, required: seq<string>): Option<GoField> {
    match GoTypeOf(NodeOf(p.schema))
    case None => None
    case Some(t) =>
      Some(if p.name in required then GoField(p.name, t, false) else GoField(p.name, Nullable(t), true))
  }

  function FieldsOf(properties: seq<Property>, required: seq<string>): Option<seq<GoField>> {
    if properties == [] then Some([])
    else
      var rest := FieldsOf(properties[..|properties| - 1], required);
      var field := FieldOf(properties[|properties| - 1], required);
      if rest.Some? && field.Some? then Some(rest.value + [field.value]) else None
  }

  function StructOf(d: Def): Option<seq<GoField>> {
    if d.ObjectDef? then FieldsOf(d.properties, d.required) else None
  }

  function StructsOf(doc: Document): Option<StructTypes> {
    if doc == [] then Some(map[])
    else
      var rest := StructsOf(doc[..|doc| - 1]);
      var fields := StructOf(doc[|doc| - 1].def);
      if rest.Some? && fields.Some? then Some(rest.value[doc[|doc| - 1].name := fields.value]) else None
  }

  lemma {:induction false} FieldsFail(properties: seq<Property>, required: seq<string>, i: nat)
    requires i <= |properties| && FieldsOf(properties[..i], required).None?
    ensures FieldsOf(properties, required).None?
    decreases |properties|
  {
    if i == |properties| {
      assert properties[..i] == properties;
    } else {
      var init := properties[..|properties| - 1];
      assert init[..i] == properties[..i];
      FieldsFail(init, required, i);
    }
  }

  lemma {:induction false} StructsFail(doc: Document, i: nat)
    requires i <= |doc| && StructsOf(doc[..i]).None?
    ensures StructsOf(doc).None?
    decreases |doc|
  {
    if i == |doc| {
      assert doc[..i] == doc;
    } else {
      assert doc[..|doc| - 1][..i] == doc[..i];
      StructsFail(doc[..|doc| - 1], i);
    }
  }

  lemma NoFields(required: seq<string>)
    ensures FieldsOf([], required) == Some([])
  {
  }

  lemma NextField(properties: seq<Property>, required: seq<string>, i: nat)
    requires i < |properties|
    ensures var before, field := FieldsOf(properties[..i], required), FieldOf(properties[i], required);
      FieldsOf(properties[..i + 1], required) ==
        if before.None? || field.None? then None else Some(before.value + [field.value])
  {
    hide FieldOf;
    assert properties[..i + 1][..i] == properties[..i];
  }

  method EmitStruct(d: Def) returns (fields: Option<seq<GoField>>)
    ensures fields == StructOf(d)
  {
    if d.Reserved? {
      return None;
    }
    hide FieldsOf, GoTypeOf, NodeOf, Nullable;
    var properties, required := d.properties, d.required;
    var written: seq<GoField> := [];
    NoFields(required);
    for i := 0 to |properties|
      invariant FieldsOf(properties[..i], required) == Some(written)
    {
      NextField(properties, required, i);
      var t := GoType(NodeOf(properties[i].schema));
      if t.None? {
        FieldsFail(properties, required, i + 1);
        return None;
      }
      var typeName, omit := t.value, false;
      if properties[i].name !in required {
        typeName := Nullable(typeName);
        omit := true;
      }
      written := written + [GoField(properties[i].name, typeName, omit)];
    }
    assert properties[..|properties|] == properties;
    fields := Some(written);
  }

  /** One struct per definition, fields in schema order. */
  method EmitStructs(doc: Document) returns (structs: Option<StructTypes>)
    ensures structs == StructsOf(doc)
  {
    hide StructOf;
    var written: StructTypes := map[];
    for i := 0 to |doc|
      invariant StructsOf(doc[..i]) == Some(written)
    {
      assert doc[..i + 1][..i] == doc[..i];
      var fields := EmitStruct(doc[i].def);
      if fields.None? {
        StructsFail(doc, i + 1);
        return None;
      }
      written := written[doc[i].name := fields.value];
    }
    assert doc[..|doc|] == doc;
    structs := Some(written);
  }

  datatype Types = Types(structs: StructTypes, enums: EnumTypes)

  ghost predicate Compiled(doc: Document, types: Types) {
    Collected(EnumsOfDocument(doc)) == Some(types.enums) && StructsOf(doc) == Some(types.structs)
  }

  method Generate(doc: Document) returns (types: Option<Types>)
    ensures types.Some? ==> Compiled(doc, types.value)
    ensures types.None? ==> Collected(EnumsOfDocument(doc)).None? || StructsOf(doc).None?
  {
    var enums := EmitEnums(doc);
    if enums.None? {
      return None;
    }
    var structs := EmitStructs(doc);
    if structs.None? {
      return None;
    }
    types := Some(Types(structs.value, enums.value));
  }
}

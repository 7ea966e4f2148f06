/** The configured reader set: shipped defaults, then a file, then flags.

    `Layered` says what layering means without doing it: every name once, in the order it
    first appears in any layer, with the whole endpoint list of its last entry. */
module Config {
  import opened Framing

  // ---- endpoints ------------------------------------------------------------------------------

  datatype TransportKind = Pipe | Tcp

  datatype Endpoint = Endpoint(kind: TransportKind, address: string)

  /** Splits at the first separator. */
  function Cut(s: string, sep: char): (r: Option<(string, string)>)
    ensures r.None? <==> sep !in s
    ensures r.Some? ==> s == r.value.0 + [sep] + r.value.1 && sep !in r.value.0
  {
    if s == "" then None
    else if s[0] == sep then Some(("", s[1..]))
    else
      match Cut(s[1..], sep)
      case None => None
      case Some((before, after)) => Some(([s[0]] + before, after))
  }

  function KindName(kind: TransportKind): string {
    match kind
    case Pipe => "pipe"
    case Tcp => "tcp"
  }

  function ParseEndpoint(spec: string): Option<Endpoint> {
    match Cut(spec, ':')
    case None => None
    case Some((kind, address)) =>
      if address == "" then None
      else if kind == "pipe" then Some(Endpoint(Pipe, address))
      else if kind == "tcp" then (if ':' in address then Some(Endpoint(Tcp, address)) else None)
      else None
  }

  function Spelled(e: Endpoint): string {
    KindName(e.kind) + ":" + e.address
  }

  /** What an agent is shown may be written back unchanged ... */
  lemma SpellingIsKept(spec: string)
    requires ParseEndpoint(spec).Some?
    ensures Spelled(ParseEndpoint(spec).value) == spec
  {
  }

  lemma {:induction false} CutIsFirst(before: string, sep: char, after: string)
    requires sep !in before
    ensures Cut(before + [sep] + after, sep) == Some((before, after))
  {
    var s := before + [sep] + after;
    if before == "" {
      assert s[0] == sep && s[1..] == after;
    } else {
      assert s[0] == before[0] && s[1..] == before[1..] + [sep] + after;
      assert [before[0]] + before[1..] == before;
      CutIsFirst(before[1..], sep, after);
    }
  }

  /** ... and an endpoint survives being spelled exactly when it has an address, a TCP one
      with a port. */
  lemma ParsedBack(e: Endpoint)
    ensures ParseEndpoint(Spelled(e)) == Some(e) <==> e.address != "" && (e.kind.Tcp? ==> ':' in e.address)
    ensures ParseEndpoint(Spelled(e)) == Some(e) || ParseEndpoint(Spelled(e)) == None
  {
    CutIsFirst(KindName(e.kind), ':', e.address);
  }

  // ---- layers -----------------------------------------------------------------------------------

  datatype Reader = Reader(name: string, endpoints: seq<Endpoint>)

  datatype DocumentReader = DocumentReader(name: string, endpoints: seq<string>)

  type Document = seq<DocumentReader>

  function Names(readers: seq<Reader>): seq<string> {
    seq(|readers|, i requires 0 <= i < |readers| => readers[i].name)
  }

  /** Each name once, where it first appears. */
  function Appearances(names: seq<string>): (r: seq<string>)
    ensures forall n :: n in r <==> n in names
    ensures forall i, j | 0 <= i < j < |r| :: r[i] != r[j]
  {
    if names == [] then []
    else
      var rest := Appearances(names[..|names| - 1]);
      assert forall n :: n in names <==> n in names[..|names| - 1] || n == names[|names| - 1];
      if names[|names| - 1] in rest then rest else rest + [names[|names| - 1]]
  }

  /** The endpoints of a name's last entry. */
  function LastEndpoints(readers: seq<Reader>, name: string): seq<Endpoint> {
    if readers == [] then []
    else if readers[|readers| - 1].name == name then readers[|readers| - 1].endpoints
    else LastEndpoints(readers[..|readers| - 1], name)
  }

  function Layered(readers: seq<Reader>): seq<Reader> {
    var names := Appearances(Names(readers));
    seq(|names|, i requires 0 <= i < |names| => Reader(names[i], LastEndpoints(readers, names[i])))
  }

  predicate Distinct(names: seq<string>) {
    forall i, j | 0 <= i < j < |names| :: names[i] != names[j]
  }

  function IndexOfName(readers: seq<Reader>, name: string): (i: int)
    ensures -1 <= i < |readers|
    ensures i >= 0 ==> readers[i].name == name && forall j | 0 <= j < i :: readers[j].name != name
    ensures i < 0 ==> forall j | 0 <= j < |readers| :: readers[j].name != name
  {
    if readers == [] then -1
    else
      var n := |readers| - 1;
      var i := IndexOfName(readers[..n], name);
      assert forall j | 0 <= j < n :: readers[..n][j] == readers[j];
      if i >= 0 then i else if readers[n].name == name then n else -1
  }

  function Replaced(readers: seq<Reader>, override: Reader): seq<Reader> {
    var i := IndexOfName(readers, override.name);
    if i >= 0 then readers[i := override] else readers + [override]
  }

  lemma NamesOfMore(readers: seq<Reader>, r: Reader)
    ensures Names(readers + [r]) == Names(readers) + [r.name]
  {
  }

  lemma IndexMeansNamed(readers: seq<Reader>, name: string)
    ensures IndexOfName(readers, name) >= 0 <==> name in Names(readers)
  {
    if name in Names(readers) {
      var k :| 0 <= k < |readers| && Names(readers)[k] == name;
      assert readers[k].name == name;
    }
    var i := IndexOfName(readers, name);
    if i >= 0 {
      assert Names(readers)[i] == name;
    }
  }

  /** One more entry in a layer is one replacement. */
  lemma OneMoreEntry(readers: seq<Reader>, r: Reader)
    ensures Layered(readers + [r]) == Replaced(Layered(readers), r)
  {
    var names := Names(readers);
    NamesOfMore(readers, r);
    assert (names + [r.name])[..|names|] == names;
    assert (readers + [r])[..|readers|] == readers;
    assert Names(Layered(readers)) == Appearances(names);
    IndexMeansNamed(Layered(readers), r.name);
  }

  lemma LastNameIsNew(readers: seq<Reader>)
    requires readers != [] && Distinct(Names(readers))
    ensures Distinct(Names(readers[..|readers| - 1]))
    ensures readers[|readers| - 1].name !in Names(readers[..|readers| - 1])
  {
    var n := |readers| - 1;
    forall i | 0 <= i < n ensures Names(readers[..n])[i] == Names(readers)[i] != readers[n].name {
      assert Names(readers)[n] == readers[n].name;
    }
  }

  lemma {:induction false} DistinctIsLayered(readers: seq<Reader>)
    requires Distinct(Names(readers))
    ensures Layered(readers) == readers
    decreases |readers|
  {
    if readers != [] {
      var n := |readers| - 1;
      var init, last := readers[..n], readers[n];
      assert init + [last] == readers;
      LastNameIsNew(readers);
      DistinctIsLayered(init);
      OneMoreEntry(init, last);
      IndexMeansNamed(init, last.name);
    }
  }

  /** What layering gives: every configured name once, and all of its last entry. */
  lemma LayeredMeaning(readers: seq<Reader>)
    ensures Distinct(Names(Layered(readers)))
    ensures Names(Layered(readers)) == Appearances(Names(readers))
    ensures forall i | 0 <= i < |Layered(readers)| ::
              Layered(readers)[i].endpoints == LastEndpoints(readers, Layered(readers)[i].name)
  {
    assert Names(Layered(readers)) == Appearances(Names(readers));
  }

  // ---- parsing a layer ------------------------------------------------------------------------------

  function ParsedAll(specs: seq<string>): Option<seq<Endpoint>> {
    if specs == [] then Some([])
    else
      var rest := ParsedAll(specs[..|specs| - 1]);
      var last := ParseEndpoint(specs[|specs| - 1]);
      if rest.Some? && last.Some? then Some(rest.value + [last.value]) else None
  }

  function ToReader(entry: DocumentReader): Option<Reader> {
    if entry.name == "" || entry.endpoints == [] then None
    else
      match ParsedAll(entry.endpoints)
      case None => None
      case Some(endpoints) => Some(Reader(entry.name, endpoints))
  }

  function ToReaders(doc: Document): Option<seq<Reader>> {
    if doc == [] then Some([])
    else
      var rest := ToReaders(doc[..|doc| - 1]);
      var last := ToReader(doc[|doc| - 1]);
      if rest.Some? && last.Some? then Some(rest.value + [last.value]) else None
  }

  lemma {:induction false} ParsedAllFails(specs: seq<string>, i: nat)
    requires i <= |specs| && ParsedAll(specs[..i]).None?
    ensures ParsedAll(specs).None?
    decreases |specs|
  {
    if i == |specs| {
      assert specs[..i] == specs;
    } else {
      assert specs[..|specs| - 1][..i] == specs[..i];
      ParsedAllFails(specs[..|specs| - 1], i);
    }
  }

  lemma {:induction false} ToReadersFails(doc: Document, i: nat)
    requires i <= |doc| && ToReaders(doc[..i]).None?
    ensures ToReaders(doc).None?
    decreases |doc|
  {
    if i == |doc| {
      assert doc[..i] == doc;
    } else {
      assert doc[..|doc| - 1][..i] == doc[..i];
      ToReadersFails(doc[..|doc| - 1], i);
    }
  }

  lemma NothingParsed()
    ensures ParsedAll([]) == Some([])
  {
  }

  lemma NextParsed(specs: seq<string>, i: nat)
    requires i < |specs|
    ensures var before, next := ParsedAll(specs[..i]), ParseEndpoint(specs[i]);
      ParsedAll(specs[..i + 1]) == if before.None? || next.None? then None else Some(before.value + [next.value])
  {
    hide ParseEndpoint;
    assert specs[..i + 1][..i] == specs[..i];
  }

  method ReadEntry(entry: DocumentReader) returns (r: Option<Reader>)
    ensures r == ToReader(entry)
  {
    if entry.name == "" || entry.endpoints == [] {
      return None;
    }
    hide ParseEndpoint, ParsedAll;
    var endpoints: seq<Endpoint> := [];
    NothingParsed();
    for i := 0 to |entry.endpoints|
      invariant ParsedAll(entry.endpoints[..i]) == Some(endpoints)
    {
      NextParsed(entry.endpoints, i);
      var endpoint := ParseEndpoint(entry.endpoints[i]);
      if endpoint.None? {
        ParsedAllFails(entry.endpoints, i + 1);
        return None;
      }
      endpoints := endpoints + [endpoint.value];
    }
    assert entry.endpoints[..|entry.endpoints|] == entry.endpoints;
    r := Some(Reader(entry.name, endpoints));
  }

  method ReadDocument(doc: Document) returns (readers: Option<seq<Reader>>)
    ensures readers == ToReaders(doc)
  {
    var found: seq<Reader> := [];
    for i := 0 to |doc|
      invariant ToReaders(doc[..i]) == Some(found)
    {
      assert doc[..i + 1][..i] == doc[..i];
      var r := ReadEntry(doc[i]);
      if r.None? {
        ToReadersFails(doc, i + 1);
        return None;
      }
      found := found + [r.value];
    }
    assert doc[..|doc|] == doc;
    readers := Some(found);
  }

  // ---- flags ---------------------------------------------------------------------------------------

  datatype Named = Named(name: string, endpoint: Endpoint)

  function ParseFlag(flag: string): Option<Named> {
    match Cut(flag, '=')
    case None => None
    case Some((name, spec)) =>
      if name == "" || spec == "" then None
      else
        match ParseEndpoint(spec)
        case None => None
        case Some(endpoint) => Some(Named(name, endpoint))
  }

  function ParsedFlags(flags: seq<string>): Option<seq<Named>> {
    if flags == [] then Some([])
    else
      var rest := ParsedFlags(flags[..|flags| - 1]);
      var last := ParseFlag(flags[|flags| - 1]);
      if rest.Some? && last.Some? then Some(rest.value + [last.value]) else None
  }

  lemma {:induction false} ParsedFlagsFails(flags: seq<string>, i: nat)
    requires i <= |flags| && ParsedFlags(flags[..i]).None?
    ensures ParsedFlags(flags).None?
    decreases |flags|
  {
    if i == |flags| {
      assert flags[..i] == flags;
    } else {
      assert flags[..|flags| - 1][..i] == flags[..i];
      ParsedFlagsFails(flags[..|flags| - 1], i);
    }
  }

  function FlagNames(given: seq<Named>): seq<string> {
    seq(|given|, i requires 0 <= i < |given| => given[i].name)
  }

  /** All endpoints given for a name, in order. */
  function EndpointsFor(given: seq<Named>, name: string): seq<Endpoint> {
    if given == [] then []
    else
      EndpointsFor(given[..|given| - 1], name) +
      if given[|given| - 1].name == name then [given[|given| - 1].endpoint] else []
  }

  /** The flag layer: each name with every endpoint the flags give it. */
  function Grouped(given: seq<Named>): seq<Reader> {
    var names := Appearances(FlagNames(given));
    seq(|names|, i requires 0 <= i < |names| => Reader(names[i], EndpointsFor(given, names[i])))
  }

  lemma NamesOfMoreFlags(given: seq<Named>, g: Named)
    ensures FlagNames(given + [g]) == FlagNames(given) + [g.name]
    ensures (FlagNames(given) + [g.name])[..|FlagNames(given)|] == FlagNames(given)
    ensures (given + [g])[..|given|] == given
  {
  }

  type Endpoints = map<string, seq<Endpoint>>

  ghost predicate Groups(given: seq<Named>, order: seq<string>, byName: Endpoints) {
    && order == Appearances(FlagNames(given))
    && (forall n :: n in byName <==> n in order)
    && forall n | n in byName :: byName[n] == EndpointsFor(given, n)
  }

  lemma OneMoreFlag(given: seq<Named>, order: seq<string>, byName: Endpoints, g: Named)
    requires Groups(given, order, byName)
    ensures g.name in byName ==> Groups(given + [g], order, byName[g.name := byName[g.name] + [g.endpoint]])
    ensures g.name !in byName ==> Groups(given + [g], order + [g.name], byName[g.name := [g.endpoint]])
  {
    NamesOfMoreFlags(given, g);
    if g.name !in byName {
      NothingGiven(given, g.name);
    }
  }

  method ReadersFromFlags(flags: seq<string>) returns (readers: Option<seq<Reader>>)
    ensures readers.None? <==> ParsedFlags(flags).None?
    ensures readers.Some? ==> readers.value == Grouped(ParsedFlags(flags).value)
  {
    hide Groups, ParseFlag, Appearances, EndpointsFor;
    var order: seq<string> := [];
    var byName: Endpoints := map[];
    ghost var given: seq<Named> := [];
    NoFlags();
    for i := 0 to |flags|
      invariant ParsedFlags(flags[..i]) == Some(given)
      invariant Groups(given, order, byName)
    {
      assert flags[..i + 1][..i] == flags[..i];
      var parsed := ParseFlag(flags[i]);
      if parsed.None? {
        ParsedFlagsFails(flags, i + 1);
        return None;
      }
      var name, endpoint := parsed.value.name, parsed.value.endpoint;
      OneMoreFlag(given, order, byName, parsed.value);
      if name in byName {
        byName := byName[name := byName[name] + [endpoint]];
      } else {
        order := order + [name];
        byName := byName[name := [endpoint]];
      }
      given := given + [parsed.value];
    }
    assert flags[..|flags|] == flags;
    var found := InOrder(order, byName, given);
    readers := Some(found);
  }

  lemma NoFlags()
    ensures Groups([], [], map[])
  {
  }

  method InOrder(order: seq<string>, byName: Endpoints, ghost given: seq<Named>) returns (readers: seq<Reader>)
    requires Groups(given, order, byName)
    ensures readers == Grouped(given)
  {
    readers := [];
    for i := 0 to |order|
      invariant readers == Grouped(given)[..i]
    {
      readers := readers + [Reader(order[i], byName[order[i]])];
    }
  }

  lemma {:induction false} NothingGiven(given: seq<Named>, name: string)
    requires name !in FlagNames(given)
    ensures EndpointsFor(given, name) == []
    decreases |given|
  {
    if given != [] {
      var n := |given| - 1;
      NamesOfMoreFlags(given[..n], given[n]);
      assert given[..n] + [given[n]] == given;
      NothingGiven(given[..n], name);
    }
  }

  /** A name's endpoints are all of its highest layer's, and nothing of the layers below. */
  lemma {:induction false} HighestLayerWins(below: seq<Reader>, above: seq<Reader>, name: string)
    ensures LastEndpoints(below + above, name) ==
              if name in Names(above) then LastEndpoints(above, name) else LastEndpoints(below, name)
    decreases |above|
  {
    if above == [] {
      assert below + above == below;
    } else {
      var n := |above| - 1;
      assert (below + above)[..|below + above| - 1] == below + above[..n];
      NamesOfMore(above[..n], above[n]);
      assert above[..n] + [above[n]] == above;
      HighestLayerWins(below, above[..n], name);
    }
  }

  /** The flags of a name are one entry with all of its endpoints. */
  lemma FlagsAreGrouped(given: seq<Named>, name: string)
    requires name in FlagNames(given)
    ensures name in Names(Grouped(given)) && LastEndpoints(Grouped(given), name) == EndpointsFor(given, name)
  {
    var readers := Grouped(given);
    assert Names(readers) == Appearances(FlagNames(given));
    var k :| 0 <= k < |readers| && Names(readers)[k] == name;
    OnlyEntry(readers, k);
  }

  lemma {:induction false} OnlyEntry(readers: seq<Reader>, k: nat)
    requires Distinct(Names(readers)) && k < |readers|
    ensures LastEndpoints(readers, readers[k].name) == readers[k].endpoints
    decreases |readers|
  {
    var n := |readers| - 1;
    if k < n {
      LastNameIsNew(readers);
      assert Names(readers[..n])[k] == readers[k].name;
      OnlyEntry(readers[..n], k);
    }
  }

  // ---- loading -----------------------------------------------------------------------------------------

  /** What reading and decoding the file named by --config gives. */
  datatype File = NoFile | BadFile | Contents(doc: Document)

  /** The entries of all layers, lowest first; None when one of them is refused. */
  function Layers(defaults: Document, file: File, flags: seq<string>): Option<seq<Reader>> {
    var shipped := ToReaders(defaults);
    var written := if file.NoFile? then Some([]) else if file.BadFile? then None else ToReaders(file.doc);
    var given := ParsedFlags(flags);
    if shipped.Some? && written.Some? && given.Some?
    then Some(shipped.value + written.value + Grouped(given.value))
    else None
  }

  class Loader {
    var readers: seq<Reader>

    constructor (readers: seq<Reader>)
      ensures this.readers == readers
    {
      this.readers := readers;
    }

    /** Overrides in place, or appends. */
    method ReplaceReader(override: Reader)
      modifies this
      ensures readers == Replaced(old(readers), override)
    {
      for i := 0 to |readers|
        invariant readers == old(readers)
        invariant forall j | 0 <= j < i :: readers[j].name != override.name
      {
        if readers[i].name == override.name {
          readers := readers[i := override];
          return;
        }
      }
      readers := readers + [override];
    }

    method ReplaceReaders(overrides: seq<Reader>, ghost below: seq<Reader>)
      requires readers == Layered(below)
      modifies this
      ensures readers == Layered(below + overrides)
    {
      assert below + overrides[..0] == below;
      for i := 0 to |overrides|
        invariant readers == Layered(below + overrides[..i])
      {
        OneMoreEntry(below + overrides[..i], overrides[i]);
        assert below + overrides[..i] + [overrides[i]] == below + overrides[..i + 1];
        ReplaceReader(overrides[i]);
      }
      assert overrides[..|overrides|] == overrides;
    }
  }

  /** Loading refines layering; the shipped defaults name each reader once. */
  method Load(defaults: Document, file: File, flags: seq<string>) returns (readers: Option<seq<Reader>>)
    requires ToReaders(defaults).Some? ==> Distinct(Names(ToReaders(defaults).value))
    ensures readers.None? <==> Layers(defaults, file, flags).None?
    ensures readers.Some? ==> readers.value == Layered(Layers(defaults, file, flags).value)
  {
    hide Layered, ToReaders, ParsedFlags, Grouped, Names;
    var shipped := ReadDocument(defaults);
    if shipped.None? {
      return None;
    }
    DistinctIsLayered(shipped.value);
    var loader := new Loader(shipped.value);
    ghost var below := shipped.value;
    match file {
      case NoFile =>
        assert below + [] == below;
      case BadFile =>
        return None;
      case Contents(doc) =>
        var written := ReadDocument(doc);
        if written.None? {
          return None;
        }
        loader.ReplaceReaders(written.value, below);
        below := below + written.value;
    }
    var given := ReadersFromFlags(flags);
    if given.None? {
      return None;
    }
    loader.ReplaceReaders(given.value, below);
    readers := Some(loader.readers);
  }
}

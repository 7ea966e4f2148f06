/** JSON text as the bridge's decoder scans it: brackets opened and closed, strings, numbers
    and names, one byte at a time, and no deeper than its recursion goes.

    `Scanned` says where a scan is after some text.  A decoder that would have to go deeper
    than its limit gives up, which is not the same as finding the text malformed; `Depth`
    is what a caller can count beforehand. */
module JsonText {
  import opened Framing

  datatype Bracket = Array | Object

  /** What may come next. */
  datatype Place =
    | Value
    | ValueOrEnd                                  // after [
    | KeyOrEnd                                    // after {
    | Key                                         // after a comma in an object
    | Colon
    | After                                       // a value is over
    | InString(key: bool)
    | Escape(key: bool)
    | Hex(key: bool, left: nat)
    | Name(rest: bytes)                           // true, false, null, NaN, Infinity
    | Minus | Zero | Digits | Point | Fraction | Exponent | Sign | Power

  datatype Scan = At(place: Place, open: seq<Bracket>) | Malformed | GaveUp

  const SPACES: set<byte> := {0x20, 0x09, 0x0A, 0x0D}
  const QUOTE: byte := 0x22
  const BACKSLASH: byte := 0x5C
  const OPEN_ARRAY: byte := 0x5B
  const CLOSE_ARRAY: byte := 0x5D
  const OPEN_OBJECT: byte := 0x7B
  const CLOSE_OBJECT: byte := 0x7D
  const COMMA: byte := 0x2C
  const ESCAPABLE: set<byte> := {0x22, 0x5C, 0x2F, 0x62, 0x66, 0x6E, 0x72, 0x74}

  const TRUE_REST: bytes := [0x72, 0x75, 0x65]
  const FALSE_REST: bytes := [0x61, 0x6C, 0x73, 0x65]
  const NULL_REST: bytes := [0x75, 0x6C, 0x6C]
  const NAN_REST: bytes := [0x61, 0x4E]
  const INFINITY_REST: bytes := [0x6E, 0x66, 0x69, 0x6E, 0x69, 0x74, 0x79]

  predicate IsDigit(b: byte) {
    0x30 <= b <= 0x39
  }

  predicate IsLetter(b: byte) {
    0x41 <= b <= 0x5A || 0x61 <= b <= 0x7A
  }

  predicate IsHex(b: byte) {
    IsDigit(b) || 0x41 <= b <= 0x46 || 0x61 <= b <= 0x66
  }

  /** The first byte of a value. */
  function Started(limit: nat, open: seq<Bracket>, b: byte): Scan {
    if b == OPEN_ARRAY || b == OPEN_OBJECT then
      if |open| >= limit then GaveUp
      else if b == OPEN_ARRAY then At(ValueOrEnd, open + [Array])
      else At(KeyOrEnd, open + [Object])
    else if b == QUOTE then At(InString(false), open)
    else if b == 0x2D then At(Minus, open)
    else if b == 0x30 then At(Zero, open)
    else if IsDigit(b) then At(Digits, open)
    else if b == 0x74 then At(Name(TRUE_REST), open)
    else if b == 0x66 then At(Name(FALSE_REST), open)
    else if b == 0x6E then At(Name(NULL_REST), open)
    else if b == 0x4E then At(Name(NAN_REST), open)
    else if b == 0x49 then At(Name(INFINITY_REST), open)
    else Malformed
  }

  /** The first byte behind a value. */
  function Followed(open: seq<Bracket>, b: byte): Scan {
    if b in SPACES then At(After, open)
    else if open == [] then Malformed
    else
      var inner, outer := open[|open| - 1], open[..|open| - 1];
      if b == COMMA then At(if inner.Array? then Value else Key, open)
      else if b == (if inner.Array? then CLOSE_ARRAY else CLOSE_OBJECT) then At(After, outer)
      else Malformed
  }

  function Quoted(place: Place, open: seq<Bracket>, b: byte): Scan
    requires place.InString? || place.Escape? || place.Hex?
  {
    match place
    case InString(key) =>
      if b == QUOTE then At(if key then Colon else After, open)
      else if b == BACKSLASH then At(Escape(key), open)
      else if b < 0x20 then Malformed
      else At(place, open)
    case Escape(key) =>
      if b in ESCAPABLE then At(InString(key), open)
      else if b == 0x75 then At(Hex(key, 4), open)
      else Malformed
    case Hex(key, left) =>
      if !IsHex(b) then Malformed
      else if left <= 1 then At(InString(key), open)
      else At(Hex(key, left - 1), open)
  }

  predicate IsNumber(place: Place) {
    place in {Minus, Zero, Digits, Point, Fraction, Exponent, Sign, Power}
  }

  /** A number that may end here. */
  predicate Complete(place: Place) {
    place in {Zero, Digits, Fraction, Power}
  }

  function Counted(place: Place, open: seq<Bracket>, b: byte): Scan
    requires IsNumber(place)
  {
    if place == Minus && b == 0x49 then At(Name(INFINITY_REST), open)
    else if place == Minus && b == 0x30 then At(Zero, open)
    else if place in {Minus, Digits} && IsDigit(b) then At(Digits, open)
    else if place in {Point, Fraction} && IsDigit(b) then At(Fraction, open)
    else if place in {Exponent, Sign, Power} && IsDigit(b) then At(Power, open)
    else if place in {Zero, Digits} && b == 0x2E then At(Point, open)
    else if place in {Zero, Digits, Fraction} && b in {0x45, 0x65} then At(Exponent, open)
    else if place == Exponent && b in {0x2B, 0x2D} then At(Sign, open)
    else if Complete(place) then Followed(open, b)
    else Malformed
  }

  predicate IsQuoted(place: Place) {
    place.InString? || place.Escape? || place.Hex?
  }

  function Named(rest: bytes, open: seq<Bracket>, b: byte): Scan {
    if rest == [] then Followed(open, b)
    else if b != rest[0] then Malformed
    else if |rest| == 1 then At(After, open)
    else At(Name(rest[1..]), open)
  }

  /** What the grammar wants here, or nothing. */
  function Expected(limit: nat, place: Place, open: seq<Bracket>, b: byte): Scan {
    if place == Value || (place == ValueOrEnd && b != CLOSE_ARRAY) then Started(limit, open, b)
    else if place == After || place == ValueOrEnd || (place == KeyOrEnd && b == CLOSE_OBJECT) then Followed(open, b)
    else if place in {KeyOrEnd, Key} && b == QUOTE then At(InString(true), open)
    else if place == Colon && b == 0x3A then At(Value, open)
    else Malformed
  }

  /** One byte on. */
  function Next(limit: nat, s: Scan, b: byte): Scan {
    if !s.At? then s
    else if IsQuoted(s.place) then Quoted(s.place, s.open, b)
    else if IsNumber(s.place) then Counted(s.place, s.open, b)
    else if s.place.Name? then Named(s.place.rest, s.open, b)
    else if b in SPACES then s
    else Expected(limit, s.place, s.open, b)
  }

  /** Where the scan of some text is: in it, or out because of it. */
  function Scanned(limit: nat, text: bytes): Scan {
    if text == [] then At(Value, [])
    else Next(limit, Scanned(limit, text[..|text| - 1]), text[|text| - 1])
  }

  /** The scan is over exactly one value. */
  predicate Accepts(limit: nat, text: bytes) {
    var s := Scanned(limit, text);
    s.At? && s.open == [] && (s.place.After? || Complete(s.place))
  }

  predicate GivesUp(limit: nat, text: bytes) {
    Scanned(limit, text).GaveUp?
  }

  /** JSON, for a decoder that can go as deep as there are bytes. */
  predicate IsJson(text: bytes) {
    Accepts(|text|, text)
  }

  // ---- what a caller can count ------------------------------------------------------------

  /** Brackets outside strings: how many are open, how many were at most. */
  datatype Count = Count(open: int, most: nat, quoted: bool, escaped: bool)

  function Tick(c: Count, b: byte): Count {
    if c.quoted then
      if c.escaped then c.(escaped := false)
      else c.(quoted := b != QUOTE, escaped := b == BACKSLASH)
    else if b == QUOTE then c.(quoted := true)
    else if b == OPEN_ARRAY || b == OPEN_OBJECT then
      c.(open := c.open + 1, most := if c.open + 1 > c.most then c.open + 1 else c.most)
    else if b == CLOSE_ARRAY || b == CLOSE_OBJECT then c.(open := c.open - 1)
    else c
  }

  function Counting(text: bytes): Count {
    if text == [] then Count(0, 0, false, false)
    else Tick(Counting(text[..|text| - 1]), text[|text| - 1])
  }

  /** How deep brackets are nested outside strings. */
  function Depth(text: bytes): nat {
    Counting(text).most
  }

  /** A scan that is still on has as many brackets open as were counted. */
  ghost predicate InStep(limit: nat, s: Scan, c: Count) {
    match s
    case At(place, open) =>
      && (place.Name? ==> forall b | b in place.rest :: IsLetter(b))
      && c.open == |open| && c.quoted == IsQuoted(place) && c.escaped == place.Escape? && c.most <= limit && |open| <= limit
    case GaveUp => c.most > limit
    case Malformed => true
  }

  lemma StartedInStep(limit: nat, open: seq<Bracket>, c: Count, b: byte)
    requires InStep(limit, At(Value, open), c)
    ensures InStep(limit, Started(limit, open, b), Tick(c, b))
  {
  }

  lemma FollowedInStep(limit: nat, open: seq<Bracket>, c: Count, b: byte)
    requires InStep(limit, At(After, open), c)
    ensures InStep(limit, Followed(open, b), Tick(c, b))
  {
  }

  lemma QuotedInStep(limit: nat, place: Place, open: seq<Bracket>, c: Count, b: byte)
    requires InStep(limit, At(place, open), c) && IsQuoted(place)
    ensures InStep(limit, Quoted(place, open, b), Tick(c, b))
  {
  }

  lemma CountedInStep(limit: nat, place: Place, open: seq<Bracket>, c: Count, b: byte)
    requires InStep(limit, At(place, open), c) && IsNumber(place)
    ensures InStep(limit, Counted(place, open, b), Tick(c, b))
  {
    FollowedInStep(limit, open, c, b);
    hide Followed;
  }

  lemma NamedInStep(limit: nat, rest: bytes, open: seq<Bracket>, c: Count, b: byte)
    requires InStep(limit, At(Name(rest), open), c)
    ensures InStep(limit, Named(rest, open, b), Tick(c, b))
  {
    FollowedInStep(limit, open, c, b);
    hide Followed;
    if rest != [] {
      assert IsLetter(rest[0]);
    }
  }

  lemma NextInStep(limit: nat, s: Scan, c: Count, b: byte)
    requires InStep(limit, s, c)
    ensures InStep(limit, Next(limit, s, b), Tick(c, b))
  {
    if s.At? {
      if IsQuoted(s.place) {
        QuotedInStep(limit, s.place, s.open, c, b);
      } else if IsNumber(s.place) {
        CountedInStep(limit, s.place, s.open, c, b);
      } else if s.place.Name? {
        NamedInStep(limit, s.place.rest, s.open, c, b);
      } else {
        FollowedInStep(limit, s.open, c, b);
        StartedInStep(limit, s.open, c, b);
      }
      hide Quoted, Counted, Named, Followed, Started;
    }
  }

  lemma {:induction false} ScanInStep(limit: nat, text: bytes)
    ensures InStep(limit, Scanned(limit, text), Counting(text))
  {
    if text != [] {
      var n := |text| - 1;
      ScanInStep(limit, text[..n]);
      NextInStep(limit, Scanned(limit, text[..n]), Counting(text[..n]), text[n]);
    }
  }

  /** A decoder gives up only on what is nested deeper than its limit, and takes only what is
      not. */
  lemma DepthDecides(limit: nat, text: bytes)
    ensures GivesUp(limit, text) ==> Depth(text) > limit
    ensures Accepts(limit, text) ==> Depth(text) <= limit
  {
    ScanInStep(limit, text);
  }

  /** Where the two decoders part. */
  ghost predicate Alike(limit: nat, s: Scan, deeper: Scan, c: Count) {
    if c.most <= limit then s == deeper else s.GaveUp? || s.Malformed?
  }

  lemma SameUnlessGivenUp(limit: nat, more: nat, s: Scan, b: byte)
    requires limit <= more && !Next(more, s, b).GaveUp?
    ensures Next(limit, s, b) == Next(more, s, b) || Next(limit, s, b).GaveUp?
  {
    hide Quoted, Counted, Named, Followed;
  }

  lemma NextAlike(limit: nat, more: nat, s: Scan, deeper: Scan, c: Count, b: byte)
    requires limit <= more && InStep(limit, s, c)
    requires Alike(limit, s, deeper, c) && (deeper.At? && c.most > limit ==> s.GaveUp?)
    requires !Next(more, deeper, b).GaveUp?
    ensures var s', deeper', c' := Next(limit, s, b), Next(more, deeper, b), Tick(c, b);
      Alike(limit, s', deeper', c') && (deeper'.At? && c'.most > limit ==> s'.GaveUp?)
  {
    NextInStep(limit, s, c, b);
    SameUnlessGivenUp(limit, more, deeper, b);
    hide Quoted, Counted, Named, Followed, Expected;
  }

  lemma {:induction false} ScansAlike(limit: nat, more: nat, text: bytes)
    requires limit <= more && !GivesUp(more, text)
    ensures Alike(limit, Scanned(limit, text), Scanned(more, text), Counting(text))
    ensures Scanned(more, text).At? && Depth(text) > limit ==> GivesUp(limit, text)
  {
    if text != [] {
      var n := |text| - 1;
      ScansAlike(limit, more, text[..n]);
      ScanInStep(limit, text[..n]);
      NextAlike(limit, more, Scanned(limit, text[..n]), Scanned(more, text[..n]), Counting(text[..n]), text[n]);
    }
  }

  /** Of JSON text, exactly what is nested deeper. */
  lemma JsonGivesUp(limit: nat, text: bytes)
    requires IsJson(text)
    ensures GivesUp(limit, text) <==> Depth(text) > limit
    ensures Accepts(limit, text) <==> Depth(text) <= limit
  {
    DepthDecides(limit, text);
    DepthIsBounded(text);
    DepthDecides(|text|, text);
    if limit <= |text| {
      ScansAlike(limit, |text|, text);
    } else {
      ScansAlike(|text|, limit, text);
    }
  }

  lemma {:induction false} DepthIsBounded(text: bytes)
    ensures Counting(text).open <= |text| && Depth(text) <= |text|
  {
    if text != [] {
      DepthIsBounded(text[..|text| - 1]);
    }
  }

  /** Whatever comes behind, a decoder that gave up has given up. */
  lemma {:induction false} GivenUpStays(limit: nat, text: bytes, more: bytes)
    requires GivesUp(limit, text)
    ensures GivesUp(limit, text + more)
    decreases |more|
  {
    if more == [] {
      assert text + more == text;
    } else {
      var n := |more| - 1;
      GivenUpStays(limit, text, more[..n]);
      assert (text + more)[..|text + more| - 1] == text + more[..n];
    }
  }

  /** So many opening brackets. */
  function Nested(n: nat): bytes {
    seq(n, _ => OPEN_ARRAY)
  }

  lemma {:induction false} NestedGivesUp(limit: nat, n: nat)
    ensures n <= limit ==> Scanned(limit, Nested(n)).At? && |Scanned(limit, Nested(n)).open| == n
    ensures n <= limit ==> Scanned(limit, Nested(n)).place in {Value, ValueOrEnd}
    ensures n > limit ==> GivesUp(limit, Nested(n))
  {
    if n > 0 {
      NestedGivesUp(limit, n - 1);
      assert Nested(n)[..n - 1] == Nested(n - 1) && Nested(n)[n - 1] == OPEN_ARRAY;
    }
  }
}

/** Why a reply that runs into a broken-off one does not decode: it is not JSON.

    Every reply opens an object and begins with its id.  Behind a piece of another reply that
    brace is inside a string, which the quote after it ends too early; or one level further
    in, so that the outermost object is never closed; or it is out of place. */
module TornReplies {
  import opened Framing
  import opened JsonText
  import opened BridgeProtocol

  /** An object that begins with a key that begins with an i. */
  const OPENING: bytes := [OPEN_OBJECT, QUOTE, 0x69]

  /** The scan of more text, from wherever a scan is. */
  function Onto(limit: nat, s: Scan, text: bytes): Scan {
    if text == [] then s else Next(limit, Onto(limit, s, text[..|text| - 1]), text[|text| - 1])
  }

  lemma {:induction false} ScannedOnto(limit: nat, before: bytes, text: bytes)
    ensures Scanned(limit, before + text) == Onto(limit, Scanned(limit, before), text)
    decreases |text|
  {
    if text == [] {
      assert before + text == before;
    } else {
      var n := |text| - 1;
      ScannedOnto(limit, before, text[..n]);
      assert (before + text)[..|before + text| - 1] == before + text[..n];
    }
  }

  lemma {:induction false} OntoOnto(limit: nat, s: Scan, a: bytes, b: bytes)
    ensures Onto(limit, s, a + b) == Onto(limit, Onto(limit, s, a), b)
    decreases |b|
  {
    if b == [] {
      assert a + b == a;
    } else {
      var n := |b| - 1;
      OntoOnto(limit, s, a, b[..n]);
      assert (a + b)[..|a + b| - 1] == a + b[..n];
    }
  }

  lemma {:induction false} OutStays(limit: nat, s: Scan, text: bytes)
    requires !s.At?
    ensures Onto(limit, s, text) == s
    decreases |text|
  {
    if text != [] {
      OutStays(limit, s, text[..|text| - 1]);
    }
  }

  /** A scan that has begun: it does not wait for its first value any more, and what belongs
      in brackets is in some. */
  predicate Begun(s: Scan) {
    s.At? ==>
      && (s.place == Value || s.place == ValueOrEnd || s.place == KeyOrEnd || s.place == Key || s.place == Colon ==> s.open != [])
      && (IsQuoted(s.place) && s.place.key ==> s.open != [])
      && (s.place.Name? ==> forall b | b in s.place.rest :: IsLetter(b))
  }

  lemma StillBegun(limit: nat, s: Scan, b: byte)
    requires Begun(s)
    ensures Begun(Next(limit, s, b))
  {
    if s.At? {
      FollowedBegun(s.open, b);
      if s.place.Name? {
        hide Started, Quoted, Counted, Followed;
      } else if IsQuoted(s.place) {
        hide Started, Counted, Followed;
      } else if IsNumber(s.place) {
        hide Started, Quoted, Followed;
      } else {
        hide Quoted, Counted, Followed;
      }
    }
  }

  lemma FollowedBegun(open: seq<Bracket>, b: byte)
    ensures Begun(Followed(open, b))
  {
  }

  lemma {:induction false} BegunStays(limit: nat, s: Scan, text: bytes)
    requires Begun(s)
    ensures Begun(Onto(limit, s, text))
    decreases |text|
  {
    if text != [] {
      var n := |text| - 1;
      BegunStays(limit, s, text[..n]);
      StillBegun(limit, Onto(limit, s, text[..n]), text[n]);
    }
  }

  // ---- one level further in ----------------------------------------------------------------------

  /** The same scan inside more brackets. */
  function Within(base: seq<Bracket>, s: Scan): Scan {
    if s.At? then At(s.place, base + s.open) else s
  }

  /** Inside its own brackets a scan does not see the others. */
  lemma FollowedWithin(base: seq<Bracket>, open: seq<Bracket>, b: byte)
    requires Followed(open, b).At?
    ensures Followed(base + open, b) == Within(base, Followed(open, b))
  {
    if open != [] {
      var last := |open| - 1;
      assert (base + open)[|base + open| - 1] == open[last];
      assert (base + open)[..|base + open| - 1] == base + open[..last];
    }
  }

  lemma StartedWithin(limit: nat, base: seq<Bracket>, open: seq<Bracket>, b: byte)
    requires Started(limit, open, b).At?
    ensures Started(limit, base + open, b) in {Within(base, Started(limit, open, b)), GaveUp}
  {
    assert (base + open) + [Array] == base + (open + [Array]);
    assert (base + open) + [Object] == base + (open + [Object]);
  }

  lemma NextWithin(limit: nat, base: seq<Bracket>, s: Scan, b: byte)
    requires s.At? && Next(limit, s, b).At?
    ensures Next(limit, Within(base, s), b) in {Within(base, Next(limit, s, b)), GaveUp}
  {
    if Followed(s.open, b).At? {
      FollowedWithin(base, s.open, b);
    }
    if Started(limit, s.open, b).At? {
      StartedWithin(limit, base, s.open, b);
    }
    hide Followed, Started;
  }

  lemma {:induction false} OntoWithin(limit: nat, base: seq<Bracket>, s: Scan, text: bytes)
    requires s.At? && Onto(limit, s, text).At?
    ensures Onto(limit, Within(base, s), text) in {Within(base, Onto(limit, s, text)), GaveUp}
    decreases |text|
  {
    if text != [] {
      var n := |text| - 1;
      var here := Onto(limit, s, text[..n]);
      assert here.At?;
      OntoWithin(limit, base, s, text[..n]);
      NextWithin(limit, base, here, text[n]);
      hide Next;
    }
  }

  // ---- an encoding behind a piece ------------------------------------------------------------------

  /** The scan is over, and so is the text. */
  predicate Done(s: Scan) {
    s.At? && s.open == [] && (s.place.After? || Complete(s.place))
  }

  lemma OpensInPlace(limit: nat, s: Scan)
    requires Begun(s) && s.At? && (s.place == Value || s.place == ValueOrEnd) && limit > 0
    ensures Next(limit, s, OPEN_OBJECT) in {Within(s.open, Next(limit, At(Value, []), OPEN_OBJECT)), GaveUp}
  {
    assert [] + [Object] == [Object];
  }

  lemma OpensOutOfPlace(limit: nat, s: Scan)
    requires Begun(s) && s.At? && s.place != Value && s.place != ValueOrEnd && !s.place.InString?
    ensures Next(limit, s, OPEN_OBJECT).Malformed?
  {
    if s.place.Name? && s.place.rest != [] {
      assert IsLetter(s.place.rest[0]);
    }
  }

  lemma OpensInString(limit: nat, s: Scan)
    requires s.At? && s.place.InString?
    ensures Next(limit, Next(limit, Next(limit, s, OPEN_OBJECT), QUOTE), 0x69).Malformed?
  {
  }

  /** Whatever there is of other replies, an encoding behind it does not finish it. */
  lemma NotFinished(limit: nat, s: Scan, encoded: bytes)
    requires Begun(s) && OPENING <= encoded && Accepts(limit, encoded)
    ensures !Done(Onto(limit, s, encoded))
  {
    hide Next;
    var rest := encoded[1..];
    assert encoded == encoded[..1] + rest && encoded[..1][..0] == [] && encoded[..1] == [OPEN_OBJECT];
    OntoOnto(limit, s, encoded[..1], rest);
    assert Onto(limit, s, encoded[..1]) == Next(limit, s, OPEN_OBJECT);
    if !s.At? {
      OutStays(limit, s, encoded);
    } else if s.place.InString? {
      var three := encoded[3..];
      assert encoded == encoded[..3] + three;
      assert encoded[..3][..2] == encoded[..2] && encoded[..2][..1] == encoded[..1];
      assert encoded[1] == QUOTE && encoded[2] == 0x69;
      OntoOnto(limit, s, encoded[..3], three);
      assert Onto(limit, s, encoded[..2]) == Next(limit, Next(limit, s, OPEN_OBJECT), QUOTE);
      OpensInString(limit, s);
      OutStays(limit, Onto(limit, s, encoded[..3]), three);
    } else if s.place == Value || s.place == ValueOrEnd {
      OpensDeeper(limit, s, encoded);
    } else {
      OpensOutOfPlace(limit, s);
      OutStays(limit, Next(limit, s, OPEN_OBJECT), rest);
    }
  }

  lemma OpensDeeper(limit: nat, s: Scan, encoded: bytes)
    requires Begun(s) && s.At? && (s.place == Value || s.place == ValueOrEnd)
    requires OPENING <= encoded && Accepts(limit, encoded)
    ensures !Done(Onto(limit, s, encoded))
  {
    var start, rest := At(Value, []), encoded[1..];
    assert encoded == encoded[..1] + rest && encoded[..1][..0] == [] && encoded[..1] == [OPEN_OBJECT];
    ScannedOnto(limit, [], encoded);
    assert [] + encoded == encoded;
    OntoOnto(limit, start, encoded[..1], rest);
    OntoOnto(limit, s, encoded[..1], rest);
    var first := Next(limit, start, OPEN_OBJECT);
    assert Onto(limit, start, encoded[..1]) == first && Onto(limit, s, encoded[..1]) == Next(limit, s, OPEN_OBJECT);
    if !first.At? {
      OutStays(limit, first, rest);
    }
    OpensInPlace(limit, s);
    hide Next;
    if Next(limit, s, OPEN_OBJECT).GaveUp? {
      OutStays(limit, Next(limit, s, OPEN_OBJECT), rest);
    } else {
      OntoWithin(limit, s.open, first, rest);
    }
  }

  // ---- the law ----------------------------------------------------------------------------------------

  /** Replies are written as JSON that opens an object, and only JSON decodes. */
  ghost predicate WritesJson(codec: Codec, limit: nat) {
    && (forall r | codec.canResponse(r) :: OPENING <= codec.encodeResponse(r) && Accepts(limit, codec.encodeResponse(r)))
    && (forall line | codec.decodeResponse(line).Some? :: Accepts(limit, line))
  }

  lemma {:induction false} PiecesBegin(codec: Codec, limit: nat, torn: seq<Handled>)
    requires WritesJson(codec, limit) && codec.AllTorn(torn)
    ensures Pieces(torn) != [] ==> Pieces(torn)[0] == OPEN_OBJECT
  {
    if torn != [] {
      PiecesBegin(codec, limit, torn[1..]);
      var h := torn[0];
      assert codec.Torn(h);
      if h.out != [] {
        assert codec.canResponse(ResponseOf(h));
        assert OPENING <= codec.encodeResponse(ResponseOf(h));
        assert h.out[0] == codec.ReplyFrame(h.request, h.reply)[0] == OPEN_OBJECT;
      }
    }
  }

  lemma PiecesAreBegun(limit: nat, pieces: bytes)
    requires pieces != [] && pieces[0] == OPEN_OBJECT
    ensures Begun(Scanned(limit, pieces))
  {
    var first, rest := pieces[..1], pieces[1..];
    assert pieces == first + rest && first[..0] == [];
    ScannedOnto(limit, first, rest);
    BegunStays(limit, Scanned(limit, first), rest);
  }

  /** The law on broken-off replies follows from JSON's own grammar. */
  lemma JsonIsLawful(codec: Codec, limit: nat)
    requires WritesJson(codec, limit)
    requires forall r | codec.canRequest(r) ::
               codec.decodeRequest(codec.encodeRequest(r)) == Some(r) && NEWLINE !in codec.encodeRequest(r)
    requires forall r | codec.canResponse(r) ::
               codec.decodeResponse(codec.encodeResponse(r)) == Some(r) && NEWLINE !in codec.encodeResponse(r)
    ensures codec.Lawful()
  {
    forall torn, r | codec.AllTorn(torn) && Pieces(torn) != [] && codec.canResponse(r)
      ensures codec.decodeResponse(Pieces(torn) + codec.encodeResponse(r)) == None
    {
      PiecesBegin(codec, limit, torn);
      PiecesAreBegun(limit, Pieces(torn));
      NotFinished(limit, Scanned(limit, Pieces(torn)), codec.encodeResponse(r));
      ScannedOnto(limit, Pieces(torn), codec.encodeResponse(r));
    }
  }
}

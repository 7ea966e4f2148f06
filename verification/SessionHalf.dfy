/** The session inside the whole system: what its reader pops and its loop answers are the
    session's own events of the protocol machine.

    The client's half is followed event by event in JsonLinesClient; here the histories of
    SessionTrace are matched with SessionReads and SessionAnswers, so that what is proved of
    runs speaks of both programs. */
module SessionHalf {
  import opened Framing
  import opened Json
  import opened JsonText
  import opened BridgeProtocol
  import S = SessionTrace

  /** The bridge's decoder reads what the client's encoder writes. */
  ghost predicate Understands(codec: Codec, decoder: S.Decoder) {
    forall r | codec.canRequest(r) :: Heeded(codec, decoder, r)
  }

  predicate Heeded(codec: Codec, decoder: S.Decoder, r: Request) {
    match S.Decode(decoder, codec.encodeRequest(r))
    case Message(raw) =>
      var request := S.ParseRequest(raw);
      request.Some? && request.value.id == r.id && request.value.cmd == r.cmd
    case _ => false
  }

  // ---- what is popped -------------------------------------------------------------------------

  lemma LinesOfPrefix(fed: bytes, lines: seq<bytes>, rest: bytes)
    requires NoNewlines(lines) && fed <= Frames(lines) + rest && NEWLINE !in rest
    ensures Lines(fed) <= lines
  {
    var more := (Frames(lines) + rest)[|fed|..];
    assert Frames(lines) + rest == fed + more;
    SplitConcat(fed, more);
    assert IsSplit(Frames(lines) + rest, lines, rest);
    SplitUnique(Frames(lines) + rest, lines, rest);
  }

  lemma {:induction false} RequestLinesAt(codec: Codec, requests: seq<Request>, i: nat)
    requires i < |requests|
    ensures |RequestLines(codec, requests)| == |requests|
    ensures RequestLines(codec, requests)[i] == codec.encodeRequest(requests[i])
  {
    if |requests| > 1 {
      RequestLinesAt(codec, requests[1..], if i > 0 then i - 1 else 0);
    }
  }

  lemma RequestLinesHaveNoNewlines(codec: Codec, requests: seq<Request>)
    requires codec.Lawful() && forall r | r in requests :: codec.canRequest(r)
    ensures NoNewlines(RequestLines(codec, requests))
  {
    var lines := RequestLines(codec, requests);
    if requests != [] {
      RequestLinesAt(codec, requests, 0);
    }
    forall i | 0 <= i < |lines| ensures NEWLINE !in lines[i] {
      RequestLinesAt(codec, requests, i);
      assert requests[i] in requests;
    }
  }

  /** Of a stream of requests, whatever of it has been fed in whatever chunks, a reader has
      popped the first few. */
  lemma PoppedAreRequests(codec: Codec, requests: seq<Request>, fed: bytes, popped: seq<bytes>)
    requires codec.Lawful() && (forall r | r in requests :: codec.canRequest(r))
    requires fed <= Frames(RequestLines(codec, requests)) && popped <= Lines(fed)
    ensures |popped| <= |requests|
    ensures forall i | 0 <= i < |popped| :: popped[i] == codec.encodeRequest(requests[i])
  {
    hide Frames, Lines, RequestLines;
    RequestLinesHaveNoNewlines(codec, requests);
    hide Codec.Lawful, NoNewlines;
    var lines := RequestLines(codec, requests);
    assert Frames(lines) + [] == Frames(lines);
    LinesOfPrefix(fed, lines, []);
    assert popped <= lines;
    RequestLinesLength(codec, requests);
    forall i | 0 <= i < |popped| ensures popped[i] == codec.encodeRequest(requests[i]) {
      RequestLinesAt(codec, requests, i);
      assert popped[i] == lines[i];
    }
  }

  lemma RequestLinesLength(codec: Codec, requests: seq<Request>)
    ensures |RequestLines(codec, requests)| == |requests|
  {
    if requests != [] {
      RequestLinesAt(codec, requests, 0);
    }
  }

  // ---- what is answered -----------------------------------------------------------------------

  /** The ids of the frames among what was heard that carry one. */
  function Ids(heard: seq<S.Heard>): seq<int> {
    if heard == [] then []
    else
      var n := |heard| - 1;
      Ids(heard[..n]) +
      if heard[n].Frame? && S.ExtractId(heard[n].raw).Some? then [S.ExtractId(heard[n].raw).value] else []
  }

  function IdsOf(replies: seq<S.ReplyAttempt>): seq<int> {
    seq(|replies|, i requires 0 <= i < |replies| => replies[i].id)
  }

  lemma IdsOfMore(replies: seq<S.ReplyAttempt>, more: seq<S.ReplyAttempt>)
    ensures IdsOf(replies + more) == IdsOf(replies) + IdsOf(more)
  {
  }

  lemma IdsOfOneMore(heard: seq<S.Heard>, h: S.Heard)
    ensures Ids(heard + [h]) == Ids(heard) +
              if h.Frame? && S.ExtractId(h.raw).Some? then [S.ExtractId(h.raw).value] else []
  {
    assert (heard + [h])[..|heard|] == heard;
  }

  lemma {:induction false} RepliesAreToTheHeard(trace: seq<S.Turn>)
    ensures IdsOf(S.Replies(trace)) == Ids(S.Spoken(trace))
    decreases |trace|
  {
    if trace != [] {
      var n := |trace| - 1;
      RepliesAreToTheHeard(trace[..n]);
      var heard := trace[n].heard;
      var own :=
        if heard.Frame? && S.ExtractId(heard.raw).Some? then [S.Attempted(S.ExtractId(heard.raw).value, trace[n].ok)] else [];
      assert S.Replies(trace) == S.Replies(trace[..n]) + own;
      IdsOfMore(S.Replies(trace[..n]), own);
      var before, ids := S.Spoken(trace[..n]), IdsOf(S.Replies(trace[..n]));
      if heard.Silence? {
        assert before + [] == before && ids + [] == ids;
      } else {
        assert IdsOf(own) == if own == [] then [] else [own[0].id];
        IdsOfOneMore(before, heard);
      }
    }
  }

  lemma HeardHasItsId(codec: Codec, decoder: S.Decoder, r: Request, h: S.Heard)
    requires Heeded(codec, decoder, r) && S.HeardAs(S.Line(S.Decode(decoder, codec.encodeRequest(r)))) == Some(h)
    ensures h.Frame? && S.ExtractId(h.raw) == Some(r.id)
  {
    hide S.Decode;
  }

  lemma {:induction false} HeardRequests(codec: Codec, decoder: S.Decoder, requests: seq<Request>, heard: seq<S.Heard>)
    requires Understands(codec, decoder) && |heard| <= |requests|
    requires forall i | 0 <= i < |heard| ::
               codec.canRequest(requests[i])
               && S.HeardAs(S.Line(S.Decode(decoder, codec.encodeRequest(requests[i])))) == Some(heard[i])
    ensures |Ids(heard)| == |heard| && forall i | 0 <= i < |heard| :: Ids(heard)[i] == requests[i].id
    decreases |heard|
  {
    if heard != [] {
      var n := |heard| - 1;
      assert Heeded(codec, decoder, requests[n]);
      HeardHasItsId(codec, decoder, requests[n], heard[n]);
      hide Understands, Heeded, S.Decode, S.HeardAs, S.ExtractId;
      HeardRequests(codec, decoder, requests, heard[..n]);
    }
  }

  /** A session that pops the client's requests makes one reply attempt to each, under its own
      id and in order, however many turns of silence there were between them. */
  lemma SessionAnswersEach(codec: Codec, requests: seq<Request>, story: S.Story)
    requires Understands(codec, story.world.decoder) && (forall r | r in requests :: codec.canRequest(r))
    requires S.Happens(story.world, story.lines, story.trace) && |story.lines| <= |requests|
    requires forall i | 0 <= i < |story.lines| :: story.lines[i] == codec.encodeRequest(requests[i])
    ensures var replies := S.Replies(story.trace);
      |replies| == |story.lines| && forall i | 0 <= i < |replies| :: replies[i].id == requests[i].id
  {
    hide Understands, S.Honest, S.Anchored, S.Unasked, S.Decode, S.HeardAs;
    var heard := S.Spoken(story.trace);
    forall i | 0 <= i < |heard| ensures codec.canRequest(requests[i]) {
      assert requests[i] in requests;
    }
    HeardRequests(codec, story.world.decoder, requests, heard);
    RepliesAreToTheHeard(story.trace);
    hide Ids, S.Replies, S.Spoken;
    var replies := S.Replies(story.trace);
    assert |IdsOf(replies)| == |replies|;
    forall i | 0 <= i < |replies| ensures replies[i].id == requests[i].id {
      assert IdsOf(replies)[i] == replies[i].id;
    }
  }

  // ---- the events ---------------------------------------------------------------------------------

  /** Where events lead, if each of them can happen. */
  ghost function Led(codec: Codec, s: System, events: seq<Event>): Option<System>
    decreases |events|
  {
    if events == [] then Some(s)
    else if !Can(s, events[0]) then None
    else Led(codec, Step(codec, s, events[0]), events[1..])
  }

  /** What a session gives in answer to one request: the reply, and how much of it gets out. */
  datatype Given = Given(reply: Reply, out: nat)

  /** It takes in a request, and answers it. */
  function SessionEvents(codec: Codec, requests: seq<Request>, given: seq<Given>): seq<Event>
    requires |given| == |requests|
  {
    if requests == [] then []
    else
      [SessionReads(|Frame(codec.encodeRequest(requests[0]))|), SessionAnswers(given[0].reply, given[0].out)]
      + SessionEvents(codec, requests[1..], given[1..])
  }

  lemma TakesOneIn(codec: Codec, s: System, r: Request, g: Given, more: bytes)
    requires codec.Lawful() && codec.canRequest(r) && s.running && s.pending == []
    requires s.up == Frame(codec.encodeRequest(r)) + more
    ensures var read := Step(codec, s, SessionReads(|Frame(codec.encodeRequest(r))|));
      && Can(s, SessionReads(|Frame(codec.encodeRequest(r))|)) && Can(read, SessionAnswers(g.reply, g.out))
      && var after := Step(codec, read, SessionAnswers(g.reply, g.out));
      && after.up == more && after.pending == [] && after.running
      && after.client == s.client && after.sent == s.sent && after.outcomes == s.outcomes
      && |after.handled| == |s.handled| + 1 && after.handled[..|s.handled|] == s.handled
      && after.handled[|s.handled|].request == r && after.handled[|s.handled|].reply == g.reply
  {
    var frame := Frame(codec.encodeRequest(r));
    assert s.up[..|frame|] == frame && s.up[|frame|..] == more && [] + frame == frame && frame + [] == frame;
    FirstFrame(codec.encodeRequest(r), []);
    hide FindNewline, Codec.ReplyFrame;
  }

  /** One entry more for each request, in order. */
  ghost predicate Entered(before: seq<Handled>, all: seq<Handled>, requests: seq<Request>, given: seq<Given>)
    requires |given| == |requests|
  {
    && |all| == |before| + |requests| && all[..|before|] == before
    && forall i | 0 <= i < |requests| ::
         all[|before| + i].request == requests[i] && all[|before| + i].reply == given[i].reply
  }

  /** Over a stream of requests the session's events can happen, and leave one entry for each
      of them, in order. */
  lemma {:induction false} SessionGoesOn(codec: Codec, s: System, requests: seq<Request>, given: seq<Given>, more: bytes)
    requires codec.Lawful() && (forall r | r in requests :: codec.canRequest(r)) && s.running && s.pending == []
    requires |given| == |requests| && s.up == Frames(RequestLines(codec, requests)) + more
    ensures var led := Led(codec, s, SessionEvents(codec, requests, given));
      && led.Some? && led.value.up == more && led.value.client == s.client && led.value.sent == s.sent
      && led.value.outcomes == s.outcomes && Entered(s.handled, led.value.handled, requests, given)
    decreases |requests|
  {
    hide Step, Can, Codec.Lawful, Led, SessionEvents, Entered;
    if requests == [] {
      NothingLed(codec, s, more);
    } else {
      FirstRequest(codec, requests, more);
      hide RequestLines, Frames;
      var later := requests[1..];
      var rest := Frames(RequestLines(codec, later)) + more;
      assert requests[0] in requests;
      TakesOneIn(codec, s, requests[0], given[0], rest);
      OneMoreLed(codec, s, requests, given);
      var read := SessionReads(|Frame(codec.encodeRequest(requests[0]))|);
      var after := Step(codec, Step(codec, s, read), SessionAnswers(given[0].reply, given[0].out));
      assert forall r | r in later :: r in requests;
      SessionGoesOn(codec, after, later, given[1..], more);
      var led := Led(codec, after, SessionEvents(codec, later, given[1..])).value;
      Shifted(s.handled, after.handled, led.handled, requests, given);
    }
  }

  lemma FirstRequest(codec: Codec, requests: seq<Request>, more: bytes)
    requires requests != []
    ensures Frames(RequestLines(codec, requests)) + more ==
              Frame(codec.encodeRequest(requests[0])) + (Frames(RequestLines(codec, requests[1..])) + more)
  {
    var lines := RequestLines(codec, requests);
    assert lines[0] == codec.encodeRequest(requests[0]) && lines[1..] == RequestLines(codec, requests[1..]);
    Associates(Frame(lines[0]), Frames(lines[1..]), more);
  }

  lemma NothingLed(codec: Codec, s: System, more: bytes)
    ensures Led(codec, s, SessionEvents(codec, [], [])) == Some(s) && Entered(s.handled, s.handled, [], [])
    ensures Frames(RequestLines(codec, [])) + more == more
  {
  }

  lemma Shifted(before: seq<Handled>, after: seq<Handled>, all: seq<Handled>, requests: seq<Request>, given: seq<Given>)
    requires requests != [] && |given| == |requests| && Entered(after, all, requests[1..], given[1..])
    requires |after| == |before| + 1 && after[..|before|] == before
    requires after[|before|].request == requests[0] && after[|before|].reply == given[0].reply
    ensures Entered(before, all, requests, given)
  {
    assert all[..|after|][..|before|] == all[..|before|];
    assert all[|before|] == all[..|after|][|before|];
    forall i | 0 <= i < |requests|
      ensures all[|before| + i].request == requests[i] && all[|before| + i].reply == given[i].reply
    {
      if i > 0 {
        assert all[|after| + (i - 1)].request == requests[1..][i - 1];
      }
    }
  }

  lemma OneMoreLed(codec: Codec, s: System, requests: seq<Request>, given: seq<Given>)
    requires requests != [] && |given| == |requests|
    requires var read := SessionReads(|Frame(codec.encodeRequest(requests[0]))|);
      Can(s, read) && Can(Step(codec, s, read), SessionAnswers(given[0].reply, given[0].out))
    ensures var read := SessionReads(|Frame(codec.encodeRequest(requests[0]))|);
      var after := Step(codec, Step(codec, s, read), SessionAnswers(given[0].reply, given[0].out));
      Led(codec, s, SessionEvents(codec, requests, given)) == Led(codec, after, SessionEvents(codec, requests[1..], given[1..]))
  {
    hide Step, Can;
    var read := SessionReads(|Frame(codec.encodeRequest(requests[0]))|);
    var answer := SessionAnswers(given[0].reply, given[0].out);
    var events, later := SessionEvents(codec, requests, given), SessionEvents(codec, requests[1..], given[1..]);
    assert events[1..] == [answer] + later && ([answer] + later)[1..] == later;
    assert Led(codec, s, events) == Led(codec, Step(codec, s, read), [answer] + later);
  }

  /** What a session heard of the requests on their way to it, and answered, it does as the
      session of the machine: the events can happen, each entry they leave is for the request
      with the id of its reply attempt, and the client's side is not touched. */
  lemma SessionIsItsHalf(codec: Codec, s: System, requests: seq<Request>, given: seq<Given>, story: S.Story)
    requires codec.Lawful() && Understands(codec, story.world.decoder) && (forall r | r in requests :: codec.canRequest(r))
    requires s.running && s.pending == [] && s.up == Frames(RequestLines(codec, requests))
    requires S.Happens(story.world, story.lines, story.trace) && story.before == story.fatal == []
    requires story.Popped() <= Lines(s.up) && |given| == |story.lines|
    ensures var n, replies := |story.lines|, S.Replies(story.trace);
      && n <= |requests| && |replies| == n
      && var led := Led(codec, s, SessionEvents(codec, requests[..n], given));
      && led.Some? && led.value.client == s.client && led.value.outcomes == s.outcomes
      && Entered(s.handled, led.value.handled, requests[..n], given)
      && forall i | 0 <= i < n :: replies[i].id == requests[i].id
  {
    hide S.Happens, S.Replies, Understands, Led, SessionEvents, Entered, Codec.Lawful, Lines, Frames, RequestLines;
    PoppedAreRequests(codec, requests, s.up, story.Popped());
    assert story.Popped() == story.lines;
    SessionAnswersEach(codec, requests, story);
    var n := |story.lines|;
    RequestLinesSplit(codec, requests, n);
    forall r | r in requests[..n] ensures codec.canRequest(r) {
      assert r in requests;
    }
    SessionGoesOn(codec, s, requests[..n], given, Frames(RequestLines(codec, requests[n..])));
  }

  lemma {:induction false} RequestLinesSplit(codec: Codec, requests: seq<Request>, n: nat)
    requires n <= |requests|
    ensures Frames(RequestLines(codec, requests)) ==
              Frames(RequestLines(codec, requests[..n])) + Frames(RequestLines(codec, requests[n..]))
  {
    if n == 0 {
      assert requests[n..] == requests;
      assert Frames([]) + Frames(RequestLines(codec, requests)) == Frames(RequestLines(codec, requests));
    } else {
      var lines := RequestLines(codec, requests);
      assert requests[..n][0] == requests[0] && requests[..n][1..] == requests[1..][..n - 1];
      assert requests[1..][n - 1..] == requests[n..];
      RequestLinesSplit(codec, requests[1..], n - 1);
      assert lines[1..] == RequestLines(codec, requests[1..]);
      Associates(Frame(lines[0]), Frames(RequestLines(codec, requests[1..][..n - 1])), Frames(RequestLines(codec, requests[n..])));
    }
  }

  // ---- the two decoders can agree ----------------------------------------------------------------

  function Ones(n: nat): bytes {
    seq(n, _ => 0x31)
  }

  function Numbered(line: bytes, requests: seq<Request>): Option<Request> {
    if 0 < |line| <= |requests| && line == Ones(|line|) then Some(requests[|line| - 1]) else None
  }

  /** The list codec, with each request written as a JSON number. */
  function NumberCodec(requests: seq<Request>, responses: seq<Response>): Codec {
    ListCodec(requests, responses).(
      encodeRequest := r => Ones(Position(r, requests) + 1),
      decodeRequest := line => Numbered(line, requests))
  }

  function FrameOf(r: Request): map<string, Json> {
    map["id" := Int(r.id), "cmd" := Str(r.cmd)]
  }

  function NumberDecoder(requests: seq<Request>): S.Decoder {
    S.Decoder(0, line =>
      match Numbered(line, requests)
      case None => None
      case Some(r) => Some(FrameOf(r)))
  }

  lemma {:induction false} OnesAreANumber(n: nat)
    ensures Scanned(0, Ones(n)) == At(if n == 0 then Value else Digits, [])
  {
    if n > 0 {
      OnesAreANumber(n - 1);
      assert Ones(n)[..n - 1] == Ones(n - 1) && Ones(n)[n - 1] == 0x31;
    }
  }

  /** Every finite choice of requests has a lawful codec and a decoder that reads it. */
  lemma CodecIsUnderstood(requests: seq<Request>, responses: seq<Response>)
    ensures var codec := NumberCodec(requests, responses);
      && codec.Lawful() && Understands(codec, NumberDecoder(requests))
      && (forall r | r in requests :: codec.canRequest(r)) && (forall r | r in responses :: codec.canResponse(r))
  {
    ListCodecIsLawful(requests, responses);
    var list, codec := ListCodec(requests, responses), NumberCodec(requests, responses);
    forall r | codec.canRequest(r)
      ensures codec.decodeRequest(codec.encodeRequest(r)) == Some(r) && NEWLINE !in codec.encodeRequest(r)
      ensures Heeded(codec, NumberDecoder(requests), r)
    {
      var line := Ones(Position(r, requests) + 1);
      assert r in requests;
      assert Numbered(line, requests) == Some(r);
      OnesAreANumber(|line|);
      S.AsciiIsUtf8(line);
      assert S.ParseRequest(FrameOf(r)) == Some(S.Invocation(r.id, r.cmd, map[]));
    }
    ResponsesAlike(list, codec);
  }

  lemma ResponsesAlike(list: Codec, codec: Codec)
    requires list.Lawful()
    requires codec == list.(encodeRequest := codec.encodeRequest, decodeRequest := codec.decodeRequest)
    requires forall r | codec.canRequest(r) ::
               codec.decodeRequest(codec.encodeRequest(r)) == Some(r) && NEWLINE !in codec.encodeRequest(r)
    ensures codec.Lawful()
  {
    forall torn, r | codec.AllTorn(torn) && Pieces(torn) != [] && codec.canResponse(r)
      ensures codec.decodeResponse(Pieces(torn) + codec.encodeResponse(r)) == None
    {
      forall h | h in torn ensures list.Torn(h) {
        assert codec.Torn(h);
      }
      assert list.AllTorn(torn);
    }
  }
}

/** The capture buffers: append-only, index-addressed logs that one thread writes while
    another reads, waits and bookmarks.

    Both buffers start with one sentinel entry that renders to nothing.  The reads are
    specified on the rendered log, a sequence of texts. */
module Buffers {
  import opened Framing
  import opened Time

  /** Poll cadence of the wait loops. */
  const POLL_INTERVAL: real := 0.03

  /** Live mode: speech has finished after this long without a new sequence. */
  const SPEECH_FINISHED: real := 1.0

  // ---- text --------------------------------------------------------------------------------

  predicate IsSpace(c: char) {
    || '\t' <= c <= '\r'
    || c == ' '
    || '\U{1c}' <= c <= '\U{1f}'
    || c == '\U{85}' || c == '\U{a0}' || c == '\U{1680}'
    || '\U{2000}' <= c <= '\U{200a}'
    || c == '\U{2028}' || c == '\U{2029}' || c == '\U{202f}' || c == '\U{205f}' || c == '\U{3000}'
  }

  function Strip(s: string): string {
    if s == "" then ""
    else if IsSpace(s[0]) then Strip(s[1..])
    else if IsSpace(s[|s| - 1]) then Strip(s[..|s| - 1])
    else s
  }

  predicate Blank(s: string) {
    forall c | c in s :: IsSpace(c)
  }

  predicate OccursAt(hay: string, needle: string, i: nat) {
    i + |needle| <= |hay| && hay[i..i + |needle|] == needle
  }

  predicate Contains(hay: string, needle: string) {
    exists i | 0 <= i <= |hay| :: OccursAt(hay, needle, i)
  }

  /** A speech sequence interleaves words with commands; anything else is not one. */
  datatype Part = Words(text: string) | Command
  datatype Speech = Sequence(parts: seq<Part>) | NotASequence

  function JoinedWords(parts: seq<Part>): string {
    if parts == [] then ""
    else JoinedWords(parts[..|parts| - 1]) + if parts[|parts| - 1].Words? then parts[|parts| - 1].text else ""
  }

  function Render(entry: Speech): string {
    if entry.Sequence? then Strip(JoinedWords(entry.parts)) else ""
  }

  function Rendered(entries: seq<Speech>): seq<string> {
    seq(|entries|, i requires 0 <= i < |entries| => Render(entries[i]))
  }

  // ---- windows -------------------------------------------------------------------------------

  /** The texts that are not blank, joined by newlines. */
  function Joined(texts: seq<string>): string {
    if texts == [] then ""
    else
      var rest := Joined(texts[..|texts| - 1]);
      if Blank(texts[|texts| - 1]) then rest else Glued(rest, texts[|texts| - 1])
  }

  function Glued(a: string, b: string): string {
    if a == "" then b else if b == "" then a else a + "\n" + b
  }

  datatype Window = Window(text: string, from: nat, to: nat)

  /** What a read from `index` returns. */
  function WindowSince(texts: seq<string>, index: int): Window {
    var from := if index < 0 then 0 else index;
    Window(if from <= |texts| then Joined(texts[from..|texts|]) else "", from, |texts|)
  }

  lemma GluedIsAssociative(a: string, b: string, c: string)
    ensures Glued(Glued(a, b), c) == Glued(a, Glued(b, c))
  {
    if a != "" && b != "" && c != "" {
      assert (a + "\n" + b) + "\n" + c == a + "\n" + (b + "\n" + c);
    }
  }

  lemma {:induction false} JoinedConcat(a: seq<string>, b: seq<string>)
    ensures Joined(a + b) == Glued(Joined(a), Joined(b))
    decreases |b|
  {
    if b == [] {
      assert a + b == a;
    } else {
      var k := |b| - 1;
      assert (a + b)[..|a + b| - 1] == a + b[..k];
      JoinedConcat(a, b[..k]);
      GluedIsAssociative(Joined(a), Joined(b[..k]), b[k]);
    }
  }

  /** A read is a proper half-open window of the log exactly when its bookmark is no greater
      than the log's length: the code clamps below zero and not above. */
  lemma WindowIsProper(texts: seq<string>, index: int)
    ensures var w := WindowSince(texts, index); w.from <= w.to <==> index <= |texts|
    ensures index > |texts| ==> WindowSince(texts, index) == Window("", index, |texts|)
  {
  }

  datatype LogEvent = Captured(text: string) | Reading

  /** A reader that starts each read where the one before ended, while captures go on. */
  datatype Reader = Reader(log: seq<string>, bookmark: nat, windows: seq<Window>)

  function ReaderStep(r: Reader, e: LogEvent): Reader {
    match e
    case Captured(text) => r.(log := r.log + [text])
    case Reading =>
      var w := WindowSince(r.log, r.bookmark);
      r.(bookmark := w.to, windows := r.windows + [w])
  }

  function ReaderRun(r: Reader, events: seq<LogEvent>): Reader {
    if events == [] then r else ReaderStep(ReaderRun(r, events[..|events| - 1]), events[|events| - 1])
  }

  function GluedWindows(windows: seq<Window>): string {
    if windows == [] then "" else Glued(GluedWindows(windows[..|windows| - 1]), windows[|windows| - 1].text)
  }

  /** The windows lie end to end from `start` to `bookmark`. */
  predicate Tiles(windows: seq<Window>, start: nat, bookmark: nat) {
    && (windows == [] ==> bookmark == start)
    && (windows != [] ==> windows[0].from == start && windows[|windows| - 1].to == bookmark)
    && (forall i | 0 <= i < |windows| :: windows[i].from <= windows[i].to)
    && forall i | 0 <= i < |windows| - 1 :: windows[i].to == windows[i + 1].from
  }

  /** Windows end to end, each holding its own slice, together one read of the span. */
  ghost predicate Tiled(start: nat, now: Reader) {
    && start <= now.bookmark <= |now.log|
    && Tiles(now.windows, start, now.bookmark)
    && (forall i | 0 <= i < |now.windows| ::
          now.windows[i].from <= now.windows[i].to <= |now.log|
          && now.windows[i].text == Joined(now.log[now.windows[i].from..now.windows[i].to]))
    && GluedWindows(now.windows) == Joined(now.log[start..now.bookmark])
  }

  /** No overlap, no gap: however captures and reads interleave, the windows read from a
      bookmark the log issued lie end to end, every bookmark stays in range, and the texts
      read are together what one read of the whole span gives. */
  lemma {:induction false} WindowsTile(r: Reader, events: seq<LogEvent>)
    requires r.windows == [] && r.bookmark <= |r.log|
    ensures Tiled(r.bookmark, ReaderRun(r, events))
    decreases |events|
  {
    if events != [] {
      var n := |events| - 1;
      WindowsTile(r, events[..n]);
      NextTile(r.bookmark, ReaderRun(r, events[..n]), events[n]);
    }
  }

  lemma SameSlice(log: seq<string>, text: string, a: nat, b: nat)
    requires a <= b <= |log|
    ensures (log + [text])[a..b] == log[a..b]
  {
  }

  lemma NextTile(start: nat, r: Reader, e: LogEvent)
    requires Tiled(start, r)
    ensures Tiled(start, ReaderStep(r, e))
  {
    match e
    case Captured(text) =>
      forall i | 0 <= i < |r.windows| ensures r.windows[i].text == Joined((r.log + [text])[r.windows[i].from..r.windows[i].to]) {
        SameSlice(r.log, text, r.windows[i].from, r.windows[i].to);
      }
      SameSlice(r.log, text, start, r.bookmark);
    case Reading => NextWindow(start, r);
  }

  lemma NextWindow(start: nat, r: Reader)
    requires Tiled(start, r)
    ensures Tiled(start, ReaderStep(r, Reading))
  {
    hide Joined, Glued;
    var now := ReaderStep(r, Reading);
    EndToEnd(r.log, start, r.bookmark);
    JoinedConcat(r.log[start..r.bookmark], r.log[r.bookmark..|r.log|]);
    assert now.windows[..|r.windows|] == r.windows;
  }

  lemma EndToEnd(log: seq<string>, a: nat, b: nat)
    requires a <= b <= |log|
    ensures log[a..|log|] == log[a..b] + log[b..|log|]
  {
  }

  // ---- reading a window ------------------------------------------------------------------------

  function JoinLines(lines: seq<string>): string {
    if lines == [] then ""
    else if |lines| == 1 then lines[0]
    else lines[0] + "\n" + JoinLines(lines[1..])
  }

  lemma {:induction false} JoinOneMore(lines: seq<string>, last: string)
    ensures lines == [] ==> JoinLines(lines + [last]) == last
    ensures lines != [] ==> JoinLines(lines + [last]) == JoinLines(lines) + "\n" + last
  {
    if |lines| > 1 {
      JoinOneMore(lines[1..], last);
      assert (lines + [last])[1..] == lines[1..] + [last];
    }
  }

  method ReadSince(texts: seq<string>, index: int) returns (w: Window)
    ensures w == WindowSince(texts, index)
  {
    var start := if 0 < index then index else 0;
    var slice := if start <= |texts| then texts[start..|texts|] else [];
    var lines: seq<string> := [];
    for i := 0 to |slice|
      invariant JoinLines(lines) == Joined(slice[..i])
      invariant (lines == [] <==> JoinLines(lines) == "") && forall l | l in lines :: l != ""
    {
      assert slice[..i + 1][..i] == slice[..i];
      if !Blank(slice[i]) {
        JoinOneMore(lines, slice[i]);
        lines := lines + [slice[i]];
      }
    }
    assert slice[..|slice|] == slice;
    w := Window(JoinLines(lines), start, |texts|);
  }

  // ---- searching and waiting -----------------------------------------------------------------

  /** Where a search starts: strictly after its bookmark. */
  function First(after: Option<int>): int {
    if after.None? then 0 else after.value + 1
  }

  predicate IsFirst(texts: seq<string>, needle: string, first: int, i: int) {
    && 0 <= first <= i < |texts|
    && Contains(texts[i], needle)
    && forall k | first <= k < i :: !Contains(texts[k], needle)
  }

  predicate HasMatch(texts: seq<string>, needle: string, first: int) {
    0 <= first && exists k | first <= k < |texts| :: Contains(texts[k], needle)
  }

  /** A match found stays the first one in every later log. */
  lemma FirstStays(texts: seq<string>, later: seq<string>, needle: string, first: int, i: int)
    requires texts <= later
    ensures IsFirst(texts, needle, first, i) ==> IsFirst(later, needle, first, i)
    ensures IsFirst(later, needle, first, i) && i < |texts| ==> IsFirst(texts, needle, first, i)
  {
    assert forall k | 0 <= k < |texts| :: later[k] == texts[k];
  }

  /** A wait strictly after a fresh bookmark passes over the very next capture, which a wait
      after the index before it would find. */
  lemma NextCaptureIsPassedOver(texts: seq<string>, next: string, needle: string)
    requires texts != [] && Contains(next, needle)
    ensures !HasMatch(texts + [next], needle, First(Some(|texts|)))
    ensures HasMatch(texts + [next], needle, First(Some(|texts| - 1)))
  {
    assert (texts + [next])[|texts|] == next;
  }

  /** Where a Python slice from `first` begins. */
  function SliceStart(first: int, length: nat): nat {
    if first < 0 then (if first + length < 0 then 0 else first + length)
    else if first < length then first else length
  }

  /** How many sleeps make up a timeout. */
  function SleepsFor(timeout: real): nat {
    if timeout <= 0.0 then 0 else
      assert timeout / POLL_INTERVAL > 0.0;
      Ceiling(timeout / POLL_INTERVAL)
  }

  /** How long a wait that finds nothing takes. */
  function WaitLength(timeout: real): real {
    SleepsFor(timeout) as real * POLL_INTERVAL
  }

  lemma SleepsReachDeadline(timeout: real, n: nat)
    ensures n as real * POLL_INTERVAL >= timeout <==> n >= SleepsFor(timeout)
  {
    var x := timeout / POLL_INTERVAL;
    assert x * POLL_INTERVAL == timeout;
    if timeout > 0.0 {
      var k := (-x).Floor;
      assert k as real <= -x < k as real + 1.0;
    }
  }

  /** A wait overshoots its timeout by less than one poll interval. */
  lemma WaitOvershoots(timeout: real)
    ensures var wanted := if timeout < 0.0 then 0.0 else timeout;
      wanted <= WaitLength(timeout) < wanted + POLL_INTERVAL
  {
    SleepsReachDeadline(timeout, SleepsFor(timeout));
    if SleepsFor(timeout) > 0 {
      SleepsReachDeadline(timeout, SleepsFor(timeout) - 1);
    }
  }

  /** What a wait polls for. */
  datatype Awaited = Text(needle: string, after: Option<int>) | Quiet

  /** What one poll saw, and when. */
  datatype Polled = Polled(entries: seq<Speech>, speaking: bool, lastTime: real, at: real)

  /** One poll every interval from the call on, of a log that only grows. */
  ghost predicate Regular(polls: seq<Polled>, start: real, before: seq<Speech>) {
    && polls != []
    && (forall i | 0 <= i < |polls| :: polls[i].at == start + i as real * POLL_INTERVAL && before <= polls[i].entries)
    && forall i, j | 0 <= i < j < |polls| :: polls[i].entries <= polls[j].entries
  }

  /** The speech log.  Methods stand for what happens between taking the lock and letting
      it go; `OtherThreads` is what may happen while nobody here holds it. */
  class SpeechBuffer {
    const clock: Clock
    const exactFinish: bool
    var entries: seq<Speech>
    var lastTime: real
    var speaking: bool
    var observing: bool
    var observed: seq<string>                     // what the observer was told

    ghost predicate Valid()
      reads this
    {
      entries != [] && Render(entries[0]) == ""
    }

    constructor (clock: Clock, exactFinish: bool)
      ensures Valid() && this.clock == clock && this.exactFinish == exactFinish
      ensures entries == [Sequence([Words("")])] && !speaking && !observing && lastTime == clock.now
    {
      this.clock, this.exactFinish := clock, exactFinish;
      entries, lastTime, speaking := [Sequence([Words("")])], clock.now, false;
      observing, observed := false, [];
    }

    method SetObserver()
      requires Valid()
      modifies this`observing
      ensures Valid() && observing
    {
      observing := true;
    }

    method Append(entry: Speech)
      requires Valid()
      modifies this
      ensures Valid() && entries == old(entries) + [entry] && lastTime == clock.now && speaking
      ensures observing == old(observing)
      ensures observed == old(observed) + if observing && Render(entry) != "" then [Render(entry)] else []
    {
      entries := entries + [entry];
      lastTime := clock.now;
      speaking := true;
      var text := Render(entry);
      if observing && text != "" {
        observed := observed + [text];
      }
    }

    method NotifyFinished()
      modifies this`speaking
      ensures !speaking
    {
      speaking := false;
    }

    /** Any captures and finish signals of the speech thread: the log only grows. */
    method OtherThreads()
      requires Valid()
      modifies this
      ensures Valid() && old(entries) <= entries && observing == old(observing)
      ensures entries == old(entries) && speaking == old(speaking) ==> lastTime == old(lastTime)
    {
      var captured: seq<Speech> := *;
      for i := 0 to |captured|
        invariant Valid() && old(entries) <= entries && observing == old(observing)
        invariant i == 0 ==> entries == old(entries) && speaking == old(speaking) && lastTime == old(lastTime)
        invariant |entries| == |old(entries)| + i
      {
        Append(captured[i]);
      }
      var finished: bool := *;
      if finished {
        NotifyFinished();
      }
    }

    method NextIndex() returns (index: nat)
      ensures index == |entries|
    {
      index := |entries|;
    }

    method GetSince(index: int) returns (w: Window)
      ensures w == WindowSince(Rendered(entries), index)
    {
      w := ReadSince(Rendered(entries), index);
    }

    /** The first match strictly after a bookmark.  A bookmark below -1 makes the slice count
        from the end and the result negative, so nothing is ever found. */
    method IndexOf(needle: string, after: Option<int>) returns (index: int)
      ensures index >= 0 <==> HasMatch(Rendered(entries), needle, First(after))
      ensures index >= 0 ==> IsFirst(Rendered(entries), needle, First(after), index)
      ensures index < 0 && First(after) >= 0 ==> index == -1
    {
      var first := First(after);
      var start := SliceStart(first, |entries|);
      for offset := 0 to |entries| - start
        invariant first >= 0 ==> forall k | first <= k < start + offset && k < |entries| :: !Contains(Rendered(entries)[k], needle)
      {
        if Contains(Render(entries[start + offset]), needle) {
          assert Contains(Rendered(entries)[start + offset], needle);
          return first + offset;
        }
      }
      index := -1;
    }

    predicate Finished()
      reads this, clock
    {
      if exactFinish then !speaking else clock.now - lastTime > SPEECH_FINISHED
    }

    ghost function Now(): Polled
      reads this, clock
    {
      Polled(entries, speaking, lastTime, clock.now)
    }

    ghost predicate Holds(what: Awaited, p: Polled) {
      match what
      case Text(needle, after) => HasMatch(Rendered(p.entries), needle, First(after))
      case Quiet => if exactFinish then !p.speaking else p.at - p.lastTime > SPEECH_FINISHED
    }

    method Poll(what: Awaited) returns (met: bool, index: int)
      ensures met <==> Holds(what, Now())
      ensures met && what.Text? ==> IsFirst(Rendered(entries), what.needle, First(what.after), index)
    {
      match what
      case Text(needle, after) =>
        index := IndexOf(needle, after);
        met := index >= 0;
      case Quiet =>
        met, index := Finished(), -1;
    }

    /** The wait loop.  It polls at once and then after every sleep, ends at the first poll
        that finds what it waits for, and gives up only after as many sleeps as make up the
        timeout. */
    method Wait(what: Awaited, timeout: real) returns (met: bool, index: int, ghost polls: seq<Polled>)
      requires Valid()
      modifies this, clock
      ensures Valid() && Regular(polls, old(clock.now), old(entries)) && polls[|polls| - 1] == Now()
      ensures forall i | 0 <= i < |polls| :: Holds(what, polls[i]) <==> met && i == |polls| - 1
      ensures met && what.Text? ==> IsFirst(Rendered(entries), what.needle, First(what.after), index)
      ensures |polls| <= SleepsFor(timeout) + 1 && (!met ==> |polls| == SleepsFor(timeout) + 1)
    {
      hide Rendered, Contains, HasMatch, IsFirst, SleepsFor;
      var deadline := clock.now + if timeout < 0.0 then 0.0 else timeout;
      polls := [];
      OtherThreads();
      while true
        invariant Valid() && old(entries) <= entries
        invariant clock.now == old(clock.now) + |polls| as real * POLL_INTERVAL
        invariant |polls| <= SleepsFor(timeout)
        invariant polls != [] ==> Regular(polls, old(clock.now), old(entries))
        invariant forall i | 0 <= i < |polls| :: polls[i].entries <= entries && !Holds(what, polls[i])
        decreases SleepsFor(timeout) - |polls|
      {
        SleepsReachDeadline(timeout, |polls|);
        polls := polls + [Now()];
        met, index := Poll(what);
        if met {
          return;
        }
        if clock.now >= deadline {
          return;
        }
        clock.Sleep(POLL_INTERVAL);
        OtherThreads();
      }
    }

    /** Found: by the first poll that could, the first match after the bookmark, and it stays
        that (`FirstStays`).  Missed: no poll saw one, the last of them a full timeout after
        the call; `index` is a fresh bookmark, past anything captured since. */
    method WaitFor(needle: string, after: Option<int>, timeout: real)
      returns (found: bool, index: int, text: string, ghost polls: seq<Polled>)
      requires Valid()
      modifies this, clock
      ensures Valid() && Regular(polls, old(clock.now), old(entries)) && polls[|polls| - 1].entries <= entries
      ensures forall i | 0 <= i < |polls| ::
                HasMatch(Rendered(polls[i].entries), needle, First(after)) <==> found && i == |polls| - 1
      ensures found ==> IsFirst(Rendered(entries), needle, First(after), index) && text == Rendered(entries)[index]
      ensures !found ==> index == |entries| && text == ""
      ensures clock.now == polls[|polls| - 1].at <= old(clock.now) + WaitLength(timeout)
      ensures !found ==> clock.now == old(clock.now) + WaitLength(timeout)
    {
      hide Contains, SleepsFor;
      found, index, polls := Wait(Text(needle, after), timeout);
      ghost var polled := entries;
      assert forall i | 0 <= i < |polls| ::
        HasMatch(Rendered(polls[i].entries), needle, First(after)) <==> Holds(Text(needle, after), polls[i]);
      OtherThreads();
      RenderedGrows(polled, entries);
      FirstStays(Rendered(polled), Rendered(entries), needle, First(after), index);
      if found {
        text := Render(entries[index]);
      } else {
        index := NextIndex();
        text := "";
      }
    }

    method WaitToFinish(timeout: real) returns (finished: bool, ghost polls: seq<Polled>)
      requires Valid()
      modifies this, clock
      ensures Valid() && Regular(polls, old(clock.now), old(entries)) && polls[|polls| - 1] == Now()
      ensures forall i | 0 <= i < |polls| :: Holds(Quiet, polls[i]) <==> finished && i == |polls| - 1
      ensures clock.now <= old(clock.now) + WaitLength(timeout)
      ensures !finished ==> clock.now == old(clock.now) + WaitLength(timeout)
    {
      var index;
      finished, index, polls := Wait(Quiet, timeout);
    }
  }

  lemma RenderedGrows(entries: seq<Speech>, later: seq<Speech>)
    requires entries <= later
    ensures Rendered(entries) <= Rendered(later)
  {
    hide Render;
  }

  // ---- braille -----------------------------------------------------------------------------------

  function NonEmpty(raw: seq<string>): seq<string> {
    if raw == [] then []
    else NonEmpty(raw[..|raw| - 1]) + if Strip(raw[|raw| - 1]) == "" then [] else [Strip(raw[|raw| - 1])]
  }

  /** Each run of equal texts collapsed to one: a text stays when it differs from the one
      right before it in the stream. */
  function Destuttered(texts: seq<string>): seq<string> {
    if texts == [] then []
    else
      var n := |texts| - 1;
      Destuttered(texts[..n]) + if n > 0 && texts[n - 1] == texts[n] then [] else [texts[n]]
  }

  lemma {:induction false} DestutteredEnds(texts: seq<string>)
    requires texts != []
    ensures Destuttered(texts) != [] && Destuttered(texts)[|Destuttered(texts)| - 1] == texts[|texts| - 1]
    decreases |texts|
  {
    var n := |texts| - 1;
    if n > 0 {
      DestutteredEnds(texts[..n]);
    }
  }

  /** No two neighbours in the log are equal. */
  lemma {:induction false} DestutteredHasNoRepeats(texts: seq<string>, i: nat)
    requires i + 1 < |Destuttered(texts)|
    ensures Destuttered(texts)[i] != Destuttered(texts)[i + 1]
    decreases |texts|
  {
    var n := |texts| - 1;
    var before := Destuttered(texts[..n]);
    if n > 0 {
      DestutteredEnds(texts[..n]);
    }
    if i + 1 < |before| {
      DestutteredHasNoRepeats(texts[..n], i);
    }
  }

  lemma {:induction false} NonEmptyIsNonEmpty(raw: seq<string>)
    ensures "" !in NonEmpty(raw)
    decreases |raw|
  {
    if raw != [] {
      NonEmptyIsNonEmpty(raw[..|raw| - 1]);
    }
  }

  /** Comparing with the last text kept is comparing with the last text received. */
  lemma OneMoreUpdate(received: seq<string>, raw: string)
    ensures var log := [""] + Destuttered(NonEmpty(received));
      [""] + Destuttered(NonEmpty(received + [raw])) ==
        log + if Strip(raw) == "" || log[|log| - 1] == Strip(raw) then [] else [Strip(raw)]
  {
    NextNonEmpty(received, raw);
    NonEmptyIsNonEmpty(received);
    hide NonEmpty, Strip, Destuttered;
    if Strip(raw) == "" {
      assert NonEmpty(received + [raw]) == NonEmpty(received);
    } else {
      NextKept(NonEmpty(received), Strip(raw));
    }
  }

  lemma NextNonEmpty(received: seq<string>, raw: string)
    ensures NonEmpty(received + [raw]) == NonEmpty(received) + if Strip(raw) == "" then [] else [Strip(raw)]
  {
    assert (received + [raw])[..|received|] == received;
  }

  lemma NextKept(texts: seq<string>, text: string)
    requires text != "" && "" !in texts
    ensures var log := [""] + Destuttered(texts);
      [""] + Destuttered(texts + [text]) == log + if log[|log| - 1] == text then [] else [text]
  {
    NextDestuttered(texts, text);
    if texts != [] {
      DestutteredEnds(texts);
    }
    hide Destuttered;
    AfterSentinel(Destuttered(texts), text);
  }

  lemma AfterSentinel(kept: seq<string>, text: string)
    ensures [""] + (kept + [text]) == ([""] + kept) + [text]
    ensures kept != [] ==> ([""] + kept)[|kept|] == kept[|kept| - 1]
  {
  }

  lemma NextDestuttered(texts: seq<string>, text: string)
    ensures Destuttered(texts + [text]) ==
              Destuttered(texts) + if texts != [] && texts[|texts| - 1] == text then [] else [text]
  {
    assert (texts + [text])[..|texts|] == texts;
  }

  class BrailleBuffer {
    const clock: Clock
    var entries: seq<string>
    var lastTime: real
    ghost var received: seq<string>               // every update, as NVDA wrote it

    ghost predicate Valid()
      reads this
    {
      entries == [""] + Destuttered(NonEmpty(received))
    }

    constructor (clock: Clock)
      ensures Valid() && this.clock == clock && received == []
    {
      this.clock := clock;
      entries, lastTime, received := [""], clock.now, [];
    }

    method Append(raw: string)
      requires Valid()
      modifies this
      ensures Valid() && received == old(received) + [raw]
      ensures lastTime == if entries == old(entries) then old(lastTime) else clock.now
    {
      OneMoreUpdate(received, raw);
      received := received + [raw];
      var text := Strip(raw);
      if text == "" {
        return;
      }
      if entries[|entries| - 1] == text {
        return;
      }
      entries := entries + [text];
      lastTime := clock.now;
    }

    method GetSince(index: int) returns (w: Window)
      ensures w == WindowSince(entries, index)
    {
      w := ReadSince(entries, index);
    }
  }
}

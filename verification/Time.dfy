/** Time, in seconds: it moves only while a party sleeps or sits in an idle read. */
module Time {
  class Clock {
    var now: real

    constructor (now: real)
      ensures this.now == now
    {
      this.now := now;
    }

    method Sleep(seconds: real)
      modifies this
      ensures now == old(now) + seconds
    {
      now := now + seconds;
    }
  }

  /** How long a transport leaf lets a read sit idle before reporting it; the same on both
      sides of the wire. */
  const IDLE_READ: real := 0.05

  /** How long a read that gives something may have waited for it. */
  type Delay = d: real | 0.0 <= d <= IDLE_READ witness 0.0

  /** How many more idle reads end before the deadline. */
  ghost function PollsLeft(now: real, deadline: real): nat {
    if now < deadline then ((deadline - now) / IDLE_READ).Floor + 1 else 0
  }

  lemma PollPasses(now: real, deadline: real)
    ensures now + IDLE_READ < deadline ==> PollsLeft(now + IDLE_READ, deadline) < PollsLeft(now, deadline)
  {
    var x := (deadline - now) / IDLE_READ;
    assert (deadline - (now + IDLE_READ)) / IDLE_READ == x - 1.0;
  }

  function Ceiling(x: real): int {
    -((-x).Floor)
  }
}

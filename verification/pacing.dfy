/**
  Rate pacing arithmetic. Time is held as integer nanoseconds. With a target
  of `rps` requests per second the client keeps dispatch starts at least
  `1s / rps` apart: it measures the time since the last dispatch stamp,
  sleeps for the remainder of the interval if any, and stamps again.
 */
module Pacing {
  import opened Envelope

  const NanosPerSecond: nat := 1_000_000_000

  /** The exclusive bound of a 64-bit `usize` and of a `u32`. */
  const UsizeBound: nat := 0x1_0000_0000_0000_0000
  const U32Bound: nat := 0x1_0000_0000

  /** The pacing interval `1s / rps`, whole nanoseconds rounded down: the
      largest interval that `rps` copies of fit into one second. */
  function Wait(rps: nat): (w: nat)
    requires rps > 0
    ensures w * rps <= NanosPerSecond < (w + 1) * rps
  {
    var w := NanosPerSecond / rps;
    assert NanosPerSecond == w * rps + NanosPerSecond % rps;
    w
  }

  /** The interval as the client computes it: `rps` is first narrowed to 32
      bits, and a narrowed value of zero makes the duration division panic
      (`None`). */
  function WaitAsWritten(rps: nat): (w: Option<nat>)
    requires 0 < rps < UsizeBound
    ensures w.None? <==> rps % U32Bound == 0
    ensures rps < U32Bound ==> w == Some(Wait(rps))
  {
    var narrowed := rps % U32Bound;
    if narrowed == 0 then None else Some(NanosPerSecond / narrowed)
  }

  /** A configured rate of 2^32 requests per second makes the client panic,
      and 2^32 + 1 paces it at one request per second, where the intended
      interval is zero. */
  lemma WaitNarrowingCounterexample()
    ensures WaitAsWritten(U32Bound) == None
    ensures WaitAsWritten(U32Bound + 1) == Some(NanosPerSecond) && Wait(U32Bound + 1) == 0
  {
  }

  /** Time since `last`, as `Instant::elapsed` reports it: never negative. */
  function Elapsed(last: int, now: int): (e: nat)
    ensures now >= last ==> last + e == now
    ensures now < last ==> e == 0
  {
    if now >= last then now - last else 0
  }

  /** How long to sleep when `elapsed` has passed of an interval `wait`:
      afterwards the whole interval has passed, and no longer than needed. */
  function SleepFor(wait: nat, elapsed: nat): (d: nat)
    ensures elapsed + d >= wait
    ensures d > 0 ==> elapsed + d == wait
    ensures elapsed >= wait ==> d == 0
  {
    if elapsed < wait then wait - elapsed else 0
  }

  /** The stamp recorded by a paced dispatch whose clock reads `now`, the
      previous stamp being `last`: never before `now`, never more than one
      interval after it, and, with a clock not behind `last`, at least one
      interval after `last`. */
  function NextStamp(wait: nat, last: int, now: int): (t: int)
    ensures now <= t <= now + wait
    ensures now >= last ==> t >= last + wait
  {
    now + SleepFor(wait, Elapsed(last, now))
  }

  /** With a clock that has not gone back past `last`, the new stamp is the
      later of now and one interval after the previous stamp. */
  lemma NextStampIsLater(wait: nat, last: int, now: int)
    requires now >= last
    ensures NextStamp(wait, last, now) == if now >= last + wait then now else last + wait
  {
  }

  /** The stamps of successive paced dispatches whose clock readings are
      `clock`, one per reading. */
  function Stamps(wait: nat, last: int, clock: seq<int>): (s: seq<int>)
    ensures |s| == |clock|
    decreases |clock|
  {
    if clock == [] then []
    else
      var t := NextStamp(wait, last, clock[0]);
      [t] + Stamps(wait, t, clock[1..])
  }

  /** No paced dispatch is stamped before its clock reading, nor delayed by
      more than one interval. */
  lemma {:induction false} StampsNearReadings(wait: nat, last: int, clock: seq<int>, k: nat)
    requires k < |clock|
    ensures clock[k] <= Stamps(wait, last, clock)[k] <= clock[k] + wait
    decreases |clock|
  {
    if k > 0 {
      var t := NextStamp(wait, last, clock[0]);
      StampsNearReadings(wait, t, clock[1..], k - 1);
      assert Stamps(wait, last, clock)[k] == Stamps(wait, t, clock[1..])[k - 1];
    }
  }

  /** Each reading is taken after the previous stamp was recorded: the pacing
      lock serialises the dispatches and the clock is monotonic. */
  ghost predicate Serialised(wait: nat, last: int, clock: seq<int>)
    decreases |clock|
  {
    clock == [] || (clock[0] >= last && Serialised(wait, NextStamp(wait, last, clock[0]), clock[1..]))
  }

  /** `j` intervals are `j - 1` intervals and one more. */
  lemma OneMoreInterval(j: nat, wait: nat)
    requires j > 0
    ensures (j - 1) * wait + wait == j * wait
  {
  }

  /** Paced dispatch starts are spread out: the first comes at least one
      interval after the initial stamp, and dispatches `i` and `j` are at least
      `j - i` intervals apart. */
  lemma {:induction false} StampsSpread(wait: nat, last: int, clock: seq<int>, i: nat, j: nat)
    requires Serialised(wait, last, clock)
    requires i <= j < |clock|
    ensures Stamps(wait, last, clock)[0] >= last + wait
    ensures Stamps(wait, last, clock)[j] - Stamps(wait, last, clock)[i] >= (j - i) * wait
    decreases |clock|
  {
    var t := NextStamp(wait, last, clock[0]);
    var s := Stamps(wait, last, clock);
    var rest := Stamps(wait, t, clock[1..]);
    assert s == [t] + rest;
    if j > 0 {
      StampsSpread(wait, t, clock[1..], if i > 0 then i - 1 else 0, j - 1);
      assert s[j] == rest[j - 1];
      if i == 0 {
        assert rest[0] >= t + wait;
        assert rest[j - 1] - rest[0] >= (j - 1) * wait;
        OneMoreInterval(j, wait);
      } else {
        assert s[i] == rest[i - 1];
      }
    }
  }
}

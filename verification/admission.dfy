/**
  The client instance and its admission gate. The client owns two pieces of
  shared state: the in-flight counter, bounded by `maxConcurrency` (0 means
  no bound), and the stamp of the last dispatch, used to pace requests to
  `rps` per second (0 means no pacing). Every exchange with the server goes
  through `Dispatch`: pace, take a slot, send, give the slot back on either
  outcome, then read the body.

  The gate is modelled as a sequential state machine: the condition-variable
  wait for a free slot becomes the precondition `Admits()` of `Acquire`. A
  ghost trace records the gate's events in order, each send tagged with the
  number of slots held while it is outstanding. The transport, the clock and
  the decoders are parameters.
 */
module Admission {
  import opened Envelope
  import opened Pacing
  import opened Correlation
  import opened Resolver

  /** One step of an exchange as the gate sees it; `inFlight` is the counter
      right after the step. */
  datatype Event =
    | Stamped(at: int)
    | Acquired(inFlight: nat)
    | Sent(inFlight: nat)
    | Released(inFlight: nat)
    | Read

  /** With a bound, every send went out holding a slot, and never more slots
      were held than the bound allows. */
  ghost predicate SendsAdmitted(trace: seq<Event>, bound: nat)
  {
    forall i :: 0 <= i < |trace| && trace[i].Sent? && bound > 0 ==> 0 < trace[i].inFlight <= bound
  }

  class Client {
    const maxConcurrency: nat
    const rps: nat
    const maxBatchSize: nat
    var counter: nat
    var lastReq: int
    ghost var trace: seq<Event>

    /** The in-flight counter never exceeds its bound (with no bound it is
        never touched and stays zero), and every send so far was admitted. */
    ghost predicate Valid()
      reads this
    {
      counter <= maxConcurrency && SendsAdmitted(trace, maxConcurrency)
    }

    /** A dispatch can take a slot now: the bound is off, or a slot is free. */
    predicate Admits(): (b: bool)
      reads this
      ensures b <==> maxConcurrency == 0 || Held() <= maxConcurrency
    {
      maxConcurrency == 0 || counter < maxConcurrency
    }

    constructor (maxConcurrency: nat, rps: nat, maxBatchSize: nat, now: int)
      ensures Valid()
      ensures this.maxConcurrency == maxConcurrency && this.rps == rps && this.maxBatchSize == maxBatchSize
      ensures counter == 0 && lastReq == now && trace == []
    {
      this.maxConcurrency := maxConcurrency;
      this.rps := rps;
      this.maxBatchSize := maxBatchSize;
      counter := 0;
      lastReq := now;
      trace := [];
    }

    /** The stamp a dispatch records when its clock reads `now`: no earlier
        than `now`, no later than one interval after it, and (with a clock not
        behind the last stamp) at least one interval after the last stamp. */
    function PacedStamp(now: int): (t: int)
      reads this
      ensures rps == 0 ==> t == lastReq
      ensures rps > 0 ==> now <= t <= now + Wait(rps)
      ensures rps > 0 && now >= lastReq ==> t >= lastReq + Wait(rps)
    {
      if rps > 0 then NextStamp(Wait(rps), lastReq, now) else lastReq
    }

    /** The slots held while a dispatch's send is outstanding. */
    function Held(): (n: nat)
      reads this
      ensures maxConcurrency > 0 ==> n == counter + 1
      ensures maxConcurrency == 0 ==> n == counter
    {
      if maxConcurrency > 0 then counter + 1 else counter
    }

    /** The events of one exchange started now, in order: the stamp (when
        pacing), the slot taken, the send holding it, the slot given back,
        and the body read unless the send failed. */
    ghost function Exchange(now: int, wire: Wire): seq<Event>
      reads this
    {
      (if rps > 0 then [Stamped(PacedStamp(now))] else [])
      + [Acquired(Held()), Sent(Held()), Released(counter)]
      + (if wire.SendFailed? then [] else [Read])
    }

    /** Sleep out the rest of the pacing interval, then stamp the dispatch. */
    method Pace(now: int) returns (delay: nat)
      requires Valid()
      modifies this`lastReq, this`trace
      ensures Valid()
      ensures trace == old(trace) + if rps > 0 then [Stamped(lastReq)] else []
      ensures rps == 0 ==> delay == 0
      ensures rps > 0 ==> delay == SleepFor(Wait(rps), Elapsed(old(lastReq), now))
      ensures lastReq == old(PacedStamp(now))
      ensures rps > 0 && now >= old(lastReq) ==> lastReq >= old(lastReq) + Wait(rps)
    {
      delay := 0;
      if rps > 0 {
        var wait := Wait(rps);
        var elapsed := Elapsed(lastReq, now);
        if elapsed < wait {
          delay := wait - elapsed;
        }
        lastReq := now + delay;
        trace := trace + [Stamped(lastReq)];
      }
    }

    /** Take an in-flight slot (a no-op when there is no bound). */
    method Acquire()
      requires Valid() && Admits()
      modifies this`counter, this`trace
      ensures Valid()
      ensures counter == old(Held())
      ensures trace == old(trace) + [Acquired(counter)]
    {
      if maxConcurrency > 0 {
        if counter > maxConcurrency {
          assert false;
        }
        counter := counter + 1;
      }
      trace := trace + [Acquired(counter)];
    }

    /** Give back a slot taken by `Acquire`. */
    method Release()
      requires Valid() && (maxConcurrency > 0 ==> counter > 0)
      modifies this`counter, this`trace
      ensures Valid()
      ensures counter == if maxConcurrency > 0 then old(counter) - 1 else old(counter)
      ensures trace == old(trace) + [Released(counter)]
    {
      if maxConcurrency > 0 {
        counter := counter - 1;
      }
      trace := trace + [Released(counter)];
    }

    /** One exchange with the server: the stamp is recorded before the send,
        the send goes out holding a slot, and that slot is given back exactly
        once, on the send-error path and on the success path, before the body
        is read. */
    method Dispatch(now: int, wire: Wire) returns (r: Result<string>)
      requires Valid() && Admits()
      modifies this`counter, this`lastReq, this`trace
      ensures Valid() && counter == old(counter)
      ensures lastReq == old(PacedStamp(now))
      ensures trace == old(trace) + old(Exchange(now, wire))
      ensures r == Received(wire)
    {
      ghost var held := Held();
      var _ := Pace(now);
      Acquire();
      assert counter == held;
      trace := trace + [Sent(counter)];
      if wire == SendFailed {
        Release();
        return Err(Transport);
      }
      Release();
      trace := trace + [Read];
      if wire == ReadFailed {
        return Err(BodyRead);
      }
      r := Ok(wire.body);
    }

    /** A single-shape call: dispatch, then decode the body as one envelope. */
    method Call<T>(now: int, wire: Wire, decode: string -> Option<Response<T>>) returns (r: Result<T>)
      requires Valid() && Admits()
      modifies this`counter, this`lastReq, this`trace
      ensures Valid() && counter == old(counter) && lastReq == old(PacedStamp(now))
      ensures trace == old(trace) + old(Exchange(now, wire))
      ensures r == CallReply(wire, decode)
    {
      var body := Dispatch(now, wire);
      if body.Err? {
        return Err(body.error);
      }
      r := SingleReply(body.value, decode);
    }

    /** A polymorphic call: dispatch, then resolve the body against the
        method's candidates in declaration order. */
    method CallPolymorphic<T>(call: string, candidates: seq<Candidate<T>>, now: int, wire: Wire)
      returns (r: Result<Reply<T>>)
      requires Valid() && Admits()
      modifies this`counter, this`lastReq, this`trace
      ensures Valid() && counter == old(counter) && lastReq == old(PacedStamp(now))
      ensures trace == old(trace) + old(Exchange(now, wire))
      ensures wire.Delivered? ==> r == Resolve(call, candidates, wire.body)
      ensures !wire.Delivered? ==> r == Err(Received(wire).error)
    {
      var body := Dispatch(now, wire);
      if body.Err? {
        return Err(body.error);
      }
      r := Resolve(call, candidates, body.value);
    }
  }
}

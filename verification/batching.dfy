/**
  The batch accumulator. A batcher borrows a client and keeps the queue of
  request envelopes not yet sent (`reqs`) and the results received so far,
  keyed by correlation id (`resps`). Enqueueing flushes first when the queue
  is full, so the queue never outgrows the batch size (or one, for a batch
  size of zero). A flush sends the whole queue as one exchange and is
  all-or-nothing: it either empties the queue and merges every result, or it
  leaves both the queue and the results as they were. `Send` flushes and
  then hands over every result decoded into the caller's type.
 */
module Batching {
  import opened Envelope
  import opened Correlation
  import opened Admission

  /** The decoders a flush needs: the body as an array of envelopes, and the
      body as one envelope (a server rejecting the whole batch). */
  datatype BatchDecoders = BatchDecoders(
    batch: string -> Option<seq<Response<Json>>>,
    single: string -> Option<Response<Json>>)

  /** The most requests a queue holds between operations. */
  function Capacity(maxBatchSize: nat): (c: nat)
    ensures c >= 1 && c >= maxBatchSize
    ensures maxBatchSize > 0 ==> c == maxBatchSize
  {
    if maxBatchSize == 0 then 1 else maxBatchSize
  }

  /** The result map a flush of `reqs` leaves behind, or the error it raises. */
  function Flushed(reqs: seq<Request>, resps: map<Id, Json>, wire: Wire, decoders: BatchDecoders, mint: nat -> Id)
    : (r: Result<map<Id, Json>>)
    ensures reqs == [] ==> r == Ok(resps)
    ensures r.Ok? <==> reqs == [] || (wire.Delivered? && BatchReply(wire.body, decoders.batch, decoders.single, mint).Ok?)
  {
    if reqs == [] then Ok(resps)
    else
      match Received(wire)
      case Err(e) => Err(e)
      case Ok(text) =>
        match BatchReply(text, decoders.batch, decoders.single, mint)
        case Err(e) => Err(e)
        case Ok(m) => Ok(resps + m)
  }

  /** A successful flush of a non-empty queue keeps every earlier result the
      batch does not answer, and files every batch member under its key; a
      key the batch answers holds the result of the last member filed under
      it, whatever was there before. */
  lemma FlushMerges(reqs: seq<Request>, resps: map<Id, Json>, text: string, decoders: BatchDecoders,
                    mint: nat -> Id, replies: seq<Response<Json>>)
    requires reqs != []
    requires decoders.batch(text) == Some(replies)
    requires AllAnswered(replies)
    ensures Flushed(reqs, resps, Delivered(text), decoders, mint).Ok?
    ensures var keys := set i | 0 <= i < |replies| :: KeyOf(replies[i], i, mint);
            var m := Flushed(reqs, resps, Delivered(text), decoders, mint).value;
            && m.Keys == resps.Keys + keys
            && (forall k :: k in resps && k !in keys ==> m[k] == resps[k])
            && (forall i :: 0 <= i < |replies| && LastFiled(replies, mint, i) ==>
                  m[KeyOf(replies[i], i, mint)] == replies[i].result.value)
  {
    CorrelateKeys(replies, mint);
    CorrelateLastWins(replies, mint);
  }

  /** When the server answers every request and echoes each request's id, the
      flushed results are keyed by exactly the ids of the requests sent. */
  lemma FlushFilesEveryRequest(reqs: seq<Request>, text: string, decoders: BatchDecoders,
                               mint: nat -> Id, replies: seq<Response<Json>>)
    requires reqs != []
    requires decoders.batch(text) == Some(replies)
    requires AllAnswered(replies)
    requires forall i :: 0 <= i < |replies| ==> replies[i].id.Some?
    requires (set i | 0 <= i < |replies| :: replies[i].id.value) == (set q | q in reqs :: q.id)
    ensures Flushed(reqs, map[], Delivered(text), decoders, mint).Ok?
    ensures Flushed(reqs, map[], Delivered(text), decoders, mint).value.Keys == set q | q in reqs :: q.id
  {
    CorrelateKeys(replies, mint);
    var keys := set i | 0 <= i < |replies| :: KeyOf(replies[i], i, mint);
    assert keys == set i | 0 <= i < |replies| :: replies[i].id.value by {
      forall i | 0 <= i < |replies| ensures KeyOf(replies[i], i, mint) == replies[i].id.value {}
    }
  }

  class Batcher {
    const client: Client
    const maxBatchSize: nat
    var reqs: seq<Request>
    var resps: map<Id, Json>

    /** The client's gate is consistent and the queue is within its capacity. */
    ghost predicate Valid()
      reads this, client
    {
      client.Valid() && |reqs| <= Capacity(maxBatchSize)
    }

    /** A fresh batcher on `client`, with its batch size. */
    constructor (client: Client)
      requires client.Valid()
      ensures Valid()
      ensures this.client == client && maxBatchSize == client.maxBatchSize
      ensures reqs == [] && resps == map[]
    {
      this.client := client;
      maxBatchSize := client.maxBatchSize;
      reqs := [];
      resps := map[];
    }

    /** Send the queue as one batch. An empty queue is a no-op: no pacing, no
        slot, results untouched. Otherwise either the queue is emptied and the
        results merged, or nothing in the batcher changes and the error is
        returned. */
    method Flush(now: int, wire: Wire, decoders: BatchDecoders, mint: nat -> Id) returns (r: Result<()>)
      requires Valid() && (reqs != [] ==> client.Admits())
      modifies this`reqs, this`resps, client`counter, client`lastReq, client`trace
      ensures Valid() && client.counter == old(client.counter)
      ensures client.lastReq == if old(reqs) == [] then old(client.lastReq) else old(client.PacedStamp(now))
      ensures client.trace == old(client.trace) + if old(reqs) == [] then [] else old(client.Exchange(now, wire))
      ensures match Flushed(old(reqs), old(resps), wire, decoders, mint)
              case Ok(m) => r == Ok(()) && reqs == [] && resps == m
              case Err(e) => r == Err(e) && reqs == old(reqs) && resps == old(resps)
    {
      if reqs == [] {
        return Ok(());
      }
      var body := client.Dispatch(now, wire);
      if body.Err? {
        return Err(body.error);
      }
      var m := BatchReply(body.value, decoders.batch, decoders.single, mint);
      if m.Err? {
        return Err(m.error);
      }
      reqs := [];
      resps := resps + m.value;
      r := Ok(());
    }

    /** Queue one request under the id `id`, flushing first when the queue is
        full. If that flush fails nothing is queued and its error is returned;
        otherwise the request is appended at the end and its id returned. */
    method Enqueue(name: string, params: seq<Json>, id: Id,
                   now: int, wire: Wire, decoders: BatchDecoders, mint: nat -> Id) returns (r: Result<Id>)
      requires Valid() && (|reqs| >= maxBatchSize && reqs != [] ==> client.Admits())
      modifies this`reqs, this`resps, client`counter, client`lastReq, client`trace
      ensures Valid() && client.counter == old(client.counter)
      ensures var full := |old(reqs)| >= maxBatchSize;
              match if full then Flushed(old(reqs), old(resps), wire, decoders, mint) else Ok(old(resps))
              case Ok(m) =>
                && r == Ok(id)
                && reqs == (if full then [] else old(reqs)) + [Request(name, params, id)]
                && resps == m
              case Err(e) => r == Err(e) && reqs == old(reqs) && resps == old(resps)
      ensures var flushes := |old(reqs)| >= maxBatchSize && old(reqs) != [];
              && client.lastReq == (if flushes then old(client.PacedStamp(now)) else old(client.lastReq))
              && client.trace == old(client.trace) + if flushes then old(client.Exchange(now, wire)) else []
    {
      if |reqs| >= maxBatchSize {
        var flushed := Flush(now, wire, decoders, mint);
        if flushed.Err? {
          return Err(flushed.error);
        }
      }
      reqs := reqs + [Request(name, params, id)];
      r := Ok(id);
    }

    /** Flush, then decode every result into the caller's type. On success
        the results are handed over and the batcher forgets them; if any
        result does not decode, the error is returned and the results stay
        for another attempt. */
    method Send<T>(now: int, wire: Wire, decoders: BatchDecoders, mint: nat -> Id, decode: Json -> Option<T>)
      returns (r: Result<map<Id, T>>)
      requires Valid() && (reqs != [] ==> client.Admits())
      modifies this`reqs, this`resps, client`counter, client`lastReq, client`trace
      ensures Valid() && client.counter == old(client.counter)
      ensures match Flushed(old(reqs), old(resps), wire, decoders, mint)
              case Ok(m) =>
                && r == DecodeAll(m, decode)
                && reqs == []
                && resps == (if r.Ok? then map[] else m)
              case Err(e) => r == Err(e) && reqs == old(reqs) && resps == old(resps)
      ensures r.Ok? ==> r.value.Keys == Flushed(old(reqs), old(resps), wire, decoders, mint).value.Keys
      ensures client.lastReq == if old(reqs) == [] then old(client.lastReq) else old(client.PacedStamp(now))
      ensures client.trace == old(client.trace) + if old(reqs) == [] then [] else old(client.Exchange(now, wire))
    {
      var flushed := Flush(now, wire, decoders, mint);
      if flushed.Err? {
        return Err(flushed.error);
      }
      r := DecodeAll(resps, decode);
      if r.Ok? {
        resps := map[];
      }
    }
  }
}

/**
  Response correlation: turning a response body into the value a single call
  returns, into the id-to-result map a batch flush merges, and decoding the
  accumulated batch results into a caller's type.
  Decoding itself is an oracle passed in as a function.
 */
module Correlation {
  import opened Envelope

  /** A single call's reply: the result when the envelope carries one,
      otherwise an error carrying the envelope's `error` field. */
  function SingleReply<T>(text: string, decode: string -> Option<Response<T>>): (r: Result<T>)
    ensures r.Ok? <==> decode(text).Some? && decode(text).value.result.Some?
    ensures r.Ok? ==> decode(text).value.result == Some(r.value)
    ensures decode(text).None? ==> r == Err(Decode)
    ensures decode(text).Some? && decode(text).value.result.None? ==> r == Err(Rpc(decode(text).value.error))
  {
    match decode(text)
    case None => Err(Decode)
    case Some(env) =>
      match env.result
      case Some(v) => Ok(v)
      case None => Err(Rpc(env.error))
  }

  /** The whole outcome of a single call once the exchange is over. */
  function CallReply<T>(wire: Wire, decode: string -> Option<Response<T>>): (r: Result<T>)
    ensures wire.Delivered? ==> r == SingleReply(wire.body, decode)
    ensures !wire.Delivered? ==> r.Err? && r.error in {Transport, BodyRead}
  {
    match Received(wire)
    case Err(e) => Err(e)
    case Ok(text) => SingleReply(text, decode)
  }

  /** The key the batch member at position `i` is filed under: the id it
      echoes, or a newly minted one when it echoes none. */
  function KeyOf(reply: Response<Json>, i: nat, mint: nat -> Id): (k: Id)
    ensures reply.id.Some? ==> k == reply.id.value
    ensures reply.id.None? ==> k == mint(i)
  {
    match reply.id
    case Some(id) => id
    case None => mint(i)
  }

  ghost predicate AllAnswered(replies: seq<Response<Json>>)
  {
    forall i :: 0 <= i < |replies| ==> replies[i].result.Some?
  }

  /** `k` is the first member of the batch without a result. */
  ghost predicate FirstUnanswered(replies: seq<Response<Json>>, k: nat)
  {
    && k < |replies|
    && replies[k].result.None?
    && forall j :: 0 <= j < k ==> replies[j].result.Some?
  }

  /** `m` holds every member's key, and each key maps to the result of the
      LAST member filed under it (a later insert overwrites an earlier one). */
  ghost predicate Files(replies: seq<Response<Json>>, mint: nat -> Id, m: map<Id, Json>)
  {
    && (forall i :: 0 <= i < |replies| ==> KeyOf(replies[i], i, mint) in m)
    && (forall key :: key in m ==>
          exists i :: 0 <= i < |replies| && KeyOf(replies[i], i, mint) == key
                      && replies[i].result == Some(m[key])
                      && forall j :: i < j < |replies| ==> KeyOf(replies[j], j, mint) != key)
  }

  /** The batch members collected into a map, member by member in order;
      the first member without a result stops the collection with its error. */
  function Correlate(replies: seq<Response<Json>>, mint: nat -> Id): (r: Result<map<Id, Json>>)
    ensures r.Ok? <==> AllAnswered(replies)
    decreases |replies|
  {
    if replies == [] then Ok(map[])
    else
      var n := |replies| - 1;
      match Correlate(replies[..n], mint)
      case Err(e) => Err(e)
      case Ok(m) =>
        match replies[n].result
        case Some(v) => Ok(m[KeyOf(replies[n], n, mint) := v])
        case None => Err(Rpc(replies[n].error))
  }

  /** Filing one more answered member on top of a filed prefix. */
  lemma FilesSnoc(replies: seq<Response<Json>>, mint: nat -> Id, m: map<Id, Json>)
    requires replies != [] && replies[|replies| - 1].result.Some?
    requires Files(replies[..|replies| - 1], mint, m)
    ensures Files(replies, mint, m[KeyOf(replies[|replies| - 1], |replies| - 1, mint) := replies[|replies| - 1].result.value])
  {
    var n := |replies| - 1;
    var prefix := replies[..n];
    var k := KeyOf(replies[n], n, mint);
    var m' := m[k := replies[n].result.value];
    forall i | 0 <= i < |replies| ensures KeyOf(replies[i], i, mint) in m' {
      if i < n { assert replies[i] == prefix[i]; }
    }
    forall key | key in m'
      ensures exists i :: 0 <= i < |replies| && KeyOf(replies[i], i, mint) == key
                          && replies[i].result == Some(m'[key])
                          && forall j :: i < j < |replies| ==> KeyOf(replies[j], j, mint) != key
    {
      if key == k {
        assert KeyOf(replies[n], n, mint) == key && replies[n].result == Some(m'[key]);
      } else {
        var i :| 0 <= i < |prefix| && KeyOf(prefix[i], i, mint) == key
                 && prefix[i].result == Some(m[key])
                 && forall j :: i < j < |prefix| ==> KeyOf(prefix[j], j, mint) != key;
        assert replies[i] == prefix[i];
        forall j | i < j < |replies| ensures KeyOf(replies[j], j, mint) != key {
          if j < n { assert replies[j] == prefix[j]; }
        }
      }
    }
  }

  lemma {:induction false} CorrelateOk(replies: seq<Response<Json>>, mint: nat -> Id)
    requires AllAnswered(replies)
    ensures Correlate(replies, mint).Ok?
    ensures Files(replies, mint, Correlate(replies, mint).value)
    decreases |replies|
  {
    if replies != [] {
      var n := |replies| - 1;
      var prefix := replies[..n];
      assert AllAnswered(prefix) by {
        forall i | 0 <= i < |prefix| ensures prefix[i].result.Some? {
          assert prefix[i] == replies[i];
        }
      }
      CorrelateOk(prefix, mint);
      FilesSnoc(replies, mint, Correlate(prefix, mint).value);
    }
  }

  lemma {:induction false} CorrelateErr(replies: seq<Response<Json>>, mint: nat -> Id, k: nat)
    requires FirstUnanswered(replies, k)
    ensures Correlate(replies, mint) == Err(Rpc(replies[k].error))
    decreases |replies|
  {
    var n := |replies| - 1;
    var prefix := replies[..n];
    if k == n {
      assert AllAnswered(prefix) by {
        forall i | 0 <= i < |prefix| ensures prefix[i].result.Some? {
          assert prefix[i] == replies[i];
        }
      }
    } else {
      assert prefix[k] == replies[k];
      assert FirstUnanswered(prefix, k) by {
        forall j | 0 <= j < k ensures prefix[j].result.Some? {
          assert prefix[j] == replies[j];
        }
      }
      CorrelateErr(prefix, mint, k);
    }
  }

  /** No later member of the batch is filed under the key of member `i`. */
  ghost predicate LastFiled(replies: seq<Response<Json>>, mint: nat -> Id, i: nat)
    requires i < |replies|
  {
    forall j :: i < j < |replies| ==> KeyOf(replies[j], j, mint) != KeyOf(replies[i], i, mint)
  }

  /** In a successful correlation the last member filed under a key is the one
      whose result the key holds. */
  lemma CorrelateLastWins(replies: seq<Response<Json>>, mint: nat -> Id)
    requires AllAnswered(replies)
    ensures Correlate(replies, mint).Ok?
    ensures forall i :: 0 <= i < |replies| ==> KeyOf(replies[i], i, mint) in Correlate(replies, mint).value
    ensures forall i :: 0 <= i < |replies| && LastFiled(replies, mint, i) ==>
              Correlate(replies, mint).value[KeyOf(replies[i], i, mint)] == replies[i].result.value
  {
    CorrelateOk(replies, mint);
    var m := Correlate(replies, mint).value;
    forall i | 0 <= i < |replies| && LastFiled(replies, mint, i)
      ensures m[KeyOf(replies[i], i, mint)] == replies[i].result.value
    {
      var key := KeyOf(replies[i], i, mint);
      var i' :| 0 <= i' < |replies| && KeyOf(replies[i'], i', mint) == key
                && replies[i'].result == Some(m[key])
                && forall j :: i' < j < |replies| ==> KeyOf(replies[j], j, mint) != key;
      assert i == i';
    }
  }

  /** The keys of a successful correlation are exactly the members' keys. */
  lemma CorrelateKeys(replies: seq<Response<Json>>, mint: nat -> Id)
    requires AllAnswered(replies)
    ensures Correlate(replies, mint).Ok?
    ensures Correlate(replies, mint).value.Keys
         == set i | 0 <= i < |replies| :: KeyOf(replies[i], i, mint)
  {
    CorrelateOk(replies, mint);
  }

  /** With pairwise distinct keys no member overwrites another: the map has
      one entry per member. */
  lemma {:induction false} CorrelateSize(replies: seq<Response<Json>>, mint: nat -> Id)
    requires AllAnswered(replies)
    requires forall i, j :: 0 <= i < j < |replies| ==> KeyOf(replies[i], i, mint) != KeyOf(replies[j], j, mint)
    ensures Correlate(replies, mint).Ok?
    ensures |Correlate(replies, mint).value| == |replies|
    decreases |replies|
  {
    if replies != [] {
      var n := |replies| - 1;
      var prefix := replies[..n];
      assert AllAnswered(prefix) by {
        forall i | 0 <= i < |prefix| ensures prefix[i].result.Some? {
          assert prefix[i] == replies[i];
        }
      }
      forall i, j | 0 <= i < j < |prefix| ensures KeyOf(prefix[i], i, mint) != KeyOf(prefix[j], j, mint) {
        assert prefix[i] == replies[i] && prefix[j] == replies[j];
      }
      CorrelateSize(prefix, mint);
      CorrelateOk(prefix, mint);
      var m := Correlate(prefix, mint).value;
      var k := KeyOf(replies[n], n, mint);
      forall i | 0 <= i < n ensures KeyOf(prefix[i], i, mint) != k {
        assert prefix[i] == replies[i];
      }
      assert k !in m;
      assert Correlate(replies, mint).value == m[k := replies[n].result.value];
    }
  }

  /** A batch response body turned into the id-to-result map: the body must
      be an array of envelopes; otherwise it fails, with the error of the
      single envelope it parses as, or with a decode error. */
  function BatchReply(text: string,
                      decodeArray: string -> Option<seq<Response<Json>>>,
                      decodeSingle: string -> Option<Response<Json>>,
                      mint: nat -> Id): (r: Result<map<Id, Json>>)
    ensures r.Ok? <==> decodeArray(text).Some? && AllAnswered(decodeArray(text).value)
    ensures decodeArray(text).None? && decodeSingle(text).Some? ==> r == Err(Rpc(decodeSingle(text).value.error))
    ensures decodeArray(text).None? && decodeSingle(text).None? ==> r == Err(Decode)
  {
    match decodeArray(text)
    case Some(replies) => Correlate(replies, mint)
    case None =>
      match decodeSingle(text)
      case Some(env) => Err(Rpc(env.error))
      case None => Err(Decode)
  }

  /** Every accumulated raw result decoded into the caller's type: all of them
      or an error. */
  function DecodeAll<T>(resps: map<Id, Json>, decode: Json -> Option<T>): (r: Result<map<Id, T>>)
    ensures r.Ok? <==> forall k :: k in resps ==> decode(resps[k]).Some?
    ensures r.Ok? ==> r.value.Keys == resps.Keys
    ensures r.Ok? ==> forall k :: k in resps ==> decode(resps[k]) == Some(r.value[k])
    ensures r.Err? ==> r.error == Decode
  {
    if forall k :: k in resps ==> decode(resps[k]).Some? then
      Ok(map k | k in resps :: decode(resps[k]).value)
    else
      Err(Decode)
  }
}

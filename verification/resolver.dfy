/**
  Polymorphic reply resolution. A method whose result shape depends on an
  argument declares an ordered list of variants, each a title and a shape.
  The resolver tries the shapes in declaration order on the same body: the
  first that parses decides the outcome. Each shape's decoder is an oracle.
 */
module Resolver {
  import opened Envelope

  /** One declared variant `Label(Shape)` of a polymorphic method. */
  datatype Variant = Variant(title: string, shape: string)

  /** A variant together with the decoder of its shape. */
  datatype Candidate<T> = Candidate(variant: Variant, decode: string -> Option<Response<T>>)

  /** A resolved reply: the decoded value tagged with its variant. */
  datatype Reply<T> = Reply(variant: Variant, value: T)

  /** The candidates in declaration order; the first that parses settles the
      call, and if none parses the call fails naming the method. */
  function Resolve<T>(call: string, candidates: seq<Candidate<T>>, text: string): (r: Result<Reply<T>>)
    ensures r.Err? ==> r.error == NoVariant(call) || r.error.Rpc?
    decreases |candidates|
  {
    if candidates == [] then Err(NoVariant(call))
    else
      match candidates[0].decode(text)
      case None => Resolve(call, candidates[1..], text)
      case Some(env) =>
        match env.result
        case Some(v) => Ok(Reply(candidates[0].variant, v))
        case None => Err(Rpc(env.error))
  }

  /** `k` is the first candidate whose shape parses the body. */
  ghost predicate FirstParsing<T>(candidates: seq<Candidate<T>>, text: string, k: nat)
  {
    && k < |candidates|
    && candidates[k].decode(text).Some?
    && forall j :: 0 <= j < k ==> candidates[j].decode(text).None?
  }

  /** When no candidate parses, the call fails with the exhaustion error. */
  lemma {:induction false} ResolveExhausted<T>(call: string, candidates: seq<Candidate<T>>, text: string)
    requires forall j :: 0 <= j < |candidates| ==> candidates[j].decode(text).None?
    ensures Resolve(call, candidates, text) == Err(NoVariant(call))
    decreases |candidates|
  {
    if candidates != [] {
      ResolveExhausted(call, candidates[1..], text);
    }
  }

  /** The first candidate that parses decides: its value wrapped in its
      variant when the result is present, its error field otherwise. */
  lemma {:induction false} ResolveFirst<T>(call: string, candidates: seq<Candidate<T>>, text: string, k: nat)
    requires FirstParsing(candidates, text, k)
    ensures var env := candidates[k].decode(text).value;
            Resolve(call, candidates, text)
            == if env.result.Some? then Ok(Reply(candidates[k].variant, env.result.value))
               else Err(Rpc(env.error))
    decreases k
  {
    if k > 0 {
      var rest := candidates[1..];
      assert candidates[0].decode(text).None?;
      assert rest[k - 1] == candidates[k];
      forall j | 0 <= j < k - 1 ensures rest[j].decode(text).None? {
        assert rest[j] == candidates[j + 1];
      }
      ResolveFirst(call, rest, text, k - 1);
    }
  }

  /** Candidates after the first that parses are never tried: dropping them
      changes nothing. */
  lemma ResolveIgnoresLater<T>(call: string, candidates: seq<Candidate<T>>, text: string, k: nat)
    requires FirstParsing(candidates, text, k)
    ensures Resolve(call, candidates, text) == Resolve(call, candidates[..k + 1], text)
  {
    var prefix := candidates[..k + 1];
    forall j | 0 <= j < k ensures prefix[j].decode(text).None? {
      assert prefix[j] == candidates[j];
    }
    ResolveFirst(call, candidates, text, k);
    ResolveFirst(call, prefix, text, k);
  }

  /** A successful resolution carries the variant of one of the candidates
      and a value that candidate's decoder produced. */
  lemma {:induction false} ResolveSound<T>(call: string, candidates: seq<Candidate<T>>, text: string)
    requires Resolve(call, candidates, text).Ok?
    ensures exists k: nat :: FirstParsing(candidates, text, k)
                        && candidates[k].variant == Resolve(call, candidates, text).value.variant
                        && candidates[k].decode(text).value.result == Some(Resolve(call, candidates, text).value.value)
    decreases |candidates|
  {
    if candidates[0].decode(text).Some? {
      assert FirstParsing(candidates, text, 0);
    } else {
      var rest := candidates[1..];
      ResolveSound(call, rest, text);
      var k: nat :| FirstParsing(rest, text, k)
               && rest[k].variant == Resolve(call, rest, text).value.variant
               && rest[k].decode(text).value.result == Some(Resolve(call, rest, text).value.value);
      assert candidates[k + 1] == rest[k];
      forall j | 0 <= j < k + 1 ensures candidates[j].decode(text).None? {
        if j > 0 { assert candidates[j] == rest[j - 1]; }
      }
      assert FirstParsing(candidates, text, k + 1);
    }
  }

  /** The variant accessor `reply::<method>::<Label>(self)`: the value when the
      reply carries that title, otherwise a wrong-variant error naming the
      expected shape and the title actually received. */
  function Expect<T>(call: string, want: Variant, reply: Reply<T>): (r: Result<T>)
    ensures r.Ok? <==> reply.variant.title == want.title
    ensures r.Ok? ==> r.value == reply.value
    ensures r.Err? ==> r.error == WrongVariant(call, want.shape, reply.variant.title)
  {
    if reply.variant.title == want.title then Ok(reply.value)
    else Err(WrongVariant(call, want.shape, reply.variant.title))
  }

  /** Labels of a method's variants are pairwise distinct. */
  ghost predicate DistinctLabels<T>(candidates: seq<Candidate<T>>)
  {
    forall i, j :: 0 <= i < j < |candidates| ==> candidates[i].variant.title != candidates[j].variant.title
  }

  /** After a successful resolution exactly one accessor succeeds: the one of
      the candidate that parsed first. */
  lemma ExpectExactlyOne<T>(call: string, candidates: seq<Candidate<T>>, text: string, k: nat, i: nat)
    requires DistinctLabels(candidates)
    requires FirstParsing(candidates, text, k)
    requires candidates[k].decode(text).value.result.Some?
    requires i < |candidates|
    ensures Resolve(call, candidates, text).Ok?
    ensures Expect(call, candidates[i].variant, Resolve(call, candidates, text).value).Ok? <==> i == k
  {
    ResolveFirst(call, candidates, text, k);
  }
}

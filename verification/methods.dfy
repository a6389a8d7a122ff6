/**
  The declared method table of the Bitcoin client: every RPC the client
  exposes, with its positional parameter names, and for polymorphic methods
  the ordered variants the resolver tries. The generic call routines of the
  Admission module stand for every single-shape entry, and the resolver for
  every polymorphic one.
 */
module Methods {
  import opened Resolver

  datatype Signature =
    | Single(name: string, params: seq<string>, shape: string)
    | Polymorphic(name: string, params: seq<string>, variants: seq<Variant>)

  /** The single-shape methods, in declaration order. */
  const Singles: seq<Signature> := [
    Single("createrawtransaction", ["inputs", "outputs", "locktime"], "String"),
    Single("dumpprivkey", ["address"], "String"),
    Single("generate", ["number", "iterations"], "Vec<String>"),
    Single("getbalance", [], "f64"),
    Single("getreceivedbyaddress", ["address", "confirmations"], "f64"),
    Single("getblockchaininfo", [], "BlockChainInfo"),
    Single("getblockcount", [], "isize"),
    Single("getblockhash", ["block_height"], "String"),
    Single("getnewaddress", ["account", "address_type"], "String"),
    Single("getrawmempool", ["format"], "RawMemPool"),
    Single("sendrawtransaction", ["transaction", "allow_high_fee"], "String"),
    Single("sendtoaddress", ["address", "amount", "comment", "comment_to", "include_fee"], "String"),
    Single("signrawtransaction", ["transaction", "outputs", "privkeys", "sig_hash_type"], "SignedTx"),
    Single("gettxout", ["txid", "vout", "unconfirmed"], "Option<TxOut>")
  ]

  /** The polymorphic methods of the default build (Bitcoin Core). */
  const BitcoinPolymorphic: seq<Signature> := [
    Polymorphic("getblock", ["header_hash", "verbosity"],
                [Variant("Zero", "SerializedData"), Variant("One", "Block"), Variant("Two", "FullBlock")]),
    Polymorphic("getrawtransaction", ["txid", "verbose"],
                [Variant("False", "SerializedData"), Variant("True", "Transaction")])
  ]

  /** The polymorphic methods of the Litecoin, Bitcoin Cash and Dogecoin builds. */
  const ForkPolymorphic: seq<Signature> := [
    Polymorphic("getblock", ["header_hash", "verbosity"],
                [Variant("False", "SerializedData"), Variant("True", "Block")]),
    Polymorphic("getrawtransaction", ["txid", "verbose"],
                [Variant("Zero", "SerializedData"), Variant("One", "Transaction")])
  ]

  const BitcoinTable: seq<Signature> := Singles + BitcoinPolymorphic
  const ForkTable: seq<Signature> := Singles + ForkPolymorphic

  /** Method names are unique. */
  ghost predicate UniqueNames(table: seq<Signature>)
  {
    forall i, j :: 0 <= i < j < |table| ==> table[i].name != table[j].name
  }

  /** Every polymorphic method declares at least one variant, with pairwise
      distinct titles. */
  ghost predicate DistinctVariants(table: seq<Signature>)
  {
    forall i :: 0 <= i < |table| && table[i].Polymorphic? ==>
      && |table[i].variants| > 0
      && forall a, b :: 0 <= a < b < |table[i].variants| ==>
           table[i].variants[a].title != table[i].variants[b].title
  }

  lemma SinglesUnique()
    ensures UniqueNames(Singles)
  {
  }

  lemma TablesWellFormed()
    ensures UniqueNames(BitcoinTable) && DistinctVariants(BitcoinTable)
    ensures UniqueNames(ForkTable) && DistinctVariants(ForkTable)
  {
    SinglesUnique();
  }

  /** Candidates built from a table entry's declared variants, in order. */
  ghost predicate Declares<T>(sig: Signature, candidates: seq<Candidate<T>>)
  {
    && sig.Polymorphic?
    && |candidates| == |sig.variants|
    && forall c :: 0 <= c < |candidates| ==> candidates[c].variant == sig.variants[c]
  }

  /** For a polymorphic method of a well-formed table, resolving a reply
      against its declared variants leaves exactly one accessor that
      succeeds: that of the first variant whose shape parses. */
  lemma TableAccessorsExclusive<T>(table: seq<Signature>, i: nat, candidates: seq<Candidate<T>>,
                                   text: string, k: nat, a: nat)
    requires DistinctVariants(table)
    requires i < |table| && Declares(table[i], candidates)
    requires FirstParsing(candidates, text, k) && candidates[k].decode(text).value.result.Some?
    requires a < |candidates|
    ensures Resolve(table[i].name, candidates, text).Ok?
    ensures Expect(table[i].name, candidates[a].variant, Resolve(table[i].name, candidates, text).value).Ok? <==> a == k
  {
    forall x, y | 0 <= x < y < |candidates| ensures candidates[x].variant.title != candidates[y].variant.title {
      assert candidates[x].variant == table[i].variants[x];
      assert candidates[y].variant == table[i].variants[y];
    }
    ExpectExactlyOne(table[i].name, candidates, text, k, a);
  }
}

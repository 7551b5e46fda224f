/**
 Checking a body's signatures in parallel: the authorizations are cut into one package a
 thread, and each package is a batch verification.
 */
module Authorizations {
  import opened Prelude
  import opened Types
  import opened Bodies

  type Pair = (Authorization, Transaction)

  datatype Package =
    Package(messages: seq<Transaction>, signatures: seq<Signature>, publicKeys: seq<PublicKey>)
  {
    ghost predicate Valid() { |messages| == |signatures| == |publicKeys| }

    /** The authorization/message pairs the package holds. */
    ghost function Pairs(): (ps: seq<Pair>)
      requires Valid()
      ensures |ps| == |messages|
    {
      seq(|messages|, i requires 0 <= i < |messages| =>
        (Authorization(publicKeys[i], signatures[i]), messages[i]))
    }

    /** Batch verification is the conjunction of its members. */
    predicate Verifies(c: Crypto) {
      && |messages| == |signatures| == |publicKeys|
      && forall i :: 0 <= i < |messages| ==> c.verifies(publicKeys[i], signatures[i], messages[i])
    }

    function Push(p: Pair): Package {
      Package(messages + [p.1], signatures + [p.0.signature], publicKeys + [p.0.publicKey])
    }
  }

  /** What each input signs: its transaction, once per input, in order. */
  function Messages(ts: seq<Transaction>): (ms: seq<Transaction>)
    ensures |ms| == |AllInputs(ts)|
  {
    if |ts| == 0 then []
    else
      var t := ts[|ts| - 1];
      Messages(ts[..|ts| - 1]) + seq(|t.inputs|, i => t)
  }

  function Zip(auths: seq<Authorization>, messages: seq<Transaction>): (ps: seq<Pair>)
    ensures |ps| == if |auths| <= |messages| then |auths| else |messages|
  {
    seq(if |auths| <= |messages| then |auths| else |messages|,
        i requires 0 <= i < |auths| && i < |messages| => (auths[i], messages[i]))
  }

  predicate PairVerifies(c: Crypto, p: Pair) {
    c.verifies(p.0.publicKey, p.0.signature, p.1)
  }

  /** The simple check: one pass over all pairs, and no authorization without an input. */
  ghost predicate BodyVerifies(c: Crypto, body: Body) {
    && |body.authorizations| <= |AllInputs(body.transactions)|
    && AllVerify(c, Zip(body.authorizations, Messages(body.transactions)))
  }

  ghost predicate AllVerify(c: Crypto, ps: seq<Pair>) {
    forall i :: 0 <= i < |ps| ==> PairVerifies(c, ps[i])
  }

  lemma {:induction false} AllVerifyAppend(c: Crypto, a: seq<Pair>, b: seq<Pair>)
    ensures AllVerify(c, a + b) <==> AllVerify(c, a) && AllVerify(c, b)
  {
    if AllVerify(c, a + b) {
      forall i | 0 <= i < |a| ensures PairVerifies(c, a[i]) { assert (a + b)[i] == a[i]; }
      forall i | 0 <= i < |b| ensures PairVerifies(c, b[i]) { assert (a + b)[|a| + i] == b[i]; }
    }
  }

  predicate TransactionVerifies(c: Crypto, at: AuthorizedTransaction) {
    forall i :: 0 <= i < |at.authorizations| ==> PairVerifies(c, (at.authorizations[i], at.transaction))
  }

  ghost predicate OneAuthorizationPerInput(ats: seq<AuthorizedTransaction>) {
    forall i :: 0 <= i < |ats| ==> |ats[i].authorizations| == |ats[i].transaction.inputs|
  }

  ghost function Concat(ps: seq<Package>): seq<Pair>
    requires forall i :: 0 <= i < |ps| ==> ps[i].Valid()
  {
    if |ps| == 0 then [] else Concat(ps[..|ps| - 1]) + ps[|ps| - 1].Pairs()
  }

  ghost predicate AllValid(ps: seq<Package>) {
    forall i :: 0 <= i < |ps| ==> ps[i].Valid()
  }

  /** All packages but the last hold the same number of signatures. */
  ghost predicate EvenlyCut(ps: seq<Package>, size: nat) {
    forall i :: 0 <= i < |ps| - 1 ==> |ps[i].signatures| == size
  }

  method Fill(package: Package, pairs: seq<Pair>) returns (r: Package)
    requires package.Valid()
    ensures r.Valid() && r.Pairs() == package.Pairs() + pairs
  {
    r := package;
    for i := 0 to |pairs|
      invariant r.Valid() && r.Pairs() == package.Pairs() + pairs[..i]
    {
      ghost var before := r;
      r := r.Push(pairs[i]);
      assert r.Pairs() == before.Pairs() + [pairs[i]];
    }
  }

  function CountSignatures(ps: seq<Package>): nat {
    if |ps| == 0 then 0 else CountSignatures(ps[..|ps| - 1]) + |ps[|ps| - 1].signatures|
  }

  lemma {:induction false} CountIsLength(ps: seq<Package>)
    requires AllValid(ps)
    ensures CountSignatures(ps) == |Concat(ps)|
  {
    if |ps| > 0 {
      CountIsLength(ps[..|ps| - 1]);
    }
  }

  lemma {:induction false} ConcatPush(ps: seq<Package>, p: Package)
    requires AllValid(ps) && p.Valid()
    ensures AllValid(ps + [p]) && Concat(ps + [p]) == Concat(ps) + p.Pairs()
  {
    assert (ps + [p])[..|ps|] == ps;
  }

  lemma {:induction false} ConcatExtendLast(ps: seq<Package>, p: Package, rest: seq<Pair>)
    requires |ps| > 0 && AllValid(ps) && p.Valid() && p.Pairs() == ps[|ps| - 1].Pairs() + rest
    ensures AllValid(ps[|ps| - 1 := p])
    ensures Concat(ps[|ps| - 1 := p]) == Concat(ps) + rest
  {
    assert ps[|ps| - 1 := p][..|ps| - 1] == ps[..|ps| - 1];
    assert Concat(ps) == Concat(ps[..|ps| - 1]) + ps[|ps| - 1].Pairs();
  }

  /** The loop over threads; it panics when a slice runs past the end of the pairs. */
  method Cut(pairs: seq<Pair>, size: nat, numThreads: nat) returns (r: Result<seq<Package>, Error>)
    ensures r.Err? ==> r.error == Panicked && numThreads * size > |pairs|
    ensures r.Ok? ==>
      && |r.value| == numThreads && AllValid(r.value)
      && numThreads * size <= |pairs| && Concat(r.value) == pairs[..numThreads * size]
      && EvenlyCut(r.value, size)
  {
    var packages: seq<Package> := [];
    ghost var start := 0;
    for i := 0 to numThreads
      invariant |packages| == i && AllValid(packages)
      invariant start == i * size <= |pairs| && Concat(packages) == pairs[..start]
      invariant forall j :: 0 <= j < i ==> |packages[j].signatures| == size
    {
      assert i * size <= (i + 1) * size == i * size + size <= numThreads * size;
      if (i + 1) * size > |pairs| {
        return Err(Panicked);
      }
      var slice := pairs[i * size..(i + 1) * size];
      var package := Fill(Package([], [], []), slice);
      ConcatPush(packages, package);
      packages := packages + [package];
      assert pairs[..start] + slice == pairs[..start + size];
      start := start + size;
    }
    return Ok(packages);
  }

  /** The pairs left over by the division all go to the last package. */
  method AppendToLast(packages: seq<Package>, rest: seq<Pair>) returns (r: seq<Package>)
    requires |packages| > 0 && AllValid(packages)
    ensures |r| == |packages| && AllValid(r)
    ensures forall size :: EvenlyCut(packages, size) ==> EvenlyCut(r, size)
    ensures Concat(r) == Concat(packages) + rest
    ensures CountSignatures(r) == |Concat(r)|
  {
    var last := Fill(packages[|packages| - 1], rest);
    ConcatExtendLast(packages, last, rest);
    r := packages[|packages| - 1 := last];
    CountIsLength(r);
  }

  lemma {:induction false} QuotientFits(n: nat, k: nat)
    requires k >= 1
    ensures k * (n / k) <= n
  {
  }

  /**
   Cuts the pairs into `numThreads` packages. It panics, on a slice or on the final
   count, exactly when there are more authorizations than inputs.
   */
  method Packages(body: Body, size: nat, numThreads: nat) returns (r: Result<seq<Package>, Error>)
    requires numThreads >= 1 && numThreads * size <= |body.authorizations|
    ensures r == Err(Panicked) || r.Ok?
    ensures r.Ok? <==> |body.authorizations| <= |AllInputs(body.transactions)|
    ensures r.Ok? ==>
      && |r.value| == numThreads && AllValid(r.value)
      && Concat(r.value) == Zip(body.authorizations, Messages(body.transactions))
      && EvenlyCut(r.value, size)
  {
    var pairs := Zip(body.authorizations, Messages(body.transactions));
    var cut := Cut(pairs, size, numThreads);
    if cut.Err? {
      return cut;
    }
    var packages := cut.value;
    var covered := numThreads * size;
    packages := AppendToLast(packages, pairs[covered..]);
    assert pairs[..covered] + pairs[covered..] == pairs;
    if CountSignatures(packages) != |body.authorizations| {
      return Err(Panicked);
    }
    return Ok(packages);
  }

  lemma {:induction false} PackageVerifies(c: Crypto, p: Package)
    requires p.Valid()
    ensures p.Verifies(c) <==> AllVerify(c, p.Pairs())
  {
    forall i | 0 <= i < |p.Pairs()|
      ensures PairVerifies(c, p.Pairs()[i]) <==> c.verifies(p.publicKeys[i], p.signatures[i], p.messages[i])
    {}
  }

  lemma {:induction false} ConcatVerifies(c: Crypto, ps: seq<Package>)
    requires AllValid(ps)
    ensures (forall i :: 0 <= i < |ps| ==> ps[i].Verifies(c)) <==> AllVerify(c, Concat(ps))
  {
    if |ps| > 0 {
      var init, last := ps[..|ps| - 1], ps[|ps| - 1];
      ConcatVerifies(c, init);
      PackageVerifies(c, last);
      AllVerifyAppend(c, Concat(init), last.Pairs());
      assert forall i :: 0 <= i < |ps| ==> ps[i] == if i < |init| then init[i] else last;
    }
  }

  /** The parallel check accepts exactly the bodies the simple check accepts. */
  method VerifyBody(c: Crypto, body: Body, numThreads: nat) returns (r: Result<(), Error>)
    requires numThreads >= 1
    ensures r.Ok? <==> BodyVerifies(c, body)
    ensures r == Err(Panicked) <==> |body.authorizations| > |AllInputs(body.transactions)|
    ensures r.Err? ==> r.error in {Panicked, AuthorizationError}
  {
    QuotientFits(|body.authorizations|, numThreads);
    var split := Packages(body, |body.authorizations| / numThreads, numThreads);
    if split.Err? {
      return Err(split.error);
    }
    var packages := split.value;
    ConcatVerifies(c, packages);
    for i := 0 to |packages|
      invariant forall j :: 0 <= j < i ==> packages[j].Verifies(c)
    {
      if !packages[i].Verifies(c) {
        return Err(AuthorizationError);
      }
    }
    return Ok(());
  }

  /**
   Laid end to end, the authorizations fall on their own transactions' inputs: each
   transaction has one an input, until one that has fewer, and none has any after it.
   */
  ghost predicate LinedUp(ats: seq<AuthorizedTransaction>) {
    |ats| == 0 ||
    var init, at := ats[..|ats| - 1], ats[|ats| - 1];
    && LinedUp(init)
    && (at.authorizations == [] ||
         (OneAuthorizationPerInput(init) && |at.authorizations| <= |at.transaction.inputs|))
  }

  lemma {:induction false} OneEachIsLinedUp(ats: seq<AuthorizedTransaction>)
    requires OneAuthorizationPerInput(ats)
    ensures LinedUp(ats)
  {
    if |ats| > 0 {
      OneEachIsLinedUp(ats[..|ats| - 1]);
    }
  }

  lemma {:induction false} LinedUpCounts(ats: seq<AuthorizedTransaction>)
    requires LinedUp(ats)
    ensures |AllAuthorizations(ats)| <= |AllInputs(TransactionsOf(ats))|
    ensures |AllAuthorizations(ats)| == |AllInputs(TransactionsOf(ats))| <==> OneAuthorizationPerInput(ats)
  {
    if |ats| > 0 {
      var init, at := ats[..|ats| - 1], ats[|ats| - 1];
      LinedUpCounts(init);
      assert TransactionsOf(ats)[..|ats| - 1] == TransactionsOf(init);
      assert OneAuthorizationPerInput(ats)
        <==> OneAuthorizationPerInput(init) && |at.authorizations| == |at.transaction.inputs| by {
        assert forall i :: 0 <= i < |ats| ==> ats[i] == if i < |init| then init[i] else at;
      }
    }
  }

  /** The pairs that a transaction's authorizations make with their own message. */
  function OwnPairs(at: AuthorizedTransaction): (ps: seq<Pair>)
    ensures |ps| == |at.authorizations|
  {
    seq(|at.authorizations|, i requires 0 <= i < |at.authorizations| => (at.authorizations[i], at.transaction))
  }

  lemma {:induction false} OwnPairsVerify(c: Crypto, at: AuthorizedTransaction)
    ensures TransactionVerifies(c, at) <==> AllVerify(c, OwnPairs(at))
  {
    forall i | 0 <= i < |OwnPairs(at)| ensures OwnPairs(at)[i] == (at.authorizations[i], at.transaction) {}
  }

  /** The pairs of a transaction list are those of its prefix, then those of its last. */
  lemma {:induction false} PairsOfLast(ats: seq<AuthorizedTransaction>)
    requires LinedUp(ats) && |ats| > 0
    ensures
      var init, at := ats[..|ats| - 1], ats[|ats| - 1];
      Zip(AllAuthorizations(ats), Messages(TransactionsOf(ats)))
      == Zip(AllAuthorizations(init), Messages(TransactionsOf(init))) + OwnPairs(at)
  {
    var init, at := ats[..|ats| - 1], ats[|ats| - 1];
    LinedUpCounts(ats);
    LinedUpCounts(init);
    var ts := TransactionsOf(ats);
    assert ts[..|ts| - 1] == TransactionsOf(init);
  }

  /** Where the authorizations line up, a body verifies iff each of its transactions does. */
  lemma {:induction false} BodyVerifiesIffTransactionsDo(
    c: Crypto, ats: seq<AuthorizedTransaction>, coinbase: seq<Output>)
    requires LinedUp(ats)
    ensures BodyVerifies(c, BodyOf(ats, coinbase))
       <==> (forall i :: 0 <= i < |ats| ==> TransactionVerifies(c, ats[i]))
  {
    LinedUpCounts(ats);
    if |ats| > 0 {
      var init, at := ats[..|ats| - 1], ats[|ats| - 1];
      BodyVerifiesIffTransactionsDo(c, init, coinbase);
      LinedUpCounts(init);
      PairsOfLast(ats);
      AllVerifyAppend(c, Zip(AllAuthorizations(init), Messages(TransactionsOf(init))), OwnPairs(at));
      OwnPairsVerify(c, at);
      assert forall i :: 0 <= i < |ats| ==> ats[i] == if i < |init| then init[i] else at;
    }
  }

  /** One transaction's authorizations, as a single batch over repeats of its message. */
  method VerifyAuthorizedTransaction(c: Crypto, at: AuthorizedTransaction) returns (r: Result<(), Error>)
    ensures r == if TransactionVerifies(c, at) then Ok(()) else Err(AuthorizationError)
  {
    var pairs := OwnPairs(at);
    var package := Fill(Package([], [], []), pairs);
    assert package.Pairs() == pairs;
    PackageVerifies(c, package);
    OwnPairsVerify(c, at);
    r := if package.Verifies(c) then Ok(()) else Err(AuthorizationError);
  }
}

/** From the pool to a block: what the node selects, and why the validator accepts it. */
module Templates {
  import opened Prelude
  import opened Types
  import opened Bodies
  import opened Authorizations
  import opened Connection
  import opened Validation
  import opened MemPools

  /** The loop of the block template: keep what is valid and spends nothing kept before. */
  ghost function Selected(
    c: Crypto, utxos: Utxos, taken: seq<AuthorizedTransaction>): (kept: seq<AuthorizedTransaction>)
  {
    if |taken| == 0 then []
    else
      var kept := Selected(c, utxos, taken[..|taken| - 1]);
      var at := taken[|taken| - 1];
      if InputsOf(at) !! Elements(AllInputs(TransactionsOf(kept))) && TransactionAccepted(c, utxos, at)
      then kept + [at] else kept
  }

  /** The ids the loop deletes from the pool. */
  ghost function Dropped(c: Crypto, utxos: Utxos, taken: seq<AuthorizedTransaction>): set<Hash> {
    if |taken| == 0 then {}
    else
      var dropped := Dropped(c, utxos, taken[..|taken| - 1]);
      var kept := Selected(c, utxos, taken[..|taken| - 1]);
      var at := taken[|taken| - 1];
      if InputsOf(at) !! Elements(AllInputs(TransactionsOf(kept))) && TransactionAccepted(c, utxos, at)
      then dropped else dropped + {c.txid(at.transaction)}
  }

  lemma {:induction false} SelectedAreTaken(c: Crypto, utxos: Utxos, taken: seq<AuthorizedTransaction>)
    ensures forall at :: at in Selected(c, utxos, taken) ==> at in taken && TransactionAccepted(c, utxos, at)
  {
    if |taken| > 0 {
      SelectedAreTaken(c, utxos, taken[..|taken| - 1]);
    }
  }

  lemma {:induction false} TransactionsOfLast(ats: seq<AuthorizedTransaction>, at: AuthorizedTransaction)
    ensures TransactionsOf(ats + [at]) == TransactionsOf(ats) + [at.transaction]
    ensures AllInputs(TransactionsOf(ats + [at])) == AllInputs(TransactionsOf(ats)) + at.transaction.inputs
  {
    var ts := TransactionsOf(ats + [at]);
    assert ts[..|ts| - 1] == TransactionsOf(ats);
  }

  lemma {:induction false} InputsOfSome(ats: seq<AuthorizedTransaction>, o: OutPoint)
    ensures o in AllInputs(TransactionsOf(ats)) <==> exists at :: at in ats && o in at.transaction.inputs
  {
    InputsMembership(TransactionsOf(ats), o);
    if at :| at in ats && o in at.transaction.inputs {
      var i :| 0 <= i < |ats| && ats[i] == at;
      assert TransactionsOf(ats)[i] == at.transaction;
    }
    if t :| t in TransactionsOf(ats) && o in t.inputs {
      var i :| 0 <= i < |ats| && TransactionsOf(ats)[i] == t;
      assert ats[i] in ats;
    }
  }

  lemma {:induction false} DisjointInPool(
    c: Crypto, pool: Pool, keys: seq<Hash>, taken: seq<AuthorizedTransaction>, i: nat, j: nat)
    requires ConflictFree(c, pool) && Taken(pool, keys, taken) && j < i < |taken|
    ensures InputsOf(taken[i]) !! InputsOf(taken[j])
  {
    assert keys[i] != keys[j];
  }

  /** In a pool without conflicts nothing is refused as a double spend. */
  lemma {:induction false} NoDoubleSpendInPool(
    c: Crypto, utxos: Utxos, pool: Pool, keys: seq<Hash>, taken: seq<AuthorizedTransaction>, i: nat)
    requires ConflictFree(c, pool) && Taken(pool, keys, taken) && i < |taken|
    ensures InputsOf(taken[i]) !! Elements(AllInputs(TransactionsOf(Selected(c, utxos, taken[..i]))))
  {
    var kept := Selected(c, utxos, taken[..i]);
    SelectedAreTaken(c, utxos, taken[..i]);
    forall j | 0 <= j < i ensures InputsOf(taken[i]) !! InputsOf(taken[j]) {
      DisjointInPool(c, pool, keys, taken, i, j);
    }
    forall o | o in InputsOf(taken[i]) ensures o !in AllInputs(TransactionsOf(kept)) {
      InputsOfSome(kept, o);
      assert forall at :: at in kept ==> InputsOf(taken[i]) !! InputsOf(at);
    }
  }

  /** The valid ones, in order. */
  ghost function AcceptedOf(
    c: Crypto, utxos: Utxos, taken: seq<AuthorizedTransaction>): seq<AuthorizedTransaction>
  {
    if |taken| == 0 then []
    else
      var at := taken[|taken| - 1];
      AcceptedOf(c, utxos, taken[..|taken| - 1]) + if TransactionAccepted(c, utxos, at) then [at] else []
  }

  ghost function RejectedKeys(
    c: Crypto, utxos: Utxos, keys: seq<Hash>, taken: seq<AuthorizedTransaction>): set<Hash>
    requires |keys| == |taken|
  {
    set i | 0 <= i < |taken| && !TransactionAccepted(c, utxos, taken[i]) :: keys[i]
  }

  lemma {:induction false} RejectedOfLast(c: Crypto, utxos: Utxos, keys: seq<Hash>, taken: seq<AuthorizedTransaction>)
    requires |keys| == |taken| > 0
    ensures var n := |taken| - 1;
      RejectedKeys(c, utxos, keys, taken)
      == RejectedKeys(c, utxos, keys[..n], taken[..n])
         + if TransactionAccepted(c, utxos, taken[n]) then {} else {keys[n]}
  {
    var n := |taken| - 1;
    forall k | k in RejectedKeys(c, utxos, keys, taken)
      ensures k in RejectedKeys(c, utxos, keys[..n], taken[..n])
        || (k == keys[n] && !TransactionAccepted(c, utxos, taken[n]))
    {
      var i :| 0 <= i < |taken| && !TransactionAccepted(c, utxos, taken[i]) && keys[i] == k;
      assert i < n ==> taken[..n][i] == taken[i] && keys[..n][i] == k;
    }
    forall k | k in RejectedKeys(c, utxos, keys[..n], taken[..n]) ensures k in RejectedKeys(c, utxos, keys, taken) {
      var i :| 0 <= i < n && !TransactionAccepted(c, utxos, taken[..n][i]) && keys[..n][i] == k;
      assert taken[i] == taken[..n][i] && keys[i] == k;
    }
  }

  /** So the template is exactly the valid ones among the taken, and the others leave the pool. */
  lemma {:induction false} SelectedAreTheAccepted(
    c: Crypto, utxos: Utxos, pool: Pool, keys: seq<Hash>, taken: seq<AuthorizedTransaction>)
    requires ConflictFree(c, pool) && Taken(pool, keys, taken)
    ensures Selected(c, utxos, taken) == AcceptedOf(c, utxos, taken)
    ensures Dropped(c, utxos, taken) == RejectedKeys(c, utxos, keys, taken)
  {
    if |taken| > 0 {
      var n := |taken| - 1;
      assert Taken(pool, keys[..n], taken[..n]);
      SelectedAreTheAccepted(c, utxos, pool, keys[..n], taken[..n]);
      NoDoubleSpendInPool(c, utxos, pool, keys, taken, n);
      RejectedOfLast(c, utxos, keys, taken);
      assert keys[n] == c.txid(taken[n].transaction);
    }
  }

  lemma {:induction false} SelectedInputsAreDistinct(c: Crypto, utxos: Utxos, taken: seq<AuthorizedTransaction>)
    requires forall i :: 0 <= i < |taken| ==> NoDuplicates(taken[i].transaction.inputs)
    ensures NoDuplicates(AllInputs(TransactionsOf(Selected(c, utxos, taken))))
  {
    if |taken| > 0 {
      var kept, at := Selected(c, utxos, taken[..|taken| - 1]), taken[|taken| - 1];
      SelectedInputsAreDistinct(c, utxos, taken[..|taken| - 1]);
      TransactionsOfLast(kept, at);
      NoDuplicatesSplit(AllInputs(TransactionsOf(kept)), at.transaction.inputs);
    }
  }

  lemma {:induction false} FeesWithLast(utxos: Utxos, ats: seq<AuthorizedTransaction>, at: AuthorizedTransaction)
    ensures Fees(utxos, TransactionsOf(ats + [at]))
         == Fees(utxos, TransactionsOf(ats))
            + InputValue(utxos, at.transaction.inputs) - TotalValue(at.transaction.outputs)
  {
    TransactionsOfLast(ats, at);
    var ts := TransactionsOf(ats + [at]);
    assert ts[..|ts| - 1] == TransactionsOf(ats);
    FeesOfLast(utxos, ts);
  }

  lemma {:induction false} SelectedFeesGrow(c: Crypto, utxos: Utxos, taken: seq<AuthorizedTransaction>, k: nat)
    requires k <= |taken|
    ensures Fees(utxos, TransactionsOf(Selected(c, utxos, taken[..k])))
         <= Fees(utxos, TransactionsOf(Selected(c, utxos, taken)))
    decreases |taken|
  {
    if k == |taken| {
      assert taken[..k] == taken;
    } else {
      var init := taken[..|taken| - 1];
      assert init[..k] == taken[..k];
      SelectedFeesGrow(c, utxos, init, k);
      FeesWithLast(utxos, Selected(c, utxos, init), taken[|taken| - 1]);
    }
  }

  /** The accumulators of the template's loop, after these transactions. */
  ghost predicate Building(
    c: Crypto, utxos: Utxos, seen: seq<AuthorizedTransaction>,
    returned: seq<AuthorizedTransaction>, spentUtxos: set<OutPoint>, fee: nat)
  {
    && returned == Selected(c, utxos, seen)
    && spentUtxos == Elements(AllInputs(TransactionsOf(returned)))
    && fee == Fees(utxos, TransactionsOf(returned))
  }

  lemma {:induction false} BuildingStep(
    c: Crypto, utxos: Utxos, seen: seq<AuthorizedTransaction>, at: AuthorizedTransaction,
    returned: seq<AuthorizedTransaction>, spentUtxos: set<OutPoint>, fee: nat)
    requires Building(c, utxos, seen, returned, spentUtxos, fee)
    ensures
      if InputsOf(at) !! spentUtxos && TransactionAccepted(c, utxos, at) then
        && Building(c, utxos, seen + [at], returned + [at], spentUtxos + InputsOf(at),
             fee + InputValue(utxos, at.transaction.inputs) - TotalValue(at.transaction.outputs))
        && Dropped(c, utxos, seen + [at]) == Dropped(c, utxos, seen)
      else
        && Building(c, utxos, seen + [at], returned, spentUtxos, fee)
        && Dropped(c, utxos, seen + [at]) == Dropped(c, utxos, seen) + {c.txid(at.transaction)}
  {
    assert (seen + [at])[..|seen|] == seen;
    TransactionsOfLast(returned, at);
    FeesWithLast(utxos, returned, at);
  }

  // ---------- The validator on a body built from authorized transactions ----------

  ghost predicate OwnedEach(c: Crypto, utxos: Utxos, ats: seq<AuthorizedTransaction>) {
    forall i :: 0 <= i < |ats| ==>
      && InputsExist(utxos, ats[i].transaction.inputs)
      && Owned(c, utxos, ats[i].transaction.inputs, ats[i].authorizations)
  }

  lemma {:induction false} OwnedAppend(
    c: Crypto, utxos: Utxos, a: seq<OutPoint>, b: seq<OutPoint>, x: seq<Authorization>, y: seq<Authorization>)
    requires |a| == |x| || (|x| <= |a| && y == [])
    ensures InputsExist(utxos, a + b) <==> InputsExist(utxos, a) && InputsExist(utxos, b)
    ensures InputsExist(utxos, a + b) ==>
      (Owned(c, utxos, a + b, x + y) <==> Owned(c, utxos, a, x) && Owned(c, utxos, b, y))
  {
    var s, z := a + b, x + y;
    if InputsExist(utxos, s) {
      forall i | 0 <= i < |a| ensures a[i] in utxos { assert s[i] == a[i]; }
      forall i | 0 <= i < |b| ensures b[i] in utxos { assert s[|a| + i] == b[i]; }
      if Owned(c, utxos, s, z) {
        forall i | 0 <= i < |x| && i < |a| ensures c.addressOf(x[i].publicKey) == utxos[a[i]].address {
          assert s[i] == a[i] && z[i] == x[i];
        }
        forall i | 0 <= i < |y| && i < |b| ensures c.addressOf(y[i].publicKey) == utxos[b[i]].address {
          assert |a| == |x| && s[|a| + i] == b[i] && z[|a| + i] == y[i];
        }
      }
    }
  }

  lemma {:induction false} OwnedEachWithLast(
    c: Crypto, utxos: Utxos, init: seq<AuthorizedTransaction>, at: AuthorizedTransaction)
    ensures OwnedEach(c, utxos, init + [at])
      <==> OwnedEach(c, utxos, init) && InputsExist(utxos, at.transaction.inputs)
           && Owned(c, utxos, at.transaction.inputs, at.authorizations)
  {
    var ats := init + [at];
    assert ats[|init|] == at && forall i :: 0 <= i < |init| ==> ats[i] == init[i];
  }

  lemma {:induction false} OwnedIffEach(c: Crypto, utxos: Utxos, ats: seq<AuthorizedTransaction>)
    requires LinedUp(ats)
    ensures
      var inputs := AllInputs(TransactionsOf(ats));
      OwnedEach(c, utxos, ats) <==> InputsExist(utxos, inputs) && Owned(c, utxos, inputs, AllAuthorizations(ats))
  {
    if |ats| > 0 {
      var init, at := ats[..|ats| - 1], ats[|ats| - 1];
      OwnedIffEach(c, utxos, init);
      LinedUpCounts(init);
      assert ats == init + [at];
      TransactionsOfLast(init, at);
      OwnedAppend(c, utxos,
        AllInputs(TransactionsOf(init)), at.transaction.inputs, AllAuthorizations(init), at.authorizations);
      OwnedEachWithLast(c, utxos, init, at);
    }
  }

  /**
   Where the authorizations line up, the validator accepts a body iff the node would
   accept each of its transactions, no input repeats, and the coinbase claims no more
   than the fees.
   */
  lemma {:induction false} BodyAcceptedIffTransactionsAre(
    c: Crypto, utxos: Utxos, ats: seq<AuthorizedTransaction>, coinbase: seq<Output>)
    requires LinedUp(ats)
    ensures
      BodyAccepted(c, utxos, BodyOf(ats, coinbase))
      <==>
      && (forall i :: 0 <= i < |ats| ==> TransactionAccepted(c, utxos, ats[i]))
      && NoDuplicates(AllInputs(TransactionsOf(ats)))
      && TotalValue(coinbase) <= Fees(utxos, TransactionsOf(ats)) < U64_LIMIT
  {
    OwnedIffEach(c, utxos, ats);
    BodyVerifiesIffTransactionsDo(c, ats, coinbase);
    assert (forall i :: 0 <= i < |ats| ==> TransactionAccepted(c, utxos, ats[i]))
      <==> OwnedEach(c, utxos, ats) && BalancedEach(utxos, TransactionsOf(ats))
           && (forall i :: 0 <= i < |ats| ==> TransactionVerifies(c, ats[i])) by {
      AcceptedByParts(c, utxos, ats);
    }
  }

  ghost predicate BalancedEach(utxos: Utxos, ts: seq<Transaction>) {
    forall i :: 0 <= i < |ts| ==> Balanced(utxos, ts[i])
  }

  lemma {:induction false} AcceptedByParts(c: Crypto, utxos: Utxos, ats: seq<AuthorizedTransaction>)
    ensures (forall i :: 0 <= i < |ats| ==> TransactionAccepted(c, utxos, ats[i]))
      <==> OwnedEach(c, utxos, ats) && BalancedEach(utxos, TransactionsOf(ats))
           && (forall i :: 0 <= i < |ats| ==> TransactionVerifies(c, ats[i]))
  {
    var ts := TransactionsOf(ats);
    forall i | 0 <= i < |ats| ensures ts[i] == ats[i].transaction {}
    if BalancedEach(utxos, ts) {
      forall i | 0 <= i < |ats| ensures Balanced(utxos, ats[i].transaction) { assert Balanced(utxos, ts[i]); }
    }
  }

  // ---------- Authorizations that do not line up ----------

  lemma {:induction false} AuthorizationFrom(ats: seq<AuthorizedTransaction>, p: nat) returns (j: nat)
    requires p < |AllAuthorizations(ats)|
    ensures j < |ats| && AllAuthorizations(ats)[p] in ats[j].authorizations
  {
    var n := |ats| - 1;
    if p < |AllAuthorizations(ats[..n])| {
      j := AuthorizationFrom(ats[..n], p);
    } else {
      j := n;
    }
  }

  lemma {:induction false} MessageFrom(ts: seq<Transaction>, p: nat) returns (j: nat)
    requires p < |AllInputs(ts)|
    ensures j < |ts| && Messages(ts)[p] == ts[j] && ts[j].inputs != []
  {
    var n := |ts| - 1;
    if p < |AllInputs(ts[..n])| {
      j := MessageFrom(ts[..n], p);
    } else {
      j := n;
    }
  }

  /** An authorization checked on another transaction than its own cannot verify on it. */
  lemma {:induction false} NoForeignMessage(
    c: Crypto, ats: seq<AuthorizedTransaction>, i: nat, j: nat, a: Authorization)
    requires c.SignaturesFitOneMessage() && i < |ats| && j < |ats| && i != j
    requires NoDuplicates(AllInputs(TransactionsOf(ats))) && ats[j].transaction.inputs != []
    requires TransactionVerifies(c, ats[i]) && a in ats[i].authorizations
    ensures !PairVerifies(c, (a, ats[j].transaction))
  {
    if ats[i].transaction == ats[j].transaction {
      var ts := TransactionsOf(ats);
      assert ts[i] == ts[j];
      RepeatedSpender(ts, if i < j then i else j, if i < j then j else i);
    }
    var k :| 0 <= k < |ats[i].authorizations| && ats[i].authorizations[k] == a;
    assert PairVerifies(c, (ats[i].authorizations[k], ats[i].transaction));
  }

  ghost predicate VerifyEach(c: Crypto, ats: seq<AuthorizedTransaction>) {
    forall i :: 0 <= i < |ats| ==> TransactionVerifies(c, ats[i])
  }

  /** The prefix has no authorization too many: it would fall on the last one's inputs. */
  lemma {:induction false} PrefixDoesNotSpill(c: Crypto, ats: seq<AuthorizedTransaction>, coinbase: seq<Output>)
    requires c.SignaturesFitOneMessage() && |ats| > 0 && VerifyEach(c, ats)
    requires NoDuplicates(AllInputs(TransactionsOf(ats))) && BodyVerifies(c, BodyOf(ats, coinbase))
    ensures |AllAuthorizations(ats[..|ats| - 1])| <= |AllInputs(TransactionsOf(ats[..|ats| - 1]))|
  {
    var n := |ats| - 1;
    var init, at := ats[..n], ats[n];
    var auths, ts := AllAuthorizations(ats), TransactionsOf(ats);
    assert ts[..n] == TransactionsOf(init);
    var p := |AllInputs(TransactionsOf(init))|;
    if |AllAuthorizations(init)| > p {
      var i := AuthorizationFrom(init, p);
      assert Zip(auths, Messages(ts))[p] == (AllAuthorizations(init)[p], at.transaction);
      NoForeignMessage(c, ats, i, n, auths[p]);
    }
  }

  /** Nor one too few, if the last has any: that one would fall on the prefix's inputs. */
  lemma {:induction false} PrefixIsFull(c: Crypto, ats: seq<AuthorizedTransaction>, coinbase: seq<Output>)
    requires c.SignaturesFitOneMessage() && |ats| > 0 && VerifyEach(c, ats)
    requires NoDuplicates(AllInputs(TransactionsOf(ats))) && BodyVerifies(c, BodyOf(ats, coinbase))
    requires ats[|ats| - 1].authorizations != []
    ensures |AllAuthorizations(ats[..|ats| - 1])| >= |AllInputs(TransactionsOf(ats[..|ats| - 1]))|
  {
    var n := |ats| - 1;
    var init, at := ats[..n], ats[n];
    var auths, ts := AllAuthorizations(ats), TransactionsOf(ats);
    assert ts[..n] == TransactionsOf(init);
    var p := |AllAuthorizations(init)|;
    if p < |AllInputs(TransactionsOf(init))| {
      var j := MessageFrom(TransactionsOf(init), p);
      assert Zip(auths, Messages(ts))[p] == (at.authorizations[0], ats[j].transaction);
      NoForeignMessage(c, ats, n, j, at.authorizations[0]);
    }
  }

  lemma {:induction false} VerifiedPrefix(c: Crypto, ats: seq<AuthorizedTransaction>, coinbase: seq<Output>)
    requires |ats| > 0 && BodyVerifies(c, BodyOf(ats, coinbase))
    requires |AllAuthorizations(ats[..|ats| - 1])| <= |AllInputs(TransactionsOf(ats[..|ats| - 1]))|
    ensures BodyVerifies(c, BodyOf(ats[..|ats| - 1], coinbase))
  {
    var init := ats[..|ats| - 1];
    var ts := TransactionsOf(ats);
    assert ts[..|ts| - 1] == TransactionsOf(init);
    var all := Zip(AllAuthorizations(ats), Messages(ts));
    var part := Zip(AllAuthorizations(init), Messages(TransactionsOf(init)));
    forall i | 0 <= i < |part| ensures PairVerifies(c, part[i]) { assert all[i] == part[i]; }
  }

  /** Transactions that verify one by one verify in one body only if they line up. */
  lemma {:induction false} VerifiedIsLinedUp(c: Crypto, ats: seq<AuthorizedTransaction>, coinbase: seq<Output>)
    requires c.SignaturesFitOneMessage() && VerifyEach(c, ats)
    requires NoDuplicates(AllInputs(TransactionsOf(ats))) && BodyVerifies(c, BodyOf(ats, coinbase))
    ensures LinedUp(ats)
  {
    if |ats| > 0 {
      var init, at := ats[..|ats| - 1], ats[|ats| - 1];
      PrefixDoesNotSpill(c, ats, coinbase);
      VerifiedPrefix(c, ats, coinbase);
      assert ats == init + [at];
      TransactionsOfLast(init, at);
      NoDuplicatesSplit(AllInputs(TransactionsOf(init)), at.transaction.inputs);
      VerifiedIsLinedUp(c, init, coinbase);
      LinedUpCounts(init);
      if at.authorizations != [] {
        PrefixIsFull(c, ats, coinbase);
      }
    }
  }

  /**
   A block template passes validation on the state it was made for if its authorizations
   line up. If no signature fits two messages, that is the exact condition.
   */
  lemma {:induction false} TemplateIsValid(
    c: Crypto, utxos: Utxos, pool: Pool, keys: seq<Hash>, taken: seq<AuthorizedTransaction>, coinbase: seq<Output>)
    requires ConflictFree(c, pool) && Taken(pool, keys, taken)
    ensures
      var kept := Selected(c, utxos, taken);
      var covered := TotalValue(coinbase) <= Fees(utxos, TransactionsOf(kept)) < U64_LIMIT;
      && (LinedUp(kept) && covered ==> BodyAccepted(c, utxos, BodyOf(kept, coinbase)))
      && (c.SignaturesFitOneMessage() ==>
            (BodyAccepted(c, utxos, BodyOf(kept, coinbase)) <==> LinedUp(kept) && covered))
  {
    var kept := Selected(c, utxos, taken);
    SelectedAreTaken(c, utxos, taken);
    SelectedInputsAreDistinct(c, utxos, taken);
    forall i | 0 <= i < |kept| ensures TransactionAccepted(c, utxos, kept[i]) {
      assert kept[i] in kept;
    }
    if LinedUp(kept) {
      BodyAcceptedIffTransactionsAre(c, utxos, kept, coinbase);
    } else if c.SignaturesFitOneMessage() && BodyAccepted(c, utxos, BodyOf(kept, coinbase)) {
      VerifiedIsLinedUp(c, kept, coinbase);
    }
  }

  /** The pool's transactions each have one authorization an input: every template is valid. */
  lemma {:induction false} SignedTemplateIsValid(
    c: Crypto, utxos: Utxos, pool: Pool, keys: seq<Hash>, taken: seq<AuthorizedTransaction>, coinbase: seq<Output>)
    requires ConflictFree(c, pool) && Taken(pool, keys, taken) && OneAuthorizationPerInput(taken)
    requires TotalValue(coinbase) <= Fees(utxos, TransactionsOf(Selected(c, utxos, taken))) < U64_LIMIT
    ensures BodyAccepted(c, utxos, BodyOf(Selected(c, utxos, taken), coinbase))
  {
    var kept := Selected(c, utxos, taken);
    SelectedAreTaken(c, utxos, taken);
    forall i | 0 <= i < |kept| ensures |kept[i].authorizations| == |kept[i].transaction.inputs| {
      assert kept[i] in kept;
    }
    OneEachIsLinedUp(kept);
    TemplateIsValid(c, utxos, pool, keys, taken, coinbase);
  }

  function Unsigned(o: OutPoint): AuthorizedTransaction {
    AuthorizedTransaction(Transaction([o], []), [])
  }

  function Signed(c: Crypto, seed: nat, index: u32, o: OutPoint): AuthorizedTransaction {
    var t := Transaction([o], []);
    AuthorizedTransaction(t, [Authorization(c.childKey(seed, index), c.sign(seed, index, t))])
  }

  /**
   What goes wrong, in any table that holds the outputs of two owners: the node accepts a
   transaction that nobody signed and one that its owner signed, and the validator refuses
   the block made of the two, because the one signature falls on the other's input.
   */
  lemma {:induction false} UnsignedShiftsTheNext(
    c: Crypto, utxos: Utxos, seed: nat, index: u32, o: OutPoint, p: OutPoint)
    requires c.SignaturesVerify() && o in utxos && p in utxos
    requires utxos[p].address == c.addressOf(c.childKey(seed, index)) != utxos[o].address
    ensures TransactionAccepted(c, utxos, Unsigned(o)) && TransactionAccepted(c, utxos, Signed(c, seed, index, p))
    ensures NoDuplicates(AllInputs(TransactionsOf([Unsigned(o), Signed(c, seed, index, p)])))
    ensures !BodyAccepted(c, utxos, BodyOf([Unsigned(o), Signed(c, seed, index, p)], []))
  {
    OneInput(utxos, o);
    OneInput(utxos, p);
    TwoTransactions(Unsigned(o), Signed(c, seed, index, p));
    assert AllInputs(TransactionsOf([Unsigned(o), Signed(c, seed, index, p)]))[0] == o;
  }

  lemma {:induction false} OneInput(utxos: Utxos, o: OutPoint)
    ensures InputValue(utxos, [o]) == ValueAt(utxos, o)
  {
    assert [o][..0] == [];
  }

  lemma {:induction false} TwoTransactions(a: AuthorizedTransaction, b: AuthorizedTransaction)
    ensures AllInputs(TransactionsOf([a, b])) == a.transaction.inputs + b.transaction.inputs
    ensures AllAuthorizations([a, b]) == a.authorizations + b.authorizations
  {
    assert [a, b] == [] + [a] + [b] && [a, b][..1] == [a] && [a][..0] == [];
    assert AllAuthorizations([a]) == a.authorizations;
    TransactionsOfLast([], a);
    TransactionsOfLast([a], b);
  }
}

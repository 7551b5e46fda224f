/**
 When the outpoints of a block are new. The ids are hashes, so an outpoint is created
 twice exactly when the same thing is connected twice, and inputs are what prevents that.
 */
module Freshness {
  import opened Prelude
  import opened Types
  import opened Bodies
  import opened Connection
  import opened Validation
  import opened Runs

  /**
   Nothing that has no inputs repeats: no such transaction within the body or from an
   earlier body, and no such body; and every output index fits in 32 bits.
   */
  ghost predicate RepeatFree(h: History, body: Body) {
    var ts := body.transactions;
    && |body.coinbase| <= U32_LIMIT
    && (forall i :: 0 <= i < |ts| ==> |ts[i].outputs| <= U32_LIMIT)
    && (forall i, j :: 0 <= i < j < |ts| && ts[i] == ts[j] && ts[i].inputs == [] ==> ts[i].outputs == [])
    && (forall b, t :: b in h.bodies && t in ts && t in b.transactions && t.inputs == [] ==> t.outputs == [])
    && (forall b :: b in h.bodies && SameContent(b, body) && AllInputs(ts) == [] ==> body.coinbase == [])
  }

  ghost predicate SameContent(a: Body, b: Body) {
    a.coinbase == b.coinbase && a.transactions == b.transactions
  }

  /** A block whose transactions all spend something, with no coinbase but on transactions. */
  predicate Disciplined(body: Body) {
    && |body.coinbase| <= U32_LIMIT
    && (forall t :: t in body.transactions ==> t.inputs != [] && |t.outputs| <= U32_LIMIT)
    && (body.transactions == [] ==> body.coinbase == [])
  }

  lemma {:induction false} DisciplinedIsRepeatFree(h: History, body: Body)
    requires Disciplined(body)
    ensures RepeatFree(h, body)
  {
    if body.transactions != [] {
      var t := body.transactions[0];
      InputsMembership(body.transactions, t.inputs[0]);
    }
  }

  // ---------- Distinct outpoints within a body ----------

  lemma {:induction false} DistinctEntries(origin: OutPoint, outputs: seq<Output>)
    ensures NoDuplicates(Points(Entries(origin, outputs))) <==> |outputs| <= U32_LIMIT
  {
    var ps := Points(Entries(origin, outputs));
    forall i | 0 <= i < |ps| ensures ps[i] == origin.(vout := Vout(i)) {}
    if |outputs| > U32_LIMIT {
      assert ps[0] == ps[U32_LIMIT];
    }
  }

  lemma {:induction false} FirstPoint(c: Crypto, t: Transaction)
    requires t.outputs != []
    ensures Regular(c.txid(t), 0) in Points(TransactionEntries(c, t))
  {
    assert Points(TransactionEntries(c, t))[0] == Regular(c.txid(t), 0);
  }

  lemma {:induction false} PointNamesTransaction(c: Crypto, t: Transaction, o: OutPoint)
    requires o in Points(TransactionEntries(c, t))
    ensures o.Regular? && o.txid == c.txid(t) && t.outputs != []
  {
  }

  lemma {:induction false} DistinctTransactionEntries(c: Crypto, ts: seq<Transaction>)
    requires c.TxidCollisionFree()
    ensures NoDuplicates(Points(AllTransactionEntries(c, ts))) <==>
      && (forall i :: 0 <= i < |ts| ==> |ts[i].outputs| <= U32_LIMIT)
      && (forall i, j :: 0 <= i < j < |ts| && ts[i] == ts[j] ==> ts[i].outputs == [])
  {
    if |ts| > 0 {
      var init, t := ts[..|ts| - 1], ts[|ts| - 1];
      var made, own := AllTransactionEntries(c, init), TransactionEntries(c, t);
      DistinctTransactionEntries(c, init);
      PointsAppend(made, own);
      NoDuplicatesSplit(Points(made), Points(own));
      DistinctEntries(Regular(c.txid(t), 0), t.outputs);
      DisjointFromLast(c, init, t);
      assert forall i :: 0 <= i < |ts| ==> ts[i] == if i < |init| then init[i] else t;
    }
  }

  lemma {:induction false} DisjointFromLast(c: Crypto, init: seq<Transaction>, t: Transaction)
    requires c.TxidCollisionFree()
    ensures Elements(Points(AllTransactionEntries(c, init))) !! Elements(Points(TransactionEntries(c, t)))
      <==> (t in init ==> t.outputs == [])
  {
    if t in init && t.outputs != [] {
      var o := Regular(c.txid(t), 0);
      FirstPoint(c, t);
      PointsMembership(c, init, o);
      assert o in Elements(Points(AllTransactionEntries(c, init))) && o in Elements(Points(TransactionEntries(c, t)));
    } else {
      forall o | o in Points(TransactionEntries(c, t)) ensures o !in Points(AllTransactionEntries(c, init)) {
        PointNamesTransaction(c, t, o);
        PointsMembership(c, init, o);
        forall u | u in init ensures o !in Points(TransactionEntries(c, u)) {
          if o in Points(TransactionEntries(c, u)) {
            PointNamesTransaction(c, u, o);
          }
        }
      }
    }
  }

  lemma {:induction false} CoinbasePoint(c: Crypto, body: Body, o: OutPoint)
    ensures o in Points(CoinbaseEntries(c, body)) ==>
      o.Coinbase? && o.merkleRoot == c.merkleRoot(body.coinbase, body.transactions) && body.coinbase != []
    ensures body.coinbase != [] ==>
      Coinbase(c.merkleRoot(body.coinbase, body.transactions), 0) in Points(CoinbaseEntries(c, body))
  {
    if body.coinbase != [] {
      assert Points(CoinbaseEntries(c, body))[0] == Coinbase(c.merkleRoot(body.coinbase, body.transactions), 0);
    }
  }

  lemma {:induction false} PointsOfBody(c: Crypto, body: Body, o: OutPoint)
    ensures o in BodyPoints(c, body) <==>
      || o in Points(CoinbaseEntries(c, body))
      || exists t :: t in body.transactions && o in Points(TransactionEntries(c, t))
  {
    PointsAppend(CoinbaseEntries(c, body), AllTransactionEntries(c, body.transactions));
    PointsMembership(c, body.transactions, o);
  }

  lemma {:induction false} DistinctInBody(c: Crypto, body: Body)
    requires c.TxidCollisionFree()
    ensures NoDuplicates(Points(BodyEntries(c, body)))
      <==> |body.coinbase| <= U32_LIMIT && NoDuplicates(Points(AllTransactionEntries(c, body.transactions)))
  {
    var cb, made := CoinbaseEntries(c, body), AllTransactionEntries(c, body.transactions);
    PointsAppend(cb, made);
    NoDuplicatesSplit(Points(cb), Points(made));
    DistinctEntries(Coinbase(c.merkleRoot(body.coinbase, body.transactions), 0), body.coinbase);
    forall o | o in Points(cb) ensures o !in Points(made) {
      CoinbasePoint(c, body, o);
      PointsMembership(c, body.transactions, o);
    }
  }

  // ---------- New to the history ----------

  lemma {:induction false} InputInTable(c: Crypto, utxos: Utxos, body: Body, t: Transaction, o: OutPoint)
    requires BodyAccepted(c, utxos, body) && t in body.transactions && o in t.inputs
    ensures o in utxos
  {
    InputsMembership(body.transactions, o);
  }

  lemma {:induction false} InputWasSpent(h: History, b: Body, t: Transaction, o: OutPoint)
    requires b in h.bodies && t in b.transactions && o in t.inputs
    ensures EverSpent(h, o)
  {
    InputsMembership(b.transactions, o);
    assert o in BodyInputs(b);
  }

  /** A transaction that spends something cannot be connected twice. */
  lemma {:induction false} SpendersDoNotRepeat(c: Crypto, m: Machine, body: Body, t: Transaction, b: Body)
    requires Tidy(c, m) && BodyAccepted(c, m.node.ledger.utxos, body)
    requires t in body.transactions && b in m.history.bodies && t in b.transactions
    ensures t.inputs == []
  {
    if t.inputs != [] {
      var o := t.inputs[0];
      InputInTable(c, m.node.ledger.utxos, body, t, o);
      InputWasSpent(m.history, b, t, o);
    }
  }

  lemma {:induction false} NoInputs(ts: seq<Transaction>)
    requires forall t :: t in ts ==> t.inputs == []
    ensures AllInputs(ts) == []
  {
    if |ts| > 0 {
      NoInputs(ts[..|ts| - 1]);
    }
  }

  ghost predicate OldTransactionsAreVoid(h: History, body: Body) {
    forall b, t :: b in h.bodies && t in body.transactions && t in b.transactions ==> t.outputs == []
  }

  ghost predicate OldBodyIsVoid(h: History, body: Body) {
    forall b :: b in h.bodies && SameContent(b, body) ==> body.coinbase == []
  }

  lemma {:induction false} NewIfNothingRepeats(c: Crypto, h: History, body: Body, o: OutPoint)
    requires c.TxidCollisionFree() && c.RootCollisionFree()
    requires OldTransactionsAreVoid(h, body) && OldBodyIsVoid(h, body) && o in BodyPoints(c, body)
    ensures !CreatedByBody(c, h, o)
  {
    PointsOfBody(c, body, o);
    forall b | b in h.bodies ensures o !in BodyPoints(c, b) {
      PointsOfBody(c, b, o);
      CoinbasePoint(c, body, o);
      CoinbasePoint(c, b, o);
      if t :| t in body.transactions && o in Points(TransactionEntries(c, t)) {
        PointNamesTransaction(c, t, o);
        if u :| u in b.transactions && o in Points(TransactionEntries(c, u)) {
          PointNamesTransaction(c, u, o);
        }
      }
    }
  }

  lemma {:induction false} NothingRepeatsIfNew(c: Crypto, h: History, body: Body)
    requires forall o :: o in BodyPoints(c, body) ==> !CreatedByBody(c, h, o)
    ensures OldTransactionsAreVoid(h, body) && OldBodyIsVoid(h, body)
  {
    forall b, t | b in h.bodies && t in body.transactions && t in b.transactions ensures t.outputs == [] {
      if t.outputs != [] {
        var o := Regular(c.txid(t), 0);
        FirstPoint(c, t);
        PointsOfBody(c, body, o);
        PointsOfBody(c, b, o);
        assert CreatedByBody(c, h, o);
      }
    }
    forall b | b in h.bodies && SameContent(b, body) ensures body.coinbase == [] {
      if body.coinbase != [] {
        var o := Coinbase(c.merkleRoot(body.coinbase, body.transactions), 0);
        CoinbasePoint(c, body, o);
        CoinbasePoint(c, b, o);
        PointsOfBody(c, body, o);
        PointsOfBody(c, b, o);
        assert CreatedByBody(c, h, o);
      }
    }
  }

  lemma {:induction false} RepeatFreeByParts(c: Crypto, m: Machine, body: Body)
    requires Tidy(c, m) && BodyAccepted(c, m.node.ledger.utxos, body)
    ensures RepeatFree(m.history, body) <==>
      && |body.coinbase| <= U32_LIMIT
      && (forall i :: 0 <= i < |body.transactions| ==> |body.transactions[i].outputs| <= U32_LIMIT)
      && (forall i, j :: 0 <= i < j < |body.transactions| && body.transactions[i] == body.transactions[j] ==>
            body.transactions[i].outputs == [])
      && OldTransactionsAreVoid(m.history, body) && OldBodyIsVoid(m.history, body)
  {
    var ts, h := body.transactions, m.history;
    forall i, j | 0 <= i < j < |ts| && ts[i] == ts[j] ensures ts[i].inputs == [] {
      if ts[i].inputs != [] {
        RepeatedSpender(ts, i, j);
      }
    }
    forall b, t | b in h.bodies && t in ts && t in b.transactions ensures t.inputs == [] {
      SpendersDoNotRepeat(c, m, body, t, b);
    }
    forall b | b in h.bodies && SameContent(b, body) ensures AllInputs(ts) == [] {
      NoInputs(ts);
    }
  }

  /**
   The exact condition: in a tidy state, an accepted body creates only outpoints that are
   new iff nothing without inputs repeats in it.
   */
  lemma {:induction false} FreshIffRepeatFree(c: Crypto, m: Machine, body: Body)
    requires c.TxidCollisionFree() && c.RootCollisionFree()
    requires Tidy(c, m) && BodyAccepted(c, m.node.ledger.utxos, body)
    ensures FreshBody(c, m.history, body) <==> RepeatFree(m.history, body)
  {
    DistinctInBody(c, body);
    DistinctTransactionEntries(c, body.transactions);
    RepeatFreeByParts(c, m, body);
    if OldTransactionsAreVoid(m.history, body) && OldBodyIsVoid(m.history, body) {
      forall o | o in BodyPoints(c, body) ensures !CreatedByBody(c, m.history, o) {
        NewIfNothingRepeats(c, m.history, body, o);
      }
    }
    if forall o :: o in BodyPoints(c, body) ==> !CreatedByBody(c, m.history, o) {
      NothingRepeatsIfNew(c, m.history, body);
    }
  }

  // ---------- Over whole runs ----------

  /** The environment's and the blocks' part, event by event. */
  ghost predicate Fair(m: Machine, e: Event) {
    e.Block? ==> RepeatFree(m.history, e.body) && FreshDeposits(m.history, e.peg)
  }

  ghost predicate FairUpTo(ms: seq<Machine>, es: seq<Event>, n: nat) {
    n <= |es| && n < |ms| && forall i :: 0 <= i < n ==> Fair(ms[i], es[i])
  }

  lemma {:induction false} FairIsFresh(c: Crypto, m: Machine, e: Event, m': Machine)
    requires c.TxidCollisionFree() && c.RootCollisionFree() && Tidy(c, m) && Step(c, m, e, m') && Fair(m, e)
    ensures FreshEvent(c, m, e)
  {
    if e.Block? {
      FreshIffRepeatFree(c, m, e.body);
    }
  }

  /** Over every fair run: spent outputs never reappear, and what is pending stays out of the table. */
  lemma {:induction false} EveryFairRunIsTidy(c: Crypto, ms: seq<Machine>, es: seq<Event>, n: nat)
    requires c.TxidCollisionFree() && c.RootCollisionFree() && IsRun(c, ms, es) && FairUpTo(ms, es, n)
    ensures Tidy(c, ms[n])
  {
    if n > 0 {
      EveryFairRunIsTidy(c, ms, es, n - 1);
      assert StepAt(c, ms, es, n - 1);
      FairIsFresh(c, ms[n - 1], es[n - 1], ms[n]);
      StepKeepsTidy(c, ms[n - 1], es[n - 1], ms[n]);
    }
  }

  /** No outpoint is created twice in a fair run: what a block creates, nothing created before. */
  lemma {:induction false} NoOutpointIsCreatedTwice(c: Crypto, ms: seq<Machine>, es: seq<Event>, n: nat, o: OutPoint)
    requires c.TxidCollisionFree() && c.RootCollisionFree() && IsRun(c, ms, es)
    requires n < |es| && FairUpTo(ms, es, n + 1) && es[n].Block?
    requires o in BodyPoints(c, es[n].body) || o in es[n].peg.deposits
    ensures !EverCreated(c, ms[n].history, o)
    ensures NoDuplicates(Points(BodyEntries(c, es[n].body)))
    ensures !(o in BodyPoints(c, es[n].body) && o in es[n].peg.deposits)
  {
    EveryFairRunIsTidy(c, ms, es, n);
    assert StepAt(c, ms, es, n);
    FairIsFresh(c, ms[n], es[n], ms[n + 1]);
    if o in BodyPoints(c, es[n].body) {
      FreshForTable(c, ms[n], es[n].body);
      PointsAreNotDeposits(c, es[n].body, o);
    } else {
      FreshDepositIsNew(c, ms[n], es[n], o);
    }
  }

  /**
   What goes wrong without the condition: a coinbase worth nothing on an empty block is
   accepted on any state, so the same block content can be connected again and makes the
   same outpoint.
   */
  lemma {:induction false} EmptyBlockRepeatsItsCoinbase(c: Crypto, m: Machine)
    ensures
      var body := Body([Output(Address(0), Value(0))], [], []);
      && BodyAccepted(c, m.node.ledger.utxos, body)
      && (body in m.history.bodies ==> !FreshBody(c, m.history, body))
      && BodyPoints(c, body) != {}
  {
    var body := Body([Output(Address(0), Value(0))], [], []);
    var o := Coinbase(c.merkleRoot(body.coinbase, []), 0);
    CoinbasePoint(c, body, o);
    PointsOfBody(c, body, o);
    assert body.coinbase[..0] == [];
    assert TotalValue(body.coinbase) == 0;
  }
}

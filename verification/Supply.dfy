/**
 The exact supply. The validator lets blocks repeat outpoints, but only worthless ones:
 whatever pays something spends something, and that cannot be spent again.
 */
module Supply {
  import opened Prelude
  import opened Types
  import opened Values
  import opened Bodies
  import opened Connection
  import opened Validation
  import opened Bundles
  import opened Pegs
  import opened Archives
  import opened Runs
  import opened Freshness

  /** Every output index fits in 32 bits. */
  predicate Narrow(body: Body) {
    && |body.coinbase| <= U32_LIMIT
    && forall i :: 0 <= i < |body.transactions| ==> |body.transactions[i].outputs| <= U32_LIMIT
  }

  /** The environment's part: new deposits, and no more outputs than can be numbered. */
  ghost predicate Orderly(m: Machine, e: Event) {
    e.Block? ==> Narrow(e.body) && FreshDeposits(m.history, e.peg)
  }

  ghost predicate OrderlyUpTo(ms: seq<Machine>, es: seq<Event>, n: nat) {
    n <= |es| && n < |ms| && forall i :: 0 <= i < n ==> Orderly(ms[i], es[i])
  }

  // ---------- What an outpoint names ----------

  /** The output that the id and the index of an outpoint commit to. */
  ghost predicate Names(c: Crypto, o: OutPoint, output: Output) {
    match o
    case Regular(txid, vout) =>
      exists t :: c.txid(t) == txid && vout < |t.outputs| && t.outputs[vout] == output
    case Coinbase(root, vout) =>
      exists cs, ts :: c.merkleRoot(cs, ts) == root && vout < |cs| && cs[vout] == output
    case Deposit(_, _) => false
  }

  lemma {:induction false} NamesOne(c: Crypto, o: OutPoint, x: Output, y: Output)
    requires c.TxidCollisionFree() && c.RootCollisionFree() && Names(c, o, x) && Names(c, o, y)
    ensures x == y
  {
  }

  lemma {:induction false} EntriesOfBody(c: Crypto, ts: seq<Transaction>, e: Entry) returns (i: nat)
    requires e in AllTransactionEntries(c, ts)
    ensures i < |ts| && e in TransactionEntries(c, ts[i])
  {
    var n := |ts| - 1;
    if e in TransactionEntries(c, ts[n]) {
      i := n;
    } else {
      i := EntriesOfBody(c, ts[..n], e);
    }
  }

  lemma {:induction false} EntryHasPoint(es: seq<Entry>, o: OutPoint, output: Output)
    requires (o, output) in es
    ensures o in Points(es)
  {
    var i :| 0 <= i < |es| && es[i] == (o, output);
    assert Points(es)[i] == o;
  }

  lemma {:induction false} EntryNames(c: Crypto, body: Body, o: OutPoint, output: Output)
    requires Narrow(body) && (o, output) in BodyEntries(c, body)
    ensures Names(c, o, output) && o in BodyPoints(c, body)
  {
    EntryHasPoint(BodyEntries(c, body), o, output);
    if (o, output) in CoinbaseEntries(c, body) {
      CoinbaseEntryNames(c, body, o, output);
    } else {
      var i := EntriesOfBody(c, body.transactions, (o, output));
      TransactionEntryNames(c, body.transactions[i], o, output);
    }
  }

  lemma {:induction false} CoinbaseEntryNames(c: Crypto, body: Body, o: OutPoint, output: Output)
    requires |body.coinbase| <= U32_LIMIT && (o, output) in CoinbaseEntries(c, body)
    ensures Names(c, o, output)
  {
    var cb := CoinbaseEntries(c, body);
    var k :| 0 <= k < |cb| && cb[k] == (o, output);
    assert c.merkleRoot(body.coinbase, body.transactions) == o.merkleRoot && o.vout == k;
  }

  lemma {:induction false} TransactionEntryNames(c: Crypto, t: Transaction, o: OutPoint, output: Output)
    requires |t.outputs| <= U32_LIMIT && (o, output) in TransactionEntries(c, t)
    ensures Names(c, o, output)
  {
    var k :| 0 <= k < |t.outputs| && TransactionEntries(c, t)[k] == (o, output);
    assert c.txid(t) == o.txid && o.vout == k;
  }

  /** The table of what a body makes, output by output: each at its index, under its id or root. */
  lemma {:induction false} MadeInPlainTerms(c: Crypto, body: Body, o: OutPoint, output: Output)
    requires c.TxidCollisionFree() && c.RootCollisionFree() && Narrow(body)
    ensures o in OutputTable(c, body) && OutputTable(c, body)[o] == output
       <==> MakesAt(c, body, o, output)
  {
    if o in OutputTable(c, body) {
      PutHolds(map[], BodyEntries(c, body), o);
      EntryMade(c, body, o, OutputTable(c, body)[o]);
    }
    if MakesAt(c, body, o, output) {
      MadeEntry(c, body, o, output);
      EntryHasPoint(BodyEntries(c, body), o, output);
      PutIsUnion(map[], BodyEntries(c, body));
      PutHolds(map[], BodyEntries(c, body), o);
      EntryNames(c, body, o, output);
      EntryNames(c, body, o, OutputTable(c, body)[o]);
      NamesOne(c, o, output, OutputTable(c, body)[o]);
    }
  }

  ghost predicate MakesAt(c: Crypto, body: Body, o: OutPoint, output: Output) {
    || (exists k :: 0 <= k < |body.coinbase| && o.Coinbase? && body.coinbase[k] == output
          && o.merkleRoot == c.merkleRoot(body.coinbase, body.transactions) && o.vout == k)
    || (exists j, k :: 0 <= j < |body.transactions| && 0 <= k < |body.transactions[j].outputs| && o.Regular?
          && o.txid == c.txid(body.transactions[j]) && o.vout == k && body.transactions[j].outputs[k] == output)
  }

  lemma {:induction false} EntryMade(c: Crypto, body: Body, o: OutPoint, output: Output)
    requires Narrow(body) && (o, output) in BodyEntries(c, body)
    ensures MakesAt(c, body, o, output)
  {
    if (o, output) in CoinbaseEntries(c, body) {
      var k :| 0 <= k < |body.coinbase| && CoinbaseEntries(c, body)[k] == (o, output);
      assert o.vout == k;
    } else {
      var j := EntriesOfBody(c, body.transactions, (o, output));
      var t := body.transactions[j];
      var k :| 0 <= k < |t.outputs| && TransactionEntries(c, t)[k] == (o, output);
      assert o.vout == k;
    }
  }

  lemma {:induction false} MadeEntry(c: Crypto, body: Body, o: OutPoint, output: Output)
    requires Narrow(body) && MakesAt(c, body, o, output)
    ensures (o, output) in BodyEntries(c, body)
  {
    if o.Coinbase? {
      var k :| 0 <= k < |body.coinbase| && body.coinbase[k] == output && o.vout == k;
      assert CoinbaseEntries(c, body)[k] == (o, output);
    } else {
      var j, k :| 0 <= j < |body.transactions| && 0 <= k < |body.transactions[j].outputs|
        && o.txid == c.txid(body.transactions[j]) && o.vout == k && body.transactions[j].outputs[k] == output;
      assert TransactionEntries(c, body.transactions[j])[k] == (o, output);
      EntryOfOne(c, body.transactions, j, (o, output));
    }
  }

  lemma {:induction false} EntryOfOne(c: Crypto, ts: seq<Transaction>, j: nat, e: Entry)
    requires j < |ts| && e in TransactionEntries(c, ts[j])
    ensures e in AllTransactionEntries(c, ts)
  {
    if j < |ts| - 1 {
      EntryOfOne(c, ts[..|ts| - 1], j, e);
    }
  }

  // ---------- What pays something is new ----------

  lemma {:induction false} WorthInTotal(outputs: seq<Output>, k: nat)
    requires k < |outputs|
    ensures outputs[k].GetValue() <= TotalValue(outputs)
  {
    if k < |outputs| - 1 {
      WorthInTotal(outputs[..|outputs| - 1], k);
    }
  }

  lemma {:induction false} WorthyInput(utxos: Utxos, inputs: seq<OutPoint>) returns (o: OutPoint)
    requires InputValue(utxos, inputs) > 0
    ensures o in inputs && ValueAt(utxos, o) > 0
  {
    var n := |inputs| - 1;
    if ValueAt(utxos, inputs[n]) > 0 {
      o := inputs[n];
    } else {
      o := WorthyInput(utxos, inputs[..n]);
    }
  }

  /** Nothing of worth in the table was ever spent. */
  ghost predicate Unspent(utxos: Utxos, h: History) {
    forall o :: o in utxos && utxos[o].GetValue() > 0 ==> !EverSpent(h, o)
  }

  lemma {:induction false} PayerIsNew(c: Crypto, utxos: Utxos, h: History, body: Body, t: Transaction, b: Body)
    requires Unspent(utxos, h) && BodyAccepted(c, utxos, body) && b in h.bodies
    requires t in body.transactions && TotalValue(t.outputs) > 0
    ensures t !in b.transactions
  {
    var i :| 0 <= i < |body.transactions| && body.transactions[i] == t;
    assert Balanced(utxos, t);
    var o := WorthyInput(utxos, t.inputs);
    if t in b.transactions {
      InputWasSpent(h, b, t, o);
    }
  }

  lemma {:induction false} PayingBodyIsNew(c: Crypto, utxos: Utxos, h: History, body: Body, b: Body)
    requires Unspent(utxos, h) && BodyAccepted(c, utxos, body) && b in h.bodies
    requires TotalValue(body.coinbase) > 0
    ensures !SameContent(b, body)
  {
    var o := WorthyInput(utxos, AllInputs(body.transactions));
    assert o in BodyInputs(body) && !EverSpent(h, o);
    assert o !in BodyInputs(b);
  }

  /** An output worth something stands at an outpoint that no body created before. */
  lemma {:induction false} WorthIsNew(
    c: Crypto, utxos: Utxos, h: History, body: Body, o: OutPoint, output: Output)
    requires c.TxidCollisionFree() && c.RootCollisionFree()
    requires Unspent(utxos, h) && BodyAccepted(c, utxos, body)
    requires (o, output) in BodyEntries(c, body) && output.GetValue() > 0
    ensures !CreatedByBody(c, h, o)
  {
    forall b | b in h.bodies ensures o !in BodyPoints(c, b) {
      PointsOfBody(c, b, o);
      CoinbasePoint(c, b, o);
      if (o, output) in CoinbaseEntries(c, body) {
        CoinbaseWorth(c, body, o, output);
        PayingBodyIsNew(c, utxos, h, body, b);
        forall u | u in b.transactions ensures o !in Points(TransactionEntries(c, u)) {
          NotOfTransaction(c, u, o);
        }
      } else {
        var i := EntriesOfBody(c, body.transactions, (o, output));
        TransactionWorth(c, body.transactions[i], o, output);
        PayerIsNew(c, utxos, h, body, body.transactions[i], b);
        forall u | u in b.transactions ensures o !in Points(TransactionEntries(c, u)) {
          NotOfOther(c, body.transactions[i], u, o);
        }
      }
    }
  }

  lemma {:induction false} CoinbaseWorth(c: Crypto, body: Body, o: OutPoint, output: Output)
    requires (o, output) in CoinbaseEntries(c, body)
    ensures o.Coinbase? && o.merkleRoot == c.merkleRoot(body.coinbase, body.transactions)
    ensures output.GetValue() <= TotalValue(body.coinbase)
  {
    var k :| 0 <= k < |body.coinbase| && CoinbaseEntries(c, body)[k] == (o, output);
    WorthInTotal(body.coinbase, k);
  }

  lemma {:induction false} TransactionWorth(c: Crypto, t: Transaction, o: OutPoint, output: Output)
    requires (o, output) in TransactionEntries(c, t)
    ensures o.Regular? && o.txid == c.txid(t) && output.GetValue() <= TotalValue(t.outputs)
  {
    var k :| 0 <= k < |t.outputs| && TransactionEntries(c, t)[k] == (o, output);
    WorthInTotal(t.outputs, k);
  }

  lemma {:induction false} NotOfTransaction(c: Crypto, u: Transaction, o: OutPoint)
    requires o.Coinbase?
    ensures o !in Points(TransactionEntries(c, u))
  {
  }

  lemma {:induction false} NotOfOther(c: Crypto, t: Transaction, u: Transaction, o: OutPoint)
    requires c.TxidCollisionFree() && o.Regular? && o.txid == c.txid(t) && t != u
    ensures o !in Points(TransactionEntries(c, u))
  {
  }

  // ---------- What repeats within a body is worthless ----------

  lemma {:induction false} OverwritesAppend(a: seq<Entry>, b: seq<Entry>)
    requires OverwritesWorthless(a) && OverwritesWorthless(b)
    requires forall o: OutPoint, x: Output :: (o, x) in a && o in Points(b) ==> x.GetValue() == 0
    ensures OverwritesWorthless(a + b)
  {
    var es := a + b;
    forall i, j | 0 <= i < j < |es| && es[i].0 == es[j].0 ensures es[i].1.GetValue() == 0 {
      if i < |a| <= j {
        assert (es[i].0, es[i].1) in a && Points(b)[j - |a|] == es[j].0;
      }
    }
  }

  lemma {:induction false} DistinctOverwritesNothing(es: seq<Entry>)
    requires NoDuplicates(Points(es))
    ensures OverwritesWorthless(es)
  {
    forall i, j | 0 <= i < j < |es| ensures es[i].0 != es[j].0 {
      assert Points(es)[i] != Points(es)[j];
    }
  }

  lemma {:induction false} TransactionsOverwriteWorthless(c: Crypto, utxos: Utxos, ts: seq<Transaction>)
    requires c.TxidCollisionFree() && NoDuplicates(AllInputs(ts))
    requires forall i :: 0 <= i < |ts| ==> Balanced(utxos, ts[i]) && |ts[i].outputs| <= U32_LIMIT
    ensures OverwritesWorthless(AllTransactionEntries(c, ts))
  {
    if |ts| > 0 {
      var n := |ts| - 1;
      var made, own := AllTransactionEntries(c, ts[..n]), TransactionEntries(c, ts[n]);
      NoDuplicatesSplit(AllInputs(ts[..n]), ts[n].inputs);
      TransactionsOverwriteWorthless(c, utxos, ts[..n]);
      DistinctEntries(Regular(c.txid(ts[n]), 0), ts[n].outputs);
      DistinctOverwritesNothing(own);
      forall o: OutPoint, x: Output | (o, x) in made && o in Points(own) ensures x.GetValue() == 0 {
        PointNamesTransaction(c, ts[n], o);
        var i := EntriesOfBody(c, ts[..n], (o, x));
        TransactionWorth(c, ts[i], o, x);
        if ts[i].inputs != [] {
          RepeatedSpender(ts, i, n);
        }
      }
      OverwritesAppend(made, own);
    }
  }

  lemma {:induction false} BodyOverwritesWorthless(c: Crypto, utxos: Utxos, body: Body)
    requires c.TxidCollisionFree() && BodyAccepted(c, utxos, body) && Narrow(body)
    ensures OverwritesWorthless(BodyEntries(c, body))
  {
    var cb, made := CoinbaseEntries(c, body), AllTransactionEntries(c, body.transactions);
    TransactionsOverwriteWorthless(c, utxos, body.transactions);
    DistinctEntries(Coinbase(c.merkleRoot(body.coinbase, body.transactions), 0), body.coinbase);
    DistinctOverwritesNothing(cb);
    forall o: OutPoint, x: Output | (o, x) in cb ensures o !in Points(made) {
      CoinbaseWorth(c, body, o, x);
      PointsMembership(c, body.transactions, o);
    }
    OverwritesAppend(cb, made);
  }

  // ---------- The invariant ----------

  /** An entry is a credited deposit, or the output its outpoint names, made by some body. */
  ghost predicate Known(c: Crypto, h: History, o: OutPoint, output: Output) {
    if o.Deposit? then o in h.deposits else CreatedByBody(c, h, o) && Names(c, o, output)
  }

  ghost predicate SoundTable(c: Crypto, utxos: Utxos, h: History) {
    && Unspent(utxos, h)
    && forall o :: o in utxos ==> Known(c, h, o, utxos[o])
  }

  function Held(ledger: Ledger): Utxos {
    if ledger.pending.Some? then ledger.pending.value.spentUtxos else map[]
  }

  /** Nothing of worth is both in the table and pending. */
  ghost predicate SoundLedger(c: Crypto, ledger: Ledger, h: History) {
    && SoundTable(c, ledger.utxos, h) && SoundTable(c, Held(ledger), h)
    && forall o :: o in ledger.utxos && o in Held(ledger) ==>
         ledger.utxos[o].GetValue() == Held(ledger)[o].GetValue() == 0
  }

  ghost predicate Sound(c: Crypto, m: Machine) {
    && (forall o :: o in m.history.deposits ==> o.Deposit?)
    && (forall o :: EverSpent(m.history, o) ==> EverCreated(c, m.history, o))
    && SoundLedger(c, m.node.ledger, m.history)
  }

  ghost predicate AcceptedBlock(c: Crypto, m: Machine, e: Event) {
    && c.TxidCollisionFree() && c.RootCollisionFree()
    && e.Block? && Orderly(m, e) && BodyAccepted(c, m.node.ledger.utxos, e.body)
    && Height(m.node.chain) + 1 < U32_LIMIT
  }

  lemma {:induction false} InputsInTable(c: Crypto, utxos: Utxos, body: Body)
    requires BodyAccepted(c, utxos, body)
    ensures BodyInputs(body) <= utxos.Keys
  {
    forall o | o in BodyInputs(body) ensures o in utxos {
      var i :| 0 <= i < |AllInputs(body.transactions)| && AllInputs(body.transactions)[i] == o;
    }
  }

  /** What a body makes at an outpoint already known is what is there, and worthless. */
  lemma {:induction false} RemadeIsWorthless(c: Crypto, m: Machine, e: Event, o: OutPoint, output: Output, x: Output)
    requires Sound(c, m) && AcceptedBlock(c, m, e)
    requires (o, output) in BodyEntries(c, e.body) && Known(c, m.history, o, x)
    ensures output == x && x.GetValue() == 0
  {
    EntryNames(c, e.body, o, output);
    NamesOne(c, o, output, x);
    if output.GetValue() > 0 {
      WorthIsNew(c, m.node.ledger.utxos, m.history, e.body, o, output);
    }
  }

  lemma {:induction false} BlockLosesNothing(c: Crypto, m: Machine, e: Event)
    requires Sound(c, m) && AcceptedBlock(c, m, e)
    ensures LosesNothing(c, m.node.ledger.utxos, e.body)
  {
    var utxos := m.node.ledger.utxos;
    BodyOverwritesWorthless(c, utxos, e.body);
    forall o, output | (o, output) in BodyEntries(c, e.body) && o in utxos
      ensures output.GetValue() == utxos[o].GetValue() == 0
    {
      RemadeIsWorthless(c, m, e, o, output, utxos[o]);
    }
  }

  lemma {:induction false} KnownStays(c: Crypto, m: Machine, e: Event, o: OutPoint, output: Output)
    requires AcceptedBlock(c, m, e)
    ensures Known(c, m.history, o, output) ==> Known(c, Record(c, m, e), o, output)
    ensures (o, output) in BodyEntries(c, e.body) ==> Known(c, Record(c, m, e), o, output)
  {
    HistoryGrows(c, m, e, o);
    if (o, output) in BodyEntries(c, e.body) {
      EntryNames(c, e.body, o, output);
    }
  }

  /** What a body makes of worth was never spent, nor does the body itself spend it. */
  lemma {:induction false} MadeIsUnspent(c: Crypto, m: Machine, e: Event, o: OutPoint, output: Output)
    requires Sound(c, m) && AcceptedBlock(c, m, e)
    requires (o, output) in BodyEntries(c, e.body) && output.GetValue() > 0
    ensures !EverSpent(Record(c, m, e), o)
  {
    HistoryGrows(c, m, e, o);
    EntryNames(c, e.body, o, output);
    WorthIsNew(c, m.node.ledger.utxos, m.history, e.body, o, output);
    InputsInTable(c, m.node.ledger.utxos, e.body);
    BlockLosesNothing(c, m, e);
  }

  lemma {:induction false} ConnectedEntryIsSound(c: Crypto, m: Machine, e: Event, o: OutPoint)
    requires Sound(c, m) && AcceptedBlock(c, m, e) && o in Connected(c, m.node, e).utxos
    ensures
      var output := Connected(c, m.node, e).utxos[o];
      && Known(c, Record(c, m, e), o, output)
      && (output.GetValue() > 0 ==> !EverSpent(Record(c, m, e), o))
      && (o in Held(m.node.ledger) ==> output.GetValue() == Held(m.node.ledger)[o].GetValue() == 0)
  {
    var output := Connected(c, m.node, e).utxos[o];
    ConnectedHolds(c, m.node.ledger.utxos, e.body, o);
    KnownStays(c, m, e, o, output);
    HistoryGrows(c, m, e, o);
    if (o, output) in BodyEntries(c, e.body) {
      if output.GetValue() > 0 {
        MadeIsUnspent(c, m, e, o, output);
      }
      if o in Held(m.node.ledger) {
        RemadeIsWorthless(c, m, e, o, output, Held(m.node.ledger)[o]);
      }
    }
  }

  lemma {:induction false} HeldStaysSound(c: Crypto, m: Machine, e: Event)
    requires Sound(c, m) && AcceptedBlock(c, m, e)
    ensures SoundTable(c, Held(m.node.ledger), Record(c, m, e))
  {
    InputsInTable(c, m.node.ledger.utxos, e.body);
    var held := Held(m.node.ledger);
    forall o | o in held
      ensures Known(c, Record(c, m, e), o, held[o])
      ensures held[o].GetValue() > 0 ==> !EverSpent(Record(c, m, e), o)
    {
      KnownStays(c, m, e, o, held[o]);
      HistoryGrows(c, m, e, o);
    }
  }

  lemma {:induction false} ConnectedIsSound(c: Crypto, m: Machine, e: Event)
    requires Sound(c, m) && AcceptedBlock(c, m, e)
    ensures SoundLedger(c, Connected(c, m.node, e), Record(c, m, e))
  {
    HeldStaysSound(c, m, e);
    forall o | o in Connected(c, m.node, e).utxos
      ensures Known(c, Record(c, m, e), o, Connected(c, m.node, e).utxos[o])
      ensures Connected(c, m.node, e).utxos[o].GetValue() > 0 ==> !EverSpent(Record(c, m, e), o)
      ensures o in Held(m.node.ledger) ==>
        Connected(c, m.node, e).utxos[o].GetValue() == Held(m.node.ledger)[o].GetValue() == 0
    {
      ConnectedEntryIsSound(c, m, e, o);
    }
  }

  lemma {:induction false} DepositsWereNotCreated(c: Crypto, h: History, o: OutPoint)
    requires o.Deposit?
    ensures EverCreated(c, h, o) <==> o in h.deposits
  {
    if b :| b in h.bodies && o in BodyPoints(c, b) {
      PointsAreNotDeposits(c, b, o);
    }
  }

  lemma {:induction false} DepositIsNew(c: Crypto, m: Machine, e: Event, o: OutPoint)
    requires Sound(c, m) && AcceptedBlock(c, m, e) && o in e.peg.deposits
    ensures o !in Connected(c, m.node, e).utxos && o !in Held(m.node.ledger)
    ensures !EverSpent(Record(c, m, e), o)
  {
    DepositsWereNotCreated(c, m.history, o);
    HistoryGrows(c, m, e, o);
    InputsInTable(c, m.node.ledger.utxos, e.body);
    if o in Connected(c, m.node, e).utxos {
      ConnectedHolds(c, m.node.ledger.utxos, e.body, o);
      if (o, Connected(c, m.node, e).utxos[o]) in BodyEntries(c, e.body) {
        EntryNames(c, e.body, o, Connected(c, m.node, e).utxos[o]);
      }
    }
  }

  lemma {:induction false} CreditedIsSound(c: Crypto, m: Machine, e: Event)
    requires Sound(c, m) && AcceptedBlock(c, m, e)
    ensures SoundLedger(c, Credit(Connected(c, m.node, e), e.peg), Record(c, m, e))
  {
    ConnectedIsSound(c, m, e);
    forall o | o in e.peg.deposits
      ensures o !in Held(m.node.ledger) && !EverSpent(Record(c, m, e), o)
      ensures Known(c, Record(c, m, e), o, e.peg.deposits[o])
    {
      DepositIsNew(c, m, e, o);
    }
  }

  /** A collected bundle is a part of the table. */
  ghost predicate PartOf(utxos: Utxos, collected: Option<WithdrawalBundle>) {
    collected.Some? ==> collected.value.spentUtxos == Restrict(utxos, collected.value.spentUtxos.Keys)
  }

  lemma {:induction false} WithdrawnIsSound(
    c: Crypto, ledger: Ledger, h: History, collected: Option<WithdrawalBundle>)
    requires SoundLedger(c, ledger, h) && PartOf(ledger.utxos, collected)
    ensures SoundLedger(c, Withdraw(ledger, collected), h)
  {
  }

  lemma {:induction false} SettledIsSound(
    c: Crypto, ledger: Ledger, h: History, statuses: map<Hash, WithdrawalBundleStatus>, height: u32)
    requires SoundLedger(c, ledger, h)
    ensures SoundLedger(c, SettleAll(c, ledger, statuses, height), h)
  {
  }

  /** Settling gains and loses nothing when the table holds nothing of worth that is pending. */
  lemma {:induction false} SettlingConservesValue(
    c: Crypto, ledger: Ledger, statuses: map<Hash, WithdrawalBundleStatus>, height: u32)
    requires forall o :: o in ledger.utxos && o in Held(ledger) ==> ledger.utxos[o].GetValue() == 0
    ensures
      var after, status := SettleAll(c, ledger, statuses, height), ReportedStatus(c, ledger, statuses);
      ValueOf(after.utxos) + PendingValue(after) + (if status == Some(Confirmed) then PendingValue(ledger) else 0)
      == ValueOf(ledger.utxos) + PendingValue(ledger)
  {
    ValueOfWorthlessOverlap(ledger.utxos, Held(ledger));
  }

  // ---------- Over whole runs ----------

  lemma {:induction false} SpentWasCreated(c: Crypto, m: Machine, e: Event, o: OutPoint)
    requires Sound(c, m) && AcceptedBlock(c, m, e) && EverSpent(Record(c, m, e), o)
    ensures EverCreated(c, Record(c, m, e), o)
  {
    HistoryGrows(c, m, e, o);
    InputsInTable(c, m.node.ledger.utxos, e.body);
  }

  /** What a block step does to the ledger, and to its value up to the statuses. */
  lemma {:induction false} StagesOfStep(c: Crypto, m: Machine, e: Event, m': Machine)
    requires e.Block? && Step(c, m, e, m')
    ensures Height(m.node.chain) + 1 < U32_LIMIT && BodyAccepted(c, m.node.ledger.utxos, e.body)
    ensures m'.node.ledger
         == SettleAll(c, Withdrawn(c, m.node, e), e.peg.bundleStatuses, Height(m.node.chain) + 1)
    ensures
      var credited := Credit(Connected(c, m.node, e), e.peg);
      && PartOf(credited.utxos, e.collected)
      && ValueOf(Withdrawn(c, m.node, e).utxos) + PendingValue(Withdrawn(c, m.node, e))
         == ValueOf(credited.utxos) + PendingValue(credited)
  {
    var credited, height := Credit(Connected(c, m.node, e), e.peg), Height(m.node.chain) + 1;
    CollectingConservesValue(c, credited, height, e.collected);
    if e.collected.Some? {
      BundleSpendsWithdrawals(c, credited.utxos, height, e.collected.value);
    }
  }

  lemma {:induction false} WithdrawnStepIsSound(c: Crypto, m: Machine, e: Event)
    requires Sound(c, m) && AcceptedBlock(c, m, e)
    requires PartOf(Credit(Connected(c, m.node, e), e.peg).utxos, e.collected)
    ensures SoundLedger(c, Withdrawn(c, m.node, e), Record(c, m, e))
  {
    CreditedIsSound(c, m, e);
    WithdrawnIsSound(c, Credit(Connected(c, m.node, e), e.peg), Record(c, m, e), e.collected);
  }

  /** One block's statuses keep the ledger sound and its value what it was. */
  lemma {:induction false} SettledStep(c: Crypto, m: Machine, e: Event)
    requires Sound(c, m) && AcceptedBlock(c, m, e)
    requires PartOf(Credit(Connected(c, m.node, e), e.peg).utxos, e.collected)
    ensures
      var before := Withdrawn(c, m.node, e);
      var after := SettleAll(c, before, e.peg.bundleStatuses, Height(m.node.chain) + 1);
      && SoundLedger(c, after, Record(c, m, e))
      && ValueOf(after.utxos) + PendingValue(after)
           + (if Reported(c, m.node, e) == Some(Confirmed) then PendingValue(before) else 0)
         == ValueOf(before.utxos) + PendingValue(before)
  {
    WithdrawnStepIsSound(c, m, e);
    var before, h := Withdrawn(c, m.node, e), Record(c, m, e);
    SettledIsSound(c, before, h, e.peg.bundleStatuses, Height(m.node.chain) + 1);
    SettlingConservesValue(c, before, e.peg.bundleStatuses, Height(m.node.chain) + 1);
  }

  lemma {:induction false} StepKeepsSound(c: Crypto, m: Machine, e: Event, m': Machine)
    requires c.TxidCollisionFree() && c.RootCollisionFree() && Sound(c, m) && Step(c, m, e, m') && Orderly(m, e)
    ensures Sound(c, m')
  {
    if e.Block? {
      StagesOfStep(c, m, e, m');
      SettledStep(c, m, e);
      forall o | EverSpent(m'.history, o) ensures EverCreated(c, m'.history, o) {
        SpentWasCreated(c, m, e, o);
      }
    }
  }

  lemma {:induction false} CreditingConservesValue(c: Crypto, m: Machine, e: Event)
    requires Sound(c, m) && AcceptedBlock(c, m, e)
    ensures ValueOf(Credit(Connected(c, m.node, e), e.peg).utxos) + Fees(m.node.ledger.utxos, e.body.transactions)
         == ValueOf(m.node.ledger.utxos) + TotalValue(e.body.coinbase) + ValueOf(e.peg.deposits)
  {
    BlockLosesNothing(c, m, e);
    InputsInTable(c, m.node.ledger.utxos, e.body);
    ConnectConservesValue(c, m.node.ledger.utxos, e.body);
    var connected := Connected(c, m.node, e).utxos;
    forall o | o in e.peg.deposits ensures o !in connected {
      DepositIsNew(c, m, e, o);
    }
    ValueOfDisjointUnion(connected, e.peg.deposits);
  }

  lemma {:induction false} StepConservesSupply(c: Crypto, m: Machine, e: Event, m': Machine)
    requires c.TxidCollisionFree() && c.RootCollisionFree() && Sound(c, m) && Step(c, m, e, m') && Orderly(m, e)
    requires Accounted(m) == m.history.deposited
    ensures Accounted(m') == m'.history.deposited
  {
    if e.Block? {
      StagesOfStep(c, m, e, m');
      CreditingConservesValue(c, m, e);
      SettledStep(c, m, e);
    }
  }

  /** In every run nothing of worth that was ever spent is in the table or pending. */
  lemma {:induction false} EveryRunIsSound(c: Crypto, ms: seq<Machine>, es: seq<Event>, n: nat)
    requires c.TxidCollisionFree() && c.RootCollisionFree() && IsRun(c, ms, es) && OrderlyUpTo(ms, es, n)
    ensures Sound(c, ms[n])
  {
    if n > 0 {
      EveryRunIsSound(c, ms, es, n - 1);
      assert StepAt(c, ms, es, n - 1);
      StepKeepsSound(c, ms[n - 1], es[n - 1], ms[n]);
    }
  }

  /**
   In every run whose deposits are new the account is exact, whatever its blocks repeat:
   nothing deposited is ever lost.
   */
  lemma {:induction false} SupplyEqualsDeposits(c: Crypto, ms: seq<Machine>, es: seq<Event>, n: nat)
    requires c.TxidCollisionFree() && c.RootCollisionFree() && IsRun(c, ms, es) && OrderlyUpTo(ms, es, n)
    ensures Accounted(ms[n]) == ms[n].history.deposited
  {
    if n > 0 {
      SupplyEqualsDeposits(c, ms, es, n - 1);
      EveryRunIsSound(c, ms, es, n - 1);
      assert StepAt(c, ms, es, n - 1);
      StepConservesSupply(c, ms[n - 1], es[n - 1], ms[n]);
    }
  }

  /** No outpoint worth something is ever created twice: neither before the block nor in it. */
  lemma {:induction false} NothingOfWorthIsCreatedTwice(
    c: Crypto, ms: seq<Machine>, es: seq<Event>, n: nat, i: nat)
    requires c.TxidCollisionFree() && c.RootCollisionFree() && IsRun(c, ms, es)
    requires n < |es| && OrderlyUpTo(ms, es, n + 1) && es[n].Block? && i < |BodyEntries(c, es[n].body)|
    requires BodyEntries(c, es[n].body)[i].1.GetValue() > 0
    ensures !EverCreated(c, ms[n].history, BodyEntries(c, es[n].body)[i].0)
    ensures forall j :: 0 <= j < |BodyEntries(c, es[n].body)| && j != i ==>
      BodyEntries(c, es[n].body)[j].0 != BodyEntries(c, es[n].body)[i].0
  {
    var body, entries := es[n].body, BodyEntries(c, es[n].body);
    var o, output := entries[i].0, entries[i].1;
    EveryRunIsSound(c, ms, es, n);
    assert StepAt(c, ms, es, n);
    assert (o, output) in entries;
    WorthIsNew(c, ms[n].node.ledger.utxos, ms[n].history, body, o, output);
    EntryNames(c, body, o, output);
    BodyOverwritesWorthless(c, ms[n].node.ledger.utxos, body);
    forall j | 0 <= j < |entries| && j != i ensures entries[j].0 != o {
      if entries[j].0 == o {
        assert (o, entries[j].1) in entries;
        EntryNames(c, body, o, entries[j].1);
        NamesOne(c, o, output, entries[j].1);
      }
    }
  }
}

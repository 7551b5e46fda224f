/** What connecting a body does to the UTXO table, for every body and table. */
module Connection {
  import opened Prelude
  import opened Types
  import opened Values
  import opened Bodies

  /** The value the table holds at an outpoint, nothing when it has no entry. */
  function ValueAt(utxos: Utxos, o: OutPoint): nat {
    if o in utxos then utxos[o].GetValue() else 0
  }

  function InputValue(utxos: Utxos, inputs: seq<OutPoint>): nat {
    if |inputs| == 0 then 0
    else InputValue(utxos, inputs[..|inputs| - 1]) + ValueAt(utxos, inputs[|inputs| - 1])
  }

  function OutputValue(ts: seq<Transaction>): nat {
    if |ts| == 0 then 0
    else OutputValue(ts[..|ts| - 1]) + TotalValue(ts[|ts| - 1].outputs)
  }

  function BodyInputs(body: Body): set<OutPoint> { Elements(AllInputs(body.transactions)) }

  function BodyPoints(c: Crypto, body: Body): set<OutPoint> { Elements(Points(BodyEntries(c, body))) }

  function OutputTable(c: Crypto, body: Body): Utxos { Put(map[], BodyEntries(c, body)) }

  lemma {:induction false} InputsMembership(ts: seq<Transaction>, o: OutPoint)
    ensures o in AllInputs(ts) <==> exists t :: t in ts && o in t.inputs
  {
    if |ts| > 0 {
      InputsMembership(ts[..|ts| - 1], o);
      assert ts == ts[..|ts| - 1] + [ts[|ts| - 1]];
    }
  }

  lemma {:induction false} PointsAppend(a: seq<Entry>, b: seq<Entry>)
    ensures Points(a + b) == Points(a) + Points(b)
    ensures Outputs(a + b) == Outputs(a) + Outputs(b)
    ensures Elements(Points(a + b)) == Elements(Points(a)) + Elements(Points(b))
  {
    assert Points(a + b) == Points(a) + Points(b);
  }

  lemma {:induction false} PointsMembership(c: Crypto, ts: seq<Transaction>, o: OutPoint)
    ensures o in Points(AllTransactionEntries(c, ts))
       <==> exists t :: t in ts && o in Points(TransactionEntries(c, t))
  {
    if |ts| > 0 {
      var init, t := ts[..|ts| - 1], ts[|ts| - 1];
      PointsMembership(c, init, o);
      PointsAppend(AllTransactionEntries(c, init), TransactionEntries(c, t));
      assert ts == init + [t];
    }
  }

  // ---------- The set form ----------

  lemma {:induction false} DeletePut(utxos: Utxos, made: Utxos, gone: set<OutPoint>)
    requires gone !! made.Keys
    ensures (utxos + made) - gone == (utxos - gone) + made
  {
  }

  lemma {:induction false} UnionAssociates(a: Utxos, b: Utxos, c: Utxos)
    ensures a + b + c == a + (b + c)
  {
  }

  lemma {:induction false} TransactionsSetForm(c: Crypto, utxos: Utxos, ts: seq<Transaction>)
    requires Elements(AllInputs(ts)) !! Elements(Points(AllTransactionEntries(c, ts)))
    ensures ConnectTransactions(c, utxos, ts)
         == (utxos - Elements(AllInputs(ts))) + Put(map[], AllTransactionEntries(c, ts))
  {
    if |ts| > 0 {
      var init, t := ts[..|ts| - 1], ts[|ts| - 1];
      var made, own := AllTransactionEntries(c, init), TransactionEntries(c, t);
      PointsAppend(made, own);
      assert Elements(AllInputs(ts)) == Elements(AllInputs(init)) + Elements(t.inputs);
      TransactionsSetForm(c, utxos, init);
      PutIsUnion(map[], made);
      var left := ConnectTransactions(c, utxos, init) - Elements(t.inputs);
      DeletePut(utxos - Elements(AllInputs(init)), Put(map[], made), Elements(t.inputs));
      assert utxos - Elements(AllInputs(init)) - Elements(t.inputs) == utxos - Elements(AllInputs(ts));
      PutAppend(map[], made, own);
      PutIsUnion(left, own);
      PutIsUnion(Put(map[], made), own);
      UnionAssociates(utxos - Elements(AllInputs(ts)), Put(map[], made), Put(map[], own));
    }
  }

  /**
   When no outpoint the body creates is one it spends, the interleaved deletes and puts
   come to removing all inputs and adding all outputs at once.
   */
  lemma {:induction false} ConnectIsSetForm(c: Crypto, utxos: Utxos, body: Body)
    requires BodyInputs(body) !! BodyPoints(c, body)
    ensures ConnectedUtxos(c, utxos, body) == (utxos - BodyInputs(body)) + OutputTable(c, body)
  {
    var cb, made := CoinbaseEntries(c, body), AllTransactionEntries(c, body.transactions);
    PointsAppend(cb, made);
    TransactionsSetForm(c, Put(utxos, cb), body.transactions);
    PutIsUnion(utxos, cb);
    PutAppend(map[], cb, made);
    PutIsUnion(Put(map[], cb), made);
    DeletePut(utxos, Put(map[], cb), BodyInputs(body));
    UnionAssociates(utxos - BodyInputs(body), Put(map[], cb), Put(map[], made));
  }

  /** Under collision-free ids, what a transaction creates does not depend on its neighbours. */
  lemma {:induction false} EntryOfTransaction(c: Crypto, ts: seq<Transaction>, i: nat, o: OutPoint)
    requires c.TxidCollisionFree() && i < |ts|
    requires o in Points(TransactionEntries(c, ts[i]))
    ensures o in Put(map[], AllTransactionEntries(c, ts))
    ensures o in Put(map[], TransactionEntries(c, ts[i]))
    ensures Put(map[], AllTransactionEntries(c, ts))[o] == Put(map[], TransactionEntries(c, ts[i]))[o]
  {
    var init, t := ts[..|ts| - 1], ts[|ts| - 1];
    var made, own := AllTransactionEntries(c, init), TransactionEntries(c, t);
    PutAppend(map[], made, own);
    PutIsUnion(Put(map[], made), own);
    PutIsUnion(map[], TransactionEntries(c, ts[i]));
    if o in Points(own) {
      assert c.txid(t) == o.txid == c.txid(ts[i]);
    } else {
      assert ts[i] == init[i];
      EntryOfTransaction(c, init, i, o);
    }
  }

  /**
   Reordering a body's transactions changes the connected table at the coinbase
   outpoints only, whose merkle root commits to the order.
   */
  lemma {:induction false} ReorderingKeepsTable(c: Crypto, utxos: Utxos, a: Body, b: Body)
    requires c.TxidCollisionFree()
    requires multiset(a.transactions) == multiset(b.transactions)
    requires BodyInputs(a) !! BodyPoints(c, a) && BodyInputs(b) !! BodyPoints(c, b)
    ensures
      var coinbases := Elements(Points(CoinbaseEntries(c, a))) + Elements(Points(CoinbaseEntries(c, b)));
      ConnectedUtxos(c, utxos, a) - coinbases == ConnectedUtxos(c, utxos, b) - coinbases
  {
    assert forall t :: t in a.transactions <==> t in multiset(a.transactions);
    assert forall t :: t in b.transactions <==> t in multiset(b.transactions);
    var coinbases := Elements(Points(CoinbaseEntries(c, a))) + Elements(Points(CoinbaseEntries(c, b)));
    forall o | o !in coinbases
      ensures o in ConnectedUtxos(c, utxos, a) <==> o in ConnectedUtxos(c, utxos, b)
      ensures o in ConnectedUtxos(c, utxos, a) ==> ConnectedUtxos(c, utxos, a)[o] == ConnectedUtxos(c, utxos, b)[o]
    {
      SameAwayFromCoinbase(c, utxos, a, b, o);
    }
  }

  lemma {:induction false} SameAwayFromCoinbase(c: Crypto, utxos: Utxos, a: Body, b: Body, o: OutPoint)
    requires c.TxidCollisionFree()
    requires forall t :: t in a.transactions <==> t in b.transactions
    requires BodyInputs(a) !! BodyPoints(c, a) && BodyInputs(b) !! BodyPoints(c, b)
    requires o !in Points(CoinbaseEntries(c, a)) && o !in Points(CoinbaseEntries(c, b))
    ensures o in ConnectedUtxos(c, utxos, a) <==> o in ConnectedUtxos(c, utxos, b)
    ensures o in ConnectedUtxos(c, utxos, a) ==> ConnectedUtxos(c, utxos, a)[o] == ConnectedUtxos(c, utxos, b)[o]
  {
    LookupConnected(c, utxos, a, o);
    LookupConnected(c, utxos, b, o);
    InputsMembership(a.transactions, o);
    InputsMembership(b.transactions, o);
    PointsMembership(c, a.transactions, o);
    PointsMembership(c, b.transactions, o);
    if t :| t in a.transactions && o in Points(TransactionEntries(c, t)) {
      var i :| 0 <= i < |a.transactions| && a.transactions[i] == t;
      var j :| 0 <= j < |b.transactions| && b.transactions[j] == t;
      EntryOfTransaction(c, a.transactions, i, o);
      EntryOfTransaction(c, b.transactions, j, o);
    }
  }

  lemma {:induction false} LookupConnected(c: Crypto, utxos: Utxos, body: Body, o: OutPoint)
    requires BodyInputs(body) !! BodyPoints(c, body) && o !in Points(CoinbaseEntries(c, body))
    ensures
      var made := Put(map[], AllTransactionEntries(c, body.transactions));
      var after := ConnectedUtxos(c, utxos, body);
      && (o in made <==> o in Points(AllTransactionEntries(c, body.transactions)))
      && (o in after <==> o in made || (o in utxos && o !in BodyInputs(body)))
      && (o in after ==> after[o] == if o in made then made[o] else utxos[o])
  {
    var cb, es := CoinbaseEntries(c, body), AllTransactionEntries(c, body.transactions);
    ConnectIsSetForm(c, utxos, body);
    PutAppend(map[], cb, es);
    PutIsUnion(Put(map[], cb), es);
    PutIsUnion(map[], cb);
  }

  // ---------- Value ----------

  /** Distinct existing inputs are worth what their entries are worth. */
  lemma {:induction false} InputValueIsEntryValue(utxos: Utxos, inputs: seq<OutPoint>)
    requires NoDuplicates(inputs)
    ensures InputValue(utxos, inputs) == ValueOf(Restrict(utxos, Elements(inputs)))
  {
    if |inputs| == 0 {
      assert Restrict(utxos, {}) == map[];
      assert Elements(inputs) == {};
    } else {
      var init, o := inputs[..|inputs| - 1], inputs[|inputs| - 1];
      InputValueIsEntryValue(utxos, init);
      assert o !in Elements(init) && Elements(inputs) == Elements(init) + {o};
      if o in utxos {
        assert Restrict(utxos, Elements(inputs)) == Restrict(utxos, Elements(init))[o := utxos[o]];
        ValueWith(Restrict(utxos, Elements(init)), o, utxos[o]);
      } else {
        assert Restrict(utxos, Elements(inputs)) == Restrict(utxos, Elements(init));
      }
    }
  }

  lemma {:induction false} EntriesOutputs(origin: OutPoint, outputs: seq<Output>)
    ensures Outputs(Entries(origin, outputs)) == outputs
  {
  }

  lemma {:induction false} TransactionsValueBound(
    c: Crypto, utxos: Utxos, ts: seq<Transaction>, keys: set<OutPoint>)
    ensures ValueOf(ConnectTransactions(c, utxos, ts) - keys)
         <= ValueOf(utxos - (Elements(AllInputs(ts)) + keys)) + OutputValue(ts)
  {
    if |ts| == 0 {
      assert Elements(AllInputs(ts)) + keys == keys;
    } else {
      var init, t := ts[..|ts| - 1], ts[|ts| - 1];
      var before := ConnectTransactions(c, utxos, init);
      var spent := Elements(t.inputs);
      ValueOutsidePut(before - spent, TransactionEntries(c, t), keys);
      EntriesOutputs(Regular(c.txid(t), 0), t.outputs);
      assert before - spent - keys == before - (spent + keys);
      TransactionsValueBound(c, utxos, init, spent + keys);
      assert Elements(AllInputs(init)) + (spent + keys) == Elements(AllInputs(ts)) + keys;
    }
  }

  /**
   Connecting never creates value, whatever the hash function: a put that lands on a used
   outpoint can only lose what was there.
   */
  lemma {:induction false} ConnectNeverCreatesValue(c: Crypto, utxos: Utxos, body: Body)
    requires NoDuplicates(AllInputs(body.transactions))
    ensures ValueOf(ConnectedUtxos(c, utxos, body)) + InputValue(utxos, AllInputs(body.transactions))
         <= ValueOf(utxos) + TotalValue(body.coinbase) + OutputValue(body.transactions)
  {
    var inputs := BodyInputs(body);
    var cb := CoinbaseEntries(c, body);
    var after := ConnectedUtxos(c, utxos, body);
    TransactionsValueBound(c, Put(utxos, cb), body.transactions, {});
    assert after - {} == after && inputs + {} == inputs;
    ValueOutsidePut(utxos, cb, inputs);
    EntriesOutputs(Coinbase(c.merkleRoot(body.coinbase, body.transactions), 0), body.coinbase);
    ValueSplit(utxos, inputs);
    InputValueIsEntryValue(utxos, AllInputs(body.transactions));
  }

  lemma {:induction false} TransactionEntriesValue(c: Crypto, ts: seq<Transaction>)
    ensures TotalValue(Outputs(AllTransactionEntries(c, ts))) == OutputValue(ts)
  {
    if |ts| > 0 {
      var init, t := ts[..|ts| - 1], ts[|ts| - 1];
      TransactionEntriesValue(c, init);
      PointsAppend(AllTransactionEntries(c, init), TransactionEntries(c, t));
      EntriesOutputs(Regular(c.txid(t), 0), t.outputs);
      TotalValueAppend(Outputs(AllTransactionEntries(c, init)), t.outputs);
    }
  }

  // ---------- Where outpoints may repeat ----------

  lemma {:induction false} UnionMinus(a: Utxos, b: Utxos, keys: set<OutPoint>)
    ensures (a + b) - keys == (a - keys) + (b - keys)
  {
  }

  lemma {:induction false} MinusPart(a: Utxos, part: set<OutPoint>, keys: set<OutPoint>)
    requires part <= keys
    ensures (a - part) - keys == a - keys
  {
  }

  lemma {:induction false} TransactionsOutside(c: Crypto, utxos: Utxos, ts: seq<Transaction>, keys: set<OutPoint>)
    requires Elements(AllInputs(ts)) <= keys
    ensures ConnectTransactions(c, utxos, ts) - keys
         == (utxos - keys) + (Put(map[], AllTransactionEntries(c, ts)) - keys)
  {
    if |ts| == 0 {
      assert Put(map[], AllTransactionEntries(c, ts)) - keys == map[];
    } else {
      var init, t := ts[..|ts| - 1], ts[|ts| - 1];
      var made, own := AllTransactionEntries(c, init), TransactionEntries(c, t);
      ElementsAppend(AllInputs(init), t.inputs);
      TransactionsOutside(c, utxos, init, keys);
      var before := ConnectTransactions(c, utxos, init);
      PutIsUnion(before - Elements(t.inputs), own);
      UnionMinus(before - Elements(t.inputs), Put(map[], own), keys);
      MinusPart(before, Elements(t.inputs), keys);
      PutAppend(map[], made, own);
      PutIsUnion(Put(map[], made), own);
      UnionMinus(Put(map[], made), Put(map[], own), keys);
      UnionAssociates(utxos - keys, Put(map[], made) - keys, Put(map[], own) - keys);
    }
  }

  /** Away from its inputs a body adds its outputs to the table, whatever they overwrite. */
  lemma {:induction false} ConnectedOutsideInputs(c: Crypto, utxos: Utxos, body: Body)
    ensures ConnectedUtxos(c, utxos, body) - BodyInputs(body)
         == (utxos - BodyInputs(body)) + (OutputTable(c, body) - BodyInputs(body))
  {
    var keys := BodyInputs(body);
    var cb, made := CoinbaseEntries(c, body), AllTransactionEntries(c, body.transactions);
    TransactionsOutside(c, Put(utxos, cb), body.transactions, keys);
    PutIsUnion(utxos, cb);
    UnionMinus(utxos, Put(map[], cb), keys);
    PutAppend(map[], cb, made);
    PutIsUnion(Put(map[], cb), made);
    UnionMinus(Put(map[], cb), Put(map[], made), keys);
    UnionAssociates(utxos - keys, Put(map[], cb) - keys, Put(map[], made) - keys);
  }

  lemma {:induction false} TransactionsHold(c: Crypto, utxos: Utxos, ts: seq<Transaction>, o: OutPoint)
    requires o in ConnectTransactions(c, utxos, ts)
    ensures
      var output := ConnectTransactions(c, utxos, ts)[o];
      || (o, output) in AllTransactionEntries(c, ts)
      || (o in utxos && o !in AllInputs(ts) && output == utxos[o])
  {
    if |ts| > 0 {
      var init, t := ts[..|ts| - 1], ts[|ts| - 1];
      PutHolds(ConnectTransactions(c, utxos, init) - Elements(t.inputs), TransactionEntries(c, t), o);
      if (o, ConnectTransactions(c, utxos, ts)[o]) !in TransactionEntries(c, t) {
        TransactionsHold(c, utxos, init, o);
      }
    }
  }

  /** What the connected table holds is an output of the body, or was there and is not spent. */
  lemma {:induction false} ConnectedHolds(c: Crypto, utxos: Utxos, body: Body, o: OutPoint)
    requires o in ConnectedUtxos(c, utxos, body)
    ensures
      var output := ConnectedUtxos(c, utxos, body)[o];
      || (o, output) in BodyEntries(c, body)
      || (o in utxos && o !in BodyInputs(body) && output == utxos[o])
  {
    TransactionsHold(c, Put(utxos, CoinbaseEntries(c, body)), body.transactions, o);
    if o in Put(utxos, CoinbaseEntries(c, body)) {
      PutHolds(utxos, CoinbaseEntries(c, body), o);
    }
  }

  /** Nothing of worth is overwritten, in the body or in the table. */
  ghost predicate LosesNothing(c: Crypto, utxos: Utxos, body: Body) {
    && OverwritesWorthless(BodyEntries(c, body))
    && forall o: OutPoint, output: Output :: (o, output) in BodyEntries(c, body) && o in utxos ==>
         output.GetValue() == utxos[o].GetValue() == 0
  }

  lemma {:induction false} OutputTableValue(c: Crypto, body: Body)
    requires OverwritesWorthless(BodyEntries(c, body))
    ensures ValueOf(OutputTable(c, body)) == TotalValue(body.coinbase) + OutputValue(body.transactions)
  {
    ValueOfEntries(BodyEntries(c, body));
    var cb, made := CoinbaseEntries(c, body), AllTransactionEntries(c, body.transactions);
    PointsAppend(cb, made);
    EntriesOutputs(Coinbase(c.merkleRoot(body.coinbase, body.transactions), 0), body.coinbase);
    TotalValueAppend(Outputs(cb), Outputs(made));
    TransactionEntriesValue(c, body.transactions);
  }

  lemma {:induction false} OverlapsAreWorthless(c: Crypto, utxos: Utxos, body: Body, o: OutPoint)
    requires LosesNothing(c, utxos, body) && o in OutputTable(c, body) && o in utxos
    ensures OutputTable(c, body)[o].GetValue() == utxos[o].GetValue() == 0
  {
    PutHolds(map[], BodyEntries(c, body), o);
  }

  /** With existing inputs and nothing of worth overwritten, connecting conserves value exactly. */
  lemma {:induction false} ConnectConservesValue(c: Crypto, utxos: Utxos, body: Body)
    requires NoDuplicates(AllInputs(body.transactions)) && BodyInputs(body) <= utxos.Keys
    requires LosesNothing(c, utxos, body)
    ensures ValueOf(ConnectedUtxos(c, utxos, body)) + InputValue(utxos, AllInputs(body.transactions))
         == ValueOf(utxos) + TotalValue(body.coinbase) + OutputValue(body.transactions)
  {
    var inputs, made := BodyInputs(body), OutputTable(c, body);
    ConnectNeverCreatesValue(c, utxos, body);
    ConnectedOutsideInputs(c, utxos, body);
    ValueSplit(ConnectedUtxos(c, utxos, body), inputs);
    forall o | o in made && o in utxos ensures made[o].GetValue() == utxos[o].GetValue() == 0 {
      OverlapsAreWorthless(c, utxos, body, o);
    }
    ValueOfWorthlessOverlap(utxos - inputs, made - inputs);
    ValueSplit(made, inputs);
    ValueOfWorthless(Restrict(made, inputs));
    OutputTableValue(c, body);
    ValueSplit(utxos, inputs);
    InputValueIsEntryValue(utxos, AllInputs(body.transactions));
  }
}

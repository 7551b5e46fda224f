/**
 Building a block body, reading its inputs and outputs, and applying it to the UTXO
 table: the code's interleaved deletes and puts against the plain set form.
 */
module Bodies {
  import opened Prelude
  import opened Types
  import opened Values

  type Entry = (OutPoint, Output)

  /** `vout as u32`: the index is truncated. */
  function Vout(index: nat): u32 { index % U32_LIMIT }

  function Entries(origin: OutPoint, outputs: seq<Output>): (es: seq<Entry>)
    ensures |es| == |outputs|
  {
    seq(|outputs|, i requires 0 <= i < |outputs| => (origin.(vout := Vout(i)), outputs[i]))
  }

  function CoinbaseEntries(c: Crypto, body: Body): seq<Entry> {
    Entries(Coinbase(c.merkleRoot(body.coinbase, body.transactions), 0), body.coinbase)
  }

  function TransactionEntries(c: Crypto, t: Transaction): seq<Entry> {
    Entries(Regular(c.txid(t), 0), t.outputs)
  }

  function AllTransactionEntries(c: Crypto, ts: seq<Transaction>): seq<Entry> {
    if |ts| == 0 then []
    else AllTransactionEntries(c, ts[..|ts| - 1]) + TransactionEntries(c, ts[|ts| - 1])
  }

  /** Every output a body creates, in the order the code creates them. */
  function BodyEntries(c: Crypto, body: Body): seq<Entry> {
    CoinbaseEntries(c, body) + AllTransactionEntries(c, body.transactions)
  }

  function Points(es: seq<Entry>): (ps: seq<OutPoint>)
    ensures |ps| == |es|
  {
    seq(|es|, i requires 0 <= i < |es| => es[i].0)
  }

  function Outputs(es: seq<Entry>): (os: seq<Output>)
    ensures |os| == |es|
  {
    seq(|es|, i requires 0 <= i < |es| => es[i].1)
  }

  function AllInputs(ts: seq<Transaction>): seq<OutPoint> {
    if |ts| == 0 then [] else AllInputs(ts[..|ts| - 1]) + ts[|ts| - 1].inputs
  }

  function Put(utxos: Utxos, es: seq<Entry>): Utxos {
    if |es| == 0 then utxos
    else Put(utxos, es[..|es| - 1])[es[|es| - 1].0 := es[|es| - 1].1]
  }

  function ConnectTransactions(c: Crypto, utxos: Utxos, ts: seq<Transaction>): Utxos {
    if |ts| == 0 then utxos
    else
      var t := ts[|ts| - 1];
      Put(ConnectTransactions(c, utxos, ts[..|ts| - 1]) - Elements(t.inputs), TransactionEntries(c, t))
  }

  function ConnectedUtxos(c: Crypto, utxos: Utxos, body: Body): Utxos {
    ConnectTransactions(c, Put(utxos, CoinbaseEntries(c, body)), body.transactions)
  }

  // ---------- Construction and accessors ----------

  function AllAuthorizations(ats: seq<AuthorizedTransaction>): seq<Authorization> {
    if |ats| == 0 then []
    else AllAuthorizations(ats[..|ats| - 1]) + ats[|ats| - 1].authorizations
  }

  function TransactionsOf(ats: seq<AuthorizedTransaction>): (ts: seq<Transaction>)
    ensures |ts| == |ats|
  {
    seq(|ats|, i requires 0 <= i < |ats| => ats[i].transaction)
  }

  function BodyOf(ats: seq<AuthorizedTransaction>, coinbase: seq<Output>): Body {
    Body(coinbase, TransactionsOf(ats), AllAuthorizations(ats))
  }

  method NewBody(ats: seq<AuthorizedTransaction>, coinbase: seq<Output>) returns (body: Body)
    ensures body == BodyOf(ats, coinbase)
  {
    var authorizations, transactions := [], [];
    for i := 0 to |ats|
      invariant authorizations == AllAuthorizations(ats[..i])
      invariant transactions == TransactionsOf(ats)[..i]
    {
      assert ats[..i + 1][..i] == ats[..i];
      authorizations := authorizations + ats[i].authorizations;
      transactions := transactions + [ats[i].transaction];
    }
    assert ats[..|ats|] == ats;
    body := Body(coinbase, transactions, authorizations);
  }

  method GetInputs(body: Body) returns (inputs: seq<OutPoint>)
    ensures inputs == AllInputs(body.transactions)
  {
    inputs := [];
    var ts := body.transactions;
    for i := 0 to |ts|
      invariant inputs == AllInputs(ts[..i])
    {
      assert ts[..i + 1][..i] == ts[..i];
      inputs := inputs + ts[i].inputs;
    }
    assert ts[..|ts|] == ts;
  }

  method PutOutputs(table: Utxos, origin: OutPoint, outputs: seq<Output>) returns (r: Utxos)
    ensures r == Put(table, Entries(origin, outputs))
  {
    r := table;
    var es := Entries(origin, outputs);
    for vout := 0 to |outputs|
      invariant r == Put(table, es[..vout])
    {
      assert es[..vout + 1][..vout] == es[..vout];
      r := r[origin.(vout := Vout(vout)) := outputs[vout]];
    }
    assert es[..|outputs|] == es;
  }

  method GetOutputs(c: Crypto, body: Body) returns (outputs: Utxos)
    ensures outputs == Put(map[], BodyEntries(c, body))
  {
    var ts := body.transactions;
    var root := c.merkleRoot(body.coinbase, ts);
    outputs := PutOutputs(map[], Coinbase(root, 0), body.coinbase);
    ghost var cb := CoinbaseEntries(c, body);
    assert cb == cb + AllTransactionEntries(c, ts[..0]);
    for i := 0 to |ts|
      invariant outputs == Put(map[], cb + AllTransactionEntries(c, ts[..i]))
    {
      outputs := PutOutputs(outputs, Regular(c.txid(ts[i]), 0), ts[i].outputs);
      PutNext(c, cb, ts, i);
    }
    assert ts[..|ts|] == ts;
  }

  // ---------- Facts about puts ----------

  lemma {:induction false} PutAppend(utxos: Utxos, a: seq<Entry>, b: seq<Entry>)
    ensures Put(utxos, a + b) == Put(Put(utxos, a), b)
    decreases |b|
  {
    if |b| == 0 {
      assert a + b == a;
    } else {
      PutAppend(utxos, a, b[..|b| - 1]);
      assert (a + b)[..|a + b| - 1] == a + b[..|b| - 1];
    }
  }

  lemma {:induction false} PutNext(c: Crypto, first: seq<Entry>, ts: seq<Transaction>, i: nat)
    requires i < |ts|
    ensures Put(map[], first + AllTransactionEntries(c, ts[..i + 1]))
         == Put(Put(map[], first + AllTransactionEntries(c, ts[..i])), TransactionEntries(c, ts[i]))
  {
    var init, last := AllTransactionEntries(c, ts[..i]), TransactionEntries(c, ts[i]);
    assert ts[..i + 1][..i] == ts[..i];
    assert first + (init + last) == (first + init) + last;
    PutAppend(map[], first + init, last);
  }

  lemma {:induction false} PutIsUnion(utxos: Utxos, es: seq<Entry>)
    ensures Put(utxos, es) == utxos + Put(map[], es)
    ensures Put(map[], es).Keys == Elements(Points(es))
  {
    if |es| > 0 {
      var init, last := es[..|es| - 1], es[|es| - 1];
      PutIsUnion(utxos, init);
      assert Points(es) == Points(init) + [last.0];
      assert Elements(Points(es)) == Elements(Points(init)) + {last.0};
    }
  }

  /** Only what is worthless is put again at the same outpoint. */
  ghost predicate OverwritesWorthless(es: seq<Entry>) {
    forall i, j :: 0 <= i < j < |es| && es[i].0 == es[j].0 ==> es[i].1.GetValue() == 0
  }

  /** An outpoint holds the output of some put, or what the table had there before. */
  lemma {:induction false} PutHolds(utxos: Utxos, es: seq<Entry>, o: OutPoint)
    requires o in Put(utxos, es)
    ensures (o, Put(utxos, es)[o]) in es || (o in utxos && o !in Points(es) && Put(utxos, es)[o] == utxos[o])
  {
    if |es| > 0 {
      var init, last := es[..|es| - 1], es[|es| - 1];
      assert es == init + [last] && Points(es) == Points(init) + [last.0];
      if o == last.0 {
        assert (o, Put(utxos, es)[o]) == last;
      } else {
        PutHolds(utxos, init, o);
      }
    }
  }

  lemma {:induction false} ValueOfEntries(es: seq<Entry>)
    requires OverwritesWorthless(es)
    ensures ValueOf(Put(map[], es)) == TotalValue(Outputs(es))
  {
    if |es| > 0 {
      var init, last := es[..|es| - 1], es[|es| - 1];
      ValueOfEntries(init);
      var before := Put(map[], init);
      if last.0 in before {
        PutHolds(map[], init, last.0);
        var i :| 0 <= i < |init| && init[i] == (last.0, before[last.0]);
        assert es[i] == init[i];
      }
      ValueOverWorthless(before, last.0, last.1);
      assert Outputs(es)[..|es| - 1] == Outputs(init);
    }
  }

  /** Puts bound the value outside any set of keys, whatever they overwrite. */
  lemma {:induction false} ValueOutsidePut(utxos: Utxos, es: seq<Entry>, keys: set<OutPoint>)
    ensures ValueOf(Put(utxos, es) - keys) <= ValueOf(utxos - keys) + TotalValue(Outputs(es))
  {
    if |es| > 0 {
      var init, last := es[..|es| - 1], es[|es| - 1];
      ValueOutsidePut(utxos, init, keys);
      assert Outputs(es)[..|es| - 1] == Outputs(init);
      var before := Put(utxos, init);
      if last.0 in keys {
        assert Put(utxos, es) - keys == before - keys;
      } else {
        assert Put(utxos, es) - keys == (before - keys)[last.0 := last.1];
        ValueAfterPut(before - keys, last.0, last.1);
      }
    }
  }

  lemma {:induction false} TotalValueAppend(a: seq<Output>, b: seq<Output>)
    ensures TotalValue(a + b) == TotalValue(a) + TotalValue(b)
    decreases |b|
  {
    if |b| == 0 {
      assert a + b == a;
    } else {
      TotalValueAppend(a, b[..|b| - 1]);
      assert (a + b)[..|a + b| - 1] == a + b[..|b| - 1];
    }
  }
}

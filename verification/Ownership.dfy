/**
 Who signed for what a block spends. The validator matches authorizations with inputs by
 position and asks for no more than it is given, so an accepted block may spend an output
 that nobody signed for.
 */
module Ownership {
  import opened Types
  import opened Bodies
  import opened Authorizations
  import opened Connection
  import opened Validation

  /** The authorization is by the output's owner and verifies on the transaction. */
  predicate SignsFor(c: Crypto, a: Authorization, output: Output, t: Transaction) {
    c.addressOf(a.publicKey) == output.address && c.verifies(a.publicKey, a.signature, t)
  }

  /** The body's i-th input has an authorization, by its owner, on its own transaction. */
  ghost predicate SignedFor(c: Crypto, utxos: Utxos, body: Body, i: nat)
    requires i < |AllInputs(body.transactions)| && InputsExist(utxos, AllInputs(body.transactions))
  {
    var o := AllInputs(body.transactions)[i];
    i < |body.authorizations| && SignsFor(c, body.authorizations[i], utxos[o], Messages(body.transactions)[i])
  }

  /** Any output of any table can be spent, to anyone, by a block without a signature. */
  lemma {:induction false} UnsignedSpendIsAccepted(c: Crypto, utxos: Utxos, o: OutPoint, payee: Address)
    requires o in utxos
    ensures
      var body := Body([], [Transaction([o], [Output(payee, Value(utxos[o].GetValue()))])], []);
      && BodyAccepted(c, utxos, body)
      && AllInputs(body.transactions) == [o] && !SignedFor(c, utxos, body, 0)
  {
    var t := Transaction([o], [Output(payee, Value(utxos[o].GetValue()))]);
    assert [t][..0] == [] && [o][..0] == [] && t.outputs[..0] == [];
    assert AllInputs([t]) == [o] && TotalValue(t.outputs) == utxos[o].GetValue() == InputValue(utxos, [o]);
    assert OutputValue([t]) == TotalValue(t.outputs);
  }

  /**
   The exact condition: in an accepted block every input is signed for, at its position and
   by its owner, iff there are as many authorizations as inputs.
   */
  lemma {:induction false} EveryInputIsSignedForIffCounted(c: Crypto, utxos: Utxos, body: Body)
    requires BodyAccepted(c, utxos, body)
    ensures (forall i :: 0 <= i < |AllInputs(body.transactions)| ==> SignedFor(c, utxos, body, i))
       <==> |body.authorizations| == |AllInputs(body.transactions)|
  {
    var n := |AllInputs(body.transactions)|;
    if |body.authorizations| == n {
      forall i | 0 <= i < n ensures SignedFor(c, utxos, body, i) {
        PairAt(c, body, i);
      }
    } else {
      assert !SignedFor(c, utxos, body, |body.authorizations|);
    }
  }

  lemma {:induction false} PairAt(c: Crypto, body: Body, i: nat)
    requires BodyVerifies(c, body) && i < |body.authorizations|
    ensures PairVerifies(c, (body.authorizations[i], Messages(body.transactions)[i]))
  {
    assert PairVerifies(c, Zip(body.authorizations, Messages(body.transactions))[i]);
  }

  /** Where an input of a transaction stands among all inputs of the body. */
  lemma {:induction false} PositionOf(ts: seq<Transaction>, j: nat, k: nat) returns (i: nat)
    requires j < |ts| && k < |ts[j].inputs|
    ensures i < |AllInputs(ts)| && AllInputs(ts)[i] == ts[j].inputs[k] && Messages(ts)[i] == ts[j]
  {
    var n := |ts| - 1;
    if j < n {
      i := PositionOf(ts[..n], j, k);
    } else {
      i := |AllInputs(ts[..n])| + k;
    }
  }

  /** Then each output a transaction spends is signed for by its owner on that transaction. */
  lemma {:induction false} OwnerSignedTheTransaction(
    c: Crypto, utxos: Utxos, body: Body, j: nat, k: nat) returns (a: Authorization)
    requires BodyAccepted(c, utxos, body) && |body.authorizations| == |AllInputs(body.transactions)|
    requires j < |body.transactions| && k < |body.transactions[j].inputs|
    ensures body.transactions[j].inputs[k] in utxos && a in body.authorizations
    ensures SignsFor(c, a, utxos[body.transactions[j].inputs[k]], body.transactions[j])
  {
    var i := PositionOf(body.transactions, j, k);
    PairAt(c, body, i);
    a := body.authorizations[i];
  }

  /** The same for one transaction: each input is signed for iff there are enough signatures. */
  lemma {:induction false} TransactionIsSignedForIffEnough(c: Crypto, utxos: Utxos, at: AuthorizedTransaction)
    requires TransactionAccepted(c, utxos, at)
    ensures
      var inputs, auths := at.transaction.inputs, at.authorizations;
      (forall i :: 0 <= i < |inputs| ==> i < |auths| && SignsFor(c, auths[i], utxos[inputs[i]], at.transaction))
      <==> |auths| >= |inputs|
  {
    if |at.authorizations| < |at.transaction.inputs| {
      assert at.transaction.inputs[|at.authorizations|] in utxos;
    }
  }
}

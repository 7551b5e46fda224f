/** What a body and a transaction must satisfy to be accepted against a UTXO table. */
module Validation {
  import opened Prelude
  import opened Types
  import opened Bodies
  import opened Authorizations
  import opened Connection

  ghost predicate InputsExist(utxos: Utxos, inputs: seq<OutPoint>) {
    forall i :: 0 <= i < |inputs| ==> inputs[i] in utxos
  }

  /** The outputs that a list of inputs spends, in order. */
  function Spent(utxos: Utxos, inputs: seq<OutPoint>): (os: seq<Output>)
    requires InputsExist(utxos, inputs)
    ensures |os| == |inputs|
  {
    seq(|inputs|, i requires 0 <= i < |inputs| => utxos[inputs[i]])
  }

  /** The sums fit in 64 bits and no value is made. */
  predicate Balanced(utxos: Utxos, t: Transaction) {
    TotalValue(t.outputs) <= InputValue(utxos, t.inputs) < U64_LIMIT
  }

  function Fees(utxos: Utxos, ts: seq<Transaction>): int {
    InputValue(utxos, AllInputs(ts)) - OutputValue(ts)
  }

  /** Each authorization comes from the owner of the output it is matched with. */
  ghost predicate Owned(c: Crypto, utxos: Utxos, inputs: seq<OutPoint>, auths: seq<Authorization>)
    requires InputsExist(utxos, inputs)
  {
    forall i :: 0 <= i < |auths| && i < |inputs| ==>
      c.addressOf(auths[i].publicKey) == utxos[inputs[i]].address
  }

  ghost predicate BodyAccepted(c: Crypto, utxos: Utxos, body: Body) {
    var ts := body.transactions;
    var inputs := AllInputs(ts);
    && InputsExist(utxos, inputs)
    && FeesFine(utxos, ts)
    && TotalValue(body.coinbase) <= Fees(utxos, ts)
    && Owned(c, utxos, inputs, body.authorizations)
    && BodyVerifies(c, body)
  }

  ghost predicate TransactionAccepted(c: Crypto, utxos: Utxos, at: AuthorizedTransaction) {
    && InputsExist(utxos, at.transaction.inputs)
    && Owned(c, utxos, at.transaction.inputs, at.authorizations)
    && TransactionVerifies(c, at)
    && Balanced(utxos, at.transaction)
  }

  lemma {:induction false} SpentValue(utxos: Utxos, inputs: seq<OutPoint>)
    requires InputsExist(utxos, inputs)
    ensures TotalValue(Spent(utxos, inputs)) == InputValue(utxos, inputs)
  {
    if |inputs| > 0 {
      SpentValue(utxos, inputs[..|inputs| - 1]);
      assert Spent(utxos, inputs)[..|inputs| - 1] == Spent(utxos, inputs[..|inputs| - 1]);
    }
  }

  lemma {:induction false} InputValueAppend(utxos: Utxos, a: seq<OutPoint>, b: seq<OutPoint>)
    ensures InputValue(utxos, a + b) == InputValue(utxos, a) + InputValue(utxos, b)
    decreases |b|
  {
    if |b| == 0 {
      assert a + b == a;
    } else {
      InputValueAppend(utxos, a, b[..|b| - 1]);
      assert (a + b)[..|a + b| - 1] == a + b[..|b| - 1];
    }
  }

  lemma {:induction false} FeesOfLast(utxos: Utxos, ts: seq<Transaction>)
    requires |ts| > 0
    ensures
      var init, t := ts[..|ts| - 1], ts[|ts| - 1];
      Fees(utxos, ts) == Fees(utxos, init) + InputValue(utxos, t.inputs) - TotalValue(t.outputs)
  {
    InputValueAppend(utxos, AllInputs(ts[..|ts| - 1]), ts[|ts| - 1].inputs);
  }

  lemma {:induction false} AllInputsAppend(a: seq<Transaction>, b: seq<Transaction>)
    ensures AllInputs(a + b) == AllInputs(a) + AllInputs(b)
    decreases |b|
  {
    if |b| == 0 {
      assert a + b == a;
    } else {
      var init, t, ts := b[..|b| - 1], b[|b| - 1], a + b;
      AllInputsAppend(a, init);
      assert ts[..|ts| - 1] == a + init && ts[|ts| - 1] == t;
      assert AllInputs(a) + AllInputs(init) + t.inputs == AllInputs(a) + (AllInputs(init) + t.inputs);
    }
  }

  /** Only a transaction without inputs can occur twice where no input repeats. */
  lemma {:induction false} RepeatedSpender(ts: seq<Transaction>, i: nat, j: nat)
    requires i < j < |ts| && ts[i] == ts[j] && ts[i].inputs != []
    ensures !NoDuplicates(AllInputs(ts))
  {
    var o := ts[i].inputs[0];
    AllInputsAppend(ts[..j], ts[j..]);
    assert ts[..j] + ts[j..] == ts;
    assert ts[..j][i] == ts[i] && ts[j..][0] == ts[j];
    InputsMembership(ts[..j], o);
    InputsMembership(ts[j..], o);
    SharedElement(AllInputs(ts[..j]), AllInputs(ts[j..]), o);
  }

  /** A prefix of a list of balanced transactions pays no more than the whole. */
  lemma {:induction false} FeesGrow(utxos: Utxos, ts: seq<Transaction>, k: nat)
    requires k <= |ts| && forall i :: k <= i < |ts| ==> Balanced(utxos, ts[i])
    ensures Fees(utxos, ts[..k]) <= Fees(utxos, ts)
    decreases |ts| - k
  {
    if k < |ts| {
      FeesOfLast(utxos, ts[..k + 1]);
      assert ts[..k + 1][..k] == ts[..k];
      FeesGrow(utxos, ts, k + 1);
    } else {
      assert ts[..k] == ts;
    }
  }

  lemma {:induction false} DoubleSpendRemains(ts: seq<Transaction>, k: nat)
    requires k <= |ts| && !NoDuplicates(AllInputs(ts[..k]))
    ensures !NoDuplicates(AllInputs(ts))
  {
    AllInputsAppend(ts[..k], ts[k..]);
    assert ts[..k] + ts[k..] == ts;
    NoDuplicatesSplit(AllInputs(ts[..k]), AllInputs(ts[k..]));
  }

  lemma {:induction false} OverflowRemains(utxos: Utxos, ts: seq<Transaction>, k: nat)
    requires k <= |ts| && Fees(utxos, ts[..k]) >= U64_LIMIT
    ensures !((forall i :: 0 <= i < |ts| ==> Balanced(utxos, ts[i])) && Fees(utxos, ts) < U64_LIMIT)
  {
    if forall i :: 0 <= i < |ts| ==> Balanced(utxos, ts[i]) {
      FeesGrow(utxos, ts, k);
    }
  }

  /** What the fee loop found wrong with a body's transactions. */
  ghost predicate FeesExplain(utxos: Utxos, ts: seq<Transaction>, e: Error) {
    || (e.UtxoDoubleSpent? && !NoDuplicates(AllInputs(ts)))
    || (e.NotEnoughValueIn? &&
         exists i :: 0 <= i < |ts| && TotalValue(ts[i].outputs) > InputValue(utxos, ts[i].inputs))
    || (e.Overflow? &&
         exists i :: 0 <= i < |ts| &&
           (TotalValue(ts[i].outputs) >= U64_LIMIT || InputValue(utxos, ts[i].inputs) >= U64_LIMIT))
    || (e.Overflow? && exists k :: 0 <= k <= |ts| && Fees(utxos, ts[..k]) >= U64_LIMIT)
  }

  /** The fee loop succeeds on these transactions. */
  ghost predicate FeesFine(utxos: Utxos, ts: seq<Transaction>) {
    && NoDuplicates(AllInputs(ts))
    && (forall i :: 0 <= i < |ts| ==> Balanced(utxos, ts[i]))
    && Fees(utxos, ts) < U64_LIMIT
  }

  /** What is wrong with a prefix is wrong with the whole. */
  lemma {:induction false} FaultRemains(utxos: Utxos, ts: seq<Transaction>, k: nat, e: Error)
    requires k <= |ts| && FeesExplain(utxos, ts[..k], e)
    ensures FeesExplain(utxos, ts, e) && !FeesFine(utxos, ts)
  {
    if e.UtxoDoubleSpent? {
      DoubleSpendRemains(ts, k);
    } else if e.Overflow? && exists j :: 0 <= j <= k && Fees(utxos, ts[..k][..j]) >= U64_LIMIT {
      var j :| 0 <= j <= k && Fees(utxos, ts[..k][..j]) >= U64_LIMIT;
      assert ts[..k][..j] == ts[..j];
      OverflowRemains(utxos, ts, j);
    } else {
      var i :| 0 <= i < k &&
        if e.Overflow? then
          TotalValue(ts[..k][i].outputs) >= U64_LIMIT || InputValue(utxos, ts[..k][i].inputs) >= U64_LIMIT
        else TotalValue(ts[..k][i].outputs) > InputValue(utxos, ts[..k][i].inputs);
      assert ts[i] == ts[..k][i] && !Balanced(utxos, ts[i]);
    }
  }

  /** What a rejected body got wrong, error by error. */
  ghost predicate Explains(c: Crypto, utxos: Utxos, body: Body, e: Error) {
    var ts := body.transactions;
    var inputs := AllInputs(ts);
    || (e.NoUtxo? && e.outpoint in inputs && e.outpoint !in utxos)
    || (e.Overflow? && TotalValue(body.coinbase) >= U64_LIMIT)
    || (e.Panicked? && |body.authorizations| > |inputs|)
    || (e.AuthorizationError? && |body.authorizations| <= |inputs| && !BodyVerifies(c, body))
    || (InputsExist(utxos, inputs) &&
         (|| FeesExplain(utxos, ts, e)
          || (e.WrongPubKeyForAddress? && !Owned(c, utxos, inputs, body.authorizations))
          || (e.NotEnoughFees? && NoDuplicates(inputs) && TotalValue(body.coinbase) > Fees(utxos, ts))))
  }

  /** What a rejected transaction got wrong. */
  ghost predicate TransactionExplains(c: Crypto, utxos: Utxos, at: AuthorizedTransaction, e: Error) {
    var t := at.transaction;
    || (e.NoUtxo? && e.outpoint in t.inputs && e.outpoint !in utxos)
    || (InputsExist(utxos, t.inputs) &&
         (|| (e.WrongPubKeyForAddress? && !Owned(c, utxos, t.inputs, at.authorizations))
          || (e.AuthorizationError? && !TransactionVerifies(c, at))
          || (e.NotEnoughValueIn? && TotalValue(t.outputs) > InputValue(utxos, t.inputs))
          || (e.Overflow? && (InputValue(utxos, t.inputs) >= U64_LIMIT || TotalValue(t.outputs) >= U64_LIMIT))))
  }
}

/** The consensus state: the UTXO table and the two-way peg. */
module States {
  import opened Prelude
  import opened Types
  import opened Values
  import opened Bodies
  import opened Contents
  import opened Authorizations
  import opened Connection
  import opened Validation
  import opened Bundles
  import opened Pegs

  /** `acc += value` over the outputs, where an overflow aborts the call. */
  method SumValues(outputs: seq<Output>) returns (r: Option<u64>)
    ensures r == if TotalValue(outputs) < U64_LIMIT then Some(TotalValue(outputs)) else None
  {
    var total := 0;
    for i := 0 to |outputs|
      invariant total == TotalValue(outputs[..i]) < U64_LIMIT
    {
      assert outputs[..i + 1][..i] == outputs[..i];
      total := total + outputs[i].GetValue();
      if total >= U64_LIMIT {
        TotalValueAppend(outputs[..i + 1], outputs[i + 1..]);
        assert outputs[..i + 1] + outputs[i + 1..] == outputs;
        return None;
      }
    }
    assert outputs[..|outputs|] == outputs;
    return Some(total);
  }

  /** Adds inputs to the set of spent ones, refusing one that is already there. */
  method MarkSpent(spent: set<OutPoint>, inputs: seq<OutPoint>) returns (r: Option<set<OutPoint>>)
    ensures r.Some? <==> NoDuplicates(inputs) && Elements(inputs) !! spent
    ensures r.Some? ==> r.value == spent + Elements(inputs)
  {
    var marked := spent;
    for i := 0 to |inputs|
      invariant marked == spent + Elements(inputs[..i])
      invariant NoDuplicates(inputs[..i]) && Elements(inputs[..i]) !! spent
    {
      assert inputs[..i + 1] == inputs[..i] + [inputs[i]];
      NoDuplicatesSplit(inputs[..i], [inputs[i]]);
      assert inputs[i] in Elements([inputs[i]]) && inputs[i] in Elements(inputs);
      if inputs[i] in marked {
        NoDuplicatesSplit(inputs[..i + 1], inputs[i + 1..]);
        assert inputs[..i + 1] + inputs[i + 1..] == inputs;
        return None;
      }
      marked := marked + {inputs[i]};
    }
    assert inputs[..|inputs|] == inputs;
    return Some(marked);
  }

  method ValidateFilledTransaction(filled: FilledTransaction) returns (r: Result<u64, Error>)
    ensures
      var vin, vout := TotalValue(filled.spentUtxos), TotalValue(filled.transaction.outputs);
      r == if vin >= U64_LIMIT || vout >= U64_LIMIT then Err(Overflow)
           else if vout > vin then Err(NotEnoughValueIn)
           else Ok(vin - vout)
    ensures
      var amountIn, amountOut := Amounts(filled.spentUtxos), Amounts(filled.transaction.outputs);
      && (r.Ok? <==> amountOut <= amountIn < 0x1_0000_0000_0000_0000)
      && (r.Ok? ==> r.value == amountIn - amountOut)
  {
    AmountsAreValue(filled.spentUtxos);
    AmountsAreValue(filled.transaction.outputs);
    var valueIn := SumValues(filled.spentUtxos);
    if valueIn.None? {
      return Err(Overflow);
    }
    var valueOut := SumValues(filled.transaction.outputs);
    if valueOut.None? {
      return Err(Overflow);
    }
    if valueOut.value > valueIn.value {
      return Err(NotEnoughValueIn);
    }
    return Ok(valueIn.value - valueOut.value);
  }

  ghost predicate FilledFrom(utxos: Utxos, ts: seq<Transaction>, filled: seq<FilledTransaction>) {
    |filled| == |ts| && forall i :: 0 <= i < |ts| ==>
      InputsExist(utxos, ts[i].inputs) && filled[i] == FilledTransaction(ts[i], Spent(utxos, ts[i].inputs))
  }

  /** The outputs all transactions spend, in order. */
  method FlattenSpent(ghost utxos: Utxos, ghost ts: seq<Transaction>, filled: seq<FilledTransaction>)
    returns (spentUtxos: seq<Output>)
    requires FilledFrom(utxos, ts, filled)
    ensures InputsExist(utxos, AllInputs(ts)) && spentUtxos == Spent(utxos, AllInputs(ts))
  {
    spentUtxos := [];
    for i := 0 to |filled|
      invariant InputsExist(utxos, AllInputs(ts[..i])) && spentUtxos == Spent(utxos, AllInputs(ts[..i]))
    {
      assert ts[..i + 1][..i] == ts[..i];
      spentUtxos := spentUtxos + filled[i].spentUtxos;
    }
    assert ts[..|ts|] == ts;
  }

  /** The accumulators of the fee loop, after these transactions. */
  ghost predicate Counted(utxos: Utxos, ts: seq<Transaction>, spent: set<OutPoint>, totalFees: u64) {
    FeesFine(utxos, ts) && spent == Elements(AllInputs(ts)) && totalFees == Fees(utxos, ts)
  }

  /** What one more transaction does to the accumulators, or which error it explains. */
  lemma {:induction false} CountingOne(
    utxos: Utxos, before: seq<Transaction>, t: Transaction, spent: set<OutPoint>, totalFees: u64)
    requires Counted(utxos, before, spent, totalFees) && InputsExist(utxos, t.inputs)
    ensures
      var vin, vout := TotalValue(Spent(utxos, t.inputs)), TotalValue(t.outputs);
      var distinct := NoDuplicates(t.inputs) && Elements(t.inputs) !! spent;
      && (!distinct ==> FeesExplain(utxos, before + [t], UtxoDoubleSpent))
      && (vin >= U64_LIMIT || vout >= U64_LIMIT ==> FeesExplain(utxos, before + [t], Overflow))
      && (vout > vin ==> FeesExplain(utxos, before + [t], NotEnoughValueIn))
      && (totalFees + vin - vout >= U64_LIMIT ==> FeesExplain(utxos, before + [t], Overflow))
      && (distinct && vout <= vin < U64_LIMIT && totalFees + vin - vout < U64_LIMIT ==>
            Counted(utxos, before + [t], spent + Elements(t.inputs), totalFees + vin - vout))
  {
    var after := before + [t];
    assert after[..|after| - 1] == before && after[|before|] == t && after[..|after|] == after;
    NoDuplicatesSplit(AllInputs(before), t.inputs);
    ElementsAppend(AllInputs(before), t.inputs);
    FeesOfLast(utxos, after);
    SpentValue(utxos, t.inputs);
  }

  method CountTransaction(
    ghost utxos: Utxos, ghost before: seq<Transaction>, filled: FilledTransaction,
    spent: set<OutPoint>, totalFees: u64)
    returns (r: Result<(set<OutPoint>, u64), Error>)
    requires Counted(utxos, before, spent, totalFees)
    requires InputsExist(utxos, filled.transaction.inputs)
    requires filled.spentUtxos == Spent(utxos, filled.transaction.inputs)
    ensures r.Ok? ==> Counted(utxos, before + [filled.transaction], r.value.0, r.value.1)
    ensures r.Err? ==> FeesExplain(utxos, before + [filled.transaction], r.error)
  {
    CountingOne(utxos, before, filled.transaction, spent, totalFees);
    var marked := MarkSpent(spent, filled.transaction.inputs);
    if marked.None? {
      return Err(UtxoDoubleSpent);
    }
    var fee := ValidateFilledTransaction(filled);
    if fee.Err? {
      return Err(fee.error);
    }
    if totalFees + fee.value >= U64_LIMIT {
      return Err(Overflow);
    }
    return Ok((marked.value, totalFees + fee.value));
  }

  class State {
    const crypto: Crypto
    var utxos: Utxos
    var pendingBundle: Option<WithdrawalBundle>
    var lastFailureHeight: Option<u32>
    var lastDepositBlock: Option<Hash>

    ghost function Abs(): Ledger
      reads this
    {
      Ledger(utxos, pendingBundle, lastFailureHeight, lastDepositBlock)
    }

    constructor (crypto: Crypto)
      ensures this.crypto == crypto && Abs() == Ledger(map[], None, None, None)
    {
      this.crypto := crypto;
      utxos, pendingBundle, lastFailureHeight, lastDepositBlock := map[], None, None, None;
    }

    method FillTransaction(t: Transaction) returns (r: Result<FilledTransaction, Error>)
      ensures r.Ok? <==> InputsExist(utxos, t.inputs)
      ensures r.Ok? ==> r.value == FilledTransaction(t, Spent(utxos, t.inputs))
      ensures r.Err? ==> r.error.NoUtxo? && r.error.outpoint in t.inputs && r.error.outpoint !in utxos
    {
      var spentUtxos := [];
      for i := 0 to |t.inputs|
        invariant InputsExist(utxos, t.inputs[..i]) && spentUtxos == Spent(utxos, t.inputs[..i])
      {
        if t.inputs[i] !in utxos {
          return Err(NoUtxo(t.inputs[i]));
        }
        spentUtxos := spentUtxos + [utxos[t.inputs[i]]];
      }
      assert t.inputs[..|t.inputs|] == t.inputs;
      return Ok(FilledTransaction(t, spentUtxos));
    }

    method FillTransactions(ts: seq<Transaction>) returns (r: Result<seq<FilledTransaction>, Error>)
      ensures r.Ok? <==> InputsExist(utxos, AllInputs(ts))
      ensures r.Ok? ==> FilledFrom(utxos, ts, r.value)
      ensures r.Err? ==> r.error.NoUtxo? && r.error.outpoint in AllInputs(ts) && r.error.outpoint !in utxos
    {
      var filled := [];
      for i := 0 to |ts|
        invariant InputsExist(utxos, AllInputs(ts[..i])) && FilledFrom(utxos, ts[..i], filled)
      {
        assert ts[..i + 1][..i] == ts[..i];
        var f := FillTransaction(ts[i]);
        if f.Err? {
          InputsMembership(ts, f.error.outpoint);
          assert ts[i] in ts;
          return Err(f.error);
        }
        filled := filled + [f.value];
      }
      assert ts[..|ts|] == ts;
      return Ok(filled);
    }

    /** The fees of a body; the loop that also refuses a double spend. */
    method TotalFees(ts: seq<Transaction>, filled: seq<FilledTransaction>) returns (r: Result<u64, Error>)
      requires FilledFrom(utxos, ts, filled)
      ensures r.Ok? <==> FeesFine(utxos, ts)
      ensures r.Ok? ==> r.value == Fees(utxos, ts) == PaidFees(utxos, ts)
      ensures r.Err? ==> FeesExplain(utxos, ts, r.error)
    {
      PaidFeesAreFees(utxos, ts);
      var totalFees: u64 := 0;
      var spent: set<OutPoint> := {};
      for i := 0 to |ts|
        invariant Counted(utxos, ts[..i], spent, totalFees)
      {
        assert ts[..i + 1] == ts[..i] + [ts[i]];
        var counted := CountTransaction(utxos, ts[..i], filled[i], spent, totalFees);
        if counted.Err? {
          FaultRemains(utxos, ts, i + 1, counted.error);
          return Err(counted.error);
        }
        spent, totalFees := counted.value.0, counted.value.1;
      }
      assert ts[..|ts|] == ts;
      return Ok(totalFees);
    }

    /** Accepts exactly the acceptable bodies, and says what is wrong with any other. */
    method ValidateBody(body: Body, numThreads: nat) returns (r: Result<u64, Error>)
      requires numThreads >= 1
      ensures r.Ok? <==> BodyAccepted(crypto, utxos, body)
      ensures r.Ok? ==> r.value == Fees(utxos, body.transactions) == PaidFees(utxos, body.transactions)
      ensures r.Err? ==> Explains(crypto, utxos, body, r.error)
    {
      var coinbaseValue := SumValues(body.coinbase);
      if coinbaseValue.None? {
        return Err(Overflow);
      }
      var ts := body.transactions;
      var filled := FillTransactions(ts);
      if filled.Err? {
        return Err(filled.error);
      }
      var totalFees := TotalFees(ts, filled.value);
      if totalFees.Err? {
        return Err(totalFees.error);
      }
      if coinbaseValue.value > totalFees.value {
        return Err(NotEnoughFees);
      }
      var auths := body.authorizations;
      var spentUtxos := FlattenSpent(utxos, ts, filled.value);
      var i := 0;
      while i < |auths| && i < |spentUtxos|
        invariant 0 <= i <= |auths| && i <= |spentUtxos|
        invariant forall j :: 0 <= j < i ==> crypto.addressOf(auths[j].publicKey) == spentUtxos[j].address
      {
        if crypto.addressOf(auths[i].publicKey) != spentUtxos[i].address {
          return Err(WrongPubKeyForAddress);
        }
        i := i + 1;
      }
      var verified := VerifyBody(crypto, body, numThreads);
      if verified.Err? {
        return Err(verified.error);
      }
      return Ok(totalFees.value);
    }

    method DeleteInputs(inputs: seq<OutPoint>)
      modifies this`utxos
      ensures utxos == old(utxos) - Elements(inputs)
    {
      for i := 0 to |inputs|
        invariant utxos == old(utxos) - Elements(inputs[..i])
      {
        assert Elements(inputs[..i + 1]) == Elements(inputs[..i]) + {inputs[i]};
        utxos := utxos - {inputs[i]};
      }
      assert inputs[..|inputs|] == inputs;
    }

    method ConnectBody(body: Body)
      modifies this`utxos
      ensures utxos == ConnectedUtxos(crypto, old(utxos), body)
    {
      var ts := body.transactions;
      var root := crypto.merkleRoot(body.coinbase, ts);
      utxos := PutOutputs(utxos, Coinbase(root, 0), body.coinbase);
      ghost var start := utxos;
      for i := 0 to |ts|
        invariant utxos == ConnectTransactions(crypto, start, ts[..i])
      {
        assert ts[..i + 1][..i] == ts[..i];
        DeleteInputs(ts[i].inputs);
        utxos := PutOutputs(utxos, Regular(crypto.txid(ts[i]), 0), ts[i].outputs);
      }
      assert ts[..|ts|] == ts;
    }

    method ApplyStatus(txid: Hash, status: WithdrawalBundleStatus, height: u32)
      modifies this
      ensures Abs() == Settle(crypto, old(Abs()), txid, status, height)
    {
      if pendingBundle.None? || crypto.mainTxid(pendingBundle.value.transaction) != txid {
        return;
      }
      var bundle := pendingBundle.value;
      match status
      case Failed =>
        lastFailureHeight := Some(height);
        pendingBundle := None;
        utxos := PutTable(utxos, bundle.spentUtxos);
      case Confirmed =>
        pendingBundle := None;
    }

    method CreditDeposits(peg: TwoWayPegData)
      modifies this
      ensures Abs() == Credit(old(Abs()), peg)
    {
      if peg.depositBlockHash.Some? {
        lastDepositBlock := peg.depositBlockHash;
      }
      utxos := PutTable(utxos, peg.deposits);
    }

    /** Moves a bundle out of the table when one may be collected at this height. */
    method WithdrawBundle(height: u32) returns (r: Result<Option<WithdrawalBundle>, Error>)
      requires Abs().FailureHeight() <= height
      modifies this
      ensures r.Ok? ==> Abs() == Withdraw(old(Abs()), r.value)
      ensures Collects(crypto, old(Abs()), height, r)
    {
      r := Ok(None);
      var failureHeight := if lastFailureHeight.Some? then lastFailureHeight.value else 0;
      if height - failureHeight > WITHDRAWAL_BUNDLE_FAILURE_GAP && pendingBundle.None? {
        r := CollectBundle(crypto, utxos, height);
        if r.Ok? && r.value.Some? {
          utxos := utxos - r.value.value.spentUtxos.Keys;
          pendingBundle := r.value;
        }
      }
    }

    method SettleStatuses(statuses: map<Hash, WithdrawalBundleStatus>, height: u32)
      modifies this
      ensures Abs() == SettleAll(crypto, old(Abs()), statuses, height)
    {
      var order := AnyOrder(statuses.Keys);
      for i := 0 to |order|
        invariant Elements(order[..i]) <= statuses.Keys
        invariant Abs() == SettleInOrder(crypto, old(Abs()), statuses, order[..i], height)
      {
        assert order[..i + 1][..i] == order[..i];
        assert order[i] in Elements(order) && Elements(order[..i + 1]) <= Elements(order);
        ApplyStatus(order[i], statuses[order[i]], height);
      }
      assert order[..|order|] == order;
      StatusOrderIsIrrelevant(crypto, old(Abs()), statuses, order, height);
    }

    /** Collection, then settlement, once the deposits are credited. */
    method HandleWithdrawals(statuses: map<Hash, WithdrawalBundleStatus>, height: u32)
      returns (r: Result<(), Error>, ghost collected: Option<WithdrawalBundle>)
      requires Abs().FailureHeight() <= height
      modifies this
      ensures r.Ok? ==>
        && Collects(crypto, old(Abs()), height, Ok(collected))
        && Abs() == SettleAll(crypto, Withdraw(old(Abs()), collected), statuses, height)
      ensures r.Err? ==> Collects(crypto, old(Abs()), height, Err(r.error))
    {
      var bundle := WithdrawBundle(height);
      if bundle.Err? {
        return Err(bundle.error), None;
      }
      SettleStatuses(statuses, height);
      return Ok(()), bundle.value;
    }

    /** A failed call leaves the tables half-written: its caller drops the transaction. */
    method ConnectTwoWayPegData(peg: TwoWayPegData, blockHeight: u32)
      returns (r: Result<(), Error>, ghost collected: Option<WithdrawalBundle>)
      modifies this
      ensures r.Ok? ==> PegStep(crypto, old(Abs()), peg, blockHeight, collected, Abs())
      ensures r.Err? ==> PegFails(crypto, old(Abs()), peg, blockHeight, r.error)
    {
      CreditDeposits(peg);
      if blockHeight + 1 >= U32_LIMIT || (lastFailureHeight.Some? && blockHeight + 1 < lastFailureHeight.value) {
        return Err(Overflow), None;
      }
      r, collected := HandleWithdrawals(peg.bundleStatuses, blockHeight + 1);
    }
  }
}

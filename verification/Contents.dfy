/** The amounts that the contents of outputs state, summed without their value functions. */
module Contents {
  import opened Types
  import opened Bodies
  import opened Connection
  import opened Validation

  /** The amount an output's content states. */
  function Amount(output: Output): nat {
    if output.content.Withdrawal? then output.content.value
    else if output.content.Value? then output.content.amount
    else output.content.customValue
  }

  function Amounts(outputs: seq<Output>): nat {
    if outputs == [] then 0 else Amount(outputs[0]) + Amounts(outputs[1..])
  }

  /** What the table says the inputs hold. */
  function AmountsAt(utxos: Utxos, inputs: seq<OutPoint>): nat {
    if inputs == [] then 0
    else (if inputs[0] in utxos then Amount(utxos[inputs[0]]) else 0) + AmountsAt(utxos, inputs[1..])
  }

  lemma {:induction false} AmountsAreValue(outputs: seq<Output>)
    ensures Amounts(outputs) == TotalValue(outputs)
  {
    if outputs != [] {
      AmountsAreValue(outputs[1..]);
      assert outputs == outputs[..1] + outputs[1..] && outputs[..1][..0] == [];
      TotalValueAppend(outputs[..1], outputs[1..]);
      assert TotalValue(outputs[..1]) == TotalValue(outputs[..1][..0]) + outputs[0].GetValue();
    }
  }

  lemma {:induction false} AmountsAtAreValue(utxos: Utxos, inputs: seq<OutPoint>)
    ensures AmountsAt(utxos, inputs) == InputValue(utxos, inputs)
  {
    if inputs != [] {
      AmountsAtAreValue(utxos, inputs[1..]);
      assert inputs == inputs[..1] + inputs[1..] && inputs[..1][..0] == [];
      InputValueAppend(utxos, inputs[..1], inputs[1..]);
      assert InputValue(utxos, inputs[..1]) == InputValue(utxos, inputs[..1][..0]) + ValueAt(utxos, inputs[0]);
    }
  }

  /** What the transactions pay: amounts in less amounts out, one by one. */
  function PaidFees(utxos: Utxos, ts: seq<Transaction>): int {
    if ts == [] then 0
    else
      var n := |ts| - 1;
      PaidFees(utxos, ts[..n]) + AmountsAt(utxos, ts[n].inputs) - Amounts(ts[n].outputs)
  }

  lemma {:induction false} PaidFeesAreFees(utxos: Utxos, ts: seq<Transaction>)
    ensures PaidFees(utxos, ts) == Fees(utxos, ts)
  {
    if ts != [] {
      var n := |ts| - 1;
      PaidFeesAreFees(utxos, ts[..n]);
      FeesOfLast(utxos, ts);
      AmountsAreValue(ts[n].outputs);
      AmountsAtAreValue(utxos, ts[n].inputs);
    }
  }
}

/**
 What makes a block or a transaction acceptable, said again from the contents of its
 inputs and outputs and from the keys and signatures it carries, transaction by
 transaction; and that nothing else makes the node refuse it.
 */
module Acceptance {
  import opened Prelude
  import opened Types
  import opened Bodies
  import opened Contents
  import opened Authorizations
  import opened Connection
  import opened Validation
  import opened Bundles
  import opened Pegs
  import opened Archives
  import opened Nodes

  // ---------- Positions ----------

  /** How many inputs come before the j-th transaction's. */
  function Offset(ts: seq<Transaction>, j: nat): nat
    requires j <= |ts|
  {
    if j == 0 then 0 else Offset(ts, j - 1) + |ts[j - 1].inputs|
  }

  /** The j-th transaction has a k-th input. */
  predicate HasInput(ts: seq<Transaction>, j: int, k: int) { 0 <= j < |ts| && 0 <= k < |ts[j].inputs| }

  lemma {:induction false} OffsetOfPrefix(ts: seq<Transaction>, n: nat, j: nat)
    requires j <= n <= |ts|
    ensures Offset(ts[..n], j) == Offset(ts, j)
  {
    if j > 0 {
      OffsetOfPrefix(ts, n, j - 1);
    }
  }

  lemma {:induction false} OffsetsGrow(ts: seq<Transaction>, j: nat, l: nat)
    requires j < l <= |ts|
    ensures Offset(ts, j) + |ts[j].inputs| <= Offset(ts, l)
  {
    if j < l - 1 {
      OffsetsGrow(ts, j, l - 1);
    }
  }

  lemma {:induction false} OffsetIsLength(ts: seq<Transaction>)
    ensures Offset(ts, |ts|) == |AllInputs(ts)|
  {
    if ts != [] {
      OffsetIsLength(ts[..|ts| - 1]);
      OffsetOfPrefix(ts, |ts| - 1, |ts| - 1);
    }
  }

  lemma {:induction false} InputAt(ts: seq<Transaction>, j: nat, k: nat)
    requires HasInput(ts, j, k)
    ensures var p := Offset(ts, j) + k;
      p < |AllInputs(ts)| && AllInputs(ts)[p] == ts[j].inputs[k] && Messages(ts)[p] == ts[j]
  {
    var n := |ts| - 1;
    OffsetIsLength(ts[..n]);
    OffsetOfPrefix(ts, n, j);
    if j < n {
      InputAt(ts[..n], j, k);
    }
  }

  lemma {:induction false} PositionIn(ts: seq<Transaction>, p: nat) returns (j: nat, k: nat)
    requires p < |AllInputs(ts)|
    ensures HasInput(ts, j, k) && Offset(ts, j) + k == p
  {
    var n := |ts| - 1;
    OffsetIsLength(ts[..n]);
    if p < |AllInputs(ts[..n])| {
      j, k := PositionIn(ts[..n], p);
      OffsetOfPrefix(ts, n, j);
    } else {
      j, k := n, p - |AllInputs(ts[..n])|;
      OffsetOfPrefix(ts, n, n);
    }
  }

  lemma {:induction false} PositionsDiffer(ts: seq<Transaction>, j: nat, k: nat, l: nat, m: nat)
    requires HasInput(ts, j, k) && HasInput(ts, l, m) && (j != l || k != m)
    ensures Offset(ts, j) + k != Offset(ts, l) + m
  {
    if j < l {
      OffsetsGrow(ts, j, l);
    } else if l < j {
      OffsetsGrow(ts, l, j);
    }
  }

  // ---------- Blocks ----------

  ghost predicate AllInTable(utxos: Utxos, ts: seq<Transaction>) {
    forall j, k :: HasInput(ts, j, k) ==> ts[j].inputs[k] in utxos
  }

  /** No two inputs of the block, of one transaction or of two, are the same. */
  ghost predicate NoneTwice(ts: seq<Transaction>) {
    forall j, k, l, m :: HasInput(ts, j, k) && HasInput(ts, l, m) && (j != l || k != m) ==>
      ts[j].inputs[k] != ts[l].inputs[m]
  }

  /** An authorization by the address that holds the output, which verifies on the transaction. */
  predicate IsBy(c: Crypto, a: Authorization, holder: Address, t: Transaction) {
    c.addressOf(a.publicKey) == holder && c.verifies(a.publicKey, a.signature, t)
  }

  /** Each authorization is by the holder of the input at its position, on that transaction. */
  ghost predicate InPlace(c: Crypto, utxos: Utxos, ts: seq<Transaction>, auths: seq<Authorization>)
    requires AllInTable(utxos, ts)
  {
    && |auths| <= Offset(ts, |ts|)
    && forall j, k :: HasInput(ts, j, k) && Offset(ts, j) + k < |auths| ==>
         IsBy(c, auths[Offset(ts, j) + k], utxos[ts[j].inputs[k]].address, ts[j])
  }

  ghost predicate PaysItsWay(utxos: Utxos, t: Transaction) {
    Amounts(t.outputs) <= AmountsAt(utxos, t.inputs) < 0x1_0000_0000_0000_0000
  }

  ghost predicate Acceptable(c: Crypto, utxos: Utxos, body: Body) {
    var ts := body.transactions;
    && AllInTable(utxos, ts) && NoneTwice(ts)
    && (forall j :: 0 <= j < |ts| ==> PaysItsWay(utxos, ts[j]))
    && Amounts(body.coinbase) <= PaidFees(utxos, ts) < 0x1_0000_0000_0000_0000
    && InPlace(c, utxos, ts, body.authorizations)
  }

  lemma {:induction false} InTableIff(utxos: Utxos, ts: seq<Transaction>)
    ensures InputsExist(utxos, AllInputs(ts)) <==> AllInTable(utxos, ts)
  {
    if InputsExist(utxos, AllInputs(ts)) {
      forall j, k | HasInput(ts, j, k) ensures ts[j].inputs[k] in utxos {
        InputAt(ts, j, k);
        assert AllInputs(ts)[Offset(ts, j) + k] in utxos;
      }
    }
    if AllInTable(utxos, ts) {
      forall p | 0 <= p < |AllInputs(ts)| ensures AllInputs(ts)[p] in utxos {
        var j, k := PositionIn(ts, p);
        InputAt(ts, j, k);
      }
    }
  }

  lemma {:induction false} NoneTwiceIff(ts: seq<Transaction>)
    ensures NoDuplicates(AllInputs(ts)) <==> NoneTwice(ts)
  {
    if NoDuplicates(AllInputs(ts)) {
      forall j, k, l, m | HasInput(ts, j, k) && HasInput(ts, l, m) && (j != l || k != m)
        ensures ts[j].inputs[k] != ts[l].inputs[m]
      {
        InputAt(ts, j, k);
        InputAt(ts, l, m);
        PositionsDiffer(ts, j, k, l, m);
      }
    }
    if NoneTwice(ts) {
      forall p, q | 0 <= p < q < |AllInputs(ts)| ensures AllInputs(ts)[p] != AllInputs(ts)[q] {
        var j, k := PositionIn(ts, p);
        var l, m := PositionIn(ts, q);
        InputAt(ts, j, k);
        InputAt(ts, l, m);
      }
    }
  }

  lemma {:induction false} PairOf(auths: seq<Authorization>, messages: seq<Transaction>, p: nat)
    requires p < |auths| <= |messages|
    ensures Zip(auths, messages)[p] == (auths[p], messages[p])
  {
  }

  lemma {:induction false} InPlaceIff(c: Crypto, utxos: Utxos, body: Body)
    requires AllInTable(utxos, body.transactions)
    requires InputsExist(utxos, AllInputs(body.transactions))
    ensures InPlace(c, utxos, body.transactions, body.authorizations)
       <==> Owned(c, utxos, AllInputs(body.transactions), body.authorizations) && BodyVerifies(c, body)
  {
    var ts, auths := body.transactions, body.authorizations;
    OffsetIsLength(ts);
    if InPlace(c, utxos, ts, auths) {
      forall p | 0 <= p < |auths|
        ensures c.addressOf(auths[p].publicKey) == utxos[AllInputs(ts)[p]].address
        ensures PairVerifies(c, Zip(auths, Messages(ts))[p])
      {
        var j, k := PositionIn(ts, p);
        InputAt(ts, j, k);
        PairOf(auths, Messages(ts), p);
        assert IsBy(c, auths[Offset(ts, j) + k], utxos[ts[j].inputs[k]].address, ts[j]);
      }
    }
    if Owned(c, utxos, AllInputs(ts), auths) && BodyVerifies(c, body) {
      forall j, k | HasInput(ts, j, k) && Offset(ts, j) + k < |auths|
        ensures IsBy(c, auths[Offset(ts, j) + k], utxos[ts[j].inputs[k]].address, ts[j])
      {
        var p := Offset(ts, j) + k;
        InputAt(ts, j, k);
        PairOf(auths, Messages(ts), p);
        assert PairVerifies(c, Zip(auths, Messages(ts))[p]);
      }
    }
  }

  lemma {:induction false} BalancedIff(utxos: Utxos, t: Transaction)
    ensures Balanced(utxos, t) <==> PaysItsWay(utxos, t)
  {
    AmountsAreValue(t.outputs);
    AmountsAtAreValue(utxos, t.inputs);
  }

  /** The validator accepts a block iff it is acceptable in these terms. */
  lemma {:induction false} AcceptedIffAcceptable(c: Crypto, utxos: Utxos, body: Body)
    ensures BodyAccepted(c, utxos, body) <==> Acceptable(c, utxos, body)
  {
    var ts := body.transactions;
    InTableIff(utxos, ts);
    NoneTwiceIff(ts);
    forall j | 0 <= j < |ts| ensures Balanced(utxos, ts[j]) <==> PaysItsWay(utxos, ts[j]) {
      BalancedIff(utxos, ts[j]);
    }
    PaidFeesAreFees(utxos, ts);
    AmountsAreValue(body.coinbase);
    if InputsExist(utxos, AllInputs(ts)) {
      InPlaceIff(c, utxos, body);
    }
  }

  /** The node accepts a transaction iff it is acceptable in these terms. */
  lemma {:induction false} TransactionAcceptedIff(c: Crypto, utxos: Utxos, at: AuthorizedTransaction)
    ensures
      var t, auths := at.transaction, at.authorizations;
      TransactionAccepted(c, utxos, at)
      <==>
      && (forall k :: 0 <= k < |t.inputs| ==> t.inputs[k] in utxos)
      && (forall k :: 0 <= k < |auths| ==> c.verifies(auths[k].publicKey, auths[k].signature, t))
      && (forall k :: 0 <= k < |auths| && k < |t.inputs| ==>
            c.addressOf(auths[k].publicKey) == utxos[t.inputs[k]].address)
      && PaysItsWay(utxos, t)
  {
    BalancedIff(utxos, at.transaction);
    assert TransactionVerifies(c, at) <==>
      forall k :: 0 <= k < |at.authorizations| ==>
        c.verifies(at.authorizations[k].publicKey, at.authorizations[k].signature, at.transaction) by {
      forall k | 0 <= k < |at.authorizations|
        ensures PairVerifies(c, (at.authorizations[k], at.transaction))
          <==> c.verifies(at.authorizations[k].publicKey, at.authorizations[k].signature, at.transaction)
      {}
    }
  }

  // ---------- Errors ----------

  /** What each error says of a block. */
  ghost predicate Means(c: Crypto, utxos: Utxos, body: Body, e: Error) {
    var ts, auths := body.transactions, body.authorizations;
    match e
    case NoUtxo(o) => o !in utxos && exists j, k :: HasInput(ts, j, k) && ts[j].inputs[k] == o
    case UtxoDoubleSpent => AllInTable(utxos, ts) && !NoneTwice(ts)
    case NotEnoughValueIn => exists j :: 0 <= j < |ts| && Amounts(ts[j].outputs) > AmountsAt(utxos, ts[j].inputs)
    case NotEnoughFees => AllInTable(utxos, ts) && NoneTwice(ts) && Amounts(body.coinbase) > PaidFees(utxos, ts)
    case WrongPubKeyForAddress =>
      && AllInTable(utxos, ts)
      && (exists j, k :: HasInput(ts, j, k) && Offset(ts, j) + k < |auths| &&
            c.addressOf(auths[Offset(ts, j) + k].publicKey) != utxos[ts[j].inputs[k]].address)
    case AuthorizationError =>
      exists j, k :: HasInput(ts, j, k) && Offset(ts, j) + k < |auths| &&
        var a := auths[Offset(ts, j) + k];
        !c.verifies(a.publicKey, a.signature, ts[j])
    case Panicked => |auths| > Offset(ts, |ts|)
    case Overflow =>
      || Amounts(body.coinbase) >= 0x1_0000_0000_0000_0000
      || (exists j :: 0 <= j < |ts| &&
           (AmountsAt(utxos, ts[j].inputs) >= 0x1_0000_0000_0000_0000 ||
            Amounts(ts[j].outputs) >= 0x1_0000_0000_0000_0000))
      || (exists n :: 0 <= n <= |ts| && PaidFees(utxos, ts[..n]) >= 0x1_0000_0000_0000_0000)
    case _ => false
  }

  lemma {:induction false} FeeErrorMeans(c: Crypto, utxos: Utxos, body: Body, e: Error)
    requires InputsExist(utxos, AllInputs(body.transactions)) && FeesExplain(utxos, body.transactions, e)
    ensures Means(c, utxos, body, e)
  {
    var ts := body.transactions;
    InTableIff(utxos, ts);
    NoneTwiceIff(ts);
    forall j | 0 <= j < |ts|
      ensures Amounts(ts[j].outputs) == TotalValue(ts[j].outputs)
      ensures AmountsAt(utxos, ts[j].inputs) == InputValue(utxos, ts[j].inputs)
    {
      AmountsAreValue(ts[j].outputs);
      AmountsAtAreValue(utxos, ts[j].inputs);
    }
    forall n | 0 <= n <= |ts| ensures PaidFees(utxos, ts[..n]) == Fees(utxos, ts[..n]) {
      PaidFeesAreFees(utxos, ts[..n]);
    }
  }

  lemma {:induction false} KeyErrorMeans(c: Crypto, utxos: Utxos, body: Body)
    requires InputsExist(utxos, AllInputs(body.transactions))
    requires !Owned(c, utxos, AllInputs(body.transactions), body.authorizations)
    ensures Means(c, utxos, body, WrongPubKeyForAddress)
  {
    var ts, auths := body.transactions, body.authorizations;
    InTableIff(utxos, ts);
    var p :| 0 <= p < |auths| && p < |AllInputs(ts)| &&
      c.addressOf(auths[p].publicKey) != utxos[AllInputs(ts)[p]].address;
    var j, k := PositionIn(ts, p);
    InputAt(ts, j, k);
  }

  lemma {:induction false} SignatureErrorMeans(c: Crypto, utxos: Utxos, body: Body)
    requires |body.authorizations| <= |AllInputs(body.transactions)| && !BodyVerifies(c, body)
    ensures Means(c, utxos, body, AuthorizationError)
  {
    var ts, auths := body.transactions, body.authorizations;
    var p :| 0 <= p < |Zip(auths, Messages(ts))| && !PairVerifies(c, Zip(auths, Messages(ts))[p]);
    PairOf(auths, Messages(ts), p);
    var j, k := PositionIn(ts, p);
    InputAt(ts, j, k);
  }

  /** The error the validator returns says what is wrong with the block. */
  lemma {:induction false} ErrorsMean(c: Crypto, utxos: Utxos, body: Body, e: Error)
    requires Explains(c, utxos, body, e)
    ensures Means(c, utxos, body, e)
  {
    var ts := body.transactions;
    if InputsExist(utxos, AllInputs(ts)) && FeesExplain(utxos, ts, e) {
      FeeErrorMeans(c, utxos, body, e);
    } else {
      match e
      case NoUtxo(o) =>
        var p :| 0 <= p < |AllInputs(ts)| && AllInputs(ts)[p] == o;
        var j, k := PositionIn(ts, p);
        InputAt(ts, j, k);
      case WrongPubKeyForAddress => KeyErrorMeans(c, utxos, body);
      case AuthorizationError => SignatureErrorMeans(c, utxos, body);
      case Panicked => OffsetIsLength(ts);
      case Overflow => AmountsAreValue(body.coinbase);
      case NotEnoughFees =>
        InTableIff(utxos, ts);
        NoneTwiceIff(ts);
        PaidFeesAreFees(utxos, ts);
        AmountsAreValue(body.coinbase);
    }
  }

  // ---------- Nothing else refuses a block ----------

  /** The header names the hash of the last header, or zero before the first. */
  ghost predicate NamesTip(c: Crypto, chain: Chain, header: Header) {
    header.prevSideHash ==
      if chain.headers == map[] then Zero else c.headerHash(chain.headers[Height(chain)])
  }

  /** The heights this block needs fit in 32 bits, and no failure lies ahead of it. */
  ghost predicate HeightsFit(s: NodeState) {
    && Height(s.chain) + 1 < 0x1_0000_0000
    && (s.ledger.lastFailureHeight.Some? ==> s.ledger.lastFailureHeight.value <= Height(s.chain) + 1)
  }

  /** No bundle is due, or none that could be collected fails to be. */
  ghost predicate CollectionFits(c: Crypto, s: NodeState, body: Body, peg: TwoWayPegData)
    requires HeightsFit(s)
  {
    var table := ConnectedUtxos(c, s.ledger.utxos, body) + peg.deposits;
    var failed := if s.ledger.lastFailureHeight.Some? then s.ledger.lastFailureHeight.value else 0;
    || s.ledger.pending.Some?
    || Height(s.chain) + 1 < failed + 5
    || forall e :: !Collected(c, table, Height(s.chain) + 1, Err(e))
  }

  lemma {:induction false} CollectsUnlessDue(c: Crypto, ledger: Ledger, height: u32, e: Error)
    requires ledger.FailureHeight() <= height && Collects(c, ledger, height, Err(e))
    ensures ledger.pending.None? && height >= ledger.FailureHeight() + 5 && Collected(c, ledger.utxos, height, Err(e))
  {
  }

  /**
   A block that is acceptable, names the tip, has the root of its body, and leaves the
   peg nothing that must fail is never refused.
   */
  lemma {:induction false} FineBlockIsNotRefused(
    c: Crypto, s: NodeState, header: Header, body: Body, peg: TwoWayPegData, e: Error)
    requires Acceptable(c, s.ledger.utxos, body)
    requires NamesTip(c, s.chain, header) && header.merkleRoot == c.merkleRoot(body.coinbase, body.transactions)
    requires HeightsFit(s) && CollectionFits(c, s, body, peg)
    ensures !BlockRefused(c, s, header, body, peg, e)
  {
    AcceptedIffAcceptable(c, s.ledger.utxos, body);
    var connected := s.ledger.(utxos := ConnectedUtxos(c, s.ledger.utxos, body));
    var credited := Credit(connected, peg);
    assert !PegFails(c, connected, peg, Height(s.chain), e) by {
      if Collects(c, credited, Height(s.chain) + 1, Err(e)) {
        CollectsUnlessDue(c, credited, Height(s.chain) + 1, e);
      }
    }
    assert Stores(c, Append(c, s.chain, header), header, body);
  }
}

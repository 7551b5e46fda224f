/**
 Whole runs of a node. The machine is the node's state with a history of what happened;
 the history only records, no step depends on it.
 */
module Runs {
  import opened Prelude
  import opened Types
  import opened Values
  import opened Bodies
  import opened Connection
  import opened Validation
  import opened Bundles
  import opened Pegs
  import opened Archives
  import opened MemPools
  import opened Nodes

  datatype History = History(
    bodies: set<Body>,                       // connected so far
    deposits: set<OutPoint>,                 // credited so far
    deposited: nat,                          // value of all deposits credited
    confirmed: nat,                          // value of all bundles confirmed
    unclaimed: nat,                          // fees that no coinbase claimed
    bundles: map<u32, WithdrawalBundle>,     // collected, by height
    failures: set<u32>)                      // heights at which a bundle failed

  datatype Machine = Machine(node: NodeState, history: History)

  const START := Machine(GENESIS, History({}, {}, 0, 0, 0, map[], {}))

  datatype Event =
    | Block(header: Header, body: Body, peg: TwoWayPegData, collected: Option<WithdrawalBundle>)
    | Admission(transaction: AuthorizedTransaction)
    | Pruning(txids: set<Hash>)

  // The stages of a block step.
  ghost function Connected(c: Crypto, s: NodeState, e: Event): Ledger
    requires e.Block?
  {
    s.ledger.(utxos := ConnectedUtxos(c, s.ledger.utxos, e.body))
  }

  ghost function Withdrawn(c: Crypto, s: NodeState, e: Event): Ledger
    requires e.Block?
  {
    Withdraw(Credit(Connected(c, s, e), e.peg), e.collected)
  }

  ghost function Reported(c: Crypto, s: NodeState, e: Event): Option<WithdrawalBundleStatus>
    requires e.Block?
  {
    ReportedStatus(c, Withdrawn(c, s, e), e.peg.bundleStatuses)
  }

  ghost function PendingValue(ledger: Ledger): nat {
    if ledger.pending.None? then 0 else ValueOf(ledger.pending.value.spentUtxos)
  }

  ghost function Record(c: Crypto, m: Machine, e: Event): History
    requires e.Block? && BodyAccepted(c, m.node.ledger.utxos, e.body) && Height(m.node.chain) + 1 < U32_LIMIT
  {
    var h := m.history;
    var height: u32 := Height(m.node.chain) + 1;
    History(
      h.bodies + {e.body},
      h.deposits + e.peg.deposits.Keys,
      h.deposited + ValueOf(e.peg.deposits),
      h.confirmed + if Reported(c, m.node, e) == Some(Confirmed) then PendingValue(Withdrawn(c, m.node, e)) else 0,
      h.unclaimed + Fees(m.node.ledger.utxos, e.body.transactions) - TotalValue(e.body.coinbase),
      if e.collected.Some? then h.bundles[height := e.collected.value] else h.bundles,
      h.failures + if Reported(c, m.node, e) == Some(Failed) then {height} else {})
  }

  ghost predicate Step(c: Crypto, m: Machine, e: Event, m': Machine) {
    match e
    case Block(header, body, peg, collected) =>
      && BlockStep(c, m.node, header, body, peg, collected, m'.node)
      && m'.history == Record(c, m, e)
    case Admission(at) =>
      // The table the transaction was validated on may be that of an earlier block.
      Admits(m.node.pool, at) && m' == m.(node := m.node.(pool := Admit(c, m.node.pool, at)))
    case Pruning(txids) =>
      m' == m.(node := m.node.(pool := Remove(m.node.pool, txids)))
  }

  ghost predicate IsRun(c: Crypto, ms: seq<Machine>, es: seq<Event>) {
    && |ms| == |es| + 1 && ms[0] == START
    && forall i :: 0 <= i < |es| ==> StepAt(c, ms, es, i)
  }

  ghost predicate StepAt(c: Crypto, ms: seq<Machine>, es: seq<Event>, i: nat)
    requires i < |es| < |ms|
  {
    Step(c, ms[i], es[i], ms[i + 1])
  }

  // ---------- Supply ----------

  ghost function Accounted(m: Machine): nat {
    ValueOf(m.node.ledger.utxos) + PendingValue(m.node.ledger) + m.history.confirmed + m.history.unclaimed
  }

  /** Collecting moves value from the table into the pending bundle, none gained or lost. */
  lemma {:induction false} CollectingConservesValue(
    c: Crypto, ledger: Ledger, height: u32, collected: Option<WithdrawalBundle>)
    requires ledger.FailureHeight() <= height && Collects(c, ledger, height, Ok(collected))
    ensures
      var after := Withdraw(ledger, collected);
      ValueOf(after.utxos) + PendingValue(after) == ValueOf(ledger.utxos) + PendingValue(ledger)
  {
    if collected.Some? {
      BundleSpendsWithdrawals(c, ledger.utxos, height, collected.value);
      ValueSplit(ledger.utxos, collected.value.spentUtxos.Keys);
    }
  }

  lemma {:induction false} SettlingBoundsValue(
    c: Crypto, ledger: Ledger, statuses: map<Hash, WithdrawalBundleStatus>, height: u32)
    ensures
      var after, status := SettleAll(c, ledger, statuses, height), ReportedStatus(c, ledger, statuses);
      ValueOf(after.utxos) + PendingValue(after) + (if status == Some(Confirmed) then PendingValue(ledger) else 0)
      <= ValueOf(ledger.utxos) + PendingValue(ledger)
  {
    if ledger.pending.Some? {
      ValueOfUnion(ledger.utxos, ledger.pending.value.spentUtxos);
    }
  }

  lemma {:induction false} StepKeepsSupplyBound(c: Crypto, m: Machine, e: Event, m': Machine)
    requires Step(c, m, e, m') && Accounted(m) <= m.history.deposited
    ensures Accounted(m') <= m'.history.deposited
  {
    if e.Block? {
      var utxos := m.node.ledger.utxos;
      ConnectNeverCreatesValue(c, utxos, e.body);
      var credited := Credit(Connected(c, m.node, e), e.peg);
      ValueOfUnion(Connected(c, m.node, e).utxos, e.peg.deposits);
      CollectingConservesValue(c, credited, Height(m.node.chain) + 1, e.collected);
      SettlingBoundsValue(c, Withdrawn(c, m.node, e), e.peg.bundleStatuses, Height(m.node.chain) + 1);
    }
  }

  /**
   In every run, whatever the hash function: value in the table, in the pending bundle,
   in confirmed bundles and in unclaimed fees never exceeds what deposits brought in.
   */
  lemma {:induction false} SupplyNeverExceedsDeposits(c: Crypto, ms: seq<Machine>, es: seq<Event>, i: nat)
    requires IsRun(c, ms, es) && i < |ms|
    ensures Accounted(ms[i]) <= ms[i].history.deposited
  {
    if i > 0 {
      SupplyNeverExceedsDeposits(c, ms, es, i - 1);
      assert StepAt(c, ms, es, i - 1);
      StepKeepsSupplyBound(c, ms[i - 1], es[i - 1], ms[i]);
    }
  }

  // ---------- Outpoints over a run ----------

  ghost predicate CreatedByBody(c: Crypto, h: History, o: OutPoint) {
    exists b :: b in h.bodies && o in BodyPoints(c, b)
  }

  ghost predicate EverCreated(c: Crypto, h: History, o: OutPoint) {
    o in h.deposits || CreatedByBody(c, h, o)
  }

  ghost predicate EverSpent(h: History, o: OutPoint) {
    exists b :: b in h.bodies && o in BodyInputs(b)
  }

  /** The body's new outpoints are pairwise distinct, and no body created one before. */
  ghost predicate FreshBody(c: Crypto, h: History, body: Body) {
    && NoDuplicates(Points(BodyEntries(c, body)))
    && forall o :: o in BodyPoints(c, body) ==> !CreatedByBody(c, h, o)
  }

  ghost predicate FreshDeposits(h: History, peg: TwoWayPegData) {
    forall o :: o in peg.deposits ==> o.Deposit? && o !in h.deposits
  }

  ghost predicate FreshEvent(c: Crypto, m: Machine, e: Event) {
    e.Block? ==> FreshBody(c, m.history, e.body) && FreshDeposits(m.history, e.peg)
  }

  /** What is spent stays spent; what is pending is out of the table. */
  ghost predicate TidyLedger(c: Crypto, ledger: Ledger, h: History) {
    && (forall o :: o in ledger.utxos ==> EverCreated(c, h, o) && !EverSpent(h, o))
    && (ledger.pending.Some? ==>
          && (forall o :: o in ledger.pending.value.spentUtxos ==>
                EverCreated(c, h, o) && !EverSpent(h, o) && o !in ledger.utxos)
          && (forall o :: o in ledger.pending.value.spentUtxos ==>
                ledger.pending.value.spentUtxos[o].IsWithdrawal()))
  }

  ghost predicate Tidy(c: Crypto, m: Machine) {
    && (forall o :: o in m.history.deposits ==> o.Deposit?)
    && (forall o :: EverSpent(m.history, o) ==> EverCreated(c, m.history, o))
    && TidyLedger(c, m.node.ledger, m.history)
  }

  lemma {:induction false} PointsAreNotDeposits(c: Crypto, body: Body, o: OutPoint)
    requires o in BodyPoints(c, body)
    ensures !o.Deposit?
  {
    PointsAppend(CoinbaseEntries(c, body), AllTransactionEntries(c, body.transactions));
    PointsMembership(c, body.transactions, o);
  }

  lemma {:induction false} HistoryGrows(c: Crypto, m: Machine, e: Event, o: OutPoint)
    requires e.Block? && BodyAccepted(c, m.node.ledger.utxos, e.body) && Height(m.node.chain) + 1 < U32_LIMIT
    ensures var h' := Record(c, m, e);
      && (CreatedByBody(c, h', o) <==> CreatedByBody(c, m.history, o) || o in BodyPoints(c, e.body))
      && (EverCreated(c, h', o) <==>
            EverCreated(c, m.history, o) || o in BodyPoints(c, e.body) || o in e.peg.deposits)
      && (EverSpent(h', o) <==> EverSpent(m.history, o) || o in BodyInputs(e.body))
  {
    var h, h' := m.history, Record(c, m, e);
    assert forall b :: b in h'.bodies <==> b in h.bodies || b == e.body;
    assert e.body in h'.bodies;
  }

  /** Fresh by the history means fresh for the table, and not an input of the body. */
  lemma {:induction false} FreshForTable(c: Crypto, m: Machine, body: Body)
    requires Tidy(c, m) && FreshBody(c, m.history, body) && BodyAccepted(c, m.node.ledger.utxos, body)
    ensures BodyPoints(c, body) !! m.node.ledger.utxos.Keys
    ensures BodyInputs(body) <= m.node.ledger.utxos.Keys && BodyInputs(body) !! BodyPoints(c, body)
    ensures forall o :: o in BodyPoints(c, body) ==> !EverCreated(c, m.history, o)
  {
    var utxos := m.node.ledger.utxos;
    forall o | o in BodyPoints(c, body) ensures !EverCreated(c, m.history, o) && o !in utxos {
      PointsAreNotDeposits(c, body, o);
    }
    forall o | o in BodyInputs(body) ensures o in utxos {
      var i :| 0 <= i < |AllInputs(body.transactions)| && AllInputs(body.transactions)[i] == o;
    }
  }

  lemma {:induction false} ConnectedIsTidy(c: Crypto, m: Machine, e: Event)
    requires e.Block? && Tidy(c, m) && FreshEvent(c, m, e)
    requires BodyAccepted(c, m.node.ledger.utxos, e.body) && Height(m.node.chain) + 1 < U32_LIMIT
    ensures TidyLedger(c, Connected(c, m.node, e), Record(c, m, e))
  {
    FreshForTable(c, m, e.body);
    ConnectIsSetForm(c, m.node.ledger.utxos, e.body);
    PutIsUnion(map[], BodyEntries(c, e.body));
    forall o { HistoryGrows(c, m, e, o); }
  }

  lemma {:induction false} FreshDepositIsNew(c: Crypto, m: Machine, e: Event, o: OutPoint)
    requires e.Block? && Tidy(c, m) && FreshEvent(c, m, e) && o in e.peg.deposits
    requires BodyAccepted(c, m.node.ledger.utxos, e.body)
    ensures !EverCreated(c, m.history, o) && !EverSpent(m.history, o) && o !in BodyInputs(e.body)
    ensures o !in BodyPoints(c, e.body) && o !in Connected(c, m.node, e).utxos
  {
    if b :| b in m.history.bodies && o in BodyPoints(c, b) {
      PointsAreNotDeposits(c, b, o);
    }
    if o in BodyPoints(c, e.body) {
      PointsAreNotDeposits(c, e.body, o);
    }
    FreshForTable(c, m, e.body);
    ConnectIsSetForm(c, m.node.ledger.utxos, e.body);
    PutIsUnion(map[], BodyEntries(c, e.body));
  }

  lemma {:induction false} CreditedIsTidy(c: Crypto, m: Machine, e: Event)
    requires e.Block? && Tidy(c, m) && FreshEvent(c, m, e)
    requires BodyAccepted(c, m.node.ledger.utxos, e.body) && Height(m.node.chain) + 1 < U32_LIMIT
    ensures TidyLedger(c, Credit(Connected(c, m.node, e), e.peg), Record(c, m, e))
  {
    ConnectedIsTidy(c, m, e);
    var h' := Record(c, m, e);
    forall o | o in e.peg.deposits ensures EverCreated(c, h', o) && !EverSpent(h', o) {
      FreshDepositIsNew(c, m, e, o);
      HistoryGrows(c, m, e, o);
    }
    var pending := m.node.ledger.pending;
    if pending.Some? {
      forall o | o in pending.value.spentUtxos ensures o !in e.peg.deposits {
        if o in e.peg.deposits {
          FreshDepositIsNew(c, m, e, o);
        }
      }
    }
  }

  lemma {:induction false} WithdrawingIsTidy(
    c: Crypto, ledger: Ledger, h: History, height: u32, collected: Option<WithdrawalBundle>)
    requires ledger.FailureHeight() <= height && Collects(c, ledger, height, Ok(collected)) && TidyLedger(c, ledger, h)
    ensures TidyLedger(c, Withdraw(ledger, collected), h)
  {
    if collected.Some? {
      BundleSpendsWithdrawals(c, ledger.utxos, height, collected.value);
    }
  }

  lemma {:induction false} SettlingIsTidy(
    c: Crypto, ledger: Ledger, h: History, statuses: map<Hash, WithdrawalBundleStatus>, height: u32)
    requires TidyLedger(c, ledger, h)
    ensures TidyLedger(c, SettleAll(c, ledger, statuses, height), h)
  {
  }

  lemma {:induction false} StepKeepsTidy(c: Crypto, m: Machine, e: Event, m': Machine)
    requires Step(c, m, e, m') && Tidy(c, m) && FreshEvent(c, m, e)
    ensures Tidy(c, m')
  {
    if e.Block? {
      CreditedIsTidy(c, m, e);
      FreshForTable(c, m, e.body);
      var credited := Credit(Connected(c, m.node, e), e.peg);
      var height := Height(m.node.chain) + 1;
      WithdrawingIsTidy(c, credited, m'.history, height, e.collected);
      SettlingIsTidy(c, Withdrawn(c, m.node, e), m'.history, e.peg.bundleStatuses, height);
      forall o | EverSpent(m'.history, o) ensures EverCreated(c, m'.history, o) {
        HistoryGrows(c, m, e, o);
      }
    }
  }
}

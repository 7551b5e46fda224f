/**
 The two-way peg: one block's deposits, the collection of a withdrawal bundle, and what
 the mainchain reports about the pending one.
 */
module Pegs {
  import opened Prelude
  import opened Types
  import opened Values
  import opened Bundles

  const WITHDRAWAL_BUNDLE_FAILURE_GAP := 4

  /** The consensus state as a value. */
  datatype Ledger = Ledger(
    utxos: Utxos,
    pending: Option<WithdrawalBundle>,
    lastFailureHeight: Option<u32>,
    lastDepositBlock: Option<Hash>)
  {
    function FailureHeight(): u32 {
      if lastFailureHeight.Some? then lastFailureHeight.value else 0
    }
  }

  function Credit(ledger: Ledger, peg: TwoWayPegData): Ledger {
    ledger.(utxos := ledger.utxos + peg.deposits,
            lastDepositBlock := if peg.depositBlockHash.Some? then peg.depositBlockHash else ledger.lastDepositBlock)
  }

  /** The retry gap has passed and nothing is pending. */
  predicate MayCollect(ledger: Ledger, height: u32)
    requires ledger.FailureHeight() <= height
  {
    height - ledger.FailureHeight() > WITHDRAWAL_BUNDLE_FAILURE_GAP && ledger.pending.None?
  }

  /** The results that trying to collect a bundle may have. */
  ghost predicate Collects(c: Crypto, ledger: Ledger, height: u32, r: Result<Option<WithdrawalBundle>, Error>)
    requires ledger.FailureHeight() <= height
  {
    if MayCollect(ledger, height) then Collected(c, ledger.utxos, height, r) else r == Ok(None)
  }

  function Withdraw(ledger: Ledger, collected: Option<WithdrawalBundle>): Ledger {
    if collected.None? then ledger
    else ledger.(utxos := ledger.utxos - collected.value.spentUtxos.Keys, pending := collected)
  }

  /** What one reported status does: nothing, unless it is the pending bundle's. */
  function Settle(c: Crypto, ledger: Ledger, txid: Hash, status: WithdrawalBundleStatus, height: u32): Ledger {
    if ledger.pending.None? || c.mainTxid(ledger.pending.value.transaction) != txid then ledger
    else if status.Failed? then
      ledger.(lastFailureHeight := Some(height), pending := None,
              utxos := ledger.utxos + ledger.pending.value.spentUtxos)
    else ledger.(pending := None)
  }

  function SettleInOrder(
    c: Crypto, ledger: Ledger, statuses: map<Hash, WithdrawalBundleStatus>, order: seq<Hash>, height: u32): Ledger
    requires Elements(order) <= statuses.Keys
  {
    if |order| == 0 then ledger
    else
      var last := order[|order| - 1];
      assert last in Elements(order) && Elements(order[..|order| - 1]) <= Elements(order);
      Settle(c, SettleInOrder(c, ledger, statuses, order[..|order| - 1], height), last, statuses[last], height)
  }

  /** The status of the pending bundle, if the mainchain reports one. */
  function ReportedStatus(
    c: Crypto, ledger: Ledger, statuses: map<Hash, WithdrawalBundleStatus>): Option<WithdrawalBundleStatus>
  {
    if ledger.pending.Some? && c.mainTxid(ledger.pending.value.transaction) in statuses
    then Some(statuses[c.mainTxid(ledger.pending.value.transaction)]) else None
  }

  function SettleAll(c: Crypto, ledger: Ledger, statuses: map<Hash, WithdrawalBundleStatus>, height: u32): Ledger {
    var status := ReportedStatus(c, ledger, statuses);
    if status.None? then ledger
    else Settle(c, ledger, c.mainTxid(ledger.pending.value.transaction), status.value, height)
  }

  /** Whatever order the statuses come in, only the pending bundle's own one counts. */
  lemma {:induction false} StatusOrderIsIrrelevant(
    c: Crypto, ledger: Ledger, statuses: map<Hash, WithdrawalBundleStatus>, order: seq<Hash>, height: u32)
    requires NoDuplicates(order) && Elements(order) == statuses.Keys
    ensures SettleInOrder(c, ledger, statuses, order, height) == SettleAll(c, ledger, statuses, height)
  {
    PrefixSettles(c, ledger, statuses, order, height);
    if ledger.pending.Some? {
      var txid := c.mainTxid(ledger.pending.value.transaction);
      assert txid in Elements(order) <==> txid in statuses;
    }
  }

  lemma {:induction false} PrefixSettles(
    c: Crypto, ledger: Ledger, statuses: map<Hash, WithdrawalBundleStatus>, order: seq<Hash>, height: u32)
    requires NoDuplicates(order) && Elements(order) <= statuses.Keys
    ensures
      SettleInOrder(c, ledger, statuses, order, height)
      == if ledger.pending.Some? && c.mainTxid(ledger.pending.value.transaction) in order
         then SettleAll(c, ledger, statuses, height) else ledger
  {
    if |order| > 0 {
      var init, last := order[..|order| - 1], order[|order| - 1];
      assert last in Elements(order) && Elements(init) <= Elements(order);
      PrefixSettles(c, ledger, statuses, init, height);
    }
  }

  /**
   One block's peg step at the height after `height`. `collected` is the bundle this step
   collects, if any; it is any bundle the code could assemble.
   */
  ghost predicate PegStep(
    c: Crypto, ledger: Ledger, peg: TwoWayPegData, height: u32, collected: Option<WithdrawalBundle>, ledger': Ledger)
  {
    && height + 1 < U32_LIMIT
    && var credited := Credit(ledger, peg);
    && credited.FailureHeight() <= height + 1
    && Collects(c, credited, height + 1, Ok(collected))
    && ledger' == SettleAll(c, Withdraw(credited, collected), peg.bundleStatuses, height + 1)
  }

  /** Why a peg step can abort: the height arithmetic, or the collection itself. */
  ghost predicate PegFails(c: Crypto, ledger: Ledger, peg: TwoWayPegData, height: u32, e: Error) {
    var credited := Credit(ledger, peg);
    if height + 1 >= U32_LIMIT || credited.FailureHeight() > height + 1 then e == Overflow
    else Collects(c, credited, height + 1, Err(e))
  }

  lemma {:induction false} CollectionComesBack(c: Crypto, utxos: Utxos, height: u32, b: WithdrawalBundle)
    requires Collected(c, utxos, height, Ok(Some(b)))
    ensures utxos - b.spentUtxos.Keys + b.spentUtxos == utxos
  {
    BundleSpendsWithdrawals(c, utxos, height, b);
    PutBack(utxos, b.spentUtxos);
  }

  /** A failure gives back exactly the entries that collecting the bundle took. */
  lemma {:induction false} FailureUndoesCollection(
    c: Crypto, ledger: Ledger, height: u32, b: WithdrawalBundle,
    statuses: map<Hash, WithdrawalBundleStatus>, later: u32)
    requires Collected(c, ledger.utxos, height, Ok(Some(b)))
    requires c.mainTxid(b.transaction) in statuses && statuses[c.mainTxid(b.transaction)] == Failed
    ensures
      var after := SettleAll(c, Withdraw(ledger, Some(b)), statuses, later);
      after == ledger.(pending := None, lastFailureHeight := Some(later))
  {
    CollectionComesBack(c, ledger.utxos, height, b);
  }
}

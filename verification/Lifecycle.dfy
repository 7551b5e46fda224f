/**
 The life of a withdrawal bundle over whole runs: where the pending one came from, what
 settles it, and when the next one may be collected. Also what every run keeps of the
 archive and the pool.
 */
module Lifecycle {
  import opened Prelude
  import opened Types
  import opened Values
  import opened Bodies
  import opened Validation
  import opened Bundles
  import opened Pegs
  import opened Archives
  import opened MemPools
  import opened Nodes
  import opened Runs
  import opened Freshness
  import opened Authorizations
  import opened Templates

  // ---------- Heights ----------

  lemma {:induction false} BlockRaisesHeight(c: Crypto, m: Machine, e: Event, m': Machine)
    requires e.Block? && Step(c, m, e, m')
    ensures Height(m'.node.chain) == Height(m.node.chain) + 1
  {
    var keys, top := m.node.chain.headers.Keys, Height(m.node.chain);
    assert m'.node.chain.headers.Keys == keys + {top + 1};
    assert top + 1 in m'.node.chain.headers.Keys;
  }

  lemma {:induction false} HeightsGrow(c: Crypto, ms: seq<Machine>, es: seq<Event>, i: nat, j: nat)
    requires IsRun(c, ms, es) && i <= j < |ms|
    ensures Height(ms[i].node.chain) <= Height(ms[j].node.chain)
    ensures i < j && es[i].Block? ==> Height(ms[i].node.chain) < Height(ms[j].node.chain)
    decreases j - i
  {
    if i < j {
      HeightsGrow(c, ms, es, i + 1, j);
      assert StepAt(c, ms, es, i);
      if es[i].Block? {
        BlockRaisesHeight(c, ms[i], es[i], ms[i + 1]);
      }
    }
  }

  // ---------- Where the pending bundle comes from ----------

  /** The step at which the code collected a bundle, and the table it took it from. */
  ghost predicate CollectedAt(c: Crypto, ms: seq<Machine>, es: seq<Event>, k: nat, b: WithdrawalBundle)
    requires k < |es| < |ms|
  {
    && es[k].Block? && es[k].collected == Some(b)
    && Height(ms[k].node.chain) + 1 < U32_LIMIT
    && Collected(c, Credit(Connected(c, ms[k].node, es[k]), es[k].peg).utxos, Height(ms[k].node.chain) + 1, Ok(Some(b)))
  }

  lemma {:induction false} CollectingStep(c: Crypto, ms: seq<Machine>, es: seq<Event>, k: nat)
    requires IsRun(c, ms, es) && k < |es| && es[k].Block? && es[k].collected.Some?
    ensures CollectedAt(c, ms, es, k, es[k].collected.value)
    ensures ms[k].node.ledger.pending.None?
  {
    assert StepAt(c, ms, es, k);
  }

  lemma {:induction false} PendingOrCollected(c: Crypto, m: Machine, e: Event, m': Machine)
    requires Step(c, m, e, m') && m'.node.ledger.pending.Some?
    ensures m.node.ledger.pending == m'.node.ledger.pending || (e.Block? && e.collected == m'.node.ledger.pending)
  {
  }

  /** A pending bundle was collected at one step and has been pending ever since. */
  lemma {:induction false} OriginOfPending(c: Crypto, ms: seq<Machine>, es: seq<Event>, n: nat) returns (k: nat)
    requires IsRun(c, ms, es) && n < |ms| && ms[n].node.ledger.pending.Some?
    ensures k < n && es[k].Block? && es[k].collected == ms[n].node.ledger.pending
    ensures forall i :: k < i <= n ==> ms[i].node.ledger.pending == ms[n].node.ledger.pending
  {
    assert n > 0;
    assert StepAt(c, ms, es, n - 1);
    PendingOrCollected(c, ms[n - 1], es[n - 1], ms[n]);
    if ms[n - 1].node.ledger.pending == ms[n].node.ledger.pending {
      k := OriginOfPending(c, ms, es, n - 1);
    } else {
      k := n - 1;
    }
  }

  /**
   What one block does to the bundle it finds or collects: nothing, or it confirms it and
   the entries are gone for good, or it fails it and puts back exactly the entries that
   were taken, none of which the table held meanwhile.
   */
  lemma {:induction false} SettlementIsExact(c: Crypto, m: Machine, e: Event, m': Machine)
    requires e.Block? && Step(c, m, e, m') && Tidy(c, m) && FreshEvent(c, m, e)
    ensures
      var before, after := Withdrawn(c, m.node, e), m'.node.ledger;
      && (m.node.ledger.pending.Some? ==> before.pending == m.node.ledger.pending)
      && (Reported(c, m.node, e).None? ==> after == before)
      && (Reported(c, m.node, e) == Some(Confirmed) ==>
            && before.pending.Some? && after == before.(pending := None)
            && before.pending.value.spentUtxos.Keys !! after.utxos.Keys)
      && (Reported(c, m.node, e) == Some(Failed) ==>
            && before.pending.Some? && after.pending.None? && after.lastFailureHeight == Some(Height(m.node.chain) + 1)
            && before.pending.value.spentUtxos.Keys !! before.utxos.Keys
            && after.utxos == before.utxos + before.pending.value.spentUtxos)
  {
    CreditedIsTidy(c, m, e);
    WithdrawingIsTidy(c, Credit(Connected(c, m.node, e), e.peg), m'.history, Height(m.node.chain) + 1, e.collected);
  }

  /**
   Over a fair run, a failed bundle gives back the very entries that were in the table
   when it was collected, which the table has not held since.
   */
  lemma {:induction false} FailureRestoresWhatWasTaken(c: Crypto, ms: seq<Machine>, es: seq<Event>, n: nat)
    returns (k: nat)
    requires c.TxidCollisionFree() && c.RootCollisionFree() && IsRun(c, ms, es) && n < |es| && FairUpTo(ms, es, n + 1)
    requires es[n].Block? && Reported(c, ms[n].node, es[n]) == Some(Failed)
    ensures k <= n && es[k].Block? && es[k].collected.Some?
    ensures
      var taken := es[k].collected.value.spentUtxos;
      var table := Credit(Connected(c, ms[k].node, es[k]), es[k].peg).utxos;
      var before := Withdrawn(c, ms[n].node, es[n]).utxos;
      && taken == Restrict(table, taken.Keys)
      && Withdrawn(c, ms[k].node, es[k]).utxos == table - taken.Keys
      && before.Keys !! taken.Keys && ms[n + 1].node.ledger.utxos == before + taken
  {
    k := OriginOfMatched(c, ms, es, n);
    CollectingStep(c, ms, es, k);
    TakenFromTable(c, ms, es, k, es[k].collected.value);
    EveryFairRunIsTidy(c, ms, es, n);
    assert StepAt(c, ms, es, n);
    FairIsFresh(c, ms[n], es[n], ms[n + 1]);
    SettlementIsExact(c, ms[n], es[n], ms[n + 1]);
  }

  lemma {:induction false} TakenFromTable(c: Crypto, ms: seq<Machine>, es: seq<Event>, k: nat, b: WithdrawalBundle)
    requires k < |es| < |ms| && CollectedAt(c, ms, es, k, b)
    ensures b.spentUtxos == Restrict(Credit(Connected(c, ms[k].node, es[k]), es[k].peg).utxos, b.spentUtxos.Keys)
  {
    var table := Credit(Connected(c, ms[k].node, es[k]), es[k].peg).utxos;
    BundleSpendsWithdrawals(c, table, Height(ms[k].node.chain) + 1, b);
  }

  // ---------- Stale statuses ----------

  /** The id of a bundle that was collected before step n and is no longer pending since. */
  ghost predicate SettledBefore(c: Crypto, ms: seq<Machine>, es: seq<Event>, n: nat, txid: Hash)
    requires n <= |es| < |ms|
  {
    exists j, i :: 0 <= j < i <= n && SettledBetween(c, ms, es, j, i, txid)
  }

  ghost predicate SettledBetween(c: Crypto, ms: seq<Machine>, es: seq<Event>, j: nat, i: nat, txid: Hash)
    requires j < |es| && i < |ms|
  {
    && es[j].Block? && es[j].collected.Some? && ms[i].node.ledger.pending != es[j].collected
    && txid == c.mainTxid(es[j].collected.value.transaction)
  }

  lemma {:induction false} CollectsCommits(c: Crypto, ledger: Ledger, height: u32, b: WithdrawalBundle)
    requires ledger.FailureHeight() <= height && Collects(c, ledger, height, Ok(Some(b)))
    ensures CommitsTo(c, height, b.transaction)
  {
    CollectedCommitsToHeight(c, ledger.utxos, height, b);
  }

  lemma {:induction false} StepCommits(c: Crypto, ms: seq<Machine>, es: seq<Event>, k: nat)
    requires IsRun(c, ms, es) && k < |es| && es[k].Block? && es[k].collected.Some?
    ensures Height(ms[k].node.chain) + 1 < U32_LIMIT
    ensures CommitsTo(c, Height(ms[k].node.chain) + 1, es[k].collected.value.transaction)
  {
    assert StepAt(c, ms, es, k);
    CollectsCommits(c,
      Credit(Connected(c, ms[k].node, es[k]), es[k].peg), Height(ms[k].node.chain) + 1, es[k].collected.value);
  }

  /** No two steps of a run collect bundles with the same transaction id. */
  lemma {:induction false} DifferentStepsDifferentTxids(c: Crypto, ms: seq<Machine>, es: seq<Event>, j: nat, k: nat)
    requires c.BundleCollisionFree() && IsRun(c, ms, es) && j < k < |es|
    requires es[j].Block? && es[j].collected.Some? && es[k].Block? && es[k].collected.Some?
    ensures c.mainTxid(es[j].collected.value.transaction) != c.mainTxid(es[k].collected.value.transaction)
  {
    HeightsGrow(c, ms, es, j, k);
    StepCommits(c, ms, es, j);
    StepCommits(c, ms, es, k);
    BundlesOfDifferentHeights(c,
      Height(ms[j].node.chain) + 1, es[j].collected.value.transaction,
      Height(ms[k].node.chain) + 1, es[k].collected.value.transaction);
  }

  /** The bundle a block's statuses are matched against was collected at one known step. */
  lemma {:induction false} OriginOfMatched(c: Crypto, ms: seq<Machine>, es: seq<Event>, n: nat) returns (k: nat)
    requires IsRun(c, ms, es) && n < |es| && es[n].Block? && Withdrawn(c, ms[n].node, es[n]).pending.Some?
    ensures k <= n && es[k].Block? && es[k].collected == Withdrawn(c, ms[n].node, es[n]).pending
    ensures forall i :: k < i <= n ==> ms[i].node.ledger.pending == Withdrawn(c, ms[n].node, es[n]).pending
  {
    assert StepAt(c, ms, es, n);
    if es[n].collected.Some? {
      k := n;
      CollectingStep(c, ms, es, n);
    } else {
      k := OriginOfPending(c, ms, es, n);
    }
  }

  lemma {:induction false} SettledIsNotMatched(c: Crypto, ms: seq<Machine>, es: seq<Event>, n: nat, txid: Hash)
    requires c.BundleCollisionFree() && IsRun(c, ms, es) && n < |es| && es[n].Block?
    requires SettledBefore(c, ms, es, n, txid) && Withdrawn(c, ms[n].node, es[n]).pending.Some?
    ensures txid != c.mainTxid(Withdrawn(c, ms[n].node, es[n]).pending.value.transaction)
  {
    var j, i :| 0 <= j < i <= n && SettledBetween(c, ms, es, j, i, txid);
    var k := OriginOfMatched(c, ms, es, n);
    if j < k {
      DifferentStepsDifferentTxids(c, ms, es, j, k);
    } else if k < j {
      DifferentStepsDifferentTxids(c, ms, es, k, j);
    }
  }

  /** What the mainchain reports in a block, without the bundles already settled. */
  ghost function LiveStatuses(
    c: Crypto, ms: seq<Machine>, es: seq<Event>, n: nat): map<Hash, WithdrawalBundleStatus>
    requires n < |es| < |ms| && es[n].Block?
  {
    map x | x in es[n].peg.bundleStatuses && !SettledBefore(c, ms, es, n, x) :: es[n].peg.bundleStatuses[x]
  }

  lemma {:induction false} LedgerOfStep(c: Crypto, m: Machine, e: Event, m': Machine)
    requires e.Block? && Step(c, m, e, m')
    ensures Height(m.node.chain) + 1 < U32_LIMIT
    ensures m'.node.ledger
         == SettleAll(c, Withdrawn(c, m.node, e), e.peg.bundleStatuses, Height(m.node.chain) + 1)
  {
  }

  /**
   The mainchain keeps reporting old bundles. In every run a block's ledger is what it
   would be without the statuses of bundles that are already settled: they settle nothing
   again, whatever else is reported beside them.
   */
  lemma {:induction false} StaleStatusesSettleNothing(c: Crypto, ms: seq<Machine>, es: seq<Event>, n: nat)
    requires c.BundleCollisionFree() && IsRun(c, ms, es) && n < |es| && es[n].Block?
    ensures Height(ms[n].node.chain) + 1 < U32_LIMIT
    ensures ms[n + 1].node.ledger
         == SettleAll(c, Withdrawn(c, ms[n].node, es[n]), LiveStatuses(c, ms, es, n), Height(ms[n].node.chain) + 1)
  {
    var withdrawn, live := Withdrawn(c, ms[n].node, es[n]), LiveStatuses(c, ms, es, n);
    assert StepAt(c, ms, es, n);
    LedgerOfStep(c, ms[n], es[n], ms[n + 1]);
    if withdrawn.pending.Some? {
      var txid := c.mainTxid(withdrawn.pending.value.transaction);
      assert txid in live <==> txid in es[n].peg.bundleStatuses by {
        if SettledBefore(c, ms, es, n, txid) {
          SettledIsNotMatched(c, ms, es, n, txid);
        }
      }
    }
  }

  // ---------- The retry gap ----------

  /** The recorded failure is the last one, and none lies ahead of the chain. */
  ghost predicate FailuresRecorded(m: Machine) {
    var ledger, h := m.node.ledger, m.history;
    && (forall f :: f in h.failures ==> f <= ledger.FailureHeight())
    && (if ledger.lastFailureHeight.Some? then ledger.lastFailureHeight.value in h.failures else h.failures == {})
    && ledger.FailureHeight() <= Height(m.node.chain)
  }

  lemma {:induction false} FailureOfSettling(
    c: Crypto, ledger: Ledger, statuses: map<Hash, WithdrawalBundleStatus>, height: u32)
    ensures SettleAll(c, ledger, statuses, height).lastFailureHeight
         == if ReportedStatus(c, ledger, statuses) == Some(Failed) then Some(height) else ledger.lastFailureHeight
  {
  }

  lemma {:induction false} FailureOfStep(c: Crypto, m: Machine, e: Event, m': Machine)
    requires e.Block? && Step(c, m, e, m')
    ensures
      var height, failed := Height(m.node.chain) + 1, Reported(c, m.node, e) == Some(Failed);
      && m'.node.ledger.lastFailureHeight == (if failed then Some(height) else m.node.ledger.lastFailureHeight)
      && m'.history.failures == m.history.failures + if failed then {height} else {}
  {
    var withdrawn := Withdrawn(c, m.node, e);
    assert withdrawn.lastFailureHeight == m.node.ledger.lastFailureHeight;
    FailureOfSettling(c, withdrawn, e.peg.bundleStatuses, Height(m.node.chain) + 1);
  }

  lemma {:induction false} StepKeepsFailures(c: Crypto, m: Machine, e: Event, m': Machine)
    requires Step(c, m, e, m') && FailuresRecorded(m)
    ensures FailuresRecorded(m')
  {
    if e.Block? {
      FailureOfStep(c, m, e, m');
      BlockRaisesHeight(c, m, e, m');
    }
  }

  lemma {:induction false} EveryRunRecordsFailures(c: Crypto, ms: seq<Machine>, es: seq<Event>, n: nat)
    requires IsRun(c, ms, es) && n < |ms|
    ensures FailuresRecorded(ms[n])
  {
    if n > 0 {
      EveryRunRecordsFailures(c, ms, es, n - 1);
      assert StepAt(c, ms, es, n - 1);
      StepKeepsFailures(c, ms[n - 1], es[n - 1], ms[n]);
    }
  }

  /** Whether a step at this height collects, said in heights. */
  lemma {:induction false} CollectsIffDue(c: Crypto, ledger: Ledger, height: u32, collected: Option<WithdrawalBundle>)
    requires ledger.FailureHeight() <= height && Collects(c, ledger, height, Ok(collected))
    ensures collected.Some? <==>
      && ledger.pending.None?
      && height >= (if ledger.lastFailureHeight.Some? then ledger.lastFailureHeight.value else 0) + 5
      && exists o :: o in ledger.utxos && ledger.utxos[o].content.Withdrawal?
  {
    if o :| o in ledger.utxos && ledger.utxos[o].content.Withdrawal? {
      assert ledger.utxos[o].content.mainAddress in Destinations(ledger.utxos);
      if MayCollect(ledger, height) {
        SomethingToCollect(c, ledger.utxos, height, Ok(collected));
      }
    }
    if collected.Some? {
      BundleSpendsWithdrawals(c, ledger.utxos, height, collected.value);
      var o :| o in collected.value.spentUtxos;
      assert o in ledger.utxos && ledger.utxos[o].content.Withdrawal?;
    }
  }

  /**
   In every run a block collects a bundle iff none is pending, its height is at least 5 and
   at least 5 above every failure so far, and the table holds a withdrawal once the body is
   connected and the deposits are credited. The subtraction of heights never underflows.
   */
  lemma {:induction false} RetryGapIsKept(c: Crypto, ms: seq<Machine>, es: seq<Event>, n: nat)
    requires IsRun(c, ms, es) && n < |es| && es[n].Block?
    ensures ms[n].node.ledger.FailureHeight() <= Height(ms[n].node.chain)
    ensures
      var height := Height(ms[n].node.chain) + 1;
      var table := ConnectedUtxos(c, ms[n].node.ledger.utxos, es[n].body) + es[n].peg.deposits;
      es[n].collected.Some? <==>
        && ms[n].node.ledger.pending.None? && height >= 5
        && (forall f :: f in ms[n].history.failures ==> height >= f + 5)
        && exists o :: o in table && table[o].content.Withdrawal?
  {
    EveryRunRecordsFailures(c, ms, es, n);
    assert StepAt(c, ms, es, n);
    CollectsOfStep(c, ms[n], es[n], ms[n + 1]);
  }

  lemma {:induction false} CollectsOfStep(c: Crypto, m: Machine, e: Event, m': Machine)
    requires e.Block? && Step(c, m, e, m')
    ensures
      var table := ConnectedUtxos(c, m.node.ledger.utxos, e.body) + e.peg.deposits;
      var failure := m.node.ledger.lastFailureHeight;
      e.collected.Some? <==>
        && m.node.ledger.pending.None?
        && Height(m.node.chain) + 1 >= (if failure.Some? then failure.value else 0) + 5
        && exists o :: o in table && table[o].content.Withdrawal?
  {
    CollectsIffDue(c, Credit(Connected(c, m.node, e), e.peg), Height(m.node.chain) + 1, e.collected);
  }

  /**
   The whole peg step of a block: the deposits enter the table as listed, the collected
   bundle leaves it, and the status of what is then pending, if one is reported, ends it,
   a failure by putting back what it spends and recording the height.
   */
  lemma {:induction false} LedgerAfterBlock(c: Crypto, m: Machine, e: Event, m': Machine)
    requires e.Block? && Step(c, m, e, m')
    ensures
      var before, after := m.node.ledger, m'.node.ledger;
      var table := ConnectedUtxos(c, before.utxos, e.body) + e.peg.deposits;
      var pending := if e.collected.Some? then e.collected else before.pending;
      var reported := pending.Some? && c.mainTxid(pending.value.transaction) in e.peg.bundleStatuses;
      var failed := reported && e.peg.bundleStatuses[c.mainTxid(pending.value.transaction)] == Failed;
      && after.utxos
         == table - (if e.collected.Some? then e.collected.value.spentUtxos.Keys else {})
            + (if failed then pending.value.spentUtxos else map[])
      && after.pending == (if reported then None else pending)
      && (failed ==> after.lastFailureHeight.Some? && after.lastFailureHeight.value == Height(m.node.chain) + 1)
      && (!failed ==> after.lastFailureHeight == before.lastFailureHeight)
      && after.lastDepositBlock
         == if e.peg.depositBlockHash.Some? then e.peg.depositBlockHash else before.lastDepositBlock
  {
    LedgerOfStep(c, m, e, m');
    var credited := Credit(Connected(c, m.node, e), e.peg);
    WithdrawPlainly(credited, e.collected);
    SettlePlainly(c, Withdraw(credited, e.collected), e.peg.bundleStatuses, Height(m.node.chain) + 1);
  }

  lemma {:induction false} WithdrawPlainly(ledger: Ledger, collected: Option<WithdrawalBundle>)
    ensures
      var after := Withdraw(ledger, collected);
      && after.utxos == ledger.utxos - (if collected.Some? then collected.value.spentUtxos.Keys else {})
      && after.pending == (if collected.Some? then collected else ledger.pending)
      && after.lastFailureHeight == ledger.lastFailureHeight && after.lastDepositBlock == ledger.lastDepositBlock
  {
    assert ledger.utxos - {} == ledger.utxos;
  }

  lemma {:induction false} SettlePlainly(
    c: Crypto, ledger: Ledger, statuses: map<Hash, WithdrawalBundleStatus>, height: u32)
    ensures
      var after := SettleAll(c, ledger, statuses, height);
      var reported := ledger.pending.Some? && c.mainTxid(ledger.pending.value.transaction) in statuses;
      var failed := reported && statuses[c.mainTxid(ledger.pending.value.transaction)] == Failed;
      && after.utxos == ledger.utxos + (if failed then ledger.pending.value.spentUtxos else map[])
      && after.pending == (if reported then None else ledger.pending)
      && after.lastFailureHeight == (if failed then Some(height) else ledger.lastFailureHeight)
      && after.lastDepositBlock == ledger.lastDepositBlock
  {
    assert ledger.utxos + map[] == ledger.utxos;
  }

  // ---------- The archive and the pool ----------

  /** Every header has its body. */
  ghost predicate BodiesComplete(chain: Chain) { chain.bodies.Keys == chain.headers.Keys }

  lemma {:induction false} StepKeepsArchive(c: Crypto, m: Machine, e: Event, m': Machine)
    requires c.HeaderCollisionFree() && Step(c, m, e, m')
    requires WellFormed(c, m.node.chain) && BodiesComplete(m.node.chain)
    ensures WellFormed(c, m'.node.chain) && BodiesComplete(m'.node.chain)
  {
    if e.Block? {
      var appended := Append(c, m.node.chain, e.header);
      AppendKeepsWellFormed(c, m.node.chain, e.header);
      StoreKeepsWellFormed(c, appended, e.header, e.body);
      assert appended.hashToHeight[c.headerHash(e.header)] == Height(m.node.chain) + 1;
    }
  }

  lemma {:induction false} EveryRunKeepsArchive(c: Crypto, ms: seq<Machine>, es: seq<Event>, n: nat)
    requires c.HeaderCollisionFree() && IsRun(c, ms, es) && n < |ms|
    ensures WellFormed(c, ms[n].node.chain) && BodiesComplete(ms[n].node.chain)
  {
    if n > 0 {
      EveryRunKeepsArchive(c, ms, es, n - 1);
      assert StepAt(c, ms, es, n - 1);
      StepKeepsArchive(c, ms[n - 1], es[n - 1], ms[n]);
    }
  }

  lemma {:induction false} ChainAfterBlock(c: Crypto, m: Machine, e: Event, m': Machine)
    requires e.Block? && Step(c, m, e, m')
    ensures Height(m.node.chain) + 1 < U32_LIMIT
    ensures m'.node.chain.headers == m.node.chain.headers[Height(m.node.chain) + 1 := e.header]
    ensures m'.node.chain.bodies == m.node.chain.bodies[Height(m.node.chain) + 1 := e.body]
  {
  }

  /**
   In every run the archive holds at each height the header, and the body with all its
   authorizations, of the block that raised the chain to it.
   */
  lemma {:induction false} ArchivedBlock(c: Crypto, ms: seq<Machine>, es: seq<Event>, n: nat, h: u32) returns (i: nat)
    requires IsRun(c, ms, es) && n < |ms|
    requires h in ms[n].node.chain.headers || h in ms[n].node.chain.bodies
    ensures i < n && es[i].Block? && Height(ms[i].node.chain) + 1 == h
    ensures h in ms[n].node.chain.headers && ms[n].node.chain.headers[h] == es[i].header
    ensures h in ms[n].node.chain.bodies && ms[n].node.chain.bodies[h] == es[i].body
  {
    assert n > 0;
    assert StepAt(c, ms, es, n - 1);
    if es[n - 1].Block? {
      ChainAfterBlock(c, ms[n - 1], es[n - 1], ms[n]);
    }
    if es[n - 1].Block? && Height(ms[n - 1].node.chain) + 1 == h {
      i := n - 1;
    } else {
      i := ArchivedBlock(c, ms, es, n - 1, h);
    }
  }

  /** And every block of the run is there, at the height it raised the chain to. */
  lemma {:induction false} EveryBlockIsArchived(c: Crypto, ms: seq<Machine>, es: seq<Event>, n: nat, i: nat)
    requires IsRun(c, ms, es) && i < n < |ms| && es[i].Block?
    ensures Height(ms[i].node.chain) + 1 < U32_LIMIT
    ensures
      var h: u32 := Height(ms[i].node.chain) + 1;
      && h in ms[n].node.chain.headers && ms[n].node.chain.headers[h] == es[i].header
      && h in ms[n].node.chain.bodies && ms[n].node.chain.bodies[h] == es[i].body
    decreases n
  {
    assert StepAt(c, ms, es, i) && StepAt(c, ms, es, n - 1);
    ChainAfterBlock(c, ms[i], es[i], ms[i + 1]);
    if n > i + 1 {
      EveryBlockIsArchived(c, ms, es, n - 1, i);
      if es[n - 1].Block? {
        ChainAfterBlock(c, ms[n - 1], es[n - 1], ms[n]);
        HeightsGrow(c, ms, es, i, n - 1);
      }
    }
  }

  /** The event takes out of the pool what is stored under this id. */
  ghost predicate Evicts(c: Crypto, e: Event, x: Hash) {
    match e
    case Block(_, body, _, _) => exists t :: t in body.transactions && c.txid(t) == x
    case Admission(_) => false
    case Pruning(txids) => x in txids
  }

  ghost predicate Enters(c: Crypto, e: Event, x: Hash) {
    e.Admission? && c.txid(e.transaction.transaction) == x
  }

  /** The i-th event admits a transaction with this id, and nothing evicts or replaces it up to the n-th. */
  ghost predicate StaysFrom(c: Crypto, es: seq<Event>, i: nat, n: nat, x: Hash)
    requires i < n <= |es|
  {
    Enters(c, es[i], x) && forall j :: i < j < n ==> !Evicts(c, es[j], x) && !Enters(c, es[j], x)
  }

  lemma {:induction false} PoolAfterStep(c: Crypto, m: Machine, e: Event, m': Machine, x: Hash)
    requires Step(c, m, e, m')
    ensures x in m'.node.pool.transactions
       <==> Enters(c, e, x) || (x in m.node.pool.transactions && !Evicts(c, e, x))
    ensures x in m'.node.pool.transactions ==>
      m'.node.pool.transactions[x] == if Enters(c, e, x) then e.transaction else m.node.pool.transactions[x]
  {
  }

  /**
   What is in the pool at any point of a run: under each id the transaction last admitted
   with it, unless a block since included it or the template's loop dropped it.
   */
  lemma {:induction false} PoolOfRun(c: Crypto, ms: seq<Machine>, es: seq<Event>, n: nat, x: Hash)
    requires IsRun(c, ms, es) && n < |ms|
    ensures x in ms[n].node.pool.transactions <==> exists i :: 0 <= i < n && StaysFrom(c, es, i, n, x)
    ensures forall i :: 0 <= i < n && StaysFrom(c, es, i, n, x) ==>
      x in ms[n].node.pool.transactions && ms[n].node.pool.transactions[x] == es[i].transaction
  {
    if n > 0 {
      PoolOfRun(c, ms, es, n - 1, x);
      assert StepAt(c, ms, es, n - 1);
      PoolAfterStep(c, ms[n - 1], es[n - 1], ms[n], x);
      forall i | 0 <= i < n - 1
        ensures StaysFrom(c, es, i, n, x)
          <==> StaysFrom(c, es, i, n - 1, x) && !Evicts(c, es[n - 1], x) && !Enters(c, es[n - 1], x)
      {}
      assert StaysFrom(c, es, n - 1, n, x) <==> Enters(c, es[n - 1], x);
      if x in ms[n].node.pool.transactions && !Enters(c, es[n - 1], x) {
        var i :| 0 <= i < n - 1 && StaysFrom(c, es, i, n - 1, x);
        assert StaysFrom(c, es, i, n, x);
      }
      if i :| 0 <= i < n && StaysFrom(c, es, i, n, x) {
        assert i == n - 1 || StaysFrom(c, es, i, n - 1, x);
      }
    }
  }

  lemma {:induction false} StepKeepsPool(c: Crypto, m: Machine, e: Event, m': Machine)
    requires Step(c, m, e, m') && ConflictFree(c, m.node.pool)
    ensures ConflictFree(c, m'.node.pool)
  {
    match e
    case Block(_, body, _, _) => RemoveKeepsConflictFree(c, m.node.pool, TxidsOf(c, body.transactions));
    case Admission(at) => AdmitKeepsConflictFree(c, m.node.pool, at);
    case Pruning(txids) => RemoveKeepsConflictFree(c, m.node.pool, txids);
  }

  lemma {:induction false} EveryRunKeepsPool(c: Crypto, ms: seq<Machine>, es: seq<Event>, n: nat)
    requires IsRun(c, ms, es) && n < |ms|
    ensures ConflictFree(c, ms[n].node.pool)
  {
    if n > 0 {
      EveryRunKeepsPool(c, ms, es, n - 1);
      assert StepAt(c, ms, es, n - 1);
      StepKeepsPool(c, ms[n - 1], es[n - 1], ms[n]);
    }
  }

  /**
   In every run the template is what is valid among the transactions taken. The validator
   accepts a block made of it if its authorizations line up and the coinbase is covered,
   and if no signature fits two messages only then.
   */
  lemma {:induction false} TemplateOfRunIsValid(
    c: Crypto, ms: seq<Machine>, es: seq<Event>, n: nat,
    keys: seq<Hash>, taken: seq<AuthorizedTransaction>, coinbase: seq<Output>)
    requires IsRun(c, ms, es) && n < |ms| && Taken(ms[n].node.pool, keys, taken)
    ensures
      var utxos := ms[n].node.ledger.utxos;
      var kept := Selected(c, utxos, taken);
      var covered := TotalValue(coinbase) <= Fees(utxos, TransactionsOf(kept)) < U64_LIMIT;
      && kept == AcceptedOf(c, utxos, taken)
      && (LinedUp(kept) && covered ==> BodyAccepted(c, utxos, BodyOf(kept, coinbase)))
      && (c.SignaturesFitOneMessage() ==>
            (BodyAccepted(c, utxos, BodyOf(kept, coinbase)) <==> LinedUp(kept) && covered))
  {
    EveryRunKeepsPool(c, ms, es, n);
    SelectedAreTheAccepted(c, ms[n].node.ledger.utxos, ms[n].node.pool, keys, taken);
    TemplateIsValid(c, ms[n].node.ledger.utxos, ms[n].node.pool, keys, taken, coinbase);
  }

  /** Two nodes that ran to the same best hash connected the same blocks. */
  lemma {:induction false} SameTipSameBlocks(
    c: Crypto, ms: seq<Machine>, es: seq<Event>, n: nat, ms': seq<Machine>, es': seq<Event>, n': nat)
    requires c.HeaderCollisionFree() && c.RootCollisionFree()
    requires IsRun(c, ms, es) && n < |ms| && IsRun(c, ms', es') && n' < |ms'|
    requires BestHash(c, ms[n].node.chain) == BestHash(c, ms'[n'].node.chain)
    ensures
      var a, b := ms[n].node.chain, ms'[n'].node.chain;
      && a.headers == b.headers && a.bodies.Keys == b.bodies.Keys
      && forall h :: h in a.bodies && h in b.bodies ==>
           a.bodies[h].coinbase == b.bodies[h].coinbase && a.bodies[h].transactions == b.bodies[h].transactions
  {
    EveryRunKeepsArchive(c, ms, es, n);
    EveryRunKeepsArchive(c, ms', es', n');
    BestHashBindsChain(c, ms[n].node.chain, ms'[n'].node.chain);
  }
}

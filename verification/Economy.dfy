/**
 The whole sidechain fed by the mainchain's deposit list: every block scans from where the
 last one saved, and nothing deposited is lost, credited twice or invented.
 */
module Economy {
  import opened Prelude
  import opened Types
  import opened Values
  import opened Runs
  import opened Supply
  import opened Drivechains

  // ---------- Any number of scans ----------

  /** Cut points of a list: each on a block boundary, none before the last. */
  ghost predicate Cuts(ds: seq<MainDeposit>, ends: seq<nat>) {
    && |ends| > 0 && ends[0] == 0
    && (forall i :: 0 <= i < |ends| ==> ends[i] <= |ds| && BlockBoundary(ds, ends[i]))
    && (forall i :: 0 <= i < |ends| - 1 ==> ends[i] <= ends[i + 1])
  }

  lemma {:induction false} PrefixOfList(ds: seq<MainDeposit>, e: nat, f: nat)
    requires Contiguous(ds) && DistinctPoints(ds) && e <= f <= |ds| && BlockBoundary(ds, e)
    ensures Contiguous(ds[..f]) && DistinctPoints(ds[..f]) && BlockBoundary(ds[..f], e) && ds[..f][..e] == ds[..e]
  {
    assert forall i :: 0 <= i < f ==> ds[..f][i] == ds[i];
  }

  lemma {:induction false} NewEntriesAreNew(ds: seq<MainDeposit>, e: nat, s: Scan, start: Option<Hash>)
    requires DistinctPoints(ds) && e <= |ds|
    ensures ScanAll(ds[..e], None).outputs.Keys
         !! ScanFrom(Scan(map[], s.lastTotal, None), ds[e..], start).outputs.Keys
    ensures forall o :: o in ScanFrom(Scan(map[], s.lastTotal, None), ds[e..], start).outputs ==> o.Deposit?
  {
    forall o | o in ScanFrom(Scan(map[], s.lastTotal, None), ds[e..], start).outputs
      ensures o.Deposit? && o !in ScanAll(ds[..e], None).outputs
    {
      var j := EntryOf(Scan(map[], s.lastTotal, None), ds[e..], start, o);
      ScanCreditsListed(ds[..e], None, o);
      assert ds[e + j].Point() == o;
      assert forall i :: 0 <= i < e ==> ds[..e][i].Point() == ds[i].Point() != ds[e + j].Point();
    }
  }

  lemma {:induction false} EntryOf(s: Scan, ds: seq<MainDeposit>, start: Option<Hash>, o: OutPoint) returns (j: nat)
    requires o in ScanFrom(s, ds, start).outputs && o !in s.outputs
    ensures j < |ds| && ds[j].Point() == o
  {
    if o in ScanFrom(s, ds[..|ds| - 1], start).outputs {
      j := EntryOf(s, ds[..|ds| - 1], start, o);
    } else {
      j := |ds| - 1;
    }
  }

  // ---------- A run fed by the list ----------

  /** A block's deposits are what the scan from the saved block to this cut returns. */
  ghost predicate FedBy(ds: seq<MainDeposit>, e: nat, m: Machine, event: Event)
    requires e <= |ds|
  {
    event.Block? ==>
      var saved := m.node.ledger.lastDepositBlock;
      var scan := ScanAll(Listed(ds[..e], saved), saved);
      event.peg.deposits == scan.outputs && event.peg.depositBlockHash == scan.lastBlock
  }

  ghost predicate FedRun(ds: seq<MainDeposit>, ends: seq<nat>, ms: seq<Machine>, es: seq<Event>) {
    && Cuts(ds, ends) && |ends| == |es| + 1 == |ms|
    && (forall i :: 0 <= i < |es| ==> FedBy(ds, ends[i + 1], ms[i], es[i]))
    && (forall i :: 0 <= i < |es| && !es[i].Block? ==> ends[i + 1] == ends[i])
  }

  /** The node has credited exactly what one full scan up to this cut credits. */
  ghost predicate UpToDate(ds: seq<MainDeposit>, e: nat, m: Machine)
    requires e <= |ds|
  {
    var full := ScanAll(ds[..e], None);
    && m.node.ledger.lastDepositBlock == full.lastBlock
    && m.history.deposits == full.outputs.Keys
    && m.history.deposited == ValueOf(full.outputs)
  }

  lemma {:induction false} FedStep(
    c: Crypto, ds: seq<MainDeposit>, e: nat, f: nat, m: Machine, event: Event, m': Machine)
    requires Contiguous(ds) && DistinctPoints(ds) && e <= f <= |ds| && BlockBoundary(ds, e)
    requires event.Block? && Step(c, m, event, m') && UpToDate(ds, e, m) && FedBy(ds, f, m, event)
    ensures UpToDate(ds, f, m') && FreshDeposits(m.history, event.peg)
  {
    ScanFromSaved(ds, e, f, m.node.ledger.lastDepositBlock);
    StepRecordsDeposits(c, m, event, m');
  }

  /** Scanning on from where the last scan saved adds new deposits, and all of them. */
  lemma {:induction false} ScanFromSaved(ds: seq<MainDeposit>, e: nat, f: nat, saved: Option<Hash>)
    requires Contiguous(ds) && DistinctPoints(ds) && e <= f <= |ds| && BlockBoundary(ds, e)
    requires saved == ScanAll(ds[..e], None).lastBlock
    ensures
      var before, full := ScanAll(ds[..e], None), ScanAll(ds[..f], None);
      var scan := ScanAll(Listed(ds[..f], saved), saved);
      && full.outputs == before.outputs + scan.outputs && full.lastBlock == Saved(saved, scan)
      && before.outputs.Keys !! scan.outputs.Keys && (forall o :: o in scan.outputs ==> o.Deposit?)
      && ValueOf(full.outputs) == ValueOf(before.outputs) + ValueOf(scan.outputs)
  {
    var list := ds[..f];
    PrefixOfList(ds, e, f);
    RescanCompletes(list, e);
    NewEntriesAreNew(list, e, ScanAll(list[..e], None), saved);
    ValueOfDisjointUnion(ScanAll(list[..e], None).outputs, ScanAll(Listed(list, saved), saved).outputs);
  }

  lemma {:induction false} StepRecordsDeposits(c: Crypto, m: Machine, event: Event, m': Machine)
    requires event.Block? && Step(c, m, event, m')
    ensures m'.history.deposits == m.history.deposits + event.peg.deposits.Keys
    ensures m'.history.deposited == m.history.deposited + ValueOf(event.peg.deposits)
    ensures m'.node.ledger.lastDepositBlock
         == if event.peg.depositBlockHash.Some? then event.peg.depositBlockHash else m.node.ledger.lastDepositBlock
  {
  }

  /** However many blocks share the work, the deposits credited are those of one full scan. */
  lemma {:induction false} FedRunIsUpToDate(
    c: Crypto, ds: seq<MainDeposit>, ends: seq<nat>, ms: seq<Machine>, es: seq<Event>, n: nat)
    requires Contiguous(ds) && DistinctPoints(ds) && IsRun(c, ms, es) && FedRun(ds, ends, ms, es) && n < |ms|
    ensures UpToDate(ds, ends[n], ms[n])
    ensures n < |es| && es[n].Block? ==> FreshDeposits(ms[n].history, es[n].peg)
    decreases n
  {
    if n == 0 {
      assert ds[..0] == [];
    } else {
      FedRunIsUpToDate(c, ds, ends, ms, es, n - 1);
      assert StepAt(c, ms, es, n - 1);
      assert FedBy(ds, ends[n - 1 + 1], ms[n - 1], es[n - 1]);
      if es[n - 1].Block? {
        FedStep(c, ds, ends[n - 1], ends[n], ms[n - 1], es[n - 1], ms[n]);
      }
    }
    if n < |es| && es[n].Block? {
      assert StepAt(c, ms, es, n) && FedBy(ds, ends[n + 1], ms[n], es[n]);
      FedStep(c, ds, ends[n], ends[n + 1], ms[n], es[n], ms[n + 1]);
    }
  }

  /**
   End to end, whatever the blocks repeat: the value on the sidechain, in flight, paid out
   and left unclaimed equals the deposits of one full scan, which is the escrow's last
   total plus its drops less what was sent to unparsable destinations.
   */
  lemma {:induction false} SidechainAccountsForEscrow(
    c: Crypto, ds: seq<MainDeposit>, ends: seq<nat>, ms: seq<Machine>, es: seq<Event>, n: nat)
    requires c.TxidCollisionFree() && c.RootCollisionFree()
    requires Contiguous(ds) && DistinctPoints(ds) && IsRun(c, ms, es) && FedRun(ds, ends, ms, es) && n < |ms|
    requires forall i :: 0 <= i < n && es[i].Block? ==> Narrow(es[i].body)
    ensures
      var seen := ds[..ends[n]];
      && Accounted(ms[n]) == ValueOf(ScanAll(seen, None).outputs)
      && Accounted(ms[n]) + UnparsedSum(seen) - DropSum(seen) == if |seen| == 0 then 0 else seen[|seen| - 1].total
  {
    forall i | 0 <= i < n ensures Orderly(ms[i], es[i]) {
      FedRunIsUpToDate(c, ds, ends, ms, es, i);
    }
    SupplyEqualsDeposits(c, ms, es, n);
    FedRunIsUpToDate(c, ds, ends, ms, es, n);
    var seen := ds[..ends[n]];
    PrefixOfList(ds, ends[n], ends[n]);
    ScanValue(seen);
    RisesTelescope(seen);
  }
}

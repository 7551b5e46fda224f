/**
 What the mainchain reports: bundle statuses and deposits. It lists deposits with the
 escrow's running total, and the scan turns totals into values, resuming at the last block
 it credited.
 */
module Drivechains {
  import opened Prelude
  import opened Types
  import opened Values
  import opened Bodies

  /** A listed deposit: `dest` is `None` when the destination does not parse. */
  datatype MainDeposit = MainDeposit(
    blockHash: Hash, txid: Hash, burnIndex: nat, total: u64, dest: Option<Address>)
  {
    function Point(): OutPoint { Deposit(txid, Vout(burnIndex)) }
  }

  datatype Scan = Scan(outputs: Utxos, lastTotal: u64, lastBlock: Option<Hash>)

  const NO_SCAN := Scan(map[], 0, None)

  /** One turn of the loop. */
  function ScanOne(s: Scan, d: MainDeposit, start: Option<Hash>): Scan {
    if start == Some(d.blockHash) || d.total < s.lastTotal then s.(lastTotal := d.total)
    else Scan(
      if d.dest.None? then s.outputs
      else s.outputs[d.Point() := Output(d.dest.value, Value(d.total - s.lastTotal))],
      d.total,
      Some(d.blockHash))
  }

  function ScanFrom(s: Scan, ds: seq<MainDeposit>, start: Option<Hash>): Scan {
    if |ds| == 0 then s else ScanOne(ScanFrom(s, ds[..|ds| - 1], start), ds[|ds| - 1], start)
  }

  function ScanAll(ds: seq<MainDeposit>, start: Option<Hash>): Scan { ScanFrom(NO_SCAN, ds, start) }

  method GetDepositOutputs(ds: seq<MainDeposit>, start: Option<Hash>)
    returns (outputs: Utxos, lastBlockHash: Option<Hash>)
    ensures outputs == ScanAll(ds, start).outputs && lastBlockHash == ScanAll(ds, start).lastBlock
  {
    var lastTotal: u64 := 0;
    outputs, lastBlockHash := map[], None;
    for i := 0 to |ds|
      invariant Scan(outputs, lastTotal, lastBlockHash) == ScanAll(ds[..i], start)
    {
      OneMore(ds, i);
      assert ds[..i + 1][..i] == ds[..i];
      var deposit := ds[i];
      if start == Some(deposit.blockHash) {
        lastTotal := deposit.total;
        continue;
      }
      if deposit.total < lastTotal {
        lastTotal := deposit.total;
        continue;
      }
      var value := deposit.total - lastTotal;
      lastTotal := deposit.total;
      lastBlockHash := Some(deposit.blockHash);
      if deposit.dest.None? {
        continue;
      }
      outputs := outputs[deposit.Point() := Output(deposit.dest.value, Value(value))];
    }
    assert ds[..|ds|] == ds;
  }

  /** What the mainchain lists: everything, or everything from a block on, that block included. */
  function Listed(ds: seq<MainDeposit>, start: Option<Hash>): seq<MainDeposit> {
    if start.None? then ds else ds[FirstOf(ds, start.value)..]
  }

  function FirstOf(ds: seq<MainDeposit>, block: Hash): (i: nat)
    ensures i <= |ds|
    ensures i < |ds| ==> ds[i].blockHash == block
    ensures forall j :: 0 <= j < i ==> ds[j].blockHash != block
  {
    if |ds| == 0 then 0
    else
      var i := FirstOf(ds[..|ds| - 1], block);
      if i < |ds| - 1 || ds[|ds| - 1].blockHash == block then i else |ds|
  }

  // ---------- The value of an entry ----------

  function Previous(ds: seq<MainDeposit>, i: nat): u64
    requires i < |ds|
  {
    if i == 0 then 0 else ds[i - 1].total
  }

  predicate Rises(ds: seq<MainDeposit>, i: nat)
    requires i < |ds|
  {
    ds[i].total >= Previous(ds, i)
  }

  predicate Credited(ds: seq<MainDeposit>, start: Option<Hash>, i: nat)
    requires i < |ds|
  {
    start != Some(ds[i].blockHash) && Rises(ds, i) && ds[i].dest.Some?
  }

  ghost predicate DistinctPoints(ds: seq<MainDeposit>) {
    forall i, j :: 0 <= i < j < |ds| ==> ds[i].Point() != ds[j].Point()
  }

  lemma {:induction false} LastTotal(ds: seq<MainDeposit>, start: Option<Hash>)
    ensures ScanAll(ds, start).lastTotal == if |ds| == 0 then 0 else ds[|ds| - 1].total
  {
    if |ds| > 0 {
      LastTotal(ds[..|ds| - 1], start);
    }
  }

  /** The scan credits exactly the rising entries outside the start block, each its own rise. */
  lemma {:induction false} ScanCreditsRises(ds: seq<MainDeposit>, start: Option<Hash>, i: nat)
    requires DistinctPoints(ds) && i < |ds|
    ensures ds[i].Point() in ScanAll(ds, start).outputs <==> Credited(ds, start, i)
    ensures Credited(ds, start, i) ==>
      ScanAll(ds, start).outputs[ds[i].Point()] == Output(ds[i].dest.value, Value(ds[i].total - Previous(ds, i)))
    decreases |ds|
  {
    var init := ds[..|ds| - 1];
    LastTotal(init, start);
    if i < |ds| - 1 {
      assert init[i] == ds[i] && (i > 0 ==> init[i - 1] == ds[i - 1]);
      ScanCreditsRises(init, start, i);
      assert ds[i].Point() != ds[|ds| - 1].Point();
    } else {
      ScanCreditsListed(init, start, ds[i].Point());
    }
  }

  lemma {:induction false} ScanCreditsListed(ds: seq<MainDeposit>, start: Option<Hash>, o: OutPoint)
    ensures o in ScanAll(ds, start).outputs ==> o.Deposit? && exists i :: 0 <= i < |ds| && ds[i].Point() == o
  {
    if |ds| > 0 {
      var init := ds[..|ds| - 1];
      ScanCreditsListed(init, start, o);
      if i :| 0 <= i < |init| && init[i].Point() == o {
        assert ds[i].Point() == o;
      }
      assert o == ds[|ds| - 1].Point() ==> ds[|ds| - 1].Point() == o;
    }
  }

  // ---------- The scan in terms of the listed fields ----------

  /** No burn of a mainchain transaction is listed twice, and its index fits in 32 bits. */
  ghost predicate DistinctBurns(ds: seq<MainDeposit>) {
    && (forall i :: 0 <= i < |ds| ==> ds[i].burnIndex < 0x1_0000_0000)
    && (forall i, j :: 0 <= i < j < |ds| ==> ds[i].txid != ds[j].txid || ds[i].burnIndex != ds[j].burnIndex)
  }

  lemma {:induction false} BurnsAreDistinctPoints(ds: seq<MainDeposit>)
    requires DistinctBurns(ds)
    ensures DistinctPoints(ds)
  {
    forall i, j | 0 <= i < j < |ds| ensures ds[i].Point() != ds[j].Point() {
      assert ds[i].txid != ds[j].txid || ds[i].burnIndex != ds[j].burnIndex;
    }
  }

  /** The running total before an entry. */
  function TotalBefore(ds: seq<MainDeposit>, i: nat): nat
    requires i < |ds|
  {
    if i == 0 then 0 else ds[i - 1].total
  }

  /** The entry's total did not fall, and it has a destination and another block than the start. */
  predicate IsCredited(ds: seq<MainDeposit>, start: Option<Hash>, i: nat)
    requires i < |ds|
  {
    && ds[i].dest.Some? && (start.None? || start.value != ds[i].blockHash)
    && ds[i].total >= TotalBefore(ds, i)
  }

  /**
   The scan's table, from the listed fields alone: an output for each credited entry, at
   its transaction and burn index, for its destination and worth the rise; and no other.
   */
  lemma {:induction false} ScanInPlainTerms(ds: seq<MainDeposit>, start: Option<Hash>, o: OutPoint)
    requires DistinctBurns(ds)
    ensures o in ScanAll(ds, start).outputs
       <==> exists i :: 0 <= i < |ds| && IsCredited(ds, start, i) && o == Deposit(ds[i].txid, ds[i].burnIndex)
    ensures forall i :: 0 <= i < |ds| && IsCredited(ds, start, i) && o == Deposit(ds[i].txid, ds[i].burnIndex) ==>
      && o in ScanAll(ds, start).outputs
      && ScanAll(ds, start).outputs[o].address == ds[i].dest.value
      && ScanAll(ds, start).outputs[o].content == Value(ds[i].total - TotalBefore(ds, i))
  {
    BurnsAreDistinctPoints(ds);
    forall i | 0 <= i < |ds| && o == Deposit(ds[i].txid, ds[i].burnIndex)
      ensures ds[i].Point() == o && (o in ScanAll(ds, start).outputs <==> IsCredited(ds, start, i))
      ensures IsCredited(ds, start, i) ==>
        ScanAll(ds, start).outputs[o] == Output(ds[i].dest.value, Value(ds[i].total - TotalBefore(ds, i)))
    {
      ScanCreditsRises(ds, start, i);
    }
    ScanCreditsListed(ds, start, o);
    if o in ScanAll(ds, start).outputs {
      var i :| 0 <= i < |ds| && ds[i].Point() == o;
      assert o == Deposit(ds[i].txid, ds[i].burnIndex);
    }
  }

  /** The entry's total did not fall, and it lies outside the start block. */
  predicate Advances(ds: seq<MainDeposit>, start: Option<Hash>, i: nat)
    requires i < |ds|
  {
    (start.None? || start.value != ds[i].blockHash) && ds[i].total >= TotalBefore(ds, i)
  }

  ghost predicate LastAdvance(ds: seq<MainDeposit>, start: Option<Hash>, i: nat)
    requires i < |ds|
  {
    Advances(ds, start, i) && forall j :: i < j < |ds| ==> !Advances(ds, start, j)
  }

  /** The block to resume from is that of the last entry outside the start block that did not fall. */
  lemma {:induction false} SavedBlockInPlainTerms(ds: seq<MainDeposit>, start: Option<Hash>) returns (i: nat)
    ensures ScanAll(ds, start).lastBlock.None? ==> forall j :: 0 <= j < |ds| ==> !Advances(ds, start, j)
    ensures ScanAll(ds, start).lastBlock.Some? ==>
      i < |ds| && LastAdvance(ds, start, i) && ScanAll(ds, start).lastBlock.value == ds[i].blockHash
  {
    i := 0;
    if |ds| > 0 {
      var n := |ds| - 1;
      LastTotal(ds[..n], start);
      if Advances(ds, start, n) {
        i := n;
      } else {
        i := SavedBlockInPlainTerms(ds[..n], start);
        AdvancesInPrefix(ds, start);
      }
    }
  }

  lemma {:induction false} AdvancesInPrefix(ds: seq<MainDeposit>, start: Option<Hash>)
    requires |ds| > 0
    ensures forall j :: 0 <= j < |ds| - 1 ==> (Advances(ds[..|ds| - 1], start, j) <==> Advances(ds, start, j))
  {
  }

  // ---------- Telescoping ----------

  function RiseSum(ds: seq<MainDeposit>): nat {
    if |ds| == 0 then 0
    else
      var n := |ds| - 1;
      RiseSum(ds[..n]) + if Rises(ds, n) then ds[n].total - Previous(ds, n) else 0
  }

  function UnparsedSum(ds: seq<MainDeposit>): nat {
    if |ds| == 0 then 0
    else
      var n := |ds| - 1;
      UnparsedSum(ds[..n]) + if Rises(ds, n) && ds[n].dest.None? then ds[n].total - Previous(ds, n) else 0
  }

  function DropSum(ds: seq<MainDeposit>): nat {
    if |ds| == 0 then 0
    else
      var n := |ds| - 1;
      DropSum(ds[..n]) + if Rises(ds, n) then 0 else Previous(ds, n) - ds[n].total
  }

  /** Rises less drops come to the last total, whatever the totals do in between. */
  lemma {:induction false} RisesTelescope(ds: seq<MainDeposit>)
    ensures RiseSum(ds) - DropSum(ds) == if |ds| == 0 then 0 else ds[|ds| - 1].total
  {
    if |ds| > 0 {
      RisesTelescope(ds[..|ds| - 1]);
    }
  }

  lemma {:induction false} LastIsNew(ds: seq<MainDeposit>)
    requires |ds| > 0 && DistinctPoints(ds)
    ensures DistinctPoints(ds[..|ds| - 1])
    ensures ds[|ds| - 1].Point() !in ScanAll(ds[..|ds| - 1], None).outputs
  {
    var init, last := ds[..|ds| - 1], ds[|ds| - 1];
    forall i | 0 <= i < |init| ensures init[i].Point() != last.Point() {
      assert init[i] == ds[i];
    }
    ScanCreditsListed(init, None, last.Point());
  }

  /** A full scan credits the rises, but for those whose destination does not parse. */
  lemma {:induction false} ScanValue(ds: seq<MainDeposit>)
    requires DistinctPoints(ds)
    ensures ValueOf(ScanAll(ds, None).outputs) + UnparsedSum(ds) == RiseSum(ds)
  {
    if |ds| > 0 {
      var init, last := ds[..|ds| - 1], ds[|ds| - 1];
      LastIsNew(ds);
      ScanValue(init);
      LastTotal(init, None);
      if Rises(ds, |ds| - 1) && last.dest.Some? {
        ValueWith(ScanAll(init, None).outputs, last.Point(),
          Output(last.dest.value, Value(last.total - ScanAll(init, None).lastTotal)));
      }
    }
  }

  // ---------- Incremental scans ----------

  /** The entries of a block stand next to each other. */
  ghost predicate Contiguous(ds: seq<MainDeposit>) {
    forall i, j, k :: 0 <= i < j < k < |ds| && ds[i].blockHash == ds[k].blockHash ==> ds[j].blockHash == ds[i].blockHash
  }

  /** No block is cut in two. */
  predicate BlockBoundary(ds: seq<MainDeposit>, e: nat)
    requires e <= |ds|
  {
    0 < e < |ds| ==> ds[e - 1].blockHash != ds[e].blockHash
  }

  /** The last block with a rise: everything after its last rise falls. */
  lemma {:induction false} LastRise(ds: seq<MainDeposit>) returns (r: nat)
    requires |ds| > 0
    ensures r < |ds| && Rises(ds, r) && ScanAll(ds, None).lastBlock == Some(ds[r].blockHash)
    ensures forall i :: r < i < |ds| ==> !Rises(ds, i)
  {
    var n := |ds| - 1;
    LastTotal(ds[..n], None);
    if Rises(ds, n) {
      r := n;
    } else {
      r := LastRise(ds[..n]);
      forall i | r < i < n ensures !Rises(ds, i) {
        assert !Rises(ds[..n], i);
      }
    }
  }

  /** Rescanning what was scanned already credits nothing and finds the same total. */
  lemma {:induction false} RescanIsSilent(ds: seq<MainDeposit>, r: nat, first: nat, k: nat)
    requires Contiguous(ds) && r < |ds| && first == FirstOf(ds, ds[r].blockHash)
    requires forall i :: r < i < |ds| ==> !Rises(ds, i)
    requires first < k <= |ds|
    ensures ScanAll(ds[first..k], Some(ds[r].blockHash)) == Scan(map[], ds[k - 1].total, None)
    decreases k
  {
    var seen := ds[first..k];
    assert seen[..|seen| - 1] == ds[first..k - 1] && seen[|seen| - 1] == ds[k - 1];
    if k - 1 == first {
      assert ScanAll(seen[..|seen| - 1], Some(ds[r].blockHash)) == NO_SCAN;
    } else {
      RescanIsSilent(ds, r, first, k - 1);
      assert ds[k - 1].blockHash != ds[r].blockHash ==> k - 1 > r && !Rises(ds, k - 1);
    }
  }

  lemma {:induction false} ScanFromAppend(s: Scan, a: seq<MainDeposit>, b: seq<MainDeposit>, start: Option<Hash>)
    ensures ScanFrom(s, a + b, start) == ScanFrom(ScanFrom(s, a, start), b, start)
    decreases |b|
  {
    if |b| == 0 {
      assert a + b == a;
    } else {
      ScanFromAppend(s, a, b[..|b| - 1], start);
      assert (a + b)[..|a + b| - 1] == a + b[..|b| - 1];
    }
  }

  ghost predicate Added(s: Scan, full: Scan, part: Scan) {
    && full.outputs == s.outputs + part.outputs && full.lastTotal == part.lastTotal
    && full.lastBlock == if part.lastBlock.Some? then part.lastBlock else s.lastBlock
  }

  lemma {:induction false} ScanOneAdds(s: Scan, full: Scan, part: Scan, d: MainDeposit, start: Option<Hash>)
    requires start != Some(d.blockHash) && Added(s, full, part)
    ensures Added(s, ScanOne(full, d, None), ScanOne(part, d, start))
  {
  }

  /** A scan adds to what it starts from; the start block matters only where it occurs. */
  lemma {:induction false} ScanAdds(s: Scan, ds: seq<MainDeposit>, start: Option<Hash>)
    requires forall i :: 0 <= i < |ds| ==> start != Some(ds[i].blockHash)
    ensures Added(s, ScanFrom(s, ds, None), ScanFrom(Scan(map[], s.lastTotal, None), ds, start))
  {
    if |ds| > 0 {
      var init, last := ds[..|ds| - 1], ds[|ds| - 1];
      ScanAdds(s, init, start);
      ScanOneAdds(s, ScanFrom(s, init, None), ScanFrom(Scan(map[], s.lastTotal, None), init, start), last, start);
    }
  }

  /** What the saved block becomes after a scan. */
  function Saved(saved: Option<Hash>, scan: Scan): Option<Hash> {
    if scan.lastBlock.Some? then scan.lastBlock else saved
  }

  lemma {:induction false} SavedBlockIsOver(ds: seq<MainDeposit>, e: nat, r: nat)
    requires Contiguous(ds) && 0 < e <= |ds| && BlockBoundary(ds, e) && r < e
    ensures forall i :: e <= i < |ds| ==> ds[i].blockHash != ds[r].blockHash
  {
  }

  lemma {:induction false} FirstOfPrefix(ds: seq<MainDeposit>, e: nat, r: nat)
    requires r < e <= |ds|
    ensures FirstOf(ds, ds[r].blockHash) == FirstOf(ds[..e], ds[r].blockHash) <= r
  {
    var at := FirstOf(ds[..e], ds[r].blockHash);
    assert ds[..e][r] == ds[r];
    assert at < e && ds[at] == ds[..e][at];
    assert forall j :: 0 <= j < at ==> ds[..e][j] == ds[j];
    var first := FirstOf(ds, ds[r].blockHash);
    assert first <= at;
  }

  /** A full scan is the scan of a prefix, and added to it the scan of the rest. */
  lemma {:induction false} FullScanAdds(ds: seq<MainDeposit>, e: nat, start: Option<Hash>)
    requires e <= |ds| && forall i :: e <= i < |ds| ==> start != Some(ds[i].blockHash)
    ensures
      Added(ScanAll(ds[..e], None), ScanAll(ds, None),
        ScanFrom(Scan(map[], ScanAll(ds[..e], None).lastTotal, None), ds[e..], start))
  {
    assert ds[..e] + ds[e..] == ds;
    ScanFromAppend(NO_SCAN, ds[..e], ds[e..], None);
    ScanAdds(ScanAll(ds[..e], None), ds[e..], start);
  }

  /**
   Scanning a list up to a block boundary, then scanning again from the saved block to the
   end, credits exactly what one uninterrupted scan credits, and saves the same block.
   */
  lemma {:induction false} RescanCompletes(ds: seq<MainDeposit>, e: nat)
    requires Contiguous(ds) && e <= |ds| && BlockBoundary(ds, e)
    ensures
      var first := ScanAll(ds[..e], None);
      var second := ScanAll(Listed(ds, first.lastBlock), first.lastBlock);
      var full := ScanAll(ds, None);
      && full.outputs == first.outputs + second.outputs
      && full.lastBlock == Saved(first.lastBlock, second)
      && second.outputs == ScanFrom(Scan(map[], first.lastTotal, None), ds[e..], first.lastBlock).outputs
  {
    if e == 0 {
      assert ds[..e] == [] && ds[e..] == ds;
    } else {
      var r := LastRise(ds[..e]);
      assert ds[..e][r] == ds[r];
      SavedBlockIsOver(ds, e, r);
      SecondScan(ds, e, r);
      FullScanAdds(ds, e, Some(ds[r].blockHash));
    }
  }

  lemma {:induction false} SecondScan(ds: seq<MainDeposit>, e: nat, r: nat)
    requires Contiguous(ds) && r < e <= |ds| && forall i :: r < i < e ==> !Rises(ds[..e], i)
    ensures
      var saved := Some(ds[r].blockHash);
      ScanAll(Listed(ds, saved), saved) == ScanFrom(Scan(map[], ScanAll(ds[..e], None).lastTotal, None), ds[e..], saved)
  {
    var a, b := ds[..e], ds[e..];
    var saved := ds[r].blockHash;
    var at := FirstOf(ds, saved);
    FirstOfPrefix(ds, e, r);
    assert a[r] == ds[r];
    RescanIsSilent(a, r, at, e);
    LastTotal(a, None);
    RestSplit(ds, at, e);
    ScanFromAppend(NO_SCAN, a[at..e], b, Some(saved));
  }

  // ---------- Bundle statuses ----------

  datatype SpentWithdrawal = SpentWithdrawal(sidechain: nat, hash: Hash)

  /** A failure wins over a confirmation; only confirmations are filtered by sidechain. */
  method GetWithdrawalBundleStatuses(sidechain: nat, spent: seq<SpentWithdrawal>, failed: seq<SpentWithdrawal>)
    returns (statuses: map<Hash, WithdrawalBundleStatus>)
    ensures forall x :: x in statuses && statuses[x] == Failed <==> exists f :: f in failed && f.hash == x
    ensures forall x :: x in statuses && statuses[x] == Confirmed <==>
      SpentWithdrawal(sidechain, x) in spent && !(exists f :: f in failed && f.hash == x)
  {
    statuses := map[];
    for i := 0 to |spent|
      invariant forall x :: x in statuses ==> statuses[x] == Confirmed
      invariant forall x :: x in statuses <==> SpentWithdrawal(sidechain, x) in spent[..i]
    {
      if spent[i].sidechain == sidechain {
        statuses := statuses[spent[i].hash := Confirmed];
      }
    }
    for i := 0 to |failed|
      invariant forall x :: x in statuses && statuses[x] == Failed <==> exists f :: f in failed[..i] && f.hash == x
      invariant forall x :: x in statuses && statuses[x] == Confirmed <==>
        SpentWithdrawal(sidechain, x) in spent && !(exists f :: f in failed[..i] && f.hash == x)
    {
      OneMore(failed, i);
      assert forall f :: f in failed[..i + 1] <==> f in failed[..i] || f == failed[i];
      statuses := statuses[failed[i].hash := Failed];
    }
    assert failed[..|failed|] == failed;
  }
}

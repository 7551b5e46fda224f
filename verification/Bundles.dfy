/**
 The withdrawal bundle: all withdrawals of a UTXO table, aggregated by destination and
 assembled into one mainchain transaction.
 */
module Bundles {
  import opened Prelude
  import opened Types
  import opened Values

  const MAX_STANDARD_TX_WEIGHT := 400_000
  // Weight of a bundle with 0 outputs, and of a single output.
  const BUNDLE_0_WEIGHT := 504
  const OUTPUT_WEIGHT := 128
  const MAX_BUNDLE_OUTPUTS := (MAX_STANDARD_TX_WEIGHT - BUNDLE_0_WEIGHT) / OUTPUT_WEIGHT

  datatype AggregatedWithdrawal =
    AggregatedWithdrawal(spentUtxos: Utxos, mainAddress: MainAddress, value: u64, mainFee: u64)

  function WithdrawalsTo(utxos: Utxos, d: MainAddress): Utxos {
    map o | o in utxos && utxos[o].IsWithdrawal() && utxos[o].content.mainAddress == d :: utxos[o]
  }

  function Destinations(utxos: Utxos): set<MainAddress> {
    set o | o in utxos && utxos[o].IsWithdrawal() :: utxos[o].content.mainAddress
  }

  function FeeOf(output: Output): nat {
    if output.IsWithdrawal() then output.content.mainFee else 0
  }

  /** The largest mainchain fee offered (see `MaxFeeIsMaximum`). */
  ghost function MaxFee(m: Utxos): nat {
    if m == map[] then 0
    else
      var o :| o in m;
      var rest := MaxFee(m - {o});
      if FeeOf(m[o]) > rest then FeeOf(m[o]) else rest
  }

  lemma {:induction false} MaxFeeIsMaximum(m: Utxos)
    ensures forall o :: o in m ==> FeeOf(m[o]) <= MaxFee(m)
    ensures m != map[] ==> exists o :: o in m && FeeOf(m[o]) == MaxFee(m)
    decreases |m|
  {
    if m != map[] {
      var o :| o in m && MaxFee(m)
        == if FeeOf(m[o]) > MaxFee(m - {o}) then FeeOf(m[o]) else MaxFee(m - {o});
      MaxFeeIsMaximum(m - {o});
      forall p | p in m ensures FeeOf(m[p]) <= MaxFee(m) {
        assert p == o || p in m - {o};
      }
      if FeeOf(m[o]) < MaxFee(m) {
        var p :| p in m - {o} && FeeOf((m - {o})[p]) == MaxFee(m - {o});
        assert p in m && FeeOf(m[p]) == MaxFee(m);
      }
    }
  }

  lemma {:induction false} MaxFeeWith(m: Utxos, o: OutPoint, output: Output)
    requires o !in m
    ensures MaxFee(m[o := output]) == if FeeOf(output) > MaxFee(m) then FeeOf(output) else MaxFee(m)
  {
    var n := m[o := output];
    MaxFeeIsMaximum(m);
    MaxFeeIsMaximum(n);
    assert FeeOf(n[o]) <= MaxFee(n);
    if m != map[] {
      var p :| p in m && FeeOf(m[p]) == MaxFee(m);
      assert FeeOf(n[p]) <= MaxFee(n);
    }
    var q :| q in n && FeeOf(n[q]) == MaxFee(n);
    assert q == o || FeeOf(m[q]) <= MaxFee(m);
  }

  /** Everything withdrawn to one destination: all its outputs, their sum, their largest fee. */
  ghost predicate IsAggregate(utxos: Utxos, a: AggregatedWithdrawal) {
    && a.spentUtxos == WithdrawalsTo(utxos, a.mainAddress)
    && a.value == ValueOf(a.spentUtxos)
    && a.mainFee == MaxFee(a.spentUtxos)
  }

  function Addresses(aggs: seq<AggregatedWithdrawal>): (ds: seq<MainAddress>)
    ensures |ds| == |aggs|
  {
    seq(|aggs|, i requires 0 <= i < |aggs| => aggs[i].mainAddress)
  }

  /** One aggregate a destination, in any order. */
  ghost predicate Aggregates(utxos: Utxos, aggs: seq<AggregatedWithdrawal>) {
    && NoDuplicates(Addresses(aggs)) && Elements(Addresses(aggs)) == Destinations(utxos)
    && forall i :: 0 <= i < |aggs| ==> IsAggregate(utxos, aggs[i])
  }

  function MainFees(aggs: seq<AggregatedWithdrawal>): nat {
    if |aggs| == 0 then 0 else MainFees(aggs[..|aggs| - 1]) + aggs[|aggs| - 1].mainFee
  }

  function SpentBy(aggs: seq<AggregatedWithdrawal>): Utxos {
    if |aggs| == 0 then map[] else SpentBy(aggs[..|aggs| - 1]) + aggs[|aggs| - 1].spentUtxos
  }

  function Payouts(aggs: seq<AggregatedWithdrawal>): (os: seq<TxOut>)
    ensures |os| == |aggs|
  {
    seq(|aggs|, i requires 0 <= i < |aggs| => TxOut(aggs[i].value, PayTo(aggs[i].mainAddress)))
  }

  /** How many of n destinations get into a bundle. */
  function ChosenCount(n: nat): nat { if n <= MAX_BUNDLE_OUTPUTS then n else MAX_BUNDLE_OUTPUTS + 1 }

  /** The loop guard is `>`, so one output more than MAX_BUNDLE_OUTPUTS gets in. */
  function Chosen(aggs: seq<AggregatedWithdrawal>): seq<AggregatedWithdrawal> {
    if |aggs| <= MAX_BUNDLE_OUTPUTS + 1 then aggs else aggs[..MAX_BUNDLE_OUTPUTS + 1]
  }

  function HeightCommitment(height: u32): OutPoint { Regular(Zero, height) }

  function BundleTransaction(
    c: Crypto, aggs: seq<AggregatedWithdrawal>, keys: seq<OutPoint>, height: u32): MainTransaction
    requires MainFees(aggs) < U64_LIMIT
  {
    MainTransaction([
      TxOut(0, ReturnDest),
      TxOut(0, MainchainFee(MainFees(aggs))),
      TxOut(0, InputsCommitment(c.commitment(keys + [HeightCommitment(height)])))
    ] + Payouts(aggs))
  }

  function Assemble(
    c: Crypto, aggs: seq<AggregatedWithdrawal>, keys: seq<OutPoint>, height: u32)
    : Result<Option<WithdrawalBundle>, Error>
  {
    if MainFees(aggs) >= U64_LIMIT then Err(Overflow)
    else
      var t := BundleTransaction(c, aggs, keys, height);
      if Weight(t) > MAX_STANDARD_TX_WEIGHT then Err(BundleTooHeavy(Weight(t), MAX_STANDARD_TX_WEIGHT))
      else Ok(Some(WithdrawalBundle(SpentBy(aggs), t)))
  }

  ghost predicate CollectedInOrder(
    c: Crypto, utxos: Utxos, height: u32, r: Result<Option<WithdrawalBundle>, Error>,
    aggs: seq<AggregatedWithdrawal>, keys: seq<OutPoint>)
  {
    && Aggregates(utxos, aggs)
    && NoDuplicates(keys) && Elements(keys) == SpentBy(Chosen(aggs)).Keys
    && r == Assemble(c, Chosen(aggs), keys, height)
  }

  /** The results collection may have: one for every order of destinations and of inputs. */
  ghost predicate Collected(c: Crypto, utxos: Utxos, height: u32, r: Result<Option<WithdrawalBundle>, Error>) {
    if exists d :: ValueOf(WithdrawalsTo(utxos, d)) >= U64_LIMIT then r == Err(Overflow)
    else if Destinations(utxos) == {} then r == Ok(None)
    else exists aggs, keys :: CollectedInOrder(c, utxos, height, r, aggs, keys)
  }

  lemma {:induction false} OrderOfCollection(
    c: Crypto, utxos: Utxos, height: u32, r: Result<Option<WithdrawalBundle>, Error>)
    returns (aggs: seq<AggregatedWithdrawal>, keys: seq<OutPoint>)
    requires Collected(c, utxos, height, r) && r != Err(Overflow) && r != Ok(None)
    ensures CollectedInOrder(c, utxos, height, r, aggs, keys)
  {
    aggs, keys :| CollectedInOrder(c, utxos, height, r, aggs, keys);
  }

  // ---------- Weight: section 'Transaction size calculations' of BIP 141 ----------

  function CompactSize(n: nat): nat {
    if n < 253 then 1 else if n <= 0xFFFF then 3 else if n <= 0xFFFF_FFFF then 5 else 9
  }

  /** OP_RETURN and a push byte before the data, but for a destination's own script. */
  function ScriptLength(s: Script): nat {
    match s
    case PayTo(d) => d.scriptLength
    case ReturnDest => 1 + 1 + 1
    case MainchainFee(_) => 1 + 1 + 8
    case InputsCommitment(_) => 1 + 1 + 32
  }

  function OutputSize(o: TxOut): nat { 8 + CompactSize(ScriptLength(o.script)) + ScriptLength(o.script) }

  function OutputsSize(os: seq<TxOut>): nat {
    if |os| == 0 then 0 else OutputsSize(os[..|os| - 1]) + OutputSize(os[|os| - 1])
  }

  /** Without witnesses the weight is four times the size; the one input's script is OP_0. */
  function Weight(t: MainTransaction): nat {
    4 * (4 + CompactSize(1) + (32 + 4 + CompactSize(1) + 1 + 4) + CompactSize(|t.outputs|) + OutputsSize(t.outputs) + 4)
  }

  lemma {:induction false} OutputsSizeAppend(a: seq<TxOut>, b: seq<TxOut>)
    ensures OutputsSize(a + b) == OutputsSize(a) + OutputsSize(b)
    decreases |b|
  {
    if |b| == 0 {
      assert a + b == a;
    } else {
      OutputsSizeAppend(a, b[..|b| - 1]);
      assert (a + b)[..|a + b| - 1] == a + b[..|b| - 1];
    }
  }

  lemma {:induction false} FixedOutputsSize(fee: u64, commitment: Hash)
    ensures
      var os := [TxOut(0, ReturnDest), TxOut(0, MainchainFee(fee)), TxOut(0, InputsCommitment(commitment))];
      OutputsSize(os) == 74
  {
    var os := [TxOut(0, ReturnDest), TxOut(0, MainchainFee(fee)), TxOut(0, InputsCommitment(commitment))];
    assert os[..2][..1] == os[..1] && os[..1][..0] == [];
    assert OutputsSize(os[..1]) == 12;
    assert OutputsSize(os[..2]) == 12 + 19;
  }

  /** The empty bundle weighs BUNDLE_0_WEIGHT; payouts and a long output count come on top. */
  lemma {:induction false} WeightOfBundle(c: Crypto, aggs: seq<AggregatedWithdrawal>, keys: seq<OutPoint>, height: u32)
    requires MainFees(aggs) < U64_LIMIT
    ensures Weight(BundleTransaction(c, aggs, keys, height))
         == BUNDLE_0_WEIGHT + 4 * (CompactSize(3 + |aggs|) - 1) + 4 * OutputsSize(Payouts(aggs))
  {
    var commitment := c.commitment(keys + [HeightCommitment(height)]);
    FixedOutputsSize(MainFees(aggs), commitment);
    OutputsSizeAppend(
      [TxOut(0, ReturnDest), TxOut(0, MainchainFee(MainFees(aggs))), TxOut(0, InputsCommitment(commitment))],
      Payouts(aggs));
  }

  function PayoutSize(d: MainAddress): nat { 8 + CompactSize(d.scriptLength) + d.scriptLength }

  /** What paying each of these destinations once takes; no order matters (see `SizeWith`). */
  ghost function PayoutSizes(ds: set<MainAddress>): nat {
    if ds == {} then 0
    else
      var d :| d in ds;
      PayoutSize(d) + PayoutSizes(ds - {d})
  }

  lemma {:induction false} SizeWithout(ds: set<MainAddress>, d: MainAddress)
    requires d in ds
    ensures PayoutSizes(ds) == PayoutSize(d) + PayoutSizes(ds - {d})
    decreases |ds|
  {
    var e :| e in ds && PayoutSizes(ds) == PayoutSize(e) + PayoutSizes(ds - {e});
    if e != d {
      SizeWithout(ds - {e}, d);
      assert ds - {e} - {d} == ds - {d} - {e};
      SizeWithout(ds - {d}, e);
    }
  }

  lemma {:induction false} SizeWith(ds: set<MainAddress>, d: MainAddress)
    requires d !in ds
    ensures PayoutSizes(ds + {d}) == PayoutSizes(ds) + PayoutSize(d)
  {
    SizeWithout(ds + {d}, d);
    assert ds + {d} - {d} == ds;
  }

  lemma {:induction false} SizeOfPayouts(aggs: seq<AggregatedWithdrawal>)
    requires NoDuplicates(Addresses(aggs))
    ensures OutputsSize(Payouts(aggs)) == PayoutSizes(Elements(Addresses(aggs)))
  {
    if |aggs| > 0 {
      var init, d := aggs[..|aggs| - 1], aggs[|aggs| - 1].mainAddress;
      var ds := Addresses(init);
      assert Addresses(aggs) == ds + [d];
      NoDuplicatesSplit(ds, [d]);
      assert d in Elements([d]);
      assert Elements(Addresses(aggs)) == Elements(ds) + {d};
      SizeOfPayouts(init);
      SizeWith(Elements(ds), d);
      assert Payouts(aggs)[..|aggs| - 1] == Payouts(init);
    }
  }

  lemma {:induction false} SizeAtMost(ds: set<MainAddress>, each: nat)
    requires forall d :: d in ds ==> PayoutSize(d) <= each
    ensures PayoutSizes(ds) <= each * |ds|
    decreases |ds|
  {
    if ds != {} {
      var d :| d in ds;
      SizeWithout(ds, d);
      SizeAtMost(ds - {d}, each);
      OneTimesMore(each, |ds|);
    }
  }

  lemma {:induction false} SizeAtLeast(ds: set<MainAddress>, each: nat)
    requires forall d :: d in ds ==> PayoutSize(d) >= each
    ensures PayoutSizes(ds) >= each * |ds|
    decreases |ds|
  {
    if ds != {} {
      var d :| d in ds;
      SizeWithout(ds, d);
      SizeAtLeast(ds - {d}, each);
      OneTimesMore(each, |ds|);
    }
  }

  lemma {:induction false} OneTimesMore(each: nat, n: nat)
    ensures each * n == each * (n - 1) + each
  {
  }

  /** The weight of a bundle that pays exactly these destinations. */
  ghost function BundleWeight(ds: set<MainAddress>): nat {
    BUNDLE_0_WEIGHT + 4 * (CompactSize(3 + |ds|) - 1) + 4 * PayoutSizes(ds)
  }

  lemma {:induction false} ChosenAggregates(utxos: Utxos, aggs: seq<AggregatedWithdrawal>)
    requires Aggregates(utxos, aggs)
    ensures var chosen := Chosen(aggs);
      && NoDuplicates(Addresses(chosen)) && Elements(Addresses(chosen)) <= Destinations(utxos)
      && |chosen| == ChosenCount(|Destinations(utxos)|)
      && forall i :: 0 <= i < |chosen| ==> IsAggregate(utxos, chosen[i]) && chosen[i].mainAddress in Destinations(utxos)
  {
    NoDuplicatesSize(Addresses(aggs));
    assert Addresses(Chosen(aggs)) == Addresses(aggs)[..|Chosen(aggs)|];
    forall i | 0 <= i < |Chosen(aggs)| ensures Chosen(aggs)[i].mainAddress in Destinations(utxos) {
      assert Addresses(aggs)[i] in Elements(Addresses(aggs));
    }
  }

  /** What any order of collection comes to. */
  lemma {:induction false} ChosenInOrder(
    c: Crypto, utxos: Utxos, height: u32, r: Result<Option<WithdrawalBundle>, Error>)
    returns (chosen: seq<AggregatedWithdrawal>, keys: seq<OutPoint>)
    requires Collected(c, utxos, height, r) && r != Err(Overflow) && r != Ok(None)
    ensures NoDuplicates(Addresses(chosen)) && Elements(Addresses(chosen)) <= Destinations(utxos)
    ensures |chosen| == ChosenCount(|Destinations(utxos)|)
    ensures forall i :: 0 <= i < |chosen| ==>
      IsAggregate(utxos, chosen[i]) && chosen[i].mainAddress in Destinations(utxos)
    ensures NoDuplicates(keys) && Elements(keys) == SpentBy(chosen).Keys
    ensures r == Assemble(c, chosen, keys, height)
  {
    var aggs, order := OrderOfCollection(c, utxos, height, r);
    ChosenAggregates(utxos, aggs);
    chosen, keys := Chosen(aggs), order;
  }

  lemma {:induction false} AssembleByWeight(
    c: Crypto, aggs: seq<AggregatedWithdrawal>, keys: seq<OutPoint>, height: u32)
    requires NoDuplicates(Addresses(aggs)) && Assemble(c, aggs, keys, height) != Err(Overflow)
    ensures
      var weight := BundleWeight(Elements(Addresses(aggs)));
      if weight > MAX_STANDARD_TX_WEIGHT
      then Assemble(c, aggs, keys, height) == Err(BundleTooHeavy(weight, MAX_STANDARD_TX_WEIGHT))
      else Assemble(c, aggs, keys, height).Ok?
  {
    NoDuplicatesSize(Addresses(aggs));
    SizeOfPayouts(aggs);
    WeightOfBundle(c, aggs, keys, height);
  }

  /**
   Whatever the order: collection is too heavy iff paying the destinations it chose is,
   each weighed with its own script.
   */
  lemma {:induction false} TooHeavyIffChosenAre(
    c: Crypto, utxos: Utxos, height: u32, r: Result<Option<WithdrawalBundle>, Error>)
    returns (ds: set<MainAddress>)
    requires Collected(c, utxos, height, r) && r != Err(Overflow)
    ensures ds <= Destinations(utxos) && |ds| == ChosenCount(|Destinations(utxos)|)
    ensures r.Err? <==> BundleWeight(ds) > MAX_STANDARD_TX_WEIGHT
    ensures r.Err? ==> r.error == BundleTooHeavy(BundleWeight(ds), MAX_STANDARD_TX_WEIGHT)
  {
    if Destinations(utxos) == {} {
      ds := {};
    } else {
      SomethingToCollect(c, utxos, height, r);
      var chosen, keys := ChosenInOrder(c, utxos, height, r);
      ds := Elements(Addresses(chosen));
      NoDuplicatesSize(Addresses(chosen));
      AssembleByWeight(c, chosen, keys, height);
    }
  }

  lemma {:induction false} SomethingToCollect(
    c: Crypto, utxos: Utxos, height: u32, r: Result<Option<WithdrawalBundle>, Error>)
    requires Collected(c, utxos, height, r) && r != Err(Overflow) && Destinations(utxos) != {}
    ensures r != Ok(None)
  {
    var aggs, keys :| CollectedInOrder(c, utxos, height, r, aggs, keys);
    assert r == Assemble(c, Chosen(aggs), keys, height);
  }

  /**
   The exact condition, for destinations with any scripts, as long as the guard lets them
   all in: collection is too heavy iff paying all destinations is.
   */
  lemma {:induction false} TooHeavyIffDestinationsAre(
    c: Crypto, utxos: Utxos, height: u32, r: Result<Option<WithdrawalBundle>, Error>)
    requires Collected(c, utxos, height, r) && r != Err(Overflow)
    requires |Destinations(utxos)| <= MAX_BUNDLE_OUTPUTS + 1
    ensures r.Err? <==> BundleWeight(Destinations(utxos)) > MAX_STANDARD_TX_WEIGHT
  {
    var ds := TooHeavyIffChosenAre(c, utxos, height, r);
    SubsetOfSameSize(ds, Destinations(utxos));
  }

  lemma {:induction false} SubsetOfSameSize(a: set<MainAddress>, b: set<MainAddress>)
    requires a <= b && |a| == |b|
    ensures a == b
  {
    assert a + (b - a) == b;
    assert |b - a| == 0;
  }

  /**
   With more destinations than that, the order decides which are paid. Any of them may be:
   so some collection is too heavy iff some choice is, whose fees fit in 64 bits.
   */
  lemma {:induction false} AnyChoiceIsPossible(c: Crypto, utxos: Utxos, height: u32, ds: set<MainAddress>)
    returns (r: Result<Option<WithdrawalBundle>, Error>, chosen: seq<AggregatedWithdrawal>)
    requires forall d :: ValueOf(WithdrawalsTo(utxos, d)) < U64_LIMIT
    requires ds <= Destinations(utxos) && |ds| == ChosenCount(|Destinations(utxos)|)
    ensures Collected(c, utxos, height, r)
    ensures NoDuplicates(Addresses(chosen)) && Elements(Addresses(chosen)) == ds
    ensures forall i :: 0 <= i < |chosen| ==> IsAggregate(utxos, chosen[i])
    ensures r == Err(Overflow) <==> MainFees(chosen) >= U64_LIMIT
    ensures r != Err(Overflow) ==> (r.Err? <==> BundleWeight(ds) > MAX_STANDARD_TX_WEIGHT)
    ensures r.Ok? && r.value.Some? ==> r.value.value.spentUtxos == WithdrawalsToAny(utxos, ds)
  {
    if Destinations(utxos) == {} {
      r, chosen := Ok(None), [];
    } else {
      var aggs := OrderThatChooses(utxos, ds);
      chosen := Chosen(aggs);
      var keys := SomeOrder(SpentBy(chosen).Keys);
      r := Assemble(c, chosen, keys, height);
      CollectsInOrder(c, utxos, height, r, aggs, keys);
      OutcomeOf(c, chosen, keys, height);
    }
  }

  lemma {:induction false} CollectsInOrder(
    c: Crypto, utxos: Utxos, height: u32, r: Result<Option<WithdrawalBundle>, Error>,
    aggs: seq<AggregatedWithdrawal>, keys: seq<OutPoint>)
    requires forall d :: ValueOf(WithdrawalsTo(utxos, d)) < U64_LIMIT
    requires Destinations(utxos) != {} && CollectedInOrder(c, utxos, height, r, aggs, keys)
    ensures Collected(c, utxos, height, r)
  {
  }

  lemma {:induction false} OutcomeOf(
    c: Crypto, chosen: seq<AggregatedWithdrawal>, keys: seq<OutPoint>, height: u32)
    requires NoDuplicates(Addresses(chosen))
    ensures
      var r, ds := Assemble(c, chosen, keys, height), Elements(Addresses(chosen));
      && (r == Err(Overflow) <==> MainFees(chosen) >= U64_LIMIT)
      && (r != Err(Overflow) ==> (r.Err? <==> BundleWeight(ds) > MAX_STANDARD_TX_WEIGHT))
      && (r.Ok? ==> r.value.Some? && r.value.value.spentUtxos == SpentBy(chosen))
  {
    if MainFees(chosen) < U64_LIMIT {
      AssembleByWeight(c, chosen, keys, height);
    }
  }

  lemma {:induction false} OrderThatChooses(utxos: Utxos, ds: set<MainAddress>)
    returns (aggs: seq<AggregatedWithdrawal>)
    requires forall d :: ValueOf(WithdrawalsTo(utxos, d)) < U64_LIMIT
    requires ds <= Destinations(utxos) && |ds| == ChosenCount(|Destinations(utxos)|)
    ensures Aggregates(utxos, aggs)
    ensures NoDuplicates(Addresses(Chosen(aggs))) && Elements(Addresses(Chosen(aggs))) == ds
    ensures SpentBy(Chosen(aggs)) == WithdrawalsToAny(utxos, ds)
  {
    var order := OrderFrom(Destinations(utxos), ds);
    aggs := AggregatesInOrder(utxos, order);
    NoDuplicatesSize(order);
    ChosenFirst(utxos, aggs, ds);
  }

  /** An order of a set that begins with the elements of a part. */
  lemma {:induction false} OrderFrom(all: set<MainAddress>, part: set<MainAddress>) returns (order: seq<MainAddress>)
    requires part <= all
    ensures NoDuplicates(order) && Elements(order) == all
    ensures |part| <= |order| && Elements(order[..|part|]) == part
  {
    var first := SomeOrder(part);
    var last := SomeOrder(all - part);
    NoDuplicatesSplit(first, last);
    ElementsAppend(first, last);
    NoDuplicatesSize(first);
    order := first + last;
    assert order[..|part|] == first;
  }

  lemma {:induction false} ChosenFirst(utxos: Utxos, aggs: seq<AggregatedWithdrawal>, ds: set<MainAddress>)
    requires Aggregates(utxos, aggs) && |ds| == ChosenCount(|aggs|)
    requires Elements(Addresses(aggs)[..|ds|]) == ds
    ensures NoDuplicates(Addresses(Chosen(aggs))) && Elements(Addresses(Chosen(aggs))) == ds
    ensures SpentBy(Chosen(aggs)) == WithdrawalsToAny(utxos, ds)
  {
    var chosen := Chosen(aggs);
    assert Addresses(chosen) == Addresses(aggs)[..|ds|];
    SpentByDestinations(utxos, chosen);
  }

  lemma {:induction false} AggregatesInOrder(utxos: Utxos, order: seq<MainAddress>)
    returns (aggs: seq<AggregatedWithdrawal>)
    requires forall d :: ValueOf(WithdrawalsTo(utxos, d)) < U64_LIMIT
    requires NoDuplicates(order) && Elements(order) == Destinations(utxos)
    ensures Aggregates(utxos, aggs) && Addresses(aggs) == order
  {
    forall d ensures MaxFee(WithdrawalsTo(utxos, d)) < U64_LIMIT { MaxFeeIsMaximum(WithdrawalsTo(utxos, d)); }
    aggs := seq(|order|, i requires 0 <= i < |order| =>
      var m := WithdrawalsTo(utxos, order[i]);
      AggregatedWithdrawal(m, order[i], ValueOf(m), MaxFee(m)));
    assert Addresses(aggs) == order;
  }

  /**
   Above MAX_BUNDLE_OUTPUTS destinations, where the `>` guard lets one too many in: scripts
   of at most 22 bytes always fit, and scripts of at least 23 never do.
   */
  lemma {:induction false} ManyDestinations(
    c: Crypto, utxos: Utxos, height: u32, r: Result<Option<WithdrawalBundle>, Error>)
    requires Collected(c, utxos, height, r) && r != Err(Overflow)
    requires |Destinations(utxos)| > MAX_BUNDLE_OUTPUTS
    ensures (forall d :: d in Destinations(utxos) ==> d.scriptLength <= 22) ==> r.Ok?
    ensures (forall d :: d in Destinations(utxos) ==> d.scriptLength >= 23) ==> r.Err?
  {
    var ds := TooHeavyIffChosenAre(c, utxos, height, r);
    if forall d :: d in Destinations(utxos) ==> d.scriptLength <= 22 {
      ShortScriptsFit(ds);
    }
    if forall d :: d in Destinations(utxos) ==> d.scriptLength >= 23 {
      OneTooMany(ds);
    }
  }

  lemma {:induction false} ShortScriptsFit(ds: set<MainAddress>)
    requires |ds| == 3122 && forall d :: d in ds ==> d.scriptLength <= 22
    ensures BundleWeight(ds) <= 400_000
  {
    SizeAtMost(ds, 31);
  }

  lemma {:induction false} OneTooMany(ds: set<MainAddress>)
    requires |ds| == 3122 && forall d :: d in ds ==> d.scriptLength >= 23
    ensures BundleWeight(ds) > 400_000
  {
    SizeAtLeast(ds, 32);
  }

  /** Up to MAX_BUNDLE_OUTPUTS destinations with scripts of at most 23 bytes are never too heavy. */
  lemma {:induction false} SmallBundleFits(
    c: Crypto, utxos: Utxos, height: u32, r: Result<Option<WithdrawalBundle>, Error>)
    requires Collected(c, utxos, height, r)
    requires |Destinations(utxos)| <= MAX_BUNDLE_OUTPUTS
    requires forall d :: d in Destinations(utxos) ==> d.scriptLength <= 23
    ensures r.Err? ==> r.error == Overflow
  {
    if r != Err(Overflow) {
      TooHeavyIffDestinationsAre(c, utxos, height, r);
      SmallWeight(Destinations(utxos));
    }
  }

  lemma {:induction false} SmallWeight(ds: set<MainAddress>)
    requires |ds| <= MAX_BUNDLE_OUTPUTS && forall d :: d in ds ==> d.scriptLength <= 23
    ensures BundleWeight(ds) <= MAX_STANDARD_TX_WEIGHT
  {
    SizeAtMost(ds, 32);
  }

  /** Where every script has exactly 23 bytes, collection fails iff the guard lets one too many in. */
  lemma {:induction false} TooHeavyIffTooManyDestinations(
    c: Crypto, utxos: Utxos, height: u32, r: Result<Option<WithdrawalBundle>, Error>)
    requires Collected(c, utxos, height, r) && r != Err(Overflow)
    requires forall d :: d in Destinations(utxos) ==> d.scriptLength == 23
    ensures r.Err? <==> |Destinations(utxos)| > MAX_BUNDLE_OUTPUTS
  {
    if |Destinations(utxos)| > MAX_BUNDLE_OUTPUTS {
      ManyDestinations(c, utxos, height, r);
    } else {
      SmallBundleFits(c, utxos, height, r);
    }
  }

  /** One withdrawal to each of 2938 destinations whose scripts, such as P2PKH's, have 25 bytes. */
  function LongScripts(): Utxos {
    map i: nat | i < 2938 :: Regular(Zero, i) := Output(Address(0), Withdrawal(1, 0, MainAddress(i, 25)))
  }

  /** The guard is not the only way to fail: these are too heavy below MAX_BUNDLE_OUTPUTS. */
  lemma {:induction false} LongScriptsAreTooHeavy(
    c: Crypto, height: u32, r: Result<Option<WithdrawalBundle>, Error>)
    requires Collected(c, LongScripts(), height, r)
    ensures |Destinations(LongScripts())| < MAX_BUNDLE_OUTPUTS && r.Err?
  {
    var utxos, order := LongScripts(), seq(2938, (i: nat) => MainAddress(i, 25));
    forall d ensures d in Destinations(utxos) <==> d in Elements(order) {
      if d in Elements(order) {
        var i :| 0 <= i < 2938 && order[i] == d;
        assert Regular(Zero, i) in utxos;
      }
      if d in Destinations(utxos) {
        var o :| o in utxos && utxos[o].IsWithdrawal() && utxos[o].content.mainAddress == d;
        assert order[o.vout] == d;
      }
    }
    assert Destinations(utxos) == Elements(order);
    NoDuplicatesSize(order);
    if r != Err(Overflow) {
      TooHeavyIffDestinationsAre(c, utxos, height, r);
      SizeAtLeast(Destinations(utxos), 34);
    }
  }

  lemma {:induction false} BundleRespectsWeight(c: Crypto, utxos: Utxos, height: u32, b: WithdrawalBundle)
    requires Collected(c, utxos, height, Ok(Some(b)))
    ensures Weight(b.transaction) <= MAX_STANDARD_TX_WEIGHT
  {
    var aggs, keys := OrderOfCollection(c, utxos, height, Ok(Some(b)));
  }

  // ---------- Accounting ----------

  /** All withdrawals of the table to a set of destinations. */
  function WithdrawalsToAny(utxos: Utxos, ds: set<MainAddress>): Utxos {
    map o | o in utxos && utxos[o].IsWithdrawal() && utxos[o].content.mainAddress in ds :: utxos[o]
  }

  function PaidOut(os: seq<TxOut>): nat {
    if |os| == 0 then 0 else PaidOut(os[..|os| - 1]) + os[|os| - 1].value
  }

  lemma {:induction false} WithdrawalsToOneMore(utxos: Utxos, ds: set<MainAddress>, d: MainAddress)
    requires d !in ds
    ensures WithdrawalsToAny(utxos, ds + {d}) == WithdrawalsToAny(utxos, ds) + WithdrawalsTo(utxos, d)
    ensures WithdrawalsToAny(utxos, ds).Keys !! WithdrawalsTo(utxos, d).Keys
  {
  }

  lemma {:induction false} SpentByDestinations(utxos: Utxos, aggs: seq<AggregatedWithdrawal>)
    requires NoDuplicates(Addresses(aggs))
    requires forall i :: 0 <= i < |aggs| ==> IsAggregate(utxos, aggs[i])
    ensures SpentBy(aggs) == WithdrawalsToAny(utxos, Elements(Addresses(aggs)))
    ensures PaidOut(Payouts(aggs)) == ValueOf(SpentBy(aggs))
  {
    if |aggs| > 0 {
      var init, last := aggs[..|aggs| - 1], aggs[|aggs| - 1];
      var ds := Addresses(init);
      assert Addresses(aggs) == ds + [last.mainAddress];
      NoDuplicatesSplit(ds, [last.mainAddress]);
      assert last.mainAddress in Elements([last.mainAddress]);
      assert Elements(Addresses(aggs)) == Elements(ds) + {last.mainAddress};
      SpentByDestinations(utxos, init);
      WithdrawalsToOneMore(utxos, Elements(ds), last.mainAddress);
      ValueOfDisjointUnion(SpentBy(init), last.spentUtxos);
      assert Payouts(aggs)[..|aggs| - 1] == Payouts(init);
    }
  }

  /**
   The account a bundle gives, whatever order the sort left: for some set of destinations,
   it spends exactly all withdrawals to them, pays each destination the sum of its
   withdrawals in one output, and pays out in all what it spends.
   */
  ghost predicate Accounts(utxos: Utxos, b: WithdrawalBundle, paid: seq<MainAddress>) {
    && NoDuplicates(paid) && Elements(paid) <= Destinations(utxos)
    && b.spentUtxos == WithdrawalsToAny(utxos, Elements(paid))
    && |b.transaction.outputs| == 3 + |paid|
    && (forall i :: 0 <= i < |paid| ==>
          && ValueOf(WithdrawalsTo(utxos, paid[i])) < U64_LIMIT
          && b.transaction.outputs[3 + i] == TxOut(ValueOf(WithdrawalsTo(utxos, paid[i])), PayTo(paid[i])))
    && PaidOut(b.transaction.outputs) == ValueOf(b.spentUtxos)
  }

  lemma {:induction false} PaidOutAppend(a: seq<TxOut>, b: seq<TxOut>)
    ensures PaidOut(a + b) == PaidOut(a) + PaidOut(b)
    decreases |b|
  {
    if |b| == 0 {
      assert a + b == a;
    } else {
      PaidOutAppend(a, b[..|b| - 1]);
      assert (a + b)[..|a + b| - 1] == a + b[..|b| - 1];
    }
  }

  lemma {:induction false} AssembledOutputs(
    c: Crypto, aggs: seq<AggregatedWithdrawal>, keys: seq<OutPoint>, height: u32, b: WithdrawalBundle)
    requires Assemble(c, aggs, keys, height) == Ok(Some(b))
    ensures b.spentUtxos == SpentBy(aggs)
    ensures |b.transaction.outputs| == 3 + |aggs| && b.transaction.outputs[3..] == Payouts(aggs)
    ensures MainFees(aggs) < U64_LIMIT && b.transaction.outputs[1] == TxOut(0, MainchainFee(MainFees(aggs)))
    ensures b.transaction.outputs[2] == TxOut(0, InputsCommitment(c.commitment(keys + [HeightCommitment(height)])))
    ensures PaidOut(b.transaction.outputs) == PaidOut(Payouts(aggs))
    ensures Weight(b.transaction) <= MAX_STANDARD_TX_WEIGHT
  {
    var fixed := b.transaction.outputs[..3];
    assert b.transaction.outputs == fixed + Payouts(aggs);
    PaidOutAppend(fixed, Payouts(aggs));
    assert fixed[..2][..1] == fixed[..1] && fixed[..1][..0] == [];
    assert PaidOut(fixed[..1]) == 0 && PaidOut(fixed[..2]) == 0;
  }

  lemma {:induction false} BundleAccounting(c: Crypto, utxos: Utxos, height: u32, b: WithdrawalBundle)
    returns (chosen: seq<AggregatedWithdrawal>)
    requires Collected(c, utxos, height, Ok(Some(b)))
    ensures Accounts(utxos, b, Addresses(chosen))
    ensures |chosen| == ChosenCount(|Destinations(utxos)|)
    // The committed fee is the sum, over the destinations, of the largest fee offered.
    ensures forall i :: 0 <= i < |chosen| ==> chosen[i].mainFee == MaxFee(WithdrawalsTo(utxos, chosen[i].mainAddress))
    ensures MainFees(chosen) < U64_LIMIT && b.transaction.outputs[1] == TxOut(0, MainchainFee(MainFees(chosen)))
  {
    var keys;
    chosen, keys := ChosenInOrder(c, utxos, height, Ok(Some(b)));
    SpentByDestinations(utxos, chosen);
    AssembledOutputs(c, chosen, keys, height, b);
    forall i | 0 <= i < |chosen|
      ensures b.transaction.outputs[3 + i] == TxOut(chosen[i].value, PayTo(chosen[i].mainAddress))
    {
      assert b.transaction.outputs[3..][i] == Payouts(chosen)[i];
    }
  }

  // ---------- The bundle in terms of what the withdrawals say ----------

  function AmountTo(output: Output, d: MainAddress): nat {
    if output.content.Withdrawal? && output.content.mainAddress == d then output.content.value else 0
  }

  /** What the outputs of a table withdraw to one destination. */
  ghost function WithdrawnTo(utxos: Utxos, d: MainAddress): nat
    decreases |utxos|
  {
    if utxos == map[] then 0
    else
      var o :| o in utxos;
      AmountTo(utxos[o], d) + WithdrawnTo(utxos - {o}, d)
  }

  lemma {:induction false} FirstWithdrawn(utxos: Utxos, d: MainAddress) returns (o: OutPoint)
    requires utxos != map[]
    ensures o in utxos && WithdrawnTo(utxos, d) == AmountTo(utxos[o], d) + WithdrawnTo(utxos - {o}, d)
  {
    o :| o in utxos && WithdrawnTo(utxos, d) == AmountTo(utxos[o], d) + WithdrawnTo(utxos - {o}, d);
  }

  lemma {:induction false} ValueWithdrawn(utxos: Utxos, d: MainAddress, o: OutPoint)
    requires o in utxos
    ensures ValueOf(WithdrawalsTo(utxos, d)) == AmountTo(utxos[o], d) + ValueOf(WithdrawalsTo(utxos - {o}, d))
  {
    var m := WithdrawalsTo(utxos, d);
    assert WithdrawalsTo(utxos - {o}, d) == m - {o};
    if o in m {
      ValueWithout(m, o);
    } else {
      assert m - {o} == m;
    }
  }

  lemma {:induction false} WithdrawnIsValue(utxos: Utxos, d: MainAddress)
    ensures ValueOf(WithdrawalsTo(utxos, d)) == WithdrawnTo(utxos, d)
    decreases |utxos|
  {
    if utxos == map[] {
      assert WithdrawalsTo(utxos, d) == map[];
    } else {
      var o := FirstWithdrawn(utxos, d);
      WithdrawnIsValue(utxos - {o}, d);
      ValueWithdrawn(utxos, d, o);
    }
  }

  ghost predicate Withdraws(utxos: Utxos, o: OutPoint, d: MainAddress) {
    o in utxos && utxos[o].content.Withdrawal? && utxos[o].content.mainAddress == d
  }

  /** The largest fee that the withdrawals to this destination offer. */
  ghost predicate IsLargestFee(utxos: Utxos, d: MainAddress, fee: nat) {
    && (forall o :: Withdraws(utxos, o, d) ==> utxos[o].content.mainFee <= fee)
    && (exists o :: Withdraws(utxos, o, d) && utxos[o].content.mainFee == fee)
  }

  lemma {:induction false} MaxFeeIsLargest(utxos: Utxos, d: MainAddress)
    requires d in Destinations(utxos)
    ensures IsLargestFee(utxos, d, MaxFee(WithdrawalsTo(utxos, d)))
  {
    var m := WithdrawalsTo(utxos, d);
    NoWithdrawalsElsewhere(utxos, d);
    MaxFeeIsMaximum(m);
    forall o | Withdraws(utxos, o, d) ensures utxos[o].content.mainFee <= MaxFee(m) {
      assert o in m && FeeOf(m[o]) == utxos[o].content.mainFee;
    }
    var p :| p in m && FeeOf(m[p]) == MaxFee(m);
    assert Withdraws(utxos, p, d) && utxos[p].content.mainFee == MaxFee(m);
  }

  function SumOf(ns: seq<nat>): nat {
    if |ns| == 0 then 0 else SumOf(ns[..|ns| - 1]) + ns[|ns| - 1]
  }

  function FeesOf(aggs: seq<AggregatedWithdrawal>): (fees: seq<nat>)
    ensures |fees| == |aggs|
  {
    seq(|aggs|, i requires 0 <= i < |aggs| => aggs[i].mainFee)
  }

  lemma {:induction false} SumOfFees(aggs: seq<AggregatedWithdrawal>)
    ensures SumOf(FeesOf(aggs)) == MainFees(aggs)
  {
    if |aggs| > 0 {
      SumOfFees(aggs[..|aggs| - 1]);
      assert FeesOf(aggs)[..|aggs| - 1] == FeesOf(aggs[..|aggs| - 1]);
    }
  }

  /** What the bundle spends, said of the outputs themselves. */
  ghost predicate SpendsAllTo(utxos: Utxos, paid: seq<MainAddress>, spent: Utxos) {
    forall o ::
      && (o in spent <==> o in utxos && utxos[o].content.Withdrawal? && utxos[o].content.mainAddress in paid)
      && (o in spent ==> spent[o] == utxos[o])
  }

  /**
   The whole bundle, from what the outputs of the table say: it pays destinations of
   withdrawals, all of them unless it pays 3122; to each the amounts withdrawn to it; it
   spends just those withdrawals, and it commits to the sum of the largest fees, to what
   it spends in some order, and to the height.
   */
  lemma {:induction false} BundleInPlainTerms(c: Crypto, utxos: Utxos, height: u32, b: WithdrawalBundle)
    returns (paid: seq<MainAddress>, fees: seq<nat>, keys: seq<OutPoint>)
    requires Collected(c, utxos, height, Ok(Some(b)))
    ensures NoDuplicates(paid) && 0 < |paid| <= 3122 && |fees| == |paid|
    ensures forall i :: 0 <= i < |paid| ==> IsLargestFee(utxos, paid[i], fees[i])
    ensures |paid| < 3122 ==>
      forall o :: o in utxos && utxos[o].content.Withdrawal? ==> utxos[o].content.mainAddress in paid
    ensures SpendsAllTo(utxos, paid, b.spentUtxos)
    ensures NoDuplicates(keys) && (forall o :: o in keys <==> o in b.spentUtxos)
    ensures SumOf(fees) < 0x1_0000_0000_0000_0000 && |b.transaction.outputs| == 3 + |paid|
    ensures b.transaction.outputs[0] == TxOut(0, ReturnDest)
    ensures b.transaction.outputs[1] == TxOut(0, MainchainFee(SumOf(fees)))
    ensures b.transaction.outputs[2] == TxOut(0, InputsCommitment(c.commitment(keys + [Regular(Zero, height)])))
    ensures forall i :: 0 <= i < |paid| ==>
      && WithdrawnTo(utxos, paid[i]) < 0x1_0000_0000_0000_0000
      && b.transaction.outputs[3 + i] == TxOut(WithdrawnTo(utxos, paid[i]), PayTo(paid[i]))
  {
    var chosen;
    chosen, keys := ChosenForBundle(c, utxos, height, b);
    paid, fees := Addresses(chosen), FeesOf(chosen);
    PaidInPlainTerms(c, utxos, height, b, chosen, keys);
    FixedInPlainTerms(c, chosen, keys, height, b);
    AllChosen(utxos, chosen);
    SpentByDestinations(utxos, chosen);
    SpentInPlainTerms(utxos, paid, b.spentUtxos);
    forall o ensures o in keys <==> o in b.spentUtxos { assert o in Elements(keys) <==> o in keys; }
  }

  ghost predicate ChosenFor(
    c: Crypto, utxos: Utxos, height: u32, b: WithdrawalBundle, chosen: seq<AggregatedWithdrawal>, keys: seq<OutPoint>)
  {
    && NoDuplicates(Addresses(chosen)) && Elements(Addresses(chosen)) <= Destinations(utxos)
    && (forall i :: 0 <= i < |chosen| ==> IsAggregate(utxos, chosen[i]))
    && Assemble(c, chosen, keys, height) == Ok(Some(b))
  }

  lemma {:induction false} ChosenForBundle(c: Crypto, utxos: Utxos, height: u32, b: WithdrawalBundle)
    returns (chosen: seq<AggregatedWithdrawal>, keys: seq<OutPoint>)
    requires Collected(c, utxos, height, Ok(Some(b)))
    ensures ChosenFor(c, utxos, height, b, chosen, keys)
    ensures chosen != [] && |chosen| == ChosenCount(|Destinations(utxos)|)
    ensures NoDuplicates(keys) && Elements(keys) == SpentBy(chosen).Keys && b.spentUtxos == SpentBy(chosen)
  {
    chosen, keys := ChosenInOrder(c, utxos, height, Ok(Some(b)));
    assert Destinations(utxos) != {};
  }

  lemma {:induction false} PaidInPlainTerms(
    c: Crypto, utxos: Utxos, height: u32, b: WithdrawalBundle, chosen: seq<AggregatedWithdrawal>, keys: seq<OutPoint>)
    requires ChosenFor(c, utxos, height, b, chosen, keys)
    ensures |b.transaction.outputs| == 3 + |chosen|
    ensures forall i :: 0 <= i < |chosen| ==>
      && IsLargestFee(utxos, Addresses(chosen)[i], FeesOf(chosen)[i])
      && WithdrawnTo(utxos, Addresses(chosen)[i]) < U64_LIMIT
      && b.transaction.outputs[3 + i]
         == TxOut(WithdrawnTo(utxos, Addresses(chosen)[i]), PayTo(Addresses(chosen)[i]))
  {
    AssembledOutputs(c, chosen, keys, height, b);
    forall i | 0 <= i < |chosen|
      ensures IsLargestFee(utxos, Addresses(chosen)[i], FeesOf(chosen)[i])
      ensures WithdrawnTo(utxos, Addresses(chosen)[i]) == chosen[i].value
      ensures b.transaction.outputs[3 + i] == TxOut(chosen[i].value, PayTo(chosen[i].mainAddress))
    {
      assert Addresses(chosen)[i] in Elements(Addresses(chosen));
      MaxFeeIsLargest(utxos, chosen[i].mainAddress);
      WithdrawnIsValue(utxos, chosen[i].mainAddress);
      assert b.transaction.outputs[3..][i] == Payouts(chosen)[i];
    }
  }

  lemma {:induction false} FixedInPlainTerms(
    c: Crypto, chosen: seq<AggregatedWithdrawal>, keys: seq<OutPoint>, height: u32, b: WithdrawalBundle)
    requires Assemble(c, chosen, keys, height) == Ok(Some(b))
    ensures SumOf(FeesOf(chosen)) < U64_LIMIT && |b.transaction.outputs| >= 3
    ensures b.transaction.outputs[0] == TxOut(0, ReturnDest)
    ensures b.transaction.outputs[1] == TxOut(0, MainchainFee(SumOf(FeesOf(chosen))))
    ensures b.transaction.outputs[2] == TxOut(0, InputsCommitment(c.commitment(keys + [Regular(Zero, height)])))
  {
    SumOfFees(chosen);
  }

  lemma {:induction false} AllChosen(utxos: Utxos, chosen: seq<AggregatedWithdrawal>)
    requires NoDuplicates(Addresses(chosen)) && Elements(Addresses(chosen)) <= Destinations(utxos)
    requires |chosen| == ChosenCount(|Destinations(utxos)|)
    ensures |chosen| <= 3122
    ensures |chosen| < 3122 ==>
      forall o :: o in utxos && utxos[o].content.Withdrawal? ==> utxos[o].content.mainAddress in Addresses(chosen)
  {
    NoDuplicatesSize(Addresses(chosen));
    if |chosen| < 3122 {
      SubsetOfSameSize(Elements(Addresses(chosen)), Destinations(utxos));
      forall o | o in utxos && utxos[o].content.Withdrawal?
        ensures utxos[o].content.mainAddress in Addresses(chosen)
      {
        assert utxos[o].content.mainAddress in Destinations(utxos);
      }
    }
  }

  lemma {:induction false} SpentInPlainTerms(utxos: Utxos, paid: seq<MainAddress>, spent: Utxos)
    requires spent == WithdrawalsToAny(utxos, Elements(paid))
    ensures SpendsAllTo(utxos, paid, spent)
  {
    forall o
      ensures o in spent <==> o in utxos && utxos[o].content.Withdrawal? && utxos[o].content.mainAddress in paid
    {
      assert forall d :: d in Elements(paid) <==> d in paid;
    }
  }

  /**
   Destinations with scripts of one length, up to 3122 of them: collection is too heavy
   iff these bytes exceed 400000 weight units.
   */
  lemma {:induction false} EqualScripts(
    c: Crypto, utxos: Utxos, height: u32, r: Result<Option<WithdrawalBundle>, Error>, length: nat)
    requires Collected(c, utxos, height, r) && r != Err(Overflow)
    requires |Destinations(utxos)| <= 3122 && length < 253
    requires forall o :: o in utxos && utxos[o].content.Withdrawal? ==>
      utxos[o].content.mainAddress.scriptLength == length
    ensures
      var n := |Destinations(utxos)|;
      r.Err? <==> (if n < 250 then 504 else 512) + 4 * ((9 + length) * n) > 400_000
  {
    TooHeavyIffDestinationsAre(c, utxos, height, r);
    EqualWeight(Destinations(utxos), length);
  }

  lemma {:induction false} EqualWeight(ds: set<MainAddress>, length: nat)
    requires |ds| <= 3122 && length < 253 && forall d :: d in ds ==> d.scriptLength == length
    ensures BundleWeight(ds) == (if |ds| < 250 then 504 else 512) + 4 * ((9 + length) * |ds|)
  {
    SizeAtMost(ds, 9 + length);
    SizeAtLeast(ds, 9 + length);
  }

  /** A bundle takes withdrawals out of the table, at least one, and nothing else. */
  lemma {:induction false} BundleSpendsWithdrawals(c: Crypto, utxos: Utxos, height: u32, b: WithdrawalBundle)
    requires Collected(c, utxos, height, Ok(Some(b)))
    ensures b.spentUtxos == Restrict(utxos, b.spentUtxos.Keys) && b.spentUtxos != map[]
    ensures forall o :: o in b.spentUtxos ==> b.spentUtxos[o].IsWithdrawal()
  {
    var ds := SpentDestinations(c, utxos, height, b);
    SomethingSpent(utxos, ds, b.spentUtxos);
  }

  lemma {:induction false} SpentDestinations(c: Crypto, utxos: Utxos, height: u32, b: WithdrawalBundle)
    returns (ds: seq<MainAddress>)
    requires Collected(c, utxos, height, Ok(Some(b)))
    ensures ds != [] && Elements(ds) <= Destinations(utxos)
    ensures b.spentUtxos == WithdrawalsToAny(utxos, Elements(ds))
  {
    var chosen := BundleAccounting(c, utxos, height, b);
    ds := Addresses(chosen);
  }

  lemma {:induction false} SomethingSpent(utxos: Utxos, ds: seq<MainAddress>, spent: Utxos)
    requires ds != [] && Elements(ds) <= Destinations(utxos)
    requires spent == WithdrawalsToAny(utxos, Elements(ds))
    ensures spent == Restrict(utxos, spent.Keys) && spent != map[]
    ensures forall o :: o in spent ==> spent[o].IsWithdrawal()
  {
    assert ds[0] in Elements(ds);
    var o :| o in utxos && utxos[o].IsWithdrawal() && utxos[o].content.mainAddress == ds[0];
    assert o in spent;
  }

  // ---------- Stale statuses ----------

  /** The transaction's third output commits to some inputs and then to the height. */
  ghost predicate CommitsTo(c: Crypto, height: u32, t: MainTransaction) {
    exists keys :: CommitsToInputs(c, height, t, keys)
  }

  ghost predicate CommitsToInputs(c: Crypto, height: u32, t: MainTransaction, keys: seq<OutPoint>) {
    |t.outputs| >= 3 && t.outputs[2] == TxOut(0, InputsCommitment(c.commitment(keys + [HeightCommitment(height)])))
  }

  lemma {:induction false} CollectedCommitsToHeight(c: Crypto, utxos: Utxos, height: u32, b: WithdrawalBundle)
    requires Collected(c, utxos, height, Ok(Some(b)))
    ensures CommitsTo(c, height, b.transaction)
  {
    var aggs, order := OrderOfCollection(c, utxos, height, Ok(Some(b)));
    AssembledOutputs(c, Chosen(aggs), order, height, b);
    assert CommitsToInputs(c, height, b.transaction, order);
  }

  lemma {:induction false} CommitmentsDiffer(c: Crypto, keys: seq<OutPoint>, h: u32, keys': seq<OutPoint>, k: u32)
    requires c.BundleCollisionFree() && h != k
    ensures c.commitment(keys + [HeightCommitment(h)]) != c.commitment(keys' + [HeightCommitment(k)])
  {
    var s, t := keys + [HeightCommitment(h)], keys' + [HeightCommitment(k)];
    assert s[|s| - 1] != t[|t| - 1];
  }

  /** Bundles collected at different heights have different transaction ids. */
  lemma {:induction false} BundlesOfDifferentHeights(c: Crypto, h: u32, s: MainTransaction, k: u32, t: MainTransaction)
    requires c.BundleCollisionFree() && CommitsTo(c, h, s) && CommitsTo(c, k, t) && h != k
    ensures c.mainTxid(s) != c.mainTxid(t)
  {
    var keys :| CommitsToInputs(c, h, s, keys);
    var keys' :| CommitsToInputs(c, k, t, keys');
    CommitmentsDiffer(c, keys, h, keys', k);
    assert s.outputs[2] != t.outputs[2];
  }

  // ---------- Aggregation, one output at a time ----------

  /** The aggregates of a table, looked up by destination. */
  ghost predicate IsAggregation(utxos: Utxos, table: map<MainAddress, AggregatedWithdrawal>) {
    && table.Keys == Destinations(utxos)
    && forall d :: d in table ==> table[d].mainAddress == d && IsAggregate(utxos, table[d])
  }

  lemma {:induction false} OneMoreOutput(utxos: Utxos, o: OutPoint, output: Output, d: MainAddress)
    requires o !in utxos
    ensures WithdrawalsTo(utxos[o := output], d)
         == if output.IsWithdrawal() && output.content.mainAddress == d
            then WithdrawalsTo(utxos, d)[o := output] else WithdrawalsTo(utxos, d)
    ensures Destinations(utxos[o := output])
         == Destinations(utxos) + (if output.IsWithdrawal() then {output.content.mainAddress} else {})
  {
    var more := utxos[o := output];
    forall x | x in Destinations(utxos) ensures x in Destinations(more) {
      var p :| p in utxos && utxos[p].IsWithdrawal() && utxos[p].content.mainAddress == x;
      assert p in more && more[p] == utxos[p];
    }
    if output.IsWithdrawal() {
      assert o in more && more[o].content.mainAddress in Destinations(more);
    }
  }

  lemma {:induction false} NoWithdrawalsElsewhere(utxos: Utxos, d: MainAddress)
    ensures d in Destinations(utxos) <==> WithdrawalsTo(utxos, d) != map[]
  {
    if d in Destinations(utxos) {
      var p :| p in utxos && utxos[p].IsWithdrawal() && utxos[p].content.mainAddress == d;
      assert p in WithdrawalsTo(utxos, d);
    }
  }

  lemma {:induction false} MainFeesOfPrefix(aggs: seq<AggregatedWithdrawal>, k: nat)
    requires k <= |aggs|
    ensures MainFees(aggs[..k]) <= MainFees(aggs)
    decreases |aggs|
  {
    if k < |aggs| {
      MainFeesOfPrefix(aggs[..|aggs| - 1], k);
      assert aggs[..|aggs| - 1][..k] == aggs[..k];
    } else {
      assert aggs[..k] == aggs;
    }
  }

  /** One step of the aggregation loop; an overflow of the destination's sum aborts. */
  method AggregateOutput(
    ghost utxos: Utxos, table: map<MainAddress, AggregatedWithdrawal>, o: OutPoint, output: Output)
    returns (r: Option<map<MainAddress, AggregatedWithdrawal>>)
    requires o !in utxos && output.IsWithdrawal() && IsAggregation(utxos, table)
    ensures r.None? ==> ValueOf(WithdrawalsTo(utxos[o := output], output.content.mainAddress)) >= U64_LIMIT
    ensures r.Some? ==> IsAggregation(utxos[o := output], r.value)
  {
    var d := output.content.mainAddress;
    NoWithdrawalsElsewhere(utxos, d);
    OneMoreOutput(utxos, o, output, d);
    ValueWith(WithdrawalsTo(utxos, d), o, output);
    MaxFeeWith(WithdrawalsTo(utxos, d), o, output);
    var a := if d in table then table[d] else AggregatedWithdrawal(map[], d, 0, 0);
    assert a.value == ValueOf(a.spentUtxos) && a.mainFee == MaxFee(a.spentUtxos);
    if a.value + output.GetValue() >= U64_LIMIT {
      return None;
    }
    var mainFee := if output.content.mainFee > a.mainFee then output.content.mainFee else a.mainFee;
    var sum := AggregatedWithdrawal(a.spentUtxos[o := output], d, a.value + output.GetValue(), mainFee);
    assert IsAggregate(utxos[o := output], sum);
    forall e | e in table && e != d ensures IsAggregate(utxos[o := output], table[e]) {
      OneMoreOutput(utxos, o, output, e);
    }
    return Some(table[d := sum]);
  }

  lemma {:induction false} SkipOutput(
    utxos: Utxos, table: map<MainAddress, AggregatedWithdrawal>, o: OutPoint, output: Output)
    requires o !in utxos && !output.IsWithdrawal() && IsAggregation(utxos, table)
    ensures IsAggregation(utxos[o := output], table)
  {
    forall d ensures WithdrawalsTo(utxos[o := output], d) == WithdrawalsTo(utxos, d)
      ensures Destinations(utxos[o := output]) == Destinations(utxos)
    {
      OneMoreOutput(utxos, o, output, d);
    }
  }

  lemma {:induction false} OverflowOfPart(utxos: Utxos, part: Utxos, d: MainAddress)
    requires part == Restrict(utxos, part.Keys) && ValueOf(WithdrawalsTo(part, d)) >= U64_LIMIT
    ensures ValueOf(WithdrawalsTo(utxos, d)) >= U64_LIMIT
  {
    ValueOfPart(WithdrawalsTo(part, d), WithdrawalsTo(utxos, d));
  }

  /** One turn of the loop: skip an output that is no withdrawal, or aggregate it. */
  method AggregateNext(utxos: Utxos, ghost done: Utxos, table: map<MainAddress, AggregatedWithdrawal>, o: OutPoint)
    returns (r: Option<map<MainAddress, AggregatedWithdrawal>>)
    requires o in utxos && o !in done && done == Restrict(utxos, done.Keys) && IsAggregation(done, table)
    ensures r.None? ==> exists d :: ValueOf(WithdrawalsTo(utxos, d)) >= U64_LIMIT
    ensures r.Some? ==> IsAggregation(done[o := utxos[o]], r.value)
  {
    var output := utxos[o];
    if !output.IsWithdrawal() {
      SkipOutput(done, table, o, output);
      return Some(table);
    }
    r := AggregateOutput(done, table, o, output);
    if r.None? {
      OverflowOfPart(utxos, done[o := output], output.content.mainAddress);
    }
  }

  method Aggregate(utxos: Utxos) returns (r: Option<map<MainAddress, AggregatedWithdrawal>>)
    ensures r.None? <==> exists d :: ValueOf(WithdrawalsTo(utxos, d)) >= U64_LIMIT
    ensures r.Some? ==> IsAggregation(utxos, r.value)
  {
    var table: map<MainAddress, AggregatedWithdrawal> := map[];
    var order := AnyOrder(utxos.Keys);
    ghost var done: Utxos := map[];
    assert done == Restrict(utxos, Elements(order[..0]));
    for i := 0 to |order|
      invariant done == Restrict(utxos, Elements(order[..i]))
      invariant IsAggregation(done, table)
    {
      OneMoreKey(utxos, order, i);
      var next := AggregateNext(utxos, done, table, order[i]);
      if next.None? {
        return None;
      }
      table := next.value;
      done := done[order[i] := utxos[order[i]]];
    }
    assert order[..|order|] == order && done == utxos;
    AggregationBounds(utxos, table);
    return Some(table);
  }

  lemma {:induction false} AggregationBounds(utxos: Utxos, table: map<MainAddress, AggregatedWithdrawal>)
    requires IsAggregation(utxos, table)
    ensures forall d :: ValueOf(WithdrawalsTo(utxos, d)) < U64_LIMIT
  {
    forall d ensures ValueOf(WithdrawalsTo(utxos, d)) < U64_LIMIT {
      NoWithdrawalsElsewhere(utxos, d);
      if d in table {
        assert table[d].value == ValueOf(WithdrawalsTo(utxos, d));
      }
    }
  }

  /** The outputs that go into the bundle, up to the loop's guard; the fee may overflow. */
  method ChooseOutputs(aggs: seq<AggregatedWithdrawal>)
    returns (overflow: bool, fee: nat, spentUtxos: Utxos, bundleOutputs: seq<TxOut>)
    ensures overflow <==> MainFees(Chosen(aggs)) >= U64_LIMIT
    ensures !overflow ==>
      && fee == MainFees(Chosen(aggs)) && spentUtxos == SpentBy(Chosen(aggs))
      && bundleOutputs == Payouts(Chosen(aggs))
  {
    overflow, fee, spentUtxos, bundleOutputs := false, 0, map[], [];
    var i := 0;
    while i < |aggs|
      invariant 0 <= i <= |aggs| && i <= MAX_BUNDLE_OUTPUTS + 1
      invariant bundleOutputs == Payouts(aggs[..i]) && spentUtxos == SpentBy(aggs[..i])
      invariant fee == MainFees(aggs[..i]) < U64_LIMIT
    {
      if |bundleOutputs| > MAX_BUNDLE_OUTPUTS {
        break;
      }
      assert aggs[..i + 1][..i] == aggs[..i];
      spentUtxos := spentUtxos + aggs[i].spentUtxos;
      bundleOutputs := bundleOutputs + [TxOut(aggs[i].value, PayTo(aggs[i].mainAddress))];
      fee := fee + aggs[i].mainFee;
      i := i + 1;
      if fee >= U64_LIMIT {
        assert Chosen(aggs)[..i] == aggs[..i];
        MainFeesOfPrefix(Chosen(aggs), i);
        overflow := true;
        return;
      }
    }
    assert aggs[..i] == Chosen(aggs);
  }

  lemma {:induction false} AggregatesOfTable(
    utxos: Utxos, table: map<MainAddress, AggregatedWithdrawal>,
    aggs: seq<AggregatedWithdrawal>, order: seq<MainAddress>)
    requires IsAggregation(utxos, table) && NoDuplicates(order) && Elements(order) == table.Keys
    requires |aggs| == |order| && forall i :: 0 <= i < |aggs| ==> order[i] in table && aggs[i] == table[order[i]]
    ensures Aggregates(utxos, aggs)
  {
    assert Addresses(aggs) == order;
  }

  method CollectBundle(c: Crypto, utxos: Utxos, height: u32) returns (r: Result<Option<WithdrawalBundle>, Error>)
    ensures Collected(c, utxos, height, r)
  {
    var aggregated := Aggregate(utxos);
    if aggregated.None? {
      return Err(Overflow);
    }
    var table := aggregated.value;
    if table == map[] {
      return Ok(None);
    }
    // The sort's comparison is not a total order: it may leave any order.
    var order := AnyOrder(table.Keys);
    assert forall i :: 0 <= i < |order| ==> order[i] in Elements(order);
    var aggs := seq(|order|, i requires 0 <= i < |order| && order[i] in table => table[order[i]]);
    AggregatesOfTable(utxos, table, aggs, order);
    var overflow, fee, spentUtxos, bundleOutputs := ChooseOutputs(aggs);
    if overflow {
      ghost var keys := SomeOrder(SpentBy(Chosen(aggs)).Keys);
      assert CollectedInOrder(c, utxos, height, Err(Overflow), aggs, keys);
      return Err(Overflow);
    }
    var keys := AnyOrder(spentUtxos.Keys);
    var transaction := MainTransaction([
      TxOut(0, ReturnDest),
      TxOut(0, MainchainFee(fee)),
      TxOut(0, InputsCommitment(c.commitment(keys + [HeightCommitment(height)])))
    ] + bundleOutputs);
    if Weight(transaction) > MAX_STANDARD_TX_WEIGHT {
      r := Err(BundleTooHeavy(Weight(transaction), MAX_STANDARD_TX_WEIGHT));
    } else {
      r := Ok(Some(WithdrawalBundle(spentUtxos, transaction)));
    }
    assert CollectedInOrder(c, utxos, height, r, aggs, keys);
  }
}

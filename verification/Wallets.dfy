/**
 The wallet: coin selection, addresses derived from one seed, and transactions that a node
 holding the same outputs accepts.
 */
module Wallets {
  import opened Prelude
  import opened Types
  import opened Values
  import opened Contents
  import opened Connection
  import opened Authorizations
  import opened Validation
  import opened Archives

  /** What may be spent: everything but withdrawals. */
  function Spendable(utxos: Utxos): Utxos {
    map o | o in utxos && !utxos[o].IsWithdrawal() :: utxos[o]
  }

  ghost predicate SortedByValue(utxos: Utxos, order: seq<OutPoint>) {
    && NoDuplicates(order) && Elements(order) == utxos.Keys
    && forall i, j :: 0 <= i < j < |order| && order[i] in utxos && order[j] in utxos ==>
         utxos[order[i]].GetValue() <= utxos[order[j]].GetValue()
  }

  predicate IsSmallest(coins: Utxos, o: OutPoint) {
    o in coins && forall p :: p in coins ==> coins[o].GetValue() <= coins[p].GetValue()
  }

  lemma {:induction false} SomeSmallest(utxos: Utxos)
    requires utxos != map[]
    ensures exists o :: IsSmallest(utxos, o)
    decreases |utxos|
  {
    var o :| o in utxos;
    var rest := utxos - {o};
    if rest == map[] {
      assert forall p :: p in utxos ==> p == o || p in rest;
      assert IsSmallest(utxos, o);
    } else {
      SomeSmallest(rest);
      var q :| IsSmallest(rest, q);
      var least := if utxos[o].GetValue() <= utxos[q].GetValue() then o else q;
      forall p | p in utxos ensures utxos[least].GetValue() <= utxos[p].GetValue() {
        assert p == o || p in rest;
      }
      assert IsSmallest(utxos, least);
    }
  }

  /** The sorted part and the rest, which holds nothing smaller. */
  ghost predicate Sorting(utxos: Utxos, order: seq<OutPoint>, rest: Utxos) {
    && rest == Restrict(utxos, rest.Keys)
    && NoDuplicates(order) && Elements(order) !! rest.Keys && Elements(order) + rest.Keys == utxos.Keys
    && (forall i, j :: 0 <= i < j < |order| && order[i] in utxos && order[j] in utxos ==>
          utxos[order[i]].GetValue() <= utxos[order[j]].GetValue())
    && (forall i, p :: 0 <= i < |order| && order[i] in utxos && p in rest ==>
          utxos[order[i]].GetValue() <= rest[p].GetValue())
  }

  lemma {:induction false} SortedWithNext(utxos: Utxos, order: seq<OutPoint>, rest: Utxos, o: OutPoint)
    requires Sorting(utxos, order, rest)
    requires IsSmallest(rest, o)
    ensures Sorting(utxos, order + [o], rest - {o})
  {
    NoDuplicatesSplit(order, [o]);
    ElementsAppend(order, [o]);
    assert Elements([o]) == {o};
    var more := order + [o];
    forall i, j | 0 <= i < j < |more| && more[i] in utxos && more[j] in utxos
      ensures utxos[more[i]].GetValue() <= utxos[more[j]].GetValue()
    {
      assert more[i] == order[i] && more[j] == if j < |order| then order[j] else o;
    }
  }

  /** Sorts the outputs by value; equal values come in any order. */
  method SortByValue(utxos: Utxos) returns (order: seq<OutPoint>)
    ensures SortedByValue(utxos, order)
  {
    order := [];
    var rest := utxos;
    while rest != map[]
      invariant Sorting(utxos, order, rest)
      decreases rest.Keys
    {
      SomeSmallest(rest);
      var o :| IsSmallest(rest, o);
      SortedWithNext(utxos, order, rest, o);
      order := order + [o];
      rest := rest - {o};
    }
  }

  /** Coins taken smallest first, no more than it takes to exceed the amount, and no fewer. */
  ghost predicate TakenFrom(coins: Utxos, amount: int, taken: Utxos) {
    && taken == Restrict(coins, taken.Keys)
    && (forall o, p :: o in taken && p in coins && p !in taken ==> taken[o].GetValue() <= coins[p].GetValue())
    && Frugal(taken, amount)
    && (ValueOf(taken) > amount || taken == coins)
  }

  ghost predicate Selection(utxos: Utxos, value: nat, coins: Utxos) {
    TakenFrom(Spendable(utxos), value, coins)
  }

  /** Without some one of the coins the rest does not exceed the amount. */
  ghost predicate Frugal(coins: Utxos, amount: int) {
    coins != map[] ==> exists last :: last in coins && ValueOf(coins - {last}) <= amount
  }

  lemma {:induction false} OneMoreCoin(utxos: Utxos, order: seq<OutPoint>, i: nat, selected: Utxos)
    requires SortedByValue(utxos, order) && i < |order| && selected == Restrict(Spendable(utxos), Elements(order[..i]))
    ensures order[i] in utxos && order[i] !in selected
    ensures Restrict(Spendable(utxos), Elements(order[..i + 1]))
         == if utxos[order[i]].IsWithdrawal() then selected else selected[order[i] := utxos[order[i]]]
  {
    assert order[i] in Elements(order) && order[i] !in order[..i];
    assert Elements(order[..i + 1]) == Elements(order[..i]) + {order[i]};
  }

  lemma {:induction false} SelectedIsPart(utxos: Utxos, keys: set<OutPoint>, selected: Utxos)
    requires selected == Restrict(Spendable(utxos), keys)
    ensures selected == Restrict(Spendable(utxos), selected.Keys)
    ensures ValueOf(selected) <= ValueOf(Spendable(utxos))
    ensures keys == utxos.Keys ==> selected == Spendable(utxos)
  {
    ValueOfPart(selected, Spendable(utxos));
  }

  lemma {:induction false} TakeCoin(selected: Utxos, o: OutPoint, output: Output, value: nat)
    requires o !in selected && ValueOf(selected) <= value
    ensures ValueOf(selected[o := output]) == ValueOf(selected) + output.GetValue()
    ensures Frugal(selected[o := output], value)
  {
    ValueWith(selected, o, output);
    assert o in selected[o := output] && selected[o := output] - {o} == selected;
  }

  lemma {:induction false} FoundLater(order: seq<OutPoint>, i: nat, p: OutPoint) returns (k: nat)
    requires i <= |order| && p in order && p !in order[..i]
    ensures i <= k < |order| && order[k] == p
  {
    assert order == order[..i] + order[i..];
    k :| 0 <= k < |order[i..]| && order[i..][k] == p;
    k := i + k;
  }

  lemma {:induction false} PrefixIsSmallest(utxos: Utxos, order: seq<OutPoint>, i: nat, selected: Utxos)
    requires SortedByValue(utxos, order) && i <= |order|
    requires selected == Restrict(Spendable(utxos), Elements(order[..i]))
    ensures forall o, p :: o in selected && p in Spendable(utxos) && p !in selected ==>
      selected[o].GetValue() <= utxos[p].GetValue()
  {
    forall o, p | o in selected && p in Spendable(utxos) && p !in selected
      ensures selected[o].GetValue() <= utxos[p].GetValue()
    {
      var j :| 0 <= j < i && order[..i][j] == o;
      assert p in Elements(order) && p !in Elements(order[..i]);
      var k := FoundLater(order, i, p);
    }
  }

  /** No coin that is only in a is worth more than one that is only in b. */
  ghost predicate Smaller(utxos: Utxos, a: set<OutPoint>, b: set<OutPoint>) {
    forall o, p :: o in utxos && p in utxos && o in a && o !in b && p in b && p !in a ==>
      utxos[o].GetValue() <= utxos[p].GetValue()
  }

  lemma {:induction false} SmallerWithout(utxos: Utxos, a: set<OutPoint>, b: set<OutPoint>, o: OutPoint, p: OutPoint)
    requires Smaller(utxos, a, b) && o in a - b && p in b - a
    ensures Smaller(utxos, a - {o}, b - {p})
  {
  }

  lemma {:induction false} SomethingElse(a: set<OutPoint>, b: set<OutPoint>) returns (o: OutPoint, p: OutPoint)
    requires |a| <= |b| && !(a <= b)
    ensures o in a - b && p in b - a
  {
    assert a * b + (a - b) == a && a * b + (b - a) == b;
    assert a - b != {};
    o :| o in a - b;
    assert |a - b| > 0;
    p :| p in b - a;
  }

  lemma {:induction false} RestrictTwice(utxos: Utxos, a: set<OutPoint>, b: set<OutPoint>)
    requires a <= b <= utxos.Keys
    ensures Restrict(utxos, a).Keys == a && Restrict(utxos, a) == Restrict(Restrict(utxos, b), a)
  {
  }

  /** As many or fewer coins, and smaller where they differ, are worth no more. */
  lemma {:induction false} SmallerCoinsAreWorthLess(utxos: Utxos, a: set<OutPoint>, b: set<OutPoint>)
    requires a <= utxos.Keys && b <= utxos.Keys && |a| <= |b| && Smaller(utxos, a, b)
    ensures ValueOf(Restrict(utxos, a)) <= ValueOf(Restrict(utxos, b))
    decreases |a|
  {
    if a <= b {
      RestrictTwice(utxos, a, b);
      ValueOfPart(Restrict(utxos, a), Restrict(utxos, b));
    } else {
      var o, p := SomethingElse(a, b);
      SmallerWithout(utxos, a, b, o, p);
      SmallerCoinsAreWorthLess(utxos, a - {o}, b - {p});
      WorthOfOneMore(utxos, a, o);
      WorthOfOneMore(utxos, b, p);
    }
  }

  lemma {:induction false} WorthOfOneMore(utxos: Utxos, keys: set<OutPoint>, o: OutPoint)
    requires o in keys && o in utxos
    ensures ValueOf(Restrict(utxos, keys)) == ValueOf(Restrict(utxos, keys - {o})) + utxos[o].GetValue()
  {
    ValueWithout(Restrict(utxos, keys), o);
    assert Restrict(utxos, keys) - {o} == Restrict(utxos, keys - {o});
  }

  /** However equal coins are ordered, selection comes to the same value. */
  lemma {:induction false} SelectionsAreWorthTheSame(utxos: Utxos, value: nat, a: Utxos, b: Utxos)
    requires Selection(utxos, value, a) && Selection(utxos, value, b)
    ensures ValueOf(a) == ValueOf(b)
  {
    SelectionIsLeast(utxos, value, a, b);
    SelectionIsLeast(utxos, value, b, a);
  }

  lemma {:induction false} SelectionIsLeast(utxos: Utxos, value: nat, a: Utxos, b: Utxos)
    requires Selection(utxos, value, a) && Selection(utxos, value, b)
    ensures ValueOf(a) <= ValueOf(b)
  {
    NoMoreThanNeeded(utxos, value, a, b);
    SmallerCoinsAreWorthLess(Spendable(utxos), a.Keys, b.Keys);
  }

  /** No selection takes more coins than another: those would have been enough. */
  lemma {:induction false} NoMoreThanNeeded(utxos: Utxos, value: nat, a: Utxos, b: Utxos)
    requires Selection(utxos, value, a) && Selection(utxos, value, b)
    ensures |a.Keys| <= |b.Keys|
  {
    var all := Spendable(utxos);
    SubsetIsNoLarger(a.Keys, all.Keys);
    if |a.Keys| > |b.Keys| {
      assert a.Keys != {};
      var last :| last in a && ValueOf(a - {last}) <= value;
      assert a - {last} == Restrict(all, a.Keys - {last});
      SmallerCoinsAreWorthLess(all, b.Keys, a.Keys - {last});
    }
  }

  lemma {:induction false} SubsetIsNoLarger(a: set<OutPoint>, b: set<OutPoint>)
    requires a <= b
    ensures |a| <= |b|
  {
    assert a + (b - a) == b;
  }

  /** What taking the smallest coin comes to, again and again until the amount is exceeded. */
  ghost function Gathered(coins: Utxos, amount: int): nat
    decreases |coins|
  {
    if coins == map[] || amount < 0 then 0
    else
      SomeSmallest(coins);
      var o :| IsSmallest(coins, o);
      coins[o].GetValue() + Gathered(coins - {o}, amount - coins[o].GetValue())
  }

  lemma {:induction false} TakeNothing(coins: Utxos, amount: int)
    requires coins == map[] || amount < 0
    ensures TakenFrom(coins, amount, map[])
  {
    var none: Utxos := map[];
    assert ValueOf(none) == 0;
  }

  lemma {:induction false} GatheredFirst(coins: Utxos, amount: int) returns (o: OutPoint)
    requires coins != map[] && amount >= 0
    ensures IsSmallest(coins, o)
    ensures Gathered(coins, amount)
         == coins[o].GetValue() + Gathered(coins - {o}, amount - coins[o].GetValue())
  {
    SomeSmallest(coins);
    o :| IsSmallest(coins, o) && Gathered(coins, amount)
      == coins[o].GetValue() + Gathered(coins - {o}, amount - coins[o].GetValue());
  }

  lemma {:induction false} GatheredCoins(coins: Utxos, amount: int) returns (taken: Utxos)
    ensures TakenFrom(coins, amount, taken) && ValueOf(taken) == Gathered(coins, amount)
    decreases |coins|
  {
    if coins == map[] || amount < 0 {
      taken := map[];
      TakeNothing(coins, amount);
    } else {
      var o := GatheredFirst(coins, amount);
      var others := GatheredCoins(coins - {o}, amount - coins[o].GetValue());
      TakeSmallest(coins, amount, o, others);
      taken := others[o := coins[o]];
    }
  }

  lemma {:induction false} TakeSmallest(coins: Utxos, amount: int, o: OutPoint, others: Utxos)
    requires amount >= 0 && IsSmallest(coins, o) && TakenFrom(coins - {o}, amount - coins[o].GetValue(), others)
    ensures TakenFrom(coins, amount, others[o := coins[o]])
    ensures ValueOf(others[o := coins[o]]) == ValueOf(others) + coins[o].GetValue()
  {
    var taken := others[o := coins[o]];
    assert o !in others;
    ValueWith(others, o, coins[o]);
    if others == map[] {
      assert taken - {o} == map[];
      assert o in taken && ValueOf(taken - {o}) <= amount;
    } else {
      var last :| last in others && ValueOf(others - {last}) <= amount - coins[o].GetValue();
      ValueWith(others - {last}, o, coins[o]);
      assert taken - {last} == (others - {last})[o := coins[o]];
      assert last in taken && ValueOf(taken - {last}) <= amount;
    }
    if others == coins - {o} {
      assert taken == coins;
    }
  }

  /** The smallest coins that exceed the amount, or all, are enough and add up in 64 bits. */
  ghost predicate Affordable(utxos: Utxos, amount: nat) {
    amount <= Gathered(Spendable(utxos), amount) < U64_LIMIT
  }

  lemma {:induction false} AffordableIf(utxos: Utxos, amount: nat, coins: Utxos)
    requires Selection(utxos, amount, coins)
    ensures Affordable(utxos, amount) <==> amount <= ValueOf(coins) < U64_LIMIT
  {
    var taken := GatheredCoins(Spendable(utxos), amount);
    SelectionsAreWorthTheSame(utxos, amount, coins, taken);
  }

  /** The accumulators of the selection loop after the first i outputs. */
  ghost predicate Taking(
    utxos: Utxos, order: seq<OutPoint>, i: nat, value: nat, total: nat, selected: Utxos)
    requires i <= |order|
  {
    && selected == Restrict(Spendable(utxos), Elements(order[..i]))
    && total == ValueOf(selected) && Frugal(selected, value)
  }

  lemma {:induction false} TakingStep(
    utxos: Utxos, order: seq<OutPoint>, i: nat, value: nat, total: nat, selected: Utxos)
    requires SortedByValue(utxos, order) && i < |order| && Taking(utxos, order, i, value, total, selected)
    ensures order[i] in utxos
    ensures utxos[order[i]].IsWithdrawal() ==> Taking(utxos, order, i + 1, value, total, selected)
    ensures !utxos[order[i]].IsWithdrawal() && total <= value ==>
      Taking(utxos, order, i + 1, value, total + utxos[order[i]].GetValue(), selected[order[i] := utxos[order[i]]])
  {
    OneMoreCoin(utxos, order, i, selected);
    if total <= value {
      TakeCoin(selected, order[i], utxos[order[i]], value);
    }
  }

  lemma {:induction false} TakingDone(
    utxos: Utxos, order: seq<OutPoint>, i: nat, value: nat, total: nat, selected: Utxos)
    requires SortedByValue(utxos, order) && i <= |order| && Taking(utxos, order, i, value, total, selected)
    requires total > value || i == |order|
    ensures Selection(utxos, value, selected) && total <= ValueOf(Spendable(utxos))
  {
    assert order[..|order|] == order;
    SelectedIsPart(utxos, Elements(order[..i]), selected);
    PrefixIsSmallest(utxos, order, i, selected);
  }

  /** One turn of the loop: skip a withdrawal, stop above the value, or take the coin. */
  method TakeNext(utxos: Utxos, order: seq<OutPoint>, i: nat, value: nat, total: nat, selected: Utxos)
    returns (stop: bool, total': nat, selected': Utxos)
    requires SortedByValue(utxos, order) && i < |order| && Taking(utxos, order, i, value, total, selected)
    ensures stop ==> total > value && total' == total && selected' == selected
    ensures !stop ==> Taking(utxos, order, i + 1, value, total', selected')
  {
    TakingStep(utxos, order, i, value, total, selected);
    stop, total', selected' := false, total, selected;
    var output := utxos[order[i]];
    if output.IsWithdrawal() {
      return;
    }
    if total > value {
      return true, total, selected;
    }
    total', selected' := total + output.GetValue(), selected[order[i] := output];
  }

  /** The loop over the sorted outputs; a sum above 64 bits aborts. */
  method SelectFrom(utxos: Utxos, order: seq<OutPoint>, value: nat) returns (total: nat, selected: Utxos)
    requires SortedByValue(utxos, order) && value < U64_LIMIT
    ensures total == ValueOf(selected) <= ValueOf(Spendable(utxos)) && Selection(utxos, value, selected)
  {
    total, selected := 0, map[];
    var i, stop := 0, false;
    while i < |order| && !stop && total < U64_LIMIT
      invariant 0 <= i <= |order| && Taking(utxos, order, i, value, total, selected)
      invariant stop ==> total > value
      decreases |order| - i, !stop
    {
      stop, total, selected := TakeNext(utxos, order, i, value, total, selected);
      i := if stop then i else i + 1;
    }
    TakingDone(utxos, order, i, value, total, selected);
  }

  // ---------- Addresses ----------

  /** Indices run from 1 without gaps, and every address is the key's at its index. */
  ghost predicate Derived(
    c: Crypto, seed: Option<nat>, addressToIndex: map<Address, u32>, indexToAddress: map<u32, Address>)
  {
    && (seed.None? ==> addressToIndex == map[] && indexToAddress == map[])
    && (forall i: u32 :: i in indexToAddress <==> 1 <= i <= Top(indexToAddress.Keys))
    && (seed.Some? ==>
          && (forall i :: i in indexToAddress ==>
                indexToAddress[i] == c.addressOf(c.childKey(seed.value, i)) && indexToAddress[i] in addressToIndex)
          && (forall a :: a in addressToIndex ==> c.addressOf(c.childKey(seed.value, addressToIndex[a])) == a))
  }

  /** A transaction that spends distinct outputs of the table and leaves exactly this fee. */
  ghost predicate Pays(utxos: Utxos, t: Transaction, fee: nat) {
    && InputsExist(utxos, t.inputs) && NoDuplicates(t.inputs)
    && InputValue(utxos, t.inputs) == TotalValue(t.outputs) + fee < U64_LIMIT
  }

  /** The inputs, in any order, are the coins that selection takes for the amount. */
  ghost predicate Picked(utxos: Utxos, amount: nat, inputs: seq<OutPoint>) {
    && InputsExist(utxos, inputs) && NoDuplicates(inputs)
    && (forall i :: 0 <= i < |inputs| ==> !utxos[inputs[i]].content.Withdrawal?)
    && Selection(utxos, amount, Restrict(utxos, Elements(inputs)))
  }

  /** An address was handed out at the index after the last one used. */
  ghost predicate NextIs(before: map<u32, Address>, after: map<u32, Address>, a: Address) {
    var top := Top(before.Keys);
    top + 1 < U32_LIMIT && after == before[top + 1 := a]
  }

  /** Two addresses were handed out, at the two indices after the last one used. */
  ghost predicate NextAre(before: map<u32, Address>, after: map<u32, Address>, a: Address, b: Address) {
    var top := Top(before.Keys);
    top + 2 < U32_LIMIT && after == before[top + 1 := a][top + 2 := b]
  }

  lemma {:induction false} NextTwice(
    before: map<u32, Address>, between: map<u32, Address>, after: map<u32, Address>, a: Address, b: Address)
    requires NextIs(before, between, a) && NextIs(between, after, b)
    requires Top(between.Keys) == Top(before.Keys) + 1
    ensures NextAre(before, after, a, b)
  {
  }

  lemma {:induction false} DerivedWithNext(
    c: Crypto, seed: nat, addressToIndex: map<Address, u32>, indexToAddress: map<u32, Address>, index: u32)
    requires Derived(c, Some(seed), addressToIndex, indexToAddress)
    requires index == Top(indexToAddress.Keys) + 1
    ensures
      var a := c.addressOf(c.childKey(seed, index));
      && Top(indexToAddress[index := a].Keys) == index
      && Derived(c, Some(seed), addressToIndex[a := index], indexToAddress[index := a])
  {
    var after := indexToAddress[index := c.addressOf(c.childKey(seed, index))];
    TopOfRange(after.Keys, index);
  }

  /** Every input is signed, in order, by the key at its address's index. */
  ghost predicate SignedBy(
    c: Crypto, seed: nat, addressToIndex: map<Address, u32>, utxos: Utxos, at: AuthorizedTransaction)
  {
    && |at.authorizations| == |at.transaction.inputs|
    && forall i :: 0 <= i < |at.transaction.inputs| ==>
         && at.transaction.inputs[i] in utxos
         && utxos[at.transaction.inputs[i]].address in addressToIndex
         && var index := addressToIndex[utxos[at.transaction.inputs[i]].address];
            at.authorizations[i] == Authorization(c.childKey(seed, index), c.sign(seed, index, at.transaction))
  }

  lemma {:induction false} PaysWithChange(utxos: Utxos, inputs: seq<OutPoint>, paid: Output, rest: Output, fee: nat)
    requires InputsExist(utxos, inputs) && NoDuplicates(inputs)
    requires InputValue(utxos, inputs) == paid.GetValue() + rest.GetValue() + fee < U64_LIMIT
    ensures Pays(utxos, Transaction(inputs, [paid, rest]), fee)
  {
    assert [paid, rest][..1] == [paid] && [paid][..0] == [];
    assert TotalValue([paid]) == TotalValue([paid][..0]) + paid.GetValue();
  }

  class Wallet {
    const crypto: Crypto
    var seed: Option<nat>
    var addressToIndex: map<Address, u32>
    var indexToAddress: map<u32, Address>
    var utxos: Utxos

    ghost predicate Valid()
      reads this
    {
      Derived(crypto, seed, addressToIndex, indexToAddress)
    }

    constructor (crypto: Crypto)
      ensures this.crypto == crypto && Valid() && seed.None? && utxos == map[]
    {
      this.crypto := crypto;
      seed, addressToIndex, indexToAddress, utxos := None, map[], map[], map[];
    }

    method SetSeed(seed: nat)
      modifies this
      ensures Valid() && this.seed == Some(seed) && utxos == map[] && indexToAddress == map[]
    {
      this.seed := Some(seed);
      addressToIndex, indexToAddress, utxos := map[], map[], map[];
    }

    method GetNewAddress() returns (r: Result<Address, Error>)
      requires Valid()
      modifies this`addressToIndex, this`indexToAddress
      ensures Valid()
      ensures r.Ok? <==> seed.Some? && old(Top(indexToAddress.Keys)) + 1 < U32_LIMIT
      ensures r.Err? ==> r.error in {NoSeed, Overflow}
      ensures r.Ok? ==>
        && Top(indexToAddress.Keys) == old(Top(indexToAddress.Keys)) + 1
        && NextIs(old(indexToAddress), indexToAddress, r.value)
        && addressToIndex == old(addressToIndex)[r.value := Top(indexToAddress.Keys)]
      ensures r.Err? ==> addressToIndex == old(addressToIndex) && indexToAddress == old(indexToAddress)
    {
      var last := LastKey(indexToAddress.Keys);
      var lastIndex := if last.Some? then last.value else 0;
      if lastIndex + 1 >= U32_LIMIT {
        return Err(Overflow);
      }
      if seed.None? {
        return Err(NoSeed);
      }
      var index: u32 := lastIndex + 1;
      var address := crypto.addressOf(crypto.childKey(seed.value, index));
      indexToAddress := indexToAddress[index := address];
      addressToIndex := addressToIndex[address := index];
      DerivedWithNext(crypto, seed.value, old(addressToIndex), old(indexToAddress), index);
      return Ok(address);
    }

    method GetTwoAddresses() returns (r: Result<(Address, Address), Error>)
      requires Valid()
      modifies this`addressToIndex, this`indexToAddress
      ensures Valid() && addressToIndex.Keys >= old(addressToIndex.Keys)
      ensures r.Ok? ==> NextAre(old(indexToAddress), indexToAddress, r.value.0, r.value.1)
      ensures r.Ok? <==> seed.Some? && old(Top(indexToAddress.Keys)) + 2 < U32_LIMIT
      ensures r.Err? ==> r.error in {NoSeed, Overflow}
    {
      var first := GetNewAddress();
      if first.Err? {
        return Err(first.error);
      }
      ghost var between := indexToAddress;
      var second := GetNewAddress();
      if second.Err? {
        return Err(second.error);
      }
      NextTwice(old(indexToAddress), between, indexToAddress, first.value, second.value);
      return Ok((first.value, second.value));
    }

    method SelectCoins(value: u64) returns (r: Result<(u64, Utxos), Error>)
      ensures r.Ok? ==> r.value.0 == ValueOf(r.value.1) >= value && Selection(utxos, value, r.value.1)
      ensures r.Ok? <==> Affordable(utxos, value)
      ensures r == Err(NotEnoughFunds) <==> ValueOf(Spendable(utxos)) < value
      ensures r.Err? ==> r.error == NotEnoughFunds || (r.error == Overflow && ValueOf(Spendable(utxos)) >= U64_LIMIT)
    {
      var order := SortByValue(utxos);
      var total, selected := SelectFrom(utxos, order, value);
      AffordableIf(utxos, value, selected);
      if total >= U64_LIMIT {
        return Err(Overflow);
      }
      if total < value {
        return Err(NotEnoughFunds);
      }
      return Ok((total, selected));
    }

    /** The coins for an amount, as inputs in the order the map gives them. */
    method PickInputs(amount: nat) returns (r: Result<(u64, seq<OutPoint>), Error>)
      ensures r.Ok? ==>
        Picked(utxos, amount, r.value.1) && InputValue(utxos, r.value.1) == r.value.0 >= amount
      ensures r.Ok? <==> Affordable(utxos, amount)
      ensures r == Err(NotEnoughFunds) <==> ValueOf(Spendable(utxos)) < amount < U64_LIMIT
    {
      if amount >= U64_LIMIT {
        return Err(Overflow);
      }
      var coins := SelectCoins(amount);
      if coins.Err? {
        return Err(coins.error);
      }
      var inputs := AnyOrder(coins.value.1.Keys);
      CoinsAreWorth(utxos, coins.value.1, inputs);
      return Ok((coins.value.0, inputs));
    }

    /** The coins for an amount, and a new address for the change. */
    method PickWithChange(amount: nat) returns (r: Result<(u64, seq<OutPoint>, Address), Error>)
      requires Valid()
      modifies this`addressToIndex, this`indexToAddress
      ensures Valid() && addressToIndex.Keys >= old(addressToIndex.Keys)
      ensures r.Ok? <==> Affordable(utxos, amount) && seed.Some? && old(Top(indexToAddress.Keys)) + 1 < U32_LIMIT
      ensures r.Ok? ==>
        && Picked(utxos, amount, r.value.1) && InputValue(utxos, r.value.1) == r.value.0 >= amount
        && NextIs(old(indexToAddress), indexToAddress, r.value.2)
      ensures r == Err(NotEnoughFunds) <==> ValueOf(Spendable(utxos)) < amount < U64_LIMIT
    {
      var coins := PickInputs(amount);
      if coins.Err? {
        return Err(coins.error);
      }
      var changeAddress := GetNewAddress();
      if changeAddress.Err? {
        return Err(changeAddress.error);
      }
      return Ok((coins.value.0, coins.value.1, changeAddress.value));
    }

    /** Pays the address the value, and the rest but the fee back to a new address. */
    method CreateTransaction(address: Address, value: u64, fee: u64) returns (r: Result<Transaction, Error>)
      requires Valid()
      modifies this`addressToIndex, this`indexToAddress
      ensures Valid()
      ensures addressToIndex.Keys >= old(addressToIndex.Keys)
      ensures r.Ok? ==>
        && Pays(utxos, r.value, fee) && Picked(utxos, value + fee, r.value.inputs)
        && |r.value.outputs| == 2 && r.value.outputs[0] == Output(address, Value(value))
        && r.value.outputs[1].content.Value?
        && r.value.outputs[1].content.amount == AmountsAt(utxos, r.value.inputs) - value - fee
        && NextIs(old(indexToAddress), indexToAddress, r.value.outputs[1].address)
      ensures r.Ok? <==>
        Affordable(utxos, value + fee) && seed.Some? && old(Top(indexToAddress.Keys)) + 1 < U32_LIMIT
      ensures r == Err(NotEnoughFunds) <==> ValueOf(Spendable(utxos)) < value + fee < U64_LIMIT
    {
      var coins := PickWithChange(value + fee);
      if coins.Err? {
        return Err(coins.error);
      }
      var inputs, change := coins.value.1, coins.value.0 - value - fee;
      AmountsAtAreValue(utxos, inputs);
      var paid, rest := Output(address, Value(value)), Output(coins.value.2, Value(change));
      PaysWithChange(utxos, inputs, paid, rest, fee);
      return Ok(Transaction(inputs, [paid, rest]));
    }

    method PickWithAddresses(amount: nat) returns (r: Result<(u64, seq<OutPoint>, Address, Address), Error>)
      requires Valid()
      modifies this`addressToIndex, this`indexToAddress
      ensures Valid() && addressToIndex.Keys >= old(addressToIndex.Keys)
      ensures r.Ok? <==> Affordable(utxos, amount) && seed.Some? && old(Top(indexToAddress.Keys)) + 2 < U32_LIMIT
      ensures r.Ok? ==>
        && Picked(utxos, amount, r.value.1) && InputValue(utxos, r.value.1) == r.value.0 >= amount
        && NextAre(old(indexToAddress), indexToAddress, r.value.2, r.value.3)
      ensures r == Err(NotEnoughFunds) <==> ValueOf(Spendable(utxos)) < amount < U64_LIMIT
    {
      var coins := PickInputs(amount);
      if coins.Err? {
        return Err(coins.error);
      }
      var addresses := GetTwoAddresses();
      if addresses.Err? {
        return Err(addresses.error);
      }
      return Ok((coins.value.0, coins.value.1, addresses.value.0, addresses.value.1));
    }

    /** The mainchain fee decides how many coins are taken, but stays in the change. */
    method CreateWithdrawal(mainAddress: MainAddress, value: u64, mainFee: u64, fee: u64)
      returns (r: Result<Transaction, Error>)
      requires Valid()
      modifies this`addressToIndex, this`indexToAddress
      ensures Valid()
      ensures addressToIndex.Keys >= old(addressToIndex.Keys)
      ensures r.Ok? ==>
        && Pays(utxos, r.value, fee) && Picked(utxos, value + fee + mainFee, r.value.inputs)
        && |r.value.outputs| == 2 && r.value.outputs[0].content == Withdrawal(value, mainFee, mainAddress)
        && r.value.outputs[1].content.Value? && r.value.outputs[1].content.amount >= mainFee
        && r.value.outputs[1].content.amount == AmountsAt(utxos, r.value.inputs) - value - fee
        && NextAre(old(indexToAddress), indexToAddress, r.value.outputs[0].address, r.value.outputs[1].address)
      ensures r.Ok? <==>
        Affordable(utxos, value + fee + mainFee) && seed.Some? && old(Top(indexToAddress.Keys)) + 2 < U32_LIMIT
      ensures r == Err(NotEnoughFunds) <==> ValueOf(Spendable(utxos)) < value + fee + mainFee < U64_LIMIT
    {
      var coins := PickWithAddresses(value + fee + mainFee);
      if coins.Err? {
        return Err(coins.error);
      }
      var inputs, change := coins.value.1, coins.value.0 - value - fee;
      AmountsAtAreValue(utxos, inputs);
      var withdrawn := Output(coins.value.2, Withdrawal(value, mainFee, mainAddress));
      var rest := Output(coins.value.3, Value(change));
      PaysWithChange(utxos, inputs, withdrawn, rest, fee);
      return Ok(Transaction(inputs, [withdrawn, rest]));
    }

    method Authorize(t: Transaction) returns (r: Result<AuthorizedTransaction, Error>)
      ensures r.Ok? <==>
        && (forall i :: 0 <= i < |t.inputs| ==>
              t.inputs[i] in utxos && utxos[t.inputs[i]].address in addressToIndex)
        && (t.inputs == [] || seed.Some?)
      ensures r.Ok? ==> r.value.transaction == t
      ensures r.Ok? && seed.Some? ==> SignedBy(crypto, seed.value, addressToIndex, utxos, r.value)
    {
      var authorizations: seq<Authorization> := [];
      for i := 0 to |t.inputs|
        invariant |authorizations| == i
        invariant forall j :: 0 <= j < i ==>
          && t.inputs[j] in utxos && utxos[t.inputs[j]].address in addressToIndex && seed.Some?
          && var index := addressToIndex[utxos[t.inputs[j]].address];
             authorizations[j] == Authorization(crypto.childKey(seed.value, index), crypto.sign(seed.value, index, t))
      {
        var input := t.inputs[i];
        if input !in utxos {
          return Err(NoUtxo(input));
        }
        var address := utxos[input].address;
        if address !in addressToIndex {
          return Err(NoIndex(address));
        }
        if seed.None? {
          return Err(NoSeed);
        }
        var index := addressToIndex[address];
        authorizations := authorizations
          + [Authorization(crypto.childKey(seed.value, index), crypto.sign(seed.value, index, t))];
      }
      assert t.inputs != [] ==> t.inputs[0] in utxos;
      return Ok(AuthorizedTransaction(t, authorizations));
    }

    /** The addresses of all outputs held are the wallet's own. */
    ghost predicate OwnsAll()
      reads this
    {
      forall o :: o in utxos ==> utxos[o].address in addressToIndex
    }

    /** Creates and signs a payment: any node that holds the wallet's outputs accepts it. */
    method Send(address: Address, value: u64, fee: u64) returns (r: Result<AuthorizedTransaction, Error>)
      requires Valid() && OwnsAll() && crypto.SignaturesVerify()
      modifies this`addressToIndex, this`indexToAddress
      ensures Valid() && OwnsAll()
      ensures r.Ok? <==>
        Affordable(utxos, value + fee) && seed.Some? && old(Top(indexToAddress.Keys)) + 1 < U32_LIMIT
      ensures r.Ok? ==>
        && Output(address, Value(value)) in r.value.transaction.outputs
        && AcceptedByHolders(crypto, utxos, r.value, fee)
    {
      var created := CreateTransaction(address, value, fee);
      if created.Err? {
        return Err(created.error);
      }
      r := Authorize(created.value);
      HoldersAccept(crypto, seed.value, addressToIndex, indexToAddress, utxos, r.value, fee);
    }

    /** The same for a withdrawal. */
    method Withdraw(mainAddress: MainAddress, value: u64, mainFee: u64, fee: u64)
      returns (r: Result<AuthorizedTransaction, Error>)
      requires Valid() && OwnsAll() && crypto.SignaturesVerify()
      modifies this`addressToIndex, this`indexToAddress
      ensures Valid() && OwnsAll()
      ensures r.Ok? <==>
        Affordable(utxos, value + fee + mainFee) && seed.Some? && old(Top(indexToAddress.Keys)) + 2 < U32_LIMIT
      ensures r.Ok? ==>
        && (exists output :: output in r.value.transaction.outputs &&
              output.content == Withdrawal(value, mainFee, mainAddress))
        && AcceptedByHolders(crypto, utxos, r.value, fee)
    {
      var created := CreateWithdrawal(mainAddress, value, mainFee, fee);
      if created.Err? {
        return Err(created.error);
      }
      r := Authorize(created.value);
      assert created.value.outputs[0] in r.value.transaction.outputs;
      HoldersAccept(crypto, seed.value, addressToIndex, indexToAddress, utxos, r.value, fee);
    }
  }

  /** Every node whose table holds these outputs accepts the transaction, at exactly this fee. */
  ghost predicate AcceptedByHolders(c: Crypto, mine: Utxos, at: AuthorizedTransaction, fee: nat) {
    forall nodes :: mine == Restrict(nodes, mine.Keys) ==>
      && TransactionAccepted(c, nodes, at)
      && InputValue(nodes, at.transaction.inputs) - TotalValue(at.transaction.outputs) == fee
  }

  lemma {:induction false} CoinsAreWorth(utxos: Utxos, coins: Utxos, inputs: seq<OutPoint>)
    requires coins == Restrict(Spendable(utxos), coins.Keys)
    requires NoDuplicates(inputs) && Elements(inputs) == coins.Keys
    ensures InputsExist(utxos, inputs) && InputValue(utxos, inputs) == ValueOf(coins)
    ensures Restrict(utxos, Elements(inputs)) == coins
    ensures forall i :: 0 <= i < |inputs| ==> !utxos[inputs[i]].content.Withdrawal?
  {
    forall i | 0 <= i < |inputs| ensures inputs[i] in coins {
      assert inputs[i] in Elements(inputs);
    }
    InputValueIsEntryValue(utxos, inputs);
    assert Restrict(utxos, Elements(inputs)) == coins;
  }

  // ---------- From the wallet to the node ----------

  lemma {:induction false} SameValueInLargerTable(small: Utxos, large: Utxos, inputs: seq<OutPoint>)
    requires small == Restrict(large, small.Keys) && InputsExist(small, inputs)
    ensures InputValue(large, inputs) == InputValue(small, inputs)
  {
    if |inputs| > 0 {
      SameValueInLargerTable(small, large, inputs[..|inputs| - 1]);
    }
  }

  /**
   A payment the wallet makes and signs is accepted by any node that holds the wallet's
   outputs, pays exactly the requested fee, and has one authorization per input.
   */
  lemma {:induction false} NodeAcceptsWalletTransaction(
    c: Crypto, seed: nat, addressToIndex: map<Address, u32>, indexToAddress: map<u32, Address>,
    mine: Utxos, nodes: Utxos, at: AuthorizedTransaction, fee: nat)
    requires c.SignaturesVerify() && Derived(c, Some(seed), addressToIndex, indexToAddress)
    requires mine == Restrict(nodes, mine.Keys)
    requires Pays(mine, at.transaction, fee) && SignedBy(c, seed, addressToIndex, mine, at)
    ensures TransactionAccepted(c, nodes, at)
    ensures InputValue(nodes, at.transaction.inputs) - TotalValue(at.transaction.outputs) == fee
    ensures OneAuthorizationPerInput([at]) && NoDuplicates(at.transaction.inputs)
  {
    var inputs := at.transaction.inputs;
    SameValueInLargerTable(mine, nodes, inputs);
    forall i | 0 <= i < |inputs|
      ensures c.addressOf(at.authorizations[i].publicKey) == nodes[inputs[i]].address
    {
      assert inputs[i] in mine;
    }
  }

  lemma {:induction false} HoldersAccept(
    c: Crypto, seed: nat, addressToIndex: map<Address, u32>, indexToAddress: map<u32, Address>,
    mine: Utxos, at: AuthorizedTransaction, fee: nat)
    requires c.SignaturesVerify() && Derived(c, Some(seed), addressToIndex, indexToAddress)
    requires Pays(mine, at.transaction, fee) && SignedBy(c, seed, addressToIndex, mine, at)
    ensures AcceptedByHolders(c, mine, at, fee)
  {
    forall nodes | mine == Restrict(nodes, mine.Keys)
      ensures TransactionAccepted(c, nodes, at)
      ensures InputValue(nodes, at.transaction.inputs) - TotalValue(at.transaction.outputs) == fee
    {
      NodeAcceptsWalletTransaction(c, seed, addressToIndex, indexToAddress, mine, nodes, at, fee);
    }
  }
}

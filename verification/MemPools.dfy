/** The pool of transactions waiting for a block, which admits no conflicting spends. */
module MemPools {
  import opened Prelude
  import opened Types

  datatype Pool = Pool(transactions: map<Hash, AuthorizedTransaction>, spent: set<OutPoint>)

  const EMPTY_POOL := Pool(map[], {})

  function InputsOf(at: AuthorizedTransaction): set<OutPoint> { Elements(at.transaction.inputs) }

  ghost predicate Admits(pool: Pool, at: AuthorizedTransaction) {
    NoDuplicates(at.transaction.inputs) && InputsOf(at) !! pool.spent
  }

  function Admit(c: Crypto, pool: Pool, at: AuthorizedTransaction): Pool {
    Pool(pool.transactions[c.txid(at.transaction) := at], pool.spent + InputsOf(at))
  }

  function Remove(pool: Pool, txids: set<Hash>): Pool { pool.(transactions := pool.transactions - txids) }

  lemma {:induction false} RemoveMore(pool: Pool, first: set<Hash>, second: set<Hash>)
    ensures Remove(Remove(pool, first), second) == Remove(pool, first + second)
  {
  }

  class MemPool {
    const crypto: Crypto
    var transactions: map<Hash, AuthorizedTransaction>
    var spentUtxos: set<OutPoint>

    ghost function Abs(): Pool
      reads this
    {
      Pool(transactions, spentUtxos)
    }

    constructor (crypto: Crypto)
      ensures this.crypto == crypto && Abs() == EMPTY_POOL
    {
      this.crypto := crypto;
      transactions, spentUtxos := map[], {};
    }

    /** On an error some markers have been put: the caller drops the transaction. */
    method Put(at: AuthorizedTransaction) returns (r: Result<(), Error>)
      modifies this
      ensures r.Ok? <==> NoDuplicates(at.transaction.inputs) && Elements(at.transaction.inputs) !! old(spentUtxos)
      ensures r.Ok? ==> transactions == old(transactions)[crypto.txid(at.transaction) := at]
      ensures r.Ok? ==> spentUtxos == old(spentUtxos) + Elements(at.transaction.inputs)
      ensures r.Err? ==> r.error == UtxoDoubleSpent && transactions == old(transactions)
      ensures r.Err? ==> old(spentUtxos) <= spentUtxos <= old(spentUtxos) + InputsOf(at)
    {
      var inputs := at.transaction.inputs;
      for i := 0 to |inputs|
        invariant spentUtxos == old(spentUtxos) + Elements(inputs[..i])
        invariant NoDuplicates(inputs[..i]) && Elements(inputs[..i]) !! old(spentUtxos)
        invariant transactions == old(transactions)
      {
        assert inputs[i] in Elements(inputs);
        if inputs[i] in spentUtxos {
          return Err(UtxoDoubleSpent);
        }
        assert Elements(inputs[..i + 1]) == Elements(inputs[..i]) + {inputs[i]};
        spentUtxos := spentUtxos + {inputs[i]};
      }
      assert inputs[..|inputs|] == inputs;
      transactions := transactions[crypto.txid(at.transaction) := at];
      return Ok(());
    }

    method Delete(txid: Hash)
      modifies this
      ensures transactions == old(transactions) - {txid} && spentUtxos == old(spentUtxos)
    {
      transactions := transactions - {txid};
    }

    /** The first `number` entries, in the store's order. */
    method Take(number: nat) returns (taken: seq<AuthorizedTransaction>, ghost keys: seq<Hash>)
      ensures Taken(Abs(), keys, taken)
      ensures |taken| == if number <= |transactions| then number else |transactions|
    {
      var order := AnyOrder(transactions.Keys);
      NoDuplicatesSize(order);
      var n := if number <= |order| then number else |order|;
      taken, keys := [], order[..n];
      for i := 0 to n
        invariant |taken| == i
        invariant forall j :: 0 <= j < i ==> order[j] in transactions && taken[j] == transactions[order[j]]
      {
        assert order[i] in Elements(order);
        taken := taken + [transactions[order[i]]];
      }
    }
  }

  /** A list of entries at distinct keys of the pool. */
  ghost predicate Taken(pool: Pool, keys: seq<Hash>, taken: seq<AuthorizedTransaction>) {
    && NoDuplicates(keys) && |taken| == |keys|
    && forall i :: 0 <= i < |keys| ==> keys[i] in pool.transactions && taken[i] == pool.transactions[keys[i]]
  }

  // ---------- Every run of the pool ----------

  ghost predicate ConflictFree(c: Crypto, pool: Pool) {
    && (forall k :: k in pool.transactions ==>
          && k == c.txid(pool.transactions[k].transaction)
          && NoDuplicates(pool.transactions[k].transaction.inputs)
          && InputsOf(pool.transactions[k]) <= pool.spent)
    && (forall k, l :: k in pool.transactions && l in pool.transactions && k != l ==>
          InputsOf(pool.transactions[k]) !! InputsOf(pool.transactions[l]))
  }

  lemma {:induction false} AdmitKeepsConflictFree(c: Crypto, pool: Pool, at: AuthorizedTransaction)
    requires ConflictFree(c, pool) && Admits(pool, at)
    ensures ConflictFree(c, Admit(c, pool, at))
  {
  }

  lemma {:induction false} RemoveKeepsConflictFree(c: Crypto, pool: Pool, txids: set<Hash>)
    requires ConflictFree(c, pool)
    ensures ConflictFree(c, Remove(pool, txids))
  {
  }

  datatype PoolOp = PutOp(transaction: AuthorizedTransaction) | DeleteOp(txid: Hash)

  /** The pool after a run of operations; a refused put leaves it as it was. */
  ghost function RunPool(c: Crypto, ops: seq<PoolOp>): Pool {
    if |ops| == 0 then EMPTY_POOL
    else
      var pool := RunPool(c, ops[..|ops| - 1]);
      match ops[|ops| - 1]
      case PutOp(at) => if Admits(pool, at) then Admit(c, pool, at) else pool
      case DeleteOp(txid) => Remove(pool, {txid})
  }

  /** Everything a run ever admitted. */
  ghost function Admitted(c: Crypto, ops: seq<PoolOp>): set<AuthorizedTransaction> {
    if |ops| == 0 then {}
    else
      var before := Admitted(c, ops[..|ops| - 1]);
      match ops[|ops| - 1]
      case PutOp(at) => if Admits(RunPool(c, ops[..|ops| - 1]), at) then before + {at} else before
      case DeleteOp(_) => before
  }

  /**
   In every run the pool is free of conflicts, and an outpoint is marked exactly when
   something ever admitted spends it: deleting a transaction does not free its inputs.
   */
  lemma {:induction false} EveryPoolIsConflictFree(c: Crypto, ops: seq<PoolOp>)
    ensures ConflictFree(c, RunPool(c, ops))
    ensures forall o :: o in RunPool(c, ops).spent <==> exists at :: at in Admitted(c, ops) && o in InputsOf(at)
  {
    if |ops| > 0 {
      var init := ops[..|ops| - 1];
      var pool := RunPool(c, init);
      EveryPoolIsConflictFree(c, init);
      match ops[|ops| - 1]
      case PutOp(at) =>
        if Admits(pool, at) {
          AdmitKeepsConflictFree(c, pool, at);
          assert forall x :: x in Admitted(c, ops) <==> x == at || x in Admitted(c, init);
        }
      case DeleteOp(txid) =>
        RemoveKeepsConflictFree(c, pool, {txid});
    }
  }

  // ---------- What is in the pool ----------

  /**
   The i-th operation admits: it puts a transaction that spends nothing twice, and nothing
   that an earlier admitted one spends, deleted since or not.
   */
  ghost predicate Admitting(ops: seq<PoolOp>, i: nat)
    requires i < |ops|
    decreases i
  {
    && ops[i].PutOp?
    && NoDuplicates(ops[i].transaction.transaction.inputs)
    && forall j :: 0 <= j < i && Admitting(ops, j) ==>
         forall o :: o in ops[i].transaction.transaction.inputs ==> o !in ops[j].transaction.transaction.inputs
  }

  lemma {:induction false} AdmittingInPrefix(ops: seq<PoolOp>, n: nat, i: nat)
    requires i < n <= |ops|
    ensures Admitting(ops[..n], i) <==> Admitting(ops, i)
    decreases i
  {
    forall j | 0 <= j < i ensures Admitting(ops[..n], j) <==> Admitting(ops, j) {
      AdmittingInPrefix(ops, n, j);
    }
  }

  /** The markers are the inputs of what was admitted. */
  lemma {:induction false} MarkersAreAdmitted(c: Crypto, ops: seq<PoolOp>, o: OutPoint)
    ensures o in RunPool(c, ops).spent
       <==> exists i :: 0 <= i < |ops| && Admitting(ops, i) && o in ops[i].transaction.transaction.inputs
    decreases |ops|, 2
  {
    if |ops| > 0 {
      var n := |ops| - 1;
      MarkersAreAdmitted(c, ops[..n], o);
      forall i | 0 <= i < n ensures Admitting(ops[..n], i) <==> Admitting(ops, i) {
        AdmittingInPrefix(ops, n, i);
      }
      AdmitsIffAdmitting(c, ops);
      if i :| 0 <= i < n && Admitting(ops[..n], i) && o in ops[..n][i].transaction.transaction.inputs {
        assert Admitting(ops, i) && ops[i] == ops[..n][i];
      }
      if i :| 0 <= i < |ops| && Admitting(ops, i) && o in ops[i].transaction.transaction.inputs {
        if i < n {
          assert Admitting(ops[..n], i) && ops[i] == ops[..n][i];
        }
      }
    }
  }

  lemma {:induction false} AdmitsIffAdmitting(c: Crypto, ops: seq<PoolOp>)
    requires |ops| > 0
    ensures ops[|ops| - 1].PutOp? ==>
      (Admits(RunPool(c, ops[..|ops| - 1]), ops[|ops| - 1].transaction) <==> Admitting(ops, |ops| - 1))
    decreases |ops|, 1
  {
    var n := |ops| - 1;
    if ops[n].PutOp? {
      var at := ops[n].transaction;
      forall i | 0 <= i < n ensures Admitting(ops[..n], i) <==> Admitting(ops, i) {
        AdmittingInPrefix(ops, n, i);
      }
      forall o | o in at.transaction.inputs
        ensures o in RunPool(c, ops[..n]).spent
          <==> exists i :: 0 <= i < n && Admitting(ops, i) && o in ops[i].transaction.transaction.inputs
      {
        MarkersOfPrefix(c, ops, n, o);
      }
      assert InputsOf(at) !! RunPool(c, ops[..n]).spent
        <==> forall o :: o in at.transaction.inputs ==> o !in RunPool(c, ops[..n]).spent;
    }
  }

  lemma {:induction false} MarkersOfPrefix(c: Crypto, ops: seq<PoolOp>, n: nat, o: OutPoint)
    requires n < |ops|
    ensures o in RunPool(c, ops[..n]).spent
       <==> exists i :: 0 <= i < n && Admitting(ops, i) && o in ops[i].transaction.transaction.inputs
    decreases n, 3
  {
    MarkersAreAdmitted(c, ops[..n], o);
    if i :| 0 <= i < n && Admitting(ops[..n], i) && o in ops[..n][i].transaction.transaction.inputs {
      AdmittingInPrefix(ops, n, i);
      assert ops[i] == ops[..n][i];
    }
    if i :| 0 <= i < n && Admitting(ops, i) && o in ops[i].transaction.transaction.inputs {
      AdmittingInPrefix(ops, n, i);
      assert ops[i] == ops[..n][i];
    }
  }

  /** The i-th operation admits a transaction with this id, and nothing deletes or replaces it since. */
  ghost predicate LastAdmitted(c: Crypto, ops: seq<PoolOp>, i: nat, x: Hash)
    requires i < |ops|
  {
    && Admitting(ops, i) && c.txid(ops[i].transaction.transaction) == x
    && forall j :: i < j < |ops| ==> !Touches(c, ops, j, x)
  }

  ghost predicate Touches(c: Crypto, ops: seq<PoolOp>, j: nat, x: Hash)
    requires j < |ops|
  {
    ops[j] == DeleteOp(x) || (Admitting(ops, j) && c.txid(ops[j].transaction.transaction) == x)
  }

  /**
   What is in the pool after any run: under each id the transaction last admitted with it,
   unless a deletion named it since; and nothing else.
   */
  lemma {:induction false} PoolHoldsLastAdmitted(c: Crypto, ops: seq<PoolOp>, x: Hash)
    ensures x in RunPool(c, ops).transactions <==> exists i :: 0 <= i < |ops| && LastAdmitted(c, ops, i, x)
    ensures forall i :: 0 <= i < |ops| && LastAdmitted(c, ops, i, x) ==>
      x in RunPool(c, ops).transactions && RunPool(c, ops).transactions[x] == ops[i].transaction
  {
    if |ops| > 0 {
      var n := |ops| - 1;
      PoolHoldsLastAdmitted(c, ops[..n], x);
      AdmitsIffAdmitting(c, ops);
      if Touches(c, ops, n, x) {
        assert forall i :: 0 <= i < n ==> !LastAdmitted(c, ops, i, x);
        if Admitting(ops, n) {
          assert LastAdmitted(c, ops, n, x);
        }
      } else {
        forall i | 0 <= i < n ensures LastAdmitted(c, ops, i, x) <==> LastAdmitted(c, ops[..n], i, x) {
          LastAdmittedInPrefix(c, ops, i, x);
        }
        assert !LastAdmitted(c, ops, n, x);
      }
    }
  }

  lemma {:induction false} LastAdmittedInPrefix(c: Crypto, ops: seq<PoolOp>, i: nat, x: Hash)
    requires |ops| > 0 && i < |ops| - 1 && !Touches(c, ops, |ops| - 1, x)
    ensures LastAdmitted(c, ops, i, x) <==> LastAdmitted(c, ops[..|ops| - 1], i, x)
  {
    var n := |ops| - 1;
    forall j | 0 <= j < n ensures Touches(c, ops, j, x) <==> Touches(c, ops[..n], j, x) {
      AdmittingInPrefix(ops, n, j);
    }
    AdmittingInPrefix(ops, n, i);
  }
}

/**
 The node: each call runs in one write transaction over the state, the archive and the
 pool, and an error on the way drops it.
 */
module Nodes {
  import opened Prelude
  import opened Types
  import opened Bodies
  import opened Authorizations
  import opened Connection
  import opened Validation
  import opened Pegs
  import opened States
  import opened Archives
  import opened MemPools
  import opened Templates

  datatype NodeState = NodeState(ledger: Ledger, chain: Chain, pool: Pool)

  const GENESIS := NodeState(Ledger(map[], None, None, None), EMPTY_CHAIN, EMPTY_POOL)

  function TxidsOf(c: Crypto, ts: seq<Transaction>): set<Hash> {
    set t | t in ts :: c.txid(t)
  }

  /** One block, from the state it is validated on to the state it leaves. */
  ghost predicate BlockStep(
    c: Crypto, s: NodeState, header: Header, body: Body, peg: TwoWayPegData,
    collected: Option<WithdrawalBundle>, s': NodeState)
  {
    && BodyAccepted(c, s.ledger.utxos, body)
    && PegStep(c,
         s.ledger.(utxos := ConnectedUtxos(c, s.ledger.utxos, body)), peg, Height(s.chain), collected, s'.ledger)
    && Extends(c, s.chain, header)
    && Stores(c, Append(c, s.chain, header), header, body)
    && s'.chain == Store(c, Append(c, s.chain, header), header, body)
    && s'.pool == Remove(s.pool, TxidsOf(c, body.transactions))
  }

  /** Why a block is refused. */
  ghost predicate BlockRefused(c: Crypto, s: NodeState, header: Header, body: Body, peg: TwoWayPegData, e: Error) {
    || (!BodyAccepted(c, s.ledger.utxos, body) && Explains(c, s.ledger.utxos, body, e))
    || PegFails(c, s.ledger.(utxos := ConnectedUtxos(c, s.ledger.utxos, body)), peg, Height(s.chain), e)
    || (!Extends(c, s.chain, header) && e in {InvalidPrevSideHash, Overflow})
    || (Extends(c, s.chain, header) && !Stores(c, Append(c, s.chain, header), header, body) &&
         e in {InvalidMerkleRoot, NoHeader(c.headerHash(header))})
  }

  class Node {
    const crypto: Crypto
    const state: State
    const archive: Archive
    const mempool: MemPool

    ghost predicate Valid() {
      state.crypto == crypto && archive.crypto == crypto && mempool.crypto == crypto
    }

    ghost function Abs(): NodeState
      reads state, archive, mempool
    {
      NodeState(state.Abs(), archive.Abs(), mempool.Abs())
    }

    constructor (crypto: Crypto)
      ensures Valid() && this.crypto == crypto && Abs() == GENESIS
      ensures fresh(state) && fresh(archive) && fresh(mempool)
    {
      this.crypto := crypto;
      state := new State(crypto);
      archive := new Archive(crypto);
      mempool := new MemPool(crypto);
    }

    /** Drops the write transaction: every table is as it was when the transaction began. */
    method Rollback(
      utxos: Utxos, pending: Option<WithdrawalBundle>, failure: Option<u32>, deposit: Option<Hash>,
      headers: map<u32, Header>, bodies: map<u32, Body>, hashToHeight: map<Hash, u32>,
      transactions: map<Hash, AuthorizedTransaction>, spent: set<OutPoint>)
      modifies state, archive, mempool
      ensures Abs() == NodeState(
        Ledger(utxos, pending, failure, deposit), Chain(headers, bodies, hashToHeight), Pool(transactions, spent))
    {
      state.utxos, state.pendingBundle := utxos, pending;
      state.lastFailureHeight, state.lastDepositBlock := failure, deposit;
      archive.headers, archive.bodies, archive.hashToHeight := headers, bodies, hashToHeight;
      mempool.transactions, mempool.spentUtxos := transactions, spent;
    }

    /** Accepts exactly the acceptable transactions, and returns what they pay. */
    method ValidateTransaction(at: AuthorizedTransaction) returns (r: Result<u64, Error>)
      requires Valid()
      ensures r.Ok? <==> TransactionAccepted(crypto, state.utxos, at)
      ensures r.Ok? ==> r.value == InputValue(state.utxos, at.transaction.inputs) - TotalValue(at.transaction.outputs)
      ensures r.Err? ==> TransactionExplains(crypto, state.utxos, at, r.error)
    {
      var filled := state.FillTransaction(at.transaction);
      if filled.Err? {
        return Err(filled.error);
      }
      var spentUtxos := filled.value.spentUtxos;
      SpentValue(state.utxos, at.transaction.inputs);
      var i := 0;
      while i < |at.authorizations| && i < |spentUtxos|
        invariant 0 <= i <= |at.authorizations| && i <= |spentUtxos|
        invariant forall j :: 0 <= j < i ==>
          crypto.addressOf(at.authorizations[j].publicKey) == spentUtxos[j].address
      {
        if crypto.addressOf(at.authorizations[i].publicKey) != spentUtxos[i].address {
          return Err(WrongPubKeyForAddress);
        }
        i := i + 1;
      }
      var verified := VerifyAuthorizedTransaction(crypto, at);
      if verified.Err? {
        return Err(AuthorizationError);
      }
      r := ValidateFilledTransaction(filled.value);
    }

    /** A transaction enters the pool iff it is acceptable and conflicts with nothing admitted. */
    method SubmitTransaction(at: AuthorizedTransaction) returns (r: Result<(), Error>)
      requires Valid()
      modifies state, archive, mempool
      ensures r.Ok? <==>
        && old(TransactionAccepted(crypto, state.utxos, at))
        && NoDuplicates(at.transaction.inputs) && Elements(at.transaction.inputs) !! old(mempool.spentUtxos)
      ensures r.Ok? ==>
        && mempool.transactions == old(mempool.transactions)[crypto.txid(at.transaction) := at]
        && mempool.spentUtxos == old(mempool.spentUtxos) + Elements(at.transaction.inputs)
      ensures Abs() == if r.Ok? then old(Abs()).(pool := Admit(crypto, old(mempool.Abs()), at)) else old(Abs())
    {
      var utxos, pending := state.utxos, state.pendingBundle;
      var failure, deposit := state.lastFailureHeight, state.lastDepositBlock;
      var headers, bodies, hashToHeight := archive.headers, archive.bodies, archive.hashToHeight;
      var transactions, spent := mempool.transactions, mempool.spentUtxos;
      var fee := ValidateTransaction(at);
      if fee.Err? {
        return Err(fee.error);
      }
      r := mempool.Put(at);
      if r.Err? {
        Rollback(utxos, pending, failure, deposit, headers, bodies, hashToHeight, transactions, spent);
      }
    }

    /** One step of the template's loop: what a transaction pays, or its removal. */
    method Consider(at: AuthorizedTransaction, spentUtxos: set<OutPoint>) returns (paid: Option<u64>)
      requires Valid()
      modifies mempool
      ensures paid.Some? <==> InputsOf(at) !! spentUtxos && TransactionAccepted(crypto, state.utxos, at)
      ensures paid.Some? ==>
        paid.value == InputValue(state.utxos, at.transaction.inputs) - TotalValue(at.transaction.outputs)
      ensures mempool.Abs() == Remove(old(mempool.Abs()), if paid.Some? then {} else {crypto.txid(at.transaction)})
    {
      if !(spentUtxos !! Elements(at.transaction.inputs)) {
        mempool.Delete(crypto.txid(at.transaction));
        return None;
      }
      var fee := ValidateTransaction(at);
      if fee.Err? {
        mempool.Delete(crypto.txid(at.transaction));
        return None;
      }
      return Some(fee.value);
    }

    /** One step of the template's loop on its accumulators; `None` when the fee overflows. */
    method SelectNext(
      ghost start: Pool, ghost seen: seq<AuthorizedTransaction>, at: AuthorizedTransaction,
      returned: seq<AuthorizedTransaction>, spentUtxos: set<OutPoint>, fee: u64)
      returns (r: Option<(seq<AuthorizedTransaction>, set<OutPoint>, u64)>)
      requires Valid() && Building(crypto, state.utxos, seen, returned, spentUtxos, fee)
      requires mempool.Abs() == Remove(start, Dropped(crypto, state.utxos, seen))
      modifies mempool
      ensures r.Some? ==> Building(crypto, state.utxos, seen + [at], r.value.0, r.value.1, r.value.2)
      ensures r.Some? ==> mempool.Abs() == Remove(start, Dropped(crypto, state.utxos, seen + [at]))
      ensures r.None? ==> Fees(state.utxos, TransactionsOf(Selected(crypto, state.utxos, seen + [at]))) >= U64_LIMIT
      ensures mempool.spentUtxos == old(mempool.spentUtxos)
    {
      ghost var dropped := Dropped(crypto, state.utxos, seen);
      BuildingStep(crypto, state.utxos, seen, at, returned, spentUtxos, fee);
      var paid := Consider(at, spentUtxos);
      RemoveMore(start, dropped, if paid.Some? then {} else {crypto.txid(at.transaction)});
      if paid.None? {
        return Some((returned, spentUtxos, fee));
      }
      if fee + paid.value >= U64_LIMIT {
        return None;
      }
      return Some((returned + [at], spentUtxos + Elements(at.transaction.inputs), fee + paid.value));
    }

    /** The block template; the pool loses what was taken and not selected. */
    method GetTransactions(number: nat)
      returns (
        r: Result<(seq<AuthorizedTransaction>, u64), Error>,
        ghost keys: seq<Hash>, ghost taken: seq<AuthorizedTransaction>)
      requires Valid()
      modifies mempool
      ensures Taken(old(mempool.Abs()), keys, taken)
      ensures |taken| == if number <= |old(mempool.transactions)| then number else |old(mempool.transactions)|
      ensures r.Ok? <==> Fees(state.utxos, TransactionsOf(Selected(crypto, state.utxos, taken))) < U64_LIMIT
      ensures r.Err? ==> mempool.Abs() == old(mempool.Abs()) && r.error == Overflow
      ensures r.Ok? ==>
        && r.value.0 == Selected(crypto, state.utxos, taken)
        && r.value.1 == Fees(state.utxos, TransactionsOf(r.value.0))
        && mempool.Abs() == Remove(old(mempool.Abs()), Dropped(crypto, state.utxos, taken))
    {
      var transactions := mempool.transactions;
      var list, order := mempool.Take(number);
      keys, taken := order, list;
      var fee: u64 := 0;
      var returned: seq<AuthorizedTransaction> := [];
      var spentUtxos: set<OutPoint> := {};
      for i := 0 to |list|
        invariant Building(crypto, state.utxos, taken[..i], returned, spentUtxos, fee)
        invariant mempool.Abs() == Remove(old(mempool.Abs()), Dropped(crypto, state.utxos, taken[..i]))
        invariant mempool.spentUtxos == old(mempool.spentUtxos)
      {
        OneMore(taken, i);
        var next := SelectNext(old(mempool.Abs()), taken[..i], list[i], returned, spentUtxos, fee);
        if next.None? {
          SelectedFeesGrow(crypto, state.utxos, taken, i + 1);
          mempool.transactions := transactions;
          return Err(Overflow), keys, taken;
        }
        returned, spentUtxos, fee := next.value.0, next.value.1, next.value.2;
      }
      assert taken[..|list|] == taken;
      return Ok((returned, fee)), keys, taken;
    }

    /**
     Connects a block. It commits whole, and then it is a block step; or not at all.
     */
    method SubmitBlock(header: Header, body: Body, peg: TwoWayPegData, numThreads: nat)
      returns (r: Result<Option<WithdrawalBundle>, Error>, ghost collected: Option<WithdrawalBundle>)
      requires Valid() && numThreads >= 1
      modifies state, archive, mempool
      ensures r.Ok? ==> BlockStep(crypto, old(Abs()), header, body, peg, collected, Abs())
      ensures r.Ok? ==> r.value == state.pendingBundle
      ensures r.Err? ==> Abs() == old(Abs())
      ensures r.Err? ==> old(BlockRefused(crypto, Abs(), header, body, peg, r.error))
    {
      var utxos, pending := state.utxos, state.pendingBundle;
      var failure, deposit := state.lastFailureHeight, state.lastDepositBlock;
      var headers, bodies, hashToHeight := archive.headers, archive.bodies, archive.hashToHeight;
      var transactions, spent := mempool.transactions, mempool.spentUtxos;
      collected := None;

      var fees := state.ValidateBody(body, numThreads);
      if fees.Err? {
        return Err(fees.error), None;
      }
      var height := archive.GetHeight();
      state.ConnectBody(body);
      var connected;
      connected, collected := state.ConnectTwoWayPegData(peg, height);
      if connected.Err? {
        Rollback(utxos, pending, failure, deposit, headers, bodies, hashToHeight, transactions, spent);
        return Err(connected.error), None;
      }
      var appended := archive.AppendHeader(header);
      if appended.Err? {
        Rollback(utxos, pending, failure, deposit, headers, bodies, hashToHeight, transactions, spent);
        return Err(appended.error), None;
      }
      var stored := archive.PutBody(header, body);
      if stored.Err? {
        Rollback(utxos, pending, failure, deposit, headers, bodies, hashToHeight, transactions, spent);
        return Err(stored.error), None;
      }
      DeleteIncluded(body.transactions);
      return Ok(state.pendingBundle), collected;
    }

    method DeleteIncluded(ts: seq<Transaction>)
      requires Valid()
      modifies mempool
      ensures mempool.Abs() == Remove(old(mempool.Abs()), TxidsOf(crypto, ts))
    {
      for i := 0 to |ts|
        invariant mempool.Abs() == Remove(old(mempool.Abs()), TxidsOf(crypto, ts[..i]))
      {
        mempool.Delete(crypto.txid(ts[i]));
        assert ts[..i + 1] == ts[..i] + [ts[i]];
        assert TxidsOf(crypto, ts[..i + 1]) == TxidsOf(crypto, ts[..i]) + {crypto.txid(ts[i])};
      }
      assert ts[..|ts|] == ts;
    }
  }
}

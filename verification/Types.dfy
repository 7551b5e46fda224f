/**
 The data that blocks, transactions and the mainchain peg are made of.

 Hashes, signatures and key derivation are an arbitrary `Crypto` record of total
 functions; a fact that needs collision-freeness says so in its `requires`.
 */
module Types {
  import opened Prelude

  const U32_LIMIT := 0x1_0000_0000
  const U64_LIMIT := 0x1_0000_0000_0000_0000

  type u32 = x: nat | x < U32_LIMIT
  type u64 = x: nat | x < U64_LIMIT

  /** A digest. The first constructors are the digests of an ideal hash (see `Ideal`). */
  datatype Hash =
    | Zero
    | OfTransaction(transaction: Transaction)
    | OfBody(coinbase: seq<Output>, transactions: seq<Transaction>)
    | OfHeader(header: Header)
    | OfInputs(inputs: seq<OutPoint>)
    | OfMainTransaction(mainTransaction: MainTransaction)
    | Other(id: nat)

  datatype OutPoint =
    | Regular(txid: Hash, vout: u32)
    | Coinbase(merkleRoot: Hash, vout: u32)
    | Deposit(mainTxid: Hash, vout: u32)

  datatype Address = Address(id: nat)

  /** A mainchain address; its script's length is all that a bundle's weight sees. */
  datatype MainAddress = MainAddress(id: nat, scriptLength: nat)

  /** A sidechain's own content is kept with the value its `GetValue` reports. */
  datatype Content =
    | Custom(id: nat, customValue: u64)
    | Value(amount: u64)
    | Withdrawal(value: u64, mainFee: u64, mainAddress: MainAddress)
  {
    function GetValue(): u64 {
      match this
      case Custom(_, v) => v
      case Value(v) => v
      case Withdrawal(v, _, _) => v
    }
  }

  datatype Output = Output(address: Address, content: Content) {
    function GetValue(): u64 { content.GetValue() }
    predicate IsWithdrawal() { content.Withdrawal? }
  }

  type Utxos = map<OutPoint, Output>

  datatype Transaction = Transaction(inputs: seq<OutPoint>, outputs: seq<Output>)

  datatype FilledTransaction = FilledTransaction(transaction: Transaction, spentUtxos: seq<Output>)

  datatype PublicKey = PublicKey(id: nat)

  /** A signature. The first constructor is the signature of an ideal scheme (see `Ideal`). */
  datatype Signature = OfMessage(signer: nat, message: Transaction) | Bytes(id: nat)

  datatype Authorization = Authorization(publicKey: PublicKey, signature: Signature)

  datatype AuthorizedTransaction =
    AuthorizedTransaction(transaction: Transaction, authorizations: seq<Authorization>)

  datatype Body =
    Body(coinbase: seq<Output>, transactions: seq<Transaction>, authorizations: seq<Authorization>)

  datatype Header = Header(merkleRoot: Hash, prevSideHash: Hash, prevMainHash: Hash)

  /** The scripts of a bundle's outputs. */
  datatype Script =
    | PayTo(mainAddress: MainAddress)
    | ReturnDest
    | MainchainFee(fee: u64)
    | InputsCommitment(commitment: Hash)

  datatype TxOut = TxOut(value: u64, script: Script)

  /** A withdrawal transaction: version, lock time and its one input never vary. */
  datatype MainTransaction = MainTransaction(outputs: seq<TxOut>)

  datatype WithdrawalBundle = WithdrawalBundle(spentUtxos: Utxos, transaction: MainTransaction)

  datatype WithdrawalBundleStatus = Failed | Confirmed

  datatype TwoWayPegData = TwoWayPegData(
    deposits: Utxos,
    depositBlockHash: Option<Hash>,
    bundleStatuses: map<Hash, WithdrawalBundleStatus>)

  /** Every way a call can end without success; `Overflow` and `Panicked` abort the caller. */
  datatype Error =
    | NoUtxo(outpoint: OutPoint)
    | NotEnoughValueIn
    | NotEnoughFees
    | UtxoDoubleSpent
    | WrongPubKeyForAddress
    | AuthorizationError
    | BundleTooHeavy(weight: nat, maxWeight: nat)
    | InvalidPrevSideHash
    | InvalidMerkleRoot
    | NoHeader(hash: Hash)
    | NotEnoughFunds
    | NoIndex(address: Address)
    | NoSeed
    | Overflow
    | Panicked

  datatype Crypto = Crypto(
    txid: Transaction -> Hash,
    merkleRoot: (seq<Output>, seq<Transaction>) -> Hash,
    headerHash: Header -> Hash,
    commitment: seq<OutPoint> -> Hash,
    mainTxid: MainTransaction -> Hash,
    addressOf: PublicKey -> Address,
    verifies: (PublicKey, Signature, Transaction) -> bool,
    // BIP 32 child of the wallet's seed at a hardened index, and a signature by it.
    childKey: (nat, u32) -> PublicKey,
    sign: (nat, u32, Transaction) -> Signature)
  {
    ghost predicate TxidCollisionFree() {
      forall s, t :: txid(s) == txid(t) ==> s == t
    }

    ghost predicate RootCollisionFree() {
      forall cs, ts, cs', ts' :: merkleRoot(cs, ts) == merkleRoot(cs', ts') ==> cs == cs' && ts == ts'
    }

    ghost predicate HeaderCollisionFree() {
      && (forall s, t :: headerHash(s) == headerHash(t) ==> s == t)
      && (forall s :: headerHash(s) != Zero)
    }

    ghost predicate BundleCollisionFree() {
      && (forall s, t :: commitment(s) == commitment(t) ==> s == t)
      && (forall s, t :: mainTxid(s) == mainTxid(t) ==> s == t)
    }

    ghost predicate SignaturesVerify() {
      forall seed, index, t :: verifies(childKey(seed, index), sign(seed, index, t), t)
    }

    ghost predicate SignaturesFitOneMessage() {
      forall k, s, t, u :: verifies(k, s, t) && verifies(k, s, u) ==> t == u
    }
  }

  /** A hash that is its own pre-image: the hypotheses on `Crypto` can all hold at once. */
  function Ideal(): (c: Crypto)
    ensures c.TxidCollisionFree() && c.RootCollisionFree() && c.HeaderCollisionFree()
    ensures c.BundleCollisionFree() && c.SignaturesVerify() && c.SignaturesFitOneMessage()
  {
    Crypto(
      (t: Transaction) => OfTransaction(t),
      (cs: seq<Output>, ts: seq<Transaction>) => OfBody(cs, ts),
      (h: Header) => OfHeader(h),
      (s: seq<OutPoint>) => OfInputs(s),
      (t: MainTransaction) => OfMainTransaction(t),
      (k: PublicKey) => Address(k.id),
      (k: PublicKey, s: Signature, t: Transaction) => s == OfMessage(k.id, t),
      (seed: nat, index: u32) => PublicKey(index),
      (seed: nat, index: u32, t: Transaction) => OfMessage(index, t))
  }

  /** Sum of the outputs' values, unbounded. */
  function TotalValue(outputs: seq<Output>): nat {
    if |outputs| == 0 then 0
    else TotalValue(outputs[..|outputs| - 1]) + outputs[|outputs| - 1].GetValue()
  }
}

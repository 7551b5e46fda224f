/** The archive: headers by height, linked by hash, and the bodies stored under them. */
module Archives {
  import opened Prelude
  import opened Types

  datatype Chain = Chain(
    headers: map<u32, Header>,
    bodies: map<u32, Body>,
    hashToHeight: map<Hash, u32>)

  const EMPTY_CHAIN := Chain(map[], map[], map[])

  // ---------- The last key of a table ----------

  /** The bytes under which a height is stored. */
  function BigEndian(h: u32): (bytes: seq<nat>)
    ensures |bytes| == 4
  {
    [h / 0x100_0000, h / 0x1_0000 % 0x100, h / 0x100 % 0x100, h % 0x100]
  }

  /** The order of keys in the store: bytes, first to last. */
  predicate KeyLess(a: seq<nat>, b: seq<nat>) {
    |b| > 0 && (|a| == 0 || a[0] < b[0] || (a[0] == b[0] && KeyLess(a[1..], b[1..])))
  }

  /** Big-endian keys are ordered as the numbers they encode. */
  lemma {:induction false} BigEndianKeepsOrder(a: u32, b: u32)
    ensures KeyLess(BigEndian(a), BigEndian(b)) <==> a < b
  {
    var s, t := BigEndian(a), BigEndian(b);
    assert s[1..][1..][1..] == s[3..] && t[1..][1..][1..] == t[3..];
    assert KeyLess(s[3..], t[3..]) <==> s[3] < t[3];
    assert KeyLess(s[1..][1..], t[1..][1..]) <==> s[2] < t[2] || (s[2] == t[2] && s[3] < t[3]);
    Bytes(a);
    Bytes(b);
  }

  lemma {:induction false} Bytes(h: u32)
    ensures var s := BigEndian(h);
      s[1] < 0x100 && s[2] < 0x100 && s[3] < 0x100 && h == s[0] * 0x100_0000 + s[1] * 0x1_0000 + s[2] * 0x100 + s[3]
  {
  }

  /** The greatest height in a set, 0 when there is none. */
  ghost function Top(heights: set<u32>): (top: u32)
    ensures heights == {} ==> top == 0
    ensures heights != {} ==> top in heights
    ensures forall h :: h in heights ==> h <= top
  {
    if heights == {} then 0
    else
      var h :| h in heights;
      var rest := Top(heights - {h});
      assert heights == (heights - {h}) + {h};
      if rest > h then rest else h
  }

  /** `last` of a table whose keys are big-endian heights. */
  method LastKey(heights: set<u32>) returns (last: Option<u32>)
    ensures last.None? <==> heights == {}
    ensures last.Some? ==> last.value == Top(heights)
    ensures last.Some? ==> forall h :: h in heights ==> h == last.value || KeyLess(BigEndian(h), BigEndian(last.value))
  {
    last := None;
    var order := AnyOrder(heights);
    for i := 0 to |order|
      invariant last.None? <==> i == 0
      invariant last.Some? ==> last.value in order[..i]
      invariant last.Some? ==> forall j :: 0 <= j < i ==> order[j] <= last.value
    {
      if last.None? || KeyLess(BigEndian(last.value), BigEndian(order[i])) {
        if last.Some? {
          BigEndianKeepsOrder(last.value, order[i]);
        }
        last := Some(order[i]);
      } else {
        BigEndianKeepsOrder(last.value, order[i]);
      }
    }
    assert order[..|order|] == order;
    if last.None? {
      assert Elements(order) == {};
      return;
    }
    assert last.value in Elements(order);
    forall h | h in heights ensures h <= last.value {
      assert h in Elements(order);
    }
    forall h | h in heights && h != last.value ensures KeyLess(BigEndian(h), BigEndian(last.value)) {
      BigEndianKeepsOrder(h, last.value);
    }
  }

  // ---------- Operations on the chain ----------

  ghost function Height(chain: Chain): u32 { Top(chain.headers.Keys) }

  ghost function BestHash(c: Crypto, chain: Chain): Hash {
    if chain.headers == map[] then Zero else c.headerHash(chain.headers[Height(chain)])
  }

  ghost predicate Extends(c: Crypto, chain: Chain, header: Header) {
    header.prevSideHash == BestHash(c, chain) && Height(chain) + 1 < U32_LIMIT
  }

  ghost function Append(c: Crypto, chain: Chain, header: Header): Chain
    requires Extends(c, chain, header)
  {
    var height: u32 := Height(chain) + 1;
    chain.(headers := chain.headers[height := header],
           hashToHeight := chain.hashToHeight[c.headerHash(header) := height])
  }

  predicate Stores(c: Crypto, chain: Chain, header: Header, body: Body) {
    && header.merkleRoot == c.merkleRoot(body.coinbase, body.transactions)
    && c.headerHash(header) in chain.hashToHeight
  }

  function Store(c: Crypto, chain: Chain, header: Header, body: Body): Chain
    requires Stores(c, chain, header, body)
  {
    chain.(bodies := chain.bodies[chain.hashToHeight[c.headerHash(header)] := body])
  }

  class Archive {
    const crypto: Crypto
    var headers: map<u32, Header>
    var bodies: map<u32, Body>
    var hashToHeight: map<Hash, u32>

    ghost function Abs(): Chain
      reads this
    {
      Chain(headers, bodies, hashToHeight)
    }

    constructor (crypto: Crypto)
      ensures this.crypto == crypto && Abs() == EMPTY_CHAIN
    {
      this.crypto := crypto;
      headers, bodies, hashToHeight := map[], map[], map[];
    }

    method GetHeight() returns (height: u32)
      ensures height == Height(Abs())
    {
      var last := LastKey(headers.Keys);
      height := if last.Some? then last.value else 0;
    }

    method GetBestHash() returns (hash: Hash)
      ensures hash == BestHash(crypto, Abs())
    {
      var last := LastKey(headers.Keys);
      hash := if last.Some? then crypto.headerHash(headers[last.value]) else Zero;
    }

    method AppendHeader(header: Header) returns (r: Result<(), Error>)
      modifies this
      ensures r.Ok? <==> old(Extends(crypto, Abs(), header))
      ensures r.Ok? ==> Abs() == Append(crypto, old(Abs()), header)
      ensures r.Ok? ==>
        && headers == old(headers)[old(Height(Abs())) + 1 := header] && bodies == old(bodies)
        && hashToHeight == old(hashToHeight)[crypto.headerHash(header) := old(Height(Abs())) + 1]
      ensures r.Err? ==> Abs() == old(Abs()) && r.error in {InvalidPrevSideHash, Overflow}
    {
      var height := GetHeight();
      var bestHash := GetBestHash();
      if header.prevSideHash != bestHash {
        return Err(InvalidPrevSideHash);
      }
      if height + 1 >= U32_LIMIT {
        return Err(Overflow);
      }
      headers := headers[height + 1 := header];
      hashToHeight := hashToHeight[crypto.headerHash(header) := height + 1];
      return Ok(());
    }

    method PutBody(header: Header, body: Body) returns (r: Result<(), Error>)
      modifies this
      ensures r.Ok? <==> old(Stores(crypto, Abs(), header, body))
      ensures r.Ok? ==> Abs() == Store(crypto, old(Abs()), header, body)
      ensures r.Ok? ==>
        && crypto.headerHash(header) in old(hashToHeight)
        && bodies == old(bodies)[old(hashToHeight)[crypto.headerHash(header)] := body]
        && headers == old(headers) && hashToHeight == old(hashToHeight)
      ensures r.Err? ==> Abs() == old(Abs()) && r.error in {InvalidMerkleRoot, NoHeader(crypto.headerHash(header))}
    {
      if header.merkleRoot != crypto.merkleRoot(body.coinbase, body.transactions) {
        return Err(InvalidMerkleRoot);
      }
      var hash := crypto.headerHash(header);
      if hash !in hashToHeight {
        return Err(NoHeader(hash));
      }
      bodies := bodies[hashToHeight[hash] := body];
      return Ok(());
    }
  }

  // ---------- Every run of the archive ----------

  /** Heights are exactly 1..n, and each header names its predecessor's hash. */
  ghost predicate Linked(c: Crypto, headers: map<u32, Header>, n: u32) {
    && (forall h: u32 :: h in headers <==> 1 <= h <= n)
    && (forall h: u32 :: 1 <= h <= n ==> LinkedAt(c, headers, h))
  }

  ghost predicate LinkedAt(c: Crypto, headers: map<u32, Header>, h: u32) {
    && h in headers
    && if h <= 1 then headers[h].prevSideHash == Zero
       else h - 1 in headers && headers[h].prevSideHash == c.headerHash(headers[h - 1])
  }

  ghost predicate Indexed(c: Crypto, chain: Chain) {
    && (forall h :: h in chain.headers ==>
          && c.headerHash(chain.headers[h]) in chain.hashToHeight
          && chain.hashToHeight[c.headerHash(chain.headers[h])] == h)
    && (forall x :: x in chain.hashToHeight ==>
          chain.hashToHeight[x] in chain.headers && c.headerHash(chain.headers[chain.hashToHeight[x]]) == x)
  }

  ghost predicate BodiesMatch(c: Crypto, chain: Chain) {
    forall h :: h in chain.bodies ==>
      && h in chain.headers
      && c.merkleRoot(chain.bodies[h].coinbase, chain.bodies[h].transactions) == chain.headers[h].merkleRoot
  }

  ghost predicate WellFormed(c: Crypto, chain: Chain) {
    Linked(c, chain.headers, Height(chain)) && Indexed(c, chain) && BodiesMatch(c, chain)
  }

  /** No header hash occurs at two heights of a linked chain. */
  lemma {:induction false} HashesAreDistinct(c: Crypto, headers: map<u32, Header>, n: u32, i: u32, j: u32)
    requires c.HeaderCollisionFree() && Linked(c, headers, n) && 1 <= i < j <= n
    ensures c.headerHash(headers[i]) != c.headerHash(headers[j])
    decreases i
  {
    if c.headerHash(headers[i]) == c.headerHash(headers[j]) {
      assert LinkedAt(c, headers, i) && LinkedAt(c, headers, j);
      assert headers[i] == headers[j];
      if i > 1 {
        HashesAreDistinct(c, headers, n, i - 1, j - 1);
      }
    }
  }

  lemma {:induction false} TopOfRange(heights: set<u32>, n: u32)
    requires forall h: u32 :: h in heights <==> 1 <= h <= n
    ensures Top(heights) == n
  {
    if n > 0 {
      assert n in heights;
    }
  }

  lemma {:induction false} AppendKeepsLinks(c: Crypto, chain: Chain, header: Header)
    requires Linked(c, chain.headers, Height(chain)) && Extends(c, chain, header)
    ensures Linked(c, Append(c, chain, header).headers, Height(chain) + 1)
    ensures Height(Append(c, chain, header)) == Height(chain) + 1
  {
    var n, headers := Height(chain), Append(c, chain, header).headers;
    forall h: u32 | 1 <= h <= n + 1 ensures LinkedAt(c, headers, h) {
      assert h <= n ==> LinkedAt(c, chain.headers, h);
    }
    TopOfRange(headers.Keys, n + 1);
  }

  lemma {:induction false} AppendKeepsIndex(c: Crypto, chain: Chain, header: Header)
    requires Indexed(c, chain) && Extends(c, chain, header)
    requires Height(chain) + 1 !in chain.headers
    requires forall h :: h in chain.headers ==> c.headerHash(chain.headers[h]) != c.headerHash(header)
    ensures Indexed(c, Append(c, chain, header))
  {
  }

  lemma {:induction false} AppendKeepsWellFormed(c: Crypto, chain: Chain, header: Header)
    requires c.HeaderCollisionFree() && WellFormed(c, chain) && Extends(c, chain, header)
    ensures WellFormed(c, Append(c, chain, header))
    ensures Height(Append(c, chain, header)) == Height(chain) + 1
  {
    var n, chain' := Height(chain), Append(c, chain, header);
    AppendKeepsLinks(c, chain, header);
    forall h | h in chain.headers ensures c.headerHash(chain.headers[h]) != c.headerHash(header) {
      HashesAreDistinct(c, chain'.headers, n + 1, h, n + 1);
    }
    AppendKeepsIndex(c, chain, header);
  }

  lemma {:induction false} StoreKeepsWellFormed(c: Crypto, chain: Chain, header: Header, body: Body)
    requires c.HeaderCollisionFree() && WellFormed(c, chain) && Stores(c, chain, header, body)
    ensures WellFormed(c, Store(c, chain, header, body))
    ensures Height(Store(c, chain, header, body)) == Height(chain)
  {
    assert chain.headers[chain.hashToHeight[c.headerHash(header)]] == header;
  }

  datatype ArchiveOp = AppendOp(header: Header) | StoreOp(header: Header, body: Body)

  /** An operation that is refused leaves the archive as it was. */
  ghost function Apply(c: Crypto, chain: Chain, op: ArchiveOp): Chain {
    match op
    case AppendOp(header) => if Extends(c, chain, header) then Append(c, chain, header) else chain
    case StoreOp(header, body) => if Stores(c, chain, header, body) then Store(c, chain, header, body) else chain
  }

  ghost function RunOps(c: Crypto, ops: seq<ArchiveOp>): Chain {
    if |ops| == 0 then EMPTY_CHAIN else Apply(c, RunOps(c, ops[..|ops| - 1]), ops[|ops| - 1])
  }

  lemma {:induction false} EveryArchiveIsWellFormed(c: Crypto, ops: seq<ArchiveOp>)
    requires c.HeaderCollisionFree()
    ensures WellFormed(c, RunOps(c, ops))
  {
    if |ops| > 0 {
      var chain, op := RunOps(c, ops[..|ops| - 1]), ops[|ops| - 1];
      EveryArchiveIsWellFormed(c, ops[..|ops| - 1]);
      match op
      case AppendOp(header) =>
        if Extends(c, chain, header) { AppendKeepsWellFormed(c, chain, header); }
      case StoreOp(header, body) =>
        if Stores(c, chain, header, body) { StoreKeepsWellFormed(c, chain, header, body); }
    }
  }

  // ---------- The best hash binds the whole chain ----------

  /** Equal headers up to a height, and equal content wherever both hold a body. */
  ghost predicate AgreeUpTo(a: Chain, b: Chain, n: u32) {
    && (forall h: u32 :: 1 <= h <= n ==> h in a.headers && h in b.headers && a.headers[h] == b.headers[h])
    && (forall h: u32 :: 1 <= h <= n && h in a.bodies && h in b.bodies ==>
          a.bodies[h].coinbase == b.bodies[h].coinbase && a.bodies[h].transactions == b.bodies[h].transactions)
  }

  lemma {:induction false} EqualHashesBindPrefix(
    c: Crypto, a: map<u32, Header>, n: u32, b: map<u32, Header>, m: u32, i: u32, j: u32)
    requires c.HeaderCollisionFree() && Linked(c, a, n) && Linked(c, b, m)
    requires 1 <= i <= n && 1 <= j <= m && c.headerHash(a[i]) == c.headerHash(b[j])
    ensures i == j && forall h: u32 :: 1 <= h <= i ==> a[h] == b[h]
    decreases i
  {
    assert a[i] == b[j];
    assert LinkedAt(c, a, i) && LinkedAt(c, b, j);
    if i > 1 && j > 1 {
      EqualHashesBindPrefix(c, a, n, b, m, i - 1, j - 1);
    }
  }

  lemma {:induction false} EqualHeadersBindBodies(c: Crypto, a: Chain, b: Chain, n: u32)
    requires c.RootCollisionFree() && WellFormed(c, a) && WellFormed(c, b) && n <= Height(a) && n <= Height(b)
    requires forall h: u32 :: 1 <= h <= n ==> a.headers[h] == b.headers[h]
    ensures AgreeUpTo(a, b, n)
  {
    forall h: u32 | 1 <= h <= n && h in a.bodies && h in b.bodies
      ensures a.bodies[h].coinbase == b.bodies[h].coinbase && a.bodies[h].transactions == b.bodies[h].transactions
    {
      assert a.headers[h] == b.headers[h];
    }
  }

  lemma {:induction false} TipOf(c: Crypto, chain: Chain)
    requires WellFormed(c, chain)
    ensures Height(chain) == 0 <==> chain.headers == map[]
    ensures Height(chain) == 0 ==> BestHash(c, chain) == Zero
    ensures Height(chain) > 0 ==>
      Height(chain) in chain.headers && BestHash(c, chain) == c.headerHash(chain.headers[Height(chain)])
  {
    if chain.headers != map[] {
      var h :| h in chain.headers;
    }
  }

  /** Two archives with the same best hash are the same chain. */
  lemma {:induction false} BestHashBindsChain(c: Crypto, a: Chain, b: Chain)
    requires c.HeaderCollisionFree() && c.RootCollisionFree() && WellFormed(c, a) && WellFormed(c, b)
    requires BestHash(c, a) == BestHash(c, b)
    ensures Height(a) == Height(b) && AgreeUpTo(a, b, Height(a)) && a.headers == b.headers
  {
    TipOf(c, a);
    TipOf(c, b);
    var n, m := Height(a), Height(b);
    if n > 0 && m > 0 {
      EqualHashesBindPrefix(c, a.headers, n, b.headers, m, n, m);
      EqualHeadersBindBodies(c, a, b, n);
      assert a.headers.Keys == b.headers.Keys;
    }
  }

  lemma {:induction false} LinkToTip(c: Crypto, peer: Chain, n: u32)
    requires WellFormed(c, peer) && n < Height(peer)
    ensures n + 1 in peer.headers && (n > 0 ==> n in peer.headers)
    ensures peer.headers[n + 1].prevSideHash == if n == 0 then Zero else c.headerHash(peer.headers[n])
  {
    assert LinkedAt(c, peer.headers, n + 1);
  }

  lemma {:induction false} TipHashBindsPrefix(c: Crypto, node: Chain, peer: Chain)
    requires c.HeaderCollisionFree() && c.RootCollisionFree() && WellFormed(c, node) && WellFormed(c, peer)
    requires 0 < Height(node) < Height(peer)
    requires Height(node) in node.headers && Height(node) in peer.headers
    requires c.headerHash(node.headers[Height(node)]) == c.headerHash(peer.headers[Height(node)])
    ensures AgreeUpTo(node, peer, Height(node))
  {
    var n := Height(node);
    EqualHashesBindPrefix(c, node.headers, n, peer.headers, Height(peer), n, n);
    EqualHeadersBindBodies(c, node, peer, n);
  }

  lemma {:induction false} AgreementLinksToTip(c: Crypto, node: Chain, peer: Chain)
    requires WellFormed(c, node) && WellFormed(c, peer) && Height(peer) > Height(node)
    requires AgreeUpTo(node, peer, Height(node))
    ensures Height(node) + 1 in peer.headers && Extends(c, node, peer.headers[Height(node) + 1])
  {
    LinkToTip(c, peer, Height(node));
    TipOf(c, node);
  }

  lemma {:induction false} LinkToTipAgrees(c: Crypto, node: Chain, peer: Chain)
    requires c.HeaderCollisionFree() && c.RootCollisionFree() && WellFormed(c, node) && WellFormed(c, peer)
    requires Height(peer) > Height(node) && Height(node) + 1 in peer.headers
    requires Extends(c, node, peer.headers[Height(node) + 1])
    ensures AgreeUpTo(node, peer, Height(node))
  {
    LinkToTip(c, peer, Height(node));
    TipOf(c, node);
    if Height(node) > 0 {
      TipHashBindsPrefix(c, node, peer);
    }
  }

  /**
   Sync asks a taller peer for the block above our tip. We append its header exactly when
   peer and node agree on every height up to the tip.
   */
  lemma {:induction false} SyncExtendsIffPrefixAgrees(c: Crypto, node: Chain, peer: Chain)
    requires c.HeaderCollisionFree() && c.RootCollisionFree() && WellFormed(c, node) && WellFormed(c, peer)
    requires Height(peer) > Height(node)
    ensures Height(node) + 1 in peer.headers
    ensures Extends(c, node, peer.headers[Height(node) + 1]) <==> AgreeUpTo(node, peer, Height(node))
  {
    LinkToTip(c, peer, Height(node));
    if AgreeUpTo(node, peer, Height(node)) {
      AgreementLinksToTip(c, node, peer);
    } else if Extends(c, node, peer.headers[Height(node) + 1]) {
      LinkToTipAgrees(c, node, peer);
    }
  }
}

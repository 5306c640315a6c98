/** The two inclusion-proof verifiers: the SCITT one over raw digests, capped at 63 path elements,
    and the badge one over hexadecimal text with signed 64-bit sizes. */
module InclusionProofs {
  import opened Text
  import opened Hex
  import opened MerkleTree
  import opened InclusionWalk

  newtype uint64 = x: int | 0 <= x < 0x1_0000_0000_0000_0000
  newtype int64 = x: int | -0x8000_0000_0000_0000 <= x < 0x8000_0000_0000_0000

  const MAX_HASH_PATH_LEN: nat := 63

  datatype MerkleError =
    | TreeSizeZero
    | LeafIndexOutOfRange
    | PathTooLong
    | ExcessPath
    | InsufficientPath
    | RootMismatch

  datatype Walked = Computed(root: Digest) | Rejected(error: MerkleError)

  function ToWalked(w: Walk): Walked {
    match w
    case Reached(root) => Computed(root)
    case Excess => Rejected(ExcessPath)
    case Insufficient => Rejected(InsufficientPath)
  }

  /** What `WalkInclusionPath` promises, in terms of the tree of RFC 9162. */
  function Inclusion(sha: Sha, event: Bytes, m: nat, n: nat, path: seq<Digest>): Walked {
    if n == 0 then Rejected(TreeSizeZero)
    else if m >= n then Rejected(LeafIndexOutOfRange)
    else if |path| > MAX_HASH_PATH_LEN then Rejected(PathTooLong)
    else ToWalked(TreeWalk(sha, m, n, LeafHash(sha, event), path))
  }

  /** The loop shared by both verifiers, over machine words. */
  method WalkPath(sha: Sha, leafIndex: uint64, lastIndex: uint64, leaf: Digest, path: seq<Digest>)
    returns (w: Walk)
    requires leafIndex <= lastIndex
    ensures w == TreeWalk(sha, leafIndex as nat, lastIndex as nat + 1, leaf, path)
  {
    WalkRefinesTree(sha, leafIndex as nat, lastIndex as nat + 1, leaf, path);
    var fn, sn, r := leafIndex, lastIndex, leaf;
    var i := 0;
    while i < |path|
      invariant 0 <= i <= |path| && fn <= sn
      invariant WalkFrom(sha, fn as nat, sn as nat, r, path[i..]) ==
                TreeWalk(sha, leafIndex as nat, lastIndex as nat + 1, leaf, path)
    {
      var p := path[i];
      assert path[i..][0] == p && path[i..][1..] == path[i + 1..];
      if sn == 0 {
        return Excess;
      }
      if fn % 2 == 1 || fn == sn {
        r := NodeHash(sha, p, r);
        ghost var start := Strip(fn as nat, sn as nat);
        while fn != 0 && fn % 2 == 0
          invariant fn <= sn && Strip(fn as nat, sn as nat) == start
        {
          fn, sn := fn / 2, sn / 2;
        }
      } else {
        r := NodeHash(sha, r, p);
      }
      fn, sn := fn / 2, sn / 2;
      i := i + 1;
    }
    assert path[i..] == [];
    w := if sn != 0 then Insufficient else Reached(r);
  }

  method WalkInclusionPath(sha: Sha, event: Bytes, leafIndex: uint64, treeSize: uint64, path: seq<Digest>)
    returns (w: Walked)
    ensures w == Inclusion(sha, event, leafIndex as nat, treeSize as nat, path)
  {
    if treeSize == 0 {
      return Rejected(TreeSizeZero);
    }
    if leafIndex >= treeSize {
      return Rejected(LeafIndexOutOfRange);
    }
    if |path| > MAX_HASH_PATH_LEN {
      return Rejected(PathTooLong);
    }
    var walk := WalkPath(sha, leafIndex, treeSize - 1, LeafHash(sha, event), path);
    w := ToWalked(walk);
  }

  method VerifyMerkleInclusion(
    sha: Sha, event: Bytes, leafIndex: uint64, treeSize: uint64, path: seq<Digest>, expectedRoot: Digest)
    returns (error: Option<MerkleError>)
    ensures error.None? <==> Inclusion(sha, event, leafIndex as nat, treeSize as nat, path) == Computed(expectedRoot)
    ensures error == Some(RootMismatch) <==>
            var w := Inclusion(sha, event, leafIndex as nat, treeSize as nat, path);
            w.Computed? && w.root != expectedRoot
    ensures var w := Inclusion(sha, event, leafIndex as nat, treeSize as nat, path);
            w.Rejected? ==> error == Some(w.error)
  {
    var w := WalkInclusionPath(sha, event, leafIndex, treeSize, path);
    if w.Rejected? {
      return Some(w.error);
    }
    if w.root != expectedRoot {
      return Some(RootMismatch);
    }
    return None;
  }

  /** Each rejection has its own cause, and they exclude each other. */
  lemma RejectionsAre(sha: Sha, event: Bytes, m: nat, n: nat, path: seq<Digest>, e: MerkleError)
    ensures Inclusion(sha, event, m, n, path) == Rejected(e) <==>
            match e
            case TreeSizeZero => n == 0
            case LeafIndexOutOfRange => 0 < n <= m
            case PathTooLong => m < n && |path| > 63
            case ExcessPath => m < n && |path| <= 63 && |path| > Depth(m, n)
            case InsufficientPath => m < n && |path| <= 63 && |path| < Depth(m, n)
            case RootMismatch => false
  {
    if m < n {
      ReachedIffDepth(sha, m, n, LeafHash(sha, event), path);
    }
  }

  // ---------------------------------------------------------------- the cap of 63 elements

  lemma Pow2Of63()
    ensures Pow2(63) == 0x8000_0000_0000_0000 && Pow2(64) == 0x1_0000_0000_0000_0000
  {
    assert Pow2(8) == 0x100;
    assert Pow2(16) == 0x1_0000;
    assert Pow2(24) == 0x100_0000;
    assert Pow2(32) == 0x1_0000_0000;
    assert Pow2(40) == 0x100_0000_0000;
    assert Pow2(48) == 0x1_0000_0000_0000;
    assert Pow2(56) == 0x100_0000_0000_0000;
  }

  /** The capped walker accepts some path for (m, n) exactly when the leaf is at most 63 levels
      deep, and then it accepts exactly the paths of that length. */
  lemma CappedWalkAcceptsIffDepth(sha: Sha, event: Bytes, m: nat, n: nat, path: seq<Digest>)
    requires m < n
    ensures Inclusion(sha, event, m, n, path).Computed? <==>
            |path| == Depth(m, n) && Depth(m, n) <= MAX_HASH_PATH_LEN
  {
    ReachedIffDepth(sha, m, n, LeafHash(sha, event), path);
  }

  /** Up to 2^63 leaves the cap costs nothing: what it rejects has excess elements anyway. */
  lemma CapIsHarmlessUpTo2To63(sha: Sha, event: Bytes, m: nat, n: nat, path: seq<Digest>)
    requires m < n <= Pow2(63)
    ensures Depth(m, n) <= MAX_HASH_PATH_LEN
    ensures |path| > MAX_HASH_PATH_LEN ==> TreeWalk(sha, m, n, LeafHash(sha, event), path) == Excess
  {
    DepthAtMost(m, n, 63);
    ReachedIffDepth(sha, m, n, LeafHash(sha, event), path);
  }

  /** Above 2^63 leaves, which a uint64 tree size still allows, every leaf of the left half
      sits 64 levels deep: even its genuine proof is turned away. */
  lemma {:induction false} CapRejectsLeftHalfAbove2To63(sha: Sha, m: nat, d: Leaves)
    requires m < Pow2(63) < |d| <= Pow2(64)
    ensures Inclusion(sha, d[m], m, |d|, AuditPath(sha, m, d)) == Rejected(PathTooLong)
    ensures forall event, path :: !Inclusion(sha, event, m, |d|, path).Computed?
  {
    var n := |d|;
    DepthOfLeftHalf(m, n, 63);
    forall event, path
      ensures !Inclusion(sha, event, m, n, path).Computed?
    {
      CappedWalkAcceptsIffDepth(sha, event, m, n, path);
    }
  }

  // ---------------------------------------------------------------- what acceptance means

  /** The first disagreement between a proof and the real tree, read as hash inputs. */
  function Disagreement(sha: Sha, event: Bytes, m: nat, d: Leaves, path: seq<Digest>): Option<(Bytes, Bytes)>
    requires m < |d| && |path| == Depth(m, |d|)
  {
    match NodeMismatch(sha, m, d, LeafHash(sha, event), path)
    case Some(pair) => Some(pair)
    case None => if event != d[m] then Some((LeafInput(event), LeafInput(d[m]))) else None
  }

  /** Main theorem. For a tree of at most 2^63 entries, the verifier accepts `event` at position m
      under the RFC 9162 root of `d` exactly for the m-th entry with its generated path; any other
      accepted input hands over two distinct byte strings with equal SHA-256. */
  lemma {:induction false} AcceptsOnlyTheGenuineProof(sha: Sha, event: Bytes, m: nat, d: Leaves, path: seq<Digest>)
    requires m < |d| <= Pow2(63)
    ensures event == d[m] && path == AuditPath(sha, m, d) ==>
            Inclusion(sha, event, m, |d|, path) == Computed(Root(sha, d))
    ensures Inclusion(sha, event, m, |d|, path) == Computed(Root(sha, d)) ==>
            |path| == Depth(m, |d|) &&
            match Disagreement(sha, event, m, d, path)
            case Some(pair) => IsCollision(sha, pair)
            case None => event == d[m] && path == AuditPath(sha, m, d)
  {
    DepthAtMost(m, |d|, 63);
    AuditPathRebuildsRoot(sha, m, d);
    if Inclusion(sha, event, m, |d|, path) == Computed(Root(sha, d)) {
      RebuiltRootIsGenuine(sha, m, d, LeafHash(sha, event), path);
      if event != d[m] {
        assert LeafInput(event)[1..] == event && LeafInput(d[m])[1..] == d[m];
      }
    }
  }

  /** Main theorem, whatever position and tree size the proof claims: the verifier accepts `event` under the RFC 9162
      root of `d` only if it is an entry of `d` and the path is the one generated for that entry, or else hands over
      two distinct byte strings with equal SHA-256. Nothing that was never logged is accepted, a node least of all. */
  lemma {:induction false} AcceptsOnlyEntries(sha: Sha, event: Bytes, m: nat, n: nat, path: seq<Digest>, d: Leaves)
    requires Inclusion(sha, event, m, n, path) == Computed(Root(sha, d))
    ensures m < n && |path| == Depth(m, n)
    ensures match Forgery(sha, event, m, n, path, d)
            case Some(pair) => IsCollision(sha, pair)
            case None => exists i :: 0 <= i < |d| && event == d[i] && path == AuditPath(sha, i, d)
  {
    ReachedIffDepth(sha, m, n, LeafHash(sha, event), path);
    var i := RebuiltRootIsOfAnEntry(sha, event, m, n, path, d);
    if Forgery(sha, event, m, n, path, d).None? {
      assert event == d[i] && path == AuditPath(sha, i, d);
    }
  }

  // ---------------------------------------------------------------- the badge verifier

  datatype MerkleProof = MerkleProof(
    rootHash: string, treeSize: int64, leafIndex: int64, leafHash: string, path: seq<string>)

  datatype Verdict =
    | Accepted
    | NilResponse
    | RootHashEmpty
    | TreeSizeNotPositive
    | LeafIndexBad
    | LeafHashEmpty
    | RootHashMalformed
    | LeafHashMalformed
    | PathElementMalformed(index: nat)
    | PathExcess
    | PathInsufficient
    | RootDiffers

  function DecodeDigest(s: string): Option<Digest> {
    match Decode(s)
    case Some(b) => if |b| == DIGEST_SIZE then Some(b) else None
    case None => None
  }

  /** The decoded path, when every element is a digest in hexadecimal. */
  function DecodePath(path: seq<string>): (r: Option<seq<Digest>>)
    ensures r.Some? ==> |r.value| == |path|
    ensures r.Some? <==> forall i :: 0 <= i < |path| ==> DecodeDigest(path[i]).Some?
    ensures r.Some? ==> forall i :: 0 <= i < |path| ==> DecodeDigest(path[i]) == Some(r.value[i])
  {
    if path == [] then Some([])
    else match (DecodePath(path[..|path| - 1]), DecodeDigest(path[|path| - 1]))
      case (Some(init), Some(last)) => Some(init + [last])
      case _ => None
  }

  /** The fields are in range and every hash is well-formed hexadecimal. */
  predicate WellFormed(p: MerkleProof) {
    && 0 <= p.leafIndex < p.treeSize
    && DecodeDigest(p.rootHash).Some? && DecodeDigest(p.leafHash).Some?
    && DecodePath(p.path).Some?
  }

  /** The walk of a well-formed badge proof, in terms of the tree of RFC 9162. */
  function BadgeWalk(sha: Sha, p: MerkleProof): Walk
    requires WellFormed(p)
  {
    TreeWalk(sha, p.leafIndex as nat, p.treeSize as nat, DecodeDigest(p.leafHash).value, DecodePath(p.path).value)
  }

  /** The fields up to where the code gives up: each check supposes those before it. */
  predicate HasRootHash(p: MerkleProof) {
    p.rootHash != ""
  }

  predicate InRange(p: MerkleProof) {
    HasRootHash(p) && 0 <= p.leafIndex < p.treeSize
  }

  /** What each verdict says of the response; no two of them can be said of one. */
  predicate VerdictIs(sha: Sha, resp: Option<MerkleProof>, v: Verdict) {
    if resp.None? then v.NilResponse?
    else
      var p := resp.value;
      match v
      case NilResponse => false
      case RootHashEmpty => p.rootHash == ""
      case TreeSizeNotPositive => HasRootHash(p) && p.treeSize <= 0
      case LeafIndexBad => HasRootHash(p) && p.treeSize > 0 && !(0 <= p.leafIndex < p.treeSize)
      case LeafHashEmpty => InRange(p) && p.leafHash == ""
      case RootHashMalformed => InRange(p) && p.leafHash != "" && DecodeDigest(p.rootHash).None?
      case LeafHashMalformed =>
        InRange(p) && p.leafHash != "" && DecodeDigest(p.rootHash).Some? && DecodeDigest(p.leafHash).None?
      case PathElementMalformed(i) =>
        && InRange(p) && DecodeDigest(p.rootHash).Some? && DecodeDigest(p.leafHash).Some?
        && i < |p.path| && DecodeDigest(p.path[i]).None? && forall j :: 0 <= j < i ==> DecodeDigest(p.path[j]).Some?
      case Accepted => WellFormed(p) && BadgeWalk(sha, p) == Reached(DecodeDigest(p.rootHash).value)
      case RootDiffers =>
        WellFormed(p) && BadgeWalk(sha, p).Reached? && BadgeWalk(sha, p).root != DecodeDigest(p.rootHash).value
      case PathExcess => WellFormed(p) && BadgeWalk(sha, p).Excess?
      case PathInsufficient => WellFormed(p) && BadgeWalk(sha, p).Insufficient?
  }

  /** Its loop over the path. */
  method DecodeElements(path: seq<string>) returns (hashes: Option<seq<Digest>>, bad: nat)
    ensures hashes == DecodePath(path)
    ensures hashes.None? ==> bad < |path| && DecodeDigest(path[bad]).None? && forall j :: 0 <= j < bad ==> DecodeDigest(path[j]).Some?
  {
    var decoded: seq<Digest> := [];
    var i := 0;
    while i < |path|
      invariant 0 <= i <= |path|
      invariant DecodePath(path[..i]) == Some(decoded)
    {
      var h := DecodeDigest(path[i]);
      if h.None? {
        assert forall j :: 0 <= j < i ==> path[..i][j] == path[j];
        return None, i;
      }
      assert path[..i + 1][..i] == path[..i];
      decoded := decoded + [h.value];
      i := i + 1;
    }
    assert path[..i] == path;
    return Some(decoded), 0;
  }

  lemma NoDigestInNothing()
    ensures DecodeDigest("").None?
  {
  }

  /** So each verdict is given exactly when it can be said. */
  lemma {:induction false} OneVerdict(sha: Sha, resp: Option<MerkleProof>, v: Verdict, w: Verdict)
    requires VerdictIs(sha, resp, v) && VerdictIs(sha, resp, w)
    ensures v == w
  {
    NoDigestInNothing();
  }

  /** What it returns is said of the response, and by `OneVerdict` nothing else can be. */
  method VerifyInclusionProof(sha: Sha, resp: Option<MerkleProof>) returns (v: Verdict)
    ensures VerdictIs(sha, resp, v)
    ensures v.Accepted? <==> resp.Some? && WellFormed(resp.value) &&
                             BadgeWalk(sha, resp.value) == Reached(DecodeDigest(resp.value.rootHash).value)
    ensures v.PathExcess? <==> resp.Some? && WellFormed(resp.value) && BadgeWalk(sha, resp.value).Excess?
    ensures v.PathInsufficient? <==> resp.Some? && WellFormed(resp.value) && BadgeWalk(sha, resp.value).Insufficient?
  {
    if resp.None? {
      return NilResponse;
    }
    var proof := resp.value;
    if proof.rootHash == "" {
      return RootHashEmpty;
    }
    if proof.treeSize <= 0 {
      return TreeSizeNotPositive;
    }
    if proof.leafIndex < 0 || proof.leafIndex >= proof.treeSize {
      return LeafIndexBad;
    }
    if proof.leafHash == "" {
      return LeafHashEmpty;
    }
    var rootHash := DecodeDigest(proof.rootHash);
    if rootHash.None? {
      return RootHashMalformed;
    }
    var leafHash := DecodeDigest(proof.leafHash);
    if leafHash.None? {
      return LeafHashMalformed;
    }
    var pathHashes, bad := DecodeElements(proof.path);
    if pathHashes.None? {
      return PathElementMalformed(bad);
    }
    var walk := WalkPath(sha, proof.leafIndex as uint64, (proof.treeSize - 1) as uint64, leafHash.value, pathHashes.value);
    match walk
    case Excess => v := PathExcess;
    case Insufficient => v := PathInsufficient;
    case Reached(root) => v := if root == rootHash.value then Accepted else RootDiffers;
  }

  /** From equal leaf hashes the two verifiers agree, although only one of them is capped. */
  lemma VerifiersAgree(sha: Sha, p: MerkleProof, event: Bytes)
    requires WellFormed(p) && DecodeDigest(p.leafHash) == Some(LeafHash(sha, event))
    ensures Inclusion(sha, event, p.leafIndex as nat, p.treeSize as nat, DecodePath(p.path).value).Computed? <==>
            BadgeWalk(sha, p).Reached?
    ensures BadgeWalk(sha, p).Reached? ==>
            Inclusion(sha, event, p.leafIndex as nat, p.treeSize as nat, DecodePath(p.path).value) ==
            Computed(BadgeWalk(sha, p).root)
  {
    Pow2Of63();
    CapIsHarmlessUpTo2To63(sha, event, p.leafIndex as nat, p.treeSize as nat, DecodePath(p.path).value);
  }

  /** A badge proof accepted under the root of `d` carries the leaf hash and the path of the m-th
      entry, or exhibits a collision. The leaf hash itself comes from the log, so nothing is said
      about the entry behind it. */
  lemma {:induction false} AcceptedBadgeProofIsGenuine(sha: Sha, p: MerkleProof, d: Leaves)
    requires WellFormed(p) && p.treeSize as nat == |d|
    requires DecodeDigest(p.rootHash) == Some(Root(sha, d))
    requires BadgeWalk(sha, p) == Reached(Root(sha, d))
    ensures var m, leaf, path := p.leafIndex as nat, DecodeDigest(p.leafHash).value, DecodePath(p.path).value;
            |path| == Depth(m, |d|) &&
            match NodeMismatch(sha, m, d, leaf, path)
            case Some(pair) => IsCollision(sha, pair)
            case None => leaf == LeafHash(sha, d[m]) && path == AuditPath(sha, m, d)
  {
    RebuiltRootIsGenuine(sha, p.leafIndex as nat, d, DecodeDigest(p.leafHash).value, DecodePath(p.path).value);
  }
}

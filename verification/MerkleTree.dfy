/** Merkle trees as section 2.1 of RFC 9162 defines them: split top-down at the largest power
    of two below the number of leaves. */
module MerkleTree {
  import opened Hex

  // ---------------------------------------------------------------- powers of two

  function Pow2(e: nat): (p: nat)
    ensures p >= 1
  {
    if e == 0 then 1 else 2 * Pow2(e - 1)
  }

  lemma {:induction false} Pow2Monotone(d: nat, e: nat)
    ensures d < e ==> 2 * Pow2(d) <= Pow2(e)
    ensures d <= e ==> Pow2(d) <= Pow2(e)
  {
    if d < e {
      Pow2Monotone(d, e - 1);
    }
  }

  /** The exponent of the split point of an n-leaf tree. */
  function SplitLog(n: nat): (e: nat)
    requires n >= 2
    ensures Pow2(e) < n <= 2 * Pow2(e)
  {
    if n == 2 then 0 else 1 + SplitLog((n + 1) / 2)
  }

  function SplitPoint(n: nat): (k: nat)
    requires n >= 2
    ensures 0 < k < n <= 2 * k
  {
    Pow2(SplitLog(n))
  }

  /** The split point is the largest power of two smaller than n, as the RFC asks. */
  lemma SplitPointIsLargest(n: nat, e: nat)
    requires n >= 2
    ensures Pow2(e) < n <==> Pow2(e) <= SplitPoint(n)
  {
    Pow2Monotone(SplitLog(n), e);
    Pow2Monotone(e, SplitLog(n));
  }

  // ---------------------------------------------------------------- hashes

  function LeafInput(data: Bytes): Bytes {
    [0x00] + data
  }

  function NodeInput(left: Digest, right: Digest): Bytes {
    [0x01] + left + right
  }

  function LeafHash(sha: Sha, data: Bytes): Digest {
    sha(LeafInput(data))
  }

  function NodeHash(sha: Sha, left: Digest, right: Digest): Digest {
    sha(NodeInput(left, right))
  }

  lemma NodeInputInjective(l: Digest, r: Digest, l': Digest, r': Digest)
    requires NodeInput(l, r) == NodeInput(l', r')
    ensures l == l' && r == r'
  {
    assert l == NodeInput(l, r)[1..33] && l' == NodeInput(l', r')[1..33];
    assert r == NodeInput(l, r)[33..] && r' == NodeInput(l', r')[33..];
  }

  // ---------------------------------------------------------------- section 2.1.1 and 2.1.3.1

  type Leaves = d: seq<Bytes> | |d| >= 1 witness [[]]

  /** The Merkle tree hash of a non-empty list of entries. */
  function Root(sha: Sha, d: Leaves): Digest
    decreases |d|
  {
    if |d| == 1 then LeafHash(sha, d[0])
    else
      var k := SplitPoint(|d|);
      NodeHash(sha, Root(sha, d[..k]), Root(sha, d[k..]))
  }

  /** The inclusion proof for entry m. */
  function AuditPath(sha: Sha, m: nat, d: Leaves): (path: seq<Digest>)
    requires m < |d|
    ensures |path| == Depth(m, |d|)
    decreases |d|
  {
    if |d| == 1 then []
    else
      var k := SplitPoint(|d|);
      if m < k then AuditPath(sha, m, d[..k]) + [Root(sha, d[k..])]
      else AuditPath(sha, m - k, d[k..]) + [Root(sha, d[..k])]
  }

  /** How many levels leaf m lies below the root of an n-leaf tree. */
  function Depth(m: nat, n: nat): nat
    requires m < n
    decreases n
  {
    if n == 1 then 0
    else
      var k := SplitPoint(n);
      1 + if m < k then Depth(m, k) else Depth(m - k, n - k)
  }

  lemma SplitBelow(n: nat, e: nat)
    requires 2 <= n <= Pow2(e)
    ensures e >= 1 && SplitPoint(n) <= Pow2(e - 1) && n - SplitPoint(n) <= Pow2(e - 1)
  {
    Pow2Monotone(e, SplitLog(n));
    Pow2Monotone(SplitLog(n), e - 1);
  }

  lemma SplitBetween(n: nat, e: nat)
    requires Pow2(e) < n <= 2 * Pow2(e)
    ensures n >= 2 && SplitPoint(n) == Pow2(e)
  {
    Pow2Monotone(SplitLog(n), e);
    Pow2Monotone(e, SplitLog(n));
  }

  /** A tree of at most 2^e leaves is at most e levels deep. */
  lemma {:induction false} DepthAtMost(m: nat, n: nat, e: nat)
    requires m < n <= Pow2(e)
    ensures Depth(m, n) <= e
    decreases n
  {
    if n >= 2 {
      var k := SplitPoint(n);
      SplitBelow(n, e);
      if m < k { DepthAtMost(m, k, e - 1); } else { DepthAtMost(m - k, n - k, e - 1); }
    }
  }

  /** In a full tree of 2^e leaves every leaf is exactly e levels deep. */
  lemma {:induction false} DepthOfFullTree(m: nat, e: nat)
    requires m < Pow2(e)
    ensures Depth(m, Pow2(e)) == e
    decreases e
  {
    if e >= 1 {
      Pow2Monotone(0, e);
      SplitOfPow2(e);
      DepthOfFullTree(if m < Pow2(e - 1) then m else m - Pow2(e - 1), e - 1);
    }
  }

  /** Above 2^e leaves the left half is full. */
  lemma DepthOfLeftHalf(m: nat, n: nat, e: nat)
    requires m < Pow2(e) < n <= 2 * Pow2(e)
    ensures Depth(m, n) == e + 1
  {
    SplitBetween(n, e);
    DepthOfFullTree(m, e);
  }

  lemma SplitOfPow2(e: nat)
    requires e >= 1
    ensures Pow2(e) >= 2 && SplitPoint(Pow2(e)) == Pow2(e - 1)
  {
    var s := SplitLog(Pow2(e));
    Pow2Monotone(s, e - 1);
    Pow2Monotone(e, s);
  }

  // ---------------------------------------------------------------- rebuilding a root, top-down

  datatype Walk = Reached(root: Digest) | Excess | Insufficient

  /** Add the topmost path element to the result of the walk below it. */
  function Above(sha: Sha, below: Walk, sibling: Digest, siblingOnRight: bool): Walk {
    match below
    case Reached(x) => Reached(if siblingOnRight then NodeHash(sha, x, sibling) else NodeHash(sha, sibling, x))
    case _ => below
  }

  /** The root that leaf hash `r` at position m of an n-leaf tree and the path rebuild, by
      descending the tree of section 2.1.1. The last path element belongs to the top split. */
  function TreeWalk(sha: Sha, m: nat, n: nat, r: Digest, path: seq<Digest>): Walk
    requires m < n
    decreases n
  {
    if n == 1 then (if path == [] then Reached(r) else Excess)
    else if path == [] then Insufficient
    else
      var k := SplitPoint(n);
      var init, top := path[..|path| - 1], path[|path| - 1];
      if m < k then Above(sha, TreeWalk(sha, m, k, r, init), top, true)
      else Above(sha, TreeWalk(sha, m - k, n - k, r, init), top, false)
  }

  /** Only the length of a path decides whether a root is reached. */
  lemma {:induction false} ReachedIffDepth(sha: Sha, m: nat, n: nat, r: Digest, path: seq<Digest>)
    requires m < n
    ensures TreeWalk(sha, m, n, r, path).Reached? <==> |path| == Depth(m, n)
    ensures TreeWalk(sha, m, n, r, path).Excess? <==> |path| > Depth(m, n)
    decreases n
  {
    if n >= 2 && path != [] {
      var k := SplitPoint(n);
      var init := path[..|path| - 1];
      if m < k { ReachedIffDepth(sha, m, k, r, init); } else { ReachedIffDepth(sha, m - k, n - k, r, init); }
    }
  }

  /** Where leaf m of n is in the half of the tree that holds it. */
  function Within(m: nat, n: nat): (r: (nat, nat))
    requires m < n && n >= 2
    ensures r.0 < r.1 < n
  {
    var k := SplitPoint(n);
    if m < k then (m, k) else (m - k, n - k)
  }

  function HalfWith(m: nat, d: Leaves): (half: Leaves)
    requires m < |d| && |d| >= 2
    ensures |half| == Within(m, |d|).1 && d[m] == half[Within(m, |d|).0]
  {
    var k := SplitPoint(|d|);
    if m < k then d[..k] else d[k..]
  }

  function OtherHalf(m: nat, d: Leaves): (half: Leaves)
    requires m < |d| && |d| >= 2
    ensures |half| < |d|
  {
    var k := SplitPoint(|d|);
    if m < k then d[k..] else d[..k]
  }

  lemma AuditPathSplit(sha: Sha, m: nat, d: Leaves)
    requires m < |d| && |d| >= 2
    ensures AuditPath(sha, m, d) == AuditPath(sha, Within(m, |d|).0, HalfWith(m, d)) + [Root(sha, OtherHalf(m, d))]
  {
  }

  lemma TreeWalkSplit(sha: Sha, m: nat, n: nat, r: Digest, init: seq<Digest>, top: Digest)
    requires m < n && n >= 2
    ensures TreeWalk(sha, m, n, r, init + [top]) ==
            Above(sha, TreeWalk(sha, Within(m, n).0, Within(m, n).1, r, init), top, m < SplitPoint(n))
  {
    assert (init + [top])[..|init|] == init;
  }

  lemma RootSplit(sha: Sha, m: nat, d: Leaves)
    requires m < |d| && |d| >= 2
    ensures Above(sha, Reached(Root(sha, HalfWith(m, d))), Root(sha, OtherHalf(m, d)), m < SplitPoint(|d|)) == Reached(Root(sha, d))
  {
  }

  /** The generated path of an entry rebuilds the tree hash from the entry's leaf hash. */
  lemma {:induction false} AuditPathRebuildsRoot(sha: Sha, m: nat, d: Leaves)
    requires m < |d|
    ensures TreeWalk(sha, m, |d|, LeafHash(sha, d[m]), AuditPath(sha, m, d)) == Reached(Root(sha, d))
    decreases |d|
  {
    if |d| >= 2 {
      var m', half := Within(m, |d|).0, HalfWith(m, d);
      AuditPathRebuildsRoot(sha, m', half);
      AuditPathSplit(sha, m, d);
      TreeWalkSplit(sha, m, |d|, LeafHash(sha, d[m]), AuditPath(sha, m', half), Root(sha, OtherHalf(m, d)));
      RootSplit(sha, m, d);
    }
  }

  // ---------------------------------------------------------------- soundness

  /** What is hashed for the topmost node when `x` was rebuilt below it on one side. */
  function TopInput(x: Digest, top: Digest, onLeft: bool): Bytes {
    if onLeft then NodeInput(x, top) else NodeInput(top, x)
  }

  /** Compare the node inputs hashed along the proof with those of the real tree, top-down, and
      return the first pair that differs. */
  function NodeMismatch(sha: Sha, m: nat, d: Leaves, r: Digest, path: seq<Digest>): Text.Option<(Bytes, Bytes)>
    requires m < |d| && |path| == Depth(m, |d|)
    decreases |d|
  {
    if |d| == 1 then Text.None
    else
      var (m', n') := Within(m, |d|);
      var init, top := path[..|path| - 1], path[|path| - 1];
      ReachedIffDepth(sha, m', n', r, init);
      var mine := TopInput(TreeWalk(sha, m', n', r, init).root, top, m < SplitPoint(|d|));
      var genuine := TopInput(Root(sha, HalfWith(m, d)), Root(sha, OtherHalf(m, d)), m < SplitPoint(|d|));
      if mine != genuine then Text.Some((mine, genuine)) else NodeMismatch(sha, m', HalfWith(m, d), r, init)
  }

  lemma TopInputInjective(x: Digest, top: Digest, x': Digest, top': Digest, onLeft: bool)
    requires TopInput(x, top, onLeft) == TopInput(x', top', onLeft)
    ensures x == x' && top == top'
  {
    if onLeft { NodeInputInjective(x, top, x', top'); } else { NodeInputInjective(top, x, top', x'); }
  }

  /** Equal roots are hashes of the two inputs at the top. */
  lemma TopCollides(sha: Sha, m: nat, d: Leaves, x: Digest, top: Digest)
    requires m < |d| && |d| >= 2
    requires Above(sha, Reached(x), top, m < SplitPoint(|d|)) == Reached(Root(sha, d))
    ensures sha(TopInput(x, top, m < SplitPoint(|d|))) ==
            sha(TopInput(Root(sha, HalfWith(m, d)), Root(sha, OtherHalf(m, d)), m < SplitPoint(|d|)))
  {
    RootSplit(sha, m, d);
  }

  /** Any path whatever that rebuilds the root of `d` either is the generated path started from
      the real leaf hash, or the mismatch above is a collision of `sha`. */
  lemma {:induction false} RebuiltRootIsGenuine(sha: Sha, m: nat, d: Leaves, r: Digest, path: seq<Digest>)
    requires m < |d| && TreeWalk(sha, m, |d|, r, path) == Reached(Root(sha, d))
    ensures |path| == Depth(m, |d|)
    ensures match NodeMismatch(sha, m, d, r, path)
            case Some(pair) => IsCollision(sha, pair)
            case None => r == LeafHash(sha, d[m]) && path == AuditPath(sha, m, d)
    decreases |d|
  {
    ReachedIffDepth(sha, m, |d|, r, path);
    if |d| >= 2 {
      var (m', n') := Within(m, |d|);
      var init, top := path[..|path| - 1], path[|path| - 1];
      assert path == init + [top];
      TreeWalkSplit(sha, m, |d|, r, init, top);
      ReachedIffDepth(sha, m', n', r, init);
      var x := TreeWalk(sha, m', n', r, init).root;
      TopCollides(sha, m, d, x, top);
      AuditPathSplit(sha, m, d);
      var half, other := HalfWith(m, d), OtherHalf(m, d);
      if TopInput(x, top, m < SplitPoint(|d|)) == TopInput(Root(sha, half), Root(sha, other), m < SplitPoint(|d|)) {
        TopInputInjective(x, top, Root(sha, half), Root(sha, other), m < SplitPoint(|d|));
        RebuiltRootIsGenuine(sha, m', half, r, init);
      }
    }
  }

  // ---------------------------------------------------------------- soundness for any claimed size

  /** The hash is the one of section 2.1.1 of RFC 9162: of a zero byte and the only entry, or of a one byte and the
      hashes of the two parts at the power of two that is below the number of entries but not below half of it. */
  lemma {:induction false} RootIsRfc9162(sha: Sha, d: Leaves, e: nat)
    ensures |d| == 1 ==> Root(sha, d) == sha([0x00] + d[0])
    ensures Pow2(e) < |d| <= 2 * Pow2(e) ==>
              Root(sha, d) == sha([0x01] + Root(sha, d[..Pow2(e)]) + Root(sha, d[Pow2(e)..]))
  {
    if Pow2(e) < |d| <= 2 * Pow2(e) {
      SplitBetween(|d|, e);
    }
  }

  /** What is hashed last for the root of `d`. */
  function RootInput(sha: Sha, d: Leaves): (input: Bytes)
    ensures sha(input) == Root(sha, d)
  {
    if |d| == 1 then LeafInput(d[0])
    else
      var k := SplitPoint(|d|);
      NodeInput(Root(sha, d[..k]), Root(sha, d[k..]))
  }

  /** What is hashed last for the root that `event` at position m of n and the path rebuild. */
  function WalkInput(sha: Sha, event: Bytes, m: nat, n: nat, path: seq<Digest>): Bytes
    requires m < n
  {
    if n == 1 || path == [] then LeafInput(event)
    else
      match TreeWalk(sha, Within(m, n).0, Within(m, n).1, LeafHash(sha, event), path[..|path| - 1])
      case Reached(x) => TopInput(x, path[|path| - 1], m < SplitPoint(n))
      case _ => []
  }

  /** One level of the walk and of its input. */
  lemma WalkTop(sha: Sha, event: Bytes, m: nat, n: nat, init: seq<Digest>, top: Digest, root: Digest) returns (x: Digest)
    requires m < n && n >= 2 && TreeWalk(sha, m, n, LeafHash(sha, event), init + [top]) == Reached(root)
    ensures TreeWalk(sha, Within(m, n).0, Within(m, n).1, LeafHash(sha, event), init) == Reached(x)
    ensures WalkInput(sha, event, m, n, init + [top]) == TopInput(x, top, m < SplitPoint(n))
    ensures root == sha(TopInput(x, top, m < SplitPoint(n)))
  {
    TreeWalkSplit(sha, m, n, LeafHash(sha, event), init, top);
    assert (init + [top])[..|init|] == init;
    x := TreeWalk(sha, Within(m, n).0, Within(m, n).1, LeafHash(sha, event), init).root;
  }

  /** The half of the entries on the side the walk comes from. */
  function SameSide(left: bool, d: Leaves): (half: Leaves)
    requires |d| >= 2
    ensures |half| < |d|
  {
    if left then d[..SplitPoint(|d|)] else d[SplitPoint(|d|)..]
  }

  function OtherSide(left: bool, d: Leaves): (half: Leaves)
    requires |d| >= 2
    ensures |half| < |d|
  {
    if left then d[SplitPoint(|d|)..] else d[..SplitPoint(|d|)]
  }

  lemma RootInputBySide(sha: Sha, d: Leaves, left: bool)
    requires |d| >= 2
    ensures RootInput(sha, d) == TopInput(Root(sha, SameSide(left, d)), Root(sha, OtherSide(left, d)), left)
  {
  }

  /** Compare what the walk hashes with what the real tree hashes, top-down, whatever size is claimed, and return the
      first pair that differs. */
  function Forgery(sha: Sha, event: Bytes, m: nat, n: nat, path: seq<Digest>, d: Leaves): Text.Option<(Bytes, Bytes)>
    requires m < n
    decreases n
  {
    var mine, genuine := WalkInput(sha, event, m, n, path), RootInput(sha, d);
    if mine != genuine then Text.Some((mine, genuine))
    else if n == 1 || path == [] || |d| == 1 then Text.None
    else Forgery(sha, event, Within(m, n).0, Within(m, n).1, path[..|path| - 1], SameSide(m < SplitPoint(n), d))
  }

  /** No leaf input is a node input. */
  lemma LeafIsNoNode(data: Bytes, x: Digest, top: Digest, left: bool)
    ensures LeafInput(data) != TopInput(x, top, left)
  {
    assert LeafInput(data)[0] == 0x00 && TopInput(x, top, left)[0] == 0x01;
  }

  lemma LeafInputInjective(a: Bytes, b: Bytes)
    requires LeafInput(a) == LeafInput(b)
    ensures a == b
  {
    assert a == LeafInput(a)[1..] && b == LeafInput(b)[1..];
  }

  /** The event is this entry, and the path is the one generated for it. */
  predicate IsEntry(sha: Sha, event: Bytes, path: seq<Digest>, d: Leaves, i: nat) {
    i < |d| && event == d[i] && path == AuditPath(sha, i, d)
  }

  /** The pair is a collision, or there is none and the event is entry i. */
  predicate ForgedOrEntry(sha: Sha, pair: Text.Option<(Bytes, Bytes)>, event: Bytes, path: seq<Digest>, d: Leaves, i: nat) {
    if pair.Some? then IsCollision(sha, pair.value) else IsEntry(sha, event, path, d, i)
  }

  /** An entry of a half is one of the whole, with a path one element longer. */
  lemma EntryOfSide(sha: Sha, event: Bytes, left: bool, d: Leaves, init: seq<Digest>, i: nat) returns (j: nat)
    requires |d| >= 2 && IsEntry(sha, event, init, SameSide(left, d), i)
    ensures IsEntry(sha, event, init + [Root(sha, OtherSide(left, d))], d, j)
  {
    j := if left then i else i + SplitPoint(|d|);
  }

  lemma EntryBelow(sha: Sha, pair: Text.Option<(Bytes, Bytes)>, event: Bytes, left: bool, d: Leaves, init: seq<Digest>, k: nat) returns (i: nat)
    requires |d| >= 2 && ForgedOrEntry(sha, pair, event, init, SameSide(left, d), k)
    ensures ForgedOrEntry(sha, pair, event, init + [Root(sha, OtherSide(left, d))], d, i)
  {
    i := 0;
    if pair.None? {
      i := EntryOfSide(sha, event, left, d, init, k);
    }
  }

  /** At a leaf of the walk. */
  lemma LeafRebuilt(sha: Sha, event: Bytes, d: Leaves)
    requires LeafHash(sha, event) == Root(sha, d)
    ensures ForgedOrEntry(sha, Forgery(sha, event, 0, 1, [], d), event, [], d, 0)
  {
    if LeafInput(event) == RootInput(sha, d) {
      if |d| == 1 {
        LeafInputInjective(event, d[0]);
      } else {
        RootInputBySide(sha, d, true);
        LeafIsNoNode(event, Root(sha, SameSide(true, d)), Root(sha, OtherSide(true, d)), true);
      }
    }
  }

  /** At a node of the walk: the inputs differ, or the tree has the same node there. */
  lemma NodeRebuilt(sha: Sha, x: Digest, top: Digest, left: bool, d: Leaves)
    requires TopInput(x, top, left) == RootInput(sha, d)
    ensures |d| >= 2 && x == Root(sha, SameSide(left, d)) && top == Root(sha, OtherSide(left, d))
  {
    if |d| == 1 {
      LeafIsNoNode(d[0], x, top, left);
    } else {
      RootInputBySide(sha, d, left);
      TopInputInjective(x, top, Root(sha, SameSide(left, d)), Root(sha, OtherSide(left, d)), left);
    }
  }

  lemma ForgeryBelow(sha: Sha, event: Bytes, m: nat, n: nat, init: seq<Digest>, top: Digest, d: Leaves)
    requires m < n && n >= 2
    ensures WalkInput(sha, event, m, n, init + [top]) == RootInput(sha, d) && |d| >= 2 ==>
              Forgery(sha, event, m, n, init + [top], d) ==
              Forgery(sha, event, Within(m, n).0, Within(m, n).1, init, SameSide(m < SplitPoint(n), d))
    ensures WalkInput(sha, event, m, n, init + [top]) != RootInput(sha, d) ==>
              Forgery(sha, event, m, n, init + [top], d) == Text.Some((WalkInput(sha, event, m, n, init + [top]), RootInput(sha, d)))
  {
    assert (init + [top])[..|init|] == init;
  }

  /** Whatever position and size are claimed: a walk from the leaf hash of `event` that rebuilds the root of `d` either is
      that of an entry of `d` along its generated path, or the pair above is a collision of `sha`. */
  lemma {:induction false} RebuiltRootIsOfAnEntry(sha: Sha, event: Bytes, m: nat, n: nat, path: seq<Digest>, d: Leaves) returns (i: nat)
    requires m < n && TreeWalk(sha, m, n, LeafHash(sha, event), path) == Reached(Root(sha, d))
    ensures ForgedOrEntry(sha, Forgery(sha, event, m, n, path, d), event, path, d, i)
    decreases n, 1
  {
    if n == 1 {
      i := 0;
      LeafRebuilt(sha, event, d);
    } else {
      assert path == path[..|path| - 1] + [path[|path| - 1]];
      i := NodeIsOfAnEntry(sha, event, m, n, path[..|path| - 1], path[|path| - 1], d);
    }
  }

  lemma {:induction false} NodeIsOfAnEntry(sha: Sha, event: Bytes, m: nat, n: nat, init: seq<Digest>, top: Digest, d: Leaves) returns (i: nat)
    requires m < n && n >= 2 && TreeWalk(sha, m, n, LeafHash(sha, event), init + [top]) == Reached(Root(sha, d))
    ensures ForgedOrEntry(sha, Forgery(sha, event, m, n, init + [top], d), event, init + [top], d, i)
    decreases n, 0
  {
    i := 0;
    var left := m < SplitPoint(n);
    var x := WalkTop(sha, event, m, n, init, top, Root(sha, d));
    ForgeryBelow(sha, event, m, n, init, top, d);
    if TopInput(x, top, left) == RootInput(sha, d) {
      NodeRebuilt(sha, x, top, left, d);
      var k := RebuiltRootIsOfAnEntry(sha, event, Within(m, n).0, Within(m, n).1, init, SameSide(left, d));
      i := EntryBelow(sha, Forgery(sha, event, Within(m, n).0, Within(m, n).1, init, SameSide(left, d)), event, left, d, init, k);
    }
  }
}

/** The bottom-up walk both Go packages run over (fn, sn), as a recursive function, and the proof
    that it rebuilds the same root as the top-down tree of RFC 9162. */
module InclusionWalk {
  import opened Hex
  import opened MerkleTree

  /** The inner loop: drop trailing zero bits of fn, shifting sn along. */
  function Strip(fn: nat, sn: nat): (r: (nat, nat))
    requires fn <= sn
    ensures fn != 0 ==> r.0 % 2 == 1
    ensures r.0 <= r.1
    decreases fn
  {
    if fn % 2 == 0 && fn != 0 then Strip(fn / 2, sn / 2) else (fn, sn)
  }

  predicate SiblingOnLeft(fn: nat, sn: nat) {
    fn % 2 == 1 || fn == sn
  }

  /** (fn, sn) after one path element. */
  function Climb(fn: nat, sn: nat): (r: (nat, nat))
    requires fn <= sn
    ensures r.0 <= r.1
  {
    var (f, s) := if SiblingOnLeft(fn, sn) then Strip(fn, sn) else (fn, sn);
    (f / 2, s / 2)
  }

  function Absorb(sha: Sha, fn: nat, sn: nat, r: Digest, p: Digest): Digest {
    if SiblingOnLeft(fn, sn) then NodeHash(sha, p, r) else NodeHash(sha, r, p)
  }

  /** The outer loop from state (fn, sn, r) over the remaining path. */
  function WalkFrom(sha: Sha, fn: nat, sn: nat, r: Digest, path: seq<Digest>): Walk
    requires fn <= sn
    decreases |path|
  {
    if path == [] then (if sn == 0 then Reached(r) else Insufficient)
    else if sn == 0 then Excess
    else
      var (f, s) := Climb(fn, sn);
      WalkFrom(sha, f, s, Absorb(sha, fn, sn, r, path[0]), path[1..])
  }

  /** One step of the walk. */
  lemma WalkStep(sha: Sha, fn: nat, sn: nat, r: Digest, path: seq<Digest>, f: nat, s: nat, r': Digest)
    requires fn <= sn && sn != 0 && path != []
    requires f <= s && Climb(fn, sn) == (f, s) && r' == Absorb(sha, fn, sn, r, path[0])
    ensures WalkFrom(sha, fn, sn, r, path) == WalkFrom(sha, f, s, r', path[1..])
  {
  }

  /** The walk over `path` with last index `sn` is that with last index `last` over all but the last
      element, which then goes on the right. */
  ghost predicate OneMoreOnRight(sha: Sha, last: nat, fn: nat, sn: nat, r: Digest, path: seq<Digest>)
    requires fn <= last && fn <= sn
  {
    WalkFrom(sha, fn, sn, r, path) ==
    if path == [] then Insufficient
    else Above(sha, WalkFrom(sha, fn, last, r, path[..|path| - 1]), path[|path| - 1], true)
  }

  lemma ClimbHalves(fn: nat, sn: nat)
    requires fn < sn || (fn == sn && fn % 2 == 1)
    ensures Climb(fn, sn) == (fn / 2, sn / 2) && SiblingOnLeft(fn, sn) == (fn % 2 == 1)
  {
  }

  /** One element less on both sides. */
  lemma OneMoreOnRightStep(sha: Sha, last: nat, fn: nat, sn: nat, r: Digest, f: nat, s: nat, l: nat, r': Digest,
                           init: seq<Digest>, path: seq<Digest>)
    requires fn <= last && fn <= sn && f <= l && f <= s && path != [] && OneMoreOnRight(sha, l, f, s, r', path[1..])
    requires init == path[..|path| - 1]
    requires WalkFrom(sha, fn, sn, r, path) == WalkFrom(sha, f, s, r', path[1..]) && last != 0
    requires init != [] ==> WalkFrom(sha, fn, last, r, init) == WalkFrom(sha, f, l, r', init[1..])
    ensures OneMoreOnRight(sha, last, fn, sn, r, path)
  {
    var tail := path[1..];
    if tail != [] {
      assert init[1..] == tail[..|tail| - 1];
    }
  }

  lemma StepOnRight(sha: Sha, last: nat, fn: nat, sn: nat, r: Digest, f: nat, s: nat, l: nat, r': Digest, path: seq<Digest>)
    requires fn <= last && fn <= sn && last != 0 && sn != 0 && f <= l && f <= s && path != []
    requires Climb(fn, sn) == (f, s) && Climb(fn, last) == (f, l)
    requires r' == Absorb(sha, fn, sn, r, path[0]) == Absorb(sha, fn, last, r, path[0])
    requires OneMoreOnRight(sha, l, f, s, r', path[1..])
    ensures OneMoreOnRight(sha, last, fn, sn, r, path)
  {
    var init := path[..|path| - 1];
    WalkStep(sha, fn, sn, r, path, f, s, r');
    if init != [] {
      assert init[0] == path[0];
      WalkStep(sha, fn, last, r, init, f, l, r');
    }
    OneMoreOnRightStep(sha, last, fn, sn, r, f, s, l, r', init, path);
  }

  lemma HalvesBelow(j: nat, fn: nat, sn: nat)
    requires j >= 1 && fn < Pow2(j) <= sn < 2 * Pow2(j)
    ensures fn / 2 < Pow2(j - 1) <= sn / 2 < 2 * Pow2(j - 1)
    ensures Climb(fn, sn) == (fn / 2, sn / 2) && Climb(fn, Pow2(j) - 1) == (fn / 2, Pow2(j - 1) - 1)
    ensures SiblingOnLeft(fn, sn) == SiblingOnLeft(fn, Pow2(j) - 1)
  {
    ClimbHalves(fn, sn);
    ClimbHalves(fn, Pow2(j) - 1);
  }

  /** Left of a split at 2^j the index has bit j clear and the last index has it set: the walk
      is that of the full left subtree, then one sibling on the right. */
  lemma {:induction false} WalkLeftOfSplit(sha: Sha, j: nat, fn: nat, sn: nat, r: Digest, path: seq<Digest>)
    requires fn < Pow2(j) <= sn < 2 * Pow2(j)
    ensures OneMoreOnRight(sha, Pow2(j) - 1, fn, sn, r, path)
    decreases |path|
  {
    if path != [] && j == 0 {
      assert Climb(fn, sn) == (0, 0);
    } else if path != [] {
      var f, s, l, r' := fn / 2, sn / 2, Pow2(j - 1) - 1, Absorb(sha, fn, sn, r, path[0]);
      HalvesBelow(j, fn, sn);
      WalkLeftOfSplit(sha, j - 1, f, s, r', path[1..]);
      StepOnRight(sha, Pow2(j) - 1, fn, sn, r, f, s, l, r', path);
    }
  }

  lemma HalfAbove(j: nat, x: nat)
    requires j >= 1
    ensures (x + Pow2(j)) / 2 == x / 2 + Pow2(j - 1) && (x + Pow2(j)) % 2 == x % 2
    ensures x < Pow2(j) ==> x / 2 < Pow2(j - 1)
  {
  }

  lemma StripOdd(fn: nat, sn: nat)
    requires fn <= sn && fn % 2 == 1
    ensures Strip(fn, sn) == (fn, sn)
  {
  }

  lemma StripsAlikeOdd(fn: nat, sn: nat, b: nat)
    requires fn <= sn && fn % 2 == 1 && (fn + b) % 2 == 1
    ensures Strip(fn, sn) == (fn, sn) && StripsAlike(fn, sn, b, b)
  {
    StripOdd(fn, sn);
    StripOdd(fn + b, sn + b);
  }

  lemma StripEven(f: nat, s: nat, e: nat)
    requires 0 < f <= s && e < 2
    ensures Strip(2 * f, 2 * s + e) == Strip(f, s)
  {
    assert (2 * f) / 2 == f && (2 * s + e) / 2 == s;
  }

  /** Stripping the indices raised by `b` leaves the stripped indices raised by `b'`. */
  ghost predicate StripsAlike(fn: nat, sn: nat, b: nat, b': nat)
    requires fn <= sn
  {
    Strip(fn + b, sn + b) == (Strip(fn, sn).0 + b', Strip(fn, sn).1 + b')
  }

  lemma StripsAlikeStep(f: nat, s: nat, e: nat, b: nat, b': nat)
    requires 0 < f <= s && e < 2 && StripsAlike(f, s, b, b')
    ensures StripsAlike(2 * f, 2 * s + e, 2 * b, b') && Strip(2 * f, 2 * s + e) == Strip(f, s)
  {
    StripEven(f, s, e);
    StripEven(f + b, s + b, e);
    assert 2 * f + 2 * b == 2 * (f + b) && 2 * s + e + 2 * b == 2 * (s + b) + e;
  }

  /** Setting a bit above both indices does not change which low bits are stripped. */
  lemma {:induction false} StripAbove(j: nat, fn: nat, sn: nat) returns (i: nat)
    requires 0 < fn <= sn < Pow2(j)
    ensures i >= 1 && Strip(fn, sn).1 < Pow2(i) && StripsAlike(fn, sn, Pow2(j), Pow2(i))
    decreases fn
  {
    if fn % 2 == 0 {
      HalfAbove(j, sn);
      i := StripAbove(j - 1, fn / 2, sn / 2);
      StripsAlikeStep(fn / 2, sn / 2, sn % 2, Pow2(j - 1), Pow2(i));
    } else {
      HalfAbove(j, fn);
      StripsAlikeOdd(fn, sn, Pow2(j));
      i := j;
    }
  }

  lemma {:induction false} StripPow2(j: nat)
    ensures Strip(Pow2(j), Pow2(j)) == (1, 1)
  {
    if j >= 1 {
      StripPow2(j - 1);
    }
  }

  lemma ClimbAbove(j: nat, fn: nat, sn: nat) returns (i: nat)
    requires fn <= sn < Pow2(j) && sn != 0
    ensures SiblingOnLeft(fn + Pow2(j), sn + Pow2(j)) == SiblingOnLeft(fn, sn)
    ensures var (f, s) := Climb(fn, sn);
            s < Pow2(i) && Climb(fn + Pow2(j), sn + Pow2(j)) == (f + Pow2(i), s + Pow2(i))
  {
    if SiblingOnLeft(fn, sn) {
      i := StripAbove(j, fn, sn);
      i := i - 1;
    } else {
      i := j - 1;
    }
  }

  /** At bit j alone: one sibling on the left, and the root is reached. */
  lemma WalkOfTopBit(sha: Sha, j: nat, r: Digest, path: seq<Digest>)
    requires path != []
    ensures WalkFrom(sha, Pow2(j), Pow2(j), r, path) ==
            Above(sha, WalkFrom(sha, 0, 0, r, path[..|path| - 1]), path[|path| - 1], false)
  {
    StripPow2(j);
    assert Climb(Pow2(j), Pow2(j)) == (0, 0);
  }

  /** The walk over `path` from the state with a bit `b` above is that from the state without it
      over all but the last element, which then goes on the left. */
  ghost predicate OneMoreOnLeft(sha: Sha, b: nat, fn: nat, sn: nat, r: Digest, path: seq<Digest>)
    requires fn <= sn
  {
    WalkFrom(sha, fn + b, sn + b, r, path) ==
    if path == [] then Insufficient
    else Above(sha, WalkFrom(sha, fn, sn, r, path[..|path| - 1]), path[|path| - 1], false)
  }

  /** One element less on both sides. */
  lemma OneMoreOnLeftStep(sha: Sha, b: nat, b': nat, fn: nat, sn: nat, r: Digest, f: nat, s: nat, r': Digest,
                          init: seq<Digest>, path: seq<Digest>)
    requires fn <= sn && f <= s && path != [] && OneMoreOnLeft(sha, b', f, s, r', path[1..]) && init == path[..|path| - 1]
    requires sn != 0 && WalkFrom(sha, fn + b, sn + b, r, path) == WalkFrom(sha, f + b', s + b', r', path[1..])
    requires init != [] ==> WalkFrom(sha, fn, sn, r, init) == WalkFrom(sha, f, s, r', init[1..])
    ensures OneMoreOnLeft(sha, b, fn, sn, r, path)
  {
    var tail := path[1..];
    if tail != [] {
      assert init[1..] == tail[..|tail| - 1];
    }
  }

  lemma StepOnLeft(sha: Sha, b: nat, b': nat, fn: nat, sn: nat, r: Digest, f: nat, s: nat, r': Digest, path: seq<Digest>)
    requires fn <= sn && sn != 0 && f <= s && path != []
    requires Climb(fn, sn) == (f, s) && Climb(fn + b, sn + b) == (f + b', s + b')
    requires r' == Absorb(sha, fn, sn, r, path[0]) == Absorb(sha, fn + b, sn + b, r, path[0])
    requires OneMoreOnLeft(sha, b', f, s, r', path[1..])
    ensures OneMoreOnLeft(sha, b, fn, sn, r, path)
  {
    var init := path[..|path| - 1];
    WalkStep(sha, fn + b, sn + b, r, path, f + b', s + b', r');
    if init != [] {
      assert init[0] == path[0];
      WalkStep(sha, fn, sn, r, init, f, s, r');
    }
    OneMoreOnLeftStep(sha, b, b', fn, sn, r, f, s, r', init, path);
  }

  /** Right of a split at 2^j both indices have bit j set: the walk is that of the right
      subtree, then one sibling on the left. */
  lemma {:induction false} WalkRightOfSplit(sha: Sha, j: nat, fn: nat, sn: nat, r: Digest, path: seq<Digest>)
    requires fn <= sn < Pow2(j)
    ensures OneMoreOnLeft(sha, Pow2(j), fn, sn, r, path)
    decreases |path|
  {
    if path != [] && sn == 0 {
      WalkOfTopBit(sha, j, r, path);
    } else if path != [] {
      var (f, s) := Climb(fn, sn);
      var i := ClimbAbove(j, fn, sn);
      var r' := Absorb(sha, fn, sn, r, path[0]);
      WalkRightOfSplit(sha, i, f, s, r', path[1..]);
      StepOnLeft(sha, Pow2(j), Pow2(i), fn, sn, r, f, s, r', path);
    }
  }

  lemma WalkOnLeft(sha: Sha, j: nat, m: nat, n: nat, r: Digest, init: seq<Digest>, top: Digest)
    requires m < Pow2(j) < n <= 2 * Pow2(j)
    ensures WalkFrom(sha, m, n - 1, r, init + [top]) == Above(sha, WalkFrom(sha, m, Pow2(j) - 1, r, init), top, true)
  {
    var path := init + [top];
    assert path[..|path| - 1] == init;
    WalkLeftOfSplit(sha, j, m, n - 1, r, path);
  }

  lemma WalkOnRight(sha: Sha, j: nat, m: nat, n: nat, r: Digest, init: seq<Digest>, top: Digest)
    requires Pow2(j) <= m < n <= 2 * Pow2(j)
    ensures WalkFrom(sha, m, n - 1, r, init + [top]) ==
            Above(sha, WalkFrom(sha, m - Pow2(j), n - Pow2(j) - 1, r, init), top, false)
  {
    var path := init + [top];
    assert path[..|path| - 1] == init;
    WalkRightOfSplit(sha, j, m - Pow2(j), n - 1 - Pow2(j), r, path);
  }

  /** One split of the tree, seen from the walk. */
  lemma WalkOneSplit(sha: Sha, m: nat, n: nat, r: Digest, init: seq<Digest>, top: Digest)
    requires m < n && n >= 2
    ensures WalkFrom(sha, m, n - 1, r, init + [top]) ==
            Above(sha, WalkFrom(sha, Within(m, n).0, Within(m, n).1 - 1, r, init), top, m < SplitPoint(n))
  {
    if m < SplitPoint(n) {
      WalkOnLeft(sha, SplitLog(n), m, n, r, init, top);
    } else {
      WalkOnRight(sha, SplitLog(n), m, n, r, init, top);
    }
  }

  /** The bit-shifting walk computes exactly the top-down tree walk, errors included. */
  lemma {:induction false} WalkRefinesTree(sha: Sha, m: nat, n: nat, r: Digest, path: seq<Digest>)
    requires m < n
    ensures WalkFrom(sha, m, n - 1, r, path) == TreeWalk(sha, m, n, r, path)
    decreases n
  {
    if n >= 2 && path != [] {
      var init, top := path[..|path| - 1], path[|path| - 1];
      assert path == init + [top];
      WalkRefinesTree(sha, Within(m, n).0, Within(m, n).1, r, init);
      WalkOneSplit(sha, m, n, r, init, top);
      TreeWalkSplit(sha, m, n, r, init, top);
    }
  }
}

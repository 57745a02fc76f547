/** The root of a file computed in one pass: pending subtree hashes are kept in a map from tree level to
    hash that behaves like a binary counter. */
module MerkleStream {
  import opened MerkleLevels
  import opened MerkleFlat
  import opened MerkleBuild
  import opened Basics

  const SEGMENT := 1024
  const CHUNK := 32768

  /** Complete pairs of a level, hashed; an odd last node is dropped. */
  function Pairs<H>(f: (H, H) -> H, s: seq<H>): (r: seq<H>)
    ensures |r| == |s| / 2
  {
    seq(|s| / 2, k requires 0 <= k < |s| / 2 => f(s[2 * k], s[2 * k + 1]))
  }

  /** From level `k` up, the map holds exactly the nodes of `level` not yet paired: one on each level with
      an odd number of nodes, and it is the last one there. */
  ghost predicate Counts<H>(f: (H, H) -> H, m: map<nat, H>, k: nat, level: seq<H>)
    decreases |level|
  {
    if level == [] then forall j :: j in m ==> j < k
    else
      (k in m <==> |level| % 2 == 1) &&
      (k in m ==> m[k] == level[|level| - 1]) &&
      Counts(f, m, k + 1, Pairs(f, level))
  }

  ghost predicate SameFrom<H>(m: map<nat, H>, m': map<nat, H>, k: nat) {
    forall j :: j >= k ==> (j in m <==> j in m') && (j in m ==> m[j] == m'[j])
  }

  lemma {:induction false} CountsFrame<H>(f: (H, H) -> H, m: map<nat, H>, m': map<nat, H>, k: nat, level: seq<H>)
    requires Counts(f, m, k, level) && SameFrom(m, m', k)
    ensures Counts(f, m', k, level)
    decreases |level|
  {
    if level != [] { CountsFrame(f, m, m', k + 1, Pairs(f, level)); }
  }

  /** Adding one hash with carries: the inner loop of the source. */
  function Insert<H>(f: (H, H) -> H, m: map<nat, H>, i: nat, h: H): map<nat, H>
    decreases |m|
  {
    if i in m then Insert(f, m - {i}, i + 1, f(m[i], h)) else m[i := h]
  }

  lemma {:induction false} InsertBelow<H>(f: (H, H) -> H, m: map<nat, H>, i: nat, h: H, j: nat)
    requires j < i
    ensures j in Insert(f, m, i, h) <==> j in m
    ensures j in m ==> Insert(f, m, i, h)[j] == m[j]
    decreases |m|
  {
    if i in m { InsertBelow(f, m - {i}, i + 1, f(m[i], h), j); }
  }

  lemma PairsOfAppend<H>(f: (H, H) -> H, s: seq<H>, h: H)
    ensures |s| % 2 == 0 ==> Pairs(f, s + [h]) == Pairs(f, s)
    ensures |s| % 2 == 1 ==> Pairs(f, s + [h]) == Pairs(f, s) + [f(s[|s| - 1], h)]
  {
  }

  lemma {:induction false} InsertCounts<H>(f: (H, H) -> H, m: map<nat, H>, k: nat, level: seq<H>, h: H)
    requires Counts(f, m, k, level)
    ensures Counts(f, Insert(f, m, k, h), k, level + [h])
    decreases |level|
  {
    PairsOfAppend(f, level, h);
    if |level| % 2 == 0 {
      if level != [] {
        CountsFrame(f, m, m[k := h], k + 1, Pairs(f, level));
      } else {
        assert Counts(f, m[k := h], k + 1, Pairs(f, level + [h]));
      }
    } else {
      var h' := f(m[k], h);
      CountsFrame(f, m, m - {k}, k + 1, Pairs(f, level));
      InsertCounts(f, m - {k}, k + 1, Pairs(f, level), h');
      InsertBelow(f, m - {k}, k + 1, h', k);
    }
  }

  lemma NextOfPending<H>(f: (H, H) -> H, s: seq<H>, acc: H)
    ensures |s| % 2 == 0 ==> Next(f, s + [acc]) == Pairs(f, s) + [acc]
    ensures |s| % 2 == 1 ==> Next(f, s + [acc]) == Pairs(f, s) + [f(s[|s| - 1], acc)]
    ensures |s| % 2 == 0 ==> Next(f, s) == Pairs(f, s)
    ensures |s| % 2 == 1 ==> Next(f, s) == Pairs(f, s) + [s[|s| - 1]]
  {
  }

  ghost predicate IsLeast<H>(m: map<nat, H>, k: nat) {
    k in m && forall j :: j in m ==> k <= j
  }

  lemma {:induction false} LeastExists<H>(m: map<nat, H>)
    requires |m| >= 1
    ensures exists k :: IsLeast(m, k)
    decreases |m|
  {
    var x :| x in m;
    if |m| == 1 {
      assert m.Keys == {x} by {
        assert |m.Keys - {x}| == 0;
      }
      assert IsLeast(m, x);
    } else {
      LeastExists(m - {x});
      var y :| IsLeast(m - {x}, y);
      assert forall j :: j in m ==> j == x || j in m - {x};
      assert IsLeast(m, if x < y then x else y);
    }
  }

  /** The least key, the source's `map.begin()`. */
  method Begin<H>(m: map<nat, H>) returns (k: nat)
    requires |m| >= 1
    ensures IsLeast(m, k)
  {
    LeastExists(m);
    k :| k in m && forall j :: j in m ==> k <= j;
  }

  /** Climbs over levels with nothing pending: node `acc` is promoted through them. */
  lemma {:induction false} SkipEven<H>(f: (H, H) -> H, m: map<nat, H>, k: nat, level: seq<H>,
                                       acc: H) returns (k': nat, level': seq<H>)
    requires Counts(f, m, k, level) && level != [] && (forall j :: j in m ==> j >= k)
    ensures |level'| % 2 == 1 && Counts(f, m, k', level') && IsLeast(m, k')
    ensures Root(f, level' + [acc]) == Root(f, level + [acc])
    ensures Root(f, level') == Root(f, level)
    decreases |level|
  {
    if |level| % 2 == 1 {
      k', level' := k, level;
    } else {
      NextOfPending(f, level, acc);
      k', level' := SkipEven(f, m, k + 1, Pairs(f, level), acc);
    }
  }

  /** Entry `top` of the map is a partial subtree to the right of the nodes of `level`, which the other
      entries represent from level `k` up; together they have the root of `leaves`. */
  ghost predicate Pending<H>(f: (H, H) -> H, m: map<nat, H>, top: nat, k: nat, level: seq<H>, leaves: seq<H>)
    requires leaves != []
  {
    IsLeast(m, top) && top < k && Counts(f, m - {top}, k, level) && (forall j :: j in m - {top} ==> j >= k) &&
    Root(f, level + [m[top]]) == Root(f, leaves)
  }

  lemma PendingStart<H>(f: (H, H) -> H, m: map<nat, H>, leaves: seq<H>) returns (top: nat, k: nat, level: seq<H>)
    requires leaves != [] && Counts(f, m, 0, leaves)
    ensures Pending(f, m, top, k, level, leaves)
  {
    var k0, level0 := SkipEven(f, m, 0, leaves, leaves[0]);
    top, k, level := k0, k0 + 1, Pairs(f, level0);
    NextOfPending(f, level0, m[top]);
    CountsFrame(f, m, m - {top}, k, level);
    assert |level0| == 1 ==> level + [m[top]] == level0;
  }

  lemma PendingStep<H>(f: (H, H) -> H, m: map<nat, H>, top: nat, k: nat, level: seq<H>, leaves: seq<H>,
                       next: nat) returns (k': nat, level': seq<H>)
    requires leaves != [] && Pending(f, m, top, k, level, leaves) && IsLeast(m - {top}, next)
    ensures Pending(f, (m - {top} - {next})[0 := f(m[next], m[top])], 0, k', level', leaves)
  {
    var rest, acc := m - {top}, m[top];
    assert level != [];
    level' := PairWithPending(f, rest, k, level, acc, next);
    k' := next + 1;
    Replaced(f, rest, next, level', f(rest[next], acc));
  }

  lemma PairWithPending<H>(f: (H, H) -> H, rest: map<nat, H>, k: nat, level: seq<H>, acc: H,
                           next: nat) returns (level': seq<H>)
    requires Counts(f, rest, k, level) && level != [] && (forall j :: j in rest ==> j >= k) && IsLeast(rest, next)
    ensures Counts(f, rest, next + 1, level')
    ensures Root(f, level' + [f(rest[next], acc)]) == Root(f, level + [acc])
  {
    var k1, level1 := SkipEven(f, rest, k, level, acc);
    assert k1 == next;
    level' := Pairs(f, level1);
    NextOfPending(f, level1, acc);
  }

  lemma Replaced<H>(f: (H, H) -> H, rest: map<nat, H>, next: nat, level: seq<H>, h: H)
    requires 0 !in rest && IsLeast(rest, next) && Counts(f, rest, next + 1, level)
    ensures var m := (rest - {next})[0 := h];
      IsLeast(m, 0) && m - {0} == rest - {next} && Counts(f, m - {0}, next + 1, level) &&
        forall j :: j in m - {0} ==> j >= next + 1
  {
    var m := (rest - {next})[0 := h];
    assert m - {0} == rest - {next};
    CountsFrame(f, rest, m - {0}, next + 1, level);
  }

  lemma {:induction false} CountsOfEmpty<H>(f: (H, H) -> H, m: map<nat, H>, k: nat, level: seq<H>)
    requires Counts(f, m, k, level) && m == map[]
    ensures level == []
    decreases |level|
  {
    if level != [] { CountsOfEmpty(f, m, k + 1, Pairs(f, level)); }
  }

  /** The second loop of the source: combines the pending hashes, smallest subtree first. */
  method Combine<H>(f: (H, H) -> H, pending: map<nat, H>, ghost leaves: seq<H>) returns (h: H)
    requires leaves != [] && Counts(f, pending, 0, leaves)
    ensures h == Root(f, leaves)
  {
    var m := pending;
    ghost var top, k, level := PendingStart(f, m, leaves);
    while |m| > 1
      invariant Pending(f, m, top, k, level, leaves)
      decreases |m|
    {
      var i := Begin(m);
      var right := m[i];
      var m1 := m - {i};
      assert |m1| == |m| - 1;
      var j := Begin(m1);
      var left := m1[j];
      k, level := PendingStep(f, m, top, k, level, leaves, j);
      top := 0;
      var m2 := m1 - {j};
      assert |m2| == |m1| - 1;
      m := m2[0 := f(left, right)];
      assert |m| <= |m2| + 1;
    }
    var i := Begin(m);
    h := m[i];
    assert m.Keys == {i} by { assert |m.Keys - {i}| == 0; }
    CountsOfEmpty(f, m - {top}, k, level);
    assert level + [h] == [h];
  }

  /** Leaf hashes of a byte string cut into 1024-byte segments, the last one possibly shorter. */
  function Leaves<B, H>(leaf: seq<B> -> H, r: seq<B>): (s: seq<H>)
    ensures r != [] ==> s != []
    decreases |r|
  {
    if r == [] then []
    else if |r| <= SEGMENT then [leaf(r)]
    else [leaf(r[..SEGMENT])] + Leaves(leaf, r[SEGMENT..])
  }

  lemma {:induction false} LeavesOfConcat<B, H>(leaf: seq<B> -> H, a: seq<B>, b: seq<B>)
    requires |a| % SEGMENT == 0
    ensures Leaves(leaf, a + b) == Leaves(leaf, a) + Leaves(leaf, b)
    ensures |Leaves(leaf, a)| == |a| / SEGMENT
    decreases |a|
  {
    if a == [] {
      assert a + b == b;
    } else {
      LeavesOfConcat(leaf, a[SEGMENT..], b);
      if |a| == SEGMENT {
        assert a[SEGMENT..] == [] && a[..SEGMENT] == a;
      }
      if |a + b| > SEGMENT {
        assert (a + b)[..SEGMENT] == a[..SEGMENT];
        assert (a + b)[SEGMENT..] == a[SEGMENT..] + b;
      } else {
        assert b == [] && a + b == a;
      }
    }
  }

  lemma CountsNothing<B, H>(leaf: seq<B> -> H, f: (H, H) -> H, m: map<nat, H>)
    requires m == map[]
    ensures Counts(f, m, 0, Leaves(leaf, []))
  {
  }

  /** Adds one hash to the counter. */
  method Add<H>(f: (H, H) -> H, m0: map<nat, H>, h: H, ghost level: seq<H>) returns (m: map<nat, H>)
    requires Counts(f, m0, 0, level)
    ensures Counts(f, m, 0, level + [h])
  {
    m := m0;
    var i, x := 0, h;
    while i in m
      invariant Insert(f, m, i, x) == Insert(f, m0, 0, h)
      decreases |m|
    {
      x := f(m[i], x);
      m := m - {i};
      i := i + 1;
    }
    m := m[i := x];
    InsertCounts(f, m0, 0, level, h);
  }

  /** The root of the data `r`, computed in one pass; the empty string has none.  On a length that is not a
      multiple of 1024 the cursor of the source steps past the end, so such lengths are excluded. */
  method ComputeRoot<B, H>(leaf: seq<B> -> H, node: (H, H) -> H, r: seq<B>) returns (h: Option<H>)
    requires |r| % SEGMENT == 0
    ensures r == [] ==> h == None
    ensures r != [] ==> h == Some(Root(node, Leaves(leaf, r)))
  {
    hide Counts, Leaves;
    var m: map<nat, H> := map[];
    var rest := r;
    ghost var done: seq<B> := [];
    CountsNothing(leaf, node, m);
    while rest != []
      invariant done + rest == r && |done| % SEGMENT == 0
      invariant Counts(node, m, 0, Leaves(leaf, done))
      decreases |rest|
    {
      var x := leaf(rest[..SEGMENT]);
      m := Add(node, m, x, Leaves(leaf, done));
      LeavesOfRead(leaf, done, rest[..SEGMENT]);
      done := done + rest[..SEGMENT];
      rest := rest[SEGMENT..];
    }
    assert done == r;
    if r == [] {
      h := None;
    } else {
      var root := Combine(node, m, Leaves(leaf, r));
      h := Some(root);
    }
  }

  /** The root of a file of any length, read 1024 bytes at a time; the last read may be short. */
  method FileRoot<B, H>(leaf: seq<B> -> H, node: (H, H) -> H, r: seq<B>) returns (h: Option<H>)
    ensures r == [] ==> h == None
    ensures r != [] ==> h == Some(Root(node, Leaves(leaf, r)))
  {
    hide Counts, Leaves;
    var m: map<nat, H> := map[];
    var rest := r;
    ghost var done: seq<B> := [];
    CountsNothing(leaf, node, m);
    while rest != []
      invariant done + rest == r && (rest != [] ==> |done| % SEGMENT == 0)
      invariant Counts(node, m, 0, Leaves(leaf, done))
      decreases |rest|
    {
      var cb := if |rest| < SEGMENT then |rest| else SEGMENT;
      m := Add(node, m, leaf(rest[..cb]), Leaves(leaf, done));
      LeavesOfRead(leaf, done, rest[..cb]);
      done := done + rest[..cb];
      rest := rest[cb..];
    }
    assert done == r;
    if r == [] {
      h := None;
    } else {
      var root := Combine(node, m, Leaves(leaf, r));
      h := Some(root);
    }
  }

  lemma LeavesOfRead<B, H>(leaf: seq<B> -> H, a: seq<B>, b: seq<B>)
    requires |a| % SEGMENT == 0 && 0 < |b| <= SEGMENT
    ensures Leaves(leaf, a + b) == Leaves(leaf, a) + [leaf(b)]
  {
    LeavesOfConcat(leaf, a, b);
  }

  /** The roots of the 32 KB chunks of a file, the last one possibly shorter. */
  function FileLeaves<B, H>(leaf: seq<B> -> H, node: (H, H) -> H, r: seq<B>): (s: seq<H>)
    ensures r != [] ==> s != []
    decreases |r|
  {
    if r == [] then []
    else if |r| <= CHUNK then [Root(node, Leaves(leaf, r))]
    else [Root(node, Leaves(leaf, r[..CHUNK]))] + FileLeaves(leaf, node, r[CHUNK..])
  }

  lemma {:induction false} ShortHasFewLeaves<B, H>(leaf: seq<B> -> H, r: seq<B>)
    ensures |Leaves(leaf, r)| == (|r| + SEGMENT - 1) / SEGMENT
    decreases |r|
  {
    if |r| > SEGMENT { ShortHasFewLeaves(leaf, r[SEGMENT..]); }
  }

  lemma {:induction false} FileLeavesAreChunkRoots<B, H>(leaf: seq<B> -> H, node: (H, H) -> H, r: seq<B>)
    ensures FileLeaves(leaf, node, r) == ChunkRoots(node, Leaves(leaf, r), 32)
    decreases |r|
  {
    ShortHasFewLeaves(leaf, r);
    if |r| > CHUNK {
      var a, b := r[..CHUNK], r[CHUNK..];
      assert r == a + b;
      LeavesOfConcat(leaf, a, b);
      ShortHasFewLeaves(leaf, b);
      FileLeavesAreChunkRoots(leaf, node, b);
      var l := Leaves(leaf, r);
      assert l[..32] == Leaves(leaf, a) && l[32..] == Leaves(leaf, b);
    }
  }

  lemma FileLeavesRoot<B, H>(leaf: seq<B> -> H, node: (H, H) -> H, r: seq<B>)
    requires r != []
    ensures Root(node, FileLeaves(leaf, node, r)) == Root(node, Leaves(leaf, r))
  {
    FileLeavesAreChunkRoots(leaf, node, r);
    assert Pow2(5) == 32;
    ChunkedRoot(node, Leaves(leaf, r), 5);
  }

  /** Hashing a file chunk by chunk into a tree, in any order, ends with the one-pass root of the whole
      file in the root slot. */
  lemma HashedTreeRoot<B, H>(leaf: seq<B> -> H, node: (H, H) -> H, zero: H, r: seq<B>, leaves: seq<H>, order: seq<nat>)
    requires r != [] && leaves == FileLeaves(leaf, node, r)
    requires AreIndices(order, |leaves|) && AllListed(|leaves|, order)
    ensures Fill(node, zero, leaves, order)[TreeSize(|leaves|) - 1] == Slot(true, Root(node, Leaves(leaf, r)))
  {
    FileLeavesRoot(leaf, node, r);
    FillRoot(node, zero, leaves, order);
  }
}

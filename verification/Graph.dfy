/** The network graph of a portal: vertices with unique names, at most one directed
  * edge between two vertices, and the contraction of a set of vertices into one. */
module Graphs {

  /** A handle that stays good while other vertices come and go. */
  datatype Vertex = Vertex(id: nat)

  type Arc = (Vertex, Vertex)

  /** What an edge carries and what it can carry. */
  datatype Load = Load(traffic: real, capacity: real)

  const ZERO := Load(0.0, 0.0)

  function Plus(a: Load, b: Load): (r: Load) {
    Load(a.traffic + b.traffic, a.capacity + b.capacity)
  }

  lemma PlusLaws(a: Load, b: Load, c: Load, d: Load)
    ensures Plus(ZERO, a) == a && Plus(a, ZERO) == a && Plus(a, b) == Plus(b, a)
    ensures Plus(a, Plus(b, c)) == Plus(Plus(a, b), c) == Plus(b, Plus(a, c))
    ensures Plus(Plus(a, b), Plus(c, d)) == Plus(Plus(a, c), Plus(b, d))
  {
  }

  /** The load from `u` to `v`, nothing where there is no edge. */
  function At(edges: map<Arc, Load>, u: Vertex, v: Vertex): (r: Load) {
    if (u, v) in edges then edges[(u, v)] else ZERO
  }

  // ---------------------------------------------------------------- sums over sets

  ghost function Sum(f: Vertex -> Load, s: set<Vertex>): (r: Load)
    decreases s
  {
    if s == {} then ZERO else
      var v :| v in s;
      Plus(f(v), Sum(f, s - {v}))
  }

  /** The sum does not depend on the order in which the elements are taken. */
  lemma {:induction false} SumTake(f: Vertex -> Load, s: set<Vertex>, v: Vertex)
    requires v in s
    ensures Sum(f, s) == Plus(f(v), Sum(f, s - {v}))
    decreases s
  {
    hide Plus;
    var w :| w in s && Sum(f, s) == Plus(f(w), Sum(f, s - {w}));
    if w != v {
      SumTake(f, s - {w}, v);
      SumTake(f, s - {v}, w);
      assert s - {w} - {v} == s - {v} - {w};
      PlusLaws(f(w), f(v), Sum(f, s - {w} - {v}), ZERO);
    }
  }

  lemma {:induction false} SumUnion(f: Vertex -> Load, s: set<Vertex>, t: set<Vertex>)
    requires s !! t
    ensures Sum(f, s + t) == Plus(Sum(f, s), Sum(f, t))
    decreases s
  {
    hide Plus;
    PlusLaws(Sum(f, t), ZERO, ZERO, ZERO);
    if s == {} {
      assert s + t == t;
    } else {
      var v :| v in s;
      SumTake(f, s, v);
      SumTake(f, s + t, v);
      assert s + t - {v} == (s - {v}) + t;
      SumUnion(f, s - {v}, t);
      PlusLaws(f(v), Sum(f, s - {v}), Sum(f, t), ZERO);
    }
  }

  lemma {:induction false} SumSame(f: Vertex -> Load, g: Vertex -> Load, s: set<Vertex>)
    requires forall v :: v in s ==> f(v) == g(v)
    ensures Sum(f, s) == Sum(g, s)
    decreases s
  {
    hide Plus;
    if s != {} {
      var v :| v in s;
      SumTake(f, s, v);
      SumTake(g, s, v);
      SumSame(f, g, s - {v});
    }
  }

  ghost function Added(f: Vertex -> Load, g: Vertex -> Load): (h: Vertex -> Load) {
    v => Plus(f(v), g(v))
  }

  lemma {:induction false} SumPlus(f: Vertex -> Load, g: Vertex -> Load, s: set<Vertex>)
    ensures Sum(Added(f, g), s) == Plus(Sum(f, s), Sum(g, s))
    decreases s
  {
    hide Plus;
    PlusLaws(ZERO, ZERO, ZERO, ZERO);
    var h := Added(f, g);
    if s != {} {
      var v :| v in s;
      SumTake(f, s, v);
      SumTake(g, s, v);
      SumTake(h, s, v);
      SumPlus(f, g, s - {v});
      PlusLaws(f(v), g(v), Sum(f, s - {v}), Sum(g, s - {v}));
    }
  }

  /** All the load from `u` into a set, and from a set to `w`. */
  ghost function Row(edges: map<Arc, Load>, u: Vertex): (f: Vertex -> Load) {
    v => At(edges, u, v)
  }

  ghost function Column(edges: map<Arc, Load>, w: Vertex): (f: Vertex -> Load) {
    v => At(edges, v, w)
  }

  ghost function Into(edges: map<Arc, Load>, u: Vertex, s: set<Vertex>): (r: Load) {
    Sum(Row(edges, u), s)
  }

  ghost function OutOf(edges: map<Arc, Load>, s: set<Vertex>, w: Vertex): (r: Load) {
    Sum(Column(edges, w), s)
  }

  ghost function Rows(edges: map<Arc, Load>, t: set<Vertex>): (f: Vertex -> Load) {
    v => Into(edges, v, t)
  }

  ghost function Columns(edges: map<Arc, Load>, s: set<Vertex>): (f: Vertex -> Load) {
    w => OutOf(edges, s, w)
  }

  /** All the load that crosses from one set to another. */
  ghost function Cut(edges: map<Arc, Load>, s: set<Vertex>, t: set<Vertex>): (r: Load) {
    Sum(Rows(edges, t), s)
  }

  // ------------------------------------------------------------------- contraction

  /** The edge from `u` to `w` is as it was. */
  ghost predicate Kept(before: map<Arc, Load>, after: map<Arc, Load>, u: Vertex, w: Vertex) {
    ((u, w) in after <==> (u, w) in before) && At(after, u, w) == At(before, u, w)
  }

  ghost predicate Enters(edges: map<Arc, Load>, u: Vertex, s: set<Vertex>) {
    exists v :: v in s && (u, v) in edges
  }

  ghost predicate Leaves(edges: map<Arc, Load>, s: set<Vertex>, w: Vertex) {
    exists v :: v in s && (v, w) in edges
  }

  /** The edge from `u` to `r` stands for all those from `u` into `s`. */
  ghost predicate MergedIn(before: map<Arc, Load>, after: map<Arc, Load>, u: Vertex, s: set<Vertex>, r: Vertex) {
    && ((u, r) in after <==> Enters(before, u, s))
    && At(after, u, r) == Into(before, u, s)
  }

  ghost predicate MergedOut(before: map<Arc, Load>, after: map<Arc, Load>, s: set<Vertex>, r: Vertex, w: Vertex) {
    && ((r, w) in after <==> Leaves(before, s, w))
    && At(after, r, w) == OutOf(before, s, w)
  }

  /** `after` is `before` with the vertices of `s` contracted into `r`. */
  ghost predicate Contracted(before: map<Arc, Load>, s: set<Vertex>, r: Vertex, after: map<Arc, Load>) {
    && (forall u, w {:trigger Kept(before, after, u, w)} ::
          u !in s && w !in s && u != r && w != r ==> Kept(before, after, u, w))
    && (forall u {:trigger MergedIn(before, after, u, s, r)} :: u !in s && u != r ==> MergedIn(before, after, u, s, r))
    && (forall w {:trigger MergedOut(before, after, s, r, w)} :: w !in s && w != r ==>
      MergedOut(before, after, s, r, w))
    && (r, r) !in after
    && (forall a :: a in after ==> a.0 !in s && a.1 !in s)
  }

  ghost predicate Touches(edges: map<Arc, Load>, r: Vertex) {
    exists a :: a in edges && (a.0 == r || a.1 == r)
  }

  /** Load between two sets that do not separate the contracted vertices is conserved. */
  lemma ContractionKeepsCuts(before: map<Arc, Load>, s: set<Vertex>, r: Vertex, after: map<Arc, Load>,
                             a: set<Vertex>, b: set<Vertex>)
    requires Contracted(before, s, r, after)
    requires a !! b && r !in a && r !in b && a !! s && b !! s
    ensures Cut(after, a + {r}, b) == Cut(before, a + s, b)
    ensures Cut(after, b, a + {r}) == Cut(before, b, a + s)
    ensures Cut(after, a, b) == Cut(before, a, b)
  {
    hide Sum, Plus, Cut;
    CutOutside(before, s, r, after, a, b);
    CutOutside(before, s, r, after, b, a);
    CutFrom(before, s, r, after, b);
    CutTo(before, s, r, after, b);
    CutUnionLeft(after, a, {r}, b);
    CutUnionLeft(before, a, s, b);
    CutUnionRight(after, b, a, {r});
    CutUnionRight(before, b, a, s);
  }

  lemma CutUnionLeft(e: map<Arc, Load>, s: set<Vertex>, t: set<Vertex>, b: set<Vertex>)
    requires s !! t
    ensures Cut(e, s + t, b) == Plus(Cut(e, s, b), Cut(e, t, b))
  {
    SumUnion(Rows(e, b), s, t);
  }

  lemma CutUnionRight(e: map<Arc, Load>, b: set<Vertex>, s: set<Vertex>, t: set<Vertex>)
    requires s !! t
    ensures Cut(e, b, s + t) == Plus(Cut(e, b, s), Cut(e, b, t))
  {
    hide Sum, Plus;
    var f, g, h := Rows(e, s), Rows(e, t), Rows(e, s + t);
    forall v | v in b ensures h(v) == Plus(f(v), g(v)) {
      SumUnion(Row(e, v), s, t);
    }
    SumSame(h, Added(f, g), b);
    SumPlus(f, g, b);
  }

  lemma CutOutside(before: map<Arc, Load>, s: set<Vertex>, r: Vertex, after: map<Arc, Load>,
                   a: set<Vertex>, b: set<Vertex>)
    requires Contracted(before, s, r, after)
    requires r !in a && r !in b && a !! s && b !! s
    ensures Cut(after, a, b) == Cut(before, a, b)
  {
    hide Sum;
    forall v | v in a ensures Into(after, v, b) == Into(before, v, b) {
      forall w | w in b ensures At(after, v, w) == At(before, v, w) {
        assert Kept(before, after, v, w);
      }
      SumSame(Row(after, v), Row(before, v), b);
    }
    SumSame(Rows(after, b), Rows(before, b), a);
  }

  lemma CutTo(before: map<Arc, Load>, s: set<Vertex>, r: Vertex, after: map<Arc, Load>, b: set<Vertex>)
    requires Contracted(before, s, r, after)
    requires r !in b && b !! s
    ensures Cut(after, b, {r}) == Cut(before, b, s)
  {
    hide Sum;
    forall v | v in b ensures Into(after, v, {r}) == Into(before, v, s) {
      assert MergedIn(before, after, v, s, r);
      SumOne(Row(after, v), r);
    }
    SumSame(Rows(after, {r}), Rows(before, s), b);
  }

  lemma SumOne(f: Vertex -> Load, v: Vertex)
    ensures Sum(f, {v}) == f(v)
  {
    hide Plus;
    PlusLaws(f(v), ZERO, ZERO, ZERO);
    SumTake(f, {v}, v);
    assert {v} - {v} == {};
  }

  /** Double sums can be taken row by row or column by column. */
  lemma {:induction false} CutByColumns(e: map<Arc, Load>, s: set<Vertex>, b: set<Vertex>)
    ensures Cut(e, s, b) == Sum(Columns(e, s), b)
    decreases b
  {
    hide Plus;
    if b == {} {
      forall v | v in s ensures Into(e, v, b) == ZERO {}
      SumZero(Rows(e, b), s);
    } else {
      var w :| w in b;
      var rest := b - {w};
      assert b == rest + {w};
      CutUnionRight(e, s, rest, {w});
      CutByColumns(e, s, rest);
      SumTake(Columns(e, s), b, w);
      forall v | v in s ensures Into(e, v, {w}) == At(e, v, w) {
        SumOne(Row(e, v), w);
      }
      SumSame(Rows(e, {w}), Column(e, w), s);
      PlusLaws(Cut(e, s, rest), OutOf(e, s, w), ZERO, ZERO);
    }
  }

  lemma {:induction false} SumZero(f: Vertex -> Load, s: set<Vertex>)
    requires forall v :: v in s ==> f(v) == ZERO
    ensures Sum(f, s) == ZERO
    decreases s
  {
    if s != {} {
      var v :| v in s;
      SumTake(f, s, v);
      SumZero(f, s - {v});
    }
  }

  lemma CutFrom(before: map<Arc, Load>, s: set<Vertex>, r: Vertex, after: map<Arc, Load>, b: set<Vertex>)
    requires Contracted(before, s, r, after)
    requires r !in b && b !! s
    ensures Cut(after, {r}, b) == Cut(before, s, b)
  {
    SumOne(Rows(after, b), r);
    CutByColumns(before, s, b);
    forall w | w in b ensures At(after, r, w) == OutOf(before, s, w) {
      assert MergedOut(before, after, s, r, w);
    }
    SumSame(Row(after, r), Columns(before, s), b);
  }

  /** Contracting in two steps, the second one taking in the vertex the first one
    * made, loads every edge as contracting all at once. */
  lemma ContractionsCompose(e0: map<Arc, Load>, s: set<Vertex>, r: Vertex, e1: map<Arc, Load>,
                            t: set<Vertex>, q: Vertex, e2: map<Arc, Load>)
    requires Contracted(e0, s, r, e1) && Contracted(e1, t + {r}, q, e2)
    requires s !! t && r !in s && r !in t && q !in s && q !in t && q != r
    requires !Touches(e0, r) && !Touches(e0, q)
    ensures Contracted(e0, s + t, q, e2)
  {
    hide MergedIn, MergedOut, Kept, Touches;
    forall u | u !in s + t && u != q
      ensures MergedIn(e0, e2, u, s + t, q) && MergedOut(e0, e2, s + t, q, u)
    {
      if u == r {
        AloneIsMerged(e0, s + t, q, r, e2);
      } else {
        ComposedIn(e0, s, r, e1, t, q, e2, u);
        ComposedOut(e0, s, r, e1, t, q, e2, u);
      }
    }
    forall u, w | u !in s + t && w !in s + t && u != q && w != q
      ensures Kept(e0, e2, u, w)
    {
      ComposedKept(e0, s, r, e1, t, q, e2, u, w);
    }
    forall a | a in e2 ensures a.0 !in s + t && a.1 !in s + t {
      ComposedArc(e0, s, r, e1, t, q, e2, a);
    }
  }

  lemma AloneIsMerged(e0: map<Arc, Load>, s: set<Vertex>, q: Vertex, r: Vertex, e2: map<Arc, Load>)
    requires !Touches(e0, r) && (r, q) !in e2 && (q, r) !in e2
    ensures MergedIn(e0, e2, r, s, q) && MergedOut(e0, e2, s, q, r)
  {
    hide Sum;
    AloneHasNoLoad(e0, s, r);
  }

  lemma ComposedKept(e0: map<Arc, Load>, s: set<Vertex>, r: Vertex, e1: map<Arc, Load>,
                     t: set<Vertex>, q: Vertex, e2: map<Arc, Load>, u: Vertex, w: Vertex)
    requires Contracted(e0, s, r, e1) && Contracted(e1, t + {r}, q, e2)
    requires !Touches(e0, r)
    requires u !in s + t && w !in s + t && u != q && w != q
    ensures Kept(e0, e2, u, w)
  {
    hide MergedIn, MergedOut;
    if u == r || w == r {
      AloneHasNoLoad(e0, {}, r);
    } else {
      assert Kept(e0, e1, u, w) && Kept(e1, e2, u, w);
    }
  }

  lemma AloneHasNoLoad(e: map<Arc, Load>, s: set<Vertex>, r: Vertex)
    requires !Touches(e, r)
    ensures Into(e, r, s) == ZERO && OutOf(e, s, r) == ZERO
    ensures forall v :: (r, v) !in e && (v, r) !in e
  {
    forall v ensures (r, v) !in e && (v, r) !in e {
      if (r, v) in e { assert Touches(e, r); }
      if (v, r) in e { assert Touches(e, r); }
    }
    SumZero(Row(e, r), s);
    SumZero(Column(e, r), s);
  }

  lemma ComposedArc(e0: map<Arc, Load>, s: set<Vertex>, r: Vertex, e1: map<Arc, Load>,
                    t: set<Vertex>, q: Vertex, e2: map<Arc, Load>, a: Arc)
    requires Contracted(e0, s, r, e1) && Contracted(e1, t + {r}, q, e2)
    requires q !in s && q != r && a in e2
    ensures a.0 !in s + t && a.1 !in s + t
  {
    hide Sum;
    var (u, w) := a;
    if w == q {
      assert u != q && u !in t + {r};
      assert MergedIn(e1, e2, u, t + {r}, q);
    } else if u == q {
      assert w !in t + {r};
      assert MergedOut(e1, e2, t + {r}, q, w);
    } else {
      assert Kept(e1, e2, u, w);
    }
  }

  lemma ComposedIn(e0: map<Arc, Load>, s: set<Vertex>, r: Vertex, e1: map<Arc, Load>,
                   t: set<Vertex>, q: Vertex, e2: map<Arc, Load>, u: Vertex)
    requires Contracted(e0, s, r, e1) && Contracted(e1, t + {r}, q, e2)
    requires s !! t && r !in t && u !in s && u !in t && u != r && u != q
    ensures MergedIn(e0, e2, u, s + t, q)
  {
    hide Sum;
    assert MergedIn(e1, e2, u, t + {r}, q) && MergedIn(e0, e1, u, s, r);
    forall v | v in t ensures At(e1, u, v) == At(e0, u, v) && ((u, v) in e1 <==> (u, v) in e0) {
      assert Kept(e0, e1, u, v);
    }
    SumReplaced(Row(e1, u), t, r, Row(e0, u), s);
  }

  lemma ComposedOut(e0: map<Arc, Load>, s: set<Vertex>, r: Vertex, e1: map<Arc, Load>,
                    t: set<Vertex>, q: Vertex, e2: map<Arc, Load>, u: Vertex)
    requires Contracted(e0, s, r, e1) && Contracted(e1, t + {r}, q, e2)
    requires s !! t && r !in t && u !in s && u !in t && u != r && u != q
    ensures MergedOut(e0, e2, s + t, q, u)
  {
    hide Sum;
    assert MergedOut(e1, e2, t + {r}, q, u) && MergedOut(e0, e1, s, r, u);
    forall v | v in t ensures At(e1, v, u) == At(e0, v, u) && ((v, u) in e1 <==> (v, u) in e0) {
      assert Kept(e0, e1, v, u);
    }
    SumReplaced(Column(e1, u), t, r, Column(e0, u), s);
  }

  lemma SumReplaced(f: Vertex -> Load, t: set<Vertex>, r: Vertex, g: Vertex -> Load, s: set<Vertex>)
    requires s !! t && r !in t
    requires f(r) == Sum(g, s)
    requires forall v :: v in t ==> f(v) == g(v)
    ensures Sum(f, t + {r}) == Sum(g, s + t)
  {
    hide Sum, Plus;
    PlusLaws(Sum(f, t), f(r), ZERO, ZERO);
    SumUnion(f, t, {r});
    SumOne(f, r);
    SumSame(f, g, t);
    SumUnion(g, s, t);
  }

  // ------------------------------------------------------------- edges being copied

  /** What `a` carried before, and besides what `b` carried. */
  ghost predicate Grew(before: map<Arc, Load>, after: map<Arc, Load>, a: Arc, b: Arc) {
    && (a in after <==> a in before || b in before)
    && At(after, a.0, a.1) == Plus(At(before, a.0, a.1), At(before, b.0, b.1))
  }

  /** The edges into `v`, but for those from `skip`, were added to those into `r`. */
  ghost predicate CopiedIn(before: map<Arc, Load>, skip: set<Vertex>, v: Vertex, r: Vertex, after: map<Arc, Load>) {
    && (forall u, w {:trigger Kept(before, after, u, w)} :: w != r || u in skip ==> Kept(before, after, u, w))
    && (forall u {:trigger Grew(before, after, (u, r), (u, v))} :: u !in skip ==> Grew(before, after, (u, r), (u, v)))
  }

  ghost predicate CopiedOut(before: map<Arc, Load>, skip: set<Vertex>, v: Vertex, r: Vertex, after: map<Arc, Load>) {
    && (forall u, w {:trigger Kept(before, after, u, w)} :: u != r || w in skip ==> Kept(before, after, u, w))
    && (forall w {:trigger Grew(before, after, (r, w), (v, w))} :: w !in skip ==> Grew(before, after, (r, w), (v, w)))
  }

  /** The edges of the vertices in `done` have been added to those of `r`; nothing has
    * been taken away yet. */
  ghost predicate Gathered(before: map<Arc, Load>, s: set<Vertex>, done: set<Vertex>, r: Vertex, now: map<Arc, Load>) {
    && (forall u, w {:trigger Kept(before, now, u, w)} :: u != r && w != r ==> Kept(before, now, u, w))
    && (forall u {:trigger MergedIn(before, now, u, done, r)} :: u !in s && u != r ==>
      MergedIn(before, now, u, done, r))
    && (forall w {:trigger MergedOut(before, now, done, r, w)} :: w !in s && w != r ==>
      MergedOut(before, now, done, r, w))
    && (r, r) !in now
    && (forall v :: v in s ==> (v, r) !in now && (r, v) !in now)
  }

  lemma GatheredNone(before: map<Arc, Load>, s: set<Vertex>, r: Vertex)
    requires !Touches(before, r)
    ensures Gathered(before, s, {}, r, before)
  {
    AloneHasNoLoad(before, {}, r);
  }

  lemma GatheredOne(before: map<Arc, Load>, s: set<Vertex>, done: set<Vertex>, r: Vertex, v: Vertex,
                    e0: map<Arc, Load>, e1: map<Arc, Load>, e2: map<Arc, Load>)
    requires Gathered(before, s, done, r, e0)
    requires v in s && v !in done && r !in s && done <= s
    requires CopiedIn(e0, s, v, r, e1) && CopiedOut(e1, s, v, r, e2)
    ensures Gathered(before, s, done + {v}, r, e2)
  {
    hide MergedIn, MergedOut, At;
    forall u, w | u != r && w != r ensures Kept(before, e2, u, w) {
      assert Kept(before, e0, u, w) && Kept(e0, e1, u, w) && Kept(e1, e2, u, w);
    }
    forall u | u !in s && u != r
      ensures MergedIn(before, e2, u, done + {v}, r) && MergedOut(before, e2, done + {v}, r, u)
    {
      GatheredAround(before, s, done, r, v, e0, e1, e2, u);
    }
    forall x | x in s ensures (x, r) !in e2 && (r, x) !in e2 {
      assert Kept(e0, e1, x, r) && Kept(e1, e2, x, r) && Kept(e0, e1, r, x) && Kept(e1, e2, r, x);
    }
    assert Grew(e0, e1, (r, r), (r, v)) && Grew(e1, e2, (r, r), (v, r)) && Kept(e0, e1, v, r);
  }

  lemma GatheredAround(before: map<Arc, Load>, s: set<Vertex>, done: set<Vertex>, r: Vertex, v: Vertex,
                       e0: map<Arc, Load>, e1: map<Arc, Load>, e2: map<Arc, Load>, u: Vertex)
    requires Gathered(before, s, done, r, e0)
    requires v in s && v !in done && r !in s && u !in s && u != r
    requires CopiedIn(e0, s, v, r, e1) && CopiedOut(e1, s, v, r, e2)
    ensures MergedIn(before, e2, u, done + {v}, r) && MergedOut(before, e2, done + {v}, r, u)
  {
    hide MergedIn, MergedOut, At, Kept, Grew;
    assert Kept(e0, e1, v, u) && Kept(e0, e1, r, u) && Kept(e1, e2, u, r);
    MergedInOne(before, done, r, v, e0, e1, e2, u);
    MergedOutOne(before, done, r, v, e0, e1, e2, u);
  }

  lemma MergedInOne(before: map<Arc, Load>, done: set<Vertex>, r: Vertex, v: Vertex,
                    e0: map<Arc, Load>, e1: map<Arc, Load>, e2: map<Arc, Load>, u: Vertex)
    requires MergedIn(before, e0, u, done, r) && Kept(before, e0, u, v) && v !in done
    requires Grew(e0, e1, (u, r), (u, v)) && Kept(e1, e2, u, r)
    ensures MergedIn(before, e2, u, done + {v}, r)
  {
    hide Into, Enters;
    IntoOne(before, u, done, v);
  }

  lemma IntoOne(e: map<Arc, Load>, u: Vertex, s: set<Vertex>, v: Vertex)
    requires v !in s
    ensures Into(e, u, s + {v}) == Plus(Into(e, u, s), At(e, u, v))
    ensures Enters(e, u, s + {v}) <==> Enters(e, u, s) || (u, v) in e
  {
    hide Sum;
    assert v in s + {v};
    SumUnion(Row(e, u), s, {v});
    SumOne(Row(e, u), v);
  }

  lemma OutOfOne(e: map<Arc, Load>, u: Vertex, s: set<Vertex>, v: Vertex)
    requires v !in s
    ensures OutOf(e, s + {v}, u) == Plus(OutOf(e, s, u), At(e, v, u))
    ensures Leaves(e, s + {v}, u) <==> Leaves(e, s, u) || (v, u) in e
  {
    hide Sum;
    assert v in s + {v};
    SumUnion(Column(e, u), s, {v});
    SumOne(Column(e, u), v);
  }

  lemma MergedOutOne(before: map<Arc, Load>, done: set<Vertex>, r: Vertex, v: Vertex,
                     e0: map<Arc, Load>, e1: map<Arc, Load>, e2: map<Arc, Load>, u: Vertex)
    requires MergedOut(before, e0, done, r, u) && Kept(before, e0, v, u) && v !in done
    requires Grew(e1, e2, (r, u), (v, u)) && Kept(e0, e1, r, u) && Kept(e0, e1, v, u)
    ensures MergedOut(before, e2, done + {v}, r, u)
  {
    hide OutOf, Leaves;
    OutOfOne(before, u, done, v);
  }

  /** The edges that do not touch `s`. */
  function Without(edges: map<Arc, Load>, s: set<Vertex>): (r: map<Arc, Load>) {
    map a | a in edges && a.0 !in s && a.1 !in s :: edges[a]
  }

  lemma WithoutOneMore(edges: map<Arc, Load>, s: set<Vertex>, v: Vertex)
    ensures Without(Without(edges, s), {v}) == Without(edges, s + {v})
  {
  }

  /** Leaving out the edges of the contracted vertices finishes the contraction. */
  lemma GatheredAll(before: map<Arc, Load>, s: set<Vertex>, r: Vertex, now: map<Arc, Load>, after: map<Arc, Load>)
    requires Gathered(before, s, s, r, now) && r !in s
    requires after == Without(now, s)
    ensures Contracted(before, s, r, after)
  {
    hide Sum;
    forall u, w | u !in s && w !in s && u != r && w != r ensures Kept(before, after, u, w) {
      assert Kept(before, now, u, w);
    }
    forall u | u !in s && u != r
      ensures MergedIn(before, after, u, s, r) && MergedOut(before, after, s, r, u)
    {
      assert MergedIn(before, now, u, s, r) && MergedOut(before, now, s, r, u);
    }
  }

  lemma CopiedInNone(before: map<Arc, Load>, skip: set<Vertex>, v: Vertex, r: Vertex)
    requires forall a :: a in before && a.1 == v ==> a.0 in skip
    ensures CopiedIn(before, skip, v, r, before)
  {
  }

  lemma CopiedOutNone(before: map<Arc, Load>, skip: set<Vertex>, v: Vertex, r: Vertex)
    requires forall a :: a in before && a.0 == v ==> a.1 in skip
    ensures CopiedOut(before, skip, v, r, before)
  {
  }

  lemma CopiedInHas(before: map<Arc, Load>, skip: set<Vertex>, u: Vertex, v: Vertex, r: Vertex, now: map<Arc, Load>)
    requires CopiedIn(before, skip, v, r, now) && v != r && (u, v) in before
    ensures (u, v) in now && now[(u, v)] == At(now, u, v)
  {
    assert Kept(before, now, u, v);
  }

  lemma CopiedOutHas(before: map<Arc, Load>, skip: set<Vertex>, w: Vertex, v: Vertex, r: Vertex, now: map<Arc, Load>)
    requires CopiedOut(before, skip, v, r, now) && v != r && (v, w) in before
    ensures (v, w) in now && now[(v, w)] == At(now, v, w)
  {
    assert Kept(before, now, v, w);
  }

  lemma KeptStill(before: map<Arc, Load>, now: map<Arc, Load>, a: Arc, load: Load, u: Vertex, w: Vertex)
    requires Kept(before, now, u, w) && a != (u, w)
    ensures Kept(before, now[a := load], u, w)
  {
  }

  lemma GrewStill(before: map<Arc, Load>, now: map<Arc, Load>, a: Arc, load: Load, b: Arc, c: Arc)
    requires Grew(before, now, b, c) && a != b
    ensures Grew(before, now[a := load], b, c)
  {
  }

  lemma GrewNow(before: map<Arc, Load>, now: map<Arc, Load>, a: Arc, c: Arc)
    requires Kept(before, now, a.0, a.1) && Kept(before, now, c.0, c.1) && c in before
    ensures Grew(before, now[a := Plus(At(now, a.0, a.1), At(now, c.0, c.1))], a, c)
  {
  }

  lemma CopiedInOne(before: map<Arc, Load>, skip: set<Vertex>, u: Vertex, v: Vertex, r: Vertex,
                    now: map<Arc, Load>, after: map<Arc, Load>)
    requires CopiedIn(before, skip, v, r, now)
    requires u in skip && v != r && (u, v) in before
    requires after == now[(u, r) := Plus(At(now, u, r), At(now, u, v))]
    ensures CopiedIn(before, skip - {u}, v, r, after)
  {
    hide Kept, Grew, At;
    var load := Plus(At(now, u, r), At(now, u, v));
    forall x, w | w != r || x in skip - {u} ensures Kept(before, after, x, w) {
      KeptStill(before, now, (u, r), load, x, w);
    }
    forall x | x !in skip - {u} ensures Grew(before, after, (x, r), (x, v)) {
      if x != u {
        GrewStill(before, now, (u, r), load, (x, r), (x, v));
      } else {
        GrewNow(before, now, (u, r), (u, v));
      }
    }
  }

  lemma CopiedOutOne(before: map<Arc, Load>, skip: set<Vertex>, w: Vertex, v: Vertex, r: Vertex,
                     now: map<Arc, Load>, after: map<Arc, Load>)
    requires CopiedOut(before, skip, v, r, now)
    requires w in skip && v != r && (v, w) in before
    requires after == now[(r, w) := Plus(At(now, r, w), At(now, v, w))]
    ensures CopiedOut(before, skip - {w}, v, r, after)
  {
    hide Kept, Grew, At;
    var load := Plus(At(now, r, w), At(now, v, w));
    forall u, x | u != r || x in skip - {w} ensures Kept(before, after, u, x) {
      KeptStill(before, now, (r, w), load, u, x);
    }
    forall x | x !in skip - {w} ensures Grew(before, after, (r, x), (v, x)) {
      if x != w {
        GrewStill(before, now, (r, w), load, (r, x), (v, x));
      } else {
        GrewNow(before, now, (r, w), (v, w));
      }
    }
  }

  // ------------------------------------------------------------------ the graph

  class NetState {
    /** The name property of every vertex. */
    var names: map<Vertex, string>
    var edges: map<Arc, Load>
    /** The index from names to vertices. */
    var byName: map<string, Vertex>
    var next: nat

    ghost predicate Graph()
      reads this
    {
      && (forall a :: a in edges ==> a.0 in names && a.1 in names)
      && (forall v :: v in names ==> v.id < next)
    }

    /** The index is a bijection between the names in use and the vertices. */
    ghost predicate Indexed()
      reads this
    {
      && (forall n :: n in byName ==> byName[n] in names && names[byName[n]] == n)
      && (forall v :: v in names ==> names[v] in byName && byName[names[v]] == v)
    }

    constructor ()
      ensures Graph() && Indexed()
      ensures names == map[] && edges == map[]
    {
      names, edges, byName, next := map[], map[], map[], 0;
    }

    method AddNode(name: string) returns (ok: bool, v: Vertex)
      requires Graph() && Indexed()
      modifies this
      ensures Graph() && Indexed() && edges == old(edges)
      ensures ok <==> name !in old(names.Values)
      ensures ok ==> v !in old(names) && names == old(names)[v := name] && !Touches(edges, v)
      ensures !ok ==> v in names && names[v] == name && names == old(names)
    {
      if name in byName {
        return false, byName[name];
      }
      v := Vertex(next);
      next := next + 1;
      byName := byName[name := v];
      names := names[v := name];
      return true, v;
    }

    /** Renames a vertex. The index stays a bijection exactly when no other vertex
      * has the new name: an index entry is never overwritten. */
    method SetName(v: Vertex, name: string)
      requires Graph() && Indexed() && v in names
      modifies this`names, this`byName
      ensures Graph() && names == old(names)[v := name]
      ensures Indexed() <==> forall u :: u in old(names) && u != v ==> old(names)[u] != name
    {
      ghost var before := names;
      byName := byName - {names[v]};
      names := names[v := name];
      if name !in byName {
        byName := byName[name := v];
      }
      assert names[v] == name;
    }

    method RemoveNode(v: Vertex)
      requires Graph() && Indexed() && v in names
      modifies this
      ensures Graph() && Indexed()
      ensures names == old(names) - {v}
      ensures edges == Without(old(edges), {v})
    {
      var name := names[v];
      edges := Without(edges, {v});
      names := names - {v};
      byName := byName - {name};
    }

    /** Adds an edge, or adds to the edge that is there. */
    method Add(a: Arc, load: Load)
      requires Graph() && a.0 in names && a.1 in names
      modifies this`edges
      ensures Graph() && edges == old(edges)[a := Plus(At(old(edges), a.0, a.1), load)]
    {
      if a !in edges {
        edges := edges[a := load];
      } else {
        edges := edges[a := Plus(edges[a], load)];
      }
    }

    method CopyIncoming(s: set<Vertex>, v: Vertex, r: Vertex)
      requires Graph() && v in s && r !in s && r in names
      modifies this`edges
      ensures Graph() && CopiedIn(old(edges), s, v, r, edges)
    {
      hide CopiedIn;
      ghost var e0 := edges;
      var todo := set a | a in edges && a.1 == v :: a.0;
      CopiedInNone(e0, s + todo, v, r);
      while todo != {}
        invariant Graph() && CopiedIn(e0, s + todo, v, r, edges)
        invariant forall u :: u in todo ==> (u, v) in e0
      {
        var u :| u in todo;
        ghost var skip := s + todo;
        todo := todo - {u};
        if u in s {
          assert s + todo == skip;
          continue;
        }
        CopiedInHas(e0, skip, u, v, r, edges);
        ghost var now := edges;
        Add((u, r), edges[(u, v)]);
        CopiedInOne(e0, skip, u, v, r, now, edges);
        assert s + todo == skip - {u};
      }
      assert s + todo == s;
    }

    method CopyOutgoing(s: set<Vertex>, v: Vertex, r: Vertex)
      requires Graph() && v in s && r !in s && r in names
      modifies this`edges
      ensures Graph() && CopiedOut(old(edges), s, v, r, edges)
    {
      hide CopiedOut;
      ghost var e0 := edges;
      var todo := set a | a in edges && a.0 == v :: a.1;
      CopiedOutNone(e0, s + todo, v, r);
      while todo != {}
        invariant Graph() && CopiedOut(e0, s + todo, v, r, edges)
        invariant forall w :: w in todo ==> (v, w) in e0
      {
        var w :| w in todo;
        ghost var skip := s + todo;
        todo := todo - {w};
        if w in s {
          assert s + todo == skip;
          continue;
        }
        CopiedOutHas(e0, skip, w, v, r, edges);
        ghost var now := edges;
        Add((r, w), edges[(v, w)]);
        CopiedOutOne(e0, skip, w, v, r, now, edges);
        assert s + todo == skip - {w};
      }
      assert s + todo == s;
    }

    method Gather(s: set<Vertex>, r: Vertex)
      requires Graph() && r !in s && r in names && !Touches(edges, r)
      modifies this`edges
      ensures Graph() && Gathered(old(edges), s, s, r, edges)
    {
      ghost var e0 := edges;
      ghost var done: set<Vertex> := {};
      var todo := s;
      GatheredNone(edges, s, r);
      while todo != {}
        invariant done + todo == s && done !! todo
        invariant Graph() && Gathered(e0, s, done, r, edges)
      {
        hide CopiedIn, CopiedOut, Gathered;
        var v :| v in todo;
        todo := todo - {v};
        ghost var e1 := edges;
        CopyIncoming(s, v, r);
        ghost var e2 := edges;
        CopyOutgoing(s, v, r);
        GatheredOne(e0, s, done, r, v, e1, e2, edges);
        done := done + {v};
      }
    }

    method RemoveAll(s: set<Vertex>)
      requires Graph() && Indexed() && s <= names.Keys
      modifies this
      ensures Graph() && Indexed()
      ensures names == old(names) - s
      ensures edges == Without(old(edges), s)
    {
      ghost var names0, edges0 := names, edges;
      ghost var gone: set<Vertex> := {};
      var todo := s;
      assert edges == Without(edges0, gone);
      hide Without, Indexed, Graph;
      while todo != {}
        invariant gone + todo == s && gone !! todo
        invariant Graph() && Indexed()
        invariant names == names0 - gone
        invariant edges == Without(edges0, gone)
      {
        var v :| v in todo;
        todo := todo - {v};
        RemoveNode(v);
        WithoutOneMore(edges0, gone, v);
        gone := gone + {v};
      }
    }

    /** Contracts a set of vertices into one vertex with a new name; a set of one
      * vertex is renamed in place. */
    method AggregateNode(s: set<Vertex>, name: string) returns (ok: bool, r: Vertex)
      requires Graph() && Indexed() && s <= names.Keys
      modifies this
      ensures Graph()
      ensures |s| == 1 ==> ok && s == {r} && names == old(names)[r := name] && edges == old(edges)
      ensures |s| == 1 ==> (Indexed() <==> forall u :: u in old(names) && u !in s ==> old(names)[u] != name)
      ensures |s| != 1 ==> Indexed() && (ok <==> name !in old(names.Values))
      ensures |s| != 1 && !ok ==> names == old(names) && edges == old(edges)
      ensures |s| != 1 && ok ==> r !in old(names) && names == old(names)[r := name] - s
      ensures |s| != 1 && ok ==> Contracted(old(edges), s, r, edges)
    {
      if |s| == 1 {
        var v :| v in s;
        SingletonIs(s, v);
        SetName(v, name);
        return true, v;
      }
      ok, r := AddNode(name);
      if !ok {
        return;
      }
      ghost var e0 := edges;
      Gather(s, r);
      ghost var e1 := edges;
      RemoveAll(s);
      GatheredAll(e0, s, r, e1, edges);
    }
  }

  lemma SingletonIs(s: set<Vertex>, v: Vertex)
    requires |s| == 1 && v in s
    ensures s == {v}
  {
    assert |s - {v}| == 0;
  }

  /** A run that loses the bijection: of two vertices, one is aggregated alone under the name of the other. Two
    * vertices then have the name, and the index knows one of them. */
  method RenamedToTaken() returns (net: NetState, first: Vertex, second: Vertex)
    ensures fresh(net) && net.Graph() && !net.Indexed()
    ensures first != second && net.names == map[first := "b", second := "b"]
  {
    net := new NetState();
    var ok;
    ok, first := net.AddNode("a");
    ok, second := net.AddNode("b");
    assert first != second;
    var r;
    ok, r := net.AggregateNode({first}, "b");
    assert r == first;
  }
}

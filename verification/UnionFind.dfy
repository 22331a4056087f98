/** Union-find with path compression, as the merge engine uses it. */
module UnionFind {

  /** One element of a parent table: its pointer climbs in rank and keeps the representative. */
  ghost predicate NodeOk(parent: map<int, int>, rep: map<int, int>, rank: map<int, nat>, top: nat, x: int) {
    && x in parent && x in rep && x in rank && rank[x] <= top
    && parent[x] in parent && parent[x] in rep && parent[x] in rank
    && rep[parent[x]] == rep[x]
    && rep[x] in parent && parent[rep[x]] == rep[x]
    && (parent[x] == x ==> rep[x] == x)
    && (parent[x] != x ==> rank[x] < rank[parent[x]])
  }

  /**
  A parent table whose pointers climb strictly in rank, together with the representative each
  element must reach. Ranks exist only in the proof: the code has none.
  */
  ghost predicate Forest(parent: map<int, int>, rep: map<int, int>, rank: map<int, nat>, top: nat) {
    && rep.Keys == parent.Keys && rank.Keys == parent.Keys
    && forall x {:trigger NodeOk(parent, rep, rank, top, x)} :: x in parent ==> NodeOk(parent, rep, rank, top, x)
  }

  /** The element reached after following `n` parent pointers. */
  function Climb(parent: map<int, int>, x: int, n: nat): int
    decreases n
  {
    if n == 0 || x !in parent then x else Climb(parent, parent[x], n - 1)
  }

  /** `r` is the root of `x`: a fixed point that the pointers of `x` lead to. */
  ghost predicate IsRoot(parent: map<int, int>, x: int, r: int) {
    r in parent && parent[r] == r && exists n: nat :: Climb(parent, x, n) == r
  }

  lemma {:induction false} ClimbReachesRep(parent: map<int, int>, rep: map<int, int>, rank: map<int, nat>, top: nat,
                                           x: int)
    returns (n: nat)
    requires Forest(parent, rep, rank, top) && x in parent
    ensures Climb(parent, x, n) == rep[x]
    decreases top - rank[x]
  {
    assert NodeOk(parent, rep, rank, top, x);
    n := 0;
    if parent[x] != x {
      assert NodeOk(parent, rep, rank, top, parent[x]);
      var rest := ClimbReachesRep(parent, rep, rank, top, parent[x]);
      n := rest + 1;
    }
  }

  lemma {:induction false} ClimbKeepsRep(parent: map<int, int>, rep: map<int, int>, rank: map<int, nat>, top: nat,
                                         x: int, n: nat)
    requires Forest(parent, rep, rank, top) && x in parent
    ensures Climb(parent, x, n) in parent && rep[Climb(parent, x, n)] == rep[x]
    decreases n
  {
    assert NodeOk(parent, rep, rank, top, x);
    if n > 0 {
      ClimbKeepsRep(parent, rep, rank, top, parent[x], n - 1);
    }
  }

  /** The representative is the one root the pointers lead to. */
  lemma RepIsTheRoot(parent: map<int, int>, rep: map<int, int>, rank: map<int, nat>, top: nat, x: int, r: int)
    requires Forest(parent, rep, rank, top) && x in parent
    ensures IsRoot(parent, x, r) <==> r == rep[x]
  {
    var n := ClimbReachesRep(parent, rep, rank, top, x);
    assert NodeOk(parent, rep, rank, top, x);
    if IsRoot(parent, x, r) {
      var k: nat :| Climb(parent, x, k) == r;
      ClimbKeepsRep(parent, rep, rank, top, x, k);
      assert NodeOk(parent, rep, rank, top, r);
    }
  }

  ghost predicate SameRoots(p: map<int, int>, q: map<int, int>) {
    p.Keys == q.Keys && forall x, r :: x in p ==> (IsRoot(p, x, r) <==> IsRoot(q, x, r))
  }

  lemma SameRepSameRoots(p: map<int, int>, q: map<int, int>, rep: map<int, int>, rank: map<int, nat>, top: nat)
    requires Forest(p, rep, rank, top) && Forest(q, rep, rank, top)
    ensures SameRoots(p, q)
  {
    forall x, r | x in p ensures IsRoot(p, x, r) <==> IsRoot(q, x, r) {
      RepIsTheRoot(p, rep, rank, top, x, r);
      RepIsTheRoot(q, rep, rank, top, x, r);
    }
  }

  /** An element's representative ranks above it. */
  lemma {:induction false} RankClimbs(parent: map<int, int>, rep: map<int, int>, rank: map<int, nat>, top: nat, x: int)
    requires Forest(parent, rep, rank, top) && x in parent
    ensures x in rank && x in rep && rep[x] in rank
    ensures x != rep[x] ==> rank[x] < rank[rep[x]]
    decreases top - rank[x]
  {
    assert NodeOk(parent, rep, rank, top, x);
    if parent[x] != x {
      assert NodeOk(parent, rep, rank, top, parent[x]);
      RankClimbs(parent, rep, rank, top, parent[x]);
    }
  }

  /** Pointing an element straight at its root changes no representative. */
  lemma CompressKeepsForest(parent: map<int, int>, rep: map<int, int>, rank: map<int, nat>, top: nat, x: int)
    requires Forest(parent, rep, rank, top) && x in parent
    ensures Forest(parent[x := rep[x]], rep, rank, top)
  {
    RankClimbs(parent, rep, rank, top, x);
    var compressed := parent[x := rep[x]];
    assert NodeOk(parent, rep, rank, top, x);
    assert NodeOk(parent, rep, rank, top, rep[x]);
    forall y | y in compressed ensures NodeOk(compressed, rep, rank, top, y) {
      assert NodeOk(parent, rep, rank, top, y);
    }
  }

  ghost function Joined(rep: map<int, int>, ra: int, rb: int): map<int, int> {
    map x | x in rep :: if rep[x] == ra then rb else rep[x]
  }

  /** Hanging one root under another keeps the table a forest and joins their two classes. */
  lemma LinkKeepsForest(parent: map<int, int>, rep: map<int, int>, rank: map<int, nat>, top: nat, ra: int, rb: int)
    requires Forest(parent, rep, rank, top) && ra in parent && rb in parent && ra != rb
    requires parent[ra] == ra && parent[rb] == rb
    ensures Forest(parent[ra := rb], Joined(rep, ra, rb), rank[rb := top + 1], top + 1)
  {
    assert NodeOk(parent, rep, rank, top, ra) && NodeOk(parent, rep, rank, top, rb);
    var linked, joined, raised := parent[ra := rb], Joined(rep, ra, rb), rank[rb := top + 1];
    forall y | y in linked ensures NodeOk(linked, joined, raised, top + 1, y) {
      assert NodeOk(parent, rep, rank, top, y);
      assert NodeOk(parent, rep, rank, top, parent[y]);
    }
  }

  class UnionFind {
    var parent: map<int, int>
    ghost var rep: map<int, int>
    ghost var rank: map<int, nat>
    ghost var top: nat

    ghost predicate Valid()
      reads this
    {
      Forest(parent, rep, rank, top)
    }

    constructor (ids: seq<int>)
      ensures Valid() && parent == (map i | i in ids :: i) && rep == parent
    {
      parent := map i | i in ids :: i;
      rep := map i | i in ids :: i;
      rank := map i | i in ids :: 0;
      top := 0;
    }

    /** Returns the root, and whatever paths it compressed on the way, no element has another root than before. */
    method Find(x: int) returns (root: int)
      requires Valid() && x in parent
      modifies this`parent
      ensures Valid() && x in rep && root == rep[x] && root in parent && parent[root] == root
      ensures IsRoot(old(parent), x, root) && SameRoots(old(parent), parent)
      ensures x in parent && parent[x] == root
    {
      assert NodeOk(parent, rep, rank, top, x);
      root := x;
      while parent[root] != root
        invariant root in parent && root in rep && root in rank && rep[root] == rep[x]
        invariant NodeOk(parent, rep, rank, top, root)
        decreases top - rank[root]
      {
        root := parent[root];
        assert NodeOk(parent, rep, rank, top, root);
      }
      var at := x;
      while parent[at] != root
        invariant Valid() && NodeOk(parent, rep, rank, top, at)
        invariant rep[at] == root && root in parent && parent[root] == root
        invariant x in parent && (at == x || parent[x] == root)
        decreases top - rank[at]
      {
        var next := parent[at];
        assert NodeOk(parent, rep, rank, top, next);
        CompressKeepsForest(parent, rep, rank, top, at);
        parent := parent[at := root];
        assert NodeOk(parent, rep, rank, top, next);
        at := next;
      }
      SameRepSameRoots(old(parent), parent, rep, rank, top);
      RepIsTheRoot(old(parent), rep, rank, top, x, root);
    }

    /** The two classes become one; every other class stays. */
    method Union(a: int, b: int)
      requires Valid() && a in parent && b in parent
      modifies this
      ensures Valid() && a in old(rep) && b in old(rep)
      ensures rep == Joined(old(rep), old(rep)[a], old(rep)[b])
    {
      var ra := Find(a);
      var rb := Find(b);
      assert NodeOk(parent, rep, rank, top, ra);
      if ra != rb {
        LinkKeepsForest(parent, rep, rank, top, ra, rb);
        parent := parent[ra := rb];
        rep := Joined(rep, ra, rb);
        rank := rank[rb := top + 1];
        top := top + 1;
      } else {
        assert rep == Joined(rep, ra, rb);
      }
    }
  }
}

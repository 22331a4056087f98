/** Paths and connected components of an undirected graph given by its edge set. */
module Components {

  type Edges = set<(int, int)>

  predicate Adjacent(edges: Edges, a: int, b: int) {
    (a, b) in edges || (b, a) in edges
  }

  ghost predicate IsPath(edges: Edges, path: seq<int>, a: int, b: int) {
    && path != [] && path[0] == a && path[|path| - 1] == b
    && forall i :: 0 <= i < |path| - 1 ==> Adjacent(edges, path[i], path[i + 1])
  }

  ghost predicate Connected(edges: Edges, a: int, b: int) {
    exists path :: IsPath(edges, path, a, b)
  }

  lemma ConnectedReflexive(edges: Edges, a: int)
    ensures Connected(edges, a, a)
  {
    assert IsPath(edges, [a], a, a);
  }

  lemma ConnectedByEdge(edges: Edges, a: int, b: int)
    requires Adjacent(edges, a, b)
    ensures Connected(edges, a, b)
  {
    assert IsPath(edges, [a, b], a, b);
  }

  lemma ConnectedSymmetric(edges: Edges, a: int, b: int)
    requires Connected(edges, a, b)
    ensures Connected(edges, b, a)
  {
    var path :| IsPath(edges, path, a, b);
    var back := seq(|path|, i requires 0 <= i < |path| => path[|path| - 1 - i]);
    forall i | 0 <= i < |back| - 1 ensures Adjacent(edges, back[i], back[i + 1]) {
      assert Adjacent(edges, path[|path| - 2 - i], path[|path| - 2 - i + 1]);
    }
    assert IsPath(edges, back, b, a);
  }

  lemma ConnectedTransitive(edges: Edges, a: int, b: int, c: int)
    requires Connected(edges, a, b) && Connected(edges, b, c)
    ensures Connected(edges, a, c)
  {
    var p :| IsPath(edges, p, a, b);
    var q :| IsPath(edges, q, b, c);
    var joined := p + q[1..];
    forall i | 0 <= i < |joined| - 1 ensures Adjacent(edges, joined[i], joined[i + 1]) {
      if i < |p| - 1 {
        assert Adjacent(edges, p[i], p[i + 1]);
      } else {
        var k := i - (|p| - 1);
        assert joined[i] == q[k] && joined[i + 1] == q[k + 1];
        assert Adjacent(edges, q[k], q[k + 1]);
      }
    }
    assert joined[|joined| - 1] == c;
    assert IsPath(edges, joined, a, c);
  }

  lemma ConnectedHasEdge(edges: Edges, a: int, b: int)
    requires Connected(edges, a, b) && a != b
    ensures exists y :: Adjacent(edges, a, y)
  {
    var path :| IsPath(edges, path, a, b);
    assert Adjacent(edges, path[0], path[0 + 1]);
  }

  lemma ConnectedGrows(edges: Edges, more: Edges, a: int, b: int)
    requires edges <= more && Connected(edges, a, b)
    ensures Connected(more, a, b)
  {
    var path :| IsPath(edges, path, a, b);
    forall i | 0 <= i < |path| - 1 ensures Adjacent(more, path[i], path[i + 1]) {
      assert Adjacent(edges, path[i], path[i + 1]);
    }
    assert IsPath(more, path, a, b);
  }

  /** What every edge keeps, every path keeps: a marking equal along edges is equal along paths. */
  lemma {:induction false} LabelAlongPath<T>(edges: Edges, mark: map<int, T>, path: seq<int>, a: int, b: int)
    requires forall x, y :: (x, y) in edges ==> x in mark && y in mark && mark[x] == mark[y]
    requires IsPath(edges, path, a, b) && a in mark
    ensures b in mark && mark[a] == mark[b]
    decreases |path|
  {
    if |path| > 1 {
      assert Adjacent(edges, path[0], path[1]);
      forall i | 0 <= i < |path[1..]| - 1 ensures Adjacent(edges, path[1..][i], path[1..][i + 1]) {
        assert Adjacent(edges, path[i + 1], path[i + 1 + 1]);
      }
      LabelAlongPath(edges, mark, path[1..], path[1], b);
    }
  }

  lemma LabelAlongConnection<T>(edges: Edges, mark: map<int, T>, a: int, b: int)
    requires forall x, y :: (x, y) in edges ==> x in mark && y in mark && mark[x] == mark[y]
    requires Connected(edges, a, b) && a in mark
    ensures b in mark && mark[a] == mark[b]
  {
    var path :| IsPath(edges, path, a, b);
    LabelAlongPath(edges, mark, path, a, b);
  }

  /** The ids connected to `a`, in the order of `ids`. */
  ghost function Component(edges: Edges, ids: seq<int>, a: int): (members: seq<int>)
    ensures forall x :: x in members <==> x in ids && Connected(edges, a, x)
  {
    if ids == [] then []
    else
      var last := ids[|ids| - 1];
      Component(edges, ids[..|ids| - 1], a) + if Connected(edges, a, last) then [last] else []
  }
}

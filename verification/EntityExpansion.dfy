/**
The bounded two-hop walk from seed facts through shared entities.

The queries are what a reader lists of the tables, in order; a walk is a value that the rows extend
one by one, and the loops of the source are proved to compute it.
*/
module EntityExpansion {

  const HUB_DEGREE_LIMIT := 25
  const MAX_HOPS := 2
  const BATCH := 400

  type FactId = int
  type EntityId = int

  /**
  The tables the walk reads: which fact mentions which entity, which facts are eligible, the name
  tokens of an entity without generic title words, and the leading person tokens of a fact.
  */
  datatype Graph = Graph(
    mentions: set<Row>,
    eligible: set<FactId>,
    nameTokens: EntityId -> set<string>,
    subjectTokens: FactId -> set<string>)
  {
    predicate Mentions(f: FactId, e: EntityId) {
      (f, e) in mentions
    }

    function Degree(e: EntityId): nat {
      |set f | f in eligible && Mentions(f, e)|
    }

    predicate IsHub(e: EntityId) {
      Degree(e) > HUB_DEGREE_LIMIT
    }

    /** The subject test: the fact is about the entity it is reached through. */
    predicate About(e: EntityId, f: FactId) {
      && nameTokens(e) != {} && subjectTokens(f) != {}
      && (nameTokens(e) <= subjectTokens(f) || subjectTokens(f) <= nameTokens(e))
    }

    /**
    One hop from `h` to `f` through `e`: both eligible and both mention it, no more than 25 eligible
    facts do, and its name and the subject of `f` both have tokens, those of one among those of the other.
    */
    ghost predicate Via(h: FactId, e: EntityId, f: FactId) {
      && h in eligible && (h, e) in mentions && f in eligible && (f, e) in mentions
      && |set x | x in eligible && (x, e) in mentions| <= 25
      && (exists t :: t in nameTokens(e)) && (exists t :: t in subjectTokens(f))
      && ((forall t :: t in nameTokens(e) ==> t in subjectTokens(f))
          || (forall t :: t in subjectTokens(f) ==> t in nameTokens(e)))
    }

    ghost predicate Adjacent(h: FactId, f: FactId) {
      exists e :: Via(h, e, f)
    }

    /** The facts within `n` hops of the seeds. */
    ghost function Within(seeds: set<FactId>, n: nat): set<FactId> {
      if n == 0 then seeds
      else Within(seeds, n - 1) + set f | f in eligible && exists h :: h in Within(seeds, n - 1) && Adjacent(h, f)
    }

    /** The shortest distance from the seeds. */
    ghost predicate AtDistance(seeds: set<FactId>, f: FactId, n: nat) {
      f in Within(seeds, n) && (n > 0 ==> f !in Within(seeds, n - 1))
    }
  }

  lemma ViaIff(g: Graph, h: FactId, e: EntityId, f: FactId)
    ensures g.Via(h, e, f) <==>
      h in g.eligible && g.Mentions(h, e) && !g.IsHub(e) && f in g.eligible && g.Mentions(f, e) && g.About(e, f)
  {
    assert (set x | x in g.eligible && g.Mentions(x, e)) == set x | x in g.eligible && (x, e) in g.mentions;
  }

  type Row = (FactId, EntityId)

  /** The database: lists a set of ids, and the eligible rows that mention given entities, in ascending order. */
  datatype Reader = Reader(list: set<EntityId> -> seq<EntityId>, rows: set<EntityId> -> seq<Row>)

  predicate Distinct<T(==)>(items: seq<T>) {
    forall i, j :: 0 <= i < j < |items| ==> items[i] != items[j]
  }

  /** `ORDER BY fact_id, entity_id`. */
  predicate RowLess(a: Row, b: Row) {
    a.0 < b.0 || (a.0 == b.0 && a.1 < b.1)
  }

  predicate Ascending<T>(items: seq<T>, less: (T, T) -> bool) {
    forall i, j :: 0 <= i < j < |items| ==> less(items[i], items[j])
  }

  predicate IntLess(a: int, b: int) {
    a < b
  }

  /** What is listed for one set of entities. */
  ghost predicate ReadsAt(g: Graph, r: Reader, s: set<EntityId>) {
    && (forall e :: e in r.list(s) <==> e in s)
    && (forall row :: row in r.rows(s) <==> row in RowsOf(g, s))
    && Ascending(r.list(s), IntLess) && Ascending(r.rows(s), RowLess)
  }

  ghost predicate Reads(g: Graph, r: Reader) {
    forall s {:trigger ReadsAt(g, r, s)} :: ReadsAt(g, r, s)
  }

  /** The rows in order, from the last to the first. */
  ghost function SortedRows(rows: set<Row>): (s: seq<Row>)
    ensures Ascending(s, RowLess) && forall row :: row in s <==> row in rows
  {
    if rows == {} then []
    else
      LastRowExists(rows);
      var last :| last in rows && forall row :: row in rows && row != last ==> RowLess(row, last);
      var init := SortedRows(rows - {last});
      assert forall i :: 0 <= i < |init| ==> init[i] in init;
      init + [last]
  }

  lemma {:induction false} LastRowExists(rows: set<Row>)
    requires rows != {}
    ensures exists last :: last in rows && forall row :: row in rows && row != last ==> RowLess(row, last)
  {
    var any :| any in rows;
    var rest := rows - {any};
    assert forall row :: row in rows ==> row == any || row in rest;
    if rest != {} {
      LastRowExists(rest);
      var top :| top in rest && forall row :: row in rest && row != top ==> RowLess(row, top);
      var last := if RowLess(any, top) then top else any;
      assert forall row :: row in rows && row != last ==> RowLess(row, last);
    } else {
      assert forall row :: row in rows && row != any ==> row in rest;
    }
  }

  ghost function Firsts(rows: seq<Row>): seq<int> {
    seq(|rows|, i requires 0 <= i < |rows| => rows[i].0)
  }

  lemma FirstsAscend(rows: seq<Row>)
    requires Ascending(rows, RowLess) && forall i :: 0 <= i < |rows| ==> rows[i].1 == 0
    ensures Ascending(Firsts(rows), IntLess)
  {
  }

  lemma FirstsHold(rows: seq<Row>, id: int)
    requires forall i :: 0 <= i < |rows| ==> rows[i].1 == 0
    ensures id in Firsts(rows) <==> (id, 0) in rows
  {
    if (id, 0) in rows {
      var i :| 0 <= i < |rows| && rows[i] == (id, 0);
      assert Firsts(rows)[i] == id;
    }
    if id in Firsts(rows) {
      var i :| 0 <= i < |rows| && Firsts(rows)[i] == id;
      assert rows[i] == (id, 0);
    }
  }

  ghost function SortedIds(ids: set<int>): (s: seq<int>)
    ensures Ascending(s, IntLess) && forall id :: id in s <==> id in ids
  {
    var rows := SortedRows(set id | id in ids :: (id, 0));
    assert forall i :: 0 <= i < |rows| ==> rows[i] in rows;
    FirstsAscend(rows);
    assert forall id :: id in Firsts(rows) <==> id in ids by {
      forall id ensures id in Firsts(rows) <==> id in ids {
        FirstsHold(rows, id);
      }
    }
    Firsts(rows)
  }

  /** Every graph can be listed that way. */
  lemma ReaderExists(g: Graph)
    ensures exists r :: Reads(g, r)
  {
    var r := Reader(s => SortedIds(s), s => SortedRows(RowsOf(g, s)));
    forall s ensures ReadsAt(g, r, s) {
    }
    assert Reads(g, r);
  }

  lemma {:induction false} AscendingIsUnique<T(!new)>(a: seq<T>, b: seq<T>, less: (T, T) -> bool)
    requires Ascending(a, less) && Ascending(b, less) && (forall x, y :: less(x, y) ==> !less(y, x))
    requires forall x :: x in a <==> x in b
    ensures a == b
    decreases |a|
  {
    assert b == [] || b[0] in a;
    if a != [] {
      var n, m := |a| - 1, |b| - 1;
      assert a[n] in a && a[n] in b;
      assert b[m] in b && b[m] in a;
      assert forall h :: 0 <= h < m ==> less(b[h], b[m]);
      assert forall h :: 0 <= h < n ==> less(a[h], a[n]);
      assert a[n] == b[m];
      LastApart(a, less);
      LastApart(b, less);
      forall x ensures x in a[..n] <==> x in b[..m] {
        assert x in a <==> x in b;
      }
      AscendingIsUnique(a[..n], b[..m], less);
    }
  }

  lemma LastApart<T(!new)>(a: seq<T>, less: (T, T) -> bool)
    requires a != [] && Ascending(a, less) && (forall x, y :: less(x, y) ==> !less(y, x))
    ensures forall x :: x in a[..|a| - 1] <==> x in a && x != a[|a| - 1]
  {
    var n := |a| - 1;
    assert a == a[..n] + [a[n]];
    assert forall i :: 0 <= i < n ==> less(a[i], a[n]);
  }

  /** The graph determines what the database lists, and in which order. */
  lemma ReaderIsUnique(g: Graph, a: Reader, b: Reader, s: set<EntityId>)
    requires Reads(g, a) && Reads(g, b)
    ensures a.list(s) == b.list(s) && a.rows(s) == b.rows(s)
  {
    assert ReadsAt(g, a, s) && ReadsAt(g, b, s);
    forall e ensures e in a.list(s) <==> e in b.list(s) {
    }
    AscendingIsUnique(a.list(s), b.list(s), IntLess);
    forall row ensures row in a.rows(s) <==> row in b.rows(s) {
    }
    AscendingIsUnique(a.rows(s), b.rows(s), RowLess);
  }

  /** The eligible rows that mention the given entities. */
  ghost function RowsOf(g: Graph, entities: set<EntityId>): set<Row> {
    set m | m in g.mentions && m.0 in g.eligible && m.1 in entities
  }

  lemma {:induction false} DistinctSize<T>(items: seq<T>)
    requires Distinct(items)
    ensures |set x | x in items| == |items|
  {
    if items != [] {
      var last, init := items[|items| - 1], items[..|items| - 1];
      DistinctSize(init);
      assert last !in init;
      assert (set x | x in items) == (set x | x in init) + {last};
    }
  }

  /** A query without a limit returns each row once. */
  lemma RowCount(g: Graph, r: Reader, entities: set<EntityId>)
    requires Reads(g, r)
    ensures |r.rows(entities)| == |RowsOf(g, entities)|
  {
    assert ReadsAt(g, r, entities);
    DistinctSize(r.rows(entities));
    assert (set row | row in r.rows(entities)) == RowsOf(g, entities);
  }

  lemma RowsOfUnion(g: Graph, a: set<EntityId>, b: set<EntityId>)
    requires a !! b
    ensures |RowsOf(g, a + b)| == |RowsOf(g, a)| + |RowsOf(g, b)|
  {
    assert RowsOf(g, a + b) == RowsOf(g, a) + RowsOf(g, b);
  }

  datatype Hit = Hit(fact: FactId, via: EntityId, hop: nat)

  /** The walk's variables. */
  datatype Walk = Walk(visited: set<FactId>, next: set<FactId>, expanded: seq<Hit>, loaded: nat)

  /** The entity of the hit leads to it from a fact one hop nearer to the seeds. */
  ghost predicate LedTo(g: Graph, seeds: set<FactId>, hit: Hit) {
    hit.hop >= 1 && exists h :: h in g.Within(seeds, hit.hop - 1) && g.Via(h, hit.via, hit.fact)
  }

  /** The hit is eligible, new, not excluded, at its shortest distance, and names the entity it was reached through. */
  ghost predicate HitOk(g: Graph, seeds: set<FactId>, excluded: set<FactId>, hit: Hit) {
    && hit.fact in g.eligible && hit.fact !in seeds && hit.fact !in excluded
    && 1 <= hit.hop <= MAX_HOPS && g.AtDistance(seeds, hit.fact, hit.hop)
    && LedTo(g, seeds, hit)
  }

  /** No fact is listed twice. */
  ghost predicate HitsOk(g: Graph, seeds: set<FactId>, excluded: set<FactId>, hits: seq<Hit>) {
    && (forall i :: 0 <= i < |hits| ==> HitOk(g, seeds, excluded, hits[i]))
    && (forall i, j :: 0 <= i < j < |hits| ==> hits[i].fact != hits[j].fact)
  }

  ghost predicate Listed(hits: seq<Hit>, f: FactId) {
    exists i :: 0 <= i < |hits| && hits[i].fact == f
  }

  /** The hits are the visited facts that are neither seeds nor excluded. */
  ghost predicate ListsVisited(seeds: set<FactId>, excluded: set<FactId>, w: Walk) {
    && (forall i :: 0 <= i < |w.expanded| ==> w.expanded[i].fact in w.visited)
    && (forall f :: f in w.visited && f !in seeds && f !in excluded ==> Listed(w.expanded, f))
  }

  /** The walk between the facts already reached and those within one more hop. */
  ghost predicate Between(w: Walk, base: set<FactId>, reach: set<FactId>) {
    base <= w.visited <= reach && w.next == w.visited - base
  }

  /** During hop `n`. */
  ghost predicate WalkOk(g: Graph, seeds: set<FactId>, excluded: set<FactId>, w: Walk, n: nat) {
    && 1 <= n <= MAX_HOPS
    && Between(w, g.Within(seeds, n - 1), g.Within(seeds, n))
    && HitsOk(g, seeds, excluded, w.expanded)
    && ListsVisited(seeds, excluded, w)
  }

  lemma {:induction false} SeedsWithin(g: Graph, seeds: set<FactId>, n: nat)
    ensures seeds <= g.Within(seeds, n)
  {
    if n > 0 {
      SeedsWithin(g, seeds, n - 1);
    }
  }

  /** The body of the row loop. */
  function Visit(g: Graph, excluded: set<FactId>, w: Walk, row: Row, n: nat): Walk {
    var (f, e) := row;
    if f in w.visited || !g.About(e, f) then w
    else
      var seen := w.(visited := w.visited + {f}, next := w.next + {f});
      if f in excluded then seen else seen.(expanded := w.expanded + [Hit(f, e, n)])
  }

  lemma ListedMore(hits: seq<Hit>, more: Hit, f: FactId)
    requires Listed(hits, f) || more.fact == f
    ensures Listed(hits + [more], f)
  {
    if more.fact == f {
      assert (hits + [more])[|hits|].fact == f;
    } else {
      var i :| 0 <= i < |hits| && hits[i].fact == f;
      assert (hits + [more])[i].fact == f;
    }
  }

  lemma VisitListsVisited(g: Graph, seeds: set<FactId>, excluded: set<FactId>, w: Walk, row: Row, n: nat)
    requires ListsVisited(seeds, excluded, w)
    ensures ListsVisited(seeds, excluded, Visit(g, excluded, w, row, n))
  {
    var v := Visit(g, excluded, w, row, n);
    if v.expanded != w.expanded {
      forall x | x in v.visited && x !in seeds && x !in excluded ensures Listed(v.expanded, x) {
        ListedMore(w.expanded, Hit(row.0, row.1, n), x);
      }
    }
  }

  lemma VisitKeepsHits(g: Graph, seeds: set<FactId>, excluded: set<FactId>, w: Walk, row: Row, n: nat)
    requires HitsOk(g, seeds, excluded, w.expanded) && ListsVisited(seeds, excluded, w)
    requires row.0 !in w.visited && row.0 !in excluded ==>
      HitOk(g, seeds, excluded, Hit(row.0, row.1, n)) || !g.About(row.1, row.0)
    ensures HitsOk(g, seeds, excluded, Visit(g, excluded, w, row, n).expanded)
  {
  }

  /** A row reached from the facts within `n - 1` hops leads to a fact within `n`. */
  lemma RowIsWithin(g: Graph, seeds: set<FactId>, row: Row, n: nat, h: FactId)
    requires n >= 1 && g.Mentions(row.0, row.1) && row.0 in g.eligible && !g.IsHub(row.1)
    requires h in g.Within(seeds, n - 1) && h in g.eligible && g.Mentions(h, row.1)
    ensures g.About(row.1, row.0) ==> row.0 in g.Within(seeds, n) && g.Via(h, row.1, row.0)
  {
    ViaIff(g, h, row.1, row.0);
    if g.About(row.1, row.0) {
      assert g.Adjacent(h, row.0);
    }
  }

  /** A row reached from the frontier extends the walk by a fact at the current distance. */
  lemma VisitKeepsWalk(g: Graph, seeds: set<FactId>, excluded: set<FactId>, w: Walk, row: Row, n: nat, h: FactId)
    requires WalkOk(g, seeds, excluded, w, n)
    requires g.Mentions(row.0, row.1) && row.0 in g.eligible && !g.IsHub(row.1)
    requires h in g.Within(seeds, n - 1) && h in g.eligible && g.Mentions(h, row.1)
    ensures WalkOk(g, seeds, excluded, Visit(g, excluded, w, row, n), n)
  {
    RowIsWithin(g, seeds, row, n, h);
    SeedsWithin(g, seeds, n - 1);
    assert g.About(row.1, row.0) ==> LedTo(g, seeds, Hit(row.0, row.1, n));
    VisitListsVisited(g, seeds, excluded, w, row, n);
    VisitKeepsHits(g, seeds, excluded, w, row, n);
  }

  // ------------------------------------------------------------------
  // One hop
  // ------------------------------------------------------------------

  /** The entities the frontier mentions, hubs left out. */
  function Expandable(g: Graph, frontier: set<FactId>): set<EntityId> {
    set m | m in g.mentions && m.0 in frontier && m.0 in g.eligible && !g.IsHub(m.1) :: m.1
  }

  /** The row mentions an entity through which the frontier leads. */
  ghost predicate Reached(g: Graph, base: set<FactId>, row: Row) {
    && g.Mentions(row.0, row.1) && row.0 in g.eligible && !g.IsHub(row.1)
    && exists h :: h in base && h in g.eligible && g.Mentions(h, row.1)
  }

  lemma VisitReached(g: Graph, seeds: set<FactId>, excluded: set<FactId>, w: Walk, row: Row, n: nat)
    requires WalkOk(g, seeds, excluded, w, n) && Reached(g, g.Within(seeds, n - 1), row)
    ensures var v := Visit(g, excluded, w, row, n);
      && WalkOk(g, seeds, excluded, v, n) && v.loaded == w.loaded && w.visited <= v.visited
      && (g.About(row.1, row.0) ==> row.0 in v.visited)
  {
    var h :| h in g.Within(seeds, n - 1) && h in g.eligible && g.Mentions(h, row.1);
    VisitKeepsWalk(g, seeds, excluded, w, row, n, h);
  }

  /** Every row of the list that passes the subject test leads to a visited fact. */
  ghost predicate RowsVisited(g: Graph, rows: seq<Row>, visited: set<FactId>) {
    forall i :: 0 <= i < |rows| && g.About(rows[i].1, rows[i].0) ==> rows[i].0 in visited
  }

  /** The rows are visited in turn, until the result is full. */
  function VisitAll(g: Graph, excluded: set<FactId>, w: Walk, rows: seq<Row>, n: nat, limit: int): (Walk, bool)
    decreases |rows|
  {
    if rows == [] then (w, false)
    else
      var v := Visit(g, excluded, w, rows[0], n);
      if |v.expanded| > |w.expanded| && |v.expanded| >= limit then (v, true)
      else VisitAll(g, excluded, v, rows[1..], n, limit)
  }

  /** What visiting rows does to a walk: unless the result is full, every row is followed. */
  ghost predicate VisitDone(g: Graph, seeds: set<FactId>, excluded: set<FactId>, w: Walk, v: Walk, full: bool,
                            rows: seq<Row>, n: nat, limit: int)
  {
    && WalkOk(g, seeds, excluded, v, n) && v.loaded == w.loaded && w.visited <= v.visited
    && (!full ==> RowsVisited(g, rows, v.visited)) && (full ==> |v.expanded| >= limit)
    && |v.expanded| <= |w.expanded| + |rows|
  }

  lemma {:induction false} VisitAllKeepsWalk(g: Graph, seeds: set<FactId>, excluded: set<FactId>, w: Walk,
                                             rows: seq<Row>, n: nat, limit: int)
    requires WalkOk(g, seeds, excluded, w, n)
    requires forall i :: 0 <= i < |rows| ==> Reached(g, g.Within(seeds, n - 1), rows[i])
    ensures var (v, full) := VisitAll(g, excluded, w, rows, n, limit);
      VisitDone(g, seeds, excluded, w, v, full, rows, n, limit)
    decreases |rows|
  {
    if rows != [] {
      VisitReached(g, seeds, excluded, w, rows[0], n);
      VisitAllKeepsWalk(g, seeds, excluded, Visit(g, excluded, w, rows[0], n), rows[1..], n, limit);
    }
  }

  /** The row loop: visit the loaded rows until the result is full. */
  method VisitRows(g: Graph, excluded: set<FactId>, w: Walk, rows: seq<Row>, n: nat, limit: int)
    returns (v: Walk, full: bool)
    ensures (v, full) == VisitAll(g, excluded, w, rows, n, limit)
  {
    v := w;
    assert rows[0..] == rows;
    for k := 0 to |rows|
      invariant VisitAll(g, excluded, w, rows, n, limit) == VisitAll(g, excluded, v, rows[k..], n, limit)
    {
      assert rows[k..][0] == rows[k] && rows[k..][1..] == rows[k + 1..];
      var before := |v.expanded|;
      v := Visit(g, excluded, v, rows[k], n);
      if |v.expanded| > before && |v.expanded| >= limit {
        return v, true;
      }
    }
    full := false;
  }

  lemma ListedEntities(g: Graph, r: Reader, s: set<EntityId>)
    requires Reads(g, r)
    ensures Distinct(r.list(s)) && s == set e | e in r.list(s)
  {
    assert ReadsAt(g, r, s);
    forall e ensures e in s <==> e in r.list(s) {
    }
  }

  /** Every eligible row of the given entities that passes the subject test leads to a visited fact. */
  ghost predicate Exhausts(g: Graph, entities: set<EntityId>, visited: set<FactId>) {
    forall f, e :: e in entities && g.Mentions(f, e) && f in g.eligible && g.About(e, f) ==> f in visited
  }

  lemma ReachedThrough(g: Graph, base: set<FactId>, frontier: set<FactId>, row: Row)
    requires frontier <= base && row.1 in Expandable(g, frontier) && g.Mentions(row.0, row.1) && row.0 in g.eligible
    ensures Reached(g, base, row)
  {
    var m :| m in g.mentions && m.0 in frontier && m.0 in g.eligible && !g.IsHub(m.1) && m.1 == row.1;
    assert m == (m.0, m.1) && g.Mentions(m.0, row.1);
  }

  /** When every row of the frontier's entities was visited, the hop reached everything within one more hop. */
  lemma HopIsComplete(g: Graph, seeds: set<FactId>, n: nat, frontier: set<FactId>, visited: set<FactId>)
    requires n >= 1 && g.Within(seeds, n - 1) <= visited <= g.Within(seeds, n)
    requires frontier == g.Within(seeds, n - 1) - if n == 1 then {} else g.Within(seeds, n - 2)
    requires Exhausts(g, Expandable(g, frontier), visited)
    ensures visited == g.Within(seeds, n)
  {
    forall f | f in g.Within(seeds, n) ensures f in visited {
      if f !in g.Within(seeds, n - 1) {
        var h :| h in g.Within(seeds, n - 1) && g.Adjacent(h, f);
        var e :| g.Via(h, e, f);
        ViaIff(g, h, e, f);
        assert h in frontier;
        var m := (h, e);
        assert m in g.mentions && m.0 == h && m.1 == e;
        assert e in Expandable(g, frontier);
      }
    }
  }

  /** How many rows the hop from a frontier loads when nothing stops it. */
  ghost function HopRows(g: Graph, frontier: set<FactId>): nat {
    |RowsOf(g, Expandable(g, frontier))|
  }

  lemma BatchIsExhausted(g: Graph, r: Reader, batch: set<EntityId>, visited: set<FactId>)
    requires Reads(g, r) && RowsVisited(g, r.rows(batch), visited)
    ensures Exhausts(g, batch, visited)
  {
    assert ReadsAt(g, r, batch);
    forall f, e | e in batch && g.Mentions(f, e) && f in g.eligible && g.About(e, f) ensures f in visited {
      assert (f, e) in RowsOf(g, batch) && (f, e) in r.rows(batch);
    }
  }

  /** What a batch query returns: the first rows, as many as may still be loaded. */
  function Loaded(r: Reader, batch: set<EntityId>, w: Walk, limit: int): seq<Row> {
    var all, remaining := r.rows(batch), limit - w.loaded;
    if |all| <= remaining then all else if remaining <= 0 then [] else all[..remaining]
  }

  /** One batch is loaded and its rows visited. */
  function LoadOne(g: Graph, r: Reader, excluded: set<FactId>, w: Walk, batch: set<EntityId>, n: nat,
                   limit: int): (Walk, bool)
  {
    var rows := Loaded(r, batch, w, limit);
    VisitAll(g, excluded, w.(loaded := w.loaded + |rows|), rows, n, limit)
  }

  /** The batches of a hop are loaded in turn, until the row limit or the result limit is reached. */
  function LoadAll(g: Graph, r: Reader, excluded: set<FactId>, w: Walk, entities: seq<EntityId>, n: nat,
                   limit: int): (Walk, bool)
    decreases |entities|
  {
    if entities == [] then (w, false)
    else if w.loaded >= limit then (w, true)
    else
      var end := if BATCH < |entities| then BATCH else |entities|;
      var (v, full) := LoadOne(g, r, excluded, w, Elements(entities[..end]), n, limit);
      if full then (v, true) else LoadAll(g, r, excluded, v, entities[end..], n, limit)
  }

  /** No more is loaded than the limit allows, and no more is listed than is loaded. */
  predicate WithinLimit(w: Walk, limit: int) {
    |w.expanded| <= w.loaded && (w.loaded > 0 ==> w.loaded <= limit)
  }

  function Elements(entities: seq<EntityId>): set<EntityId> {
    set e | e in entities
  }

  /**
  What loading the rows of some entities does to a walk. If those rows stay below the limit, exactly
  they are loaded and nothing stops; unless a limit is reached, everything they lead to is visited.
  */
  ghost predicate LoadDone(g: Graph, seeds: set<FactId>, excluded: set<FactId>, w: Walk, v: Walk, stopped: bool, n: nat,
                           limit: int, entities: set<EntityId>)
  {
    && WalkOk(g, seeds, excluded, v, n) && w.visited <= v.visited && w.loaded <= v.loaded && WithinLimit(v, limit)
    && (!stopped && v.loaded < limit ==> Exhausts(g, entities, v.visited))
    && (w.loaded + |RowsOf(g, entities)| < limit ==> !stopped && v.loaded == w.loaded + |RowsOf(g, entities)|)
  }

  /** The rows are what a batch query returns: its first rows, and all of them below the limit. */
  ghost predicate FirstRows(g: Graph, r: Reader, w: Walk, limit: int, batch: set<EntityId>, rows: seq<Row>) {
    && w.loaded + |rows| <= limit && (w.loaded + |rows| < limit ==> rows == r.rows(batch))
    && (w.loaded + |RowsOf(g, batch)| < limit ==> |rows| == |RowsOf(g, batch)|)
  }

  lemma LoadedRows(g: Graph, r: Reader, base: set<FactId>, w: Walk, limit: int, frontier: set<FactId>,
                   batch: set<EntityId>)
    requires Reads(g, r) && frontier <= base && batch <= Expandable(g, frontier) && w.loaded < limit
    ensures var rows := Loaded(r, batch, w, limit);
      FirstRows(g, r, w, limit, batch, rows) && forall i :: 0 <= i < |rows| ==> Reached(g, base, rows[i])
  {
    var rows, all := Loaded(r, batch, w, limit), r.rows(batch);
    assert ReadsAt(g, r, batch);
    RowCount(g, r, batch);
    forall i | 0 <= i < |rows| ensures Reached(g, base, rows[i]) {
      assert rows[i] in all && rows[i] == (rows[i].0, rows[i].1) && rows[i].1 in batch;
      ReachedThrough(g, base, frontier, rows[i]);
    }
  }

  lemma VisitsAreLoad(g: Graph, r: Reader, seeds: set<FactId>, excluded: set<FactId>, w: Walk, v: Walk, full: bool,
                      rows: seq<Row>, n: nat, limit: int, batch: set<EntityId>)
    requires Reads(g, r) && WithinLimit(w, limit) && FirstRows(g, r, w, limit, batch, rows)
    ensures VisitDone(g, seeds, excluded, w.(loaded := w.loaded + |rows|), v, full, rows, n, limit) ==>
      LoadDone(g, seeds, excluded, w, v, full, n, limit, batch)
  {
    if VisitDone(g, seeds, excluded, w.(loaded := w.loaded + |rows|), v, full, rows, n, limit) && !full
      && v.loaded < limit {
      BatchIsExhausted(g, r, batch, v.visited);
    }
  }

  /** The rows of one batch are visited. */
  lemma RowsKeepWalk(g: Graph, seeds: set<FactId>, excluded: set<FactId>, w: Walk, v: Walk, full: bool, rows: seq<Row>,
                     n: nat, limit: int)
    requires n >= 1 && (v, full) == VisitAll(g, excluded, w.(loaded := w.loaded + |rows|), rows, n, limit)
    requires forall i :: 0 <= i < |rows| ==> Reached(g, g.Within(seeds, n - 1), rows[i])
    ensures WalkOk(g, seeds, excluded, w, n) ==>
      VisitDone(g, seeds, excluded, w.(loaded := w.loaded + |rows|), v, full, rows, n, limit)
  {
    if WalkOk(g, seeds, excluded, w, n) {
      VisitAllKeepsWalk(g, seeds, excluded, w.(loaded := w.loaded + |rows|), rows, n, limit);
    }
  }

  /** One batch. */
  lemma BatchKeepsWalk(g: Graph, r: Reader, seeds: set<FactId>, excluded: set<FactId>, w: Walk, v: Walk, full: bool,
                       n: nat, limit: int, frontier: set<FactId>, batch: set<EntityId>)
    requires Reads(g, r) && n >= 1 && frontier <= g.Within(seeds, n - 1)
    requires batch <= Expandable(g, frontier) && w.loaded < limit && WithinLimit(w, limit)
    requires (v, full) == LoadOne(g, r, excluded, w, batch, n, limit)
    ensures WalkOk(g, seeds, excluded, w, n) ==> LoadDone(g, seeds, excluded, w, v, full, n, limit, batch)
  {
    var rows := Loaded(r, batch, w, limit);
    LoadedRows(g, r, g.Within(seeds, n - 1), w, limit, frontier, batch);
    RowsKeepWalk(g, seeds, excluded, w, v, full, rows, n, limit);
    VisitsAreLoad(g, r, seeds, excluded, w, v, full, rows, n, limit, batch);
  }

  lemma LoadDoneTwice(g: Graph, seeds: set<FactId>, excluded: set<FactId>, w: Walk, v: Walk, u: Walk, stopped: bool,
                      n: nat, limit: int, batch: set<EntityId>, rest: set<EntityId>)
    requires LoadDone(g, seeds, excluded, w, v, false, n, limit, batch)
      && LoadDone(g, seeds, excluded, v, u, stopped, n, limit, rest)
    requires |RowsOf(g, batch + rest)| == |RowsOf(g, batch)| + |RowsOf(g, rest)|
    ensures LoadDone(g, seeds, excluded, w, u, stopped, n, limit, batch + rest)
  {
  }

  lemma LoadDoneStops(g: Graph, seeds: set<FactId>, excluded: set<FactId>, w: Walk, v: Walk, n: nat, limit: int,
                      batch: set<EntityId>, rest: set<EntityId>)
    requires LoadDone(g, seeds, excluded, w, v, true, n, limit, batch)
    requires |RowsOf(g, batch + rest)| == |RowsOf(g, batch)| + |RowsOf(g, rest)|
    ensures LoadDone(g, seeds, excluded, w, v, true, n, limit, batch + rest)
  {
  }

  /** The entities split into a first batch and the rest. */
  lemma SplitEntities(g: Graph, entities: seq<EntityId>, end: nat)
    requires Distinct(entities) && end <= |entities|
    ensures Elements(entities) == Elements(entities[..end]) + Elements(entities[end..]) && Distinct(entities[end..])
    ensures |RowsOf(g, Elements(entities))|
      == |RowsOf(g, Elements(entities[..end]))| + |RowsOf(g, Elements(entities[end..]))|
  {
    assert entities == entities[..end] + entities[end..];
    RowsOfUnion(g, Elements(entities[..end]), Elements(entities[end..]));
  }

  /** The batches of a hop, or of the rest of one. */
  lemma {:induction false} LoadKeepsWalk(g: Graph, r: Reader, seeds: set<FactId>, excluded: set<FactId>, w: Walk,
                                         entities: seq<EntityId>, n: nat, limit: int, frontier: set<FactId>)
    requires Reads(g, r) && WalkOk(g, seeds, excluded, w, n) && frontier <= g.Within(seeds, n - 1)
      && WithinLimit(w, limit)
    requires Distinct(entities) && Elements(entities) <= Expandable(g, frontier)
    ensures var (v, stopped) := LoadAll(g, r, excluded, w, entities, n, limit);
      LoadDone(g, seeds, excluded, w, v, stopped, n, limit, Elements(entities))
    decreases |entities|
  {
    if entities == [] {
      assert RowsOf(g, Elements(entities)) == {};
    } else if w.loaded < limit {
      var end := if BATCH < |entities| then BATCH else |entities|;
      var batch, rest := Elements(entities[..end]), entities[end..];
      SplitEntities(g, entities, end);
      var (v, full) := LoadOne(g, r, excluded, w, batch, n, limit);
      BatchKeepsWalk(g, r, seeds, excluded, w, v, full, n, limit, frontier, batch);
      assert entities[0..] == entities && entities[0..end] == entities[..end];
      NextBatch(g, r, excluded, w, entities, 0, end, n, limit);
      if full {
        LoadDoneStops(g, seeds, excluded, w, v, n, limit, batch, Elements(rest));
      } else {
        var (u, stopped) := LoadAll(g, r, excluded, v, rest, n, limit);
        LoadKeepsWalk(g, r, seeds, excluded, v, rest, n, limit, frontier);
        LoadDoneTwice(g, seeds, excluded, w, v, u, stopped, n, limit, batch, Elements(rest));
      }
    }
  }

  /** The batches from `offset` on: the next one, and then those behind it. */
  lemma NextBatch(g: Graph, r: Reader, excluded: set<FactId>, w: Walk, expandable: seq<EntityId>, offset: nat, end: nat,
                  n: nat, limit: int)
    requires offset < |expandable| && end == if offset + BATCH < |expandable| then offset + BATCH else |expandable|
    ensures LoadAll(g, r, excluded, w, expandable[offset..], n, limit)
      == if w.loaded >= limit then (w, true)
         else
           var (v, full) := LoadOne(g, r, excluded, w, Elements(expandable[offset..end]), n, limit);
           if full then (v, true) else LoadAll(g, r, excluded, v, expandable[end..], n, limit)
  {
    var rest := expandable[offset..];
    assert rest[..end - offset] == expandable[offset..end] && rest[end - offset..] == expandable[end..];
  }

  /** One batch query with its row limit, and the loop over its rows; `full` is a return on a full result. */
  method LoadBatch(g: Graph, r: Reader, excluded: set<FactId>, w: Walk, batch: set<EntityId>, n: nat, limit: int)
    returns (v: Walk, full: bool)
    requires w.loaded < limit
    ensures (v, full) == LoadOne(g, r, excluded, w, batch, n, limit)
  {
    var all, remaining := r.rows(batch), limit - w.loaded;
    var rows := if |all| <= remaining then all else all[..remaining];
    v, full := VisitRows(g, excluded, w.(loaded := w.loaded + |rows|), rows, n, limit);
  }

  /** The batch loop of one hop; `stopped` is a return from the middle of the walk. */
  method LoadBatches(g: Graph, r: Reader, excluded: set<FactId>, w: Walk, n: nat, limit: int, frontier: set<FactId>)
    returns (v: Walk, stopped: bool)
    ensures (v, stopped) == LoadAll(g, r, excluded, w, r.list(Expandable(g, frontier)), n, limit)
  {
    v := w;
    var expandable := r.list(Expandable(g, frontier));
    var offset := 0;
    assert expandable[0..] == expandable;
    while offset < |expandable|
      invariant 0 <= offset <= |expandable|
      invariant LoadAll(g, r, excluded, w, expandable, n, limit)
        == LoadAll(g, r, excluded, v, expandable[offset..], n, limit)
      decreases |expandable| - offset
    {
      var end := if offset + BATCH < |expandable| then offset + BATCH else |expandable|;
      NextBatch(g, r, excluded, v, expandable, offset, end, n, limit);
      if limit - v.loaded <= 0 {
        return v, true;
      }
      var full;
      v, full := LoadBatch(g, r, excluded, v, Elements(expandable[offset..end]), n, limit);
      if full {
        return v, true;
      }
      offset := end;
    }
    stopped := false;
  }

  // ------------------------------------------------------------------
  // The whole walk
  // ------------------------------------------------------------------

  /** Between hops: everything within `n` hops is visited, and the frontier is what the last hop added. */
  ghost predicate Settled(g: Graph, seeds: set<FactId>, excluded: set<FactId>, w: Walk, n: nat) {
    && w.visited == g.Within(seeds, n)
    && w.next == (if n == 0 then seeds else g.Within(seeds, n) - g.Within(seeds, n - 1))
    && HitsOk(g, seeds, excluded, w.expanded) && ListsVisited(seeds, excluded, w)
  }

  lemma {:induction false} WithinStops(g: Graph, seeds: set<FactId>, n: nat, m: nat)
    requires 1 <= n <= m && g.Within(seeds, n) == g.Within(seeds, n - 1)
    ensures g.Within(seeds, m) == g.Within(seeds, n)
    decreases m - n
  {
    if n < m {
      assert g.Within(seeds, n + 1) == g.Within(seeds, n);
      WithinStops(g, seeds, n + 1, m);
    }
  }

  /** The facts first reached by hop `n`. */
  ghost function Ring(g: Graph, seeds: set<FactId>, n: nat): set<FactId> {
    if n == 0 then seeds else g.Within(seeds, n) - g.Within(seeds, n - 1)
  }

  /** The rows that the hops from the given one on load when nothing stops them: those of the entities of each ring. */
  ghost function RowsNeeded(g: Graph, seeds: set<FactId>, done: nat): nat
    decreases MAX_HOPS - done
  {
    if done >= MAX_HOPS then 0 else HopRows(g, Ring(g, seeds, done)) + RowsNeeded(g, seeds, done + 1)
  }

  /** A hop: all entities of the frontier, hubs left out. */
  function LoadHop(g: Graph, r: Reader, excluded: set<FactId>, w: Walk, n: nat, limit: int): (Walk, bool) {
    LoadAll(g, r, excluded, w.(next := {}), r.list(Expandable(g, w.next)), n, limit)
  }

  /** The hops in turn, until a limit is reached or nothing new was found. */
  function WalkHops(g: Graph, r: Reader, excluded: set<FactId>, w: Walk, done: nat, limit: int): seq<Hit>
    requires done <= MAX_HOPS
    decreases MAX_HOPS - done
  {
    if done == MAX_HOPS || w.next == {} then w.expanded
    else
      var (v, stopped) := LoadHop(g, r, excluded, w, done + 1, limit);
      if stopped then v.expanded else WalkHops(g, r, excluded, v, done + 1, limit)
  }

  /** A hop whose rows stay below the limit is settled. */
  lemma HopSettles(g: Graph, r: Reader, seeds: set<FactId>, excluded: set<FactId>, w: Walk, done: nat, n: nat,
                   limit: int)
    requires Reads(g, r) && done + 1 == n <= MAX_HOPS && Settled(g, seeds, excluded, w, done) && WithinLimit(w, limit)
    ensures var (v, stopped) := LoadHop(g, r, excluded, w, n, limit);
      && HitsOk(g, seeds, excluded, v.expanded) && WithinLimit(v, limit)
      && (!stopped && v.loaded < limit ==> Settled(g, seeds, excluded, v, n))
      && var needed := w.loaded + HopRows(g, Ring(g, seeds, done)); needed < limit ==> !stopped && v.loaded == needed
  {
    var frontier, entering := w.next, w.(next := {});
    assert WalkOk(g, seeds, excluded, entering, n);
    ListedEntities(g, r, Expandable(g, frontier));
    var entities := r.list(Expandable(g, frontier));
    assert Elements(entities) == Expandable(g, frontier);
    LoadKeepsWalk(g, r, seeds, excluded, entering, entities, n, limit, frontier);
    var (v, stopped) := LoadHop(g, r, excluded, w, n, limit);
    if !stopped && v.loaded < limit {
      assert frontier == g.Within(seeds, n - 1) - if n == 1 then {} else g.Within(seeds, n - 2);
      HopIsComplete(g, seeds, n, frontier, v.visited);
    }
  }

  /** Every fact within two hops that is neither a seed nor excluded is listed. */
  ghost predicate Complete(g: Graph, seeds: set<FactId>, excluded: set<FactId>, hits: seq<Hit>) {
    forall f :: f in g.Within(seeds, MAX_HOPS) && f !in seeds && f !in excluded ==> Listed(hits, f)
  }

  /** Once the row limit is used up, the hops that follow load nothing. */
  lemma {:induction false} FullWalkStays(g: Graph, r: Reader, excluded: set<FactId>, w: Walk, done: nat, limit: int)
    requires done <= MAX_HOPS && w.loaded >= limit
    ensures WalkHops(g, r, excluded, w, done, limit) == w.expanded
    decreases MAX_HOPS - done
  {
    if done < MAX_HOPS && w.next != {} {
      var (v, stopped) := LoadHop(g, r, excluded, w, done + 1, limit);
      assert v == w.(next := {});
      FullWalkStays(g, r, excluded, v, done + 1, limit);
    }
  }

  /** What the hops from a settled walk on list. */
  lemma {:induction false} WalkIsRight(g: Graph, r: Reader, seeds: set<FactId>, excluded: set<FactId>, w: Walk,
                                       done: nat, limit: int)
    requires Reads(g, r) && done <= MAX_HOPS && Settled(g, seeds, excluded, w, done) && WithinLimit(w, limit)
    ensures var hits := WalkHops(g, r, excluded, w, done, limit);
      && HitsOk(g, seeds, excluded, hits) && (hits != [] ==> |hits| <= limit)
      && (w.loaded + RowsNeeded(g, seeds, done) < limit ==> Complete(g, seeds, excluded, hits))
    decreases MAX_HOPS - done
  {
    if done < MAX_HOPS && w.next != {} {
      var hop := done + 1;
      HopSettles(g, r, seeds, excluded, w, done, hop, limit);
      var (v, stopped) := LoadHop(g, r, excluded, w, hop, limit);
      if !stopped && v.loaded < limit {
        WalkIsRight(g, r, seeds, excluded, v, hop, limit);
      } else if !stopped {
        FullWalkStays(g, r, excluded, v, hop, limit);
      }
    } else if done < MAX_HOPS {
      NothingFurther(g, seeds, excluded, w, done);
    }
  }

  /** The hop loop. */
  method RunHops(g: Graph, r: Reader, excluded: set<FactId>, start: Walk, limit: int) returns (hits: seq<Hit>)
    ensures hits == WalkHops(g, r, excluded, start, 0, limit)
  {
    var w, done := start, 0;
    while done < MAX_HOPS && w.next != {}
      invariant done <= MAX_HOPS
        && WalkHops(g, r, excluded, start, 0, limit) == WalkHops(g, r, excluded, w, done, limit)
    {
      var stopped;
      w, stopped := LoadBatches(g, r, excluded, w.(next := {}), done + 1, limit, w.next);
      if stopped {
        return w.expanded;
      }
      done := done + 1;
    }
    return w.expanded;
  }

  /**
  `_expand_via_entities`: every hit is eligible, new, allowed, unrepeated and carries its true shortest
  distance, even when the row limit cuts the loading short; no more than the limit are returned; when
  the rows to load stay below the limit, nothing within two hops is missing; and in any case the hits
  are those of the first rows, in the order of their facts and entities, that the limit lets through.
  */
  method ExpandViaEntities(g: Graph, r: Reader, seedIds: seq<FactId>, excluded: set<FactId>, limit: int)
    returns (hits: seq<Hit>)
    requires Reads(g, r)
    ensures HitsOk(g, Elements(seedIds), excluded, hits)
    ensures hits != [] ==> |hits| <= limit
    ensures RowsNeeded(g, Elements(seedIds), 0) < limit ==> Complete(g, Elements(seedIds), excluded, hits)
    ensures hits == Expansion(g, r, seedIds, excluded, limit)
  {
    var seeds := Elements(seedIds);
    var start := Walk(seeds, seeds, [], 0);
    WalkIsRight(g, r, seeds, excluded, start, 0, limit);
    hits := RunHops(g, r, excluded, start, limit);
  }

  /** The hits of the walk from the seeds. */
  function Expansion(g: Graph, r: Reader, seedIds: seq<FactId>, excluded: set<FactId>, limit: int): seq<Hit> {
    var seeds := Elements(seedIds);
    WalkHops(g, r, excluded, Walk(seeds, seeds, [], 0), 0, limit)
  }

  lemma {:induction false} LoadsAgree(g: Graph, a: Reader, b: Reader, excluded: set<FactId>, w: Walk,
                                      entities: seq<EntityId>, n: nat, limit: int)
    requires Reads(g, a) && Reads(g, b)
    ensures LoadAll(g, a, excluded, w, entities, n, limit) == LoadAll(g, b, excluded, w, entities, n, limit)
    decreases |entities|
  {
    if entities != [] && w.loaded < limit {
      var end := if BATCH < |entities| then BATCH else |entities|;
      var batch := Elements(entities[..end]);
      ReaderIsUnique(g, a, b, batch);
      var (v, full) := LoadOne(g, a, excluded, w, batch, n, limit);
      LoadsAgree(g, a, b, excluded, v, entities[end..], n, limit);
    }
  }

  lemma {:induction false} WalksAgree(g: Graph, a: Reader, b: Reader, excluded: set<FactId>, w: Walk, done: nat,
                                      limit: int)
    requires Reads(g, a) && Reads(g, b) && done <= MAX_HOPS
    ensures WalkHops(g, a, excluded, w, done, limit) == WalkHops(g, b, excluded, w, done, limit)
    decreases MAX_HOPS - done
  {
    if done < MAX_HOPS && w.next != {} {
      ReaderIsUnique(g, a, b, Expandable(g, w.next));
      LoadsAgree(g, a, b, excluded, w.(next := {}), a.list(Expandable(g, w.next)), done + 1, limit);
      WalksAgree(g, a, b, excluded, LoadHop(g, a, excluded, w, done + 1, limit).0, done + 1, limit);
    }
  }

  /** The graph, the seeds and the limit determine the hits, whichever of them the limit cuts off. */
  lemma ExpansionIsUnique(g: Graph, a: Reader, b: Reader, seedIds: seq<FactId>, excluded: set<FactId>, limit: int)
    requires Reads(g, a) && Reads(g, b)
    ensures Expansion(g, a, seedIds, excluded, limit) == Expansion(g, b, seedIds, excluded, limit)
  {
    var seeds := Elements(seedIds);
    WalksAgree(g, a, b, excluded, Walk(seeds, seeds, [], 0), 0, limit);
  }

  lemma NothingFurther(g: Graph, seeds: set<FactId>, excluded: set<FactId>, w: Walk, n: nat)
    requires n <= MAX_HOPS && Settled(g, seeds, excluded, w, n) && w.next == {}
    ensures Complete(g, seeds, excluded, w.expanded)
  {
    if n == 0 {
      assert seeds == {};
      EmptyStaysEmpty(g, MAX_HOPS);
    } else {
      var reach, base := g.Within(seeds, n), g.Within(seeds, n - 1);
      assert reach - base == {} && base <= reach;
      assert forall f :: f in reach ==> f in reach - base || f in base;
      WithinStops(g, seeds, n, MAX_HOPS);
    }
  }

  lemma {:induction false} EmptyStaysEmpty(g: Graph, n: nat)
    ensures g.Within({}, n) == {}
  {
    if n > 0 {
      EmptyStaysEmpty(g, n - 1);
    }
  }
}

/** The fail-closed named-anchor filter of hybrid retrieval. */
module AnchorFilter {
  import opened Prelude

  type Tokens = set<string>
  type FactId = int

  /** The anchors of a query and the generic title words; an item is known by its match tokens. */
  datatype Query = Query(anchors: Tokens, generic: Tokens, tokensOf: FactId -> Tokens) {
    function Hits(wanted: Tokens, item: FactId): nat {
      |wanted * tokensOf(item)|
    }

    predicate Exact(item: FactId) {
      Hits(anchors, item) == |anchors|
    }

    /** The anchors that score an item when nothing matches exactly. */
    function Scoring(): Tokens {
      var distinctive := anchors - generic;
      if distinctive != {} && distinctive != anchors then distinctive else anchors
    }
  }

  function MaxHit(q: Query, wanted: Tokens, items: seq<FactId>): (best: nat)
    ensures forall x :: x in items ==> q.Hits(wanted, x) <= best
    ensures best > 0 ==> exists x :: x in items && q.Hits(wanted, x) == best
  {
    if items == [] then 0
    else
      assert forall x :: x in items ==> x == items[0] || x in items[1..];
      var rest := MaxHit(q, wanted, items[1..]);
      if q.Hits(wanted, items[0]) > rest then q.Hits(wanted, items[0]) else rest
  }

  /** `select_named_anchor_matches`. */
  function Select(q: Query, items: seq<FactId>): (kept: seq<FactId>)
  {
    if q.anchors == {} then items
    else
      var exact := Filter(items, x => q.Exact(x));
      if exact != [] then exact
      else
        var distinctive := q.anchors - q.generic;
        if distinctive != {} && distinctive != q.anchors then
          var best := MaxHit(q, distinctive, items);
          if best == 0 then [] else Filter(items, x => q.Hits(distinctive, x) == best)
        else
          var best := MaxHit(q, q.anchors, items);
          if best >= 1 then Filter(items, x => q.Hits(q.anchors, x) == best) else []
  }

  /** What the filter keeps, said of a set: exact matches if there are any, else the best partial matches. */
  ghost predicate Chosen(q: Query, items: set<FactId>, x: FactId) {
    && x in items
    && (q.anchors == {}
        || if exists y :: y in items && q.Exact(y) then q.Exact(x)
           else q.Hits(q.Scoring(), x) >= 1 && forall y :: y in items ==>
             q.Hits(q.Scoring(), y) <= q.Hits(q.Scoring(), x))
  }

  function Elements(items: seq<FactId>): set<FactId> {
    set x | x in items
  }

  /** The filter keeps exactly the chosen items, whatever their order and multiplicity. */
  lemma SelectIsChosen(q: Query, items: seq<FactId>, x: FactId)
    ensures x in Select(q, items) <==> Chosen(q, Elements(items), x)
  {
    if q.anchors != {} {
      var exact := Filter(items, y => q.Exact(y));
      assert exact != [] ==> exact[0] in exact;
      if exact == [] {
        assert forall y :: y in items ==> !q.Exact(y);
        var best := MaxHit(q, q.Scoring(), items);
        if best > 0 {
          var top :| top in items && q.Hits(q.Scoring(), top) == best;
          assert top in Elements(items);
        }
      }
    }
  }

  /** The filter keeps the chosen items in their order, repetitions included. */
  lemma SelectKeepsOrder(q: Query, items: seq<FactId>)
    ensures IsFiltered(items, Select(q, items), x => Chosen(q, Elements(items), x))
  {
    SelectIsFilter(q, items);
    FilterIffPicks(items, Select(q, items), x => Chosen(q, Elements(items), x));
  }

  lemma SelectIsFilter(q: Query, items: seq<FactId>)
    ensures Select(q, items) == Filter(items, x => Chosen(q, Elements(items), x))
  {
    var chosen := x => Chosen(q, Elements(items), x);
    forall x ensures x in Select(q, items) <==> x in items && chosen(x) {
      SelectIsChosen(q, items, x);
    }
    var test := Test(q, items);
    SelectIsByTest(q, items);
    SameFilter(items, test, chosen);
  }

  /** The test that the filter ends up applying. */
  ghost function Test(q: Query, items: seq<FactId>): FactId -> bool {
    if q.anchors == {} then x => true
    else if exists x :: x in items && q.Exact(x) then x => q.Exact(x)
    else
      var best := MaxHit(q, q.Scoring(), items);
      x => best > 0 && q.Hits(q.Scoring(), x) == best
  }

  lemma SelectIsByTest(q: Query, items: seq<FactId>)
    ensures Select(q, items) == Filter(items, Test(q, items))
  {
    var exact := Filter(items, x => q.Exact(x));
    assert exact != [] ==> exact[0] in exact;
    FilterKeepsAll(items, Test(q, items));
    if q.anchors != {} && exact == [] {
      var best := MaxHit(q, q.Scoring(), items);
      var top := x => q.Hits(q.Scoring(), x) == best;
      var none := Filter(items, Test(q, items));
      assert none != [] ==> none[0] in none;
      if best > 0 {
        SameFilter(items, top, Test(q, items));
        if q.Scoring() == q.anchors {
          SameFilter(items, top, x => q.Hits(q.anchors, x) == best);
        } else {
          SameFilter(items, top, x => q.Hits(q.anchors - q.generic, x) == best);
        }
      }
    }
  }

  /** A best partial match exists among finitely many items. */
  lemma BestExists(q: Query, items: seq<FactId>, y: FactId) returns (top: FactId)
    requires y in items && q.Hits(q.Scoring(), y) >= 1
    ensures top in items && q.Hits(q.Scoring(), top) >= q.Hits(q.Scoring(), y)
    ensures forall z :: z in items ==> q.Hits(q.Scoring(), z) <= q.Hits(q.Scoring(), top)
  {
    var best := MaxHit(q, q.Scoring(), items);
    top :| top in items && q.Hits(q.Scoring(), top) == best;
  }

  /**
  Fail closed: nothing is returned if and only if no item shares a scoring anchor. Generic title
  words do not score beside a distinctive anchor.
  */
  lemma SelectFailsClosedIff(q: Query, items: seq<FactId>)
    requires q.anchors != {}
    ensures (forall x :: x !in Select(q, items)) <==> forall x :: x in items ==> q.Hits(q.Scoring(), x) == 0
  {
    forall x ensures x in Select(q, items) ==> x in items && q.Hits(q.Scoring(), x) > 0 {
      SelectIsChosen(q, items, x);
      ExactScores(q, x);
    }
    if y :| y in items && q.Hits(q.Scoring(), y) > 0 {
      if z :| z in items && q.Exact(z) {
        SelectIsChosen(q, items, z);
        assert z in Elements(items);
      } else {
        var top := BestExists(q, items, y);
        SelectIsChosen(q, items, top);
      }
    }
  }

  /** An exact match has every anchor; the distinctive anchors score if there are any, else all of them. */
  lemma WhatScores(q: Query, x: FactId)
    ensures q.Exact(x) <==> forall a :: a in q.anchors ==> a in q.tokensOf(x)
    ensures forall a :: a in q.Scoring() <==>
      a in q.anchors && (a in q.generic ==> forall b :: b in q.anchors ==> b in q.generic)
    ensures q.Hits(q.Scoring(), x) == |set a | a in q.Scoring() && a in q.tokensOf(x)|
  {
    var hits, distinctive := q.anchors * q.tokensOf(x), q.anchors - q.generic;
    assert forall b :: b in distinctive <==> b in q.anchors && b !in q.generic;
    if distinctive != {} {
      var b :| b in distinctive;
    }
    if q.Exact(x) {
      SubsetOfSameSize(hits, q.anchors);
    }
    assert (forall a :: a in q.anchors ==> a in q.tokensOf(x)) ==> hits == q.anchors;
    assert q.Scoring() * q.tokensOf(x) == set a | a in q.Scoring() && a in q.tokensOf(x);
  }

  /** An item with every anchor has every scoring anchor, and there is at least one. */
  lemma ExactScores(q: Query, x: FactId)
    requires q.anchors != {}
    ensures q.Exact(x) ==> q.Hits(q.Scoring(), x) > 0
  {
    if q.Exact(x) {
      var hits := q.anchors * q.tokensOf(x);
      assert q.anchors == hits by {
        SubsetOfSameSize(hits, q.anchors);
      }
      assert q.Scoring() * q.tokensOf(x) == q.Scoring();
    }
  }

  lemma SubsetOfSameSize(a: Tokens, b: Tokens)
    requires a <= b && |a| == |b|
    ensures a == b
  {
    assert b == a + (b - a);
  }

  /**
  Filtering early loses nothing: filtering the eligible rows before dense scoring and filtering the
  merged candidates again keeps the same items as filtering all of them once.
  */
  lemma EarlyFilterLosesNothing(q: Query, eligible: seq<FactId>, found: seq<FactId>, x: FactId)
    ensures x in Select(q, Select(q, eligible) + found) <==> x in Select(q, eligible + found)
  {
    var early, all := Select(q, eligible) + found, eligible + found;
    SelectIsChosen(q, early, x);
    SelectIsChosen(q, all, x);
    forall y ensures y in Select(q, eligible) <==> Chosen(q, Elements(eligible), y) {
      SelectIsChosen(q, eligible, y);
    }
    if q.anchors != {} {
      if forall y :: y in all ==> !q.Exact(y) {
        PartialAgrees(q, eligible, found, x);
      }
    }
  }

  /** Without exact matches, the early winners represent everyone they beat. */
  lemma PartialAgrees(q: Query, eligible: seq<FactId>, found: seq<FactId>, x: FactId)
    requires q.anchors != {} && forall y :: y in eligible + found ==> !q.Exact(y)
    ensures Chosen(q, Elements(Select(q, eligible) + found), x) <==> Chosen(q, Elements(eligible + found), x)
  {
    var early, all := Select(q, eligible) + found, eligible + found;
    if Chosen(q, Elements(early), x) {
      forall y | y in all ensures q.Hits(q.Scoring(), y) <= q.Hits(q.Scoring(), x) {
        if y in eligible && q.Hits(q.Scoring(), y) >= 1 {
          var top := BestExists(q, eligible, y);
          SelectIsChosen(q, eligible, top);
          assert top in early;
        } else if y in found {
          assert y in early;
        }
      }
    }
    if Chosen(q, Elements(all), x) {
      SelectIsChosen(q, eligible, x);
      assert forall y :: y in eligible ==> y in all;
      assert x in early;
    }
  }
}

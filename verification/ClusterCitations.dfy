/** What a merge does to the facts that tags cite as their sources. */
module ClusterCitations {
  import opened ClusterPlan
  import opened ClusterTags
  import opened ClusterApply

  /** The fact is there before the merge and is not a loser of the first `n` clusters. */
  ghost predicate Live(facts: Facts, plan: seq<ClusterMerge>, n: nat, c: int)
    requires n <= |plan|
  {
    c in facts && forall j :: 0 <= j < n ==> c !in plan[j].losers
  }

  ghost predicate AllLive(facts: Facts, plan: seq<ClusterMerge>, n: nat, cited: set<int>)
    requires n <= |plan|
  {
    forall c {:trigger Live(facts, plan, n, c)} :: c in cited ==> Live(facts, plan, n, c)
  }

  /** Replacing a loser by its survivor makes no dead citation live and no live one dead. */
  lemma LiveStep(facts: Facts, plan: seq<ClusterMerge>, n: nat, next: nat, c: int)
    requires Mergeable(facts, plan) && n < |plan| && next == n + 1
    ensures Live(facts, plan, n, c) <==> Live(facts, plan, next, if c in plan[n].losers then plan[n].survivor else c)
  {
    var merge := plan[n];
    assert MergeOk(facts, merge) && merge.survivor in Touched(merge);
    assert forall j, x :: 0 <= j < n && x in plan[j].losers ==> x in Touched(plan[j]);
    assert c in merge.losers ==> c in Touched(merge);
  }

  lemma AllLiveStep(facts: Facts, plan: seq<ClusterMerge>, n: nat, next: nat, cited: set<int>)
    requires Mergeable(facts, plan) && n < |plan| && next == n + 1
    ensures AllLive(facts, plan, n, cited) <==>
      AllLive(facts, plan, next, Resent(cited, plan[n].losers, plan[n].survivor))
  {
    var merge := plan[n];
    var resent := Resent(cited, merge.losers, merge.survivor);
    if AllLive(facts, plan, n, cited) {
      forall d | d in resent ensures Live(facts, plan, next, d) {
        var c :| c in cited && d == if c in merge.losers then merge.survivor else c;
        LiveStep(facts, plan, n, next, c);
      }
    }
    if AllLive(facts, plan, next, resent) {
      forall c | c in cited ensures Live(facts, plan, n, c) {
        var d := if c in merge.losers then merge.survivor else c;
        assert d in resent;
        LiveStep(facts, plan, n, next, c);
      }
    }
  }

  /** The cluster, among the first `n`, that the fact survives, or `n` when there is none. */
  ghost function RaisedAt(plan: seq<ClusterMerge>, n: nat, x: int): (k: nat)
    requires n <= |plan|
    ensures k <= n && (k < n ==> plan[k].survivor == x)
    ensures k == n ==> forall j :: 0 <= j < n ==> plan[j].survivor != x
  {
    if n == 0 then 0
    else if plan[n - 1].survivor == x then n - 1
    else
      var k := RaisedAt(plan, n - 1, x);
      if k < n - 1 then k else n
  }

  ghost predicate TagsPlanned(plan: seq<ClusterMerge>, tags: map<int, set<int>>) {
    forall k :: 0 <= k < |plan| ==> plan[k].survivor in tags
  }

  /**
  When a fact's citations are sound. Its tags are those planned for it if it survives a cluster, and
  otherwise its own. They must name facts that are there. In an active insight, where losers are
  replaced from then on, they must name no loser of a cluster before its own; in any other fact, where
  nothing is replaced, no loser of any of the first `n` clusters.
  */
  ghost predicate Sound(before: Db, plan: seq<ClusterMerge>, tags: map<int, set<int>>, n: nat, x: int)
    requires n <= |plan| && x in before.tags && TagsPlanned(plan, tags)
  {
    var k := RaisedAt(plan, n, x);
    var source := if k < n then tags[x] else before.Cites()[x];
    var since := if x !in before.insights then n else if k < n then k else 0;
    AllLive(before.facts, plan, since, source)
  }

  lemma CitesStep(before: Db, plan: seq<ClusterMerge>, tags: map<int, set<int>>, n: nat, next: nat, x: int)
    requires n < |plan| && next == n + 1 && plan[n].survivor in tags && x !in plan[n].losers
    requires x in CitesAfter(before.Cites(), before.insights, plan[..n], tags)
    ensures x in CitesAfter(before.Cites(), before.insights, plan[..next], tags)
    ensures var was := CitesAfter(before.Cites(), before.insights, plan[..n], tags)[x];
      var source := if x == plan[n].survivor then tags[x] else was;
      CitesAfter(before.Cites(), before.insights, plan[..next], tags)[x]
      == if x in before.insights then Resent(source, plan[n].losers, plan[n].survivor) else source
  {
    assert plan[..next][..n] == plan[..n];
  }

  /** Nothing is replaced in the tags of a fact that is not an active insight. */
  lemma {:induction false} OtherTagsStay(before: Db, plan: seq<ClusterMerge>, tags: map<int, set<int>>, n: nat, x: int)
    requires n <= |plan| && TagsPlanned(plan, tags) && x in before.tags && x !in before.insights
    requires forall j :: 0 <= j < n ==> x !in plan[j].losers
    ensures x in CitesAfter(before.Cites(), before.insights, plan[..n], tags)
    ensures CitesAfter(before.Cites(), before.insights, plan[..n], tags)[x]
      == if RaisedAt(plan, n, x) < n then tags[x] else before.Cites()[x]
  {
    if n == 0 {
      assert plan[..0] == [];
    } else {
      var m := n - 1;
      OtherTagsStay(before, plan, tags, m, x);
      CitesStep(before, plan, tags, m, n, x);
    }
  }

  /**
  After `n` clusters an active insight cites live facts only if and only if what its citations come from was
  live.
  */
  lemma {:induction false} InsightTagsFollow(before: Db, plan: seq<ClusterMerge>, tags: map<int, set<int>>, n: nat,
                                             x: int)
    requires Mergeable(before.facts, plan) && n <= |plan| && TagsPlanned(plan, tags)
    requires x in before.tags && x in before.insights && forall j :: 0 <= j < n ==> x !in plan[j].losers
    ensures x in CitesAfter(before.Cites(), before.insights, plan[..n], tags)
    ensures AllLive(before.facts, plan, n, CitesAfter(before.Cites(), before.insights, plan[..n], tags)[x])
      <==> Sound(before, plan, tags, n, x)
  {
    if n == 0 {
      assert plan[..0] == [];
    } else {
      var m := n - 1;
      InsightTagsFollow(before, plan, tags, m, x);
      CitesStep(before, plan, tags, m, n, x);
      var was := CitesAfter(before.Cites(), before.insights, plan[..m], tags)[x];
      AllLiveStep(before.facts, plan, m, n, if x == plan[m].survivor then tags[x] else was);
    }
  }

  predicate AllThere(facts: Facts, cited: set<int>) {
    forall c :: c in cited ==> c in facts
  }

  lemma LiveIsLeft(before: Db, after: Db, plan: seq<ClusterMerge>, c: int)
    requires Image(before, after, Redirects(plan), Raises(plan))
    ensures c in after.facts <==> Live(before.facts, plan, |plan|, c)
  {
    RedirectsWithin(plan, c);
  }

  /** A fact that is left cites facts that are left if and only if its citations are sound. */
  lemma FactKeptIff(before: Db, after: Db, plan: seq<ClusterMerge>, tags: map<int, set<int>>, x: int)
    requires Mergeable(before.facts, plan) && Image(before, after, Redirects(plan), Raises(plan))
    requires TagsAfter(before, after, plan, tags) && TagsPlanned(plan, tags)
    requires before.tags.Keys == before.facts.Keys && x in after.facts
    ensures x in after.tags && x in before.tags
    ensures AllThere(after.facts, Cited(after.tags[x])) <==> Sound(before, plan, tags, |plan|, x)
  {
    assert plan[..|plan|] == plan;
    LiveIsLeft(before, after, plan, x);
    if x in before.insights {
      InsightTagsFollow(before, plan, tags, |plan|, x);
    } else {
      OtherTagsStay(before, plan, tags, |plan|, x);
    }
    assert after.Cites()[x] == Cited(after.tags[x]);
    forall c ensures c in after.facts <==> Live(before.facts, plan, |plan|, c) {
      LiveIsLeft(before, after, plan, c);
    }
    assert AllLive(before.facts, plan, |plan|, Cited(after.tags[x])) <==> AllThere(after.facts, Cited(after.tags[x]));
  }

  /** No fact cites a fact that is not there. */
  ghost predicate NoDanglingCites(db: Db) {
    forall x :: x in db.facts && x in db.tags ==> AllThere(db.facts, Cited(db.tags[x]))
  }

  /** The citations of every fact that the plan leaves are sound. */
  ghost predicate AllSound(before: Db, plan: seq<ClusterMerge>, tags: map<int, set<int>>)
    requires before.tags.Keys == before.facts.Keys && TagsPlanned(plan, tags)
  {
    forall x :: x in before.facts && Live(before.facts, plan, |plan|, x) ==> Sound(before, plan, tags, |plan|, x)
  }

  /**
  After a merge no fact cites a fact that is not there if and only if the citations of all that are left are
  sound.
  */
  lemma CitationsKeptIff(before: Db, after: Db, plan: seq<ClusterMerge>, tags: map<int, set<int>>)
    requires Mergeable(before.facts, plan) && Image(before, after, Redirects(plan), Raises(plan))
    requires TagsAfter(before, after, plan, tags) && TagsPlanned(plan, tags) && before.tags.Keys == before.facts.Keys
    ensures NoDanglingCites(after) <==> AllSound(before, plan, tags)
  {
    if AllSound(before, plan, tags) {
      forall x | x in after.facts ensures x in after.tags && AllThere(after.facts, Cited(after.tags[x])) {
        LiveIsLeft(before, after, plan, x);
        FactKeptIff(before, after, plan, tags, x);
      }
    }
    if NoDanglingCites(after) {
      forall x | x in before.facts && Live(before.facts, plan, |plan|, x) ensures Sound(before, plan, tags, |plan|, x) {
        LiveIsLeft(before, after, plan, x);
        FactKeptIff(before, after, plan, tags, x);
      }
    }
  }

  // ------------------------------------------------------------------
  // The smallest losses
  // ------------------------------------------------------------------

  /**
  Facts 1 and 2 merge into 1, and then the insights 3 and 4, both citing 2, merge into 3. The first
  merge rewrites the citation to 1; the second writes the planned tags over it.
  */
  lemma RewrittenCitationIsLost()
    ensures var plan := [ClusterMerge(1, [2], 0, 0), ClusterMerge(3, [4], 0, 0)];
      var cites: map<int, set<int>> := map[1 := {}, 2 := {}, 3 := {2}, 4 := {2}];
      var after := CitesAfter(cites, {3, 4}, plan, map[1 := {}, 3 := {2}]);
      3 in after && 2 in after[3] && 2 in Redirects(plan)
  {
    var a, b := ClusterMerge(1, [2], 0, 0), ClusterMerge(3, [4], 0, 0);
    var plan := [a, b];
    var cites: map<int, set<int>> := map[1 := {}, 2 := {}, 3 := {2}, 4 := {2}];
    var tags: map<int, set<int>> := map[1 := {}, 3 := {2}];
    assert plan[..1] == [a] && [a][..0] == [];
    var first := CitesAfter(cites, {3, 4}, [a], tags);
    assert CitesAfter(cites, {3, 4}, [], tags) == cites;
    assert 3 in first;
    assert 2 in Resent(tags[3], b.losers, 3) by {
      assert 2 == if 2 in b.losers then 3 else 2;
    }
    assert Redirects([a]) == Redirects([]) + map[2 := 1];
    assert 2 in Redirects([a]);
  }

  /** Facts 1 and 2 merge into 1; fact 5, which is no active insight, cites 2 and still does afterwards. */
  lemma OtherCitationIsLost()
    ensures var plan := [ClusterMerge(1, [2], 0, 0)];
      var cites: map<int, set<int>> := map[1 := {}, 2 := {}, 5 := {2}];
      var after := CitesAfter(cites, {}, plan, map[1 := {}]);
      5 in after && after[5] == {2} && 2 in Redirects(plan)
  {
    var a := ClusterMerge(1, [2], 0, 0);
    var cites: map<int, set<int>> := map[1 := {}, 2 := {}, 5 := {2}];
    assert [a][..0] == [];
    assert CitesAfter(cites, {}, [], map[1 := {}]) == cites;
    assert Redirects([a]) == Redirects([]) + map[2 := 1];
  }
}

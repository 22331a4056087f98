/** Survivor selection and the merge plan. */
module ClusterPlan {
  import opened Prelude
  import opened Components
  import opened ClusterBuild

  /** A fact row as the merge reads it; `created` orders as the creation stamp does. */
  datatype Fact = Fact(
    subject: Subject,
    trust: real,
    retrieval: int,
    helpful: int,
    created: int,
    invalid: bool,
    legacy: bool,
    conflicted: bool,
    supersededBy: Option<int>)
  {
    /** `_active_fact_ids`. */
    predicate Active() {
      !invalid && supersededBy.None? && !conflicted && !legacy
    }

    function Score(): real { trust * retrieval as real }

    /** This fact sorts strictly before the other: higher score, then earlier. */
    predicate Beats(other: Fact) {
      Score() > other.Score() || (Score() == other.Score() && created < other.created)
    }
  }

  type Facts = map<int, Fact>

  predicate Known(facts: Facts, ids: seq<int>) {
    forall x :: x in ids ==> x in facts
  }

  /** Python's `min(ids, key=...)`: the first id that no id beats. */
  function Best(facts: Facts, ids: seq<int>): (best: int)
    requires ids != [] && Known(facts, ids)
    ensures best in ids
    ensures forall x :: x in ids ==> !facts[x].Beats(facts[best])
    ensures exists i :: 0 <= i < |ids| && ids[i] == best && forall j :: 0 <= j < i ==>
      ids[j] in facts && facts[best].Beats(facts[ids[j]])
    decreases |ids|
  {
    var last := ids[|ids| - 1];
    if |ids| == 1 then last
    else
      var before := Best(facts, ids[..|ids| - 1]);
      assert ids == ids[..|ids| - 1] + [last];
      if facts[last].Beats(facts[before]) then last else before
  }

  datatype Choice = Choice(survivor: int, losers: seq<int>)

  function Pool(facts: Facts, ids: seq<int>): (pool: seq<int>)
    requires Known(facts, ids)
    ensures Known(facts, pool) && (ids != [] ==> pool != [])
    ensures forall x :: x in pool ==> x in ids
    ensures (forall x :: x in ids ==> facts[x].Active()) ==> pool == ids
  {
    var usable := x => x in facts && !facts[x].invalid && !facts[x].legacy;
    FilterKeepsAll(ids, usable);
    var active := Filter(ids, usable);
    if active != [] then active else ids
  }

  function Candidates(facts: Facts, pool: seq<int>, cutoff: int): (candidates: seq<int>)
    requires Known(facts, pool)
    ensures Known(facts, candidates) && (pool != [] ==> candidates != [])
    ensures forall x :: x in candidates ==> x in pool
  {
    var earlier := Filter(pool, x => x in facts && facts[x].created < cutoff);
    var flood := Filter(pool, x => x in facts && facts[x].created >= cutoff);
    if earlier != [] && flood != [] then earlier else pool
  }

  function ChooseSurvivor(facts: Facts, ids: seq<int>, cutoff: int): (choice: Choice)
    requires ids != [] && Known(facts, ids)
    ensures choice.survivor in ids
    ensures forall x :: x in choice.losers ==> x in ids && x != choice.survivor
  {
    var pool := Pool(facts, ids);
    var survivor := Best(facts, Candidates(facts, pool, cutoff));
    Choice(survivor, Filter(pool, x => x != survivor))
  }

  /** The two facts were created on the same side of the cutoff. */
  ghost predicate SameSide(a: Fact, b: Fact, cutoff: int) {
    a.created < cutoff <==> b.created < cutoff
  }

  /** The survivor stands at place `k`, and beats every fact of its side that stands before it. */
  ghost predicate FirstOfItsSide(facts: Facts, ids: seq<int>, cutoff: int, survivor: int, k: nat) {
    && k < |ids| && ids[k] == survivor
    && forall j ::
      0 <= j < k && ids[j] in facts && survivor in facts && SameSide(facts[ids[j]], facts[survivor], cutoff) ==>
        facts[survivor].Beats(facts[ids[j]])
  }

  /** From before the flood if any fact is, unbeaten on its side of the cutoff, and the first such. */
  ghost predicate IsSurvivor(facts: Facts, ids: seq<int>, cutoff: int, survivor: int)
    requires Known(facts, ids)
  {
    && survivor in ids
    && ((exists x :: x in ids && facts[x].created < cutoff) ==> facts[survivor].created < cutoff)
    && (forall x :: x in ids && SameSide(facts[x], facts[survivor], cutoff) ==> !facts[x].Beats(facts[survivor]))
    && (exists k :: FirstOfItsSide(facts, ids, cutoff, survivor, k))
  }

  /**
  No fact of the survivor's side of the cutoff has a greater product of trust and retrievals; one
  with the same is no older, and if it is as old it stands behind.
  */
  lemma SurvivorRanksFirst(facts: Facts, ids: seq<int>, cutoff: int, survivor: int, i: nat)
    requires Known(facts, ids) && Distinct(ids) && IsSurvivor(facts, ids, cutoff, survivor)
    requires i < |ids| && (facts[ids[i]].created < cutoff <==> facts[survivor].created < cutoff)
    ensures var fact, best := facts[ids[i]], facts[survivor];
      var score, most := fact.trust * fact.retrieval as real, best.trust * best.retrieval as real;
      && score <= most && (score == most ==> best.created <= fact.created)
      && (score == most && best.created == fact.created ==> exists k :: 0 <= k <= i && ids[k] == survivor)
  {
    assert ids[i] in ids && SameSide(facts[ids[i]], facts[survivor], cutoff);
    var k :| FirstOfItsSide(facts, ids, cutoff, survivor, k);
  }

  /** The facts and the cutoff determine the survivor. */
  lemma SurvivorIsUnique(facts: Facts, ids: seq<int>, cutoff: int, a: int, b: int)
    requires Known(facts, ids) && IsSurvivor(facts, ids, cutoff, a) && IsSurvivor(facts, ids, cutoff, b)
    ensures a == b
  {
    var i :| FirstOfItsSide(facts, ids, cutoff, a, i);
    var j :| FirstOfItsSide(facts, ids, cutoff, b, j);
    assert SameSide(facts[a], facts[b], cutoff);
  }

  lemma {:induction false} FilterOfPrefix(ids: seq<int>, k: nat, keep: int -> bool)
    requires k <= |ids|
    ensures Filter(ids[..k], keep) <= Filter(ids, keep)
  {
    if k > 0 {
      FilterOfPrefix(ids[1..], k - 1, keep);
      assert ids[..k][1..] == ids[1..][..k - 1];
    }
  }

  /** An id that stands before another and is kept stands before it among those kept. */
  lemma KeptBefore(ids: seq<int>, keep: int -> bool, k: nat, j: nat, i: nat)
    requires Distinct(ids) && j < k < |ids| && keep(ids[j]) && i < |Filter(ids, keep)| && Filter(ids, keep)[i] == ids[k]
    ensures exists h :: 0 <= h < i && Filter(ids, keep)[h] == ids[j]
  {
    var kept, early := Filter(ids, keep), Filter(ids[..k], keep);
    FilterOfPrefix(ids, k, keep);
    assert ids[..k][j] == ids[j];
    var at :| 0 <= at < |early| && early[at] == ids[j];
    assert ids[k] !in ids[..k];
    assert forall h :: 0 <= h < |early| ==> kept[h] == early[h] && early[h] in ids[..k];
  }

  /** The best of the kept ids beats every kept id that stands before it. */
  lemma BestBeatsEarlier(facts: Facts, ids: seq<int>, keep: int -> bool, k: nat, j: nat)
    requires Known(facts, ids) && Distinct(ids) && Filter(ids, keep) != [] && j < k < |ids|
    requires ids[k] == Best(facts, Filter(ids, keep)) && keep(ids[j])
    ensures facts[ids[k]].Beats(facts[ids[j]])
  {
    var kept := Filter(ids, keep);
    var i :| 0 <= i < |kept| && kept[i] == ids[k]
      && forall h :: 0 <= h < i ==> kept[h] in facts && facts[ids[k]].Beats(facts[kept[h]]);
    KeptBefore(ids, keep, k, j, i);
  }

  /** The test that the candidates pass. */
  function CandidateTest(facts: Facts, pool: seq<int>, cutoff: int): int -> bool
    requires Known(facts, pool)
  {
    var earlier := x => x in facts && facts[x].created < cutoff;
    var flood := x => x in facts && facts[x].created >= cutoff;
    if Filter(pool, earlier) != [] && Filter(pool, flood) != [] then earlier else x => true
  }

  lemma CandidatesPassTest(facts: Facts, pool: seq<int>, cutoff: int)
    requires Known(facts, pool)
    ensures Candidates(facts, pool, cutoff) == Filter(pool, CandidateTest(facts, pool, cutoff))
  {
    FilterKeepsAll(pool, x => true);
  }

  ghost function Usable(facts: Facts): int -> bool {
    x => x in facts && !(facts[x].invalid || facts[x].legacy)
  }

  /** The facts to choose from are those neither invalid nor of the legacy kind, if there are any. */
  lemma PoolIsUsable(facts: Facts, ids: seq<int>)
    requires Known(facts, ids) && exists x :: x in ids && !facts[x].invalid && !facts[x].legacy
    ensures IsFiltered(ids, Pool(facts, ids), Usable(facts))
  {
    var usable := x => x in facts && !facts[x].invalid && !facts[x].legacy;
    var x :| x in ids && !facts[x].invalid && !facts[x].legacy;
    assert usable(x) && x in Filter(ids, usable);
    FilteredBy(ids, usable, Usable(facts));
  }

  /** Otherwise they are all of them. */
  lemma PoolIsAll(facts: Facts, ids: seq<int>)
    requires Known(facts, ids) && forall x :: x in ids ==> facts[x].invalid || facts[x].legacy
    ensures Pool(facts, ids) == ids
  {
    FilterKeepsNone(ids, x => x in facts && !facts[x].invalid && !facts[x].legacy);
  }

  /** Of the facts to choose from, the losers are everyone else, and the survivor is the one there must be. */
  lemma SurvivorOfPool(facts: Facts, ids: seq<int>, cutoff: int)
    requires ids != [] && Known(facts, ids) && Distinct(Pool(facts, ids))
    ensures var (pool, choice) := (Pool(facts, ids), ChooseSurvivor(facts, ids, cutoff));
      && (forall x :: x in choice.losers <==> x in pool && x != choice.survivor)
      && IsSurvivor(facts, pool, cutoff, choice.survivor)
  {
    var pool := Pool(facts, ids);
    var survivor := ChooseSurvivor(facts, ids, cutoff).survivor;
    assert survivor in Candidates(facts, pool, cutoff);
    forall x | x in pool && SameSide(facts[x], facts[survivor], cutoff) ensures !facts[x].Beats(facts[survivor]) {
      assert x in Candidates(facts, pool, cutoff);
    }
    SurvivorIsFirst(facts, pool, cutoff, survivor);
  }

  /** Among facts that are all active, the choice is from all of them. */
  lemma SurvivorOfActive(facts: Facts, ids: seq<int>, cutoff: int)
    requires ids != [] && Known(facts, ids) && Distinct(ids) && forall x :: x in ids ==> facts[x].Active()
    ensures var Choice(survivor, losers) := ChooseSurvivor(facts, ids, cutoff);
      && (forall x :: x in losers <==> x in ids && x != survivor)
      && IsSurvivor(facts, ids, cutoff, survivor)
  {
    assert Pool(facts, ids) == ids;
    SurvivorOfPool(facts, ids, cutoff);
  }

  lemma SurvivorIsFirst(facts: Facts, ids: seq<int>, cutoff: int, survivor: int)
    requires ids != [] && Known(facts, ids) && Distinct(ids) && survivor == Best(facts, Candidates(facts, ids, cutoff))
    ensures exists k :: FirstOfItsSide(facts, ids, cutoff, survivor, k)
  {
    var k: nat :| 0 <= k < |ids| && ids[k] == survivor;
    var test := CandidateTest(facts, ids, cutoff);
    CandidatesPassTest(facts, ids, cutoff);
    forall j | 0 <= j < k && SameSide(facts[ids[j]], facts[survivor], cutoff)
      ensures facts[survivor].Beats(facts[ids[j]]) {
      assert survivor in Candidates(facts, ids, cutoff) && test(survivor);
      BestBeatsEarlier(facts, ids, test, k, j);
    }
    assert FirstOfItsSide(facts, ids, cutoff, survivor, k);
  }

  datatype ClusterMerge = ClusterMerge(survivor: int, losers: seq<int>, retrieval: int, helpful: int)

  function Sum(facts: Facts, ids: seq<int>, column: Fact -> int): int
    requires Known(facts, ids)
  {
    if ids == [] then 0
    else
      var first := ids[0];
      assert first in ids;
      column(facts[first]) + Sum(facts, ids[1..], column)
  }

  /** The members that stay with a survivor. */
  function SafeWith(facts: Facts, members: seq<int>, survivor: int): (kept: seq<int>)
    requires survivor in facts && Known(facts, members)
    ensures Known(facts, kept)
    ensures (forall x :: x in members ==> SafeToMerge(facts[survivor].subject.tokens, facts[x].subject.tokens)) ==>
      kept == members
  {
    var safe := x => x in facts
      && (x == survivor || SafeToMerge(facts[survivor].subject.tokens, facts[x].subject.tokens));
    FilterKeepsAll(members, safe);
    Filter(members, safe)
  }

  /** One cluster of `plan_merge`, with the filter and the second choice the code makes. */
  function PlanCluster(facts: Facts, members: seq<int>, cutoff: int): (merge: Option<ClusterMerge>)
    requires members != [] && Known(facts, members)
  {
    var first := ChooseSurvivor(facts, members, cutoff).survivor;
    var kept := SafeWith(facts, members, first);
    if |kept| < 2 then None
    else
      var choice := ChooseSurvivor(facts, kept, cutoff);
      Some(ClusterMerge(choice.survivor, choice.losers,
                        Sum(facts, kept, (f: Fact) => f.retrieval), Sum(facts, kept, (f: Fact) => f.helpful)))
  }

  function Subjects(facts: Facts): map<int, Subject> {
    map x | x in facts :: facts[x].subject
  }

  ghost predicate ActiveIds(facts: Facts, ids: seq<int>) {
    && Distinct(ids)
    && forall x :: x in ids ==>
      x in facts && !facts[x].invalid && facts[x].supersededBy.None? && !facts[x].conflicted && !facts[x].legacy
  }

  /** What the plan keeps of a cluster: all of it. */
  ghost predicate PlansCluster(facts: Facts, members: seq<int>, merge: ClusterMerge)
    requires Known(facts, members)
  {
    && merge.survivor in members
    && merge.losers == Filter(members, x => x != merge.survivor)
    && merge.retrieval == Sum(facts, members, (f: Fact) => f.retrieval)
    && merge.helpful == Sum(facts, members, (f: Fact) => f.helpful)
  }

  lemma ConnectedIsSafe(facts: Facts, ids: seq<int>, similar: (int, int) -> bool, x: int, y: int)
    requires x in facts && y in facts && Connected(LinkEdges(ids, Subjects(facts), similar), x, y)
    ensures SafeToMerge(facts[x].subject.tokens, facts[y].subject.tokens)
  {
    ComponentIsPairwiseSafe(ids, Subjects(facts), similar, x, y);
    SafeIffAgree(facts[x].subject.tokens, facts[y].subject.tokens);
  }

  /**
  The filter in the plan removes nobody, so the second survivor choice equals the first and the
  whole cluster is merged.
  */
  lemma PlanKeepsCluster(facts: Facts, ids: seq<int>, similar: (int, int) -> bool, members: seq<int>, cutoff: int)
    requires ActiveIds(facts, ids) && |members| >= 2 && Known(facts, members)
    requires members == Component(LinkEdges(ids, Subjects(facts), similar), ids, members[0])
    ensures PlanCluster(facts, members, cutoff).Some?
    ensures PlansCluster(facts, members, PlanCluster(facts, members, cutoff).value)
    ensures PlanCluster(facts, members, cutoff).value.survivor == ChooseSurvivor(facts, members, cutoff).survivor
  {
    var edges := LinkEdges(ids, Subjects(facts), similar);
    var first := ChooseSurvivor(facts, members, cutoff).survivor;
    forall x | x in members ensures SafeToMerge(facts[first].subject.tokens, facts[x].subject.tokens) {
      ConnectedSymmetric(edges, members[0], first);
      ConnectedTransitive(edges, first, members[0], x);
      ConnectedIsSafe(facts, ids, similar, first, x);
    }
    assert Pool(facts, members) == members;
  }

  // ------------------------------------------------------------------
  // The plan as a whole
  // ------------------------------------------------------------------

  function Touched(merge: ClusterMerge): set<int> {
    {merge.survivor} + set x | x in merge.losers
  }

  /** A plan that can be applied: disjoint groups of active facts whose counts add up. */
  ghost predicate MergeOk(facts: Facts, merge: ClusterMerge) {
    && merge.survivor in facts && facts[merge.survivor].Active() && merge.survivor !in merge.losers
    && Distinct(merge.losers) && Known(facts, merge.losers)
    && (forall x :: x in merge.losers ==> facts[x].Active())
    && merge.retrieval == facts[merge.survivor].retrieval + Sum(facts, merge.losers, (f: Fact) => f.retrieval)
    && merge.helpful == facts[merge.survivor].helpful + Sum(facts, merge.losers, (f: Fact) => f.helpful)
  }

  ghost predicate Mergeable(facts: Facts, plan: seq<ClusterMerge>) {
    && (forall k :: 0 <= k < |plan| ==> MergeOk(facts, plan[k]))
    && (forall j, k :: 0 <= j < k < |plan| ==> Touched(plan[j]) !! Touched(plan[k]))
  }

  lemma {:induction false} FilterDistinct(ids: seq<int>, keep: int -> bool)
    requires Distinct(ids)
    ensures Distinct(Filter(ids, keep))
  {
    if ids != [] {
      FilterDistinct(ids[1..], keep);
    }
  }

  lemma {:induction false} ComponentDistinct(edges: Edges, ids: seq<int>, a: int)
    requires Distinct(ids)
    ensures Distinct(Component(edges, ids, a))
  {
    if ids != [] {
      ComponentDistinct(edges, ids[..|ids| - 1], a);
    }
  }

  lemma {:induction false} SumSplits(facts: Facts, ids: seq<int>, x: int, keep: int -> bool, column: Fact -> int)
    requires Distinct(ids) && Known(facts, ids) && x in facts && forall y :: keep(y) <==> y != x
    ensures Known(facts, Filter(ids, keep))
    ensures Sum(facts, ids, column) == Sum(facts, Filter(ids, keep), column) + if x in ids then column(facts[x]) else 0
  {
    if ids != [] {
      var first := ids[0];
      assert first in ids;
      SumSplits(facts, ids[1..], x, keep, column);
      var rest := Filter(ids[1..], keep);
      if keep(first) {
        assert Filter(ids, keep) == [first] + rest && ([first] + rest)[1..] == rest;
      } else {
        assert x !in ids[1..] && Filter(ids, keep) == rest;
      }
    }
  }

  /** A cluster and its merge: the whole cluster, and applicable. */
  ghost predicate Planned(facts: Facts, members: seq<int>, cutoff: int, merge: ClusterMerge) {
    && Known(facts, members) && PlansCluster(facts, members, merge)
    && IsSurvivor(facts, members, cutoff, merge.survivor)
    && MergeOk(facts, merge) && Touched(merge) == set x | x in members
  }

  /** Splitting the survivor off a cluster's sum. */
  lemma SurvivorSplitsSum(facts: Facts, members: seq<int>, survivor: int, column: Fact -> int)
    requires Distinct(members) && Known(facts, members) && survivor in members
    ensures var losers := Filter(members, x => x != survivor);
      Known(facts, losers) && Sum(facts, members, column) == column(facts[survivor]) + Sum(facts, losers, column)
  {
    SumSplits(facts, members, survivor, x => x != survivor, column);
  }

  lemma LosersAreTheRest(members: seq<int>, survivor: int, losers: seq<int>)
    requires Distinct(members) && survivor in members && losers == Filter(members, x => x != survivor)
    ensures Distinct(losers) && survivor !in losers
    ensures {survivor} + (set x | x in losers) == set x | x in members
  {
    FilterDistinct(members, x => x != survivor);
  }

  lemma PlannedClusterIsOk(facts: Facts, members: seq<int>, cutoff: int, merge: ClusterMerge)
    requires ActiveIds(facts, members) && Known(facts, members) && PlansCluster(facts, members, merge)
    requires IsSurvivor(facts, members, cutoff, merge.survivor)
    ensures Planned(facts, members, cutoff, merge)
  {
    LosersAreTheRest(members, merge.survivor, merge.losers);
    SurvivorSplitsSum(facts, members, merge.survivor, (f: Fact) => f.retrieval);
    SurvivorSplitsSum(facts, members, merge.survivor, (f: Fact) => f.helpful);
  }

  ghost predicate IsCluster(edges: Edges, ids: seq<int>, members: seq<int>) {
    |members| >= 2 && members == Component(edges, ids, members[0])
  }

  lemma ClusterIsActive(facts: Facts, edges: Edges, ids: seq<int>, members: seq<int>)
    requires ActiveIds(facts, ids) && IsCluster(edges, ids, members)
    ensures ActiveIds(facts, members) && Known(facts, members)
  {
    ComponentDistinct(edges, ids, members[0]);
    assert forall x :: x in members ==> x in ids;
  }

  lemma ClusterIsPlanned(facts: Facts, ids: seq<int>, similar: (int, int) -> bool, members: seq<int>, cutoff: int)
    requires ActiveIds(facts, ids) && IsCluster(LinkEdges(ids, Subjects(facts), similar), ids, members)
    ensures Known(facts, members)
    ensures PlanCluster(facts, members, cutoff).Some?
    ensures Planned(facts, members, cutoff, PlanCluster(facts, members, cutoff).value)
  {
    ClusterIsActive(facts, LinkEdges(ids, Subjects(facts), similar), ids, members);
    PlanKeepsCluster(facts, ids, similar, members, cutoff);
    SurvivorOfActive(facts, members, cutoff);
    PlannedClusterIsOk(facts, members, cutoff, PlanCluster(facts, members, cutoff).value);
  }

  /** The body of the loop of `plan_merge`: the skip for a cluster trimmed below two never happens. */
  method PlanOne(facts: Facts, ids: seq<int>, similar: (int, int) -> bool, members: seq<int>, cutoff: int)
    returns (merge: ClusterMerge)
    requires ActiveIds(facts, ids) && IsCluster(LinkEdges(ids, Subjects(facts), similar), ids, members)
    ensures Planned(facts, members, cutoff, merge)
    ensures Known(facts, members) && PlanCluster(facts, members, cutoff) == Some(merge)
  {
    ClusterIsPlanned(facts, ids, similar, members, cutoff);
    merge := PlanCluster(facts, members, cutoff).value;
  }

  ghost predicate PlannedAll(facts: Facts, clusters: seq<seq<int>>, cutoff: int, plan: seq<ClusterMerge>) {
    |plan| <= |clusters| && forall k :: 0 <= k < |plan| ==> Planned(facts, clusters[k], cutoff, plan[k])
  }

  lemma PlannedOneMore(facts: Facts, clusters: seq<seq<int>>, cutoff: int, plan: seq<ClusterMerge>, merge: ClusterMerge)
    requires PlannedAll(facts, clusters, cutoff, plan) && |plan| < |clusters|
    requires Planned(facts, clusters[|plan|], cutoff, merge)
    ensures PlannedAll(facts, clusters, cutoff, plan + [merge])
  {
    var more := plan + [merge];
    forall k | 0 <= k < |more| ensures Planned(facts, clusters[k], cutoff, more[k]) {
      if k < |plan| {
        assert Planned(facts, clusters[k], cutoff, plan[k]);
      }
    }
  }

  /** The loop of `plan_merge` over the clusters. */
  method PlanClusters(facts: Facts, ids: seq<int>, similar: (int, int) -> bool, clusters: seq<seq<int>>, cutoff: int)
    returns (plan: seq<ClusterMerge>)
    requires ActiveIds(facts, ids)
    requires forall k :: 0 <= k < |clusters| ==> IsCluster(LinkEdges(ids, Subjects(facts), similar), ids, clusters[k])
    ensures |plan| == |clusters| && PlannedAll(facts, clusters, cutoff, plan)
  {
    plan := [];
    while |plan| < |clusters|
      invariant PlannedAll(facts, clusters, cutoff, plan)
    {
      var merge := PlanOne(facts, ids, similar, clusters[|plan|], cutoff);
      PlannedOneMore(facts, clusters, cutoff, plan, merge);
      plan := plan + [merge];
    }
  }

  /** What `plan_merge` must find and plan: one merge for each cluster, in order, none of them trimmed. */
  ghost predicate IsPlan(facts: Facts, ids: seq<int>, similar: (int, int) -> bool, cutoff: int,
                         clusters: seq<seq<int>>, plan: seq<ClusterMerge>)
  {
    && Clustering(LinkEdges(ids, Subjects(facts), similar), ids, clusters)
    && |plan| == |clusters| && PlannedAll(facts, clusters, cutoff, plan)
  }

  /** `plan_merge` over the active embedded facts. */
  method PlanMerge(facts: Facts, ids: seq<int>, similar: (int, int) -> bool, cutoff: int)
    returns (plan: seq<ClusterMerge>, clusters: seq<seq<int>>)
    requires ActiveIds(facts, ids)
    ensures IsPlan(facts, ids, similar, cutoff, clusters, plan) && Mergeable(facts, plan)
    ensures ClustersAgree(Subjects(facts), clusters)
  {
    clusters := BuildClusters(ids, Subjects(facts), similar);
    plan := PlanClusters(facts, ids, similar, clusters, cutoff);
    PlannedIsMergeable(facts, LinkEdges(ids, Subjects(facts), similar), ids, clusters, cutoff, plan);
  }

  lemma PlannedIsMergeable(facts: Facts, edges: Edges, ids: seq<int>, clusters: seq<seq<int>>, cutoff: int,
                           plan: seq<ClusterMerge>)
    requires Clustering(edges, ids, clusters) && |plan| == |clusters| && PlannedAll(facts, clusters, cutoff, plan)
    ensures Mergeable(facts, plan)
  {
    forall j, k | 0 <= j < k < |plan| ensures Touched(plan[j]) !! Touched(plan[k]) {
      assert Planned(facts, clusters[j], cutoff, plan[j]) && Planned(facts, clusters[k], cutoff, plan[k]);
    }
  }

  /** A cluster has one merge. */
  lemma MergeIsUnique(facts: Facts, members: seq<int>, cutoff: int, a: ClusterMerge, b: ClusterMerge)
    requires Planned(facts, members, cutoff, a) && Planned(facts, members, cutoff, b)
    ensures a == b
  {
    SurvivorIsUnique(facts, members, cutoff, a.survivor, b.survivor);
  }

  /** The facts, their similarities and the cutoff determine the clusters and the plan, with their order. */
  lemma PlanIsUnique(facts: Facts, ids: seq<int>, similar: (int, int) -> bool, cutoff: int,
                     a: seq<seq<int>>, p: seq<ClusterMerge>, b: seq<seq<int>>, q: seq<ClusterMerge>)
    requires ActiveIds(facts, ids) && IsPlan(facts, ids, similar, cutoff, a, p)
      && IsPlan(facts, ids, similar, cutoff, b, q)
    ensures a == b && p == q
  {
    ClusteringIsUnique(LinkEdges(ids, Subjects(facts), similar), ids, a, b);
    forall k | 0 <= k < |p| ensures p[k] == q[k] {
      MergeIsUnique(facts, a[k], cutoff, p[k], q[k]);
    }
  }
}

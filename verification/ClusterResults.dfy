/** What a whole merge conserves: totals, the active set, referential integrity, acyclic supersession. */
module ClusterResults {
  import opened ClusterBuild
  import opened ClusterPlan
  import opened ClusterTags
  import opened ClusterApply
  import opened ClusterCitations

  // ------------------------------------------------------------------
  // Totals
  // ------------------------------------------------------------------

  /** The sum of a column over a whole table. */
  ghost function Total<K>(column: map<K, int>): int {
    if column.Keys == {} then 0
    else
      var x :| x in column.Keys;
      column[x] + Total(column - {x})
  }

  lemma {:induction false} TotalWithout<K>(column: map<K, int>, x: K)
    requires x in column
    ensures Total(column) == column[x] + Total(column - {x})
    decreases |column|
  {
    var y :| y in column.Keys && Total(column) == column[y] + Total(column - {y});
    if y != x {
      TotalWithout(column - {y}, x);
      TotalWithout(column - {x}, y);
      assert column - {y} - {x} == column - {x} - {y};
    }
  }

  lemma TotalUpdate<K>(column: map<K, int>, x: K, v: int)
    requires x in column
    ensures Total(column[x := v]) == Total(column) - column[x] + v
  {
    TotalWithout(column, x);
    TotalWithout(column[x := v], x);
    assert column[x := v] - {x} == column - {x};
  }

  function Column(facts: Facts, column: Fact -> int): map<int, int> {
    map x | x in facts :: column(facts[x])
  }

  /** A table whose rows agree with `facts` on the given ids loses exactly their sum when they are removed. */
  lemma {:induction false} TotalWithoutAll(table: map<int, int>, facts: Facts, ids: seq<int>, column: Fact -> int)
    requires Distinct(ids) && Known(facts, ids)
    requires forall x :: x in ids ==> x in table && table[x] == column(facts[x])
    ensures Total(table - (set x | x in ids)) == Total(table) - Sum(facts, ids, column)
    decreases |ids|
  {
    if ids == [] {
      assert table - (set x | x in ids) == table;
    } else {
      var first := ids[0];
      assert first in ids;
      TotalWithout(table, first);
      assert forall x :: x in ids[1..] ==> x in ids;
      TotalWithoutAll(table - {first}, facts, ids[1..], column);
      assert table - {first} - (set x | x in ids[1..]) == table - (set x | x in ids);
    }
  }

  /** A count column after some losers were redirected and some survivors raised. */
  ghost function CountsWith(facts: Facts, redirect: Redirect, raised: map<int, ClusterMerge>,
                            column: Fact -> int, planned: ClusterMerge -> int): map<int, int>
  {
    map x | x in facts && x !in redirect :: if x in raised then planned(raised[x]) else column(facts[x])
  }

  ghost function CountsAfter(facts: Facts, plan: seq<ClusterMerge>, column: Fact -> int,
                             planned: ClusterMerge -> int): map<int, int>
  {
    CountsWith(facts, Redirects(plan), Raises(plan), column, planned)
  }

  lemma CountsOfCluster(facts: Facts, redirect: Redirect, raised: map<int, ClusterMerge>, merge: ClusterMerge,
                        column: Fact -> int, planned: ClusterMerge -> int)
    requires MergeOk(facts, merge) && Untouched(redirect, raised, merge)
    ensures merge.survivor in CountsWith(facts, redirect, raised, column, planned)
    ensures CountsWith(facts, redirect + Sent(merge.losers, merge.survivor), raised[merge.survivor := merge],
                       column, planned)
      == (CountsWith(facts, redirect, raised, column, planned)
          - (set x | x in merge.losers))[merge.survivor := planned(merge)]
  {
    assert merge.survivor in Touched(merge);
  }

  lemma ClusterConservesTotal(facts: Facts, redirect: Redirect, raised: map<int, ClusterMerge>, merge: ClusterMerge,
                              column: Fact -> int, planned: ClusterMerge -> int)
    requires MergeOk(facts, merge) && Untouched(redirect, raised, merge)
    requires planned(merge) == column(facts[merge.survivor]) + Sum(facts, merge.losers, column)
    ensures Total(CountsWith(facts, redirect + Sent(merge.losers, merge.survivor), raised[merge.survivor := merge],
      column, planned))
      == Total(CountsWith(facts, redirect, raised, column, planned))
  {
    var table := CountsWith(facts, redirect, raised, column, planned);
    assert merge.survivor in Touched(merge) && forall x :: x in merge.losers ==> x in Touched(merge);
    CountsOfCluster(facts, redirect, raised, merge, column, planned);
    TotalWithoutAll(table, facts, merge.losers, column);
    TotalUpdate(table - (set x | x in merge.losers), merge.survivor, planned(merge));
  }

  /** The planned count of a cluster is the sum over its members. */
  ghost predicate AddsUp(facts: Facts, merge: ClusterMerge, column: Fact -> int, planned: ClusterMerge -> int) {
    && merge.survivor in facts && Known(facts, merge.losers)
    && planned(merge) == column(facts[merge.survivor]) + Sum(facts, merge.losers, column)
  }

  ghost predicate AllAddUp(facts: Facts, plan: seq<ClusterMerge>, column: Fact -> int, planned: ClusterMerge -> int) {
    forall k {:trigger AddsUp(facts, plan[k], column, planned)} :: 0 <= k < |plan| ==>
      AddsUp(facts, plan[k], column, planned)
  }

  /** A column's total after the first `n` clusters. */
  ghost function TotalAfter(facts: Facts, plan: seq<ClusterMerge>, n: nat, column: Fact -> int,
                            planned: ClusterMerge -> int): int
    requires n <= |plan|
  {
    Total(CountsAfter(facts, plan[..n], column, planned))
  }

  lemma CountsStep(facts: Facts, plan: seq<ClusterMerge>, n: nat, next: nat, column: Fact -> int,
                   planned: ClusterMerge -> int)
    requires Mergeable(facts, plan) && n < |plan| && next == n + 1
    requires AddsUp(facts, plan[n], column, planned)
    ensures TotalAfter(facts, plan, next, column, planned) == TotalAfter(facts, plan, n, column, planned)
  {
    NextClusterUntouched(facts, plan, n);
    NextClusterAppended(plan, n);
    ClusterConservesTotal(facts, Redirects(plan[..n]), Raises(plan[..n]), plan[n], column, planned);
  }

  lemma CountsBefore(facts: Facts, plan: seq<ClusterMerge>, column: Fact -> int, planned: ClusterMerge -> int)
    ensures TotalAfter(facts, plan, 0, column, planned) == Total(Column(facts, column))
  {
    assert plan[..0] == [];
    assert CountsAfter(facts, plan[..0], column, planned) == Column(facts, column);
  }

  lemma {:induction false} CountsConserved(facts: Facts, plan: seq<ClusterMerge>, n: nat, column: Fact -> int,
                                           planned: ClusterMerge -> int)
    requires Mergeable(facts, plan) && n <= |plan| && AllAddUp(facts, plan, column, planned)
    ensures TotalAfter(facts, plan, n, column, planned) == Total(Column(facts, column))
  {
    if n == 0 {
      CountsBefore(facts, plan, column, planned);
    } else {
      var m := n - 1;
      CountsConserved(facts, plan, m, column, planned);
      assert AddsUp(facts, plan[m], column, planned);
      CountsStep(facts, plan, m, n, column, planned);
    }
  }

  lemma MergeConservesColumn(before: Db, after: Db, plan: seq<ClusterMerge>, column: Fact -> int,
                             planned: ClusterMerge -> int)
    requires Mergeable(before.facts, plan) && after.facts == FactsAfter(before.facts, Redirects(plan), Raises(plan))
    requires AllAddUp(before.facts, plan, column, planned)
    requires forall x :: x in after.facts ==>
      column(after.facts[x]) == if x in Raises(plan) then planned(Raises(plan)[x]) else column(before.facts[x])
    ensures Total(Column(after.facts, column)) == Total(Column(before.facts, column))
  {
    CountsConserved(before.facts, plan, |plan|, column, planned);
    assert plan[..|plan|] == plan;
    ColumnIsCounts(before.facts, after.facts, Redirects(plan), Raises(plan), column, planned);
  }

  lemma ColumnIsCounts(before: Facts, after: Facts, redirect: Redirect, raised: map<int, ClusterMerge>,
                       column: Fact -> int, planned: ClusterMerge -> int)
    requires after == FactsAfter(before, redirect, raised)
    requires forall x :: x in after ==>
      column(after[x]) == if x in raised then planned(raised[x]) else column(before[x])
    ensures Column(after, column) == CountsWith(before, redirect, raised, column, planned)
  {
    assert Column(after, column).Keys == CountsWith(before, redirect, raised, column, planned).Keys;
  }

  /** A merge conserves the totals of both counters over the whole fact table. */
  lemma MergeConservesCounts(before: Db, after: Db, plan: seq<ClusterMerge>)
    requires Mergeable(before.facts, plan) && Image(before, after, Redirects(plan), Raises(plan))
    ensures Total(Column(after.facts, (f: Fact) => f.retrieval))
      == Total(Column(before.facts, (f: Fact) => f.retrieval))
    ensures Total(Column(after.facts, (f: Fact) => f.helpful)) == Total(Column(before.facts, (f: Fact) => f.helpful))
  {
    assert forall k :: 0 <= k < |plan| ==> MergeOk(before.facts, plan[k]);
    assert Total(Column(after.facts, (f: Fact) => f.retrieval))
      == Total(Column(before.facts, (f: Fact) => f.retrieval)) by {
      MergeConservesColumn(before, after, plan, (f: Fact) => f.retrieval, (m: ClusterMerge) => m.retrieval);
    }
    assert Total(Column(after.facts, (f: Fact) => f.helpful))
      == Total(Column(before.facts, (f: Fact) => f.helpful)) by {
      MergeConservesColumn(before, after, plan, (f: Fact) => f.helpful, (m: ClusterMerge) => m.helpful);
    }
  }

  // ------------------------------------------------------------------
  // The active set
  // ------------------------------------------------------------------

  function ActiveSet(facts: Facts): set<int> {
    set x | x in facts && facts[x].Active()
  }

  function DropCount(plan: seq<ClusterMerge>): nat {
    if plan == [] then 0 else DropCount(plan[..|plan| - 1]) + |plan[|plan| - 1].losers|
  }

  lemma DistinctSize(ids: seq<int>)
    requires Distinct(ids)
    ensures |set x | x in ids| == |ids|
  {
    if ids != [] {
      DistinctSize(ids[1..]);
      assert (set x | x in ids) == {ids[0]} + set x | x in ids[1..];
    }
  }

  lemma SizeOfSent(redirect: Redirect, losers: seq<int>, survivor: int)
    requires Distinct(losers) && forall x :: x in losers ==> x !in redirect
    ensures |redirect + Sent(losers, survivor)| == |redirect| + |losers|
  {
    DistinctSize(losers);
  }

  lemma DropCountStep(plan: seq<ClusterMerge>, n: nat)
    requires n < |plan|
    ensures DropCount(plan[..n + 1]) == DropCount(plan[..n]) + |plan[n].losers|
  {
    assert plan[..n + 1][..n] == plan[..n];
  }

  lemma RedirectsSizeStep(redirect: Redirect, raised: map<int, ClusterMerge>, merge: ClusterMerge)
    requires Untouched(redirect, raised, merge) && Distinct(merge.losers)
    ensures |redirect + Sent(merge.losers, merge.survivor)| == |redirect| + |merge.losers|
  {
    assert forall x :: x in merge.losers ==> x in Touched(merge);
    SizeOfSent(redirect, merge.losers, merge.survivor);
  }

  /** What the redirections of the first clusters count beyond their losers. */
  ghost function Surplus(plan: seq<ClusterMerge>, n: nat): int
    requires n <= |plan|
  {
    |Redirects(plan[..n])| - DropCount(plan[..n])
  }

  lemma DropStep(facts: Facts, plan: seq<ClusterMerge>, n: nat)
    requires Mergeable(facts, plan) && n < |plan|
    ensures Surplus(plan, n + 1) == Surplus(plan, n)
  {
    DropCountStep(plan, n);
    NextClusterUntouched(facts, plan, n);
    RedirectsSizeStep(Redirects(plan[..n]), Raises(plan[..n]), plan[n]);
    NextClusterAppended(plan, n);
  }

  lemma {:induction false} NoSurplus(facts: Facts, plan: seq<ClusterMerge>, n: nat)
    requires Mergeable(facts, plan) && n <= |plan|
    ensures Surplus(plan, n) == 0
  {
    if n == 0 {
    } else {
      NoSurplus(facts, plan, n - 1);
      DropStep(facts, plan, n - 1);
    }
  }

  lemma RedirectsSize(facts: Facts, plan: seq<ClusterMerge>)
    requires Mergeable(facts, plan)
    ensures |Redirects(plan)| == DropCount(plan)
  {
    NoSurplus(facts, plan, |plan|);
    assert plan[..|plan|] == plan;
  }

  /** Exactly the losers leave the active set, so the final count is the one the plan projected. */
  lemma MergeDropsExactlyLosers(before: Db, after: Db, plan: seq<ClusterMerge>)
    requires Mergeable(before.facts, plan) && Image(before, after, Redirects(plan), Raises(plan))
    ensures ActiveSet(after.facts) == ActiveSet(before.facts) - Redirects(plan).Keys
    ensures |ActiveSet(after.facts)| == |ActiveSet(before.facts)| - DropCount(plan)
  {
    OthersStayActive(before, after, plan);
    RedirectsSize(before.facts, plan);
    LosersAreActive(before.facts, plan);
    assert |Redirects(plan).Keys| == |Redirects(plan)|;
  }

  lemma OthersStayActive(before: Db, after: Db, plan: seq<ClusterMerge>)
    requires Image(before, after, Redirects(plan), Raises(plan))
    ensures Mergeable(before.facts, plan) ==>
      ActiveSet(after.facts) == ActiveSet(before.facts) - Redirects(plan).Keys
  {
  }

  lemma LosersAreActive(facts: Facts, plan: seq<ClusterMerge>)
    requires Mergeable(facts, plan)
    ensures Redirects(plan).Keys <= ActiveSet(facts)
  {
    forall x | x in Redirects(plan) ensures x in ActiveSet(facts) {
      RedirectsWithin(plan, x);
      var k :| 0 <= k < |plan| && x in plan[k].losers;
      assert MergeOk(facts, plan[k]);
    }
  }

  // ------------------------------------------------------------------
  // References
  // ------------------------------------------------------------------

  /** No row names a fact that does not exist. */
  predicate NoOrphans(db: Db) {
    && (forall x :: x in db.facts && db.facts[x].supersededBy.Some? ==> db.facts[x].supersededBy.value in db.facts)
    && (forall k :: k in db.references ==> db.references[k] in db.facts)
    && (forall k :: k in db.links ==> k.fact in db.facts)
    && (forall k :: k in db.owned ==> k.fact in db.facts)
  }

  lemma SigmaSurvives(facts: Facts, plan: seq<ClusterMerge>, x: int)
    requires Mergeable(facts, plan) && x in facts
    ensures Sigma(Redirects(plan), x) in facts && Sigma(Redirects(plan), x) !in Redirects(plan)
  {
    RedirectsWithin(plan, x);
    if x in Redirects(plan) {
      var k :| 0 <= k < |plan| && x in plan[k].losers && Redirects(plan)[x] == plan[k].survivor;
      var s := plan[k].survivor;
      assert MergeOk(facts, plan[k]);
      RedirectsWithin(plan, s);
      forall j | 0 <= j < |plan| ensures s !in plan[j].losers {
        assert s in Touched(plan[k]) && forall y :: y in plan[j].losers ==> y in Touched(plan[j]);
      }
    }
  }

  /** A merge leaves no orphan behind. */
  lemma MergeLeavesNoOrphan(before: Db, after: Db, plan: seq<ClusterMerge>)
    requires Mergeable(before.facts, plan) && Image(before, after, Redirects(plan), Raises(plan)) && NoOrphans(before)
    ensures NoOrphans(after)
  {
    var redirect := Redirects(plan);
    forall x | x in after.facts && after.facts[x].supersededBy.Some?
      ensures after.facts[x].supersededBy.value in after.facts {
      SigmaSurvives(before.facts, plan, before.facts[x].supersededBy.value);
    }
    forall k | k in after.references ensures after.references[k] in after.facts {
      SigmaSurvives(before.facts, plan, before.references[k]);
    }
    forall k | k in after.links ensures k.fact in after.facts {
      assert Originates(before.links, redirect, k, after.links[k]);
      var f :| k.(fact := f) in before.links && Sigma(redirect, f) == k.fact;
      SigmaSurvives(before.facts, plan, f);
    }
  }

  // ------------------------------------------------------------------
  // Supersession
  // ------------------------------------------------------------------

  /** The rank certifies that following `superseded_by` never comes back. */
  ghost predicate Descends(facts: Facts, rank: map<int, nat>) {
    && facts.Keys <= rank.Keys
    && forall x :: x in facts && facts[x].supersededBy.Some? && facts[x].supersededBy.value in facts ==>
         rank[facts[x].supersededBy.value] < rank[x]
  }

  ghost predicate Acyclic(facts: Facts) {
    exists rank :: Descends(facts, rank)
  }

  /** A merge keeps `superseded_by` acyclic. */
  lemma MergeKeepsAcyclic(before: Db, after: Db, plan: seq<ClusterMerge>)
    requires Mergeable(before.facts, plan) && Image(before, after, Redirects(plan), Raises(plan))
    requires NoOrphans(before) && Acyclic(before.facts)
    ensures Acyclic(after.facts)
  {
    var rank :| Descends(before.facts, rank);
    var lowered: map<int, nat> := map x | x in rank :: if x in Raises(plan) then 0 else rank[x] + 1;
    forall x | x in after.facts && after.facts[x].supersededBy.Some? && after.facts[x].supersededBy.value in after.facts
      ensures lowered[after.facts[x].supersededBy.value] < lowered[x]
    {
      var y := before.facts[x].supersededBy.value;
      RedirectsWithin(plan, x);
      RedirectsWithin(plan, y);
      assert x !in Raises(plan);
      if y in Redirects(plan) {
        var k :| 0 <= k < |plan| && y in plan[k].losers && Redirects(plan)[y] == plan[k].survivor;
        RedirectsWithin(plan, plan[k].survivor);
      }
    }
    assert Descends(after.facts, lowered);
  }

  // ------------------------------------------------------------------
  // Plan and merge
  // ------------------------------------------------------------------

  /** What a merge of the whole store promises. */
  ghost predicate Merged(before: Db, after: Db, plan: seq<ClusterMerge>) {
    && Image(before, after, Redirects(plan), Raises(plan))
    && Total(Column(after.facts, (f: Fact) => f.retrieval)) == Total(Column(before.facts, (f: Fact) => f.retrieval))
    && Total(Column(after.facts, (f: Fact) => f.helpful)) == Total(Column(before.facts, (f: Fact) => f.helpful))
    && ActiveSet(after.facts) == ActiveSet(before.facts) - Redirects(plan).Keys
    && |ActiveSet(after.facts)| == |ActiveSet(before.facts)| - DropCount(plan)
    && (NoOrphans(before) ==> NoOrphans(after) && (Acyclic(before.facts) ==> Acyclic(after.facts)))
  }

  lemma ImageIsMerged(before: Db, after: Db, plan: seq<ClusterMerge>)
    requires Mergeable(before.facts, plan) && Image(before, after, Redirects(plan), Raises(plan))
    ensures Merged(before, after, plan)
  {
    MergeConservesCounts(before, after, plan);
    MergeDropsExactlyLosers(before, after, plan);
    if NoOrphans(before) {
      MergeLeavesNoOrphan(before, after, plan);
      if Acyclic(before.facts) {
        MergeKeepsAcyclic(before, after, plan);
      }
    }
  }

  /** Some row names the fact. */
  ghost predicate Names(db: Db, x: int) {
    || (exists y :: y in db.facts && db.facts[y].supersededBy.Some? && db.facts[y].supersededBy.value == x)
    || (exists k :: k in db.references && db.references[k] == x)
    || (exists k :: k in db.links && k.fact == x)
    || (exists k :: k in db.owned && k.fact == x)
  }

  /** The check for orphans passes exactly when every fact that some row names is there. */
  lemma NoOrphansIff(db: Db)
    ensures NoOrphans(db) <==> forall x :: Names(db, x) ==> x in db.facts
  {
    if forall x :: Names(db, x) ==> x in db.facts {
      forall y | y in db.facts && db.facts[y].supersededBy.Some? ensures db.facts[y].supersededBy.value in db.facts {
        assert Names(db, db.facts[y].supersededBy.value);
      }
      forall k | k in db.references ensures db.references[k] in db.facts {
        assert Names(db, db.references[k]);
      }
      forall k | k in db.links ensures k.fact in db.facts {
        assert Names(db, k.fact);
      }
      forall k | k in db.owned ensures k.fact in db.facts {
        assert Names(db, k.fact);
      }
    }
  }

  lemma ActiveSetIs(facts: Facts, x: int)
    ensures x in ActiveSet(facts) <==>
      x in facts && !facts[x].invalid && facts[x].supersededBy.None? && !facts[x].conflicted && !facts[x].legacy
  {
  }

  /** The guard rails of a merge: the band the drop count must lie in, and the share of the store it may drop. */
  datatype Guards = Guards(dropMin: int, dropMax: int, maxFraction: real) {
    predicate Admit(drop: nat, starting: nat) {
      dropMin <= drop <= dropMax && (starting > 0 ==> drop as real <= maxFraction * starting as real)
    }
  }

  /** The drop count is in its band, and no greater part of the active facts than is allowed. */
  ghost predicate WithinRails(guards: Guards, drop: nat, starting: nat) {
    && !(drop < guards.dropMin) && !(guards.dropMax < drop)
    && (starting == 0 || !(guards.maxFraction * starting as real < drop as real))
  }

  lemma AdmitIff(guards: Guards, drop: nat, starting: nat)
    ensures guards.Admit(drop, starting) <==> WithinRails(guards, drop, starting)
  {
  }

  datatype MergeResult = Refused | DryRun(drop: nat, projected: int) | Executed(drop: nat, projected: int, final: nat)

  lemma MergedKeepsCitationsIff(before: Db, after: Db, clusters: seq<seq<int>>, plan: seq<ClusterMerge>)
    requires Mergeable(before.facts, plan) && Image(before, after, Redirects(plan), Raises(plan))
      && |plan| <= |clusters|
    requires TagsAfter(before, after, plan, PlannedCites(before, clusters, plan))
      && before.tags.Keys == before.facts.Keys
    ensures TagsPlanned(plan, PlannedCites(before, clusters, plan))
    ensures NoDanglingCites(after) <==> AllSound(before, plan, PlannedCites(before, clusters, plan))
  {
    forall k | 0 <= k < |plan| ensures plan[k].survivor in PlannedCites(before, clusters, plan) {
      EverySurvivorHasTags(before.tags, clusters, plan, k);
    }
    CitationsKeptIff(before, after, plan, PlannedCites(before, clusters, plan));
  }

  /** What the survivors' tags cite, as planned. */
  function PlannedCites(before: Db, clusters: seq<seq<int>>, plan: seq<ClusterMerge>): map<int, set<int>>
    requires |plan| <= |clusters|
  {
    CitesOf(PlannedTags(before.tags, clusters, plan))
  }

  /** No fact cites a missing fact after the merge exactly when the citations of all that are left are sound. */
  ghost predicate CitationsDecided(before: Db, after: Db, clusters: seq<seq<int>>, plan: seq<ClusterMerge>) {
    && |plan| == |clusters| && before.tags.Keys == before.facts.Keys
    && TagsPlanned(plan, PlannedCites(before, clusters, plan))
    && (NoDanglingCites(after) <==> AllSound(before, plan, PlannedCites(before, clusters, plan)))
  }

  /**
  `execute_merge`, from the store to the store. A dry run and a refusal leave it as it was. An
  executed merge is admitted by the guards; it carries out the one plan there is for the clusters of
  near duplicates; its final active count is the projected one; and the check for orphans never
  refuses a store that had none. `sound` is what SQLite's integrity checks say of the result.
  */
  method ExecuteMerge(merger: Merger, ids: seq<int>, similar: (int, int) -> bool, cutoff: int, dryRun: bool,
                      guards: Guards, sound: bool)
    returns (r: MergeResult, ghost plan: seq<ClusterMerge>, ghost clusters: seq<seq<int>>)
    requires ActiveIds(merger.db.facts, ids) && merger.db.tags.Keys == merger.db.facts.Keys
    modifies merger
    ensures IsPlan(old(merger.db).facts, ids, similar, cutoff, clusters, plan)
    ensures ClustersAgree(Subjects(old(merger.db).facts), clusters)
    ensures !r.Executed? ==> merger.db == old(merger.db)
    ensures r.DryRun? <==> dryRun
    ensures r.DryRun? ==> r.drop == DropCount(plan) && r.projected == |ActiveSet(old(merger.db).facts)| - r.drop
    ensures NoOrphans(old(merger.db)) ==>
      (r.Executed? <==> !dryRun && sound && WithinRails(guards, DropCount(plan), |ActiveSet(old(merger.db).facts)|))
    ensures r.Executed? ==>
      && Merged(old(merger.db), merger.db, plan) && (forall x :: Names(merger.db, x) ==> x in merger.db.facts)
      && r.drop == DropCount(plan) && r.projected == r.final == |ActiveSet(merger.db.facts)|
      && WithinRails(guards, r.drop, |ActiveSet(old(merger.db).facts)|)
      && CitationsDecided(old(merger.db), merger.db, clusters, plan)
  {
    var before := merger.db;
    var planned, found := PlanMerge(before.facts, ids, similar, cutoff);
    plan, clusters := planned, found;
    var starting, drop := |ActiveSet(before.facts)|, DropCount(planned);
    if dryRun {
      return DryRun(drop, starting - drop), plan, clusters;
    }
    AdmitIff(guards, drop, starting);
    if !guards.Admit(drop, starting) {
      return Refused, plan, clusters;
    }
    merger.ApplyMerge(planned, PlannedTags(before.tags, found, planned));
    ImageIsMerged(before, merger.db, plan);
    MergedKeepsCitationsIff(before, merger.db, clusters, plan);
    NoOrphansIff(merger.db);
    if !NoOrphans(merger.db) || !sound {
      merger.db := before;
      return Refused, plan, clusters;
    }
    return Executed(drop, starting - drop, |ActiveSet(merger.db.facts)|), plan, clusters;
  }
}

/** Applying a merge plan: counts onto survivors, references redirected, losers deleted. */
module ClusterApply {
  import opened Prelude
  import opened ClusterBuild
  import opened ClusterPlan
  import opened ClusterTags

  /** A row that names a fact in its primary key; `rest` is the rest of the key. */
  datatype LinkKey = LinkKey(table: string, fact: int, rest: string)

  /** The fact table and its dependents, grouped by what a merge does to them. */
  datatype Db = Db(
    facts: Facts,
    /** Columns that are updated: write log, erasure log, conflict resolutions; by table and row. */
    references: map<(string, nat), int>,
    /** Rows that are moved unless the survivor has its own: entities, provenance, conflict members. */
    links: map<LinkKey, string>,
    /** Rows that die with the loser: embedding jobs and vectors. */
    owned: map<LinkKey, string>,
    tags: map<int, Tags>,
    /** The active facts of the category `insight`. */
    insights: set<int>)
  {
    /** The facts that each fact's tags cite. */
    function Cites(): map<int, set<int>> {
      CitesOf(tags)
    }
  }

  function CitesOf(tags: map<int, Tags>): map<int, set<int>> {
    map x | x in tags :: Cited(tags[x])
  }

  // ------------------------------------------------------------------
  // One loser at a time
  // ------------------------------------------------------------------

  function Redirected(ref: Option<int>, loser: int, survivor: int): Option<int> {
    if ref == Some(loser) then Some(survivor) else ref
  }

  /** `UPDATE OR IGNORE`, then delete what could not move. */
  function MovedLinks(links: map<LinkKey, string>, loser: int, survivor: int): map<LinkKey, string> {
    var stay := map k | k in links && k.fact != loser :: links[k];
    var moved := map k | k in links && k.fact == loser
      && k.(fact := survivor) !in links :: k.(fact := survivor) := links[k];
    stay + moved
  }

  function RedirectedReferences(references: map<(string, nat), int>, loser: int, survivor: int): map<(string, nat), int>
  {
    map k | k in references :: if references[k] == loser then survivor else references[k]
  }

  function RedirectedFacts(facts: Facts, loser: int, survivor: int): Facts {
    map x | x in facts && x != loser ::
      facts[x].(supersededBy := if x == survivor && facts[x].supersededBy == Some(loser) then None
                                else Redirected(facts[x].supersededBy, loser, survivor))
  }

  function OwnedWithout(owned: map<LinkKey, string>, loser: int): map<LinkKey, string> {
    map k | k in owned && k.fact != loser :: owned[k]
  }

  /** `_rewrite_reflection_source_tags`, and the tags of the loser go with it. */
  function RewrittenTags(tags: map<int, Tags>, insights: set<int>, loser: int, survivor: int): map<int, Tags> {
    map x | x in tags && x != loser :: if x in insights then Rewritten(tags[x], None, loser, survivor) else tags[x]
  }

  /** What the tags cite once they are rewritten. */
  function CitesWithout(cites: map<int, set<int>>, insights: set<int>, loser: int, survivor: int): map<int, set<int>> {
    map x | x in cites && x != loser :: if x in insights then Renamed(cites[x], loser, survivor) else cites[x]
  }

  lemma TagsWithoutCite(tags: map<int, Tags>, insights: set<int>, loser: int, survivor: int)
    requires loser != survivor
    ensures CitesOf(RewrittenTags(tags, insights, loser, survivor))
      == CitesWithout(CitesOf(tags), insights, loser, survivor)
  {
    forall x | x in tags && x in insights
      ensures Cited(Rewritten(tags[x], None, loser, survivor)) == Renamed(Cited(tags[x]), loser, survivor)
    {
      RewrittenCites(tags[x], loser, survivor);
    }
  }

  /** `_merge_fact_references` and the delete of the loser. */
  function WithoutLoser(db: Db, loser: int, survivor: int): Db {
    Db(RedirectedFacts(db.facts, loser, survivor), RedirectedReferences(db.references, loser, survivor),
       MovedLinks(db.links, loser, survivor), OwnedWithout(db.owned, loser),
       RewrittenTags(db.tags, db.insights, loser, survivor), db.insights - {loser})
  }

  function WithCounts(facts: Facts, merge: ClusterMerge): Facts
    requires merge.survivor in facts
  {
    facts[merge.survivor := facts[merge.survivor].(retrieval := merge.retrieval, helpful := merge.helpful)]
  }

  // ------------------------------------------------------------------
  // All of them at once
  // ------------------------------------------------------------------

  type Redirect = map<int, int>

  function Sigma(redirect: Redirect, x: int): int {
    if x in redirect then redirect[x] else x
  }

  function SigmaRef(redirect: Redirect, ref: Option<int>): Option<int> {
    match ref case None => None case Some(x) => Some(Sigma(redirect, x))
  }

  /** Where each loser of a plan goes. */
  function Redirects(plan: seq<ClusterMerge>): (redirect: Redirect)
  {
    if plan == [] then map[]
    else
      var last := plan[|plan| - 1];
      Redirects(plan[..|plan| - 1]) + map x | x in last.losers :: last.survivor
  }

  /** The merge that decides a survivor's counts. */
  function Raises(plan: seq<ClusterMerge>): map<int, ClusterMerge> {
    if plan == [] then map[]
    else Raises(plan[..|plan| - 1])[plan[|plan| - 1].survivor := plan[|plan| - 1]]
  }

  function FactAfter(fact: Fact, x: int, redirect: Redirect, raised: map<int, ClusterMerge>): Fact {
    fact.(supersededBy := SigmaRef(redirect, fact.supersededBy),
          retrieval := if x in raised then raised[x].retrieval else fact.retrieval,
          helpful := if x in raised then raised[x].helpful else fact.helpful)
  }

  function FactsAfter(facts: Facts, redirect: Redirect, raised: map<int, ClusterMerge>): Facts {
    map x | x in facts && x !in redirect :: FactAfter(facts[x], x, redirect, raised)
  }

  function ReferencesAfter(references: map<(string, nat), int>, redirect: Redirect): map<(string, nat), int> {
    map k | k in references :: Sigma(redirect, references[k])
  }

  function OwnedAfter(owned: map<LinkKey, string>, redirect: Redirect): map<LinkKey, string> {
    map k | k in owned && k.fact !in redirect :: owned[k]
  }

  /** The old row's place, after the redirection, is taken. */
  ghost predicate Arrives(after: map<LinkKey, string>, redirect: Redirect, k: LinkKey) {
    k.(fact := Sigma(redirect, k.fact)) in after
  }

  /** The new row is some old row redirected, and it is the row that was already there if there was one. */
  ghost predicate Originates(before: map<LinkKey, string>, redirect: Redirect, k: LinkKey, payload: string) {
    && k.fact !in redirect
    && (k in before ==> payload == before[k])
    && exists f :: k.(fact := f) in before && Sigma(redirect, f) == k.fact && before[k.(fact := f)] == payload
  }

  /** The link table is the image of the old one; a survivor's own row wins over a loser's. */
  ghost predicate LinksImage(before: map<LinkKey, string>, after: map<LinkKey, string>, redirect: Redirect) {
    && (forall k {:trigger Arrives(after, redirect, k)} :: k in before ==> Arrives(after, redirect, k))
    && (forall k {:trigger Originates(before, redirect, k, after[k])} :: k in after ==>
       Originates(before, redirect, k, after[k]))
  }

  /** The tables after every loser in `redirect` went to its survivor, in whatever order. */
  ghost predicate Image(before: Db, after: Db, redirect: Redirect, raised: map<int, ClusterMerge>) {
    && after.facts == FactsAfter(before.facts, redirect, raised)
    && after.references == ReferencesAfter(before.references, redirect)
    && LinksImage(before.links, after.links, redirect)
    && after.owned == OwnedAfter(before.owned, redirect)
  }

  /** The next loser is new, and nobody was sent to it or will be sent on from its survivor. */
  ghost predicate Extends(redirect: Redirect, loser: int, survivor: int) {
    && loser !in redirect && survivor !in redirect && loser != survivor
    && (forall x :: x in redirect ==> redirect[x] != loser)
  }

  lemma FactStep(fact: Fact, x: int, redirect: Redirect, raised: map<int, ClusterMerge>, loser: int, survivor: int)
    requires Extends(redirect, loser, survivor) && (x == survivor ==> fact.supersededBy == None)
    ensures var was := FactAfter(fact, x, redirect, raised);
      FactAfter(fact, x, redirect[loser := survivor], raised)
      == was.(supersededBy := if x == survivor && was.supersededBy == Some(loser) then None
                              else Redirected(was.supersededBy, loser, survivor))
  {
  }

  lemma FactsStep(facts: Facts, redirect: Redirect, raised: map<int, ClusterMerge>, loser: int, survivor: int)
    requires Extends(redirect, loser, survivor) && survivor in facts && facts[survivor].supersededBy == None
    ensures RedirectedFacts(FactsAfter(facts, redirect, raised), loser, survivor)
      == FactsAfter(facts, redirect[loser := survivor], raised)
  {
    var got := RedirectedFacts(FactsAfter(facts, redirect, raised), loser, survivor);
    var want := FactsAfter(facts, redirect[loser := survivor], raised);
    assert got.Keys == want.Keys;
    forall x | x in got ensures got[x] == want[x] {
      FactStep(facts[x], x, redirect, raised, loser, survivor);
    }
  }

  lemma LinkArrives(before: map<LinkKey, string>, links: map<LinkKey, string>, redirect: Redirect, loser: int,
                    survivor: int, k: LinkKey)
    requires Extends(redirect, loser, survivor) && LinksImage(before, links, redirect) && k in before
    ensures Arrives(MovedLinks(links, loser, survivor), redirect[loser := survivor], k)
  {
    assert Arrives(links, redirect, k);
    var there := k.(fact := Sigma(redirect, k.fact));
    assert there.(fact := survivor) == k.(fact := survivor);
  }

  lemma LinkOriginates(before: map<LinkKey, string>, links: map<LinkKey, string>, redirect: Redirect, loser: int,
                       survivor: int, k: LinkKey)
    requires Extends(redirect, loser, survivor) && LinksImage(before, links, redirect)
    requires k in MovedLinks(links, loser, survivor)
    ensures Originates(before, redirect[loser := survivor], k, MovedLinks(links, loser, survivor)[k])
  {
    var more := redirect[loser := survivor];
    if k in links {
      assert Originates(before, redirect, k, links[k]);
      var f :| k.(fact := f) in before && Sigma(redirect, f) == k.fact && before[k.(fact := f)] == links[k];
      assert Sigma(more, f) == k.fact;
    } else {
      var origin := k.(fact := loser);
      assert origin in links && k.fact == survivor;
      assert Originates(before, redirect, origin, links[origin]);
      var f :| origin.(fact := f) in before && Sigma(redirect, f) == loser
        && before[origin.(fact := f)] == links[origin];
      assert f == loser && k.(fact := f) == origin;
      assert k in before ==> Arrives(links, redirect, k);
    }
  }

  lemma LinksStep(before: map<LinkKey, string>, links: map<LinkKey, string>, redirect: Redirect, loser: int,
                  survivor: int)
    requires Extends(redirect, loser, survivor) && LinksImage(before, links, redirect)
    ensures LinksImage(before, MovedLinks(links, loser, survivor), redirect[loser := survivor])
  {
    var more := redirect[loser := survivor];
    var after := MovedLinks(links, loser, survivor);
    forall k | k in before ensures Arrives(after, more, k) {
      LinkArrives(before, links, redirect, loser, survivor, k);
    }
    forall k | k in after ensures Originates(before, more, k, after[k]) {
      LinkOriginates(before, links, redirect, loser, survivor, k);
    }
  }

  lemma ReferencesStep(references: map<(string, nat), int>, redirect: Redirect, loser: int, survivor: int)
    requires Extends(redirect, loser, survivor)
    ensures RedirectedReferences(ReferencesAfter(references, redirect), loser, survivor)
      == ReferencesAfter(references, redirect[loser := survivor])
  {
    forall k | k in references
      ensures ReferencesAfter(references, redirect[loser := survivor])[k]
        == RedirectedReferences(ReferencesAfter(references, redirect), loser, survivor)[k]
    {
    }
  }

  lemma OwnedStep(owned: map<LinkKey, string>, redirect: Redirect, loser: int, survivor: int)
    ensures OwnedWithout(OwnedAfter(owned, redirect), loser) == OwnedAfter(owned, redirect[loser := survivor])
  {
    var got, want := OwnedWithout(OwnedAfter(owned, redirect), loser), OwnedAfter(owned, redirect[loser := survivor]);
    forall k ensures k in got <==> k in want {
    }
  }

  lemma ImageStep(before: Db, db: Db, redirect: Redirect, raised: map<int, ClusterMerge>, loser: int, survivor: int)
    requires Extends(redirect, loser, survivor) && survivor in before.facts
      && before.facts[survivor].supersededBy == None
    requires Image(before, db, redirect, raised)
    ensures Image(before, WithoutLoser(db, loser, survivor), redirect[loser := survivor], raised)
  {
    var more, after := redirect[loser := survivor], WithoutLoser(db, loser, survivor);
    assert after.facts == FactsAfter(before.facts, more, raised) by {
      FactsStep(before.facts, redirect, raised, loser, survivor);
    }
    assert after.references == ReferencesAfter(before.references, more) by {
      ReferencesStep(before.references, redirect, loser, survivor);
    }
    assert LinksImage(before.links, after.links, more) by {
      LinksStep(before.links, db.links, redirect, loser, survivor);
    }
    assert after.owned == OwnedAfter(before.owned, more) by {
      OwnedStep(before.owned, redirect, loser, survivor);
    }
  }

  lemma RaiseStep(before: Db, db: Db, redirect: Redirect, raised: map<int, ClusterMerge>, merge: ClusterMerge)
    requires Image(before, db, redirect, raised) && merge.survivor in before.facts && merge.survivor !in redirect
    ensures merge.survivor in db.facts
    ensures Image(before, db.(facts := WithCounts(db.facts, merge)), redirect, raised[merge.survivor := merge])
  {
    var got, want := WithCounts(db.facts, merge), FactsAfter(before.facts, redirect, raised[merge.survivor := merge]);
    assert got.Keys == want.Keys;
    forall x | x in got ensures got[x] == want[x] {
      assert x != merge.survivor ==> got[x] == FactAfter(before.facts[x], x, redirect, raised);
    }
    assert got == want;
  }

  /** The losers of one cluster, all sent to its survivor. */
  function Sent(losers: seq<int>, survivor: int): Redirect {
    map x | x in losers :: survivor
  }

  /** A cluster that shares no fact with those already merged. */
  ghost predicate Untouched(redirect: Redirect, raised: map<int, ClusterMerge>, merge: ClusterMerge) {
    && (forall x :: x in Touched(merge) ==> x !in redirect && x !in raised)
    && (forall x :: x in redirect ==> redirect[x] !in Touched(merge))
  }

  lemma SentOneMore(losers: seq<int>, survivor: int, i: nat)
    requires i < |losers|
    ensures Sent(losers[..i + 1], survivor) == Sent(losers[..i], survivor)[losers[i] := survivor]
  {
    assert losers[..i + 1] == losers[..i] + [losers[i]];
  }

  lemma SentExtends(redirect: Redirect, sent: Redirect, loser: int, survivor: int)
    requires Extends(redirect, loser, survivor) && loser !in sent && survivor !in sent
    requires forall x :: x in sent ==> sent[x] == survivor
    ensures Extends(redirect + sent, loser, survivor)
    ensures (redirect + sent)[loser := survivor] == redirect + sent[loser := survivor]
  {
  }

  lemma NextLoserExtends(redirect: Redirect, raised: map<int, ClusterMerge>, merge: ClusterMerge, i: nat)
    requires Untouched(redirect, raised, merge) && Distinct(merge.losers) && merge.survivor !in merge.losers
    requires i < |merge.losers|
    ensures Extends(redirect + Sent(merge.losers[..i], merge.survivor), merge.losers[i], merge.survivor)
    ensures (redirect + Sent(merge.losers[..i], merge.survivor))[merge.losers[i] := merge.survivor]
      == redirect + Sent(merge.losers[..i + 1], merge.survivor)
  {
    var losers, survivor := merge.losers, merge.survivor;
    SentOneMore(losers, survivor, i);
    assert losers[i] in Touched(merge) && survivor in Touched(merge);
    assert losers[i] !in losers[..i] && survivor !in losers[..i];
    SentExtends(redirect, Sent(losers[..i], survivor), losers[i], survivor);
  }

  lemma {:induction false} RedirectsWithin(plan: seq<ClusterMerge>, x: int)
    ensures x in Redirects(plan) ==>
      exists k :: 0 <= k < |plan| && x in plan[k].losers && Redirects(plan)[x] == plan[k].survivor
    ensures x in Raises(plan) ==> exists k :: 0 <= k < |plan| && plan[k].survivor == x && Raises(plan)[x] == plan[k]
    ensures (exists k :: 0 <= k < |plan| && x in plan[k].losers) ==> x in Redirects(plan)
    ensures (exists k :: 0 <= k < |plan| && plan[k].survivor == x) ==> x in Raises(plan)
  {
    if plan != [] {
      var init := plan[..|plan| - 1];
      RedirectsWithin(init, x);
      assert forall k :: 0 <= k < |init| ==> init[k] == plan[k];
    }
  }

  lemma NextClusterUntouched(facts: Facts, plan: seq<ClusterMerge>, n: nat)
    requires Mergeable(facts, plan) && n < |plan|
    ensures Untouched(Redirects(plan[..n]), Raises(plan[..n]), plan[n])
  {
    forall x ensures x in Touched(plan[n]) ==> x !in Redirects(plan[..n]) && x !in Raises(plan[..n]) {
      RedirectsWithin(plan[..n], x);
    }
    forall x ensures x in Redirects(plan[..n]) ==> Redirects(plan[..n])[x] !in Touched(plan[n]) {
      RedirectsWithin(plan[..n], x);
    }
  }

  lemma NextClusterAppended(plan: seq<ClusterMerge>, n: nat)
    requires n < |plan|
    ensures Redirects(plan[..n + 1]) == Redirects(plan[..n]) + Sent(plan[n].losers, plan[n].survivor)
    ensures Raises(plan[..n + 1]) == Raises(plan[..n])[plan[n].survivor := plan[n]]
  {
    assert plan[..n + 1][..n] == plan[..n];
  }

  // ------------------------------------------------------------------
  // Citations
  // ------------------------------------------------------------------

  /** The cited ids, each loser replaced by the survivor. */
  function Resent(cited: set<int>, losers: seq<int>, survivor: int): set<int> {
    set c | c in cited :: if c in losers then survivor else c
  }

  /** One cluster's effect on the tags: the survivor takes the planned ones, then every loser is replaced. */
  function CitesOfCluster(cites: map<int, set<int>>, insights: set<int>, losers: seq<int>,
                          survivor: int): map<int, set<int>>
  {
    map x | x in cites && x !in losers :: if x in insights then Resent(cites[x], losers, survivor) else cites[x]
  }

  /** The tags after a plan; `tags` are the merged tags of each survivor, as planned. */
  function CitesAfter(cites: map<int, set<int>>, insights: set<int>, plan: seq<ClusterMerge>,
                      tags: map<int, set<int>>): map<int, set<int>>
  {
    if plan == [] then cites
    else
      var last := plan[|plan| - 1];
      CitesOfCluster(WithTags(CitesAfter(cites, insights, plan[..|plan| - 1], tags), tags, last.survivor), insights,
        last.losers, last.survivor)
  }

  function WithTags(cites: map<int, set<int>>, tags: map<int, set<int>>, survivor: int): map<int, set<int>> {
    if survivor in tags then cites[survivor := tags[survivor]] else cites
  }

  function Ids(losers: seq<int>): set<int> {
    set x | x in losers
  }

  predicate Names(cited: set<int>, losers: seq<int>) {
    exists c :: c in cited && c in losers
  }

  /** The merged tags of every survivor, as they are when the plan is made. */
  function PlannedTags(tags: map<int, Tags>, clusters: seq<seq<int>>, plan: seq<ClusterMerge>): map<int, Tags>
    requires |plan| <= |clusters|
  {
    if plan == [] then map[]
    else
      var k := |plan| - 1;
      PlannedTags(tags, clusters, plan[..k])[plan[k].survivor := MergedTags(tags, clusters[k])]
  }

  lemma {:induction false} EverySurvivorHasTags(tags: map<int, Tags>, clusters: seq<seq<int>>, plan: seq<ClusterMerge>,
                                                k: nat)
    requires k < |plan| <= |clusters|
    ensures plan[k].survivor in PlannedTags(tags, clusters, plan)
    decreases |plan|
  {
    var n := |plan| - 1;
    if k < n {
      EverySurvivorHasTags(tags, clusters, plan[..n], k);
    }
  }

  lemma ResentOneMore(cited: set<int>, losers: seq<int>, survivor: int, i: nat)
    requires i < |losers| && survivor !in losers && Distinct(losers)
    ensures Resent(cited, losers[..i + 1], survivor)
      == Renamed(Resent(cited, losers[..i], survivor), losers[i], survivor)
  {
    var few, more, loser := losers[..i], losers[..i + 1], losers[i];
    assert more == few + [loser] && loser in losers && loser !in few;
    assert Names(cited, more) <==> Names(cited, few) || loser in cited by {
      if Names(cited, few) {
        var c :| c in cited && c in few;
        assert c in more;
      }
      assert loser in more;
    }
    forall d ensures d in Resent(cited, more, survivor) <==>
      d in Renamed(Resent(cited, few, survivor), loser, survivor) {
    }
  }

  lemma CitesOneMore(cites: map<int, set<int>>, insights: set<int>, losers: seq<int>, survivor: int, i: nat)
    requires i < |losers| && survivor !in losers && Distinct(losers)
    ensures CitesOfCluster(cites, insights, losers[..i + 1], survivor)
      == CitesWithout(CitesOfCluster(cites, insights, losers[..i], survivor), insights - Ids(losers[..i]), losers[i],
        survivor)
    ensures insights - Ids(losers[..i + 1]) == insights - Ids(losers[..i]) - {losers[i]}
  {
    assert losers[..i + 1] == losers[..i] + [losers[i]];
    forall x | x in cites && x !in losers[..i + 1] ensures
      Resent(cites[x], losers[..i + 1], survivor)
        == Renamed(Resent(cites[x], losers[..i], survivor), losers[i], survivor)
    {
      ResentOneMore(cites[x], losers, survivor, i);
    }
  }

  lemma CitesStart(cites: map<int, set<int>>, insights: set<int>, survivor: int)
    ensures CitesOfCluster(cites, insights, [], survivor) == cites
  {
    forall x | x in cites ensures Resent(cites[x], [], survivor) == cites[x] {
      assert forall c :: c in cites[x] <==> c in Resent(cites[x], [], survivor);
    }
  }

  lemma CitesIgnoreDeleted(cites: map<int, set<int>>, insights: set<int>, gone: set<int>, losers: seq<int>,
                           survivor: int)
    requires cites.Keys !! gone
    ensures CitesOfCluster(cites, insights - gone, losers, survivor)
      == CitesOfCluster(cites, insights, losers, survivor)
  {
  }

  class Merger {
    var db: Db

    constructor (db: Db)
      ensures this.db == db
    {
      this.db := db;
    }

    /** `_merge_fact_references`, then `DELETE FROM facts`. */
    method MergeLoser(loser: int, survivor: int)
      modifies this
      ensures db == WithoutLoser(old(db), loser, survivor)
    {
      var facts := db.facts;
      if survivor in facts && facts[survivor].supersededBy == Some(loser) {
        facts := facts[survivor := facts[survivor].(supersededBy := None)];
      }
      facts := map x | x in facts :: facts[x].(supersededBy := Redirected(facts[x].supersededBy, loser, survivor));
      facts := map x | x in facts && x != loser :: facts[x];
      assert facts == RedirectedFacts(db.facts, loser, survivor);
      db := Db(facts, RedirectedReferences(db.references, loser, survivor),
               MovedLinks(db.links, loser, survivor), OwnedWithout(db.owned, loser),
               RewrittenTags(db.tags, db.insights, loser, survivor), db.insights - {loser});
    }

    method MergeCluster(merge: ClusterMerge, planned: map<int, Tags>, ghost before: Db, ghost redirect: Redirect,
                        ghost raised: map<int, ClusterMerge>)
      requires Image(before, db, redirect, raised)
      requires MergeOk(before.facts, merge) && Untouched(redirect, raised, merge)
      modifies this
      ensures Image(before, db, redirect + Sent(merge.losers, merge.survivor), raised[merge.survivor := merge])
      ensures Citing(db, WithTags(old(db).Cites(), CitesOf(planned), merge.survivor), old(db).insights, merge.losers,
        merge.survivor)
    {
      assert merge.survivor in Touched(merge);
      RaiseStep(before, db, redirect, raised, merge);
      ghost var insights := db.insights;
      ghost var cites := WithTags(db.Cites(), CitesOf(planned), merge.survivor);
      var tags := if merge.survivor in planned then db.tags[merge.survivor := planned[merge.survivor]] else db.tags;
      db := db.(facts := WithCounts(db.facts, merge), tags := tags);
      OverwritingTags(old(db).tags, planned, merge.survivor);
      assert db.Cites() == cites;
      MergingStarts(before, db, redirect, raised[merge.survivor := merge], merge.survivor);
      ghost var stage := db;
      for i := 0 to |merge.losers|
        invariant db == stage && Merging(before, stage, redirect, raised, merge, i, cites, insights)
      {
        MergingStep(before, stage, redirect, raised, merge, i, i + 1, cites, insights);
        MergeLoser(merge.losers[i], merge.survivor);
        stage := WithoutLoser(stage, merge.losers[i], merge.survivor);
      }
      assert merge.losers[..|merge.losers|] == merge.losers;
    }

    /**
    `_apply_merge`: every table becomes the image of the old one under loser-to-survivor, and the
    tags are rewritten cluster by cluster, over the tags that were planned for the survivors.
    */
    method ApplyMerge(plan: seq<ClusterMerge>, planned: map<int, Tags>)
      requires Mergeable(db.facts, plan) && db.tags.Keys == db.facts.Keys
      modifies this
      ensures Image(old(db), db, Redirects(plan), Raises(plan))
      ensures TagsAfter(old(db), db, plan, CitesOf(planned))
    {
      ghost var before := db;
      for n := 0 to |plan|
        invariant Image(before, db, Redirects(plan[..n]), Raises(plan[..n]))
        invariant TagsAfter(before, db, plan[..n], CitesOf(planned))
      {
        NextClusterUntouched(before.facts, plan, n);
        NextClusterAppended(plan, n);
        ghost var was := db;
        MergeCluster(plan[n], planned, before, Redirects(plan[..n]), Raises(plan[..n]));
        NextDone(before.facts, before.Cites(), before.insights, plan, n, CitesOf(planned), was.Cites(), was.insights);
      }
      assert plan[..|plan|] == plan;
    }
  }

  /** The tags once the losers were replaced in them. */
  ghost predicate Citing(db: Db, cites: map<int, set<int>>, insights: set<int>, losers: seq<int>, survivor: int) {
    db.Cites() == CitesOfCluster(cites, insights, losers, survivor) && db.insights == insights - Ids(losers)
  }

  /** Writing planned tags over a fact's own makes it cite what those cite. */
  lemma OverwritingTags(tags: map<int, Tags>, planned: map<int, Tags>, survivor: int)
    ensures CitesOf(if survivor in planned then tags[survivor := planned[survivor]] else tags)
      == WithTags(CitesOf(tags), CitesOf(planned), survivor)
  {
  }

  /** The tables when the first `i` losers of a cluster are gone. */
  ghost predicate Merging(before: Db, db: Db, redirect: Redirect, raised: map<int, ClusterMerge>, merge: ClusterMerge,
                          i: nat, cites: map<int, set<int>>, insights: set<int>)
  {
    && i <= |merge.losers|
    && Image(before, db, redirect + Sent(merge.losers[..i], merge.survivor), raised[merge.survivor := merge])
    && Citing(db, cites, insights, merge.losers[..i], merge.survivor)
  }

  lemma MergingStarts(before: Db, db: Db, redirect: Redirect, raised: map<int, ClusterMerge>, survivor: int)
    requires Image(before, db, redirect, raised)
    ensures Image(before, db, redirect + Sent([], survivor), raised)
      && Citing(db, db.Cites(), db.insights, [], survivor)
  {
    assert redirect + Sent([], survivor) == redirect;
    CitesStart(db.Cites(), db.insights, survivor);
  }

  lemma MergingStep(before: Db, db: Db, redirect: Redirect, raised: map<int, ClusterMerge>, merge: ClusterMerge, i: nat,
                    next: nat, cites: map<int, set<int>>, insights: set<int>)
    requires MergeOk(before.facts, merge) && Untouched(redirect, raised, merge) && i < |merge.losers| && next == i + 1
    requires Merging(before, db, redirect, raised, merge, i, cites, insights)
    ensures Merging(before, WithoutLoser(db, merge.losers[i], merge.survivor), redirect, raised, merge, next, cites,
      insights)
  {
    NextLoserExtends(redirect, raised, merge, i);
    ImageStep(before, db, redirect + Sent(merge.losers[..i], merge.survivor), raised[merge.survivor := merge],
              merge.losers[i], merge.survivor);
    CitesOneMore(cites, insights, merge.losers, merge.survivor, i);
    TagsWithoutCite(db.tags, db.insights, merge.losers[i], merge.survivor);
  }

  /** What the tags cite after a plan; every fact that is left has some. */
  ghost predicate CitesDone(facts: Facts, before: map<int, set<int>>, insights: set<int>, plan: seq<ClusterMerge>,
                            tags: map<int, set<int>>, cites: map<int, set<int>>, left: set<int>)
  {
    && cites == CitesAfter(before, insights, plan, tags)
    && cites.Keys == facts.Keys - Redirects(plan).Keys && left == insights - Redirects(plan).Keys
  }

  /** The tags after a plan. */
  ghost predicate TagsAfter(before: Db, db: Db, plan: seq<ClusterMerge>, tags: map<int, set<int>>) {
    CitesDone(before.facts, before.Cites(), before.insights, plan, tags, db.Cites(), db.insights)
  }

  lemma NextCites(facts: Facts, cites: map<int, set<int>>, insights: set<int>, plan: seq<ClusterMerge>, n: nat,
                  tags: map<int, set<int>>)
    requires Mergeable(facts, plan) && n < |plan| && Untouched(Redirects(plan[..n]), Raises(plan[..n]), plan[n])
    requires CitesAfter(cites, insights, plan[..n], tags).Keys == facts.Keys - Redirects(plan[..n]).Keys
    ensures CitesAfter(cites, insights, plan[..n + 1], tags)
      == CitesOfCluster(WithTags(CitesAfter(cites, insights, plan[..n], tags), tags, plan[n].survivor),
                        insights - Redirects(plan[..n]).Keys, plan[n].losers, plan[n].survivor)
    ensures CitesAfter(cites, insights, plan[..n + 1], tags).Keys
      == facts.Keys - Redirects(plan[..n]).Keys - Ids(plan[n].losers)
  {
    var merge, gone := plan[n], Redirects(plan[..n]).Keys;
    var now := WithTags(CitesAfter(cites, insights, plan[..n], tags), tags, merge.survivor);
    assert plan[..n + 1][..n] == plan[..n];
    assert MergeOk(facts, merge) && merge.survivor in Touched(merge);
    assert now.Keys == facts.Keys - gone;
    CitesIgnoreDeleted(now, insights, gone, merge.losers, merge.survivor);
  }

  lemma NextDone(facts: Facts, before: map<int, set<int>>, insights: set<int>, plan: seq<ClusterMerge>, n: nat,
                 tags: map<int, set<int>>, cites: map<int, set<int>>, left: set<int>)
    requires Mergeable(facts, plan) && n < |plan| && Untouched(Redirects(plan[..n]), Raises(plan[..n]), plan[n])
    requires Redirects(plan[..n + 1]) == Redirects(plan[..n]) + Sent(plan[n].losers, plan[n].survivor)
    requires CitesDone(facts, before, insights, plan[..n], tags, cites, left)
    ensures CitesDone(facts, before, insights, plan[..n + 1], tags,
                      CitesOfCluster(WithTags(cites, tags, plan[n].survivor), left, plan[n].losers, plan[n].survivor),
                      left - Ids(plan[n].losers))
  {
    NextCites(facts, before, insights, plan, n, tags);
    assert Redirects(plan[..n + 1]).Keys == Redirects(plan[..n]).Keys + Ids(plan[n].losers);
  }

}

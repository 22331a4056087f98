/** The comma-separated tags of a fact, and the facts they cite as sources. */
module ClusterTags {
  import opened Prelude

  /** One tag: `source_facts:<id>`, a bare number, or any other word. */
  datatype Piece = Source(id: int) | Number(id: int) | Word(text: string)

  type Tags = seq<Piece>

  /**
  The ids that tags cite: those of source tags, and the numbers right behind one; `run` says whether one came
  just before.
  */
  function CitedIn(tags: Tags, run: bool): set<int> {
    if tags == [] then {}
    else
      match tags[0]
      case Source(id) => {id} + CitedIn(tags[1..], true)
      case Number(id) => (if run then {id} else {}) + CitedIn(tags[1..], run)
      case Word(_) => CitedIn(tags[1..], false)
  }

  function Cited(tags: Tags): set<int> {
    CitedIn(tags, false)
  }

  function Renamed(cited: set<int>, loser: int, survivor: int): set<int> {
    if loser in cited then cited - {loser} + {survivor} else cited
  }

  /**
  The substitution of `_rewrite_reflection_source_tags`: in every list of sources the loser becomes
  the survivor, and an id that the list already has is left out. `seen` is the list so far, if any.
  */
  function Rewritten(tags: Tags, seen: Option<set<int>>, loser: int, survivor: int): Tags {
    if tags == [] then []
    else
      var rest := tags[1..];
      match tags[0]
      case Source(id) =>
        var now := if id == loser then survivor else id;
        [Source(now)] + Rewritten(rest, Some({now}), loser, survivor)
      case Number(id) =>
        if seen.None? then [Number(id)] + Rewritten(rest, None, loser, survivor)
        else
          var now := if id == loser then survivor else id;
          (if now in seen.value then [] else [Number(now)]) + Rewritten(rest, Some(seen.value + {now}), loser, survivor)
      case Word(text) => [Word(text)] + Rewritten(rest, None, loser, survivor)
  }

  /** What the list so far already cites need not be cited again. */
  lemma {:induction false} RewrittenCitesIn(tags: Tags, seen: Option<set<int>>, loser: int, survivor: int)
    requires loser != survivor && (seen.Some? ==> loser !in seen.value)
    ensures var known := if seen.Some? then seen.value else {};
      known + CitedIn(Rewritten(tags, seen, loser, survivor), seen.Some?)
      == known + Renamed(CitedIn(tags, seen.Some?), loser, survivor)
  {
    if tags != [] {
      var rest := tags[1..];
      match tags[0]
      case Source(id) =>
        var now := if id == loser then survivor else id;
        RewrittenCitesIn(rest, Some({now}), loser, survivor);
        assert Rewritten(tags, seen, loser, survivor)[1..] == Rewritten(rest, Some({now}), loser, survivor);
      case Number(id) =>
        if seen.None? {
          RewrittenCitesIn(rest, None, loser, survivor);
          assert Rewritten(tags, seen, loser, survivor)[1..] == Rewritten(rest, None, loser, survivor);
        } else {
          var now := if id == loser then survivor else id;
          var more := Some(seen.value + {now});
          RewrittenCitesIn(rest, more, loser, survivor);
          assert Renamed(CitedIn(tags, true), loser, survivor) == {now} + Renamed(CitedIn(rest, true), loser, survivor);
          assert now !in seen.value ==>
            CitedIn([Number(now)] + Rewritten(rest, more, loser, survivor), true)
              == {now} + CitedIn(Rewritten(rest, more, loser, survivor), true);
          if now !in seen.value {
            assert Rewritten(tags, seen, loser, survivor)[1..] == Rewritten(rest, more, loser, survivor);
          } else {
            assert Rewritten(tags, seen, loser, survivor) == Rewritten(rest, more, loser, survivor);
          }
        }
      case Word(_) =>
        RewrittenCitesIn(rest, None, loser, survivor);
        assert Rewritten(tags, seen, loser, survivor)[1..] == Rewritten(rest, None, loser, survivor);
    }
  }

  /** Rewritten tags cite the survivor where they cited the loser, and otherwise what they cited. */
  lemma RewrittenCites(tags: Tags, loser: int, survivor: int)
    requires loser != survivor
    ensures Cited(Rewritten(tags, None, loser, survivor)) == Renamed(Cited(tags), loser, survivor)
  {
    RewrittenCitesIn(tags, None, loser, survivor);
  }

  // ------------------------------------------------------------------
  // Merging tags
  // ------------------------------------------------------------------

  /** The tags of one more member, those already there left out. */
  function WithMember(merged: Tags, tags: Tags): Tags
    decreases |tags|
  {
    if tags == [] then merged
    else WithMember(if tags[0] in merged then merged else merged + [tags[0]], tags[1..])
  }

  /** `_merge_tags` of the members' tags, in their order. */
  function MergedTags(tags: map<int, Tags>, members: seq<int>): Tags {
    if members == [] then []
    else
      var init, last := members[..|members| - 1], members[|members| - 1];
      WithMember(MergedTags(tags, init), if last in tags then tags[last] else [])
  }

  predicate Once(tags: Tags) {
    forall i, j :: 0 <= i < j < |tags| ==> tags[i] != tags[j]
  }

  lemma {:induction false} MemberIsIn(merged: Tags, tags: Tags, p: Piece)
    requires Once(merged)
    ensures p in WithMember(merged, tags) <==> p in merged || p in tags
    ensures Once(WithMember(merged, tags))
    decreases |tags|
  {
    if tags != [] {
      MemberIsIn(if tags[0] in merged then merged else merged + [tags[0]], tags[1..], p);
    }
  }

  /** Merging keeps every tag of every member, once. */
  lemma {:induction false} MergedKeepsTags(tags: map<int, Tags>, members: seq<int>, p: Piece)
    ensures p in MergedTags(tags, members) <==> exists x :: x in members && x in tags && p in tags[x]
    ensures Once(MergedTags(tags, members))
    decreases |members|
  {
    if members != [] {
      var init, last := members[..|members| - 1], members[|members| - 1];
      MergedKeepsTags(tags, init, p);
      MemberIsIn(MergedTags(tags, init), if last in tags then tags[last] else [], p);
      assert members == init + [last];
    }
  }
}

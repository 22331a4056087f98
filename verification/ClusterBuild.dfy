/** Near-duplicate clustering: which facts may merge, and the clusters they form. */
module ClusterBuild {
  import opened Prelude
  import opened Components
  import UF = UnionFind

  // ------------------------------------------------------------------
  // The textual safety test
  // ------------------------------------------------------------------

  const NEGATION_WORDS := {"not", "no", "never", "without"}
  const DATE_WORDS := {
    "january", "february", "march", "april", "may", "june", "july", "august", "september", "october",
    "november", "december", "monday", "tuesday", "wednesday", "thursday", "friday", "saturday", "sunday",
    "today", "tomorrow", "yesterday"}
  const STATE_WORDS := {
    "enabled", "disabled", "active", "inactive", "archived", "on", "off", "open", "closed", "paused", "resumed",
    "up", "down", "alive", "dead", "started", "stopped", "pending", "running", "completed", "failed", "succeeded",
    "deployed", "undeployed", "installed", "uninstalled", "available", "unavailable",
    "approved", "rejected", "accepted", "denied"}
  const LIFECYCLE_VERBS := {"is", "was", "turned", "set"}

  predicate HasDigit(token: string) {
    exists i :: 0 <= i < |token| && '0' <= token[i] <= '9'
  }

  function ValueTokens(tokens: seq<string>): seq<string> {
    Filter(tokens, token => HasDigit(token) || token in DATE_WORDS)
  }

  predicate Negated(tokens: seq<string>) {
    exists i :: 0 <= i < |tokens| && tokens[i] in NEGATION_WORDS
  }

  /** A bare "on" or "off" that is a preposition here, which discards that word everywhere. */
  predicate Preposition(tokens: seq<string>, i: nat)
    requires i < |tokens|
  {
    tokens[i] in {"on", "off"} && (i == 0 || tokens[i - 1] !in LIFECYCLE_VERBS)
  }

  function StateTokens(tokens: seq<string>): set<string> {
    set i | 0 <= i < |tokens| && tokens[i] in STATE_WORDS
            && (forall k :: 0 <= k < |tokens| && tokens[k] == tokens[i] ==> !Preposition(tokens, k)) :: tokens[i]
  }

  predicate SafeToMerge(a: seq<string>, b: seq<string>) {
    ValueTokens(a) == ValueTokens(b) && Negated(a) == Negated(b) && StateTokens(a) == StateTokens(b)
  }

  /** The token is a concrete value: it holds a digit or is a date word. */
  predicate IsValue(token: string) {
    token in DATE_WORDS || exists c :: c in token && '0' <= c <= '9'
  }

  /** The state word occurs, and a bare "on" or "off" occurs behind a lifecycle verb only. */
  predicate Asserts(tokens: seq<string>, word: string) {
    && word in tokens
    && (word == "on" || word == "off" ==>
          forall k :: 0 <= k < |tokens| && tokens[k] == word ==>
            k > 0 && tokens[k - 1] in {"is", "was", "turned", "set"})
  }

  ghost predicate SameNegation(a: seq<string>, b: seq<string>) {
    (exists w :: w in NEGATION_WORDS && w in a) <==> (exists w :: w in NEGATION_WORDS && w in b)
  }

  ghost predicate SameValues(a: seq<string>, b: seq<string>) {
    exists values :: IsFiltered(a, values, IsValue) && IsFiltered(b, values, IsValue)
  }

  ghost predicate SameStates(a: seq<string>, b: seq<string>) {
    forall w :: w in STATE_WORDS ==> (Asserts(a, w) <==> Asserts(b, w))
  }

  /**
  The texts tell no difference that similar embeddings could hide: both hold a negation word or
  neither does, their values are the same in the same order, and they assert the same states.
  */
  ghost predicate Agree(a: seq<string>, b: seq<string>) {
    SameNegation(a, b) && SameValues(a, b) && SameStates(a, b)
  }

  lemma NegatedIs(tokens: seq<string>)
    ensures Negated(tokens) <==> exists w :: w in NEGATION_WORDS && w in tokens
  {
    if w :| w in NEGATION_WORDS && w in tokens {
      var i :| 0 <= i < |tokens| && tokens[i] == w;
    }
  }

  lemma ValuesAre(tokens: seq<string>, values: seq<string>)
    ensures IsFiltered(tokens, values, IsValue) <==> values == ValueTokens(tokens)
  {
    var test := token => HasDigit(token) || token in DATE_WORDS;
    forall token: string ensures IsValue(token) <==> test(token) {
      assert forall i :: 0 <= i < |token| ==> token[i] in token;
    }
    SameFilter(tokens, IsValue, test);
    FilterIffPicks(tokens, values, IsValue);
  }

  lemma ValuesAgree(a: seq<string>, b: seq<string>)
    ensures SameValues(a, b) <==> ValueTokens(a) == ValueTokens(b)
  {
    forall values
      ensures IsFiltered(a, values, IsValue) <==> values == ValueTokens(a)
      ensures IsFiltered(b, values, IsValue) <==> values == ValueTokens(b)
    {
      ValuesAre(a, values);
      ValuesAre(b, values);
    }
    assert ValueTokens(a) == ValueTokens(b) ==>
      IsFiltered(a, ValueTokens(a), IsValue) && IsFiltered(b, ValueTokens(a), IsValue);
  }

  lemma StatesAre(tokens: seq<string>, word: string)
    ensures word in StateTokens(tokens) <==> word in STATE_WORDS && Asserts(tokens, word)
  {
    if word in tokens && word in STATE_WORDS && Asserts(tokens, word) {
      var i :| 0 <= i < |tokens| && tokens[i] == word;
      assert forall k :: 0 <= k < |tokens| && tokens[k] == tokens[i] ==> !Preposition(tokens, k);
    }
  }

  lemma AllStatesAre(tokens: seq<string>)
    ensures forall w :: w in StateTokens(tokens) <==> w in STATE_WORDS && Asserts(tokens, w)
  {
    forall w ensures w in StateTokens(tokens) <==> w in STATE_WORDS && Asserts(tokens, w) {
      StatesAre(tokens, w);
    }
  }

  lemma StatesAgree(a: seq<string>, b: seq<string>)
    ensures SameStates(a, b) <==> StateTokens(a) == StateTokens(b)
  {
    AllStatesAre(a);
    AllStatesAre(b);
    SameMembers(StateTokens(a), StateTokens(b), STATE_WORDS, w => Asserts(a, w), w => Asserts(b, w));
  }

  lemma SameMembers(p: set<string>, q: set<string>, words: set<string>, a: string -> bool, b: string -> bool)
    requires forall w :: w in p <==> w in words && a(w)
    requires forall w :: w in q <==> w in words && b(w)
    ensures p == q <==> forall w :: w in words ==> (a(w) <==> b(w))
  {
  }

  /** The safety test lets a pair through exactly when its texts agree. */
  lemma SafeIffAgree(a: seq<string>, b: seq<string>)
    ensures SafeToMerge(a, b) <==> Agree(a, b)
  {
    NegatedIs(a);
    NegatedIs(b);
    ValuesAgree(a, b);
    StatesAgree(a, b);
  }

  /** A fact as clustering reads it; `tokens` is what `_tokens` finds in its content. */
  datatype Subject = Subject(scope: string, tokens: seq<string>)

  /** What must agree between mergeable facts. */
  datatype Signature = Signature(scope: string, values: seq<string>, negated: bool, states: set<string>)

  function SignatureOf(s: Subject): Signature {
    Signature(s.scope, ValueTokens(s.tokens), Negated(s.tokens), StateTokens(s.tokens))
  }

  /** The pair test of `build_clusters`; `similar` is the cosine at or above the threshold. */
  ghost predicate Linked(subjects: map<int, Subject>, similar: (int, int) -> bool, a: int, b: int) {
    && a in subjects && b in subjects
    && subjects[a].scope == subjects[b].scope && similar(a, b)
    && Agree(subjects[a].tokens, subjects[b].tokens)
  }

  ghost function LinkEdges(ids: seq<int>, subjects: map<int, Subject>, similar: (int, int) -> bool): Edges {
    set i, j | 0 <= i < j < |ids| && Linked(subjects, similar, ids[i], ids[j]) :: (ids[i], ids[j])
  }

  /**
  Similarity is not transitive, but scope and safety are equalities of signatures: every two facts
  of a component agree on both, however long the chain of similar pairs between them.
  */
  lemma ComponentIsPairwiseSafe(ids: seq<int>, subjects: map<int, Subject>, similar: (int, int) -> bool, a: int, b: int)
    requires a in subjects && Connected(LinkEdges(ids, subjects, similar), a, b)
    ensures b in subjects && subjects[a].scope == subjects[b].scope
    ensures Agree(subjects[a].tokens, subjects[b].tokens)
  {
    var marks := map x | x in subjects :: SignatureOf(subjects[x]);
    var edges := LinkEdges(ids, subjects, similar);
    forall x, y | (x, y) in edges ensures x in marks && y in marks && marks[x] == marks[y] {
      SafeIffAgree(subjects[x].tokens, subjects[y].tokens);
    }
    LabelAlongConnection(edges, marks, a, b);
    SafeIffAgree(subjects[a].tokens, subjects[b].tokens);
  }

  // ------------------------------------------------------------------
  // Representatives mirror connectivity
  // ------------------------------------------------------------------

  ghost predicate Mirrors(rep: map<int, int>, edges: Edges) {
    && (forall x, y {:trigger (x, y) in edges} :: (x, y) in edges ==> x in rep && y in rep && rep[x] == rep[y])
    && (forall a, b {:trigger Connected(edges, a, b)} :: a in rep && b in rep && rep[a] == rep[b] ==>
       Connected(edges, a, b))
  }

  lemma MirrorsIsExact(rep: map<int, int>, edges: Edges, a: int, b: int)
    requires Mirrors(rep, edges) && a in rep && b in rep
    ensures rep[a] == rep[b] <==> Connected(edges, a, b)
  {
    if Connected(edges, a, b) {
      LabelAlongConnection(edges, rep, a, b);
    }
  }

  lemma JoinMirrors(rep: map<int, int>, edges: Edges, x: int, y: int)
    requires Mirrors(rep, edges) && x in rep && y in rep
    ensures Mirrors(UF.Joined(rep, rep[x], rep[y]), edges + {(x, y)})
  {
    var joined, more := UF.Joined(rep, rep[x], rep[y]), edges + {(x, y)};
    ConnectedByEdge(more, x, y);
    forall a, b | a in joined && b in joined && joined[a] == joined[b] ensures Connected(more, a, b) {
      if rep[a] == rep[b] {
        ConnectedGrows(edges, more, a, b);
      } else if rep[a] == rep[x] {
        Bridge(rep, edges, more, a, x, y, b);
      } else {
        Bridge(rep, edges, more, b, x, y, a);
        ConnectedSymmetric(more, b, a);
      }
    }
  }

  lemma Bridge(rep: map<int, int>, edges: Edges, more: Edges, a: int, x: int, y: int, b: int)
    requires Mirrors(rep, edges) && a in rep && x in rep && y in rep && b in rep
    requires rep[a] == rep[x] && rep[y] == rep[b] && edges <= more && Connected(more, x, y)
    ensures Connected(more, a, b)
  {
    ConnectedGrows(edges, more, a, x);
    ConnectedGrows(edges, more, y, b);
    ConnectedTransitive(more, a, x, y);
    ConnectedTransitive(more, a, y, b);
  }

  // ------------------------------------------------------------------
  // Clusters
  // ------------------------------------------------------------------

  /** One id stands before another. */
  ghost predicate Before(ids: seq<int>, x: int, y: int) {
    exists p, q :: 0 <= p < q < |ids| && ids[p] == x && ids[q] == y
  }

  /**
  The clusters are the connected components with at least two members, each in the order of `ids`,
  and one after the other in the order of their first members.
  */
  ghost predicate Clustering(edges: Edges, ids: seq<int>, clusters: seq<seq<int>>) {
    && (forall k :: 0 <= k < |clusters| ==>
          |clusters[k]| >= 2 && clusters[k] == Component(edges, ids, clusters[k][0]))
    && (forall a :: a in ids ==>
          ((exists b :: b in ids && b != a && Connected(edges, a, b)) <==> InSome(clusters, a)))
    && (forall j, k, a :: 0 <= j < k < |clusters| && a in clusters[j] ==> a !in clusters[k])
    && (forall j, k :: 0 <= j < k < |clusters| ==> Before(ids, clusters[j][0], clusters[k][0]))
  }

  ghost predicate InSome(clusters: seq<seq<int>>, a: int) {
    exists k :: 0 <= k < |clusters| && a in clusters[k]
  }

  predicate Distinct(ids: seq<int>) {
    forall i, j :: 0 <= i < j < |ids| ==> ids[i] != ids[j]
  }

  /** The ids of one class, in order. */
  ghost function Class(ids: seq<int>, rep: map<int, int>, r: int): (members: seq<int>)
    requires forall x :: x in ids ==> x in rep
    ensures forall x :: x in members <==> x in ids && rep[x] == r
  {
    if ids == [] then []
    else
      var last := ids[|ids| - 1];
      Class(ids[..|ids| - 1], rep, r) + if rep[last] == r then [last] else []
  }

  lemma {:induction false} ClassIsComponent(ids: seq<int>, rep: map<int, int>, edges: Edges, a: int)
    requires Mirrors(rep, edges) && a in rep && forall x :: x in ids ==> x in rep
    ensures Class(ids, rep, rep[a]) == Component(edges, ids, a)
  {
    if ids != [] {
      ClassIsComponent(ids[..|ids| - 1], rep, edges, a);
      MirrorsIsExact(rep, edges, a, ids[|ids| - 1]);
    }
  }

  /** The state of the pairwise loop when it has seen the given edges. */
  ghost predicate Scanning(uf: UF.UnionFind, ids: seq<int>, edges: Edges)
    reads uf
  {
    uf.Valid() && uf.rep.Keys == (set x | x in ids) && Mirrors(uf.rep, edges)
  }

  lemma NothingScanned(rep: map<int, int>, ids: seq<int>, linked: (int, int) -> bool)
    requires forall x :: x in rep ==> rep[x] == x
    ensures Mirrors(rep, Scanned(ids, linked, 0, 0))
  {
    forall a, b | a in rep && b in rep && rep[a] == rep[b] ensures Connected({}, a, b) {
      ConnectedReflexive({}, a);
    }
    assert Scanned(ids, linked, 0, 0) == {};
  }

  /** One pair of the pairwise loop. */
  method UnitePair(uf: UF.UnionFind, ids: seq<int>, subjects: map<int, Subject>, similar: (int, int) -> bool, i: nat,
                   j: nat, ghost linked: (int, int) -> bool)
    requires i < j < |ids| && Scanning(uf, ids, Scanned(ids, linked, i, j))
    modifies uf
    ensures AreLinks(linked, subjects, similar) ==> Scanning(uf, ids, Scanned(ids, linked, i, j + 1))
  {
    PairScanned(uf.rep, ids, linked, i, j);
    var a, b := ids[i], ids[j];
    assert AreLinks(linked, subjects, similar) ==> IsLink(linked, subjects, similar, a, b);
    if a in subjects && b in subjects {
      SafeIffAgree(subjects[a].tokens, subjects[b].tokens);
    }
    if && a in subjects && b in subjects && subjects[a].scope == subjects[b].scope && similar(a, b)
       && SafeToMerge(subjects[a].tokens, subjects[b].tokens) {
      uf.Union(a, b);
    }
  }

  /** The inner loop over the partners of `ids[i]`. */
  method UniteRow(uf: UF.UnionFind, ids: seq<int>, subjects: map<int, Subject>, similar: (int, int) -> bool, i: nat,
                  ghost linked: (int, int) -> bool)
    requires i < |ids| && AreLinks(linked, subjects, similar) && Scanning(uf, ids, Scanned(ids, linked, i, i + 1))
    modifies uf
    ensures Scanning(uf, ids, Scanned(ids, linked, i, |ids|))
  {
    ghost var edges := Scanned(ids, linked, i, i + 1);
    for j := i + 1 to |ids|
      invariant edges == Scanned(ids, linked, i, j) && Scanning(uf, ids, edges)
    {
      UnitePair(uf, ids, subjects, similar, i, j, linked);
      edges := Scanned(ids, linked, i, j + 1);
    }
  }

  /** The pairwise loop: union every linked pair. */
  method UniteLinked(ids: seq<int>, subjects: map<int, Subject>, similar: (int, int) -> bool) returns (uf: UF.UnionFind)
    ensures fresh(uf) && uf.Valid() && uf.rep.Keys == (set x | x in ids)
    ensures Mirrors(uf.rep, LinkEdges(ids, subjects, similar))
  {
    uf := new UF.UnionFind(ids);
    ghost var linked := Links(subjects, similar);
    assert AreLinks(linked, subjects, similar);
    NothingScanned(uf.rep, ids, linked);
    for i := 0 to |ids|
      invariant Scanning(uf, ids, Scanned(ids, linked, i, 0))
    {
      RowStarts(ids, linked, i);
      UniteRow(uf, ids, subjects, similar, i, linked);
      RowEnds(ids, linked, i);
    }
    AllScanned(ids, subjects, similar);
  }

  ghost function Links(subjects: map<int, Subject>, similar: (int, int) -> bool): (int, int) -> bool {
    (a, b) => Linked(subjects, similar, a, b)
  }

  ghost predicate IsLink(linked: (int, int) -> bool, subjects: map<int, Subject>, similar: (int, int) -> bool, a: int,
                         b: int)
  {
    linked(a, b) <==> Linked(subjects, similar, a, b)
  }

  ghost predicate AreLinks(linked: (int, int) -> bool, subjects: map<int, Subject>, similar: (int, int) -> bool) {
    forall a, b {:trigger IsLink(linked, subjects, similar, a, b)} :: IsLink(linked, subjects, similar, a, b)
  }

  /** The linked pairs seen before the loop reaches (i, j). */
  ghost function Scanned(ids: seq<int>, linked: (int, int) -> bool, i: int, j: int): Edges {
    set p, q | 0 <= p < q < |ids| && (p < i || (p == i && q < j)) && linked(ids[p], ids[q]) :: (ids[p], ids[q])
  }

  lemma ScanOne(ids: seq<int>, linked: (int, int) -> bool, i: nat, j: nat)
    requires i < j < |ids|
    ensures linked(ids[i], ids[j]) ==>
      Scanned(ids, linked, i, j + 1) == Scanned(ids, linked, i, j) + {(ids[i], ids[j])}
    ensures !linked(ids[i], ids[j]) ==> Scanned(ids, linked, i, j + 1) == Scanned(ids, linked, i, j)
  {
  }

  lemma RowStarts(ids: seq<int>, linked: (int, int) -> bool, i: nat)
    ensures Scanned(ids, linked, i, 0) == Scanned(ids, linked, i, i + 1)
  {
  }

  lemma RowEnds(ids: seq<int>, linked: (int, int) -> bool, i: nat)
    ensures Scanned(ids, linked, i, |ids|) == Scanned(ids, linked, i + 1, 0)
  {
  }

  lemma AllScanned(ids: seq<int>, subjects: map<int, Subject>, similar: (int, int) -> bool)
    ensures Scanned(ids, Links(subjects, similar), |ids|, 0) == LinkEdges(ids, subjects, similar)
  {
  }

  /** Uniting the pair exactly when it is linked keeps the representatives in step with the scan. */
  lemma PairScanned(rep: map<int, int>, ids: seq<int>, linked: (int, int) -> bool, i: nat, j: nat)
    requires i < j < |ids| && ids[i] in rep && ids[j] in rep && Mirrors(rep, Scanned(ids, linked, i, j))
    ensures linked(ids[i], ids[j]) ==>
      Mirrors(UF.Joined(rep, rep[ids[i]], rep[ids[j]]), Scanned(ids, linked, i, j + 1))
    ensures !linked(ids[i], ids[j]) ==> Mirrors(rep, Scanned(ids, linked, i, j + 1))
  {
    ScanOne(ids, linked, i, j);
    JoinMirrors(rep, Scanned(ids, linked, i, j), ids[i], ids[j]);
  }

  /** A dictionary's keys, listed in insertion order. */
  ghost predicate KeysInOrder(order: seq<int>, groups: map<int, seq<int>>) {
    && Distinct(order)
    && (forall i :: 0 <= i < |order| ==> order[i] in groups)
    && (forall r :: r in groups ==> r in order)
  }

  /** Every seen id is in the group of its representative, and the groups are the classes. */
  ghost predicate GroupsAreClasses(rep: map<int, int>, seen: seq<int>, groups: map<int, seq<int>>) {
    && (forall x :: x in seen ==> x in rep)
    && (forall x :: x in seen ==> rep[x] in groups)
    && (forall r :: r in groups ==> groups[r] == Class(seen, rep, r) && groups[r] != [])
  }

  /** The groups stand in the order in which their first members appeared. */
  ghost predicate ByAppearance(seen: seq<int>, order: seq<int>, groups: map<int, seq<int>>)
    requires KeysInOrder(order, groups)
  {
    && (forall r :: r in groups ==> groups[r] != [] && groups[r][0] in seen)
    && (forall i, j :: 0 <= i < j < |order| ==>
          groups[order[i]] != [] && groups[order[j]] != [] && Before(seen, groups[order[i]][0], groups[order[j]][0]))
  }

  /** The grouping dictionary after the ids of `seen`. */
  ghost predicate Grouping(rep: map<int, int>, seen: seq<int>, order: seq<int>, groups: map<int, seq<int>>) {
    KeysInOrder(order, groups) && GroupsAreClasses(rep, seen, groups) && ByAppearance(seen, order, groups)
  }

  lemma BeforeInLonger(seen: seq<int>, z: int, x: int, y: int)
    requires Before(seen, x, y) || (x in seen && y == z)
    ensures Before(seen + [z], x, y)
  {
    var more := seen + [z];
    if Before(seen, x, y) {
      var p, q :| 0 <= p < q < |seen| && seen[p] == x && seen[q] == y;
      assert more[p] == x && more[q] == y;
    } else {
      var p :| 0 <= p < |seen| && seen[p] == x;
      assert more[p] == x && more[|seen|] == y;
    }
  }

  /** A new key comes last, with a first member that is new; an old one keeps its first member. */
  lemma AppearanceOneMore(seen: seq<int>, order: seq<int>, groups: map<int, seq<int>>, r: int, x: int)
    requires KeysInOrder(order, groups) && ByAppearance(seen, order, groups)
    ensures var more := if r in groups then order else order + [r];
      KeysInOrder(more, Grouped(groups, r, x)) && ByAppearance(seen + [x], more, Grouped(groups, r, x))
  {
    var more, after := if r in groups then order else order + [r], Grouped(groups, r, x);
    assert r !in groups ==> r !in order;
    assert KeysInOrder(more, after);
    forall q | q in groups ensures q in after && groups[q] != [] && after[q] != [] && after[q][0] == groups[q][0] {
    }
    forall i, j | 0 <= i < j < |more|
      ensures after[more[i]] != [] && after[more[j]] != [] && Before(seen + [x], after[more[i]][0], after[more[j]][0])
    {
      assert more[i] in groups && groups[more[i]][0] in seen;
      assert j < |order| ==> Before(seen, groups[more[i]][0], groups[more[j]][0]);
      BeforeInLonger(seen, x, after[more[i]][0], after[more[j]][0]);
    }
  }

  lemma GroupOneMore(rep: map<int, int>, seen: seq<int>, groups: map<int, seq<int>>, x: int)
    requires GroupsAreClasses(rep, seen, groups) && x in rep
    ensures GroupsAreClasses(rep, seen + [x], groups[rep[x] := (if rep[x] in groups then groups[rep[x]] else []) + [x]])
  {
    var r := rep[x];
    var after := groups[r := (if r in groups then groups[r] else []) + [x]];
    forall q | q in after ensures after[q] == Class(seen + [x], rep, q) && after[q] != [] {
      if q !in groups {
        NoClassYet(rep, seen, r);
      }
    }
  }

  lemma {:induction false} NoClassYet(rep: map<int, int>, seen: seq<int>, r: int)
    requires forall x :: x in seen ==> x in rep && rep[x] != r
    ensures Class(seen, rep, r) == []
  {
    if seen != [] {
      NoClassYet(rep, seen[..|seen| - 1], r);
    }
  }

  /** Appending to a key's list, with `setdefault`. */
  function Grouped(groups: map<int, seq<int>>, r: int, x: int): map<int, seq<int>> {
    groups[r := (if r in groups then groups[r] else []) + [x]]
  }

  lemma TakeOneMore(ids: seq<int>, n: nat)
    requires n < |ids|
    ensures ids[..n + 1] == ids[..n] + [ids[n]]
  {
  }

  method GroupByRoot(uf: UF.UnionFind, ids: seq<int>) returns (order: seq<int>, groups: map<int, seq<int>>)
    requires uf.Valid() && forall x :: x in ids ==> x in uf.rep
    modifies uf`parent
    ensures uf.Valid() && Grouping(uf.rep, ids, order, groups)
  {
    order, groups := [], map[];
    for n := 0 to |ids|
      invariant uf.Valid() && Grouping(uf.rep, ids[..n], order, groups)
    {
      var r := uf.Find(ids[n]);
      GroupOneMore(uf.rep, ids[..n], groups, ids[n]);
      AppearanceOneMore(ids[..n], order, groups, r, ids[n]);
      TakeOneMore(ids, n);
      order := if r in groups then order else order + [r];
      groups := Grouped(groups, r, ids[n]);
    }
    assert ids[..|ids|] == ids;
  }

  /** The groups of two or more are kept, in dictionary order: the k-th cluster is the group at place `at[k]`. */
  ghost predicate Kept(order: seq<int>, groups: map<int, seq<int>>, clusters: seq<seq<int>>, at: seq<nat>, n: nat)
    requires KeysInOrder(order, groups)
  {
    && |at| == |clusters| && n <= |order|
    && (forall k :: 0 <= k < |at| ==> at[k] < n && clusters[k] == groups[order[at[k]]] && |clusters[k]| >= 2)
    && (forall j, k :: 0 <= j < k < |at| ==> at[j] < at[k])
    && (forall i :: 0 <= i < n && |groups[order[i]]| >= 2 ==> i in at)
  }

  method KeepLarge(order: seq<int>, groups: map<int, seq<int>>) returns (clusters: seq<seq<int>>)
    requires KeysInOrder(order, groups)
    ensures exists at :: Kept(order, groups, clusters, at, |order|)
  {
    ghost var at: seq<nat>;
    clusters, at := [], [];
    for n := 0 to |order|
      invariant Kept(order, groups, clusters, at, n)
    {
      if |groups[order[n]]| >= 2 {
        clusters, at := clusters + [groups[order[n]]], at + [n];
      }
    }
  }

  lemma KeptAreComponents(rep: map<int, int>, edges: Edges, ids: seq<int>, order: seq<int>, groups: map<int, seq<int>>,
                          clusters: seq<seq<int>>, at: seq<nat>)
    requires Mirrors(rep, edges) && Grouping(rep, ids, order, groups) && Kept(order, groups, clusters, at, |order|)
    ensures forall k :: 0 <= k < |clusters| ==>
      |clusters[k]| >= 2 && clusters[k] == Component(edges, ids, clusters[k][0])
  {
    forall k | 0 <= k < |clusters| ensures |clusters[k]| >= 2 && clusters[k] == Component(edges, ids, clusters[k][0]) {
      var r, first := order[at[k]], clusters[k][0];
      assert clusters[k] == Class(ids, rep, r);
      assert first in Class(ids, rep, r);
      ClassIsComponent(ids, rep, edges, first);
    }
  }

  lemma KeptIffLinked(rep: map<int, int>, edges: Edges, ids: seq<int>, order: seq<int>, groups: map<int, seq<int>>,
                      clusters: seq<seq<int>>, at: seq<nat>, a: int)
    requires Mirrors(rep, edges) && Distinct(ids) && Grouping(rep, ids, order, groups) && a in ids
    requires Kept(order, groups, clusters, at, |order|)
    ensures (exists b :: b in ids && b != a && Connected(edges, a, b)) <==> InSome(clusters, a)
  {
    if b :| b in ids && b != a && Connected(edges, a, b) {
      LinkedFactIsClustered(rep, edges, ids, order, groups, a, b);
      var i :| 0 <= i < |order| && order[i] == rep[a];
      var k :| 0 <= k < |at| && at[k] == i;
      assert a in clusters[k];
    }
    if InSome(clusters, a) {
      var k :| 0 <= k < |clusters| && a in clusters[k];
      ClusteredFactIsLinked(rep, edges, ids, order[at[k]], clusters[k], a);
    }
  }

  lemma GroupsAreClusters(rep: map<int, int>, edges: Edges, ids: seq<int>, order: seq<int>, groups: map<int, seq<int>>,
                          clusters: seq<seq<int>>, at: seq<nat>)
    requires Mirrors(rep, edges) && Distinct(ids) && Grouping(rep, ids, order, groups)
    requires Kept(order, groups, clusters, at, |order|)
    ensures Clustering(edges, ids, clusters)
  {
    KeptAreComponents(rep, edges, ids, order, groups, clusters, at);
    forall a | a in ids
      ensures (exists b :: b in ids && b != a && Connected(edges, a, b)) <==> InSome(clusters, a)
    {
      KeptIffLinked(rep, edges, ids, order, groups, clusters, at, a);
    }
  }

  lemma LinkedFactIsClustered(rep: map<int, int>, edges: Edges, ids: seq<int>, order: seq<int>,
                              groups: map<int, seq<int>>, a: int, b: int)
    requires Mirrors(rep, edges) && Grouping(rep, ids, order, groups)
    requires a in ids && b in ids && b != a && Connected(edges, a, b)
    ensures rep[a] in order && rep[a] in groups && a in groups[rep[a]] && |groups[rep[a]]| >= 2
  {
    MirrorsIsExact(rep, edges, a, b);
    var group := groups[rep[a]];
    assert group == Class(ids, rep, rep[a]);
    assert a in group && b in group;
    var i :| 0 <= i < |group| && group[i] == a;
    var j :| 0 <= j < |group| && group[j] == b;
    assert i != j;
  }

  lemma ClusteredFactIsLinked(rep: map<int, int>, edges: Edges, ids: seq<int>, r: int, group: seq<int>, a: int)
    requires Mirrors(rep, edges) && Distinct(ids) && forall x :: x in ids ==> x in rep
    requires group == Class(ids, rep, r) && |group| >= 2 && a in group
    ensures exists b :: b in ids && b != a && Connected(edges, a, b)
  {
    ClassDistinct(ids, rep, r);
    var b := if group[0] == a then group[1] else group[0];
    assert b in group && b in ids && b != a;
    MirrorsIsExact(rep, edges, a, b);
  }

  lemma {:induction false} ClassDistinct(ids: seq<int>, rep: map<int, int>, r: int)
    requires Distinct(ids) && forall x :: x in ids ==> x in rep
    ensures Distinct(Class(ids, rep, r))
  {
    if ids != [] {
      ClassDistinct(ids[..|ids| - 1], rep, r);
    }
  }

  // ------------------------------------------------------------------
  // There is one clustering
  // ------------------------------------------------------------------

  lemma {:induction false} SameComponent(edges: Edges, ids: seq<int>, a: int, b: int)
    requires Connected(edges, a, b)
    ensures Component(edges, ids, a) == Component(edges, ids, b)
  {
    if ids != [] {
      var last := ids[|ids| - 1];
      SameComponent(edges, ids[..|ids| - 1], a, b);
      ConnectedSymmetric(edges, a, b);
      if Connected(edges, a, last) {
        ConnectedTransitive(edges, b, a, last);
      }
      if Connected(edges, b, last) {
        ConnectedTransitive(edges, a, b, last);
      }
    }
  }

  /** The i-th cluster of one clustering, if it is none of the first i of the other, is a later one of them. */
  lemma FoundAgain(edges: Edges, ids: seq<int>, a: seq<seq<int>>, b: seq<seq<int>>, i: nat) returns (j: nat)
    requires Clustering(edges, ids, a) && Clustering(edges, ids, b)
    requires i < |a| && i <= |b| && a[..i] == b[..i]
    ensures i <= j < |b| && b[j] == a[i]
  {
    var x := a[i][0];
    assert a[i] == Component(edges, ids, x);
    assert x in a[i] && x in ids && InSome(a, x);
    assert InSome(b, x);
    j :| 0 <= j < |b| && x in b[j];
    forall h | 0 <= h < i ensures x !in b[h] {
      assert a[..i][h] == b[..i][h];
    }
    assert b[j] == Component(edges, ids, b[j][0]);
    SameComponent(edges, ids, b[j][0], x);
  }

  lemma BeforeIsOneWay(ids: seq<int>, x: int, y: int)
    requires Distinct(ids)
    ensures !(Before(ids, x, y) && Before(ids, y, x))
  {
  }

  lemma {:induction false} ClusteringsAgree(edges: Edges, ids: seq<int>, a: seq<seq<int>>, b: seq<seq<int>>, n: nat)
    requires Distinct(ids) && Clustering(edges, ids, a) && Clustering(edges, ids, b) && n <= |a|
    ensures n <= |b| && a[..n] == b[..n]
  {
    if n > 0 {
      var i := n - 1;
      ClusteringsAgree(edges, ids, a, b, i);
      var j := FoundAgain(edges, ids, a, b, i);
      var k := FoundAgain(edges, ids, b, a, i);
      assert i < j ==> Before(ids, b[i][0], b[j][0]);
      assert i < k ==> Before(ids, a[i][0], a[k][0]);
      BeforeIsOneWay(ids, a[i][0], b[i][0]);
      assert a[..n] == a[..i] + [a[i]] && b[..n] == b[..i] + [b[i]];
    }
  }

  /** The facts and their similarities determine the clusters and their order. */
  lemma ClusteringIsUnique(edges: Edges, ids: seq<int>, a: seq<seq<int>>, b: seq<seq<int>>)
    requires Distinct(ids) && Clustering(edges, ids, a) && Clustering(edges, ids, b)
    ensures a == b
  {
    ClusteringsAgree(edges, ids, a, b, |a|);
    ClusteringsAgree(edges, ids, b, a, |b|);
    assert a[..|a|] == a && b[..|b|] == b;
  }

  /**
  `build_clusters`: exactly the connected components, of size two or more, of the graph of
  same-scope, similar, safe pairs.
  */
  method BuildClusters(ids: seq<int>, subjects: map<int, Subject>, similar: (int, int) -> bool)
    returns (clusters: seq<seq<int>>)
    requires Distinct(ids)
    ensures Clustering(LinkEdges(ids, subjects, similar), ids, clusters)
    ensures ClustersAgree(subjects, clusters)
  {
    var uf := UniteLinked(ids, subjects, similar);
    var order, groups := GroupByRoot(uf, ids);
    clusters := KeepLarge(order, groups);
    ghost var at :| Kept(order, groups, clusters, at, |order|);
    GroupsAreClusters(uf.rep, LinkEdges(ids, subjects, similar), ids, order, groups, clusters, at);
    ClusteringAgrees(ids, subjects, similar, clusters);
  }

  /** The facts differ neither in scope nor in what their texts tell. */
  ghost predicate Interchangeable(subjects: map<int, Subject>, x: int, y: int) {
    && x in subjects && y in subjects && subjects[x].scope == subjects[y].scope
    && Agree(subjects[x].tokens, subjects[y].tokens)
  }

  /** Any two facts of a cluster are interchangeable. */
  ghost predicate ClustersAgree(subjects: map<int, Subject>, clusters: seq<seq<int>>) {
    forall k, x, y {:trigger x in clusters[k], y in clusters[k]} ::
      0 <= k < |clusters| && x in clusters[k] && y in clusters[k] ==> Interchangeable(subjects, x, y)
  }

  lemma MembersAgree(ids: seq<int>, subjects: map<int, Subject>, similar: (int, int) -> bool, first: int, x: int,
                     y: int)
    requires var edges := LinkEdges(ids, subjects, similar);
      Connected(edges, first, x) && Connected(edges, first, y) && exists z :: z != x && Connected(edges, x, z)
    ensures Interchangeable(subjects, x, y)
  {
    var edges := LinkEdges(ids, subjects, similar);
    var z :| z != x && Connected(edges, x, z);
    ConnectedHasEdge(edges, x, z);
    ConnectedSymmetric(edges, first, x);
    ConnectedTransitive(edges, x, first, y);
    ComponentIsPairwiseSafe(ids, subjects, similar, x, y);
  }

  lemma ClusteringAgrees(ids: seq<int>, subjects: map<int, Subject>, similar: (int, int) -> bool,
                         clusters: seq<seq<int>>)
    requires Clustering(LinkEdges(ids, subjects, similar), ids, clusters)
    ensures ClustersAgree(subjects, clusters)
  {
    var edges := LinkEdges(ids, subjects, similar);
    assert forall k, x :: 0 <= k < |clusters| && x in clusters[k] ==> InSome(clusters, x);
    forall k, x, y | 0 <= k < |clusters| && x in clusters[k] && y in clusters[k] {
      MembersAgree(ids, subjects, similar, clusters[k][0], x, y);
    }
  }
}

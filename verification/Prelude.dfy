/** Shared vocabulary: nullable columns, least elements, Python's whitespace. */
module Prelude {

  /** A nullable column or an absent value. */
  datatype Option<+T> = None | Some(value: T)

  /** The row that `ORDER BY id LIMIT 1` returns from a non-empty selection. */
  function Least(s: set<nat>): (m: nat)
    requires s != {}
    ensures m in s && forall x :: x in s ==> m <= x
  {
    var any :| any in s;
    LeastBelow(s, any);
    var m :| m in s && forall x :: x in s ==> m <= x;
    m
  }

  lemma LeastBelow(s: set<nat>, any: nat)
    requires any in s
    ensures exists m :: m in s && forall x :: x in s ==> m <= x
    decreases any
  {
    if x :| x in s && x < any {
      LeastBelow(s, x);
    }
  }

  lemma {:induction false} Smaller(part: set<nat>, whole: set<nat>)
    requires part <= whole
    ensures |part| <= |whole|
  {
    if part != {} {
      var x :| x in part;
      Smaller(part - {x}, whole - {x});
    }
  }

  /** The elements that pass a test, in their order. */
  function Filter<T(!new)>(s: seq<T>, test: T -> bool): (kept: seq<T>)
    ensures forall x :: x in kept <==> x in s && test(x)
    ensures |kept| <= |s|
  {
    if |s| == 0 then [] else (if test(s[0]) then [s[0]] else []) + Filter(s[1..], test)
  }

  lemma {:induction false} SameFilter<T(!new)>(s: seq<T>, a: T -> bool, b: T -> bool)
    requires forall x :: x in s ==> (a(x) <==> b(x))
    ensures Filter(s, a) == Filter(s, b)
  {
    if |s| > 0 {
      assert s[0] in s && forall x :: x in s[1..] ==> x in s;
      SameFilter(s[1..], a, b);
    }
  }

  lemma {:induction false} FilterKeepsAll(s: seq<int>, keep: int -> bool)
    ensures (forall x :: x in s ==> keep(x)) ==> Filter(s, keep) == s
  {
    if |s| > 0 && forall x :: x in s ==> keep(x) {
      assert s[0] in s && forall x :: x in s[1..] ==> x in s;
      FilterKeepsAll(s[1..], keep);
      assert s == [s[0]] + s[1..];
    }
  }

  lemma {:induction false} FilterKeepsNone(s: seq<int>, keep: int -> bool)
    requires forall x :: x in s ==> !keep(x)
    ensures Filter(s, keep) == []
  {
    if |s| > 0 {
      var first := s[0];
      assert first in s && !keep(first);
      assert forall x :: x in s[1..] ==> x in s;
      FilterKeepsNone(s[1..], keep);
    }
  }

  lemma {:induction false} FilterLast<T(!new)>(s: seq<T>, test: T -> bool, n: nat)
    requires |s| == n + 1
    ensures Filter(s, test) == Filter(s[..n], test) + if test(s[n]) then [s[n]] else []
  {
    if n > 0 {
      FilterLast(s[1..], test, n - 1);
      assert s[..n][1..] == s[1..][..n - 1];
    }
  }

  /** `part` stands at `places` of `whole`, from left to right, and those are all the places that pass the test. */
  ghost predicate Picks<T(!new)>(whole: seq<T>, part: seq<T>, places: seq<int>, test: T -> bool) {
    && |places| == |part|
    && (forall k :: 0 <= k < |places| ==> 0 <= places[k] < |whole| && part[k] == whole[places[k]])
    && (forall j, k :: 0 <= j < k < |places| ==> places[j] < places[k])
    && (forall i :: 0 <= i < |whole| ==> (test(whole[i]) <==> i in places))
  }

  ghost predicate IsFiltered<T(!new)>(whole: seq<T>, part: seq<T>, test: T -> bool) {
    exists places :: Picks(whole, part, places, test)
  }

  /** Filtering is what it is described as, and nothing else is. */
  lemma {:induction false} FilterIffPicks<T(!new)>(s: seq<T>, part: seq<T>, test: T -> bool)
    ensures IsFiltered(s, part, test) <==> part == Filter(s, test)
  {
    FilterPicks(s, test);
    if IsFiltered(s, part, test) {
      var places :| Picks(s, part, places, test);
      PicksAreFilter(s, part, places, test);
    }
  }

  lemma FilteredBy<T(!new)>(s: seq<T>, a: T -> bool, b: T -> bool)
    requires forall x :: x in s ==> (a(x) <==> b(x))
    ensures IsFiltered(s, Filter(s, a), b)
  {
    SameFilter(s, a, b);
    FilterPicks(s, b);
  }

  lemma {:induction false} FilterPicks<T(!new)>(s: seq<T>, test: T -> bool)
    ensures IsFiltered(s, Filter(s, test), test)
  {
    if |s| == 0 {
      assert Picks(s, Filter(s, test), [], test);
    } else {
      var n := |s| - 1;
      FilterPicks(s[..n], test);
      var places: seq<int> :| Picks(s[..n], Filter(s[..n], test), places, test);
      FilterLast(s, test, n);
      PickOneMore(s, Filter(s[..n], test), places, test, n);
    }
  }

  lemma PickOneMore<T(!new)>(s: seq<T>, part: seq<T>, places: seq<int>, test: T -> bool, n: nat)
    requires |s| == n + 1 && Picks(s[..n], part, places, test)
    ensures IsFiltered(s, if test(s[n]) then part + [s[n]] else part, test)
  {
    assert forall i :: 0 <= i < n ==> s[..n][i] == s[i];
    assert forall i :: i in places ==> i < n;
    if test(s[n]) {
      var more := places + [n];
      assert forall i :: i in more <==> i in places || i == n;
      assert Picks(s, part + [s[n]], more, test);
    } else {
      assert Picks(s, part, places, test);
    }
  }

  lemma {:induction false} PicksAreFilter<T(!new)>(s: seq<T>, part: seq<T>, places: seq<int>, test: T -> bool)
    requires Picks(s, part, places, test)
    ensures part == Filter(s, test)
  {
    assert places == [] || 0 <= places[0] < |s|;
    if |s| > 0 {
      var n, m := |s| - 1, |places| - 1;
      FilterLast(s, test, n);
      PickOneLess(s, part, places, test, n);
      if test(s[n]) {
        PicksAreFilter(s[..n], part[..m], places[..m], test);
      } else {
        PicksAreFilter(s[..n], part, places, test);
      }
    }
  }

  lemma PickOneLess<T(!new)>(s: seq<T>, part: seq<T>, places: seq<int>, test: T -> bool, n: nat)
    requires |s| == n + 1 && Picks(s, part, places, test)
    ensures !test(s[n]) ==> Picks(s[..n], part, places, test)
    ensures test(s[n]) ==> part != [] && part == part[..|part| - 1] + [s[n]]
    ensures test(s[n]) ==> Picks(s[..n], part[..|part| - 1], places[..|places| - 1], test)
  {
    assert forall i :: 0 <= i < n ==> s[..n][i] == s[i];
    assert test(s[n]) <==> n in places;
    if test(s[n]) {
      LastPick(s, part, places, test, n, |places| - 1);
    } else {
      assert forall k :: 0 <= k < |places| ==> places[k] in places;
    }
  }

  lemma LastPick<T(!new)>(s: seq<T>, part: seq<T>, places: seq<int>, test: T -> bool, n: nat, m: int)
    requires |s| == n + 1 && Picks(s, part, places, test) && n in places && m == |places| - 1
    ensures m >= 0 && part == part[..m] + [s[n]] && Picks(s[..n], part[..m], places[..m], test)
  {
    assert places[m] == n;
    var init := places[..m];
    assert places == init + [n];
    forall i | 0 <= i < n ensures test(s[..n][i]) <==> i in init {
      assert s[..n][i] == s[i];
      assert i in places <==> i in init;
    }
    assert forall k :: 0 <= k < m ==> init[k] == places[k] && places[k] < places[m];
  }

  function Pow2(n: nat): nat {
    if n == 0 then 1 else 2 * Pow2(n - 1)
  }

  /** What sets the powers of two apart from any other sequence: where they begin and how they multiply. */
  lemma {:induction false} PowersMultiply(a: nat, b: nat)
    ensures Pow2(0) == 1 && Pow2(1) == 2 && Pow2(a + b) == Pow2(a) * Pow2(b)
  {
    if a > 0 {
      PowersMultiply(a - 1, b);
    }
  }

  lemma {:induction false} PowersArePositive(n: nat)
    ensures Pow2(n) >= 1
  {
    if n > 0 {
      PowersArePositive(n - 1);
    }
  }

  /** Python's `str.isspace` on one code point. */
  predicate IsSpace(c: char) {
    || '\t' <= c <= '\r'
    || '\U{1C}' <= c <= ' '
    || c == '\U{85}' || c == '\U{A0}' || c == '\U{1680}'
    || '\U{2000}' <= c <= '\U{200A}'
    || c == '\U{2028}' || c == '\U{2029}' || c == '\U{202F}' || c == '\U{205F}' || c == '\U{3000}'
  }

  /** Python's `str.rstrip()`. */
  function TrimRight(s: string): string {
    if s == [] || !IsSpace(s[|s| - 1]) then s else TrimRight(s[..|s| - 1])
  }

  /** Trimming removes exactly the trailing whitespace. */
  lemma {:induction false} TrimRightSpec(s: string)
    ensures TrimRight(s) <= s
    ensures TrimRight(s) != [] ==> !IsSpace(TrimRight(s)[|TrimRight(s)| - 1])
    ensures forall i :: |TrimRight(s)| <= i < |s| ==> IsSpace(s[i])
  {
    if s != [] && IsSpace(s[|s| - 1]) {
      TrimRightSpec(s[..|s| - 1]);
    }
  }

  function Digit(d: nat): char
    requires d < 10
  {
    "0123456789"[d]
  }

  function Decimal(n: nat): string {
    if n < 10 then [Digit(n)] else Decimal(n / 10) + [Digit(n % 10)]
  }
}

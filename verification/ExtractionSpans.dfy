/** Exact-source spans of a transcript. */
module ExtractionSpans {
  import opened Prelude

  const MAX_EVIDENCE_CHARS := 2000
  const MIN_BOUNDARY_SEARCH_CHARS := 64

  // ------------------------------------------------------------------
  // The blank-line pattern
  // ------------------------------------------------------------------

  /** Where a run of spaces and tabs ends. */
  function SkipBlanks(t: string, i: nat): (e: nat)
    requires i <= |t|
    ensures i <= e <= |t|
    ensures forall k :: i <= k < e ==> t[k] == ' ' || t[k] == '\t'
    ensures e < |t| ==> t[e] != ' ' && t[e] != '\t'
    decreases |t| - i
  {
    if i < |t| && (t[i] == ' ' || t[i] == '\t') then SkipBlanks(t, i + 1) else i
  }

  /** The end of a newline, with or without a carriage return, at `i`. */
  function Newline(t: string, i: nat): (e: Option<nat>)
    requires i <= |t|
    ensures e.Some? ==> i < e.value <= |t| && forall k :: i <= k < e.value ==> IsSpace(t[k])
  {
    if i < |t| && t[i] == '\n' then Some(i + 1)
    else if i + 1 < |t| && t[i] == '\r' && t[i + 1] == '\n' then Some(i + 2)
    else None
  }

  /** The end of a blank line that starts at `i`: two newlines with only spaces and tabs between. */
  function BlankLineAt(t: string, i: nat): (e: Option<nat>)
    requires i <= |t|
    ensures e.Some? ==> i < e.value <= |t| && forall k :: i <= k < e.value ==> IsSpace(t[k])
  {
    match Newline(t, i)
    case None => None
    case Some(a) => Newline(t, SkipBlanks(t, a))
  }

  /** `t[i..e]` is a newline, with or without a carriage return. */
  ghost predicate IsNewline(t: string, i: nat, e: nat) {
    i <= e <= |t| && (t[i..e] == "\n" || t[i..e] == "\r\n")
  }

  /** `t[i..e]` matches the pattern: two newlines, and between them spaces and tabs only. */
  ghost predicate IsBlankLine(t: string, i: nat, e: nat) {
    exists a: nat, b: nat ::
      && a <= b && IsNewline(t, i, a) && IsNewline(t, b, e)
      && forall k :: a <= k < b ==> t[k] == ' ' || t[k] == '\t'
  }

  lemma NewlineIff(t: string, i: nat, e: nat)
    requires i <= |t|
    ensures IsNewline(t, i, e) <==> Newline(t, i) == Some(e)
  {
    if IsNewline(t, i, e) {
      assert t[i] == t[i..e][0] && (|t[i..e]| == 2 ==> t[i + 1] == t[i..e][1]);
    }
    if Newline(t, i) == Some(e) {
      assert t[i..e] == if e == i + 1 then "\n" else "\r\n";
    }
  }

  /** The scan finds exactly what the pattern matches. */
  lemma BlankLineIff(t: string, i: nat, e: nat)
    requires i <= |t|
    ensures IsBlankLine(t, i, e) <==> BlankLineAt(t, i) == Some(e)
  {
    if IsBlankLine(t, i, e) {
      var a: nat, b: nat :|
        && a <= b && IsNewline(t, i, a) && IsNewline(t, b, e)
        && forall k :: a <= k < b ==> t[k] == ' ' || t[k] == '\t';
      NewlineIff(t, i, a);
      NewlineIff(t, b, e);
      assert SkipBlanks(t, a) == b;
    }
    if BlankLineAt(t, i) == Some(e) {
      var a := Newline(t, i).value;
      NewlineIff(t, i, a);
      NewlineIff(t, SkipBlanks(t, a), e);
    }
  }

  datatype Separator = Separator(start: nat, end: nat)

  /** The leftmost blank line at or after `i`. */
  function SearchBlankLine(t: string, i: nat): (s: Option<Separator>)
    requires i <= |t|
    ensures s.Some? ==> i <= s.value.start < s.value.end <= |t| && BlankLineAt(t, s.value.start) == Some(s.value.end)
    ensures s.Some? ==> forall k :: i <= k < s.value.start ==> BlankLineAt(t, k).None?
    ensures s.None? ==> forall k :: i <= k <= |t| ==> BlankLineAt(t, k).None?
    decreases |t| - i
  {
    match BlankLineAt(t, i)
    case Some(e) => Some(Separator(i, e))
    case None => if i == |t| then None else SearchBlankLine(t, i + 1)
  }

  // ------------------------------------------------------------------
  // The preferred end
  // ------------------------------------------------------------------

  predicate OccursAt(t: string, sep: string, i: nat) {
    i + |sep| <= |t| && t[i..i + |sep|] == sep
  }

  /** Python's `t.rfind(sep, lo, hi)`; None for -1. */
  function RFind(t: string, sep: string, lo: nat, hi: nat): (at: Option<nat>)
    requires lo <= hi <= |t| && sep != []
    ensures at.Some? ==> lo <= at.value && at.value + |sep| <= hi && OccursAt(t, sep, at.value)
    ensures forall k :: lo <= k && k + |sep| <= hi && (at.Some? ==> k > at.value) ==> !OccursAt(t, sep, k)
    decreases hi - lo
  {
    if lo + |sep| > hi then None
    else if OccursAt(t, sep, hi - |sep|) then Some(hi - |sep|)
    else RFind(t, sep, lo, hi - 1)
  }

  const SEPARATORS := ["\n\n", "\n", ". ", "? ", "! "]

  ghost predicate NoneBefore(t: string, seps: seq<string>, n: nat, lo: nat, hi: nat)
    requires lo <= hi <= |t| && n <= |seps| && forall i :: 0 <= i < |seps| ==> seps[i] != []
  {
    forall j :: 0 <= j < n ==> RFind(t, seps[j], lo, hi).None?
  }

  /** The last occurrence of the most preferred separator that occurs at all. */
  function FirstBoundary(t: string, seps: seq<string>, lo: nat, hi: nat): (at: Option<nat>)
    requires lo <= hi <= |t| && forall i :: 0 <= i < |seps| ==> seps[i] != []
    ensures at.Some? ==> lo <= at.value < hi
    ensures at.Some? ==>
      exists i :: 0 <= i < |seps| && RFind(t, seps[i], lo, hi) == at && NoneBefore(t, seps, i, lo, hi)
    ensures at.None? ==> NoneBefore(t, seps, |seps|, lo, hi)
  {
    if seps == [] then None
    else
      match RFind(t, seps[0], lo, hi)
      case Some(b) => Some(b)
      case None => FirstBoundary(t, seps[1..], lo, hi)
  }

  /** `_preferred_end`: every separator ends in whitespace, so a boundary keeps one character of it. */
  function PreferredEnd(t: string, start: nat, hardEnd: nat, blockEnd: nat): (e: nat)
    requires start < hardEnd <= blockEnd <= |t|
    ensures start < e <= hardEnd
    ensures hardEnd == blockEnd ==> e == hardEnd
  {
    if hardEnd == blockEnd then hardEnd
    else
      var minimum := SearchStart(start, hardEnd);
      match FirstBoundary(t, SEPARATORS, minimum, hardEnd)
      case Some(b) => b + 1
      case None => hardEnd
  }

  /** The separator stands at `k`, at least 64 characters behind the start and wholly before the hard end. */
  ghost predicate Breaks(t: string, start: nat, hardEnd: nat, sep: string, k: int) {
    start + 64 <= k && k + |sep| <= hardEnd <= |t| && t[k..k + |sep|] == sep
  }

  /** Where a block that does not fit is cut: right behind the first character of its last most preferred separator. */
  ghost predicate CutsAt(t: string, start: nat, hardEnd: nat, e: nat, i: nat)
    requires i < |SEPARATORS|
  {
    && e > 0 && Breaks(t, start, hardEnd, SEPARATORS[i], e - 1)
    && (forall k :: Breaks(t, start, hardEnd, SEPARATORS[i], k) ==> k < e)
    && (forall j, k :: 0 <= j < i ==> !Breaks(t, start, hardEnd, SEPARATORS[j], k))
  }

  /** From where separators are searched. */
  function SearchStart(start: nat, hardEnd: nat): (lo: nat)
    requires start < hardEnd
    ensures start < lo <= hardEnd && lo <= start + 64 && (lo < hardEnd ==> lo == start + 64)
  {
    if hardEnd <= start + MIN_BOUNDARY_SEARCH_CHARS then hardEnd else start + MIN_BOUNDARY_SEARCH_CHARS
  }

  /** The search from the right finds the last place where the separator breaks the text. */
  lemma RFindBreaks(t: string, start: nat, hardEnd: nat, sep: string)
    requires start < hardEnd <= |t| && sep != []
    ensures var at := RFind(t, sep, SearchStart(start, hardEnd), hardEnd);
      && (at.None? ==> forall k :: !Breaks(t, start, hardEnd, sep, k))
      && (at.Some? ==> Breaks(t, start, hardEnd, sep, at.value))
      && (at.Some? ==> forall k :: Breaks(t, start, hardEnd, sep, k) ==> k <= at.value)
  {
    var lo := SearchStart(start, hardEnd);
    forall k | Breaks(t, start, hardEnd, sep, k) ensures lo <= k && k + |sep| <= hardEnd && OccursAt(t, sep, k) {
      assert lo <= k < hardEnd;
    }
  }

  /**
  The preferred end is the end of the block if that is in reach; else the end of a line, or if there
  is none of a sentence, the last in reach, and full stops before question and exclamation marks; else
  as far as one may go.
  */
  lemma PreferredEndIs(t: string, start: nat, hardEnd: nat, blockEnd: nat)
    requires start < hardEnd <= blockEnd <= |t|
    ensures var e := PreferredEnd(t, start, hardEnd, blockEnd);
      if hardEnd == blockEnd then e == blockEnd
      else || (exists i :: 0 <= i < |SEPARATORS| && CutsAt(t, start, hardEnd, e, i))
           || (e == hardEnd && forall i, k :: 0 <= i < |SEPARATORS| ==> !Breaks(t, start, hardEnd, SEPARATORS[i], k))
  {
    if hardEnd < blockEnd {
      var lo := SearchStart(start, hardEnd);
      forall i | 0 <= i < |SEPARATORS| {
        RFindBreaks(t, start, hardEnd, SEPARATORS[i]);
      }
      var at := FirstBoundary(t, SEPARATORS, lo, hardEnd);
      if at.Some? {
        var i :| 0 <= i < |SEPARATORS| && RFind(t, SEPARATORS[i], lo, hardEnd) == at
                 && NoneBefore(t, SEPARATORS, i, lo, hardEnd);
        assert CutsAt(t, start, hardEnd, at.value + 1, i);
      }
    }
  }

  lemma SeparatorIsReadable(t: string, sep: string, at: nat)
    requires sep in SEPARATORS && OccursAt(t, sep, at)
    ensures t[at] == '\n' || (at + 1 < |t| && (t[at] == '.' || t[at] == '?' || t[at] == '!') && t[at + 1] == ' ')
  {
    assert t[at] == t[at..at + |sep|][0];
    assert |sep| == 2 ==> t[at + 1] == t[at..at + |sep|][1];
  }

  /** A cut before the hard end is far enough from the start and behind a line or a sentence. */
  lemma PreferredEndIsReadable(t: string, start: nat, hardEnd: nat, blockEnd: nat)
    requires start < hardEnd <= blockEnd <= |t|
    ensures var e := PreferredEnd(t, start, hardEnd, blockEnd);
      e < hardEnd ==>
        && e > start + MIN_BOUNDARY_SEARCH_CHARS
        && (t[e - 1] == '\n' || ((t[e - 1] == '.' || t[e - 1] == '?' || t[e - 1] == '!') && t[e] == ' '))
  {
    var e := PreferredEnd(t, start, hardEnd, blockEnd);
    if e < hardEnd {
      var minimum := SearchStart(start, hardEnd);
      var i :| 0 <= i < |SEPARATORS| && RFind(t, SEPARATORS[i], minimum, hardEnd) == Some(e - 1);
      SeparatorIsReadable(t, SEPARATORS[i], e - 1);
    }
  }

  lemma DoubleNewlineIsBlankLine(t: string, b: nat)
    ensures OccursAt(t, "\n\n", b) ==> BlankLineAt(t, b) == Some(b + 2)
  {
    assert OccursAt(t, "\n\n", b) ==> t[b] == t[b..b + 2][0] && t[b + 1] == t[b..b + 2][1];
  }

  /** A blank line never occurs inside a block, so the first separator of the preferred end never matches. */
  lemma NoBlankLineInsideBlock(t: string, cursor: nat, lo: nat, hi: nat)
    requires cursor <= lo <= hi <= |t|
    requires match SearchBlankLine(t, cursor) case None => true case Some(s) => hi <= s.start
    ensures RFind(t, "\n\n", lo, hi).None?
  {
    forall b | lo <= b && b + 2 <= hi ensures !OccursAt(t, "\n\n", b) {
      DoubleNewlineIsBlankLine(t, b);
    }
  }

  // ------------------------------------------------------------------
  // Spans
  // ------------------------------------------------------------------

  datatype Role = User | Assistant | Tool

  /** The id is a function of the offsets, see `SpanId`. */
  datatype Span = Span(start: nat, end: nat, text: string, role: Option<Role>)

  /** No blank line starts in `t[lo..hi]`. */
  ghost predicate Unbroken(t: string, lo: nat, hi: nat)
    requires hi <= |t|
  {
    forall k :: lo <= k < hi ==> BlankLineAt(t, k).None?
  }

  /** A span of `t` at `offset`: within bounds, an exact substring, non-blank at both ends. */
  ghost predicate SpanOk(t: string, span: Span, maxChars: nat, offset: nat, role: Option<Role>) {
    && offset <= span.start < span.end <= offset + |t|
    && span.end - span.start <= maxChars
    && span.text == t[span.start - offset..span.end - offset]
    && !IsSpace(t[span.start - offset]) && !IsSpace(t[span.end - offset - 1])
    && span.role == role
  }

  ghost predicate Spaces(t: string, lo: nat, hi: nat)
    requires hi <= |t|
  {
    forall k :: lo <= k < hi ==> IsSpace(t[k])
  }

  /**
  From `at` the paragraph runs to the blank line, or the end of the text, at `limit`; `end` is where its last
  character ends.
  */
  ghost predicate Paragraph(t: string, at: nat, end: nat, limit: nat) {
    && at <= end <= limit <= |t|
    && Unbroken(t, at, limit) && (limit < |t| ==> BlankLineAt(t, limit).Some?)
    && Spaces(t, end, limit) && (at < end ==> !IsSpace(t[end - 1]))
  }

  /** A span from `s` to `e` ends at the last non-blank before the preferred end within its paragraph. */
  ghost predicate CutAs(t: string, s: nat, e: nat, maxChars: nat, end: nat, limit: nat) {
    && maxChars > 0 && s < end && Paragraph(t, s, end, limit)
    && var preferred := PreferredEnd(t, s, if end <= s + maxChars then end else s + maxChars, end);
       s < e <= preferred && Spaces(t, e, preferred) && !IsSpace(t[e - 1])
  }

  ghost predicate WellEnded(t: string, s: nat, e: nat, maxChars: nat) {
    exists end, limit :: CutAs(t, s, e, maxChars, end, limit)
  }

  ghost predicate EndsWell(t: string, spans: seq<Span>, i: nat, maxChars: nat, offset: nat)
    requires i < |spans|
  {
    && offset <= spans[i].start && offset <= spans[i].end
    && WellEnded(t, spans[i].start - offset, spans[i].end - offset, maxChars)
  }

  /** Every span ends where a cut of its paragraph should. */
  ghost predicate WellCut(t: string, spans: seq<Span>, maxChars: nat, offset: nat) {
    forall i {:trigger EndsWell(t, spans, i, maxChars, offset)} :: 0 <= i < |spans| ==>
      EndsWell(t, spans, i, maxChars, offset)
  }

  ghost predicate SpanAt(t: string, spans: seq<Span>, i: nat, upto: nat, maxChars: nat, offset: nat, role: Option<Role>)
    requires i < |spans|
  {
    SpanOk(t, spans[i], maxChars, offset, role) && spans[i].end - offset <= upto
  }

  ghost predicate SpansOk(t: string, spans: seq<Span>, upto: nat, maxChars: nat, offset: nat, role: Option<Role>) {
    forall i {:trigger SpanAt(t, spans, i, upto, maxChars, offset, role)} :: 0 <= i < |spans| ==>
      SpanAt(t, spans, i, upto, maxChars, offset, role)
  }

  predicate Apart(spans: seq<Span>, i: nat, j: nat)
    requires i < |spans| && j < |spans|
  {
    spans[i].end <= spans[j].start
  }

  ghost predicate Ordered(spans: seq<Span>) {
    forall i, j {:trigger Apart(spans, i, j)} :: 0 <= i < j < |spans| ==> Apart(spans, i, j)
  }

  /** Some span contains the position. */
  ghost predicate Covered(spans: seq<Span>, at: nat) {
    exists i :: 0 <= i < |spans| && spans[i].start <= at < spans[i].end
  }

  ghost predicate Accounted(t: string, spans: seq<Span>, k: nat, offset: nat)
    requires k < |t|
  {
    IsSpace(t[k]) || Covered(spans, k + offset)
  }

  ghost predicate Covers(t: string, spans: seq<Span>, upto: nat, offset: nat)
    requires upto <= |t|
  {
    forall k {:trigger Accounted(t, spans, k, offset)} :: 0 <= k < upto ==> Accounted(t, spans, k, offset)
  }

  /** The spans cut `t[..upto]`: in order, apart, and every character outside them is whitespace. */
  ghost predicate Cuts(t: string, spans: seq<Span>, upto: nat, maxChars: nat, offset: nat, role: Option<Role>) {
    upto <= |t| && SpansOk(t, spans, upto, maxChars, offset, role) && Ordered(spans) && Covers(t, spans, upto, offset)
  }

  /** Every non-whitespace position is in exactly one span. */
  lemma CoveredOnce(t: string, spans: seq<Span>, maxChars: nat, offset: nat, role: Option<Role>, k: nat)
    requires Cuts(t, spans, |t|, maxChars, offset, role) && k < |t| && !IsSpace(t[k])
    ensures exists i :: Contains(spans, i, k, offset) && forall j :: Contains(spans, j, k, offset) ==> j == i
  {
    assert Accounted(t, spans, k, offset);
    var i :| 0 <= i < |spans| && spans[i].start <= k + offset < spans[i].end;
    assert Contains(spans, i, k, offset);
    forall j | Contains(spans, j, k, offset) ensures j == i {
      assert i < j ==> Apart(spans, i, j);
      assert j < i ==> Apart(spans, j, i);
    }
  }

  predicate Contains(spans: seq<Span>, i: int, k: nat, offset: nat) {
    0 <= i < |spans| && spans[i].start <= k + offset < spans[i].end
  }

  lemma CutsGrow(t: string, spans: seq<Span>, upto: nat, more: nat, maxChars: nat, offset: nat, role: Option<Role>)
    requires Cuts(t, spans, upto, maxChars, offset, role) && upto <= more <= |t|
    requires forall k :: upto <= k < more ==> IsSpace(t[k])
    ensures Cuts(t, spans, more, maxChars, offset, role)
  {
    forall i | 0 <= i < |spans| ensures SpanAt(t, spans, i, more, maxChars, offset, role) {
      assert SpanAt(t, spans, i, upto, maxChars, offset, role);
    }
  }

  lemma CoversAppend(t: string, spans: seq<Span>, span: Span, from: nat, upto: nat, offset: nat)
    requires from <= upto <= |t| && Covers(t, spans, from, offset)
    requires span.start == from + offset && span.end == upto + offset
    ensures Covers(t, spans + [span], upto, offset)
  {
    var more := spans + [span];
    forall k | 0 <= k < upto && !IsSpace(t[k]) ensures Covered(more, k + offset) {
      if k < from {
        assert Accounted(t, spans, k, offset);
        var i :| 0 <= i < |spans| && spans[i].start <= k + offset < spans[i].end;
        assert more[i] == spans[i];
      } else {
        assert more[|spans|] == span;
      }
    }
  }

  lemma SpansOkAppend(t: string, spans: seq<Span>, span: Span, from: nat, upto: nat, maxChars: nat, offset: nat,
                      role: Option<Role>)
    requires SpansOk(t, spans, from, maxChars, offset, role) && from <= upto
    requires SpanOk(t, span, maxChars, offset, role) && span.start == from + offset && span.end == upto + offset
    ensures SpansOk(t, spans + [span], upto, maxChars, offset, role)
    ensures forall i :: 0 <= i < |spans| ==> spans[i].end <= span.start
  {
    forall i | 0 <= i < |spans|
      ensures SpanAt(t, spans + [span], i, upto, maxChars, offset, role) && spans[i].end <= span.start
    {
      assert SpanAt(t, spans, i, from, maxChars, offset, role);
    }
  }

  lemma OrderedAppend(spans: seq<Span>, span: Span)
    requires Ordered(spans) && forall i :: 0 <= i < |spans| ==> spans[i].end <= span.start
    ensures Ordered(spans + [span])
  {
    var more := spans + [span];
    forall i, j | 0 <= i < j < |more| ensures Apart(more, i, j) {
      assert j < |spans| ==> Apart(spans, i, j);
    }
  }

  lemma CutsAppend(t: string, spans: seq<Span>, from: nat, upto: nat, maxChars: nat, offset: nat, role: Option<Role>)
    requires Cuts(t, spans, from, maxChars, offset, role) && from < upto <= |t| && upto - from <= maxChars
    requires !IsSpace(t[from]) && !IsSpace(t[upto - 1])
    ensures Cuts(t, spans + [Span(from + offset, upto + offset, t[from..upto], role)], upto, maxChars, offset, role)
  {
    var span := Span(from + offset, upto + offset, t[from..upto], role);
    SpansOkAppend(t, spans, span, from, upto, maxChars, offset, role);
    OrderedAppend(spans, span);
    CoversAppend(t, spans, span, from, upto, offset);
  }

  // ------------------------------------------------------------------
  // The cut is determined by the text
  // ------------------------------------------------------------------

  /** Where a span must end follows from where it starts. */
  lemma EndUnique(t: string, s: nat, e: nat, e': nat, maxChars: nat)
    ensures WellEnded(t, s, e, maxChars) && WellEnded(t, s, e', maxChars) ==> e == e'
  {
    if WellEnded(t, s, e, maxChars) && WellEnded(t, s, e', maxChars) {
      var end, limit :| CutAs(t, s, e, maxChars, end, limit);
      var end', limit' :| CutAs(t, s, e', maxChars, end', limit');
    }
  }

  /** The rest of a paragraph that fits is not cut. */
  lemma ShortParagraphIsWhole(t: string, s: nat, e: nat, maxChars: nat, end: nat, limit: nat)
    requires s < end && Paragraph(t, s, end, limit) && end - s <= maxChars
    requires WellEnded(t, s, e, maxChars)
    ensures e == end
  {
    assert CutAs(t, s, end, maxChars, end, limit);
    EndUnique(t, s, e, end, maxChars);
  }

  /** What `_text_spans` must return. */
  ghost predicate IsCut(t: string, spans: seq<Span>, maxChars: nat, offset: nat, role: Option<Role>) {
    Cuts(t, spans, |t|, maxChars, offset, role) && WellCut(t, spans, maxChars, offset)
  }

  /** If two cuts agree on the first `i` spans, the next span of the one starts no earlier than that of the other. */
  lemma NextStartsNoEarlier(t: string, a: seq<Span>, b: seq<Span>, maxChars: nat, offset: nat, role: Option<Role>,
                            i: nat)
    requires IsCut(t, a, maxChars, offset, role) && IsCut(t, b, maxChars, offset, role)
    requires i < |a| && i <= |b| && a[..i] == b[..i]
    ensures i < |b| && b[i].start <= a[i].start
  {
    assert SpanAt(t, a, i, |t|, maxChars, offset, role);
    assert Accounted(t, b, a[i].start - offset, offset);
    forall j | 0 <= j < i ensures b[j].end <= a[i].start {
      assert a[..i][j] == b[..i][j];
      assert Apart(a, j, i);
    }
    var j :| 0 <= j < |b| && b[j].start <= a[i].start < b[j].end;
    assert i < j ==> Apart(b, i, j) && SpanAt(t, b, i, |t|, maxChars, offset, role);
  }

  lemma SameStartSameEnd(t: string, a: seq<Span>, b: seq<Span>, maxChars: nat, offset: nat, i: nat)
    requires WellCut(t, a, maxChars, offset) && WellCut(t, b, maxChars, offset)
    requires i < |a| && i < |b| && a[i].start == b[i].start
    ensures a[i].end == b[i].end
  {
    assert EndsWell(t, a, i, maxChars, offset) && EndsWell(t, b, i, maxChars, offset);
    EndUnique(t, a[i].start - offset, a[i].end - offset, b[i].end - offset, maxChars);
  }

  /** Two spans with the same start are the same span. */
  lemma SameStartSameSpan(t: string, a: seq<Span>, b: seq<Span>, maxChars: nat, offset: nat, role: Option<Role>, i: nat)
    requires IsCut(t, a, maxChars, offset, role) && IsCut(t, b, maxChars, offset, role)
    requires i < |a| && i < |b| && a[i].start == b[i].start
    ensures a[i] == b[i]
  {
    SameStartSameEnd(t, a, b, maxChars, offset, i);
    assert SpanAt(t, a, i, |t|, maxChars, offset, role) && SpanAt(t, b, i, |t|, maxChars, offset, role);
  }

  lemma {:induction false} CutsAgree(t: string, a: seq<Span>, b: seq<Span>, maxChars: nat, offset: nat,
                                     role: Option<Role>, i: nat)
    requires IsCut(t, a, maxChars, offset, role) && IsCut(t, b, maxChars, offset, role) && i <= |a|
    ensures i <= |b| && a[..i] == b[..i]
  {
    if i > 0 {
      CutsAgree(t, a, b, maxChars, offset, role, i - 1);
      NextStartsNoEarlier(t, a, b, maxChars, offset, role, i - 1);
      NextStartsNoEarlier(t, b, a, maxChars, offset, role, i - 1);
      SameStartSameSpan(t, a, b, maxChars, offset, role, i - 1);
      assert a[..i] == a[..i - 1] + [a[i - 1]] && b[..i] == b[..i - 1] + [b[i - 1]];
    }
  }

  /** A text has exactly one cut. */
  lemma CutIsUnique(t: string, a: seq<Span>, b: seq<Span>, maxChars: nat, offset: nat, role: Option<Role>)
    requires IsCut(t, a, maxChars, offset, role) && IsCut(t, b, maxChars, offset, role)
    ensures a == b
  {
    CutsAgree(t, a, b, maxChars, offset, role, |a|);
    CutsAgree(t, b, a, maxChars, offset, role, |b|);
    assert a[..|a|] == a && b[..|b|] == b;
  }

  // ------------------------------------------------------------------
  // The loops
  // ------------------------------------------------------------------

  /** `while end > start and text[end - 1].isspace()`. */
  method TrimEnd(t: string, start: nat, hi: nat) returns (end: nat)
    requires start < hi <= |t| && !IsSpace(t[start])
    ensures start < end <= hi && !IsSpace(t[end - 1]) && forall k :: end <= k < hi ==> IsSpace(t[k])
  {
    end := hi;
    while end > start && IsSpace(t[end - 1])
      invariant start < end <= hi
      invariant forall k :: end <= k < hi ==> IsSpace(t[k])
    {
      end := end - 1;
    }
  }

  /** `while cursor < hi and text[cursor].isspace()`. */
  method SkipSpace(t: string, lo: nat, hi: nat) returns (cursor: nat)
    requires lo <= hi <= |t|
    ensures lo <= cursor <= hi && (cursor < hi ==> !IsSpace(t[cursor])) && forall k :: lo <= k < cursor ==>
      IsSpace(t[k])
  {
    cursor := lo;
    while cursor < hi && IsSpace(t[cursor])
      invariant lo <= cursor <= hi
      invariant forall k :: lo <= k < cursor ==> IsSpace(t[k])
    {
      cursor := cursor + 1;
    }
  }

  lemma SameEndsWell(t: string, spans: seq<Span>, more: seq<Span>, i: nat, maxChars: nat, offset: nat)
    requires i < |spans| <= |more| && more[i] == spans[i]
    ensures EndsWell(t, spans, i, maxChars, offset) ==> EndsWell(t, more, i, maxChars, offset)
  {
  }

  lemma WellCutAppend(t: string, spans: seq<Span>, span: Span, maxChars: nat, offset: nat)
    ensures WellCut(t, spans, maxChars, offset) && EndsWell(t, spans + [span], |spans|, maxChars, offset)
      ==> WellCut(t, spans + [span], maxChars, offset)
  {
    var more := spans + [span];
    if WellCut(t, spans, maxChars, offset) && EndsWell(t, more, |spans|, maxChars, offset) {
      forall i | 0 <= i < |more| ensures EndsWell(t, more, i, maxChars, offset) {
        if i < |spans| {
          assert EndsWell(t, spans, i, maxChars, offset);
          SameEndsWell(t, spans, more, i, maxChars, offset);
        }
      }
    }
  }

  lemma CutEndsWell(t: string, at: nat, end: nat, maxChars: nat, blockEnd: nat, limit: nat, spans: seq<Span>,
                    offset: nat)
    requires maxChars > 0 && at < blockEnd && Paragraph(t, at, blockEnd, limit)
    requires var preferred := PreferredEnd(t, at, if blockEnd <= at + maxChars then blockEnd else at + maxChars,
      blockEnd);
      at < end <= preferred && Spaces(t, end, preferred) && !IsSpace(t[end - 1])
    requires spans != [] && spans[|spans| - 1].start == at + offset && spans[|spans| - 1].end == end + offset
    ensures EndsWell(t, spans, |spans| - 1, maxChars, offset)
  {
    assert CutAs(t, at, end, maxChars, blockEnd, limit);
  }

  /** One cut and the whitespace behind it. The fallback for an empty cut never fires: a cut starts on a non-blank. */
  method CutOne(t: string, spans: seq<Span>, at: nat, blockEnd: nat, maxChars: nat, offset: nat, role: Option<Role>,
                ghost limit: nat)
    returns (cut: seq<Span>, next: nat)
    requires maxChars > 0 && at < blockEnd && Paragraph(t, at, blockEnd, limit) && !IsSpace(t[at])
    requires Cuts(t, spans, at, maxChars, offset, role) && WellCut(t, spans, maxChars, offset)
    ensures at < next <= blockEnd && (next < blockEnd ==> !IsSpace(t[next]))
    ensures Cuts(t, cut, next, maxChars, offset, role) && WellCut(t, cut, maxChars, offset)
  {
    var hardEnd := if blockEnd <= at + maxChars then blockEnd else at + maxChars;
    var preferred := PreferredEnd(t, at, hardEnd, blockEnd);
    var end := TrimEnd(t, at, preferred);
    var span := Span(at + offset, end + offset, t[at..end], role);
    CutsAppend(t, spans, at, end, maxChars, offset, role);
    cut := spans + [span];
    CutEndsWell(t, at, end, maxChars, blockEnd, limit, cut, offset);
    WellCutAppend(t, spans, span, maxChars, offset);
    next := SkipSpace(t, end, blockEnd);
    CutsGrow(t, cut, end, next, maxChars, offset, role);
  }

  /** The inner loop: cut one block. */
  method CutBlock(t: string, spans: seq<Span>, cursor: nat, blockEnd: nat, maxChars: nat, offset: nat,
                  role: Option<Role>, ghost limit: nat)
    returns (cut: seq<Span>)
    requires maxChars > 0 && cursor < blockEnd && Paragraph(t, cursor, blockEnd, limit) && !IsSpace(t[cursor])
    requires Cuts(t, spans, cursor, maxChars, offset, role) && WellCut(t, spans, maxChars, offset)
    ensures Cuts(t, cut, blockEnd, maxChars, offset, role) && WellCut(t, cut, maxChars, offset)
  {
    cut := spans;
    var at := cursor;
    while at < blockEnd
      invariant cursor <= at <= blockEnd
      invariant at < blockEnd ==> !IsSpace(t[at])
      invariant Cuts(t, cut, at, maxChars, offset, role) && WellCut(t, cut, maxChars, offset)
      decreases blockEnd - at
    {
      cut, at := CutOne(t, cut, at, blockEnd, maxChars, offset, role, limit);
    }
  }

  /** Cut the block that starts at `start`, and move past the blank line that ends it. */
  method CutNextBlock(t: string, spans: seq<Span>, start: nat, maxChars: nat, offset: nat, role: Option<Role>)
    returns (cut: seq<Span>, cursor: nat)
    requires maxChars > 0 && start < |t| && !IsSpace(t[start])
    requires Cuts(t, spans, start, maxChars, offset, role) && WellCut(t, spans, maxChars, offset)
    ensures start < cursor <= |t| && Cuts(t, cut, cursor, maxChars, offset, role) && WellCut(t, cut, maxChars, offset)
  {
    var separator := SearchBlankLine(t, start);
    var limit := if separator.Some? then separator.value.start else |t|;
    cursor := if separator.Some? then separator.value.end else |t|;
    assert start < limit <= cursor && forall k :: limit <= k < cursor ==> IsSpace(t[k]);
    var blockEnd := TrimEnd(t, start, limit);
    cut := CutBlock(t, spans, start, blockEnd, maxChars, offset, role, limit);
    CutsGrow(t, cut, blockEnd, cursor, maxChars, offset, role);
  }

  /** `_text_spans`: the one cut of the whole text. */
  method TextSpans(t: string, maxChars: nat, offset: nat, role: Option<Role>) returns (spans: seq<Span>)
    requires maxChars > 0
    ensures IsCut(t, spans, maxChars, offset, role)
  {
    spans := [];
    var cursor := 0;
    while cursor < |t|
      invariant cursor <= |t| && Cuts(t, spans, cursor, maxChars, offset, role) && WellCut(t, spans, maxChars, offset)
      decreases |t| - cursor
    {
      var start := SkipSpace(t, cursor, |t|);
      CutsGrow(t, spans, cursor, start, maxChars, offset, role);
      cursor := start;
      if cursor >= |t| {
        break;
      }
      spans, cursor := CutNextBlock(t, spans, start, maxChars, offset, role);
    }
  }

  // ------------------------------------------------------------------
  // Role-structured transcripts
  // ------------------------------------------------------------------

  /** A turn; the role is None when it is not one of the three the transcript admits. */
  datatype Turn = Turn(role: Option<Role>, content: string)

  datatype Spans = Rejected(reason: string) | Accepted(spans: seq<Span>)

  predicate TurnOk(turn: Turn) {
    turn.role.Some? && exists i :: 0 <= i < |turn.content| && !IsSpace(turn.content[i])
  }

  /** `"\n\n".join(contents)`. */
  function Join(turns: seq<Turn>): string {
    if turns == [] then ""
    else if |turns| == 1 then turns[0].content
    else Join(turns[..|turns| - 1]) + "\n\n" + turns[|turns| - 1].content
  }

  /** Where a turn begins in the joined transcript. */
  function Offset(turns: seq<Turn>, k: nat): nat
    requires k <= |turns|
  {
    if k == 0 then 0 else Offset(turns, k - 1) + |turns[k - 1].content| + 2
  }

  lemma {:induction false} OffsetOfPrefix(turns: seq<Turn>, n: nat, k: nat)
    requires k <= n <= |turns|
    ensures Offset(turns[..n], k) == Offset(turns, k)
    decreases k
  {
    if k > 0 {
      OffsetOfPrefix(turns, n, k - 1);
    }
  }

  ghost predicate StandsAt(whole: string, at: nat, part: string) {
    at + |part| <= |whole| && whole[at..at + |part|] == part
  }

  lemma {:induction false} JoinLength(turns: seq<Turn>)
    requires turns != []
    ensures |Join(turns)| + 2 == Offset(turns, |turns|)
    decreases |turns|
  {
    var n := |turns| - 1;
    if n > 0 {
      JoinLength(turns[..n]);
      OffsetOfPrefix(turns, n, n);
    }
  }

  /** Each turn stands at its offset in the joined transcript. */
  lemma {:induction false} JoinHoldsTurn(turns: seq<Turn>, k: nat)
    requires k < |turns|
    ensures StandsAt(Join(turns), Offset(turns, k), turns[k].content)
    decreases |turns|
  {
    var n := |turns| - 1;
    if n > 0 {
      OffsetOfPrefix(turns, n, k);
      if k < n {
        JoinHoldsTurn(turns[..n], k);
      } else {
        JoinLength(turns[..n]);
      }
    }
  }

  /** A span of turn `k`: inside that turn, with its role, and a slice of the joined transcript at its own offsets. */
  ghost predicate InTurn(turns: seq<Turn>, span: Span, k: nat, maxChars: nat) {
    && k < |turns|
    && Offset(turns, k) <= span.start < span.end <= Offset(turns, k) + |turns[k].content|
    && span.end - span.start <= maxChars
    && span.role == turns[k].role
    && span.end <= |Join(turns)| && span.text == Join(turns)[span.start..span.end]
  }

  ghost predicate InSomeTurn(turns: seq<Turn>, span: Span, n: nat, maxChars: nat) {
    exists k :: 0 <= k < n && InTurn(turns, span, k, maxChars)
  }

  ghost predicate TurnCovered(turns: seq<Turn>, spans: seq<Span>, k: nat)
    requires k < |turns|
  {
    forall p :: 0 <= p < |turns[k].content| && !IsSpace(turns[k].content[p]) ==> Covered(spans, p + Offset(turns, k))
  }

  /** The spans of the first `n` turns. */
  ghost predicate Attributed(turns: seq<Turn>, spans: seq<Span>, n: nat, maxChars: nat) {
    && n <= |turns|
    && (forall i :: 0 <= i < |spans| ==> InSomeTurn(turns, spans[i], n, maxChars) && spans[i].end <= Offset(turns, n))
    && Ordered(spans)
    && (forall k :: 0 <= k < n ==> TurnCovered(turns, spans, k))
  }

  lemma SliceOfSlice(s: string, a: nat, b: nat, x: nat, y: nat)
    requires a <= b <= |s| && x <= y <= b - a
    ensures s[a..b][x..y] == s[a + x..a + y]
  {
    forall i | 0 <= i < y - x ensures s[a..b][x..y][i] == s[a + x..a + y][i] {
      assert s[a..b][x..y][i] == s[a..b][x + i] == s[a + (x + i)];
    }
  }

  lemma CutIsSlice(joined: string, at: nat, content: string, span: Span, maxChars: nat, role: Option<Role>)
    requires StandsAt(joined, at, content)
    requires SpanOk(content, span, maxChars, at, role)
    ensures span.end <= |joined| && span.text == joined[span.start..span.end]
  {
    SliceOfSlice(joined, at, at + |content|, span.start - at, span.end - at);
  }

  lemma CutIsInTurn(turns: seq<Turn>, span: Span, k: nat, maxChars: nat)
    requires k < |turns| && SpanOk(turns[k].content, span, maxChars, Offset(turns, k), turns[k].role)
    ensures InTurn(turns, span, k, maxChars)
  {
    JoinHoldsTurn(turns, k);
    CutIsSlice(Join(turns), Offset(turns, k), turns[k].content, span, maxChars, turns[k].role);
  }

  lemma CoveredInConcatenation(a: seq<Span>, b: seq<Span>, at: nat)
    requires Covered(a, at) || Covered(b, at)
    ensures Covered(a + b, at)
  {
    if Covered(a, at) {
      var i :| 0 <= i < |a| && a[i].start <= at < a[i].end;
      assert (a + b)[i] == a[i];
    } else {
      var i :| 0 <= i < |b| && b[i].start <= at < b[i].end;
      assert (a + b)[|a| + i] == b[i];
    }
  }

  lemma TurnsStillCovered(turns: seq<Turn>, spans: seq<Span>, cut: seq<Span>, n: nat, k: nat)
    requires k <= n < |turns|
    requires if k < n then TurnCovered(turns, spans, k)
      else Covers(turns[n].content, cut, |turns[n].content|, Offset(turns, n))
    ensures TurnCovered(turns, spans + cut, k)
  {
    forall p | 0 <= p < |turns[k].content| && !IsSpace(turns[k].content[p])
      ensures Covered(spans + cut, p + Offset(turns, k)) {
      assert k == n ==> Accounted(turns[n].content, cut, p, Offset(turns, n));
      CoveredInConcatenation(spans, cut, p + Offset(turns, k));
    }
  }

  lemma OrderedConcatenation(a: seq<Span>, b: seq<Span>, at: nat)
    requires Ordered(a) && Ordered(b)
    requires (forall i :: 0 <= i < |a| ==> a[i].end <= at) && (forall j :: 0 <= j < |b| ==> at <= b[j].start)
    ensures Ordered(a + b)
  {
    forall i, j | 0 <= i < j < |a + b| ensures Apart(a + b, i, j) {
      assert j < |a| ==> Apart(a, i, j);
      assert i >= |a| ==> Apart(b, i - |a|, j - |a|);
    }
  }

  lemma NewSpanInTurn(turns: seq<Turn>, span: Span, n: nat, maxChars: nat)
    requires n < |turns| && SpanOk(turns[n].content, span, maxChars, Offset(turns, n), turns[n].role)
    ensures InSomeTurn(turns, span, n + 1, maxChars) && span.end <= Offset(turns, n + 1)
  {
    CutIsInTurn(turns, span, n, maxChars);
  }

  lemma AttributeOneMore(turns: seq<Turn>, spans: seq<Span>, cut: seq<Span>, n: nat, maxChars: nat)
    requires n < |turns| && Attributed(turns, spans, n, maxChars)
    requires Cuts(turns[n].content, cut, |turns[n].content|, maxChars, Offset(turns, n), turns[n].role)
    ensures Attributed(turns, spans + cut, n + 1, maxChars)
  {
    var all := spans + cut;
    forall i | 0 <= i < |all| ensures InSomeTurn(turns, all[i], n + 1, maxChars) && all[i].end <= Offset(turns, n + 1) {
      if i < |spans| {
      } else {
        assert SpanAt(turns[n].content, cut, i - |spans|, |turns[n].content|, maxChars, Offset(turns, n),
          turns[n].role);
        NewSpanInTurn(turns, cut[i - |spans|], n, maxChars);
      }
    }
    forall j | 0 <= j < |cut| ensures Offset(turns, n) <= cut[j].start {
      assert SpanAt(turns[n].content, cut, j, |turns[n].content|, maxChars, Offset(turns, n), turns[n].role);
    }
    OrderedConcatenation(spans, cut, Offset(turns, n));
    forall k | 0 <= k < n + 1 ensures TurnCovered(turns, all, k) {
      TurnsStillCovered(turns, spans, cut, n, k);
    }
  }

  /** The spans are the cuts of the first `n` turns, one after the other. */
  ghost predicate Assembled(turns: seq<Turn>, spans: seq<Span>, n: nat, maxChars: nat)
    decreases n, 1
  {
    n <= |turns| && if n == 0 then spans == [] else exists k :: LastCut(turns, spans, n, maxChars, k)
  }

  ghost predicate LastCut(turns: seq<Turn>, spans: seq<Span>, n: nat, maxChars: nat, k: nat)
    decreases n, 0
  {
    && 0 < n <= |turns| && k <= |spans| && Assembled(turns, spans[..k], n - 1, maxChars)
    && IsCut(turns[n - 1].content, spans[k..], maxChars, Offset(turns, n - 1), turns[n - 1].role)
  }

  lemma AssembleOneMore(turns: seq<Turn>, spans: seq<Span>, cut: seq<Span>, n: nat, maxChars: nat)
    requires n < |turns| && IsCut(turns[n].content, cut, maxChars, Offset(turns, n), turns[n].role)
    ensures Assembled(turns, spans, n, maxChars) ==> Assembled(turns, spans + cut, n + 1, maxChars)
  {
    assert (spans + cut)[..|spans|] == spans && (spans + cut)[|spans|..] == cut;
    assert Assembled(turns, spans, n, maxChars) ==> LastCut(turns, spans + cut, n + 1, maxChars, |spans|);
  }

  /** The body of the turn loop: validate the turn, then cut it. */
  method AddTurn(turns: seq<Turn>, n: nat, spans: seq<Span>, maxChars: nat, offset: nat) returns (r: Spans)
    requires maxChars > 0 && n < |turns| && offset == Offset(turns, n) && Attributed(turns, spans, n, maxChars)
    ensures r.Accepted? <==> TurnOk(turns[n])
    ensures r.Accepted? ==> r.spans != [] && Attributed(turns, r.spans, n + 1, maxChars)
    ensures r.Accepted? && Assembled(turns, spans, n, maxChars) ==> Assembled(turns, r.spans, n + 1, maxChars)
  {
    var content := turns[n].content;
    if turns[n].role.None? {
      return Rejected("transcript turn role or content is invalid");
    }
    var first := SkipSpace(content, 0, |content|);
    if first == |content| {
      return Rejected("transcript turn content must be non-empty");
    }
    var cut := TextSpans(content, maxChars, offset, turns[n].role);
    assert Accounted(content, cut, first, offset);
    AttributeOneMore(turns, spans, cut, n, maxChars);
    AssembleOneMore(turns, spans, cut, n, maxChars);
    return Accepted(spans + cut);
  }

  /** `transcript_spans` on role-structured turns. */
  method TranscriptSpans(turns: seq<Turn>, maxChars: int) returns (r: Spans)
    ensures r.Accepted? <==>
      0 < maxChars <= MAX_EVIDENCE_CHARS && turns != [] && forall k :: 0 <= k < |turns| ==> TurnOk(turns[k])
    ensures r.Accepted? ==> r.spans != [] && Attributed(turns, r.spans, |turns|, maxChars)
    ensures r.Accepted? ==> Assembled(turns, r.spans, |turns|, maxChars)
  {
    if maxChars <= 0 || maxChars > MAX_EVIDENCE_CHARS {
      return Rejected("max_chars must be within the evidence limit");
    }
    var spans := [];
    var offset := 0;
    for n := 0 to |turns|
      invariant offset == Offset(turns, n) && Attributed(turns, spans, n, maxChars)
        && Assembled(turns, spans, n, maxChars)
      invariant forall k :: 0 <= k < n ==> TurnOk(turns[k])
      invariant n > 0 <==> spans != []
    {
      r := AddTurn(turns, n, spans, maxChars, offset);
      if r.Rejected? {
        return;
      }
      spans := r.spans;
      offset := offset + |turns[n].content| + 2;
    }
    if spans == [] {
      return Rejected("role-structured transcript must not be empty");
    }
    return Accepted(spans);
  }

  // ------------------------------------------------------------------
  // Span ids
  // ------------------------------------------------------------------

  function Zeros(n: nat): (s: string)
    ensures |s| == n && forall i :: 0 <= i < n ==> s[i] == '0'
  {
    if n == 0 then "" else "0" + Zeros(n - 1)
  }

  /** The format `{n:06d}`: zeros in front of the digits, up to six characters. */
  function Padded(n: nat): (s: string)
    ensures |s| == if |Decimal(n)| < 6 then 6 else |Decimal(n)|
    ensures s[|s| - |Decimal(n)|..] == Decimal(n) && forall i :: 0 <= i < |s| - |Decimal(n)| ==> s[i] == '0'
  {
    var digits := Decimal(n);
    if |digits| >= 6 then digits else Zeros(6 - |digits|) + digits
  }

  function SpanId(start: nat, end: nat): string {
    "span-" + (Padded(start) + "-" + Padded(end))
  }

  predicate AllDigits(s: string) {
    forall i :: 0 <= i < |s| ==> '0' <= s[i] <= '9'
  }

  /** Reads a decimal string back. */
  function Value(s: string): nat
    requires AllDigits(s)
  {
    if s == "" then 0 else 10 * Value(s[..|s| - 1]) + (s[|s| - 1] - '0') as nat
  }

  lemma {:induction false} DecimalReadsBack(n: nat)
    ensures AllDigits(Decimal(n)) && Value(Decimal(n)) == n
  {
    if n >= 10 {
      DecimalReadsBack(n / 10);
    }
  }

  lemma {:induction false} ZerosReadBack(z: nat, s: string)
    requires AllDigits(s)
    ensures AllDigits(Zeros(z) + s) && Value(Zeros(z) + s) == Value(s)
    decreases z, |s|
  {
    if s == "" {
      if z > 0 {
        ZerosReadBack(z - 1, "");
        ZerosShift(z - 1);
        assert Zeros(z) + "" == Zeros(z);
        assert Zeros(z)[..z - 1] + "" == Zeros(z - 1) + "";
        assert Zeros(z)[..|Zeros(z)| - 1] == Zeros(z - 1) + "";
      }
    } else {
      ZerosReadBack(z, s[..|s| - 1]);
      assert (Zeros(z) + s)[..|Zeros(z) + s| - 1] == Zeros(z) + s[..|s| - 1];
    }
  }

  lemma {:induction false} ZerosShift(z: nat)
    ensures |Zeros(z)| == z && Zeros(z + 1) == Zeros(z) + "0" && AllDigits(Zeros(z))
  {
    if z > 0 {
      ZerosShift(z - 1);
      assert Zeros(z + 1) == "0" + Zeros(z) == "0" + (Zeros(z - 1) + "0") == ("0" + Zeros(z - 1)) + "0";
    }
  }

  lemma PaddedReadsBack(n: nat)
    ensures AllDigits(Padded(n)) && Value(Padded(n)) == n
  {
    DecimalReadsBack(n);
    var digits := Decimal(n);
    if |digits| < 6 {
      ZerosReadBack(6 - |digits|, digits);
    }
  }

  /** Two digit strings before a dash are equal when the wholes are. */
  lemma DashSeparates(p: string, q: string, r: string, s: string)
    requires AllDigits(p) && AllDigits(r) && p + "-" + q == r + "-" + s
    ensures p == r && q == s
  {
    var x, y := p + "-" + q, r + "-" + s;
    assert x[|p|] == '-' && y[|r|] == '-';
    assert forall i :: 0 <= i < |p| ==> x[i] == p[i];
    assert forall i :: 0 <= i < |r| ==> y[i] == r[i];
    assert |p| == |r|;
    assert p == x[..|p|] && r == y[..|r|];
    assert q == x[|p| + 1..] && s == y[|r| + 1..];
  }

  lemma PrefixCancels(p: string, q: string, r: string)
    requires p + q == p + r
    ensures q == r
  {
    assert q == (p + q)[|p|..] && r == (p + r)[|p|..];
  }

  /** Different offsets give different span ids. */
  lemma SpanIdInjective(a: nat, b: nat, c: nat, d: nat)
    requires SpanId(a, b) == SpanId(c, d)
    ensures a == c && b == d
  {
    PaddedReadsBack(a);
    PaddedReadsBack(b);
    PaddedReadsBack(c);
    PaddedReadsBack(d);
    PrefixCancels("span-", Padded(a) + "-" + Padded(b), Padded(c) + "-" + Padded(d));
    DashSeparates(Padded(a), Padded(b), Padded(c), Padded(d));
  }

  /** The ids of a transcript's spans are pairwise distinct. */
  lemma SpanIdsDistinct(turns: seq<Turn>, spans: seq<Span>, maxChars: nat, i: nat, j: nat)
    requires Attributed(turns, spans, |turns|, maxChars) && i < j < |spans|
    ensures SpanId(spans[i].start, spans[i].end) != SpanId(spans[j].start, spans[j].end)
  {
    assert InSomeTurn(turns, spans[i], |turns|, maxChars);
    assert Apart(spans, i, j);
    if SpanId(spans[i].start, spans[i].end) == SpanId(spans[j].start, spans[j].end) {
      SpanIdInjective(spans[i].start, spans[i].end, spans[j].start, spans[j].end);
    }
  }
}

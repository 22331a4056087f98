/**
The string-aware bracket scanner that finds the first JSON array in a model's answer, and the
printed JSON values that it is meant for.
*/
module JsonArray {
  import opened Prelude

  // ------------------------------------------------------------------
  // The scanner
  // ------------------------------------------------------------------

  datatype Scan = Scan(depth: int, inString: bool, escape: bool)

  function Step(s: Scan, ch: char): Scan {
    if s.inString then
      if s.escape then s.(escape := false)
      else if ch == '\\' then s.(escape := true)
      else if ch == '"' then s.(inString := false)
      else s
    else if ch == '"' then s.(inString := true)
    else if ch == '[' then s.(depth := s.depth + 1)
    else if ch == ']' then s.(depth := s.depth - 1)
    else s
  }

  /** This character ends the array. */
  predicate Closes(s: Scan, ch: char) {
    !s.inString && ch == ']' && s.depth == 1
  }

  /** Scanning `text` from `s` ends no array and leaves the scanner in `t`. */
  predicate Silent(s: Scan, text: string, t: Scan)
    decreases |text|
  {
    if text == "" then s == t else !Closes(s, text[0]) && Silent(Step(s, text[0]), text[1..], t)
  }

  const START := Scan(0, false, false)

  /**
  `text[start..end]` is the first bracket-balanced block: it opens at the first '[' and `end` is where it
  first closes.
  */
  ghost predicate FirstArray(text: string, start: nat, end: nat) {
    && start < end <= |text| && text[start] == '['
    && (forall i :: 0 <= i < start ==> text[i] != '[')
    && ClosesAfter(text[start..end - 1], text[end - 1])
  }

  /** Scanning the block ends no array, and the next character does. */
  ghost predicate ClosesAfter(block: string, ch: char) {
    exists t :: Silent(START, block, t) && Closes(t, ch)
  }

  /** No block ever closes. */
  ghost predicate NoArray(text: string) {
    forall start, end :: !FirstArray(text, start, end)
  }

  lemma {:induction false} SilentEndsOnce(s: Scan, text: string, t: Scan, u: Scan)
    requires Silent(s, text, t) && Silent(s, text, u)
    ensures t == u
    decreases |text|
  {
    if text != "" {
      SilentEndsOnce(Step(s, text[0]), text[1..], t, u);
    }
  }

  lemma {:induction false} SilentConcat(s: Scan, a: string, m: Scan, b: string, t: Scan)
    requires Silent(s, a, m) && Silent(m, b, t)
    ensures Silent(s, a + b, t)
    decreases |a|
  {
    if a == "" {
      assert a + b == b;
    } else {
      SilentConcat(Step(s, a[0]), a[1..], m, b, t);
      assert (a + b)[1..] == a[1..] + b;
    }
  }

  /** A scan that passes `text` silently also passes each prefix silently, and does not close right after it. */
  lemma {:induction false} SilentPrefix(s: Scan, text: string, t: Scan, k: nat) returns (m: Scan)
    requires Silent(s, text, t) && k <= |text|
    ensures Silent(s, text[..k], m) && (k < |text| ==> !Closes(m, text[k]))
    decreases |text|
  {
    if k == 0 {
      m := s;
    } else {
      m := SilentPrefix(Step(s, text[0]), text[1..], t, k - 1);
      assert text[..k][1..] == text[1..][..k - 1];
    }
  }

  /** There is only one first array. */
  lemma FirstArrayUnique(text: string, a: nat, b: nat, c: nat, d: nat)
    ensures FirstArray(text, a, b) && FirstArray(text, c, d) ==> a == c && b == d
  {
    if FirstArray(text, a, b) && FirstArray(text, c, d) {
      assert a == c;
      if b < d {
        FirstArrayShortest(text, a, b, d);
      } else if d < b {
        FirstArrayShortest(text, a, d, b);
      }
    }
  }

  lemma FirstArrayShortest(text: string, start: nat, short: nat, long: nat)
    requires FirstArray(text, start, short) && FirstArray(text, start, long)
    ensures !(short < long)
  {
    if short < long {
      var t :| Silent(START, text[start..long - 1], t) && Closes(t, text[long - 1]);
      var u :| Silent(START, text[start..short - 1], u) && Closes(u, text[short - 1]);
      var m := SilentPrefix(START, text[start..long - 1], t, short - 1 - start);
      assert text[start..long - 1][..short - 1 - start] == text[start..short - 1];
      SilentEndsOnce(START, text[start..short - 1], m, u);
    }
  }

  /** `_extract_json_array`. */
  method ExtractJsonArray(text: string) returns (r: Option<string>)
    ensures r.Some? ==> exists start: nat, end: nat :: FirstArray(text, start, end) && r.value == text[start..end]
    ensures r.None? ==> NoArray(text)
  {
    var start := 0;
    while start < |text| && text[start] != '['
      invariant start <= |text| && forall i :: 0 <= i < start ==> text[i] != '['
    {
      start := start + 1;
    }
    if start == |text| {
      return None;
    }
    var depth, inStr, escape := 0, false, false;
    for i := start to |text|
      invariant Silent(START, text[start..i], Scan(depth, inStr, escape))
    {
      var ch := text[i];
      ghost var before := Scan(depth, inStr, escape);
      if inStr {
        if escape {
          escape := false;
        } else if ch == '\\' {
          escape := true;
        } else if ch == '"' {
          inStr := false;
        }
      } else if ch == '"' {
        inStr := true;
      } else if ch == '[' {
        depth := depth + 1;
      } else if ch == ']' {
        depth := depth - 1;
        if depth == 0 {
          assert FirstArray(text, start, i + 1);
          return Some(text[start..i + 1]);
        }
      }
      assert Silent(before, [ch], Scan(depth, inStr, escape));
      SilentConcat(START, text[start..i], before, [ch], Scan(depth, inStr, escape));
      assert text[start..i] + [ch] == text[start..i + 1];
    }
    forall a, b ensures !FirstArray(text, a, b) {
      if FirstArray(text, a, b) {
        assert a == start;
        assert text[start..|text|] == text[start..];
        NeverCloses(text, start, Scan(depth, inStr, escape), b);
      }
    }
    return None;
  }

  lemma NeverCloses(text: string, start: nat, t: Scan, end: nat)
    requires start <= |text| && Silent(START, text[start..], t)
    ensures !FirstArray(text, start, end)
  {
    if FirstArray(text, start, end) {
      var u :| Silent(START, text[start..end - 1], u) && Closes(u, text[end - 1]);
      var m := SilentPrefix(START, text[start..], t, end - 1 - start);
      assert text[start..][..end - 1 - start] == text[start..end - 1];
      SilentEndsOnce(START, text[start..end - 1], m, u);
    }
  }

  // ------------------------------------------------------------------
  // JSON texts (sections 2 to 7 of RFC 8259)
  // ------------------------------------------------------------------

  /** One character of a string: literal, `\c`, or `\uXXXX`. */
  datatype Piece = Plain(c: char) | Escaped(c: char) | Unicode(hex: string)

  datatype Json =
    | Literal(name: string)
    | Number(negative: bool, whole: string, fraction: string, exponent: string)
    | Str(pieces: seq<Piece>)
    | Arr(empty: string, items: seq<Item>)
    | Obj(empty: string, members: seq<Member>)

  /** A value with the whitespace around it. */
  datatype Item = Item(before: string, value: Json, after: string)

  datatype Member = Member(before: string, key: seq<Piece>, after: string, item: Item)

  predicate IsWhite(s: string) {
    forall i :: 0 <= i < |s| ==> s[i] == ' ' || s[i] == '\t' || s[i] == '\n' || s[i] == '\r'
  }

  predicate IsDigits(s: string) {
    forall i :: 0 <= i < |s| ==> '0' <= s[i] <= '9'
  }

  predicate IsHex(s: string) {
    forall i :: 0 <= i < |s| ==> '0' <= s[i] <= '9' || 'a' <= s[i] <= 'f' || 'A' <= s[i] <= 'F'
  }

  predicate PieceOk(p: Piece) {
    match p
    case Plain(c) => c >= ' ' && c != '"' && c != '\\'
    case Escaped(c) => c in {'"', '\\', '/', 'b', 'f', 'n', 'r', 't'}
    case Unicode(hex) => |hex| == 4 && IsHex(hex)
  }

  predicate PiecesOk(pieces: seq<Piece>) {
    forall i :: 0 <= i < |pieces| ==> PieceOk(pieces[i])
  }

  /** An exponent is empty, or an `e` or `E`, an optional sign, and digits. */
  predicate ExponentOk(e: string) {
    e == "" || (e[0] in {'e', 'E'} && (IsDigits(e[1..]) || (|e| > 1 && e[1] in {'+', '-'} && IsDigits(e[2..]))))
  }

  /** A JSON text that the grammar derives; numbers may also have leading zeros or empty digit runs. */
  predicate JsonOk(j: Json) {
    match j
    case Literal(name) => name in {"true", "false", "null"}
    case Number(_, whole, fraction, exponent) => IsDigits(whole) && IsDigits(fraction) && ExponentOk(exponent)
    case Str(pieces) => PiecesOk(pieces)
    case Arr(empty, items) => IsWhite(empty) && forall i :: 0 <= i < |items| ==> ItemOk(items[i])
    case Obj(empty, members) => IsWhite(empty) && forall i :: 0 <= i < |members| ==> MemberOk(members[i])
  }

  predicate ItemOk(item: Item) {
    IsWhite(item.before) && IsWhite(item.after) && JsonOk(item.value)
  }

  predicate MemberOk(m: Member) {
    IsWhite(m.before) && PiecesOk(m.key) && IsWhite(m.after) && ItemOk(m.item)
  }

  function PrintPiece(p: Piece): string {
    match p
    case Plain(c) => [c]
    case Escaped(c) => ['\\', c]
    case Unicode(hex) => "\\u" + hex
  }

  function PrintPieces(pieces: seq<Piece>): string {
    if pieces == [] then "" else PrintPiece(pieces[0]) + PrintPieces(pieces[1..])
  }

  function Print(j: Json): string
    decreases j
  {
    match j
    case Literal(name) => name
    case Number(negative, whole, fraction, exponent) =>
      (if negative then "-" else "") + whole + (if fraction == "" then "" else "." + fraction) + exponent
    case Str(pieces) => "\"" + PrintPieces(pieces) + "\""
    case Arr(empty, items) => "[" + (if items == [] then empty else PrintItems(items)) + "]"
    case Obj(empty, members) => "{" + (if members == [] then empty else PrintMembers(members)) + "}"
  }

  function PrintItem(item: Item): string
    decreases item
  {
    item.before + Print(item.value) + item.after
  }

  function PrintItems(items: seq<Item>): string
    decreases items
  {
    if items == [] then ""
    else if |items| == 1 then PrintItem(items[0])
    else PrintItem(items[0]) + "," + PrintItems(items[1..])
  }

  function PrintKey(m: Member): string {
    m.before + ("\"" + PrintPieces(m.key) + "\"") + m.after + ":"
  }

  function PrintMember(m: Member): string
    decreases m
  {
    PrintKey(m) + PrintItem(m.item)
  }

  function PrintMembers(members: seq<Member>): string
    decreases members
  {
    if members == [] then ""
    else if |members| == 1 then PrintMember(members[0])
    else PrintMember(members[0]) + "," + PrintMembers(members[1..])
  }

  // ------------------------------------------------------------------
  // Printed values are silent inside an array
  // ------------------------------------------------------------------

  /** Outside strings, at some depth. */
  function Outside(depth: int): Scan {
    Scan(depth, false, false)
  }

  predicate NoMarks(s: string) {
    forall i :: 0 <= i < |s| ==> s[i] != '"' && s[i] != '[' && s[i] != ']'
  }

  lemma {:induction false} NoMarksSilent(s: string, depth: int)
    requires NoMarks(s)
    ensures Silent(Outside(depth), s, Outside(depth))
    decreases |s|
  {
    if s != "" {
      NoMarksSilent(s[1..], depth);
    }
  }

  lemma {:induction false} HexSilent(s: string, inside: Scan)
    requires inside.inString && !inside.escape && IsHex(s)
    ensures Silent(inside, s, inside)
    decreases |s|
  {
    if s != "" {
      HexSilent(s[1..], inside);
    }
  }

  /** Inside a string, a piece keeps the scanner inside, whatever bracket or quote it stands for. */
  lemma PieceSilent(p: Piece, inside: Scan)
    requires PieceOk(p) && inside.inString && !inside.escape
    ensures Silent(inside, PrintPiece(p), inside)
  {
    match p
    case Plain(c) => assert [c][1..] == "";
    case Escaped(c) =>
      assert ['\\', c][1..] == [c] && [c][1..] == "";
    case Unicode(hex) =>
      HexSilent(hex, inside);
      var escaped := inside.(escape := true);
      assert ("\\u" + hex)[1..] == "u" + hex && ("u" + hex)[1..] == hex;
      assert Silent(escaped, "u" + hex, inside);
  }

  lemma {:induction false} PiecesSilent(pieces: seq<Piece>, inside: Scan)
    requires PiecesOk(pieces) && inside.inString && !inside.escape
    ensures Silent(inside, PrintPieces(pieces), inside)
    decreases |pieces|
  {
    if pieces != [] {
      PieceSilent(pieces[0], inside);
      PiecesSilent(pieces[1..], inside);
      SilentConcat(inside, PrintPiece(pieces[0]), inside, PrintPieces(pieces[1..]), inside);
    }
  }

  lemma StringSilent(pieces: seq<Piece>, depth: int)
    requires PiecesOk(pieces)
    ensures Silent(Outside(depth), "\"" + PrintPieces(pieces) + "\"", Outside(depth))
  {
    var inside := Scan(depth, true, false);
    PiecesSilent(pieces, inside);
    assert "\""[1..] == "";
    SilentConcat(Outside(depth), "\"", inside, PrintPieces(pieces), inside);
    SilentConcat(Outside(depth), "\"" + PrintPieces(pieces), inside, "\"", Outside(depth));
  }

  lemma NumberHasNoMarks(j: Json)
    requires j.Number? && JsonOk(j)
    ensures NoMarks(Print(j))
  {
    var e := j.exponent;
    assert e != "" ==> forall i :: 1 <= i < |e| ==> e[i] == e[1..][i - 1];
    assert |e| > 1 ==> forall i :: 2 <= i < |e| ==> e[i] == e[2..][i - 2];
    assert NoMarks(e);
  }

  /** A bracketed body is silent when its closing bracket does not return to depth zero. */
  lemma BracketsSilent(body: string, depth: int)
    requires depth >= 1 && Silent(Outside(depth + 1), body, Outside(depth + 1))
    ensures Silent(Outside(depth), "[" + body + "]", Outside(depth))
  {
    assert "["[1..] == "" && "]"[1..] == "";
    SilentConcat(Outside(depth), "[", Outside(depth + 1), body, Outside(depth + 1));
    SilentConcat(Outside(depth), "[" + body, Outside(depth + 1), "]", Outside(depth));
  }

  lemma BracesSilent(body: string, depth: int)
    requires Silent(Outside(depth), body, Outside(depth))
    ensures Silent(Outside(depth), "{" + body + "}", Outside(depth))
  {
    NoMarksSilent("{", depth);
    NoMarksSilent("}", depth);
    SilentConcat(Outside(depth), "{", Outside(depth), body, Outside(depth));
    SilentConcat(Outside(depth), "{" + body, Outside(depth), "}", Outside(depth));
  }

  lemma {:induction false} PrintSilent(j: Json, depth: int)
    requires JsonOk(j) && depth >= 1
    ensures Silent(Outside(depth), Print(j), Outside(depth))
    decreases j
  {
    match j
    case Literal(name) => NoMarksSilent(name, depth);
    case Number(_, _, _, _) =>
      NumberHasNoMarks(j);
      NoMarksSilent(Print(j), depth);
    case Str(pieces) => StringSilent(pieces, depth);
    case Arr(empty, items) =>
      if items == [] {
        NoMarksSilent(empty, depth + 1);
        BracketsSilent(empty, depth);
      } else {
        ItemsSilent(items, depth + 1);
        BracketsSilent(PrintItems(items), depth);
      }
    case Obj(empty, members) =>
      if members == [] {
        NoMarksSilent(empty, depth);
        BracesSilent(empty, depth);
      } else {
        MembersSilent(members, depth);
        BracesSilent(PrintMembers(members), depth);
      }
  }

  lemma {:induction false} ItemSilent(item: Item, depth: int)
    requires ItemOk(item) && depth >= 1
    ensures Silent(Outside(depth), PrintItem(item), Outside(depth))
    decreases item
  {
    var here := Outside(depth);
    NoMarksSilent(item.before, depth);
    PrintSilent(item.value, depth);
    NoMarksSilent(item.after, depth);
    SilentConcat(here, item.before, here, Print(item.value), here);
    SilentConcat(here, item.before + Print(item.value), here, item.after, here);
  }

  lemma {:induction false} ItemsSilent(items: seq<Item>, depth: int)
    requires depth >= 1 && forall i :: 0 <= i < |items| ==> ItemOk(items[i])
    ensures Silent(Outside(depth), PrintItems(items), Outside(depth))
    decreases items
  {
    if items != [] {
      ItemSilent(items[0], depth);
      if |items| > 1 {
        ItemsSilent(items[1..], depth);
        CommaSilent(PrintItem(items[0]), PrintItems(items[1..]), depth);
      }
    }
  }

  lemma CommaSilent(a: string, b: string, depth: int)
    requires Silent(Outside(depth), a, Outside(depth)) && Silent(Outside(depth), b, Outside(depth))
    ensures Silent(Outside(depth), a + "," + b, Outside(depth))
  {
    NoMarksSilent(",", depth);
    SilentConcat(Outside(depth), a, Outside(depth), ",", Outside(depth));
    SilentConcat(Outside(depth), a + ",", Outside(depth), b, Outside(depth));
  }

  lemma ChainSilent(a: string, b: string, depth: int)
    requires Silent(Outside(depth), a, Outside(depth)) && Silent(Outside(depth), b, Outside(depth))
    ensures Silent(Outside(depth), a + b, Outside(depth))
  {
    SilentConcat(Outside(depth), a, Outside(depth), b, Outside(depth));
  }

  lemma KeySilent(m: Member, depth: int)
    requires MemberOk(m)
    ensures Silent(Outside(depth), PrintKey(m), Outside(depth))
  {
    var key := "\"" + PrintPieces(m.key) + "\"";
    NoMarksSilent(m.before, depth);
    StringSilent(m.key, depth);
    NoMarksSilent(m.after, depth);
    NoMarksSilent(":", depth);
    ChainSilent(m.before, key, depth);
    ChainSilent(m.before + key, m.after, depth);
    ChainSilent(m.before + key + m.after, ":", depth);
  }

  lemma {:induction false} MemberSilent(m: Member, depth: int)
    requires MemberOk(m) && depth >= 1
    ensures Silent(Outside(depth), PrintMember(m), Outside(depth))
    decreases m
  {
    KeySilent(m, depth);
    ItemSilent(m.item, depth);
    ChainSilent(PrintKey(m), PrintItem(m.item), depth);
  }

  lemma {:induction false} MembersSilent(members: seq<Member>, depth: int)
    requires depth >= 1 && forall i :: 0 <= i < |members| ==> MemberOk(members[i])
    ensures Silent(Outside(depth), PrintMembers(members), Outside(depth))
    decreases members
  {
    if members != [] {
      MemberSilent(members[0], depth);
      if |members| > 1 {
        MembersSilent(members[1..], depth);
        CommaSilent(PrintMember(members[0]), PrintMembers(members[1..]), depth);
      }
    }
  }

  // ------------------------------------------------------------------
  // The scanner finds exactly the array
  // ------------------------------------------------------------------

  /** What an array prints between its brackets leaves the scanner at depth one. */
  lemma ArrayBodySilent(j: Json)
    requires j.Arr? && JsonOk(j)
    ensures var printed := Print(j);
      |printed| >= 2 && printed[0] == '[' && printed[|printed| - 1] == ']'
        && Silent(START, printed[..|printed| - 1], Outside(1))
  {
    var body := if j.items == [] then j.empty else PrintItems(j.items);
    if j.items == [] {
      NoMarksSilent(j.empty, 1);
    } else {
      ItemsSilent(j.items, 1);
    }
    assert "["[1..] == "";
    SilentConcat(START, "[", Outside(1), body, Outside(1));
    assert Print(j)[..|Print(j)| - 1] == "[" + body;
  }

  /**
  Whatever prose comes before (free of '[') and after, the first array of an answer that contains a
  printed JSON array is that array, whatever brackets, quotes and escapes its strings contain.
  */
  lemma PrintedArrayIsFirst(prefix: string, j: Json, suffix: string)
    requires j.Arr? && JsonOk(j) && forall i :: 0 <= i < |prefix| ==> prefix[i] != '['
    ensures var text := prefix + Print(j) + suffix;
      FirstArray(text, |prefix|, |prefix| + |Print(j)|) && text[|prefix|..|prefix| + |Print(j)|] == Print(j)
  {
    ArrayBodySilent(j);
    var printed := Print(j);
    var text := prefix + printed + suffix;
    var start, end := |prefix|, |prefix| + |printed|;
    assert text[start..end] == printed;
    assert text[start..end - 1] == printed[..|printed| - 1];
    assert Closes(Outside(1), text[end - 1]);
    assert ClosesAfter(text[start..end - 1], text[end - 1]);
  }

  /** The scanner applied to such an answer returns exactly the array's text. */
  method ExtractFromAnswer(prefix: string, j: Json, suffix: string) returns (r: Option<string>)
    requires j.Arr? && JsonOk(j) && forall i :: 0 <= i < |prefix| ==> prefix[i] != '['
    ensures r == Some(Print(j))
  {
    var text := prefix + Print(j) + suffix;
    r := ExtractJsonArray(text);
    PrintedArrayIsFirst(prefix, j, suffix);
    if r.Some? {
      ghost var start: nat, end: nat :| FirstArray(text, start, end) && r.value == text[start..end];
      FirstArrayUnique(text, start, end, |prefix|, |prefix| + |Print(j)|);
    }
  }
}

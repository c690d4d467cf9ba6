/**
 * The JavaScript string operations the application relies on: whitespace as
 * `\s` and `trim` see it, `toLowerCase`, the `\w` character class, `includes`,
 * `join`, and the decimal rendering of numbers in template strings.
 */
module Strings {

  /** JavaScript's whitespace (WhiteSpace and LineTerminator): what `\s` matches and `trim` strips. */
  predicate IsSpace(c: char) {
    || c == ' ' || c == '\t' || c == '\n' || c == '\U{B}' || c == '\U{C}' || c == '\r'
    || c == '\U{A0}' || c == '\U{1680}' || ('\U{2000}' <= c <= '\U{200A}')
    || c == '\U{2028}' || c == '\U{2029}' || c == '\U{202F}' || c == '\U{205F}'
    || c == '\U{3000}' || c == '\U{FEFF}'
  }

  /** `!s.trim()`: the string is empty or made of whitespace only. */
  predicate IsBlank(s: string) {
    forall i :: 0 <= i < |s| ==> IsSpace(s[i])
  }

  /** The regular-expression class `\w`: `[A-Za-z0-9_]`. */
  predicate IsWordChar(c: char) {
    'a' <= c <= 'z' || 'A' <= c <= 'Z' || '0' <= c <= '9' || c == '_'
  }

  predicate IsUpper(c: char) {
    'A' <= c <= 'Z'
  }

  /** `toLowerCase` on one character, for the ASCII letters. */
  function LowerChar(c: char): (d: char)
    ensures !IsUpper(d)
    ensures IsUpper(c) ==> d as int == c as int + 32
    ensures !IsUpper(c) ==> d == c
  {
    if IsUpper(c) then (c as int + 32) as char else c
  }

  /** Lower-casing keeps word characters word characters and whitespace whitespace. */
  lemma LowerCharKeepsClasses(c: char)
    ensures IsWordChar(LowerChar(c)) <==> IsWordChar(c)
    ensures IsSpace(LowerChar(c)) <==> IsSpace(c)
  {
  }

  /** `s.toLowerCase()`, character by character. */
  function ToLower(s: string): (r: string)
    ensures |r| == |s|
    ensures forall i :: 0 <= i < |s| ==> r[i] == LowerChar(s[i])
  {
    seq(|s|, i requires 0 <= i < |s| => LowerChar(s[i]))
  }

  /** Lower-casing a string twice is lower-casing it once. */
  lemma ToLowerIdempotent(s: string)
    ensures ToLower(ToLower(s)) == ToLower(s)
  {
  }

  /** A string with no upper-case letter is its own lower-case form. */
  lemma ToLowerOfLower(s: string)
    requires forall i :: 0 <= i < |s| ==> !IsUpper(s[i])
    ensures ToLower(s) == s
  {
  }

  predicate StartsWith(s: string, prefix: string) {
    |prefix| <= |s| && s[..|prefix|] == prefix
  }

  /** `s.includes(part)`: `part` occurs in `s` at some position (the empty string occurs everywhere). */
  predicate Contains(s: string, part: string)
    decreases |s|
  {
    StartsWith(s, part) || (|s| > 0 && Contains(s[1..], part))
  }

  /** A text only contains parts no longer than itself. */
  lemma {:induction false} ContainsFits(s: string, part: string)
    ensures Contains(s, part) ==> |part| <= |s|
    decreases |s|
  {
    if |s| > 0 {
      ContainsFits(s[1..], part);
    }
  }

  predicate OccursAt(s: string, part: string, i: int) {
    0 <= i <= |s| - |part| && s[i..i + |part|] == part
  }

  /** The search in `Contains` finds exactly the positions where `part` occurs. */
  lemma {:induction false} ContainsAt(s: string, part: string)
    ensures Contains(s, part) <==> exists i :: OccursAt(s, part, i)
  {
    if StartsWith(s, part) {
      assert OccursAt(s, part, 0);
    } else if |s| == 0 {
    } else {
      ContainsAt(s[1..], part);
      if Contains(s[1..], part) {
        var i :| OccursAt(s[1..], part, i);
        assert s[1..][i..i + |part|] == s[i + 1..i + 1 + |part|];
        assert OccursAt(s, part, i + 1);
      }
      if exists i :: OccursAt(s, part, i) {
        var i :| OccursAt(s, part, i);
        assert i != 0;
        assert s[1..][i - 1..i - 1 + |part|] == s[i..i + |part|];
        assert OccursAt(s[1..], part, i - 1);
      }
    }
  }

  /** A part found at some position inside `s` is found inside any text that has `s` in the middle. */
  lemma ContainsInside(a: string, s: string, b: string, part: string, i: int)
    requires OccursAt(s, part, i)
    ensures Contains(a + s + b, part)
  {
    var t := a + s + b;
    assert t[|a| + i..|a| + i + |part|] == s[i..i + |part|];
    assert OccursAt(t, part, |a| + i);
    ContainsAt(t, part);
  }

  /** A text that occurs inside a text occurring in `s` occurs in `s`. */
  lemma OccursWithin(s: string, outer: string, inner: string, i: int, j: int)
    requires OccursAt(s, outer, i) && OccursAt(outer, inner, j)
    ensures OccursAt(s, inner, i + j)
  {
    forall m | 0 <= m < |inner|
      ensures s[i + j + m] == inner[m]
    {
      assert inner[m] == outer[j + m] == s[i + j + m];
    }
    assert s[i + j..i + j + |inner|] == inner;
  }

  /** Each piece of a joined text, and each text occurring in a piece, is contained in the joined text. */
  lemma ContainsInJoin(ws: seq<string>, sep: string, k: nat, part: string, j: int)
    requires k < |ws| && OccursAt(ws[k], part, j)
    ensures Contains(Join(ws, sep), part)
  {
    var i := OccursInJoin(ws, sep, k);
    OccursWithin(Join(ws, sep), ws[k], part, i, j);
    ContainsInside([], Join(ws, sep), [], part, i + j);
    assert [] + Join(ws, sep) + [] == Join(ws, sep);
  }

  /** A text contains whatever sits in its middle. */
  lemma ContainsMiddle(a: string, part: string, b: string)
    ensures Contains(a + part + b, part)
  {
    assert part[0..|part|] == part;
    ContainsInside(a, part, b, part, 0);
  }

  /** Every part of a join occurs in it. */
  lemma {:induction false} OccursInJoin(ws: seq<string>, sep: string, k: nat) returns (i: int)
    requires k < |ws|
    ensures OccursAt(Join(ws, sep), ws[k], i)
  {
    var j := Join(ws, sep);
    if |ws| == 1 {
      assert j == ws[0] && j[0..|j|] == j;
      i := 0;
    } else {
      var rest := Join(ws[1..], sep);
      assert j == ws[0] + sep + rest;
      if k == 0 {
        assert j[0..|ws[0]|] == ws[0];
        i := 0;
      } else {
        var i' := OccursInJoin(ws[1..], sep, k - 1);
        assert ws[1..][k - 1] == ws[k];
        i := |ws[0]| + |sep| + i';
        assert j[i..i + |ws[k]|] == rest[i'..i' + |ws[k]|];
      }
    }
  }

  /** `!s.trim()`: a string is blank exactly when nothing is left once its leading whitespace is skipped. */
  lemma {:induction false} BlankIsTrimmedEmpty(s: string)
    ensures IsBlank(s) <==> SkipSpaces(s) == []
  {
    if s != [] {
      BlankIsTrimmedEmpty(s[1..]);
      BlankCons(s);
      if !IsSpace(s[0]) {
        assert SkipSpaces(s) == s;
      }
    }
  }

  /** A non-empty string is blank when its first character is whitespace and the rest is blank. */
  lemma BlankCons(s: string)
    requires s != []
    ensures IsBlank(s) <==> IsSpace(s[0]) && IsBlank(s[1..])
  {
    if IsSpace(s[0]) && IsBlank(s[1..]) {
      forall i | 0 < i < |s|
        ensures IsSpace(s[i])
      {
        assert s[i] == s[1..][i - 1];
      }
    }
  }

  /** `s` without its leading run of whitespace. */
  function SkipSpaces(s: string): (r: string)
    ensures |r| <= |s| && r == s[|s| - |r|..]
    ensures r == [] || !IsSpace(r[0])
    ensures |s| > 0 && IsSpace(s[0]) ==> |r| < |s|
  {
    if s != [] && IsSpace(s[0]) then SkipSpaces(s[1..]) else s
  }

  /** `s.split(/\s+/)`: the pieces between maximal runs of whitespace; a piece is empty only at either end. */
  function Split(s: string): (r: seq<string>)
    ensures |r| >= 1
  {
    SplitFrom(s, "")
  }

  /** Splitting the rest of the text, `current` being the piece read so far. */
  function SplitFrom(s: string, current: string): (r: seq<string>)
    ensures |r| >= 1
    decreases |s|
  {
    if s == [] then [current]
    else if IsSpace(s[0]) then [current] + SplitFrom(SkipSpaces(s), "")
    else SplitFrom(s[1..], current + [s[0]])
  }

  /** The pieces of a split hold no whitespace, and every character of a piece comes from the text. */
  lemma SplitPieces(s: string)
    ensures forall w :: w in Split(s) ==> forall i :: 0 <= i < |w| ==> !IsSpace(w[i]) && w[i] in s
  {
    SplitFromPieces(s, "");
  }

  lemma {:induction false} SplitFromPieces(s: string, current: string)
    requires forall i :: 0 <= i < |current| ==> !IsSpace(current[i])
    ensures forall w :: w in SplitFrom(s, current) ==> forall i :: 0 <= i < |w| ==> !IsSpace(w[i]) && (w[i] in s || w[i] in current)
    decreases |s|
  {
    if s == [] {
    } else if IsSpace(s[0]) {
      var rest := SkipSpaces(s);
      SplitFromPieces(rest, "");
      forall w | w in SplitFrom(rest, "")
        ensures forall i :: 0 <= i < |w| ==> w[i] in s
      {
        forall i | 0 <= i < |w|
          ensures w[i] in s
        {
          assert w[i] in rest;
        }
      }
    } else {
      SplitFromPieces(s[1..], current + [s[0]]);
    }
  }

  /** `parts.join(sep)`. */
  function Join(parts: seq<string>, sep: string): string {
    if |parts| == 0 then ""
    else if |parts| == 1 then parts[0]
    else parts[0] + sep + Join(parts[1..], sep)
  }

  /** A text with no whitespace character. */
  predicate NoSpace(w: string) {
    forall i :: 0 <= i < |w| ==> !IsSpace(w[i])
  }

  /** A gap between words: a non-empty run of whitespace, such as `" "`, `"\n"` or `" \t "`. */
  predicate IsGap(g: string) {
    |g| > 0 && forall i :: 0 <= i < |g| ==> IsSpace(g[i])
  }

  /** What `split(/\s+/)` returns: whitespace-free pieces, of which only the first and the last may be empty. */
  predicate ArePieces(ws: seq<string>) {
    forall k :: 0 <= k < |ws| ==> NoSpace(ws[k]) && (0 < k < |ws| - 1 ==> |ws[k]| > 0)
  }

  /** The words with `gaps[k]` between `ws[k]` and `ws[k + 1]`. */
  function JoinWith(ws: seq<string>, gaps: seq<string>): string
    requires |ws| == |gaps| + 1
    decreases |gaps|
  {
    if gaps == [] then ws[0] else ws[0] + gaps[0] + JoinWith(ws[1..], gaps[1..])
  }

  /** A text built from pieces and gaps starts with its first piece, and is that piece alone when there are no gaps. */
  lemma JoinWithStart(ws: seq<string>, gaps: seq<string>)
    requires |ws| == |gaps| + 1
    ensures |ws[0]| <= |JoinWith(ws, gaps)| && JoinWith(ws, gaps)[..|ws[0]|] == ws[0]
    ensures gaps == [] ==> JoinWith(ws, gaps) == ws[0]
  {
    if gaps != [] {
      var rest := ws[1..];
      assert JoinWith(ws, gaps) == ws[0] + (gaps[0] + JoinWith(rest, gaps[1..]));
    }
  }

  /** A gap ends the current piece, and splitting starts afresh after it. */
  lemma SplitFromGap(g: string, rest: string, current: string)
    requires IsGap(g) && (rest == [] || !IsSpace(rest[0]))
    ensures SplitFrom(g + rest, current) == [current] + SplitFrom(rest, "")
  {
    assert (g + rest)[0] == g[0];
    SkipGap(g, rest);
  }

  /** After the first piece, the rest still has the shape of a split; the second piece is empty only when it is the last. */
  lemma PiecesTail(ws: seq<string>)
    requires |ws| >= 2 && ArePieces(ws)
    ensures ArePieces(ws[1..])
    ensures |ws[1..][0]| == 0 ==> |ws| == 2
  {
    forall k | 0 <= k < |ws| - 1
      ensures NoSpace(ws[1..][k]) && (0 < k < |ws| - 2 ==> |ws[1..][k]| > 0)
    {
      assert ws[1..][k] == ws[k + 1];
    }
  }

  /** A text whose first piece has no whitespace, and is non-empty unless it stands alone, does not start with whitespace. */
  lemma JoinWithStartsWord(ws: seq<string>, gaps: seq<string>)
    requires |ws| == |gaps| + 1 && NoSpace(ws[0])
    requires |ws[0]| == 0 ==> gaps == []
    ensures JoinWith(ws, gaps) == [] || !IsSpace(JoinWith(ws, gaps)[0])
  {
    JoinWithStart(ws, gaps);
    if |ws[0]| > 0 {
      assert JoinWith(ws, gaps)[0] == JoinWith(ws, gaps)[..|ws[0]|][0];
    }
  }

  /** Reading a run of non-space characters only extends the current piece. */
  lemma {:induction false} SplitFromWord(w: string, s: string, current: string)
    requires NoSpace(w)
    ensures SplitFrom(w + s, current) == SplitFrom(s, current + w)
    decreases |w|
  {
    if w == [] {
      assert w + s == s && current + w == current;
    } else {
      assert (w + s)[0] == w[0] && (w + s)[1..] == w[1..] + s;
      SplitFromWord(w[1..], s, current + [w[0]]);
      assert current + [w[0]] + w[1..] == current + w;
    }
  }

  /** Skipping whitespace passes over a whole gap and stops at the first non-space. */
  lemma {:induction false} SkipGap(g: string, rest: string)
    requires forall i :: 0 <= i < |g| ==> IsSpace(g[i])
    requires rest == [] || !IsSpace(rest[0])
    ensures SkipSpaces(g + rest) == rest
    decreases |g|
  {
    if g == [] {
      assert g + rest == rest;
    } else {
      assert (g + rest)[1..] == g[1..] + rest;
      SkipGap(g[1..], rest);
    }
  }

  lemma {:induction false} SplitFromJoinWith(ws: seq<string>, gaps: seq<string>, current: string)
    requires |ws| == |gaps| + 1 && ArePieces(ws)
    requires forall k :: 0 <= k < |gaps| ==> IsGap(gaps[k])
    ensures SplitFrom(JoinWith(ws, gaps), current) == [current + ws[0]] + ws[1..]
    decreases |gaps|
  {
    if gaps == [] {
      SplitFromWord(ws[0], "", current);
      assert ws[0] + "" == ws[0];
    } else {
      var rest := JoinWith(ws[1..], gaps[1..]);
      assert JoinWith(ws, gaps) == ws[0] + (gaps[0] + rest);
      SplitFromWord(ws[0], gaps[0] + rest, current);
      PiecesTail(ws);
      JoinWithStartsWord(ws[1..], gaps[1..]);
      SplitFromGap(gaps[0], rest, current + ws[0]);
      assert forall k :: 0 <= k < |gaps[1..]| ==> IsGap(gaps[1..][k]);
      SplitFromJoinWith(ws[1..], gaps[1..], "");
      assert "" + ws[1] == ws[1];
      assert ws[1..] == [ws[1]] + ws[2..];
    }
  }

  /** Pieces put back together with any whitespace gaps split into the same pieces. */
  lemma SplitJoinWith(ws: seq<string>, gaps: seq<string>)
    requires |ws| == |gaps| + 1 && ArePieces(ws)
    requires forall k :: 0 <= k < |gaps| ==> IsGap(gaps[k])
    ensures Split(JoinWith(ws, gaps)) == ws
  {
    SplitFromJoinWith(ws, gaps, "");
    assert "" + ws[0] == ws[0];
  }

  /** When every character of the words and the gaps has a property, so has every character of the text. */
  lemma {:induction false} JoinWithChars(ws: seq<string>, gaps: seq<string>, p: char -> bool)
    requires |ws| == |gaps| + 1
    requires forall k, i :: 0 <= k < |ws| && 0 <= i < |ws[k]| ==> p(ws[k][i])
    requires forall k, i :: 0 <= k < |gaps| && 0 <= i < |gaps[k]| ==> p(gaps[k][i])
    ensures forall i :: 0 <= i < |JoinWith(ws, gaps)| ==> p(JoinWith(ws, gaps)[i])
    decreases |gaps|
  {
    if gaps != [] {
      JoinWithChars(ws[1..], gaps[1..], p);
      var j := JoinWith(ws, gaps);
      var rest := JoinWith(ws[1..], gaps[1..]);
      assert j == ws[0] + gaps[0] + rest;
      forall i | 0 <= i < |j|
        ensures p(j[i])
      {
        if i < |ws[0]| {
          assert j[i] == ws[0][i];
        } else if i < |ws[0]| + |gaps[0]| {
          assert j[i] == gaps[0][i - |ws[0]|];
        } else {
          assert j[i] == rest[i - |ws[0]| - |gaps[0]|];
        }
      }
    }
  }

  function Digit(d: nat): (c: char)
    requires d < 10
    ensures '0' <= c <= '9'
  {
    "0123456789"[d]
  }

  /** The decimal text of a natural number, as `${n}` renders it. */
  function NatToString(n: nat): (s: string)
    ensures |s| >= 1
    ensures forall i :: 0 <= i < |s| ==> '0' <= s[i] <= '9'
  {
    if n < 10 then [Digit(n)] else NatToString(n / 10) + [Digit(n % 10)]
  }

  /** The number a string of decimal digits spells, read most significant digit first. */
  function DecimalValue(s: string): nat
    requires forall i :: 0 <= i < |s| ==> '0' <= s[i] <= '9'
  {
    if s == [] then 0 else 10 * DecimalValue(s[..|s| - 1]) + (s[|s| - 1] as int - '0' as int)
  }

  /** The decimal text of `n` reads back as `n`. */
  lemma {:induction false} NatToStringValue(n: nat)
    ensures DecimalValue(NatToString(n)) == n
  {
    var s := NatToString(n);
    if n < 10 {
      assert s == [Digit(n)];
    } else {
      NatToStringValue(n / 10);
      assert s[..|s| - 1] == NatToString(n / 10);
    }
  }

  /** Different numbers get different texts. */
  lemma NatToStringInjective(m: nat, n: nat)
    requires NatToString(m) == NatToString(n)
    ensures m == n
  {
    NatToStringValue(m);
    NatToStringValue(n);
  }

  /** The decimal text of an integer, with a leading `-` when negative. */
  function IntToString(n: int): string {
    if n < 0 then "-" + NatToString(-n) else NatToString(n)
  }

  /** `Math.round(num / den)` for exact rationals: the nearest integer, halves rounded up. */
  function RoundHalfUp(num: int, den: int): (r: int)
    requires den > 0
    ensures 2 * den * r - den <= 2 * num < 2 * den * r + den
  {
    var q := (2 * num + den) / (2 * den);
    assert 2 * den * q <= 2 * num + den < 2 * den * q + 2 * den by {
      DivBounds(2 * num + den, 2 * den);
    }
    q
  }

  /** Multiplying by a non-negative number keeps the order of integers. */
  lemma MulLeftMono(k: nat, x: int, y: int)
    requires x <= y
    ensures k * x <= k * y
  {
    assert k * y - k * x == k * (y - x);
  }

  /** A positive factor can be cancelled from a strict inequality. */
  lemma MulCancelLess(n: int, x: int, y: int)
    requires n > 0 && n * x < n * y
    ensures x < y
  {
    if x >= y {
      MulLeftMono(n, y, x);
    }
  }

  lemma DivBounds(a: int, b: int)
    requires b > 0
    ensures b * (a / b) <= a < b * (a / b) + b
  {
  }

  function Min(a: int, b: int): int {
    if a <= b then a else b
  }

  function Max(a: int, b: int): int {
    if a >= b then a else b
  }
}

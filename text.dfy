/**
 * The JavaScript string operations the site applies to titles, names,
 * file names and post bodies: ASCII `toLowerCase`, `trim`,
 * `split(sep)` / `join(sep)`, and `replace(/<class>+/g, sub)`, which turns
 * every maximal run of characters of a class into one replacement
 * character. Decimal rendering of naturals stands for `${n}`.
 */
module Text {

  /** JavaScript's WhiteSpace and LineTerminator characters: the set `trim` removes and `\s` matches. */
  predicate IsSpace(c: char) {
    c == ' ' || c == '\t' || c == '\n' || c == '\r' || c == '\U{000B}' || c == '\U{000C}' ||
    c == '\U{00A0}' || c == '\U{1680}' || ('\U{2000}' <= c <= '\U{200A}') ||
    c == '\U{2028}' || c == '\U{2029}' || c == '\U{202F}' || c == '\U{205F}' ||
    c == '\U{3000}' || c == '\U{FEFF}'
  }

  /** The characters a regular-expression `.` does not match. */
  predicate IsLineTerminator(c: char) {
    c == '\n' || c == '\r' || c == '\U{2028}' || c == '\U{2029}'
  }

  function LowerChar(c: char): char {
    if 'A' <= c <= 'Z' then (c as int + 32) as char else c
  }

  /** `s.toLowerCase()` on the ASCII range. */
  function Lower(s: string): (r: string)
    ensures |r| == |s|
  {
    seq(|s|, i requires 0 <= i < |s| => LowerChar(s[i]))
  }

  predicate EndsWith(s: string, suffix: string) {
    |suffix| <= |s| && s[|s| - |suffix|..] == suffix
  }

  // ---------------------------------------------------------------- trim

  function TrimStart(s: string): (r: string)
    ensures |r| <= |s| && r == s[|s| - |r|..]
    ensures r == [] || !IsSpace(r[0])
    decreases |s|
  {
    if s != [] && IsSpace(s[0]) then TrimStart(s[1..]) else s
  }

  function TrimEnd(s: string): (r: string)
    ensures |r| <= |s| && r == s[..|r|]
    ensures r == [] || !IsSpace(r[|r| - 1])
    decreases |s|
  {
    if s != [] && IsSpace(s[|s| - 1]) then TrimEnd(s[..|s| - 1]) else s
  }

  /** `s.trim()`. */
  function Trim(s: string): string {
    TrimEnd(TrimStart(s))
  }

  /** A string `trim` leaves alone: it neither starts nor ends with white space. */
  predicate Trimmed(s: string) {
    s == [] || (!IsSpace(s[0]) && !IsSpace(s[|s| - 1]))
  }

  /** Whatever `trim` returns is trimmed. */
  lemma TrimIsTrimmed(s: string)
    ensures Trimmed(Trim(s))
  {
    var t := TrimStart(s);
    var r := TrimEnd(t);
    if r != [] {
      assert r == t[..|r|];
      assert r[0] == t[0];
    }
  }

  /** `trim` leaves a trimmed string alone. */
  lemma TrimKeepsTrimmed(x: string)
    requires Trimmed(x)
    ensures Trim(x) == x
  {
    assert TrimStart(x) == x;
  }

  /** A leading blank added by `join(", ")` is removed again by `trim`. */
  lemma TrimAfterBlank(x: string)
    requires Trimmed(x)
    ensures Trim(" " + x) == x
  {
    assert (" " + x)[1..] == x;
    assert TrimStart(" " + x) == TrimStart(x);
    assert TrimStart(x) == x;
  }

  // ---------------------------------------------------------------- split / join

  /** `sep` occurs in `s` starting at index `i`. */
  predicate OccursAt(s: string, sep: string, i: int) {
    0 <= i && i + |sep| <= |s| && s[i..i + |sep|] == sep
  }

  /**
   * `s.split(sep)` for a non-empty separator: a left-to-right scan that cuts at every
   * occurrence of `sep` that does not overlap an earlier cut.
   */
  function Split(s: string, sep: string): (parts: seq<string>)
    requires |sep| > 0
    ensures |parts| >= 1
    decreases |s|
  {
    if |s| < |sep| then [s]
    else if s[..|sep|] == sep then [""] + Split(s[|sep|..], sep)
    else
      var rest := Split(s[1..], sep);
      [[s[0]] + rest[0]] + rest[1..]
  }

  /** `parts.join(sep)`. */
  function Join(parts: seq<string>, sep: string): string
    decreases |parts|
  {
    if parts == [] then ""
    else if |parts| == 1 then parts[0]
    else parts[0] + sep + Join(parts[1..], sep)
  }

  /** The number of non-overlapping occurrences of `sep` in `s`, counted left to right. */
  function Occurrences(s: string, sep: string): nat
    requires |sep| > 0
    decreases |s|
  {
    if |s| < |sep| then 0
    else if s[..|sep|] == sep then 1 + Occurrences(s[|sep|..], sep)
    else Occurrences(s[1..], sep)
  }

  lemma JoinConsHead(c: char, rest: seq<string>, sep: string)
    requires |rest| >= 1
    ensures Join([[c] + rest[0]] + rest[1..], sep) == [c] + Join(rest, sep)
  {
    var parts := [[c] + rest[0]] + rest[1..];
    if |rest| > 1 {
      assert parts[1..] == rest[1..];
    }
  }

  /** Joining the pieces of a split with the same separator gives back the string. */
  lemma {:induction false} JoinSplit(s: string, sep: string)
    requires |sep| > 0
    ensures Join(Split(s, sep), sep) == s
    decreases |s|
  {
    if |s| < |sep| {
    } else if s[..|sep|] == sep {
      var rest := Split(s[|sep|..], sep);
      JoinSplit(s[|sep|..], sep);
      assert ([""] + rest)[1..] == rest;
      assert s == sep + s[|sep|..];
    } else {
      var rest := Split(s[1..], sep);
      JoinSplit(s[1..], sep);
      JoinConsHead(s[0], rest, sep);
      assert s == [s[0]] + s[1..];
    }
  }

  /** A split yields one more piece than there are occurrences of the separator. */
  lemma {:induction false} SplitCount(s: string, sep: string)
    requires |sep| > 0
    ensures |Split(s, sep)| == Occurrences(s, sep) + 1
    decreases |s|
  {
    if |s| < |sep| {
    } else if s[..|sep|] == sep {
      SplitCount(s[|sep|..], sep);
    } else {
      SplitCount(s[1..], sep);
    }
  }

  /** Splitting on a one-character separator leaves no separator inside any piece. */
  lemma {:induction false} SplitPiecesFree(s: string, c: char)
    ensures forall i, j :: 0 <= i < |Split(s, [c])| && 0 <= j < |Split(s, [c])[i]| ==> Split(s, [c])[i][j] != c
    decreases |s|
  {
    if |s| >= 1 {
      if s[..1] == [c] {
        SplitPiecesFree(s[1..], c);
      } else {
        assert s[0] != c;
        SplitPiecesFree(s[1..], c);
      }
    }
  }

  /** A string without the separator character splits into itself alone. */
  lemma {:induction false} SplitWithoutSeparator(s: string, c: char)
    requires c !in s
    ensures Split(s, [c]) == [s]
    decreases |s|
  {
    if |s| >= 1 {
      assert s[0] != c;
      assert s[..1] != [c];
      SplitWithoutSeparator(s[1..], c);
      assert [s[0]] + s[1..] == s;
    }
  }

  /** A separator-free prefix followed by the separator becomes the first piece on its own. */
  lemma {:induction false} SplitAfterFreePrefix(a: string, c: char, b: string)
    requires c !in a
    ensures Split(a + [c] + b, [c]) == [a] + Split(b, [c])
    decreases |a|
  {
    var s := a + [c] + b;
    if a == [] {
      assert s == [c] + b;
      assert s[..1] == [c];
      assert s[1..] == b;
    } else {
      assert s[0] == a[0] && a[0] != c;
      assert s[..1] != [c];
      assert s[1..] == a[1..] + [c] + b;
      SplitAfterFreePrefix(a[1..], c, b);
      assert [a[0]] + a[1..] == a;
    }
  }

  /** The last piece of a split on `c` is whatever follows the last `c`. */
  lemma {:induction false} SplitLastPiece(p: string, c: char, e: string)
    requires c !in e
    ensures |Split(p + [c] + e, [c])| >= 2
    ensures Split(p + [c] + e, [c])[|Split(p + [c] + e, [c])| - 1] == e
    decreases |p|
  {
    var s := p + [c] + e;
    if p == [] {
      assert s == [c] + e;
      assert s[..1] == [c];
      assert s[1..] == e;
      SplitWithoutSeparator(e, c);
    } else {
      assert s[1..] == p[1..] + [c] + e;
      SplitLastPiece(p[1..], c, e);
    }
  }

  // ---------------------------------------------------------------- run replacement

  /** The suffix of `s` left after its leading run of `inRun` characters. */
  function DropRun(s: string, inRun: char -> bool): (r: string)
    ensures |r| <= |s| && r == s[|s| - |r|..]
    ensures r == [] || !inRun(r[0])
    ensures s != [] && inRun(s[0]) ==> |r| < |s|
    decreases |s|
  {
    if s != [] && inRun(s[0]) then DropRun(s[1..], inRun) else s
  }

  /** `s.replace(/[class]+/g, sub)`: every maximal run of `inRun` characters becomes one `sub`. */
  function ReplaceRuns(s: string, inRun: char -> bool, sub: char): (r: string)
    ensures |r| <= |s|
    ensures r == [] <==> s == []
    decreases |s|
  {
    if s == [] then []
    else if inRun(s[0]) then [sub] + ReplaceRuns(DropRun(s, inRun), inRun, sub)
    else [s[0]] + ReplaceRuns(s[1..], inRun, sub)
  }

  /** The characters of `s` outside the class, in order. */
  function Outside(s: string, inRun: char -> bool): string
    decreases |s|
  {
    if s == [] then [] else (if inRun(s[0]) then [] else [s[0]]) + Outside(s[1..], inRun)
  }

  /** Every character of `r` is `sub` or a character outside the class. */
  predicate SubOrOutside(r: string, inRun: char -> bool, sub: char) {
    forall i :: 0 <= i < |r| ==> r[i] == sub || !inRun(r[i])
  }

  /** Every character of the result is the replacement or a character outside the class. */
  lemma {:induction false} ReplaceRunsAlphabet(s: string, inRun: char -> bool, sub: char)
    ensures SubOrOutside(ReplaceRuns(s, inRun, sub), inRun, sub)
    decreases |s|
  {
    if s != [] {
      var rest := if inRun(s[0]) then DropRun(s, inRun) else s[1..];
      var head := if inRun(s[0]) then sub else s[0];
      assert ReplaceRuns(s, inRun, sub) == [head] + ReplaceRuns(rest, inRun, sub);
      ReplaceRunsAlphabet(rest, inRun, sub);
      ConsSubOrOutside(head, ReplaceRuns(rest, inRun, sub), inRun, sub);
    }
  }

  lemma ConsSubOrOutside(c: char, tail: string, inRun: char -> bool, sub: char)
    requires c == sub || !inRun(c)
    requires SubOrOutside(tail, inRun, sub)
    ensures SubOrOutside([c] + tail, inRun, sub)
  {
    var r := [c] + tail;
    forall i | 1 <= i < |r|
      ensures r[i] == sub || !inRun(r[i])
    {
      assert r[i] == tail[i - 1];
    }
  }

  /** When the replacement is itself in the class, the result never holds it twice in a row. */
  lemma {:induction false} ReplaceRunsNoDouble(s: string, inRun: char -> bool, sub: char)
    requires inRun(sub)
    ensures forall i :: 0 <= i < |ReplaceRuns(s, inRun, sub)| - 1 ==>
      !(ReplaceRuns(s, inRun, sub)[i] == sub && ReplaceRuns(s, inRun, sub)[i + 1] == sub)
    decreases |s|
  {
    if s != [] {
      if inRun(s[0]) {
        var d := DropRun(s, inRun);
        ReplaceRunsNoDouble(d, inRun, sub);
        if d != [] {
          assert ReplaceRuns(d, inRun, sub)[0] == d[0];
        }
      } else {
        ReplaceRunsNoDouble(s[1..], inRun, sub);
      }
    }
  }

  lemma {:induction false} OutsideDropRun(s: string, inRun: char -> bool)
    ensures Outside(DropRun(s, inRun), inRun) == Outside(s, inRun)
    decreases |s|
  {
    if s != [] && inRun(s[0]) {
      OutsideDropRun(s[1..], inRun);
    }
  }

  /** When the replacement is in the class, the characters outside it survive unchanged and in order. */
  lemma {:induction false} ReplaceRunsKeepsOutside(s: string, inRun: char -> bool, sub: char)
    requires inRun(sub)
    ensures Outside(ReplaceRuns(s, inRun, sub), inRun) == Outside(s, inRun)
    decreases |s|
  {
    if s != [] {
      var r := ReplaceRuns(s, inRun, sub);
      if inRun(s[0]) {
        var d := DropRun(s, inRun);
        ReplaceRunsKeepsOutside(d, inRun, sub);
        OutsideDropRun(s, inRun);
        assert r[1..] == ReplaceRuns(d, inRun, sub);
      } else {
        ReplaceRunsKeepsOutside(s[1..], inRun, sub);
        assert r[1..] == ReplaceRuns(s[1..], inRun, sub);
      }
    }
  }

  // ---------------------------------------------------------------- decimals

  function DigitChar(d: nat): char
    requires d < 10
  {
    ('0' as int + d) as char
  }

  /** `${n}` for a natural number. */
  function Decimal(n: nat): (s: string)
    ensures |s| >= 1
    ensures forall i :: 0 <= i < |s| ==> '0' <= s[i] <= '9'
    decreases n
  {
    if n < 10 then [DigitChar(n)] else Decimal(n / 10) + [DigitChar(n % 10)]
  }

  /** The number a string of decimal digits denotes. */
  function DigitsValue(s: string): nat
    requires forall i :: 0 <= i < |s| ==> '0' <= s[i] <= '9'
    decreases |s|
  {
    if s == [] then 0 else DigitsValue(s[..|s| - 1]) * 10 + (s[|s| - 1] as int - '0' as int)
  }

  /** Reading back the digits of `n` gives `n`; so distinct numbers render differently. */
  lemma {:induction false} DecimalRoundTrip(n: nat)
    ensures DigitsValue(Decimal(n)) == n
    decreases n
  {
    if n >= 10 {
      DecimalRoundTrip(n / 10);
      var s := Decimal(n);
      assert s[..|s| - 1] == Decimal(n / 10);
    }
  }
}

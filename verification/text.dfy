/**
 * The JavaScript string operations that the scraper and the query handler
 * rely on: `trim`, `includes`, `replace` with a string pattern, `split` on one
 * character, the first match of `/\d+/`, and ASCII case folding.
 */
module Text {
  import opened Wrappers

  /** White space and line terminators as `trim` and `parseInt` skip them: tab, LF, VT,
      FF, CR, the byte order mark, the line and paragraph separators, and every space
      separator (U+0020, U+00A0, U+1680, U+2000 to U+200A, U+202F, U+205F, U+3000). */
  predicate IsJsSpace(c: char) {
    || c == '\t' || c == '\n' || c == '\U{0B}' || c == '\U{0C}' || c == '\r'
    || c == '\U{FEFF}' || c == '\U{2028}' || c == '\U{2029}'
    || c == ' ' || c == '\U{A0}' || c == '\U{1680}' || ('\U{2000}' <= c <= '\U{200A}')
    || c == '\U{202F}' || c == '\U{205F}' || c == '\U{3000}'
  }

  /** A character matched by `\d` in a JavaScript regular expression without the `u` flag. */
  predicate IsDigit(c: char) {
    '0' <= c <= '9'
  }

  predicate AllDigits(s: string) {
    forall i :: 0 <= i < |s| ==> IsDigit(s[i])
  }

  /** `s` without its leading white space. */
  function TrimStart(s: string): string {
    if s != [] && IsJsSpace(s[0]) then TrimStart(s[1..]) else s
  }

  /** What `TrimStart` removes is a run of white space, and what it keeps is a suffix
      that does not start with white space. */
  lemma {:induction false} TrimStartShape(s: string)
    ensures var r := TrimStart(s);
      && |r| <= |s| && r == s[|s| - |r|..]
      && (r == [] || !IsJsSpace(r[0]))
      && forall i :: 0 <= i < |s| - |r| ==> IsJsSpace(s[i])
  {
    if s != [] && IsJsSpace(s[0]) {
      var t := s[1..];
      TrimStartShape(t);
      var r := TrimStart(t);
      assert s[|s| - |r|..] == t[|t| - |r|..];
      forall i | 0 < i < |s| - |r| ensures IsJsSpace(s[i]) {
        assert s[i] == t[i - 1];
      }
    }
  }

  /** `s` without its trailing white space. */
  function TrimEnd(s: string): string {
    if s != [] && IsJsSpace(s[|s| - 1]) then TrimEnd(s[..|s| - 1]) else s
  }

  /** What `TrimEnd` removes is a run of white space, and what it keeps is a prefix
      that does not end with white space. */
  lemma {:induction false} TrimEndShape(s: string)
    ensures var r := TrimEnd(s);
      && |r| <= |s| && r == s[..|r|]
      && (r == [] || !IsJsSpace(r[|r| - 1]))
      && forall i :: |r| <= i < |s| ==> IsJsSpace(s[i])
  {
    if s != [] && IsJsSpace(s[|s| - 1]) {
      var t := s[..|s| - 1];
      TrimEndShape(t);
      var r := TrimEnd(t);
      assert s[..|r|] == t[..|r|];
      forall i | |r| <= i < |s| ensures IsJsSpace(s[i]) {
        if i < |t| {
          assert s[i] == t[i];
        }
      }
    }
  }

  /** `String.prototype.trim`. */
  function Trim(s: string): string {
    TrimEnd(TrimStart(s))
  }

  predicate OccursAt(s: string, pat: string, i: nat) {
    i + |pat| <= |s| && s[i..i + |pat|] == pat
  }

  /** The first position at or after `i` where `pat` occurs in `s`. */
  function IndexOfFrom(s: string, pat: string, i: nat): (r: Option<nat>)
    requires i <= |s|
    ensures r.Some? ==> r.value + |pat| <= |s|
    decreases |s| - i
  {
    if OccursAt(s, pat, i) then Some(i)
    else if i == |s| then None
    else IndexOfFrom(s, pat, i + 1)
  }

  /** `String.prototype.indexOf`, with `None` for -1. */
  function IndexOf(s: string, pat: string): (r: Option<nat>)
    ensures r.Some? ==> r.value + |pat| <= |s|
  {
    IndexOfFrom(s, pat, 0)
  }

  /** The search from `i` finds the first occurrence at or after `i`, and finds none
      exactly when there is none. */
  lemma {:induction false} IndexOfFromShape(s: string, pat: string, i: nat)
    requires i <= |s|
    ensures var r := IndexOfFrom(s, pat, i);
      && (r.Some? ==> i <= r.value && OccursAt(s, pat, r.value))
      && (r.Some? ==> forall j :: i <= j < r.value ==> !OccursAt(s, pat, j))
      && (r.None? ==> forall j: nat :: i <= j ==> !OccursAt(s, pat, j))
    decreases |s| - i
  {
    if !OccursAt(s, pat, i) && i < |s| {
      IndexOfFromShape(s, pat, i + 1);
    }
  }

  /** `indexOf` gives the first occurrence of `pat`, and gives none exactly when `pat`
      occurs nowhere. */
  lemma IndexOfShape(s: string, pat: string)
    ensures IndexOf(s, pat).Some? ==>
      OccursAt(s, pat, IndexOf(s, pat).value) && forall j :: 0 <= j < IndexOf(s, pat).value ==> !OccursAt(s, pat, j)
    ensures IndexOf(s, pat).None? <==> forall j: nat :: !OccursAt(s, pat, j)
  {
    IndexOfFromShape(s, pat, 0);
  }

  /** `String.prototype.includes`. */
  predicate Includes(s: string, pat: string) {
    IndexOf(s, pat).Some?
  }

  /** `String.prototype.replace` with a string pattern: only the first occurrence is replaced. */
  function ReplaceFirst(s: string, pat: string, rep: string): string {
    match IndexOf(s, pat)
    case None => s
    case Some(i) => s[..i] + rep + s[i + |pat|..]
  }

  /** Removing a pattern that the text starts with leaves exactly the rest of the text. */
  lemma ReplaceFirstLeading(pat: string, t: string)
    ensures ReplaceFirst(pat + t, pat, "") == t
  {
    assert OccursAt(pat + t, pat, 0);
  }

  /** A pattern that does not occur leaves the text as it is. */
  lemma ReplaceFirstAbsent(s: string, pat: string, rep: string)
    requires forall j: nat :: !OccursAt(s, pat, j)
    ensures ReplaceFirst(s, pat, rep) == s
  {
    IndexOfShape(s, pat);
  }

  /** Only the first occurrence goes: what follows it, later occurrences included, is kept. */
  lemma {:induction false} ReplaceFirstKeepsTail(a: string, pat: string, t: string)
    requires forall j: nat :: !OccursAt(a + pat, pat, j) || j == |a|
    ensures ReplaceFirst(a + pat + t, pat, "") == a + t
  {
    var s := a + pat + t;
    OccursAtPrefix(a + pat, t, pat, |a|);
    forall j | 0 <= j < |a| ensures !OccursAt(s, pat, j) {
      OccursAtPrefix(a + pat, t, pat, j);
    }
    IndexOfShape(s, pat);
    assert IndexOf(s, pat) == Some(|a|);
    assert s[..|a|] == a && s[|a| + |pat|..] == t;
  }

  /** An occurrence that ends within `x` is the same in `x` and in `x + y`. */
  lemma OccursAtPrefix(x: string, y: string, pat: string, j: nat)
    requires j + |pat| <= |x|
    ensures OccursAt(x + y, pat, j) <==> OccursAt(x, pat, j)
  {
    assert (x + y)[j..j + |pat|] == x[j..j + |pat|];
  }

  /** `String.prototype.split` with a one-character separator. */
  function Split(s: string, sep: char): (r: seq<string>)
    ensures |r| >= 1
    ensures forall k :: 0 <= k < |r| ==> sep !in r[k]
  {
    if s == [] then [[]]
    else
      var rest := Split(s[1..], sep);
      if s[0] == sep then [[]] + rest else [[s[0]] + rest[0]] + rest[1..]
  }

  /** `Array.prototype.join` with a one-character separator. */
  function Join(parts: seq<string>, sep: char): string
    requires |parts| >= 1
  {
    if |parts| == 1 then parts[0] else parts[0] + [sep] + Join(parts[1..], sep)
  }

  /** Joining the pieces of a split gives back the text. */
  lemma {:induction false} JoinSplit(s: string, sep: char)
    ensures Join(Split(s, sep), sep) == s
  {
    if s != [] {
      var rest := Split(s[1..], sep);
      JoinSplit(s[1..], sep);
      if s[0] != sep {
        if |rest| == 1 {
          assert Split(s, sep) == [[s[0]] + rest[0]];
        } else {
          assert Split(s, sep) == [[s[0]] + rest[0]] + rest[1..];
          assert Split(s, sep)[1..] == rest[1..];
          assert Join(rest, sep) == rest[0] + [sep] + Join(rest[1..], sep);
          assert [s[0]] + Join(rest, sep) == s;
        }
      }
    }
  }

  lemma {:induction false} SplitNoSeparator(a: string, sep: char)
    requires sep !in a
    ensures Split(a, sep) == [a]
  {
    if a != [] {
      SplitNoSeparator(a[1..], sep);
      assert [a[0]] + a[1..] == a;
    }
  }

  lemma {:induction false} SplitAfterFirstSeparator(a: string, t: string, sep: char)
    requires sep !in a
    ensures Split(a + [sep] + t, sep) == [a] + Split(t, sep)
  {
    var s := a + [sep] + t;
    if a == [] {
      assert s[0] == sep && s[1..] == t;
    } else {
      assert s[0] == a[0] && s[1..] == a[1..] + [sep] + t;
      SplitAfterFirstSeparator(a[1..], t, sep);
      assert [a[0]] + a[1..] == a;
    }
  }

  /** Splitting the join of separator-free pieces gives back the pieces. */
  lemma {:induction false} SplitJoin(parts: seq<string>, sep: char)
    requires |parts| >= 1
    requires forall k :: 0 <= k < |parts| ==> sep !in parts[k]
    ensures Split(Join(parts, sep), sep) == parts
  {
    if |parts| == 1 {
      SplitNoSeparator(parts[0], sep);
    } else {
      SplitJoin(parts[1..], sep);
      SplitAfterFirstSeparator(parts[0], Join(parts[1..], sep), sep);
      assert [parts[0]] + parts[1..] == parts;
    }
  }

  /** The longest prefix of `s` made of decimal digits. */
  function LeadingDigits(s: string): (r: string)
    ensures |r| <= |s| && AllDigits(r)
  {
    if s != [] && IsDigit(s[0]) then [s[0]] + LeadingDigits(s[1..]) else []
  }

  /** The digits taken are a prefix of the text, and the next character, if any, is
      not a digit. */
  lemma {:induction false} LeadingDigitsShape(s: string)
    ensures var r := LeadingDigits(s);
      r == s[..|r|] && (|r| == |s| || !IsDigit(s[|r|]))
  {
    if s != [] && IsDigit(s[0]) {
      LeadingDigitsShape(s[1..]);
    }
  }

  /** The position of the first decimal digit of `s`. */
  function FirstDigitIndex(s: string): (r: Option<nat>)
    ensures r.Some? ==> r.value < |s| && IsDigit(s[r.value])
  {
    if s == [] then None
    else if IsDigit(s[0]) then Some(0)
    else match FirstDigitIndex(s[1..])
      case None => None
      case Some(i) => Some(i + 1)
  }

  /** No digit comes before the one found, and none is found only in a text without
      digits. */
  lemma {:induction false} FirstDigitIndexShape(s: string)
    ensures FirstDigitIndex(s).Some? ==> forall j :: 0 <= j < FirstDigitIndex(s).value ==> !IsDigit(s[j])
    ensures FirstDigitIndex(s).None? ==> forall j :: 0 <= j < |s| ==> !IsDigit(s[j])
  {
    if s != [] && !IsDigit(s[0]) {
      FirstDigitIndexShape(s[1..]);
    }
  }

  /** Text without digits in front of `s` only shifts the position of the first digit. */
  lemma {:induction false} FirstDigitIndexSkip(p: string, s: string)
    requires forall j :: 0 <= j < |p| ==> !IsDigit(p[j])
    ensures FirstDigitIndex(p + s) ==
      match FirstDigitIndex(s)
      case None => None
      case Some(i) => Some(i + |p|)
  {
    if p != [] {
      assert (p + s)[1..] == p[1..] + s;
      FirstDigitIndexSkip(p[1..], s);
    } else {
      assert p + s == s;
    }
  }

  /** `s.match(/\d+/)`: the first maximal run of decimal digits, or `None` (JavaScript `null`). */
  function FirstDigitRun(s: string): (r: Option<string>)
    ensures r.Some? ==> r.value != [] && AllDigits(r.value)
  {
    match FirstDigitIndex(s)
    case None => None
    case Some(i) => Some(LeadingDigits(s[i..]))
  }

  /** The run found is non-empty, all digits, starts at the first digit of the text
      and cannot be extended; there is none exactly when the text has no digit. */
  lemma FirstDigitRunShape(s: string)
    ensures FirstDigitRun(s).None? <==> forall j :: 0 <= j < |s| ==> !IsDigit(s[j])
    ensures FirstDigitRun(s).Some? ==>
      var run := FirstDigitRun(s).value;
      var i := FirstDigitIndex(s).value;
      && run != [] && AllDigits(run)
      && i + |run| <= |s| && s[i..i + |run|] == run
      && (forall j :: 0 <= j < i ==> !IsDigit(s[j]))
      && (i + |run| == |s| || !IsDigit(s[i + |run|]))
  {
    FirstDigitIndexShape(s);
    match FirstDigitIndex(s)
    case None =>
    case Some(i) =>
      var run := LeadingDigits(s[i..]);
      LeadingDigitsShape(s[i..]);
      assert s[i..][0] == s[i];
      assert s[i..][..|run|] == s[i..i + |run|];
      if i + |run| < |s| {
        assert s[i..][|run|] == s[i + |run|];
      }
  }

  /** Value of a string of decimal digits. */
  function DigitsValue(ds: string): nat
    requires AllDigits(ds)
  {
    if ds == [] then 0 else DigitsValue(ds[..|ds| - 1]) * 10 + (ds[|ds| - 1] as int - '0' as int)
  }

  /** ASCII upper case to lower case; every other character is left alone. */
  function LowerAscii(c: char): char {
    if 'A' <= c <= 'Z' then (c as int + 32) as char else c
  }

  function Lower(s: string): (r: string)
    ensures |r| == |s|
    ensures forall i :: 0 <= i < |s| ==> r[i] == LowerAscii(s[i])
  {
    seq(|s|, i requires 0 <= i < |s| => LowerAscii(s[i]))
  }

  /** Case-insensitive substring test (ASCII case folding). */
  predicate ContainsIgnoringCase(text: string, pat: string) {
    Includes(Lower(text), Lower(pat))
  }

  predicate MatchesIgnoringCaseAt(text: string, pat: string, i: nat) {
    i + |pat| <= |text| && forall k :: 0 <= k < |pat| ==> LowerAscii(text[i + k]) == LowerAscii(pat[k])
  }

  /** The case-insensitive test holds exactly when, at some position, every character of
      the pattern equals the text's character there up to ASCII case. */
  lemma ContainsIgnoringCaseIff(text: string, pat: string)
    ensures ContainsIgnoringCase(text, pat) <==> exists i: nat :: MatchesIgnoringCaseAt(text, pat, i)
  {
    var lt, lp := Lower(text), Lower(pat);
    IndexOfShape(lt, lp);
    if ContainsIgnoringCase(text, pat) {
      var i := IndexOf(lt, lp).value;
      forall k | 0 <= k < |pat| ensures LowerAscii(text[i + k]) == LowerAscii(pat[k]) {
        assert lt[i..i + |lp|][k] == lt[i + k];
      }
      assert MatchesIgnoringCaseAt(text, pat, i);
    }
    if i: nat :| MatchesIgnoringCaseAt(text, pat, i) {
      assert lt[i..i + |lp|] == lp;
      assert OccursAt(lt, lp, i);
    }
  }
}

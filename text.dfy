/**
 * The JavaScript string operations the app relies on, over `string`
 * (a sequence of Unicode scalar values).
 */
module Text {

  // ---------------------------------------------------------------------
  // Character classes
  // ---------------------------------------------------------------------

  /** JavaScript's `\s`, which is also the set `String.prototype.trim` strips. */
  predicate IsSpace(c: char) {
    || c == ' ' || c == '\t' || c == '\n' || c == '\r' || c == '\U{000B}' || c == '\U{000C}'
    || c == '\U{00A0}' || c == '\U{1680}' || ('\U{2000}' <= c <= '\U{200A}')
    || c == '\U{2028}' || c == '\U{2029}' || c == '\U{202F}' || c == '\U{205F}'
    || c == '\U{3000}' || c == '\U{FEFF}'
  }

  /** The characters `.` does not match. */
  predicate IsLineTerminator(c: char) {
    c == '\n' || c == '\r' || c == '\U{2028}' || c == '\U{2029}'
  }

  predicate IsDigit(c: char) { '0' <= c <= '9' }

  /** `[a-zA-Z]` */
  predicate IsAsciiLetter(c: char) { ('a' <= c <= 'z') || ('A' <= c <= 'Z') }

  /** `\w` */
  predicate IsWordChar(c: char) { IsAsciiLetter(c) || IsDigit(c) || c == '_' }

  /** `[一-龥]`, the CJK range the app treats as Chinese. */
  predicate IsHan(c: char) { '\U{4E00}' <= c <= '\U{9FA5}' }

  predicate AllSpace(s: string) {
    forall i :: 0 <= i < |s| ==> IsSpace(s[i])
  }

  /** What `.` can match throughout. */
  predicate NoLineTerminator(s: string) {
    forall i :: 0 <= i < |s| ==> !IsLineTerminator(s[i])
  }

  /** Non-empty, with no white space at either end. */
  predicate Tight(s: string) {
    s != [] && !IsSpace(s[0]) && !IsSpace(s[|s| - 1])
  }

  // ---------------------------------------------------------------------
  // trim
  // ---------------------------------------------------------------------

  /** Number of leading white-space characters. */
  function LeadingSpaces(s: string): (n: nat)
    ensures n <= |s|
    ensures AllSpace(s[..n])
    ensures n == |s| || !IsSpace(s[n])
  {
    if s == [] || !IsSpace(s[0]) then 0
    else
      var n := 1 + LeadingSpaces(s[1..]);
      assert s[..n] == [s[0]] + s[1..][..n - 1];
      n
  }

  /** Number of trailing white-space characters. */
  function TrailingSpaces(s: string): (n: nat)
    ensures n <= |s|
    ensures AllSpace(s[|s| - n..])
    ensures n == |s| || !IsSpace(s[|s| - n - 1])
  {
    if s == [] || !IsSpace(s[|s| - 1]) then 0
    else
      var n := 1 + TrailingSpaces(s[..|s| - 1]);
      assert s[|s| - n..] == s[..|s| - 1][|s| - n..] + [s[|s| - 1]];
      n
  }

  /** `s.trim()`: `s` without its leading and trailing white space. */
  function Trim(s: string): (r: string)
  {
    var a := LeadingSpaces(s);
    var b := TrailingSpaces(s[a..]);
    s[a..|s| - b]
  }

  /** What `trim` returns: the infix `s[a..b]` left after removing white space at both ends. */
  lemma TrimShape(s: string) returns (a: nat, b: nat)
    ensures a <= b <= |s| && Trim(s) == s[a..b]
    ensures AllSpace(s[..a]) && AllSpace(s[b..])
    ensures a < b ==> !IsSpace(s[a]) && !IsSpace(s[b - 1])
  {
    a := LeadingSpaces(s);
    var t := TrailingSpaces(s[a..]);
    b := |s| - t;
    assert s[a..][|s[a..]| - t..] == s[b..];
    if a < b {
      assert s[a..][|s[a..]| - t - 1] == s[b - 1];
    }
  }

  /** The result of `trim` has no white space at either end. */
  lemma TrimmedEnds(s: string)
    ensures Trim(s) == [] || (!IsSpace(Trim(s)[0]) && !IsSpace(Trim(s)[|Trim(s)| - 1]))
  {
    var a, b := TrimShape(s);
  }

  lemma Regroup(pre: string, s: string, post: string, a: nat, b: nat)
    requires a <= b <= |s|
    ensures pre + s + post == (pre + s[..a]) + s[a..b] + (s[b..] + post)
  {
    assert s == s[..a] + s[a..b] + s[b..];
  }

  lemma AllSpaceConcat(x: string, y: string)
    requires AllSpace(x) && AllSpace(y)
    ensures AllSpace(x + y)
  {
  }

  lemma {:induction false} LeadingOfPadded(pre: string, rest: string)
    requires AllSpace(pre)
    requires rest == [] || !IsSpace(rest[0])
    ensures LeadingSpaces(pre + rest) == |pre|
  {
    if pre != [] {
      assert (pre + rest)[1..] == pre[1..] + rest;
      LeadingOfPadded(pre[1..], rest);
    }
  }

  lemma {:induction false} TrailingOfPadded(rest: string, post: string)
    requires AllSpace(post)
    requires rest == [] || !IsSpace(rest[|rest| - 1])
    ensures TrailingSpaces(rest + post) == |post|
  {
    if post != [] {
      assert (rest + post)[..|rest + post| - 1] == rest + post[..|post| - 1];
      TrailingOfPadded(rest, post[..|post| - 1]);
    }
  }

  /** A core with no white space at its ends is what `trim` leaves of it padded with white space. */
  lemma TrimOfPadded(pre: string, core: string, post: string)
    requires AllSpace(pre) && AllSpace(post)
    requires core == [] || (!IsSpace(core[0]) && !IsSpace(core[|core| - 1]))
    ensures Trim(pre + core + post) == core
  {
    var s := pre + core + post;
    if core == [] {
      assert s == pre + post;
      LeadingOfPadded(pre + post, []);
      assert pre + post + [] == s;
    } else {
      assert s == pre + (core + post);
      LeadingOfPadded(pre, core + post);
      assert s[|pre|..] == core + post;
      TrailingOfPadded(core, post);
      assert s[|pre|..|s| - |post|] == core;
    }
  }

  /** A string with no white space at either end is its own trim. */
  lemma TrimOfTrimmed(s: string)
    requires s == [] || (!IsSpace(s[0]) && !IsSpace(s[|s| - 1]))
    ensures Trim(s) == s
  {
    TrimOfPadded([], s, []);
    assert [] + s + [] == s;
  }

  /** Trimming twice is trimming once. */
  lemma TrimIdempotent(s: string)
    ensures Trim(Trim(s)) == Trim(s)
  {
    TrimmedEnds(s);
    TrimOfTrimmed(Trim(s));
  }

  /** Trimming adds no character. */
  lemma TrimNoneIn(s: string, seps: set<char>)
    requires NoneIn(s, seps)
    ensures NoneIn(Trim(s), seps)
  {
    var a, b := TrimShape(s);
    assert forall k :: 0 <= k < b - a ==> Trim(s)[k] == s[a + k];
  }

  /** White space added at either end is removed again. */
  lemma TrimPadded(pre: string, s: string, post: string)
    requires AllSpace(pre) && AllSpace(post)
    ensures Trim(pre + s + post) == Trim(s)
  {
    var a, b := TrimShape(s);
    var p1, core, p2 := s[..a], s[a..b], s[b..];
    Regroup(pre, s, post, a, b);
    AllSpaceConcat(pre, p1);
    AllSpaceConcat(p2, post);
    TrimOfPadded(pre + p1, core, p2 + post);
  }

  /** A blank string (`!s.trim()`) is one made only of white space. */
  lemma TrimEmptyIffAllSpace(s: string)
    ensures Trim(s) == [] <==> AllSpace(s)
  {
    if AllSpace(s) {
      TrimOfPadded(s, [], []);
      assert s + [] + [] == s;
    }
    var a, b := TrimShape(s);
    if Trim(s) == [] {
      assert a == b;
      SplitAt(s, a);
      AllSpaceConcat(s[..a], s[a..]);
    }
  }

  lemma SplitAt(s: string, a: nat)
    requires a <= |s|
    ensures s == s[..a] + s[a..]
  {
  }

  // ---------------------------------------------------------------------
  // Case, search, prefixes
  // ---------------------------------------------------------------------

  /** ASCII-only `toLowerCase` of one character. */
  function LowerChar(c: char): (d: char)
  {
    if 'A' <= c <= 'Z' then (c as int + 32) as char else c
  }

  /** ASCII-only `toLowerCase`. */
  function ToLower(s: string): (r: string)
    ensures |r| == |s|
    ensures forall i :: 0 <= i < |s| ==> r[i] == LowerChar(s[i])
  {
    seq(|s|, i requires 0 <= i < |s| => LowerChar(s[i]))
  }

  /** Lower-casing only changes letters, so white space stays where it was. */
  lemma LowerKeepsSpace(c: char)
    ensures IsSpace(LowerChar(c)) <==> IsSpace(c)
  {
  }

  lemma ToLowerIdempotent(s: string)
    ensures ToLower(ToLower(s)) == ToLower(s)
  {
  }

  /** `s.includes(sub)` */
  predicate Contains(s: string, sub: string) {
    exists i | 0 <= i <= |s| - |sub| :: OccursAt(s, sub, i)
  }

  predicate OccursAt(s: string, sub: string, i: nat)
    requires i + |sub| <= |s|
  {
    s[i..i + |sub|] == sub
  }

  lemma ContainsEmpty(s: string)
    ensures Contains(s, "")
  {
    assert OccursAt(s, "", 0);
  }

  /** `s.startsWith(prefix)` */
  predicate StartsWith(s: string, prefix: string) {
    |prefix| <= |s| && s[..|prefix|] == prefix
  }

  // ---------------------------------------------------------------------
  // split
  // ---------------------------------------------------------------------

  /** Index of the first character of `s` in `seps`, or `|s|`. */
  function FirstIn(s: string, seps: set<char>): (i: nat)
    ensures i <= |s|
    ensures forall j :: 0 <= j < i ==> s[j] !in seps
    ensures i < |s| ==> s[i] in seps
  {
    if s == [] then 0
    else if s[0] in seps then 0
    else 1 + FirstIn(s[1..], seps)
  }

  /** The first separator is where `a`, which has none, ends. */
  lemma FirstInOver(s: string, seps: set<char>, a: string, b: string)
    requires s == a + b && NoneIn(a, seps) && (b == [] || b[0] in seps)
    ensures FirstIn(s, seps) == |a|
  {
    assert forall j :: 0 <= j < |a| ==> s[j] == a[j];
    assert b != [] ==> s[|a|] == b[0];
  }

  /** Index of the last character of `s` in `seps`, if any. */
  function LastIn(s: string, seps: set<char>): (i: int)
    ensures -1 <= i < |s|
    ensures forall j :: i < j < |s| ==> s[j] !in seps
    ensures i >= 0 ==> s[i] in seps
  {
    if s == [] then -1
    else if s[|s| - 1] in seps then |s| - 1
    else LastIn(s[..|s| - 1], seps)
  }

  /**
   * `s.split(x)` where `x` is one separator character, or a character class
   * such as `/[-–—]/`: the pieces between separators, empty ones included.
   */
  function Split(s: string, seps: set<char>): (parts: seq<string>)
    ensures |parts| >= 1
    ensures forall k :: 0 <= k < |parts| ==> NoneIn(parts[k], seps)
    decreases |s|
  {
    var i := FirstIn(s, seps);
    if i == |s| then [s]
    else [s[..i]] + Split(s[i + 1..], seps)
  }

  predicate NoneIn(s: string, seps: set<char>) {
    forall j :: 0 <= j < |s| ==> s[j] !in seps
  }

  lemma NoneInConcat(a: string, b: string, seps: set<char>)
    requires NoneIn(a, seps) && NoneIn(b, seps)
    ensures NoneIn(a + b, seps)
  {
    assert forall j :: 0 <= j < |a| ==> (a + b)[j] == a[j];
    assert forall j :: |a| <= j < |a + b| ==> (a + b)[j] == b[j - |a|];
  }

  /** `parts.join(c)` */
  function Join(parts: seq<string>, c: char): string
  {
    if parts == [] then ""
    else if |parts| == 1 then parts[0]
    else parts[0] + [c] + Join(parts[1..], c)
  }

  /** Splitting on one character and joining with it gives the string back. */
  lemma {:induction false} SplitJoin(s: string, c: char)
    ensures Join(Split(s, {c}), c) == s
    decreases |s|
  {
    var i := FirstIn(s, {c});
    if i < |s| {
      var rest := Split(s[i + 1..], {c});
      assert Split(s, {c}) == [s[..i]] + rest;
      SplitJoin(s[i + 1..], c);
      JoinCons(s[..i], rest, c);
      assert s == s[..i] + [c] + s[i + 1..];
    }
  }

  lemma JoinCons(x: string, rest: seq<string>, c: char)
    requires rest != []
    ensures Join([x] + rest, c) == x + [c] + Join(rest, c)
  {
    assert ([x] + rest)[1..] == rest;
  }

  /** Joining pieces that hold no separator and splitting again gives the pieces back. */
  lemma {:induction false} JoinSplit(parts: seq<string>, c: char)
    requires parts != []
    requires forall k :: 0 <= k < |parts| ==> NoneIn(parts[k], {c})
    ensures Split(Join(parts, c), {c}) == parts
    decreases |parts|
  {
    if |parts| == 1 {
      var s := parts[0];
      assert NoneIn(s, {c});
      assert FirstIn(s, {c}) == |s|;
    } else {
      JoinSplit(parts[1..], c);
      SplitAfterClean(parts[0], Join(parts[1..], c), c);
      assert parts == [parts[0]] + parts[1..];
    }
  }

  lemma SplitAfterClean(a: string, b: string, c: char)
    requires NoneIn(a, {c})
    ensures Split(a + [c] + b, {c}) == [a] + Split(b, {c})
  {
    var s := a + [c] + b;
    FirstAfterClean(a, b, c);
    assert s[..|a|] == a;
    assert s[|a| + 1..] == b;
  }

  lemma {:induction false} FirstAfterClean(a: string, b: string, c: char)
    requires NoneIn(a, {c})
    ensures FirstIn(a + [c] + b, {c}) == |a|
  {
    var s := a + [c] + b;
    assert s[..|a|] == a;
    assert forall j :: 0 <= j < |a| ==> s[j] == a[j];
    assert s[|a|] == c;
  }

  // ---------------------------------------------------------------------
  // Numbers as text
  // ---------------------------------------------------------------------

  function DigitChar(d: nat): (c: char)
    requires d < 10
    ensures IsDigit(c)
  {
    ('0' as int + d) as char
  }

  /** `${n}` for a non-negative integer. */
  function NatToString(n: nat): (r: string)
    ensures |r| >= 1
    ensures forall i :: 0 <= i < |r| ==> IsDigit(r[i])
  {
    if n < 10 then [DigitChar(n)] else NatToString(n / 10) + [DigitChar(n % 10)]
  }

  /** The value of a string of decimal digits. */
  function DigitsValue(s: string): nat
    requires forall i :: 0 <= i < |s| ==> IsDigit(s[i])
  {
    if s == [] then 0
    else
      var d := s[|s| - 1];
      assert IsDigit(d);
      DigitsValue(s[..|s| - 1]) * 10 + (d as int - '0' as int)
  }

  lemma {:induction false} DigitsRoundTrip(n: nat)
    ensures DigitsValue(NatToString(n)) == n
  {
    if n >= 10 {
      var r := NatToString(n);
      assert r[..|r| - 1] == NatToString(n / 10);
      DigitsRoundTrip(n / 10);
    }
  }

  /** Distinct numbers print differently, so numbered ids are distinct. */
  lemma NatToStringInjective(m: nat, n: nat)
    requires m != n
    ensures NatToString(m) != NatToString(n)
  {
    DigitsRoundTrip(m);
    DigitsRoundTrip(n);
  }

  /** `${prefix}${m}` and `${prefix}${n}` differ when `m` and `n` do. */
  lemma NumberedDistinct(prefix: string, m: nat, n: nat)
    requires m != n
    ensures prefix + NatToString(m) != prefix + NatToString(n)
  {
    NatToStringInjective(m, n);
    var x, y := prefix + NatToString(m), prefix + NatToString(n);
    assert x[|prefix|..] == NatToString(m);
    assert y[|prefix|..] == NatToString(n);
  }

  /**
   * `${prefix}${i}${suffix}` and `${prefix}${j}${suffix}` differ when `i` and
   * `j` do and `suffix` does not start with a digit.
   */
  lemma StampedDistinct(prefix: string, i: nat, j: nat, suffix: string)
    requires i != j
    requires suffix == [] || !IsDigit(suffix[0])
    ensures prefix + NatToString(i) + suffix != prefix + NatToString(j) + suffix
  {
    var I, J := NatToString(i), NatToString(j);
    var x, y := prefix + I + suffix, prefix + J + suffix;
    var P := |prefix|;
    if |I| == |J| {
      NatToStringInjective(i, j);
      assert x[P..P + |I|] == I;
      assert y[P..P + |J|] == J;
    } else if |I| < |J| {
      if suffix != [] {
        assert x[P + |I|] == suffix[0];
        assert y[P + |I|] == J[|I|];
      } else {
        assert |x| < |y|;
      }
    } else {
      if suffix != [] {
        assert y[P + |J|] == suffix[0];
        assert x[P + |J|] == I[|J|];
      } else {
        assert |y| < |x|;
      }
    }
  }
}

/** The handful of Python string operations the protocol compiler relies on,
    each with the exact Python semantics: `str.strip()`, `str.replace(old, "")`,
    `str.split(sep)`, `str.startswith`, `"{0}".format(int)` and `int(number)`. */
module Text {
  import opened Wrappers

  /** Python's `str.isspace()` for one character (the characters `str.strip()`
      removes when called without arguments). */
  predicate IsSpace(c: char) {
    || c == ' '
    || ('\t' <= c <= '\r')
    || ('\U{1C}' <= c <= '\U{1F}')
    || c == '\U{85}' || c == '\U{A0}' || c == '\U{1680}'
    || ('\U{2000}' <= c <= '\U{200A}')
    || c == '\U{2028}' || c == '\U{2029}' || c == '\U{202F}' || c == '\U{205F}'
    || c == '\U{3000}'
  }

  /** Leading whitespace removed: the longest suffix that does not start with a space. */
  function TrimStart(s: string): (r: string)
    ensures |r| <= |s| && r == s[|s| - |r|..]
    ensures forall i :: 0 <= i < |s| - |r| ==> IsSpace(s[i])
    ensures r == [] || !IsSpace(r[0])
    decreases |s|
  {
    if |s| > 0 && IsSpace(s[0]) then TrimStart(s[1..]) else s
  }

  /** Trailing whitespace removed: the longest prefix that does not end with a space. */
  function TrimEnd(s: string): (r: string)
    ensures |r| <= |s| && r == s[..|r|]
    ensures forall i :: |r| <= i < |s| ==> IsSpace(s[i])
    ensures r == [] || !IsSpace(r[|r| - 1])
    decreases |s|
  {
    if |s| > 0 && IsSpace(s[|s| - 1]) then TrimEnd(s[..|s| - 1]) else s
  }

  /** Python's `s.strip()`: the infix left after removing whitespace at both ends. */
  function Strip(s: string): (r: string)
    ensures SpaceAround(s, r)
    ensures r == [] || (!IsSpace(r[0]) && !IsSpace(r[|r| - 1]))
  {
    var t := TrimStart(s);
    var r := TrimEnd(t);
    InfixOfSpaces(s, t, r);
    r
  }

  /** `r` is an infix of `s` with only whitespace around it. */
  ghost predicate SpaceAround(s: string, r: string) {
    exists i, j :: SpaceAroundAt(s, r, i, j)
  }

  /** `r` is `s[i..j]`, and everything of `s` outside it is whitespace. */
  predicate SpaceAroundAt(s: string, r: string, i: int, j: int) {
    && 0 <= i <= j <= |s| && r == s[i..j]
    && (forall k :: 0 <= k < i ==> IsSpace(s[k]))
    && (forall k :: j <= k < |s| ==> IsSpace(s[k]))
  }

  /** A prefix `r` of a suffix `t` of `s`, with whitespace before `t` and
      after `r`, has only whitespace around it; when neither `t` starts nor
      `r` ends with whitespace, `r` neither starts nor ends with it. */
  lemma InfixOfSpaces(s: string, t: string, r: string)
    requires |t| <= |s| && t == s[|s| - |t|..]
    requires forall k :: 0 <= k < |s| - |t| ==> IsSpace(s[k])
    requires |r| <= |t| && r == t[..|r|]
    requires forall k :: |r| <= k < |t| ==> IsSpace(t[k])
    requires t == [] || !IsSpace(t[0])
    requires r == [] || !IsSpace(r[|r| - 1])
    ensures SpaceAround(s, r)
    ensures r == [] || (!IsSpace(r[0]) && !IsSpace(r[|r| - 1]))
  {
    assert r != [] ==> r[0] == t[0];
    var i := |s| - |t|;
    var j := i + |r|;
    assert r == s[i..j];
    forall k | j <= k < |s| ensures IsSpace(s[k]) {
      assert s[k] == t[k - i];
    }
    assert SpaceAroundAt(s, r, i, j);
  }

  /** Python's `s.startswith(prefix)`. */
  predicate StartsWith(s: string, prefix: string) {
    |prefix| <= |s| && s[..|prefix|] == prefix
  }

  /** `pat` occurs in `s` at position `i`. */
  ghost predicate OccursAt(s: string, pat: string, i: int) {
    0 <= i <= |s| - |pat| && s[i..i + |pat|] == pat
  }

  /** `pat` occurs somewhere in `s`. */
  ghost predicate Occurs(s: string, pat: string) {
    exists i :: OccursAt(s, pat, i)
  }

  lemma OccursInTail(s: string, pat: string)
    requires |s| > 0
    ensures Occurs(s[1..], pat) ==> Occurs(s, pat)
  {
    if Occurs(s[1..], pat) {
      var i :| OccursAt(s[1..], pat, i);
      assert s[i + 1..i + 1 + |pat|] == pat;
      assert OccursAt(s, pat, i + 1);
    }
  }

  /** Python's `s.replace(pat, "")`: every non-overlapping occurrence of `pat`,
      scanning left to right, is removed. Removing can create new occurrences,
      which are kept (`"selselected:ected:"` becomes `"selected:"`). */
  function RemoveAll(s: string, pat: string): (r: string)
    ensures |r| <= |s|
    ensures !Occurs(s, pat) ==> r == s
    ensures |pat| > 0 && StartsWith(s, pat) ==> r == RemoveAll(s[|pat|..], pat)
    decreases |s|
  {
    if |pat| == 0 || |s| < |pat| then s
    else if s[..|pat|] == pat then
      assert OccursAt(s, pat, 0);
      RemoveAll(s[|pat|..], pat)
    else
      OccursInTail(s, pat);
      [s[0]] + RemoveAll(s[1..], pat)
  }

  /** Python's `s.find(c)` as an option: the first position of `c`. */
  function IndexOf(s: string, c: char): (r: Option<nat>)
    ensures r.None? <==> c !in s
    ensures r.Some? ==> r.value < |s| && s[r.value] == c && c !in s[..r.value]
    decreases |s|
  {
    if |s| == 0 then None
    else if s[0] == c then Some(0)
    else match IndexOf(s[1..], c)
      case None => None
      case Some(j) => assert s[..j + 1] == [s[0]] + s[1..][..j]; Some(j + 1)
  }

  /** The first occurrence is the one with no occurrence before it. */
  lemma IndexOfFirst(s: string, c: char, k: nat)
    requires k < |s| && s[k] == c && c !in s[..k]
    ensures IndexOf(s, c) == Some(k)
  {
  }

  /** The inverse of `Split`: the parts glued back together with `sep`. */
  function Join(parts: seq<string>, sep: char): string
    decreases |parts|
  {
    if |parts| == 0 then ""
    else if |parts| == 1 then parts[0]
    else parts[0] + [sep] + Join(parts[1..], sep)
  }

  /** Python's `s.split(sep)` for a one-character separator: at least one part,
      no part contains the separator, and joining the parts gives `s` back. */
  function Split(s: string, sep: char): (parts: seq<string>)
    ensures |parts| >= 1
    ensures forall i :: 0 <= i < |parts| ==> sep !in parts[i]
    ensures Join(parts, sep) == s
    decreases |s|
  {
    match IndexOf(s, sep)
    case None => [s]
    case Some(i) =>
      var rest := Split(s[i + 1..], sep);
      var parts := [s[..i]] + rest;
      assert parts[1..] == rest;
      assert s == s[..i] + [sep] + s[i + 1..];
      parts
  }

  /** Splitting a join of separator-free parts gives the parts back. */
  /** `t` is what lies in `s` between the first `sep` and the next one, or
      the end. */
  ghost predicate SecondPart(s: string, sep: char, t: string) {
    exists pre, post {:trigger pre + [sep] + t + post} :: s == pre + [sep] + t + post && sep !in pre && sep !in t && (post == [] || post[0] == sep)
  }

  /** The second part of a split is the text between the first separator and
      the next one, or the end. */
  lemma SplitSecond(s: string, sep: char)
    requires |Split(s, sep)| >= 2
    ensures SecondPart(s, sep, Split(s, sep)[1])
  {
    var parts := Split(s, sep);
    var tail := parts[1..];
    var post := if |parts| == 2 then "" else [sep] + Join(parts[2..], sep);
    if |parts| > 2 {
      assert tail[1..] == parts[2..];
    }
    JoinTwo(parts, sep, post);
    assert sep !in parts[0] && sep !in parts[1];
    SecondPartIntro(s, sep, parts[0], parts[1], post);
  }

  lemma JoinTwo(parts: seq<string>, sep: char, post: string)
    requires |parts| >= 2
    requires post == if |parts| == 2 then "" else [sep] + Join(parts[2..], sep)
    ensures Join(parts, sep) == parts[0] + [sep] + parts[1] + post
  {
    var tail := parts[1..];
    assert Join(parts, sep) == parts[0] + [sep] + Join(tail, sep);
    if |parts| > 2 {
      assert tail[1..] == parts[2..];
    }
    assert Join(tail, sep) == parts[1] + post;
    assert parts[0] + [sep] + (parts[1] + post) == parts[0] + [sep] + parts[1] + post;
  }

  lemma SecondPartIntro(s: string, sep: char, pre: string, t: string, post: string)
    requires s == pre + [sep] + t + post && sep !in pre && sep !in t && (post == [] || post[0] == sep)
    ensures SecondPart(s, sep, t)
  {
  }

  lemma {:induction false} SplitJoin(parts: seq<string>, sep: char)
    requires |parts| >= 1
    requires forall i :: 0 <= i < |parts| ==> sep !in parts[i]
    ensures Split(Join(parts, sep), sep) == parts
    decreases |parts|
  {
    if |parts| == 1 {
      assert sep !in parts[0];
    } else {
      var tail := parts[1..];
      SplitJoin(tail, sep);
      var s := Join(parts, sep);
      assert s == parts[0] + [sep] + Join(tail, sep);
      assert s[|parts[0]|] == sep;
      assert s[..|parts[0]|] == parts[0];
      IndexOfFirst(s, sep, |parts[0]|);
      assert s[|parts[0]| + 1..] == Join(tail, sep);
      assert parts == [parts[0]] + tail;
    }
  }

  predicate IsDigit(c: char) {
    '0' <= c <= '9'
  }

  function DigitChar(d: int): (c: char)
    requires 0 <= d < 10
    ensures IsDigit(c)
  {
    (48 + d) as char
  }

  function DigitValue(c: char): int {
    if IsDigit(c) then c as int - 48 else 0
  }

  /** Decimal digits of `n`, without leading zeros. */
  function NatToString(n: nat): (s: string)
    ensures |s| >= 1
    ensures forall i :: 0 <= i < |s| ==> IsDigit(s[i])
    ensures |s| > 1 ==> s[0] != '0'
    decreases n
  {
    if n < 10 then [DigitChar(n)]
    else NatToString(n / 10) + [DigitChar(n % 10)]
  }

  /** The value of a string of decimal digits. */
  function ParseNat(s: string): nat
    decreases |s|
  {
    if s == [] then 0 else ParseNat(s[..|s| - 1]) * 10 + DigitValue(s[|s| - 1]) as nat
  }

  /** Python's `"{0}".format(n)` for an integer. */
  function IntToString(n: int): string {
    if n < 0 then "-" + NatToString(-n) else NatToString(n)
  }

  function ParseInt(s: string): int {
    if |s| > 0 && s[0] == '-' then -(ParseNat(s[1..]) as int) else ParseNat(s)
  }

  lemma {:induction false} ParseNatToString(n: nat)
    ensures ParseNat(NatToString(n)) == n
    decreases n
  {
    if n >= 10 {
      ParseNatToString(n / 10);
      var s := NatToString(n);
      assert s[..|s| - 1] == NatToString(n / 10);
    }
  }

  /** Formatting an integer and reading it back gives the integer. */
  lemma ParseIntToString(n: int)
    ensures ParseInt(IntToString(n)) == n
  {
    if n < 0 {
      ParseNatToString(-n);
      assert IntToString(n)[1..] == NatToString(-n);
    } else {
      ParseNatToString(n);
    }
  }

  /** Python's `int(x)` for a number: truncation toward zero. */
  function Truncate(x: real): (n: int)
    ensures 0.0 <= x ==> n as real <= x < n as real + 1.0
    ensures x < 0.0 ==> n as real - 1.0 < x <= n as real
  {
    if x >= 0.0 then x.Floor else -((-x).Floor)
  }

  /** Python's `s.replace("_", " ")`: underscores become spaces, nothing else moves. */
  function Underscores(s: string): (r: string)
    ensures |r| == |s|
    ensures forall i :: 0 <= i < |s| ==> r[i] == (if s[i] == '_' then ' ' else s[i])
    decreases |s|
  {
    if s == [] then [] else [if s[0] == '_' then ' ' else s[0]] + Underscores(s[1..])
  }
}

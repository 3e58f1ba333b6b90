/** String helpers shared by every part of the model: prefixes and
    suffixes, JavaScript's character classes, maximal runs, splitting,
    joining and decimal rendering. Strings are `seq<char>`. */
module Strings {
  import opened Wrappers

  predicate StartsWith(s: string, prefix: string) {
    |prefix| <= |s| && s[..|prefix|] == prefix
  }

  predicate EndsWith(s: string, suffix: string) {
    |suffix| <= |s| && s[|s| - |suffix|..] == suffix
  }

  /** `s` with `suffix` removed once from its end, or `s` itself; this is
      `s.replace(/<suffix>$/, '')` for a literal suffix. */
  function StripSuffix(s: string, suffix: string): (r: string)
    ensures EndsWith(s, suffix) ==> r + suffix == s
    ensures !EndsWith(s, suffix) ==> r == s
  {
    if EndsWith(s, suffix) then s[..|s| - |suffix|] else s
  }

  /** The characters JavaScript's `\s` class matches. */
  predicate IsJsSpace(c: char) {
    c == ' ' || c == '\t' || c == '\n' || c == '\r' || c == '\U{000B}' || c == '\U{000C}'
    || c == '\U{00A0}' || c == '\U{1680}' || ('\U{2000}' <= c <= '\U{200A}')
    || c == '\U{2028}' || c == '\U{2029}' || c == '\U{202F}' || c == '\U{205F}'
    || c == '\U{3000}' || c == '\U{FEFF}'
  }

  /** The characters JavaScript's `.` does not match without the `s` flag. */
  predicate IsLineTerminator(c: char) {
    c == '\n' || c == '\r' || c == '\U{2028}' || c == '\U{2029}'
  }

  predicate NotNewline(c: char) { c != '\n' }

  /** ASCII lower-casing. Against the ASCII letters of a pattern, a
      character matches under the `i` flag of a non-Unicode JavaScript
      regular expression exactly when its ASCII lower case does. */
  function LowerAscii(c: char): (r: char)
    ensures 'A' <= c <= 'Z' ==> r as int == c as int + 32
    ensures !('A' <= c <= 'Z') ==> r == c
  {
    if 'A' <= c <= 'Z' then (c as int + 32) as char else c
  }

  /** `lit` (written in lower case) occurs at index `i` of `s`, ignoring
      the case of ASCII letters. */
  predicate CiAt(s: string, i: nat, lit: string) {
    i + |lit| <= |s| && forall k | 0 <= k < |lit| :: LowerAscii(s[i + k]) == lit[k]
  }

  /** The end of the longest run of characters satisfying `p` that starts
      at `i`: what a greedy `[...]*` settles on. */
  function RunEnd(s: string, i: nat, p: char -> bool): (j: nat)
    requires i <= |s|
    ensures i <= j <= |s|
    ensures forall k | i <= k < j :: p(s[k])
    ensures j == |s| || !p(s[j])
    decreases |s| - i
  {
    if i == |s| || !p(s[i]) then i else RunEnd(s, i + 1, p)
  }

  /** A run is determined by where it stops. */
  lemma {:induction false} RunEndIs(s: string, i: nat, j: nat, p: char -> bool)
    requires i <= j <= |s|
    requires forall k | i <= k < j :: p(s[k])
    requires j == |s| || !p(s[j])
    ensures RunEnd(s, i, p) == j
    decreases j - i
  {
    if i < j {
      RunEndIs(s, i + 1, j, p);
    }
  }

  /** Every character of a run of class `p` is of that class. */
  lemma RunChars(s: string, i: nat, j: nat, p: char -> bool)
    requires i <= j <= |s| && forall k | i <= k < j :: p(s[k])
    ensures forall c | c in s[i..j] :: p(c)
  {
    forall c | c in s[i..j] ensures p(c) {
      var k :| 0 <= k < j - i && s[i..j][k] == c;
      assert s[i + k] == c;
    }
  }

  /** A run of class `p` that covers exactly the word `w` at `i`. */
  lemma RunOver(s: string, i: nat, w: string, p: char -> bool)
    requires i + |w| <= |s| && forall k | 0 <= k < |w| :: s[i + k] == w[k]
    requires forall c | c in w :: p(c)
    requires i + |w| == |s| || !p(s[i + |w|])
    ensures RunEnd(s, i, p) == i + |w|
    ensures s[i..i + |w|] == w
  {
    assert forall k | i <= k < i + |w| :: s[k] == w[k - i];
    RunEndIs(s, i, i + |w|, p);
  }

  /** Index of the end of the line that contains position `i`. */
  function LineEnd(s: string, i: nat): (j: nat)
    requires i <= |s|
    ensures i <= j <= |s| && (j == |s| || s[j] == '\n')
    ensures forall k | i <= k < j :: s[k] != '\n'
  {
    RunEnd(s, i, NotNewline)
  }

  /** The first index of `c` in `s`. */
  function IndexOf(s: string, c: char): (r: Option<nat>)
    ensures r.None? ==> c !in s
    ensures r.Some? ==> r.value < |s| && s[r.value] == c && c !in s[..r.value]
  {
    if |s| == 0 then None
    else if s[0] == c then Some(0)
    else match IndexOf(s[1..], c)
      case None => None
      case Some(i) => assert s[..i + 1] == [s[0]] + s[1..][..i]; Some(i + 1)
  }

  /** The first occurrence is determined by its position. */
  lemma {:induction false} IndexOfIs(s: string, c: char, i: nat)
    requires i < |s| && s[i] == c && c !in s[..i]
    ensures IndexOf(s, c) == Some(i)
  {
    if i > 0 {
      assert s[1..][i - 1] == c;
      assert s[1..][..i - 1] == s[..i][1..];
      IndexOfIs(s[1..], c, i - 1);
    }
  }

  /** The last index of `c` in `s`. */
  function LastIndexOf(s: string, c: char): (r: Option<nat>)
    ensures r.None? ==> c !in s
    ensures r.Some? ==> r.value < |s| && s[r.value] == c && c !in s[r.value + 1..]
  {
    if |s| == 0 then None
    else if s[|s| - 1] == c then Some(|s| - 1)
    else
      var r := LastIndexOf(s[..|s| - 1], c);
      assert r.Some? ==> s[r.value + 1..] == s[..|s| - 1][r.value + 1..] + [s[|s| - 1]];
      assert s == s[..|s| - 1] + [s[|s| - 1]];
      r
  }

  /** The last occurrence is determined by its position. */
  lemma LastIndexOfIs(s: string, c: char)
    requires |s| >= 1 && s[|s| - 1] == c
    ensures LastIndexOf(s, c) == Some(|s| - 1)
  {}

  /** Dropping the first character of a text that starts with `c`. */
  lemma DropHead(c: char, b: string, rest: string)
    ensures ([c] + b + rest)[0] == c && ([c] + b + rest)[1..] == b + rest
  {}

  lemma Cut(a: string, b: string)
    ensures (a + b)[..|a|] == a && (a + b)[|a|..] == b
  {}

  lemma Assoc(a: string, b: string, c: string)
    ensures (a + b) + c == a + (b + c)
  {}

  /** The members of a non-empty sequence: those before its last element,
      and that one. */
  lemma LastMembers<T>(s: seq<T>)
    requires |s| > 0
    ensures forall u :: u in s <==> u in s[..|s| - 1] || u == s[|s| - 1]
  {
    assert s == s[..|s| - 1] + [s[|s| - 1]];
  }

  /** `split-on-first`: the text before the first `sep`, and the text after
      it when `sep` occurs (`None` stands for the missing second element). */
  function SplitOnFirst(s: string, sep: char): (r: (string, Option<string>))
    ensures r.1.None? ==> sep !in s && r.0 == s
    ensures r.1.Some? ==> s == r.0 + [sep] + r.1.value && sep !in r.0
  {
    match IndexOf(s, sep)
    case None => (s, None)
    case Some(i) => (s[..i], Some(s[i + 1..]))
  }

  /** The parts joined with `sep` between them. */
  function Join(parts: seq<string>, sep: char): string
  {
    if |parts| == 0 then ""
    else if |parts| == 1 then parts[0]
    else parts[0] + [sep] + Join(parts[1..], sep)
  }

  /** `s.split(sep)`: never empty, no part holds `sep`, and joining the
      parts again gives `s` back. */
  function Split(s: string, sep: char): (r: seq<string>)
    ensures |r| >= 1
    ensures forall i | 0 <= i < |r| :: sep !in r[i]
    ensures Join(r, sep) == s
    decreases |s|
  {
    match IndexOf(s, sep)
    case None => [s]
    case Some(i) =>
      var rest := Split(s[i + 1..], sep);
      assert s == s[..i] + [sep] + s[i + 1..];
      [s[..i]] + rest
  }

  /** Splitting undoes joining, when no part holds the separator. */
  lemma {:induction false} SplitJoin(parts: seq<string>, sep: char)
    requires |parts| >= 1
    requires forall i | 0 <= i < |parts| :: sep !in parts[i]
    ensures Split(Join(parts, sep), sep) == parts
    decreases |parts|
  {
    if |parts| > 1 {
      var s := Join(parts, sep);
      assert s == parts[0] + [sep] + Join(parts[1..], sep);
      assert s[..|parts[0]|] == parts[0];
      assert s[|parts[0]|] == sep;
      IndexOfIs(s, sep, |parts[0]|);
      assert s[|parts[0]| + 1..] == Join(parts[1..], sep);
      SplitJoin(parts[1..], sep);
    } else {
      assert IndexOf(parts[0], sep) == None;
    }
  }

  /** `path.basename` of a path without a trailing slash. */
  function Basename(path: string): (r: string)
    ensures '/' !in r
    ensures EndsWith(path, r)
    ensures |r| < |path| ==> path[|path| - |r| - 1] == '/'
  {
    if |path| == 0 then ""
    else if path[|path| - 1] == '/' then ""
    else
      var r := Basename(path[..|path| - 1]);
      assert path[..|path| - 1] + [path[|path| - 1]] == path;
      r + [path[|path| - 1]]
  }

  /** `path.join(dir, name)` for a relative `dir` without trailing slash. */
  function JoinPath(dir: string, name: string): (r: string)
    ensures EndsWith(r, name)
    ensures dir != "" ==> |r| > |dir| && r[..|dir|] == dir && r[|dir|] == '/'
  {
    if dir == "" then name else dir + "/" + name
  }

  function DigitChar(d: nat): char
    requires d < 10
  {
    ('0' as int + d) as char
  }

  /** The decimal rendering of `n`, as JavaScript prints an array index. */
  function NatToString(n: nat): (r: string)
    ensures 1 <= |r|
    ensures n < 10 <==> |r| == 1
  {
    if n < 10 then [DigitChar(n)] else NatToString(n / 10) + [DigitChar(n % 10)]
  }

  /** Different indices print differently. */
  lemma {:induction false} NatToStringInjective(a: nat, b: nat)
    requires NatToString(a) == NatToString(b)
    ensures a == b
    decreases a
  {
    if a >= 10 && b >= 10 {
      var sa, sb := NatToString(a), NatToString(b);
      assert sa[|sa| - 1] == DigitChar(a % 10) && sb[|sb| - 1] == DigitChar(b % 10);
      assert a % 10 == b % 10;
      assert sa[..|sa| - 1] == NatToString(a / 10);
      assert sb[..|sb| - 1] == NatToString(b / 10);
      NatToStringInjective(a / 10, b / 10);
    }
  }
}

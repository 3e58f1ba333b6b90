/** The provenance header ghat writes above a generated workflow, and the
    `settingsParser` regular expression that reads it back when existing
    workflows are refreshed. Matching is written over suffixes of the
    text: a match at index `i` of `s` is a match at the start of `s[i..]`. */
module Provenance {
  import opened Wrappers
  import opened Strings
  import opened OptionsJson

  // The literals of the expression, in lower case (it has the `i` flag).
  const GeneratedLit := "# file generated with: npx ghat "
  const OptionsLit := "# options: "
  const LegacyLit := "# do not edit below"
  const UseLit := "use"
  const NpxLit := "npx ghat "

  /** What a match captured: the first alternative's `source` and
      optional `options`, or the legacy alternative's `args`. */
  datatype Header = Current(source: string, options: Option<string>) | Legacy(args: string)

  /** `lit` (in lower case) starts `t`, ignoring ASCII case. */
  predicate CiStarts(t: string, lit: string) {
    |lit| <= |t| && forall k | 0 <= k < |lit| :: LowerAscii(t[k]) == lit[k]
  }

  predicate AllSpace(s: string) {
    forall k | 0 <= k < |s| :: IsJsSpace(s[k])
  }

  /** `[ ,-]`, `[ :\`]` and `[^\n\`]` */
  predicate BelowSep(c: char) { c == ' ' || c == ',' || c == '-' }
  predicate UseSep(c: char) { c == ' ' || c == ':' || c == '`' }
  predicate ArgChar(c: char) { c != '\n' && c != '`' }

  /** `\n# options: (?<options>{[^\n]+})\s*\n` at the start of `w`: the
      brace-delimited text up to the last `}` of the line, which must be
      followed by white space only and by a line break. */
  function OptionsLine(w: string): (r: Option<string>)
    ensures r.Some? ==> |w| >= 13 && w[0] == '\n' && CiStarts(w[1..], OptionsLit)
    ensures r.Some? ==> |r.value| >= 3 && r.value[0] == '{' && r.value[|r.value| - 1] == '}'
    ensures r.Some? ==> '\n' !in r.value && StartsWith(w[12..], r.value)
  {
    if |w| < 13 || w[0] != '\n' || !CiStarts(w[1..], OptionsLit) || w[12] != '{' then None
    else
      var x := w[12..];
      var le := LineEnd(x, 0);
      if le == |x| then None
      else match LastIndexOf(x[..le], '}')
        case None => None
        case Some(j) =>
          if j >= 2 && AllSpace(x[j + 1..le]) then
            assert x[..j + 1] == x[..le][..j + 1];
            Some(x[..j + 1])
          else None
  }

  /** `(?:.+<options line>)?` with a greedy `.+` and `s` flag: the last
      options line that starts at index 1 or later of `v`. */
  function LastOptions(v: string): Option<string> {
    if |v| == 0 then None else LastOptionsFrom(v[1..])
  }

  function LastOptionsFrom(w: string): Option<string>
    decreases |w|
  {
    if |w| == 0 then None
    else match LastOptionsFrom(w[1..])
      case Some(o) => Some(o)
      case None => OptionsLine(w)
  }

  /** The first alternative at the start of `t`; `source` is the rest of
      the line, at least one character. */
  function CurrentHere(t: string): (r: Option<Header>)
    ensures r.Some? ==> r.value.Current? && |r.value.source| >= 1 && '\n' !in r.value.source
  {
    if CiStarts(t, GeneratedLit) && |t| > 32 && t[32] != '\n' then
      var u := t[32..];
      var e := LineEnd(u, 0);
      Some(Current(u[..e], LastOptions(u[e..])))
    else None
  }

  /** The legacy alternative at the start of `t`: `# do not edit below`,
      then `[ ,-]+use[ :\`]+npx ghat ` and the arguments. */
  function LegacyHere(t: string): (r: Option<Header>)
    ensures r.Some? ==> r.value.Legacy? && |r.value.args| >= 1
    ensures r.Some? ==> forall c | c in r.value.args :: ArgChar(c)
  {
    if CiStarts(t, LegacyLit) then AfterBelow(t[19..]) else None
  }

  /** `[ ,-]+use` and what follows */
  function AfterBelow(a: string): (r: Option<Header>)
    ensures r.Some? ==> r.value.Legacy? && |r.value.args| >= 1
    ensures r.Some? ==> forall c | c in r.value.args :: ArgChar(c)
  {
    var b := RunEnd(a, 0, BelowSep);
    if b == 0 || !CiStarts(a[b..], UseLit) then None else AfterUse(a[b + 3..])
  }

  /** `[ :\`]+npx ghat ` and what follows */
  function AfterUse(c: string): (r: Option<Header>)
    ensures r.Some? ==> r.value.Legacy? && |r.value.args| >= 1
    ensures r.Some? ==> forall c | c in r.value.args :: ArgChar(c)
  {
    var d := RunEnd(c, 0, UseSep);
    if d == 0 || !CiStarts(c[d..], NpxLit) then None else ArgsOf(c[d + 9..])
  }

  /** `(?<args>[^\n\`]+)` */
  function ArgsOf(f: string): (r: Option<Header>)
    ensures r.Some? ==> r.value.Legacy? && |r.value.args| >= 1
    ensures r.Some? ==> forall c | c in r.value.args :: ArgChar(c)
  {
    var g := RunEnd(f, 0, ArgChar);
    if g == 0 then None else Some(Legacy(f[..g]))
  }

  /** Both alternatives at one position, the first one first. */
  function HeaderHere(t: string): Option<Header> {
    if CurrentHere(t).Some? then CurrentHere(t) else LegacyHere(t)
  }

  /** `contents.match(settingsParser)`: the leftmost match. */
  function ParseHeader(s: string): (r: Option<Header>)
    ensures r.Some? && r.value.Current? ==> |r.value.source| >= 1 && '\n' !in r.value.source
    ensures r.Some? && r.value.Legacy? ==> |r.value.args| >= 1 && forall c | c in r.value.args :: ArgChar(c)
    ensures r.Some? ==> '#' in s
    decreases |s|
  {
    if |s| == 0 then None
    else if HeaderHere(s).Some? then
      HeaderAtHash(s);
      HeaderHere(s)
    else
      assert forall c | c in s[1..] :: c in s;
      ParseHeader(s[1..])
  }

  // Writing the header

  const GeneratedLine := "FILE GENERATED WITH: npx ghat "
  const SourceLine := "SOURCE: "
  const OptionsLineText := "OPTIONS: "
  const LegacyLine := "# DO NOT EDIT BELOW, USE: npx ghat "

  /** The comment lines of lib.ts: the command, the repository URL, and
      the options when `exclude` or `set` survived normalisation. */
  function Comments(source: string, url: string, o: Options): (r: seq<string>)
    ensures |r| == if o.exclude.Some? || o.settings.Some? then 3 else 2
    ensures r[0] == GeneratedLine + source && r[1] == SourceLine + url
    ensures |r| == 3 ==> r[2] == OptionsLineText + Encode(o)
  {
    [GeneratedLine + source, SourceLine + url]
    + (if o.exclude.Some? || o.settings.Some? then [OptionsLineText + Encode(o)] else [])
  }

  /** Each line behind `# `, joined with line breaks. */
  function CommentBlock(lines: seq<string>): string {
    Join(seq(|lines|, i requires 0 <= i < |lines| => "# " + lines[i]), '\n')
  }

  /** The file lib.ts writes: the dumped `{env}`, the comments, an empty
      line and the workflow. */
  function Render(envText: string, lines: seq<string>, body: string): (r: string)
    ensures StartsWith(r, envText + "\n")
    ensures EndsWith(r, "\n\n" + body)
  {
    envText + "\n" + (CommentBlock(lines) + ("\n\n" + body))
  }

  /** The file lib.js writes: the dumped `{env}`, the one-line legacy
      header with the escaped command-line arguments, and the workflow. */
  function LegacyRender(envText: string, args: string, body: string): (r: string)
    ensures StartsWith(r, envText + "\n" + LegacyLine + args)
    ensures EndsWith(r, "\n\n" + body)
  {
    envText + "\n" + (LegacyLine + args + ("\n\n" + body))
  }

  /** No line of `body` starts like an options line. */
  predicate NoOptionsLine(body: string) {
    forall k | 0 <= k < |body| && (k == 0 || body[k - 1] == '\n') :: !CiStarts(body[k..], OptionsLit)
  }

  // Reading back what was written

  /** Every literal starts with `#`, so a match starts at a `#`. */
  lemma CiStartsHash(t: string, lit: string)
    requires CiStarts(t, lit) && |lit| >= 1 && lit[0] == '#'
    ensures t[0] == '#'
  {
    assert LowerAscii(t[0]) == '#';
  }

  lemma NoHeaderWithoutHash(t: string)
    requires |t| >= 1 && t[0] != '#'
    ensures HeaderHere(t).None?
  {
    if CiStarts(t, GeneratedLit) { CiStartsHash(t, GeneratedLit); }
    if CiStarts(t, LegacyLit) { CiStartsHash(t, LegacyLit); }
  }

  /** A match starts at a `#`. */
  lemma HeaderAtHash(t: string)
    requires |t| >= 1 && HeaderHere(t).Some?
    ensures t[0] == '#'
  {
    if t[0] != '#' {
      NoHeaderWithoutHash(t);
    }
  }

  /** Text without `#` in front of `b` changes nothing. */
  lemma {:induction false} ParseHeaderSkip(a: string, b: string)
    requires '#' !in a
    ensures ParseHeader(a + b) == ParseHeader(b)
    decreases |a|
  {
    if |a| > 0 {
      NoHeaderWithoutHash(a + b);
      assert (a + b)[1..] == a[1..] + b;
      ParseHeaderSkip(a[1..], b);
    } else {
      assert a + b == b;
    }
  }

  /** `w` lower-cases to `lit`. */
  predicate Lowers(w: string, lit: string) {
    |w| == |lit| && forall k | 0 <= k < |lit| :: LowerAscii(w[k]) == lit[k]
  }

  lemma LowersCat(w1: string, l1: string, w2: string, l2: string)
    requires Lowers(w1, l1) && Lowers(w2, l2)
    ensures Lowers(w1 + w2, l1 + l2)
  {}

  /** A match at the start is the leftmost one. */
  lemma ParseHeaderHere(t: string)
    requires HeaderHere(t).Some?
    ensures ParseHeader(t) == HeaderHere(t)
  {}

  /** A word that lower-cases to `lit` starts any text it begins. */
  lemma CiStartsWord(w: string, lit: string, rest: string)
    requires Lowers(w, lit)
    ensures CiStarts(w + rest, lit)
  {
    assert forall k | 0 <= k < |lit| :: (w + rest)[k] == w[k];
  }

  lemma WordHashFile() ensures Lowers("# FILE ", "# file ") {}
  lemma WordGenerated() ensures Lowers("GENERATED ", "generated ") {}
  lemma WordWith() ensures Lowers("WITH: ", "with: ") {}
  lemma WordNpx() ensures Lowers(NpxLit, NpxLit) && |NpxLit| == 9 {}
  lemma WordDoNot() ensures Lowers("# DO NOT ", "# do not ") {}
  lemma WordEditBelow() ensures Lowers("EDIT BELOW", "edit below") {}

  lemma GeneratedWord()
    ensures Lowers("# " + GeneratedLine, GeneratedLit) && |GeneratedLit| == 32
  {
    GeneratedSpelled();
    GeneratedPieces();
  }

  lemma GeneratedSpelled()
    ensures "# " + GeneratedLine == "# FILE GENERATED WITH: npx ghat "
  {
    var w := "# " + GeneratedLine;
    forall k | 2 <= k < |w| ensures w[k] == GeneratedLine[k - 2] {}
  }

  lemma GeneratedPieces()
    ensures Lowers("# FILE GENERATED WITH: npx ghat ", "# file generated with: npx ghat ")
  {
    WordHashFile();
    WordGenerated();
    WordWith();
    WordNpx();
    LowersCat("# FILE ", "# file ", "GENERATED ", "generated ");
    LowersCat("# FILE GENERATED ", "# file generated ", "WITH: ", "with: ");
    LowersCat("# FILE GENERATED WITH: ", "# file generated with: ", NpxLit, NpxLit);
  }

  lemma OptionsWord()
    ensures Lowers("# " + OptionsLineText, OptionsLit) && |OptionsLit| == 11
  {}

  lemma LegacyWords()
    ensures Lowers("# DO NOT EDIT BELOW", LegacyLit) && |LegacyLit| == 19
    ensures Lowers("USE", UseLit) && Lowers(NpxLit, NpxLit) && |NpxLit| == 9
  {
    WordDoNot();
    WordEditBelow();
    LowersCat("# DO NOT ", "# do not ", "EDIT BELOW", "edit below");
    WordNpx();
  }

  /** The last options line of `w` is the one at `q` when none follows. */
  lemma {:induction false} LastOptionsFromIs(w: string, q: nat)
    requires q < |w| && OptionsLine(w[q..]).Some?
    requires forall q' | q < q' < |w| :: OptionsLine(w[q'..]).None?
    ensures LastOptionsFrom(w) == OptionsLine(w[q..])
    decreases |w|
  {
    if q == 0 {
      LastOptionsFromNone(w[1..]);
    } else {
      assert w[1..][q - 1..] == w[q..];
      forall q' | q - 1 < q' < |w[1..]| ensures OptionsLine(w[1..][q'..]).None? {
        assert w[1..][q'..] == w[q' + 1..];
      }
      LastOptionsFromIs(w[1..], q - 1);
    }
  }

  lemma {:induction false} LastOptionsFromNone(w: string)
    requires forall q' | 0 <= q' < |w| :: OptionsLine(w[q'..]).None?
    ensures LastOptionsFrom(w).None?
    decreases |w|
  {
    if |w| > 0 {
      assert w[0..] == w;
      forall q' | 0 <= q' < |w[1..]| ensures OptionsLine(w[1..][q'..]).None? {
        assert w[1..][q'..] == w[q' + 1..];
      }
      LastOptionsFromNone(w[1..]);
    }
  }

  /** A line break before the given options line, the line itself and a
      line break after it. */
  lemma OptionsLineOf(json: string, rest: string)
    requires |json| >= 3 && json[0] == '{' && json[|json| - 1] == '}' && '\n' !in json
    ensures OptionsLine("\n" + ("# " + OptionsLineText + json + ("\n" + rest))) == Some(json)
  {
    var x := json + ("\n" + rest);
    Assoc("# " + OptionsLineText, json, "\n" + rest);
    var w := "\n" + ("# " + OptionsLineText + x);
    OptionsWord();
    DropHead('\n', "# " + OptionsLineText + x, "");
    assert w[1..] == "# " + OptionsLineText + x;
    CiStartsWord("# " + OptionsLineText, OptionsLit, x);
    assert w[12..] == x;
    assert x[|json|] == '\n';
    RunEndIs(x, 0, |json|, NotNewline);
    Cut(json, "\n" + rest);
    LastIndexOfIs(json, '}');
  }

  /** Where `w` has no line break, no options line starts. */
  lemma NoBreakNoOptions(w: string, lo: nat, hi: nat)
    requires lo <= hi <= |w| && forall k | lo <= k < hi :: w[k] != '\n'
    ensures forall q | lo <= q < hi :: OptionsLine(w[q..]).None?
  {
    forall q | lo <= q < hi ensures OptionsLine(w[q..]).None? {
      assert w[q..][0] == w[q];
    }
  }

  /** From the line break before `body` on, no options line starts. */
  lemma BodyNoOptions(w: string, off: nat, body: string)
    requires 1 <= off <= |w| && w[off - 1] == '\n' && w[off..] == body && NoOptionsLine(body)
    ensures forall q | off - 1 <= q < |w| :: OptionsLine(w[q..]).None?
  {
    forall q | off - 1 <= q < |w| ensures OptionsLine(w[q..]).None? {
      if |w[q..]| >= 13 && w[q] == '\n' {
        var k := q + 1 - off;
        assert w[q..][1..] == body[k..];
        assert k == 0 || body[k - 1] == w[q];
      }
    }
  }

  /** An empty line in front keeps the body free of options lines. */
  lemma NoOptionsLineNewline(body: string)
    requires NoOptionsLine(body)
    ensures NoOptionsLine("\n" + body)
  {
    var b := "\n" + body;
    forall k | 0 <= k < |b| && (k == 0 || b[k - 1] == '\n') ensures !CiStarts(b[k..], OptionsLit) {
      if k == 0 {
        if CiStarts(b, OptionsLit) { CiStartsHash(b, OptionsLit); }
      } else {
        assert b[k..] == body[k - 1..];
        assert k - 1 == 0 || body[k - 2] == b[k - 1];
      }
    }
  }

  /** The first alternative reads the source line back. */
  lemma CurrentOf(source: string, v: string)
    requires |source| >= 1 && '\n' !in source && |v| >= 1 && v[0] == '\n'
    ensures CurrentHere("# " + GeneratedLine + (source + v)) == Some(Current(source, LastOptions(v)))
  {
    var t := "# " + GeneratedLine + (source + v);
    GeneratedWord();
    CiStartsWord("# " + GeneratedLine, GeneratedLit, source + v);
    Cut("# " + GeneratedLine, source + v);
    var u := source + v;
    assert t[32..] == u;
    assert u[|source|] == '\n';
    RunEndIs(u, 0, |source|, NotNewline);
    Cut(source, v);
  }

  /** With an options line under the source line, that is the one read. */
  lemma OptionsFound(S: string, json: string, body: string)
    requires '\n' !in S && NoOptionsLine(body)
    requires |json| >= 3 && json[0] == '{' && json[|json| - 1] == '}' && '\n' !in json
    ensures LastOptionsFrom(S + ("\n" + ("# " + OptionsLineText + json + ("\n" + ("\n" + body)))))
      == Some(json)
  {
    var L := "# " + OptionsLineText + json;
    var R := S + ("\n" + (L + ("\n" + ("\n" + body))));
    Cut(S, "\n" + (L + ("\n" + ("\n" + body))));
    OptionsLineOf(json, "\n" + body);
    OptionsLineNoBreak(json);
    OptionsFoundIn(R, |S|, L, json, body);
  }

  /** The options line found at `n`, where `R` goes on with the line `L`,
      an empty line and `body`. */
  lemma OptionsFoundIn(R: string, n: nat, L: string, json: string, body: string)
    requires '\n' !in L && NoOptionsLine(body)
    requires n <= |R| && R[n..] == "\n" + (L + ("\n" + ("\n" + body)))
    requires OptionsLine("\n" + (L + ("\n" + ("\n" + body)))) == Some(json)
    ensures LastOptionsFrom(R) == Some(json)
  {
    LinePieces(R, n, L, "\n" + ("\n" + body));
    OptionsAfter(R, n, L, body);
    LastOptionsFromIs(R, n);
  }

  /** Where the line `L` and what follows it sit, when `R` goes on with
      a line break, `L` and `tail` from `n`. */
  lemma LinePieces(R: string, n: nat, L: string, tail: string)
    requires n <= |R| && R[n..] == "\n" + (L + tail)
    ensures n + 1 + |L| <= |R| && R[n + 1 + |L|..] == tail
    ensures forall k | n < k < n + 1 + |L| :: R[k] == L[k - n - 1]
  {
    var w := R[n..];
    assert forall k | 0 <= k < |w| :: R[n + k] == w[k];
    DropHead('\n', L + tail, "");
    Cut(L, tail);
    assert w[1 + |L|..] == tail;
    assert R[n + 1 + |L|..] == w[1 + |L|..];
    forall k | n < k < n + 1 + |L| ensures R[k] == L[k - n - 1] {
      assert R[k] == w[k - n] == (L + tail)[k - n - 1];
    }
  }

  lemma OptionsLineNoBreak(json: string)
    requires '\n' !in json
    ensures '\n' !in "# " + OptionsLineText + json
  {
    var w := "# " + OptionsLineText;
    assert |w| == 11;
    forall k | 0 <= k < |w| ensures w[k] != '\n' {
      assert w[k] in "# OPTIONS: ";
    }
  }

  /** After a line `L` without a break, an empty line and `body`, no
      options line starts. */
  lemma OptionsAfter(R: string, n: nat, L: string, body: string)
    requires '\n' !in L && NoOptionsLine(body)
    requires n + 1 + |L| <= |R| && R[n + 1 + |L|..] == "\n" + ("\n" + body)
    requires forall k | n < k < n + 1 + |L| :: R[k] == L[k - n - 1]
    ensures forall q | n < q < |R| :: OptionsLine(R[q..]).None?
  {
    var a := n + 1 + |L|;
    forall k | n + 1 <= k < a ensures R[k] != '\n' {
      assert R[k] == L[k - n - 1] && L[k - n - 1] in L;
    }
    NoBreakNoOptions(R, n + 1, a);
    DropHead('\n', "\n" + body, "");
    assert R[a] == '\n' && R[a + 1..] == "\n" + body;
    NoOptionsLineNewline(body);
    BodyNoOptions(R, a + 1, "\n" + body);
  }

  /** Without one, nothing is read. */
  lemma OptionsAbsent(S: string, body: string)
    requires '\n' !in S && NoOptionsLine(body)
    ensures LastOptionsFrom(S + ("\n" + ("\n" + body))).None?
  {
    var R := S + ("\n" + ("\n" + body));
    Cut(S, "\n" + ("\n" + body));
    NoBreakNoOptions(R, 0, |S|);
    DropHead('\n', "\n" + body, "");
    NoOptionsLineNewline(body);
    BodyNoOptions(R, |S| + 1, "\n" + body);
    LastOptionsFromNone(R);
  }

  lemma Block2(a: string, b: string, rest: string)
    ensures CommentBlock([a, b]) + rest == "# " + a + ("\n" + ("# " + b + rest))
  {
    var ps := seq(2, i requires 0 <= i < 2 => "# " + [a, b][i]);
    assert ps == ["# " + a, "# " + b];
    assert ps[1..] == ["# " + b];
    assert Join(ps[1..], '\n') == "# " + b;
    assert CommentBlock([a, b]) == "# " + a + "\n" + ("# " + b);
    Nest2("# " + a, "# " + b, rest);
  }

  lemma Block3(a: string, b: string, c: string, rest: string)
    ensures CommentBlock([a, b, c]) + rest == "# " + a + ("\n" + ("# " + b + ("\n" + ("# " + c + rest))))
  {
    var ps := seq(3, i requires 0 <= i < 3 => "# " + [a, b, c][i]);
    assert ps == ["# " + a, "# " + b, "# " + c];
    assert ps[1..] == ["# " + b, "# " + c];
    assert ps[1..][1..] == ["# " + c];
    assert Join(ps[1..], '\n') == "# " + b + "\n" + ("# " + c);
    assert CommentBlock([a, b, c]) == "# " + a + "\n" + ("# " + b + "\n" + ("# " + c));
    Nest3("# " + a, "# " + b, "# " + c, rest);
  }

  lemma Nest2(a: string, b: string, rest: string)
    ensures a + "\n" + b + rest == a + ("\n" + (b + rest))
  {}

  lemma Nest3(a: string, b: string, c: string, rest: string)
    ensures a + "\n" + (b + "\n" + c) + rest == a + ("\n" + (b + ("\n" + (c + rest))))
  {}

  lemma TwoBreaks(body: string)
    ensures "\n\n" + body == "\n" + ("\n" + body)
  {}

  /** What follows the source line of a file lib.ts wrote. */
  function AfterSource(url: string, o: Options, body: string): string {
    var S := "# " + (SourceLine + url);
    if o.exclude.Some? || o.settings.Some?
    then S + ("\n" + ("# " + OptionsLineText + Encode(o) + ("\n" + ("\n" + body))))
    else S + ("\n" + ("\n" + body))
  }

  lemma RenderLayout(envText: string, source: string, url: string, o: Options, body: string)
    ensures Render(envText, Comments(source, url, o), body)
      == (envText + "\n") + ("# " + GeneratedLine + (source + ("\n" + AfterSource(url, o, body))))
  {
    var lines := Comments(source, url, o);
    var R := AfterSource(url, o, body);
    TwoBreaks(body);
    if |lines| == 3 {
      assert lines == [GeneratedLine + source, SourceLine + url, OptionsLineText + Encode(o)];
      Block3(lines[0], lines[1], lines[2], "\n\n" + body);
      Assoc("# ", OptionsLineText, Encode(o));
    } else {
      assert lines == [GeneratedLine + source, SourceLine + url];
      Block2(lines[0], lines[1], "\n\n" + body);
    }
    assert CommentBlock(lines) + ("\n\n" + body) == "# " + (GeneratedLine + source) + ("\n" + R);
    Nest4("# ", GeneratedLine, source, "\n" + R);
  }

  /** Reading back the header of a file lib.ts wrote gives its source and,
      when options were written, their JSON text, provided the dumped
      `env` holds no `#`, the source is one line and the workflow has no
      line that starts like an options line. */
  lemma RenderRoundTrip(envText: string, source: string, url: string, o: Options, body: string)
    requires '#' !in envText && |source| >= 1 && '\n' !in source && '\n' !in url
    requires NoOptionsLine(body)
    ensures ParseHeader(Render(envText, Comments(source, url, o), body))
      == Some(Current(source, if o.exclude.Some? || o.settings.Some? then Some(Encode(o)) else None))
  {
    var R := AfterSource(url, o, body);
    RenderLayout(envText, source, url, o, body);
    assert '#' !in envText + "\n";
    ParseHeaderSkip(envText + "\n", "# " + GeneratedLine + (source + ("\n" + R)));
    CurrentOf(source, "\n" + R);
    ParseHeaderHere("# " + GeneratedLine + (source + ("\n" + R)));
    OptionsOfAfterSource(url, o, body);
  }

  /** The options read below the source line are the ones written. */
  lemma OptionsOfAfterSource(url: string, o: Options, body: string)
    requires '\n' !in url && NoOptionsLine(body)
    ensures LastOptions("\n" + AfterSource(url, o, body))
      == if o.exclude.Some? || o.settings.Some? then Some(Encode(o)) else None
  {
    var R := AfterSource(url, o, body);
    DropHead('\n', R, "");
    var S := "# " + (SourceLine + url);
    assert '\n' !in SourceLine;
    assert '\n' !in S;
    if o.exclude.Some? || o.settings.Some? {
      EncodeShape(o);
      assert '\n' !in Encode(o);
      OptionsFound(S, Encode(o), body);
    } else {
      OptionsAbsent(S, body);
    }
  }

  lemma Nest4(a: string, b: string, c: string, d: string)
    ensures a + (b + c) + d == a + b + (c + d)
  {}

  lemma LegacySpelled()
    ensures LegacyLine == "# DO NOT EDIT BELOW" + (", " + ("USE" + (": " + NpxLit)))
  {}

  /** The first alternative does not read the legacy line. */
  lemma NotCurrent(x: string)
    ensures CurrentHere(LegacyLine + x).None?
  {
    var t := LegacyLine + x;
    assert t[2] == 'D';
    assert LowerAscii(t[2]) != GeneratedLit[2];
  }

  lemma BelowOf(c: string)
    ensures AfterBelow(", " + ("USE" + c)) == AfterUse(c)
  {
    var a := ", " + ("USE" + c);
    RunEndIs(a, 0, 2, BelowSep);
    Cut(", ", "USE" + c);
    LegacyWords();
    CiStartsWord("USE", UseLit, c);
    Cut("USE", c);
    assert a[5..] == c;
  }

  lemma UseOf(x: string)
    ensures AfterUse(": " + (NpxLit + x)) == ArgsOf(x)
  {
    var c := ": " + (NpxLit + x);
    RunEndIs(c, 0, 2, UseSep);
    Cut(": ", NpxLit + x);
    LegacyWords();
    CiStartsWord(NpxLit, NpxLit, x);
    Cut(NpxLit, x);
    assert c[11..] == x;
  }

  /** The legacy alternative reads the run of argument characters after
      the legacy line. */
  lemma LegacyHereOf(x: string)
    ensures LegacyHere(LegacyLine + x) == ArgsOf(x)
  {
    var a := ", " + ("USE" + (": " + (NpxLit + x)));
    LegacySpelled();
    LegacyWords();
    assert LegacyLine + x == "# DO NOT EDIT BELOW" + a;
    CiStartsWord("# DO NOT EDIT BELOW", LegacyLit, a);
    Cut("# DO NOT EDIT BELOW", a);
    BelowOf(": " + (NpxLit + x));
    UseOf(x);
  }

  /** A run of argument characters stops at the line break after `args`. */
  lemma ArgRun(args: string, rest: string)
    requires |rest| >= 1 && rest[0] == '\n'
    ensures RunEnd(args + rest, 0, ArgChar) == RunEnd(args, 0, ArgChar)
    ensures (args + rest)[..RunEnd(args, 0, ArgChar)] == args[..RunEnd(args, 0, ArgChar)]
  {
    var g := RunEnd(args, 0, ArgChar);
    var f := args + rest;
    assert forall k | 0 <= k < g :: f[k] == args[k];
    assert g == |f| || !ArgChar(f[g]);
    RunEndIs(f, 0, g, ArgChar);
  }

  /** Reading back the header of a file lib.js wrote gives the arguments
      up to their first backtick or line break, provided the dumped `env`
      holds no `#`; arguments without either come back whole. */
  lemma LegacyRoundTrip(envText: string, args: string, body: string)
    requires '#' !in envText && |args| >= 1 && ArgChar(args[0])
    ensures ParseHeader(LegacyRender(envText, args, body))
      == Some(Legacy(args[..RunEnd(args, 0, ArgChar)]))
    ensures (forall c | c in args :: ArgChar(c)) ==>
      ParseHeader(LegacyRender(envText, args, body)) == Some(Legacy(args))
  {
    var x := args + ("\n\n" + body);
    Assoc(LegacyLine, args, "\n\n" + body);
    assert '#' !in envText + "\n";
    ParseHeaderSkip(envText + "\n", LegacyLine + x);
    NotCurrent(x);
    LegacyHereOf(x);
    ArgRun(args, "\n\n" + body);
    assert RunEnd(args, 0, ArgChar) >= 1;
    assert HeaderHere(LegacyLine + x) == Some(Legacy(args[..RunEnd(args, 0, ArgChar)]));
    if forall c | c in args :: ArgChar(c) {
      RunEndIs(args, 0, |args|, ArgChar);
    }
  }
}

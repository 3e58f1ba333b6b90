/** The source-string parser (`parse-repo.js`). A source is
    `[https://host/|git@host:|git@host/|host:]user/name[/sub...][/][#ref]`;
    the module reproduces how the regular expression's alternatives and
    greedy quantifiers settle on one reading, normalises the host, checks
    it against the supported hosts and builds the URLs. */
module ParseRepo {
  import opened Wrappers
  import opened Strings
  import opened Errors

  const Supported: set<string> := {"github", "gitlab", "bitbucket", "git.sr.ht"}

  datatype Mode = Tar | Git

  datatype Repo = Repo(
    site: string, user: string, name: string, ref: string,
    url: string, ssh: string, subdir: Option<string>, mode: Mode)

  /** `[^:/]` */
  predicate HostChar(c: char) { c != ':' && c != '/' }
  /** `[^/]` */
  predicate NotSlash(c: char) { c != '/' }
  /** `[^/\s]` */
  predicate UserChar(c: char) { c != '/' && !IsJsSpace(c) }
  /** `[^/\s#]` */
  predicate NameChar(c: char) { c != '/' && !IsJsSpace(c) && c != '#' }
  /** `.` without the `s` flag */
  predicate RefChar(c: char) { !IsLineTerminator(c) }

  /** `[^:/]+\.[^:/]+`: a dot with at least one character on each side. */
  predicate HasInnerDot(h: string) {
    exists d | 1 <= d <= |h| - 2 :: h[d] == '.'
  }

  /** The captures after the host part. */
  datatype Tail = Tail(user: string, name: string, subdir: Option<string>, ref: Option<string>)

  /** End of the greedy `(?:\/[^/\s#]+)+` starting at `i` (or `i`). */
  function SubdirEnd(s: string, i: nat): (j: nat)
    requires i <= |s|
    ensures i <= j <= |s|
    decreases |s| - i
  {
    if i < |s| && s[i] == '/' && RunEnd(s, i + 1, NameChar) > i + 1
    then SubdirEnd(s, RunEnd(s, i + 1, NameChar))
    else i
  }

  /** `([^/\s]+)\/([^/\s#]+)(?:((?:\/[^/\s#]+)+))?\/?(?:#(.+))?` at `p`.
      Only the user and the name can fail; every greedy choice after
      them is final because the rest of the pattern may match nothing. */
  function MatchTail(s: string, p: nat): (r: Option<Tail>)
    requires p <= |s|
    ensures r.Some? ==> |r.value.user| >= 1 && |r.value.name| >= 1
    ensures r.Some? ==> forall c | c in r.value.user :: UserChar(c)
    ensures r.Some? ==> forall c | c in r.value.name :: NameChar(c)
    ensures r.Some? && r.value.ref.Some? ==> |r.value.ref.value| >= 1 && forall c | c in r.value.ref.value :: RefChar(c)
  {
    var u := RunEnd(s, p, UserChar);
    if u == p || u == |s| || s[u] != '/' then None
    else
      var n := RunEnd(s, u + 1, NameChar);
      if n == u + 1 then None
      else
        var d := SubdirEnd(s, n);
        var e := if d < |s| && s[d] == '/' then d + 1 else d;
        var ref :=
          if e + 1 < |s| && s[e] == '#' && RefChar(s[e + 1])
          then
            var q := RunEnd(s, e + 1, RefChar);
            RunChars(s, e + 1, q, RefChar);
            Some(s[e + 1..q])
          else None;
        RunChars(s, p, u, UserChar);
        RunChars(s, u + 1, n, NameChar);
        Some(Tail(s[p..u], s[u + 1..n], if d > n then Some(s[n..d]) else None, ref))
  }

  /** First alternative, `(?:https:\/\/)?([^:/]+\.[^:/]+)\/`: the host is
      the whole run of `[^:/]` (it must be followed by `/`). When the
      source starts with `https://` the variant without it cannot match,
      since "https" is followed by ':'. Gives the host and where the
      rest starts. */
  function HostA(s: string): (h: Option<(string, nat)>)
    ensures h.Some? ==> 1 <= h.value.1 <= |s| && s[h.value.1 - 1] == '/'
    ensures h.Some? ==> HasInnerDot(h.value.0) && forall c | c in h.value.0 :: HostChar(c)
  {
    var start := if StartsWith(s, "https://") then 8 else 0;
    var r := RunEnd(s, start, HostChar);
    if r < |s| && s[r] == '/' && HasInnerDot(s[start..r]) then
      RunChars(s, start, r, HostChar);
      Some((s[start..r], r + 1))
    else None
  }

  /** Second alternative, `git@([^:/]+)[:/]`. */
  function HostB(s: string): (h: Option<(string, nat)>)
    ensures h.Some? ==> StartsWith(s, "git@") && |h.value.0| >= 1 && forall c | c in h.value.0 :: HostChar(c)
    ensures h.Some? ==> 5 < h.value.1 <= |s| && (s[h.value.1 - 1] == ':' || s[h.value.1 - 1] == '/')
  {
    if !StartsWith(s, "git@") then None
    else
      var r := RunEnd(s, 4, HostChar);
      if r > 4 && r < |s| then
        RunChars(s, 4, r, HostChar);
        Some((s[4..r], r + 1))
      else None
  }

  /** A reading of the whole source: the host, if one was captured, and
      the rest. */
  datatype Reading = Reading(host: Option<string>, tail: Tail)

  /** Third alternative, `([^/]+):`: the greedy `[^/]+` backs off to each
      ':' of the leading run in turn, the last one first; the first one
      after which the rest matches wins. `k` bounds the ':' positions
      still to try. */
  function HostC(s: string, k: nat): (r: Option<Reading>)
    requires k <= |s|
    ensures r.Some? ==> r.value.host.Some? && 1 <= |r.value.host.value| < k
    ensures r.Some? ==> s[..|r.value.host.value|] == r.value.host.value && s[|r.value.host.value|] == ':'
    decreases k
  {
    if k <= 1 then None
    else if s[k - 1] == ':' && MatchTail(s, k).Some? then Some(Reading(Some(s[..k - 1]), MatchTail(s, k).value))
    else HostC(s, k - 1)
  }

  /** The regular expression's reading of `s`: the alternatives of the
      optional host group in order, then no host at all. */
  function Read(s: string): (r: Option<Reading>)
    ensures r.Some? && r.value.host.Some? ==> |r.value.host.value| >= 1
    ensures r.None? ==> MatchTail(s, 0).None?
    ensures r.Some? && r.value.host.None? ==> MatchTail(s, 0) == Some(r.value.tail)
  {
    var a := HostA(s);
    var b := HostB(s);
    if a.Some? && MatchTail(s, a.value.1).Some? then Some(Reading(Some(a.value.0), MatchTail(s, a.value.1).value))
    else if b.Some? && MatchTail(s, b.value.1).Some? then Some(Reading(Some(b.value.0), MatchTail(s, b.value.1).value))
    else if HostC(s, RunEnd(s, 0, NotSlash)).Some? then HostC(s, RunEnd(s, 0, NotSlash))
    else if MatchTail(s, 0).Some? then Some(Reading(None, MatchTail(s, 0).value))
    else None
  }

  /** `.replace(/\.(com|org)$/, '')`: one final `.com` or `.org` is
      dropped. */
  function StripTld(host: string): (r: string)
    ensures EndsWith(host, ".com") ==> r + ".com" == host
    ensures EndsWith(host, ".org") ==> r + ".org" == host
    ensures !EndsWith(host, ".com") && !EndsWith(host, ".org") ==> r == host
  {
    if EndsWith(host, ".com") then StripSuffix(host, ".com") else StripSuffix(host, ".org")
  }

  /** The domain the URLs use: `.org` for BitBucket, a bare `.` for
      git.sr.ht, `.com` for the others. */
  function Domain(site: string): (r: string)
    ensures site == "bitbucket" ==> r == "bitbucket.org"
    ensures site == "git.sr.ht" ==> r == "git.sr.ht."
    ensures site != "bitbucket" && site != "git.sr.ht" ==> r == site + ".com"
  {
    site + "." + (if site == "bitbucket" then "org" else if site == "git.sr.ht" then "" else "com")
  }

  /** The site a reading names: the captured host, or GitHub when none,
      without `.com`/`.org`. */
  function SiteOf(m: Reading): string {
    StripTld(if m.host.Some? then m.host.value else "github")
  }

  /** The domain of a supported site other than git.sr.ht reads back as
      that site. */
  lemma DomainStrips(site: string)
    requires site in Supported && site != "git.sr.ht"
    ensures StripTld(Domain(site)) == site
  {
    var dom := Domain(site);
    if site == "bitbucket" {
      assert EndsWith(dom, ".org") && !EndsWith(dom, ".com") by {
        assert dom[|dom| - 4..] == ".org";
      }
    } else {
      assert EndsWith(dom, ".com") by {
        assert dom[|dom| - 4..] == ".com";
      }
    }
  }

  /** The captures a successful `MatchTail` produces. */
  predicate ValidTail(t: Tail) {
    && |t.user| >= 1 && |t.name| >= 1
    && (forall c | c in t.user :: UserChar(c))
    && (forall c | c in t.name :: NameChar(c))
    && (t.ref.Some? ==> |t.ref.value| >= 1 && forall c | c in t.ref.value :: RefChar(c))
  }

  lemma ReadValid(s: string)
    ensures Read(s).Some? ==> ValidTail(Read(s).value.tail)
  {
    var k := RunEnd(s, 0, NotSlash);
    if Read(s).Some? && !(HostA(s).Some? && MatchTail(s, HostA(s).value.1).Some?)
       && !(HostB(s).Some? && MatchTail(s, HostB(s).value.1).Some?) && HostC(s, k).Some? {
      HostCValid(s, k);
    }
  }

  lemma {:induction false} HostCValid(s: string, k: nat)
    requires k <= |s|
    ensures HostC(s, k).Some? ==> ValidTail(HostC(s, k).value.tail)
    decreases k
  {
    if k > 1 && !(s[k - 1] == ':' && MatchTail(s, k).Some?) {
      HostCValid(s, k - 1);
    }
  }

  /** The repository record for a supported site. */
  function Build(site: string, t: Tail): (r: Repo)
    requires site in Supported && ValidTail(t)
    ensures r.site == site && r.mode == Tar && r.user == t.user && r.subdir == t.subdir
    ensures r.name + (if EndsWith(t.name, ".git") then ".git" else "") == t.name
    ensures r.ref == (if t.ref.Some? then t.ref.value else "HEAD")
    ensures r.url == "https://" + Domain(site) + "/" + r.user + "/" + r.name
    ensures r.ssh == "git@" + Domain(site) + ":" + r.user + "/" + r.name
  {
    var name := StripSuffix(t.name, ".git");
    var domain := Domain(site);
    Repo(site, t.user, name, if t.ref.Some? then t.ref.value else "HEAD",
         "https://" + domain + "/" + t.user + "/" + name,
         "git@" + domain + ":" + t.user + "/" + name,
         t.subdir, if site in Supported then Tar else Git)
  }

  /** The characters of a built record keep the classes of the captures,
      so its URL is one line. */
  lemma BuildChars(site: string, t: Tail)
    requires site in Supported && ValidTail(t)
    ensures forall c | c in Build(site, t).name :: NameChar(c)
    ensures '\n' !in Build(site, t).url
  {
    var r := Build(site, t);
    StrippedChars(t.name, r.name);
    DomainNoBreak(site);
    assert '\n' !in t.user;
    assert '\n' !in r.name;
  }

  /** A name with `.git` dropped keeps the characters of the name. */
  lemma StrippedChars(name: string, stripped: string)
    requires forall c | c in name :: NameChar(c)
    requires stripped + (if EndsWith(name, ".git") then ".git" else "") == name
    ensures forall c | c in stripped :: NameChar(c)
  {
    forall c | c in stripped ensures NameChar(c) {
      var i :| 0 <= i < |stripped| && stripped[i] == c;
      assert name[i] == c;
    }
  }

  lemma DomainNoBreak(site: string)
    requires site in Supported
    ensures '\n' !in Domain(site)
  {}

  /** What `parse` builds from a reading. */
  function FromReading(m: Reading): (r: Result<Repo, Error>)
    requires ValidTail(m.tail)
    ensures r.Failure? ==> r.error.DegitError? && r.error.code == UnsupportedHost
    ensures r.Success? <==> SiteOf(m) in Supported
    ensures r.Success? ==> r.value.site == SiteOf(m) && r.value == Build(SiteOf(m), m.tail)
  {
    var site := SiteOf(m);
    if site !in Supported then
      Failure(DegitError(UnsupportedHost, "degit supports GitHub, GitLab, Sourcehut and BitBucket"))
    else
      Success(Build(site, m.tail))
  }

  /** `parse(src)` */
  function Parse(src: string): (r: Result<Repo, Error>)
    ensures r.Failure? ==> r.error.DegitError?
    ensures r.Failure? && r.error.code == BadSrc <==> Read(src).None?
    ensures Read(src).Some? ==> (r.Success? <==> SiteOf(Read(src).value) in Supported)
    ensures r.Success? ==> Read(src).Some? && r.value.site == SiteOf(Read(src).value)
    ensures r.Success? ==> r.value.site in Supported && r.value.mode == Tar && r.value.ref != ""
    ensures r.Success? ==> |r.value.user| >= 1 && forall c | c in r.value.user :: c != '/' && !IsJsSpace(c)
    ensures r.Success? ==> forall c | c in r.value.name :: c != '/' && c != '#' && !IsJsSpace(c)
    ensures r.Success? ==> r.value.url == "https://" + Domain(r.value.site) + "/" + r.value.user + "/" + r.value.name
    ensures r.Success? ==> '\n' !in r.value.url
  {
    ReadValid(src);
    match Read(src)
    case None => Failure(DegitError(BadSrc, "could not parse " + src))
    case Some(m) =>
      var r := FromReading(m);
      if r.Success? then BuildChars(r.value.site, m.tail); r else r
  }

  // The grammar of sources, stated without the order in which the
  // regular expression tries its alternatives.

  predicate AllIn(s: string, i: nat, j: nat, p: char -> bool)
    requires i <= j <= |s|
  {
    forall k | i <= k < j :: p(s[k])
  }

  /** `s[a..b]` is a host with an inner dot made of `[^:/]`. */
  predicate DottedHost(s: string, a: nat, b: nat)
    requires a <= b <= |s|
  {
    AllIn(s, a, b, HostChar) && HasInnerDot(s[a..b])
  }

  /** `s[..i]` is `[https://]host/` with a dotted host. */
  predicate PrefixA(s: string, i: nat) {
    && 1 <= i <= |s| && s[i - 1] == '/'
    && (DottedHost(s, 0, i - 1) || (StartsWith(s, "https://") && 8 <= i - 1 && DottedHost(s, 8, i - 1)))
  }

  /** `s[..i]` is `git@host:` or `git@host/`. */
  predicate PrefixB(s: string, i: nat) {
    && StartsWith(s, "git@") && 6 <= i <= |s| && AllIn(s, 4, i - 1, HostChar)
    && (s[i - 1] == ':' || s[i - 1] == '/')
  }

  /** `s[..i]` is `host:` with no '/' in the host. */
  predicate PrefixC(s: string, i: nat) {
    2 <= i <= |s| && s[i - 1] == ':' && AllIn(s, 0, i - 1, NotSlash)
  }

  predicate HostPrefix(s: string, i: nat) {
    i == 0 || PrefixA(s, i) || PrefixB(s, i) || PrefixC(s, i)
  }

  /** From `i` on, `s` starts with `user/n` where n is a name character. */
  predicate TailAt(s: string, i: nat)
    requires i <= |s|
  {
    exists u: nat | i < u < |s| - 1 :: AllIn(s, i, u, UserChar) && s[u] == '/' && NameChar(s[u + 1])
  }

  /** Some split of `s` into a host prefix and a user/name part. */
  predicate Accepts(s: string) {
    exists i: nat | i <= |s| :: HostPrefix(s, i) && TailAt(s, i)
  }

  lemma TailMatches(s: string, i: nat)
    requires i <= |s|
    ensures MatchTail(s, i).Some? <==> TailAt(s, i)
  {
    var u := RunEnd(s, i, UserChar);
    if MatchTail(s, i).Some? {
      assert AllIn(s, i, u, UserChar) && s[u] == '/' && NameChar(s[u + 1]);
    }
    if TailAt(s, i) {
      var w: nat :| i < w < |s| - 1 && AllIn(s, i, w, UserChar) && s[w] == '/' && NameChar(s[w + 1]);
      RunEndIs(s, i, w, UserChar);
    }
  }

  lemma {:induction false} HostCSound(s: string, k: nat)
    requires k <= |s| && AllIn(s, 0, k, NotSlash)
    ensures HostC(s, k).Some? ==> Accepts(s)
    decreases k
  {
    if k > 1 {
      if s[k - 1] == ':' && MatchTail(s, k).Some? {
        TailMatches(s, k);
        assert HostPrefix(s, k) && TailAt(s, k);
      } else {
        HostCSound(s, k - 1);
      }
    }
  }

  lemma {:induction false} HostCComplete(s: string, k: nat, c: nat)
    requires k <= |s| && 1 <= c < k && s[c] == ':' && MatchTail(s, c + 1).Some?
    ensures HostC(s, k).Some?
    decreases k
  {
    if !(s[k - 1] == ':' && MatchTail(s, k).Some?) {
      HostCStep(s, k);
      HostCComplete(s, k - 1, c);
    }
  }

  /** Where the rest does not match after position `k - 1`, the third
      alternative backs off further. */
  lemma HostCStep(s: string, k: nat)
    requires 1 < k <= |s| && !(s[k - 1] == ':' && MatchTail(s, k).Some?)
    ensures HostC(s, k) == HostC(s, k - 1)
  {}

  lemma ReadSound(s: string)
    ensures Read(s).Some? ==> Accepts(s)
  {
    var a := HostA(s);
    var b := HostB(s);
    if a.Some? && MatchTail(s, a.value.1).Some? {
      TailMatches(s, a.value.1);
      assert HostPrefix(s, a.value.1);
    } else if b.Some? && MatchTail(s, b.value.1).Some? {
      TailMatches(s, b.value.1);
      assert PrefixB(s, b.value.1);
    } else if HostC(s, RunEnd(s, 0, NotSlash)).Some? {
      HostCSound(s, RunEnd(s, 0, NotSlash));
    } else if MatchTail(s, 0).Some? {
      TailMatches(s, 0);
      assert HostPrefix(s, 0);
    }
  }

  /** `Read` succeeds when any of the readings it tries does. */
  lemma ReadSomeIf(s: string, i: nat)
    requires i <= |s| && MatchTail(s, i).Some?
    requires || (HostA(s).Some? && HostA(s).value.1 == i)
             || (HostB(s).Some? && HostB(s).value.1 == i)
             || HostC(s, RunEnd(s, 0, NotSlash)).Some?
             || i == 0
    ensures Read(s).Some?
  {}

  lemma HostAAt(s: string, i: nat)
    requires PrefixA(s, i)
    ensures HostA(s).Some? && HostA(s).value.1 == i
  {
    if DottedHost(s, 0, i - 1) {
      DottedNotHttps(s, i - 1);
      RunEndIs(s, 0, i - 1, HostChar);
    } else {
      RunEndIs(s, 8, i - 1, HostChar);
    }
  }

  /** A dotted host of `[^:/]` followed by '/' at the start leaves no room
      for `https://`. */
  lemma DottedNotHttps(s: string, b: nat)
    requires b < |s| && s[b] == '/' && DottedHost(s, 0, b)
    ensures !StartsWith(s, "https://")
  {
    if b > 5 {
      assert HostChar(s[5]);
      NotPrefixAt(s, "https://", 5);
    } else {
      NotPrefixAt(s, "https://", b);
    }
  }

  lemma HostBAt(s: string, i: nat)
    requires PrefixB(s, i)
    ensures HostB(s).Some? && HostB(s).value.1 == i
  {
    RunEndIs(s, 4, i - 1, HostChar);
  }

  lemma HostCAt(s: string, i: nat)
    requires PrefixC(s, i) && MatchTail(s, i).Some?
    ensures HostC(s, RunEnd(s, 0, NotSlash)).Some?
  {
    var k := RunEnd(s, 0, NotSlash);
    HostCComplete(s, k, i - 1);
  }

  lemma ReadComplete(s: string)
    ensures Accepts(s) ==> Read(s).Some?
  {
    if Accepts(s) {
      var i: nat :| i <= |s| && HostPrefix(s, i) && TailAt(s, i);
      TailMatches(s, i);
      if PrefixA(s, i) {
        HostAAt(s, i);
      } else if PrefixB(s, i) {
        HostBAt(s, i);
      } else if PrefixC(s, i) {
        HostCAt(s, i);
      }
      ReadSomeIf(s, i);
    }
  }

  /** The regular expression rejects exactly the sources outside the
      grammar. */
  lemma BadSrcIffRejected(src: string)
    ensures (Parse(src).Failure? && Parse(src).error.code == BadSrc) <==> !Accepts(src)
  {
    ReadSound(src);
    ReadComplete(src);
  }

  // The source forms the tool documents, each read as intended.

  /** A user with none of the characters that would make it read as a host. */
  predicate PlainUser(u: string) {
    |u| >= 1 && forall c | c in u :: UserChar(c) && c != ':' && c != '.' && c != '@'
  }

  predicate PlainName(n: string) {
    |n| >= 1 && forall c | c in n :: NameChar(c)
  }

  predicate PlainRef(r: Option<string>) {
    r.Some? ==> |r.value| >= 1 && forall c | c in r.value :: RefChar(c)
  }

  predicate PlainSegs(segs: seq<string>) {
    forall j | 0 <= j < |segs| :: PlainName(segs[j])
  }

  /** `/seg1/seg2...`, what the sub-directory group captures. */
  function SubPath(segs: seq<string>): string
    decreases |segs|
  {
    if |segs| == 0 then "" else "/" + segs[0] + SubPath(segs[1..])
  }

  /** The sub-directory group: undefined when there are no segments. */
  function SubOf(segs: seq<string>): Option<string> {
    if |segs| == 0 then None else Some(SubPath(segs))
  }

  /** `#ref`, or nothing. */
  function RefPart(ref: Option<string>): string {
    if ref.Some? then "#" + ref.value else ""
  }

  /** The optional trailing `/`, then the optional `#ref`. */
  function Trailer(slash: bool, ref: Option<string>): string {
    (if slash then "/" else "") + RefPart(ref)
  }

  /** `user/name[/seg...][/][#ref]` */
  function Path(user: string, name: string, segs: seq<string>, slash: bool, ref: Option<string>): string {
    user + "/" + name + SubPath(segs) + Trailer(slash, ref)
  }

  /** The user and the `/` after it, at `p`. */
  lemma PathAt(s: string, p: nat, u: nat, user: string, name: string, segs: seq<string>, slash: bool, ref: Option<string>)
    requires p <= |s| && s[p..] == Path(user, name, segs, slash, ref) && u == p + |user|
    ensures u < |s| && s[u] == '/'
    ensures forall k | 0 <= k < |user| :: s[p + k] == user[k]
  {
    var t := Path(user, name, segs, slash, ref);
    assert |s| == p + |t|;
    assert forall k | 0 <= k < |t| :: s[p + k] == t[k];
  }

  /** The name, and what follows it, at `p`. */
  lemma PathPieces(s: string, p: nat, u: nat, n: nat, user: string, name: string, segs: seq<string>, slash: bool, ref: Option<string>)
    requires p <= |s| && s[p..] == Path(user, name, segs, slash, ref) && u == p + |user| && n == u + 1 + |name|
    ensures n <= |s| && forall k | 0 <= k < |name| :: s[u + 1 + k] == name[k]
    ensures s[n..] == SubPath(segs) + Trailer(slash, ref)
  {
    PathSplit(user, name, segs, slash, ref);
    NamePiece(s, p, u, n, user, name, SubPath(segs) + Trailer(slash, ref));
  }

  /** `x/y` at `p`, then `z`. */
  lemma NamePiece(s: string, p: nat, u: nat, n: nat, x: string, y: string, z: string)
    requires p <= |s| && s[p..] == (x + "/" + y) + z && u == p + |x| && n == u + 1 + |y|
    ensures n <= |s| && (forall k | 0 <= k < |y| :: s[u + 1 + k] == y[k]) && s[n..] == z
  {
    var a := x + "/" + y;
    NameIn(a, x, y);
    SplitAt(s, p, a, z);
    forall k | 0 <= k < |y| ensures s[u + 1 + k] == y[k] {
      assert s[p + (|x| + 1 + k)] == a[|x| + 1 + k];
    }
  }

  lemma PathSplit(user: string, name: string, segs: seq<string>, slash: bool, ref: Option<string>)
    ensures Path(user, name, segs, slash, ref) == (user + "/" + name) + (SubPath(segs) + Trailer(slash, ref))
  {
    Assoc(user + "/" + name, SubPath(segs), Trailer(slash, ref));
  }

  lemma NameIn(a: string, user: string, name: string)
    requires a == user + "/" + name
    ensures |a| == |user| + 1 + |name| && forall k | 0 <= k < |name| :: a[|user| + 1 + k] == name[k]
  {}

  /** `a` at `p`, then `rest`. */
  lemma SplitAt(s: string, p: nat, a: string, rest: string)
    requires p <= |s| && s[p..] == a + rest
    ensures p + |a| <= |s| && s[p + |a|..] == rest
    ensures forall k | 0 <= k < |a| :: s[p + k] == a[k]
  {
    assert forall k | 0 <= k < |a| :: s[p..][k] == a[k];
    assert s[p + |a|..] == s[p..][|a|..];
    Cut(a, rest);
  }

  lemma SkipTo(s: string, p: nat, q: nat, a: string, rest: string)
    requires p <= |s| && s[p..] == a + rest && q == p + |a|
    ensures q <= |s| && s[q..] == rest
  {
    SplitAt(s, p, a, rest);
  }

  lemma SubPathStart(segs: seq<string>)
    ensures |segs| == 0 <==> SubPath(segs) == ""
    ensures |segs| > 0 ==> SubPath(segs)[0] == '/'
  {}

  /** A rest that neither continues the last segment nor starts another. */
  predicate Stops(rest: string) {
    rest == "" || (!NameChar(rest[0]) && (rest[0] != '/' || |rest| == 1 || !NameChar(rest[1])))
  }

  lemma TrailerStops(slash: bool, ref: Option<string>)
    ensures Stops(Trailer(slash, ref))
  {
    if slash && ref.Some? {
      assert Trailer(slash, ref)[1] == '#';
    }
  }

  /** The greedy `(?:\/[^/\s#]+)+` on `/seg1/seg2...` ends after the last
      segment. */
  lemma {:induction false} SubdirRun(s: string, i: nat, segs: seq<string>, rest: string)
    requires i <= |s| && s[i..] == SubPath(segs) + rest && PlainSegs(segs) && Stops(rest)
    ensures SubdirEnd(s, i) == i + |SubPath(segs)|
    decreases |segs|
  {
    if |segs| == 0 {
      assert s[i..] == rest;
      if i < |s| && s[i] == '/' {
        assert i + 1 == |s| || s[i + 1] == rest[1];
        RunEndIs(s, i + 1, i + 1, NameChar);
      }
    } else {
      var seg, more := segs[0], SubPath(segs[1..]) + rest;
      var j := i + 1 + |seg|;
      SubPathCons(segs, rest);
      SplitAt(s, i, "/", seg + more);
      SplitAt(s, i + 1, seg, more);
      assert PlainName(seg) && PlainSegs(segs[1..]);
      SubPathStart(segs[1..]);
      assert j == |s| || !NameChar(s[j]) by {
        if j < |s| {
          assert s[j] == more[0];
        }
      }
      RunOver(s, i + 1, seg, NameChar);
      SubdirStep(s, i, j);
      SubdirRun(s, j, segs[1..], rest);
    }
  }

  lemma SubPathCons(segs: seq<string>, rest: string)
    requires |segs| > 0
    ensures SubPath(segs) + rest == "/" + (segs[0] + (SubPath(segs[1..]) + rest))
    ensures |SubPath(segs)| == 1 + |segs[0]| + |SubPath(segs[1..])|
  {
    Assoc("/" + segs[0], SubPath(segs[1..]), rest);
    Assoc("/", segs[0], SubPath(segs[1..]) + rest);
  }

  /** One segment of the greedy sub-directory group. */
  lemma SubdirStep(s: string, i: nat, j: nat)
    requires i < |s| && s[i] == '/' && RunEnd(s, i + 1, NameChar) == j && j > i + 1
    ensures SubdirEnd(s, i) == SubdirEnd(s, j)
  {}

  /** After the sub-directory, the optional `/` is taken when written. */
  lemma TrailerAt(s: string, d: nat, slash: bool, ref: Option<string>)
    requires d <= |s| && s[d..] == Trailer(slash, ref)
    ensures var e := if d < |s| && s[d] == '/' then d + 1 else d;
      e <= |s| && s[e..] == RefPart(ref)
  {
    if slash {
      assert Trailer(slash, ref) == "/" + RefPart(ref);
      assert s[d + 1..] == s[d..][1..];
    } else {
      assert Trailer(slash, ref) == RefPart(ref);
    }
  }

  /** The `#ref` group on `#ref` or on nothing. */
  lemma RefAt(s: string, e: nat, ref: Option<string>)
    requires e <= |s| && s[e..] == RefPart(ref) && PlainRef(ref)
    ensures ref.None? ==> e == |s|
    ensures ref.Some? ==> e + 1 < |s| && s[e] == '#' && RefChar(s[e + 1])
    ensures ref.Some? ==> RunEnd(s, e + 1, RefChar) == |s| && s[e + 1..] == ref.value
  {
    if ref.Some? {
      var r := ref.value;
      assert s[e + 1..] == s[e..][1..];
      assert forall k | 0 <= k < |r| :: s[e + 1 + k] == r[k];
      assert r[0] in r;
      RunOver(s, e + 1, r, RefChar);
    }
  }

  /** `MatchTail` on `user/name[/seg...][/][#ref]`: the user and the name
      end at their `/`, the sub-directory group holds the segments, a
      trailing `/` is consumed, and the ref is the text after `#`. */
  lemma TailForm(s: string, p: nat, user: string, name: string, segs: seq<string>, slash: bool, ref: Option<string>)
    requires p <= |s| && s[p..] == Path(user, name, segs, slash, ref)
    requires |user| >= 1 && (forall c | c in user :: UserChar(c))
    requires PlainName(name) && PlainSegs(segs) && PlainRef(ref)
    ensures MatchTail(s, p) == Some(Tail(user, name, SubOf(segs), ref))
  {
    var u := p + |user|;
    var n := u + 1 + |name|;
    var d := n + |SubPath(segs)|;
    var e := if d < |s| && s[d] == '/' then d + 1 else d;
    assert TailLayout(s, p, u, n, d, e, user, name, ref) by {
      PathAt(s, p, u, user, name, segs, slash, ref);
      PathPieces(s, p, u, n, user, name, segs, slash, ref);
      TailPieces(s, p, u, n, d, e, user, name, segs, slash, ref);
    }
    assert SubOf(segs) == if d > n then Some(s[n..d]) else None by {
      PathPieces(s, p, u, n, user, name, segs, slash, ref);
      SubAt(s, n, d, segs, Trailer(slash, ref));
    }
    TailRuns(s, p, u, n, d, e, user, name, ref);
  }

  /** Where the runs of `MatchTail` end on a source laid out as
      `user/name[/seg...][/][#ref]`: the user at `u`, the name at `n`, the
      sub-directory at `d`, the optional `/` at `e`, and then the end of
      `s` or `#ref`. */
  predicate TailLayout(s: string, p: nat, u: nat, n: nat, d: nat, e: nat, user: string, name: string,
                       ref: Option<string>)
  {
    && p < u < |s| && s[u] == '/' && RunEnd(s, p, UserChar) == u && s[p..u] == user
    && u + 1 < n <= |s| && RunEnd(s, u + 1, NameChar) == n && s[u + 1..n] == name
    && n <= d <= |s| && SubdirEnd(s, n) == d
    && e == (if d < |s| && s[d] == '/' then d + 1 else d)
    && (ref.None? ==> e == |s|)
    && (ref.Some? ==> e + 1 < |s| && s[e] == '#' && RefChar(s[e + 1]))
    && (ref.Some? ==> RunEnd(s, e + 1, RefChar) == |s| && s[e + 1..] == ref.value)
  }

  /** The layout of `user/name[/seg...][/][#ref]` from the characters of
      the user and the name and the text after the name. */
  lemma TailPieces(s: string, p: nat, u: nat, n: nat, d: nat, e: nat,
                   user: string, name: string, segs: seq<string>, slash: bool, ref: Option<string>)
    requires u == p + |user| && n == u + 1 + |name| && d == n + |SubPath(segs)|
    requires e == if d < |s| && s[d] == '/' then d + 1 else d
    requires u < |s| && s[u] == '/' && forall k | 0 <= k < |user| :: s[p + k] == user[k]
    requires n <= |s| && forall k | 0 <= k < |name| :: s[u + 1 + k] == name[k]
    requires s[n..] == SubPath(segs) + Trailer(slash, ref)
    requires |user| >= 1 && (forall c | c in user :: UserChar(c))
    requires PlainName(name) && PlainSegs(segs) && PlainRef(ref)
    ensures TailLayout(s, p, u, n, d, e, user, name, ref)
  {
    assert RunEnd(s, p, UserChar) == u && s[p..u] == user && RunEnd(s, u + 1, NameChar) == n && s[u + 1..n] == name by {
      AfterNameStops(segs, slash, ref);
      UserNameRuns(s, p, u, n, user, name, SubPath(segs) + Trailer(slash, ref));
    }
    assert d <= |s| && SubdirEnd(s, n) == d by {
      AfterNameSub(s, n, d, segs, slash, ref);
    }
    assert (ref.None? ==> e == |s|)
      && (ref.Some? ==> e + 1 < |s| && s[e] == '#' && RefChar(s[e + 1]))
      && (ref.Some? ==> RunEnd(s, e + 1, RefChar) == |s| && s[e + 1..] == ref.value) by {
      SkipTo(s, n, d, SubPath(segs), Trailer(slash, ref));
      AfterSub(s, d, e, slash, ref);
    }
  }

  /** The user and the name groups end at the `/` after the user and at
      the end of the name. */
  lemma UserNameRuns(s: string, p: nat, u: nat, n: nat, user: string, name: string, rest: string)
    requires u == p + |user| && n == u + 1 + |name|
    requires u < |s| && s[u] == '/' && forall k | 0 <= k < |user| :: s[p + k] == user[k]
    requires n <= |s| && forall k | 0 <= k < |name| :: s[u + 1 + k] == name[k]
    requires s[n..] == rest && (rest == "" || !NameChar(rest[0]))
    requires |user| >= 1 && (forall c | c in user :: UserChar(c)) && PlainName(name)
    ensures RunEnd(s, p, UserChar) == u && s[p..u] == user
    ensures RunEnd(s, u + 1, NameChar) == n && s[u + 1..n] == name
  {
    RunOver(s, p, user, UserChar);
    NameRun(s, u + 1, name, rest);
  }

  /** After the name: the sub-directory group holds the segments. */
  lemma AfterNameSub(s: string, n: nat, d: nat, segs: seq<string>, slash: bool, ref: Option<string>)
    requires n <= |s| && s[n..] == SubPath(segs) + Trailer(slash, ref) && PlainSegs(segs) && d == n + |SubPath(segs)|
    ensures d <= |s| && SubdirEnd(s, n) == d
  {
    TrailerStops(slash, ref);
    SubdirRun(s, n, segs, Trailer(slash, ref));
  }

  /** After the sub-directory: the optional `/` and the ref. */
  lemma AfterSub(s: string, d: nat, e: nat, slash: bool, ref: Option<string>)
    requires d <= |s| && s[d..] == Trailer(slash, ref) && PlainRef(ref)
    requires e == if d < |s| && s[d] == '/' then d + 1 else d
    ensures ref.None? ==> e == |s|
    ensures ref.Some? ==> e + 1 < |s| && s[e] == '#' && RefChar(s[e + 1])
    ensures ref.Some? ==> RunEnd(s, e + 1, RefChar) == |s| && s[e + 1..] == ref.value
  {
    TrailerAt(s, d, slash, ref);
    RefAt(s, e, ref);
  }

  /** A run of name characters that the next character ends. */
  lemma NameRun(s: string, q: nat, name: string, rest: string)
    requires q + |name| <= |s| && (forall k | 0 <= k < |name| :: s[q + k] == name[k]) && PlainName(name)
    requires s[q + |name|..] == rest && (rest == "" || !NameChar(rest[0]))
    ensures RunEnd(s, q, NameChar) == q + |name| && s[q..q + |name|] == name
  {
    if q + |name| < |s| {
      assert s[q + |name|] == rest[0];
    }
    RunOver(s, q, name, NameChar);
  }

  /** What follows the name starts with `/`, `#` or nothing. */
  lemma AfterNameStops(segs: seq<string>, slash: bool, ref: Option<string>)
    ensures var r := SubPath(segs) + Trailer(slash, ref);
      r == "" || !NameChar(r[0])
  {
    SubPathStart(segs);
    TrailerStops(slash, ref);
  }

  /** The sub-directory group holds the segments. */
  lemma SubAt(s: string, n: nat, d: nat, segs: seq<string>, c: string)
    requires n <= |s| && s[n..] == SubPath(segs) + c && d == n + |SubPath(segs)|
    ensures d <= |s|
    ensures SubOf(segs) == if d > n then Some(s[n..d]) else None
  {
    var b := SubPath(segs);
    SubPathStart(segs);
    SplitAt(s, n, b, c);
    assert s[n..d] == b;
  }

  /** `MatchTail` from where its runs end: the user ends at `u`, the name
      at `n`, the sub-directory at `d`, the optional `/` at `e`, and then
      comes the end of `s` or `#ref`. */
  lemma TailRuns(s: string, p: nat, u: nat, n: nat, d: nat, e: nat, user: string, name: string, ref: Option<string>)
    requires TailLayout(s, p, u, n, d, e, user, name, ref)
    ensures MatchTail(s, p) == Some(Tail(user, name, if d > n then Some(s[n..d]) else None, ref))
  {
    var r := if e + 1 < |s| && s[e] == '#' && RefChar(s[e + 1]) then Some(s[e + 1..RunEnd(s, e + 1, RefChar)]) else None;
    if ref.Some? {
      assert s[e + 1..|s|] == s[e + 1..];
    }
    assert r == ref;
    assert MatchTail(s, p) == Some(Tail(s[p..u], s[u + 1..n], if d > n then Some(s[n..d]) else None, r));
  }

  /** The text a match covers: `user/name`, the sub-directory group, the
      `/` when one was consumed, and `#ref`. */
  function TailText(t: Tail, slash: bool): string {
    t.user + "/" + t.name + (if t.subdir.Some? then t.subdir.value else "") + Trailer(slash, t.ref)
  }

  /** The converse of `TailForm`: what `MatchTail` captures is laid out
      at `p` as `user/name`, the sub-directory group, an optional `/` and
      `#ref`, in that order and with nothing in between. */
  lemma MatchTailText(s: string, p: nat)
    requires p <= |s| && MatchTail(s, p).Some?
    ensures StartsWith(s[p..], TailText(MatchTail(s, p).value, false))
         || StartsWith(s[p..], TailText(MatchTail(s, p).value, true))
  {
    var u := RunEnd(s, p, UserChar);
    var n := RunEnd(s, u + 1, NameChar);
    var d := SubdirEnd(s, n);
    var e := if d < |s| && s[d] == '/' then d + 1 else d;
    var hasRef := e + 1 < |s| && s[e] == '#' && RefChar(s[e + 1]);
    var q := if hasRef then RunEnd(s, e + 1, RefChar) else e;
    var t := Tail(s[p..u], s[u + 1..n], if d > n then Some(s[n..d]) else None, if hasRef then Some(s[e + 1..q]) else None);
    assert MatchTail(s, p) == Some(t);
    TextAt(s, p, u, n, d, e, q, t);
  }

  /** `TailText` from the positions where the captures start and end. */
  lemma TextAt(s: string, p: nat, u: nat, n: nat, d: nat, e: nat, q: nat, t: Tail)
    requires p < u < n <= d <= e <= q <= |s| && s[u] == '/'
    requires e == d || (e == d + 1 && s[d] == '/')
    requires t.user == s[p..u] && t.name == s[u + 1..n] && t.subdir == (if d > n then Some(s[n..d]) else None)
    requires t.ref == (if q > e then Some(s[e + 1..q]) else None) && (q > e ==> e + 1 < q && s[e] == '#')
    ensures StartsWith(s[p..], TailText(t, e > d))
  {
    var sub := if t.subdir.Some? then t.subdir.value else "";
    assert s[u..u + 1] == "/";
    SliceCat(s, p, u, u + 1);
    SliceCat(s, p, u + 1, n);
    assert s[n..d] == sub;
    SliceCat(s, p, n, d);
    assert s[d..q] == Trailer(e > d, t.ref) by {
      assert s[d..e] == if e > d then "/" else "";
      if q > e {
        assert s[e..e + 1] == "#";
        SliceCat(s, e, e + 1, q);
      }
      assert s[e..q] == RefPart(t.ref);
      SliceCat(s, d, e, q);
    }
    SliceCat(s, p, d, q);
    assert s[p..][..q - p] == s[p..q];
  }

  lemma SliceCat(s: string, a: nat, b: nat, c: nat)
    requires a <= b <= c <= |s|
    ensures s[a..c] == s[a..b] + s[b..c]
  {}

  lemma {:induction false} HostCSkip(s: string, k: nat, c: nat)
    requires c < k <= |s|
    requires forall m | c + 1 <= m < k :: s[m] != ':'
    ensures HostC(s, k) == HostC(s, c + 1)
    decreases k
  {
    if k > c + 1 {
      HostCStep(s, k);
      HostCSkip(s, k - 1, c);
    }
  }

  /** The readings `Read` settles on, one per alternative. */
  /** A source is parsed from its reading. */
  lemma ParseOf(s: string, m: Reading)
    requires Read(s) == Some(m)
    ensures ValidTail(m.tail) && Parse(s) == FromReading(m)
  {
    ReadValid(s);
  }

  lemma ReadIsA(s: string, host: string, i: nat, t: Tail)
    requires HostA(s) == Some((host, i)) && i <= |s| && MatchTail(s, i) == Some(t)
    ensures Read(s) == Some(Reading(Some(host), t))
  {}

  lemma ReadIsB(s: string, host: string, i: nat, t: Tail)
    requires HostA(s).None? && HostB(s) == Some((host, i)) && i <= |s| && MatchTail(s, i) == Some(t)
    ensures Read(s) == Some(Reading(Some(host), t))
  {}

  lemma ReadIsC(s: string, m: Reading)
    requires HostA(s).None? && HostB(s).None? && HostC(s, RunEnd(s, 0, NotSlash)) == Some(m)
    ensures Read(s) == Some(m)
  {}

  lemma ReadIsBare(s: string, t: Tail)
    requires HostA(s).None? && HostB(s).None? && HostC(s, RunEnd(s, 0, NotSlash)).None?
    requires MatchTail(s, 0) == Some(t)
    ensures Read(s) == Some(Reading(None, t))
  {}

  lemma NotPrefixAt(s: string, lit: string, j: nat)
    requires j < |lit| && j < |s| && s[j] != lit[j]
    ensures !StartsWith(s, lit)
  {}

  /** The characters of `a + b + c`. */
  lemma Pieces(s: string, a: string, b: string, c: string)
    requires s == a + b + c
    ensures |s| == |a| + |b| + |c|
    ensures s[..|a|] == a
    ensures forall k | 0 <= k < |b| :: s[|a| + k] == b[k]
    ensures s[|a| + |b|..] == c
    ensures |c| > 0 ==> s[|a| + |b|] == c[0]
  {
    assert s == a + (b + c);
  }

  lemma {:induction false} HostCNone(s: string, k: nat)
    requires k <= |s| && forall m | 0 <= m < k :: s[m] != ':'
    ensures HostC(s, k).None?
    decreases k
  {
    if k > 1 {
      HostCNone(s, k - 1);
    }
  }

  // The alternatives, each unfolded once with only the facts it needs.

  lemma HostAIsSome(s: string, start: nat, r: nat)
    requires start == (if StartsWith(s, "https://") then 8 else 0) && start <= |s|
    requires RunEnd(s, start, HostChar) == r && r < |s| && s[r] == '/' && HasInnerDot(s[start..r])
    ensures HostA(s) == Some((s[start..r], r + 1))
  {}

  lemma HostAIsNone(s: string, start: nat, r: nat)
    requires start == (if StartsWith(s, "https://") then 8 else 0) && start <= |s|
    requires RunEnd(s, start, HostChar) == r
    requires r == |s| || s[r] != '/' || !HasInnerDot(s[start..r])
    ensures HostA(s).None?
  {}

  lemma HostBIsSome(s: string, r: nat)
    requires StartsWith(s, "git@") && RunEnd(s, 4, HostChar) == r && 4 < r < |s|
    ensures HostB(s) == Some((s[4..r], r + 1))
  {}

  lemma HostBIsNone(s: string)
    requires !StartsWith(s, "git@")
    ensures HostB(s).None?
  {}

  lemma NoInnerDot(h: string)
    requires '.' !in h
    ensures !HasInnerDot(h)
  {}

  /** A word without `c` at the start of `s`. */
  lemma WordAvoids(s: string, w: string, c: char)
    requires |w| <= |s| && (forall k | 0 <= k < |w| :: s[k] == w[k]) && c !in w
    ensures forall k | 0 <= k < |w| :: s[k] != c
  {
    forall k | 0 <= k < |w| ensures s[k] != c {
      assert w[k] in w;
    }
  }

  /** A plain user at the start matches none of the host alternatives. */
  lemma PlainUserNoHost(s: string, user: string)
    requires |user| < |s| && (forall k | 0 <= k < |user| :: s[k] == user[k]) && s[|user|] == '/'
    requires PlainUser(user)
    ensures HostA(s).None? && HostB(s).None? && HostC(s, RunEnd(s, 0, NotSlash)).None?
  {
    var h := |user|;
    assert ':' !in user && '.' !in user && '@' !in user;
    WordAvoids(s, user, ':');
    WordAvoids(s, user, '@');
    NotPrefixAt(s, "https://", if h > 5 then 5 else h);
    NotPrefixAt(s, "git@", if h > 3 then 3 else h);
    RunOver(s, 0, user, HostChar);
    NoInnerDot(user);
    HostAIsNone(s, 0, h);
    HostBIsNone(s);
    RunOver(s, 0, user, NotSlash);
    HostCNone(s, h);
  }

  /** `user/name[/sub...][/][#ref]`: GitHub by default. */
  lemma Shorthand(user: string, name: string, segs: seq<string>, slash: bool, ref: Option<string>)
    requires PlainUser(user) && PlainName(name) && PlainSegs(segs) && PlainRef(ref)
    ensures Parse(Path(user, name, segs, slash, ref)) == Success(Build("github", Tail(user, name, SubOf(segs), ref)))
  {
    var s := Path(user, name, segs, slash, ref);
    assert s[0..] == s;
    BareRead(s, user, name, segs, slash, ref);
    ParseOf(s, Reading(None, Tail(user, name, SubOf(segs), ref)));
    assert StripTld("github") == "github";
  }

  /** The sub-directory source of the command's usage text: a GitHub
      repository with the sub-directory `/templates/node` and ref `HEAD`. */
  lemma TemplateSource()
    ensures var r := Parse("fregante/ghat/templates/node");
      && r.Success? && r.value.site == "github" && r.value.user == "fregante" && r.value.name == "ghat"
      && r.value.subdir == Some("/templates/node") && r.value.ref == "HEAD"
  {
    TemplatePath();
    TemplatePlain();
    Shorthand("fregante", "ghat", ["templates", "node"], false, None);
    assert !EndsWith("ghat", ".git");
  }

  lemma TemplatePath()
    ensures Path("fregante", "ghat", ["templates", "node"], false, None) == "fregante/ghat/templates/node"
    ensures SubOf(["templates", "node"]) == Some("/templates/node")
  {
    TemplateSub();
  }

  lemma TemplatePlain()
    ensures PlainUser("fregante") && PlainName("ghat") && PlainSegs(["templates", "node"]) && PlainRef(None)
  {
    assert PlainSegs(["templates", "node"]) by {
      assert PlainName("templates") && PlainName("node");
    }
  }

  lemma TemplateSub()
    ensures SubPath(["templates", "node"]) == "/templates/node"
  {
    var segs := ["templates", "node"];
    assert SubPath(segs[1..][1..]) == "";
    assert SubPath(segs[1..]) == "/node";
  }

  /** `user/name[/sub...][/][#ref]` is read without a host. */
  lemma BareRead(s: string, user: string, name: string, segs: seq<string>, slash: bool, ref: Option<string>)
    requires s[0..] == Path(user, name, segs, slash, ref)
    requires PlainUser(user) && PlainName(name) && PlainSegs(segs) && PlainRef(ref)
    ensures Read(s) == Some(Reading(None, Tail(user, name, SubOf(segs), ref)))
  {
    PathAt(s, 0, |user|, user, name, segs, slash, ref);
    PlainUserNoHost(s, user);
    TailForm(s, 0, user, name, segs, slash, ref);
    ReadIsBare(s, Tail(user, name, SubOf(segs), ref));
  }

  /** The characters of `lead + host + [sep] + rest`. */
  lemma HostedChars(s: string, lead: string, host: string, sep: char, rest: string)
    requires s == lead + host + [sep] + rest
    ensures |s| == |lead| + |host| + 1 + |rest|
    ensures s[..|lead|] == lead && forall k | 0 <= k < |lead| :: s[k] == lead[k]
    ensures forall k | 0 <= k < |host| :: s[|lead| + k] == host[k]
    ensures s[|lead| + |host|] == sep && s[|lead| + |host| + 1..] == rest
  {
    var pre := lead + host + [sep];
    assert s[|pre|..] == rest;
    assert forall k | 0 <= k < |pre| :: s[k] == pre[k];
  }

  /** The characters of `https://host/rest`. */
  lemma HttpsChars(s: string, host: string, rest: string)
    requires s == "https://" + host + ['/'] + rest
    ensures |s| == 9 + |host| + |rest| && StartsWith(s, "https://")
    ensures forall k | 0 <= k < |host| :: s[8 + k] == host[k]
    ensures s[8 + |host|] == '/' && s[9 + |host|..] == rest
  {
    var pre := "https://" + host + ['/'];
    assert s[|pre|..] == rest;
    assert s[..8] == "https://";
    assert s[8..8 + |host|] == host;
  }

  /** The first alternative on a dotted host of `[^:/]` at `start`. */
  lemma HostAOver(s: string, start: nat, host: string)
    requires start == (if StartsWith(s, "https://") then 8 else 0)
    requires start + |host| < |s| && forall k | 0 <= k < |host| :: s[start + k] == host[k]
    requires s[start + |host|] == '/'
    requires (forall c | c in host :: HostChar(c)) && HasInnerDot(host)
    ensures HostA(s) == Some((host, start + |host| + 1))
  {
    RunOver(s, start, host, HostChar);
    HostAIsSome(s, start, start + |host|);
  }

  /** `https://host/user/name[/sub...][/][#ref]` for a dotted host. */
  lemma HttpsForm(host: string, user: string, name: string, segs: seq<string>, slash: bool, ref: Option<string>)
    requires (forall c | c in host :: HostChar(c)) && HasInnerDot(host) && StripTld(host) in Supported
    requires |user| >= 1 && (forall c | c in user :: UserChar(c)) && PlainName(name) && PlainSegs(segs) && PlainRef(ref)
    ensures Parse("https://" + host + "/" + Path(user, name, segs, slash, ref))
         == Success(Build(StripTld(host), Tail(user, name, SubOf(segs), ref)))
  {
    var s := "https://" + host + "/" + Path(user, name, segs, slash, ref);
    HttpsChars(s, host, Path(user, name, segs, slash, ref));
    HttpsRead(s, host, user, name, segs, slash, ref);
    ParseOf(s, Reading(Some(host), Tail(user, name, SubOf(segs), ref)));
  }

  lemma HttpsRead(s: string, host: string, user: string, name: string, segs: seq<string>, slash: bool, ref: Option<string>)
    requires 9 + |host| <= |s| && StartsWith(s, "https://")
    requires forall k | 0 <= k < |host| :: s[8 + k] == host[k]
    requires s[8 + |host|] == '/' && s[9 + |host|..] == Path(user, name, segs, slash, ref)
    requires (forall c | c in host :: HostChar(c)) && HasInnerDot(host)
    requires |user| >= 1 && (forall c | c in user :: UserChar(c)) && PlainName(name) && PlainSegs(segs) && PlainRef(ref)
    ensures Read(s) == Some(Reading(Some(host), Tail(user, name, SubOf(segs), ref)))
  {
    HttpsHost(s, host);
    HostedTailRead(s, host, 9 + |host|, user, name, segs, slash, ref);
  }

  /** The first alternative on `https://host/rest` for a dotted host. */
  lemma HttpsHost(s: string, host: string)
    requires 8 + |host| < |s| && StartsWith(s, "https://")
    requires forall k | 0 <= k < |host| :: s[8 + k] == host[k]
    requires s[8 + |host|] == '/'
    requires (forall c | c in host :: HostChar(c)) && HasInnerDot(host)
    ensures HostA(s) == Some((host, 9 + |host|))
  {
    HostAOver(s, 8, host);
  }

  /** The second alternative on `git@host:` with a host of `[^:/]`. */
  lemma HostBOver(s: string, host: string)
    requires StartsWith(s, "git@") && !StartsWith(s, "https://")
    requires |host| >= 1 && 4 + |host| < |s| && forall k | 0 <= k < |host| :: s[4 + k] == host[k]
    requires s[4 + |host|] == ':' && forall c | c in host :: HostChar(c)
    ensures HostA(s).None? && HostB(s) == Some((host, 5 + |host|))
  {
    RunOver(s, 4, host, HostChar);
    assert forall k | 0 <= k < 4 :: s[k] == "git@"[k];
    assert forall k | 0 <= k < 4 + |host| :: HostChar(s[k]);
    RunEndIs(s, 0, 4 + |host|, HostChar);
    HostAIsNone(s, 0, 4 + |host|);
    HostBIsSome(s, 4 + |host|);
  }

  lemma SshHost(s: string, host: string, rest: string)
    requires s == "git@" + host + [':'] + rest && |host| >= 1
    requires forall c | c in host :: HostChar(c)
    ensures 5 + |host| <= |s|
    ensures HostA(s).None? && HostB(s) == Some((host, 5 + |host|)) && s[5 + |host|..] == rest
  {
    HostedChars(s, "git@", host, ':', rest);
    NotPrefixAt(s, "https://", 0);
    HostBOver(s, host);
  }

  /** `git@host:user/name[/sub...][/][#ref]` */
  lemma SshForm(host: string, user: string, name: string, segs: seq<string>, slash: bool, ref: Option<string>)
    requires |host| >= 1 && (forall c | c in host :: HostChar(c)) && StripTld(host) in Supported
    requires |user| >= 1 && (forall c | c in user :: UserChar(c)) && PlainName(name) && PlainSegs(segs) && PlainRef(ref)
    ensures Parse("git@" + host + ":" + Path(user, name, segs, slash, ref))
         == Success(Build(StripTld(host), Tail(user, name, SubOf(segs), ref)))
  {
    var s := "git@" + host + ":" + Path(user, name, segs, slash, ref);
    SshHost(s, host, Path(user, name, segs, slash, ref));
    SshTailRead(s, host, user, name, segs, slash, ref);
    ParseOf(s, Reading(Some(host), Tail(user, name, SubOf(segs), ref)));
  }

  /** A source the second alternative reads, with `user/name[/sub...][/][#ref]` after it. */
  lemma SshTailRead(s: string, host: string, user: string, name: string, segs: seq<string>, slash: bool, ref: Option<string>)
    requires HostA(s).None? && HostB(s) == Some((host, 5 + |host|))
    requires 5 + |host| <= |s| && s[5 + |host|..] == Path(user, name, segs, slash, ref)
    requires |user| >= 1 && (forall c | c in user :: UserChar(c)) && PlainName(name) && PlainSegs(segs) && PlainRef(ref)
    ensures Read(s) == Some(Reading(Some(host), Tail(user, name, SubOf(segs), ref)))
  {
    TailForm(s, 5 + |host|, user, name, segs, slash, ref);
    ReadIsB(s, host, 5 + |host|, Tail(user, name, SubOf(segs), ref));
  }

  /** On `host:...` the first two alternatives fail. */
  lemma ColonNotAB(s: string, host: string)
    requires |host| >= 1 && |host| + 1 < |s| && forall k | 0 <= k < |host| :: s[k] == host[k]
    requires s[|host|] == ':' && s[|host| + 1] != '/'
    requires forall c | c in host :: HostChar(c) && c != '@'
    ensures HostA(s).None? && HostB(s).None?
  {
    var h := |host|;
    RunOver(s, 0, host, HostChar);
    assert '@' !in host && ':' !in host;
    WordAvoids(s, host, '@');
    WordAvoids(s, host, ':');
    NotPrefixAt(s, "https://", if h > 5 then 5 else if h == 5 then 6 else h);
    NotPrefixAt(s, "git@", if h > 3 then 3 else h);
    HostAIsNone(s, 0, h);
    HostBIsNone(s);
  }

  /** On `host:user/...` the third alternative backs off to the ':'
      after the host. */
  lemma ColonRunC(s: string, host: string, user: string)
    requires |host| + 1 + |user| < |s|
    requires forall k | 0 <= k < |host| :: s[k] == host[k]
    requires forall k | 0 <= k < |user| :: s[|host| + 1 + k] == user[k]
    requires s[|host|] == ':' && s[|host| + 1 + |user|] == '/'
    requires (forall c | c in host :: HostChar(c)) && PlainUser(user)
    ensures HostC(s, RunEnd(s, 0, NotSlash)) == HostC(s, |host| + 1)
  {
    var h := |host|;
    var w := h + 1 + |user|;
    forall k | 0 <= k < w ensures NotSlash(s[k]) && (k > h ==> s[k] != ':') {
      if k < h {
        assert s[k] == host[k] && host[k] in host;
      } else if k > h {
        assert s[h + 1 + (k - h - 1)] == user[k - h - 1];
        assert user[k - h - 1] in user;
      }
    }
    RunEndIs(s, 0, w, NotSlash);
    HostCSkip(s, w, h);
  }

  lemma ColonRead(s: string, host: string, user: string, name: string, segs: seq<string>, slash: bool, ref: Option<string>)
    requires |host| >= 1 && |host| + 1 <= |s| && s[..|host|] == host && s[|host|] == ':'
    requires s[|host| + 1..] == Path(user, name, segs, slash, ref)
    requires HostA(s).None? && HostB(s).None?
    requires HostC(s, RunEnd(s, 0, NotSlash)) == HostC(s, |host| + 1)
    requires PlainUser(user) && PlainName(name) && PlainSegs(segs) && PlainRef(ref)
    ensures Read(s) == Some(Reading(Some(host), Tail(user, name, SubOf(segs), ref)))
  {
    var t := Tail(user, name, SubOf(segs), ref);
    assert MatchTail(s, |host| + 1) == Some(t) by {
      TailForm(s, |host| + 1, user, name, segs, slash, ref);
    }
    ColonTailRead(s, |host|, t);
  }

  /** A source the third alternative reads at the ':' after `host`. */
  lemma ColonTailRead(s: string, h: nat, t: Tail)
    requires 1 <= h && h + 1 <= |s| && s[h] == ':' && MatchTail(s, h + 1) == Some(t)
    requires HostA(s).None? && HostB(s).None?
    requires HostC(s, RunEnd(s, 0, NotSlash)) == HostC(s, h + 1)
    ensures Read(s) == Some(Reading(Some(s[..h]), t))
  {
    HostCAtColon(s, h, t);
  }

  /** The third alternative tried at a ':' after which the rest matches. */
  lemma HostCAtColon(s: string, h: nat, t: Tail)
    requires 1 <= h && h + 1 <= |s| && s[h] == ':' && MatchTail(s, h + 1) == Some(t)
    ensures HostC(s, h + 1) == Some(Reading(Some(s[..h]), t))
  {}

  lemma ColonPrefix(s: string, host: string, user: string, name: string, segs: seq<string>, slash: bool, ref: Option<string>)
    requires s == host + [':'] + Path(user, name, segs, slash, ref)
    requires |host| >= 1 && (forall c | c in host :: HostChar(c) && c != '@') && PlainUser(user)
    ensures |host| + 1 <= |s| && s[..|host|] == host && s[|host|] == ':' && s[|host| + 1..] == Path(user, name, segs, slash, ref)
    ensures HostA(s).None? && HostB(s).None?
    ensures HostC(s, RunEnd(s, 0, NotSlash)) == HostC(s, |host| + 1)
  {
    var h := |host|;
    ColonSplit(s, host, Path(user, name, segs, slash, ref));
    LeadingHostChars(s, host, ':', Path(user, name, segs, slash, ref));
    PathAt(s, h + 1, h + 1 + |user|, user, name, segs, slash, ref);
    ColonAlternatives(s, host, user);
  }

  lemma ColonSplit(s: string, host: string, rest: string)
    requires s == host + [':'] + rest
    ensures |host| + 1 <= |s| && s[..|host|] == host && s[|host|] == ':' && s[|host| + 1..] == rest
  {}

  /** The three host alternatives on `host:user/` at the start of `s`. */
  lemma ColonAlternatives(s: string, host: string, user: string)
    requires |host| >= 1 && |host| + 1 + |user| < |s|
    requires forall k | 0 <= k < |host| :: s[k] == host[k]
    requires forall k | 0 <= k < |user| :: s[|host| + 1 + k] == user[k]
    requires s[|host|] == ':' && s[|host| + 1 + |user|] == '/'
    requires (forall c | c in host :: HostChar(c) && c != '@') && PlainUser(user)
    ensures HostA(s).None? && HostB(s).None?
    ensures HostC(s, RunEnd(s, 0, NotSlash)) == HostC(s, |host| + 1)
  {
    assert s[|host| + 1] == user[0] && user[0] in user;
    ColonNotAB(s, host);
    ColonRunC(s, host, user);
  }

  /** `host:user/name[/sub...][/][#ref]`, such as `gitlab:user/name`. */
  lemma ColonForm(host: string, user: string, name: string, segs: seq<string>, slash: bool, ref: Option<string>)
    requires |host| >= 1 && (forall c | c in host :: HostChar(c) && c != '@') && StripTld(host) in Supported
    requires PlainUser(user) && PlainName(name) && PlainSegs(segs) && PlainRef(ref)
    ensures Parse(host + ":" + Path(user, name, segs, slash, ref))
         == Success(Build(StripTld(host), Tail(user, name, SubOf(segs), ref)))
  {
    var s := host + ":" + Path(user, name, segs, slash, ref);
    ColonPrefix(s, host, user, name, segs, slash, ref);
    ColonRead(s, host, user, name, segs, slash, ref);
    ParseOf(s, Reading(Some(host), Tail(user, name, SubOf(segs), ref)));
  }

  /** `host/user/name` whose dotted host is not supported. */
  lemma UnsupportedDottedHost(s: string, host: string, user: string, name: string, segs: seq<string>, slash: bool, ref: Option<string>)
    requires s == host + ['/'] + Path(user, name, segs, slash, ref) && !StartsWith(s, "https://")
    requires (forall c | c in host :: HostChar(c)) && HasInnerDot(host) && StripTld(host) !in Supported
    requires |user| >= 1 && (forall c | c in user :: UserChar(c)) && PlainName(name) && PlainSegs(segs) && PlainRef(ref)
    ensures Parse(s).Failure? && Parse(s).error.code == UnsupportedHost
  {
    DottedHostRead(s, host, user, name, segs, slash, ref);
  }

  lemma GitAtGithubCom()
    ensures (forall c | c in "git@github.com" :: HostChar(c)) && HasInnerDot("git@github.com")
    ensures StripTld("git@github.com") == "git@github"
  {
    assert "git@github.com"[10] == '.';
  }

  /** With `/` after `git@host`, a dotted host is taken by the first
      alternative together with its `git@`, so the host is not supported. */
  lemma SshSlashDottedHost()
    ensures Parse("git@github.com/u/r").Failure?
    ensures Parse("git@github.com/u/r").error.code == UnsupportedHost
  {
    var s := "git@github.com/u/r";
    assert s == "git@github.com" + ['/'] + Path("u", "r", [], false, None);
    NotPrefixAt(s, "https://", 0);
    GitAtGithubCom();
    UnsupportedDottedHost(s, "git@github.com", "u", "r", [], false, None);
  }

  lemma MyDotUser()
    ensures (forall c | c in "my.user" :: HostChar(c)) && HasInnerDot("my.user")
    ensures StripTld("my.user") == "my.user"
  {
    assert "my.user"[2] == '.';
  }

  /** A dotted user is read as a host once a subdirectory follows. */
  lemma DottedUser()
    ensures Parse("my.user/repo/x").Failure?
    ensures Parse("my.user/repo/x").error.code == UnsupportedHost
  {
    var s := "my.user/repo/x";
    assert s == "my.user" + ['/'] + Path("repo", "x", [], false, None);
    NotPrefixAt(s, "https://", 0);
    MyDotUser();
    UnsupportedDottedHost(s, "my.user", "repo", "x", [], false, None);
  }

  /** The characters of `host + [sep] + rest`. */
  lemma LeadingHostChars(s: string, host: string, sep: char, rest: string)
    requires s == host + [sep] + rest
    ensures |s| == |host| + 1 + |rest|
    ensures forall k | 0 <= k < |host| :: s[k] == host[k]
    ensures s[|host|] == sep && s[|host| + 1..] == rest
  {
    assert s[|host| + 1..] == rest;
  }

  lemma DottedPrefix(s: string, host: string, rest: string)
    requires s == host + ['/'] + rest && !StartsWith(s, "https://")
    requires (forall c | c in host :: HostChar(c)) && HasInnerDot(host)
    ensures |host| + 1 <= |s|
    ensures HostA(s) == Some((host, |host| + 1)) && s[|host| + 1..] == rest
  {
    LeadingHostChars(s, host, '/', rest);
    DottedHostA(s, host);
  }

  lemma DottedHostA(s: string, host: string)
    requires |host| < |s| && (forall k | 0 <= k < |host| :: s[k] == host[k]) && s[|host|] == '/'
    requires !StartsWith(s, "https://") && (forall c | c in host :: HostChar(c)) && HasInnerDot(host)
    ensures HostA(s) == Some((host, |host| + 1))
  {
    HostAOver(s, 0, host);
  }

  /** `host/user/name` with a dotted host and no `https://`. */
  lemma DottedHostRead(s: string, host: string, user: string, name: string, segs: seq<string>, slash: bool, ref: Option<string>)
    requires s == host + ['/'] + Path(user, name, segs, slash, ref) && !StartsWith(s, "https://")
    requires (forall c | c in host :: HostChar(c)) && HasInnerDot(host)
    requires |user| >= 1 && (forall c | c in user :: UserChar(c)) && PlainName(name) && PlainSegs(segs) && PlainRef(ref)
    ensures Read(s) == Some(Reading(Some(host), Tail(user, name, SubOf(segs), ref)))
  {
    DottedPrefix(s, host, Path(user, name, segs, slash, ref));
    HostedTailRead(s, host, |host| + 1, user, name, segs, slash, ref);
  }

  /** A source the first alternative reads up to `i`, with `user/name[/sub...][/][#ref]` after it. */
  lemma HostedTailRead(s: string, host: string, i: nat, user: string, name: string, segs: seq<string>, slash: bool, ref: Option<string>)
    requires HostA(s) == Some((host, i)) && i <= |s| && s[i..] == Path(user, name, segs, slash, ref)
    requires |user| >= 1 && (forall c | c in user :: UserChar(c)) && PlainName(name) && PlainSegs(segs) && PlainRef(ref)
    ensures Read(s) == Some(Reading(Some(host), Tail(user, name, SubOf(segs), ref)))
  {
    TailForm(s, i, user, name, segs, slash, ref);
    ReadIsA(s, host, i, Tail(user, name, SubOf(segs), ref));
  }
}

/** The write step of lib.ts: how one downloaded workflow and the local
    workflow of the same name become the file that is written, and the
    run over every workflow of a source. */
module MergeEngine {
  import opened Wrappers
  import opened Strings
  import opened Errors
  import opened Yaml
  import opened DotPath
  import opened Discovery
  import ParseRepo
  import opened OptionsJson
  import opened Provenance
  import opened Engine
  import opened Invocation
  import opened WorkTree

  /** The env the remote workflow declares, as object spread sees it. */
  function RemoteEnv(remote: Node): seq<Entry> {
    OwnEntries(EnvOf(remote))
  }

  /** `local.parsed?.env`, spread. */
  function LocalEnv(local: Node): seq<Entry> {
    OwnEntries(EnvOf(local))
  }

  /** The remote tree after `delete remote.parsed.env`, which happens only
      when that env has own properties. */
  function Stripped(remote: Node): Node {
    if |RemoteEnv(remote)| > 0 then DeletePath(remote, ["env"]) else remote
  }

  /** What the template step decides before anything is serialised: the
      merged env, the transformed remote tree, whether the tree must be
      dumped again (`needsUpdate`), and the options that are recorded. */
  datatype Draft = Draft(env: seq<Entry>, tree: Node, changed: bool, options: Options)

  /** The transformation of one template's tree (lib.ts, `applyTemplate`
      without the reads and the write). */
  function Prepare(load: string -> Option<Node>, exclude: Option<seq<string>>, settings: Option<seq<string>>,
                   local: Node, remote: Node): (r: Result<Draft, Error>)
    ensures remote.Null? ==> r == Failure(TypeError)
    ensures r.Failure? ==> r.error == TypeError || r.error.YamlLoadError?
    ensures r.Success? ==> r.value.options == Options(Effective(exclude), Effective(settings))
    ensures r.Success? ==> r.value.env == MergeEnv(RemoteEnv(remote), LocalEnv(local))
    ensures r.Success? ==> (r.value.changed <==>
      |RemoteEnv(remote)| > 0 || Effective(exclude).Some? || Effective(settings).Some?)
  {
    if remote.Null? then Failure(TypeError)
    else
      var ex, st := Effective(exclude), Effective(settings);
      var n0 := Stripped(remote);
      var n1 := if ex.Some? then DeleteAll(n0, ex.value) else n0;
      match (if st.Some? then SetAll(load, n1, st.value) else Success(n1))
      case Failure(e) => Failure(e)
      case Success(n2) =>
        Success(Draft(MergeEnv(RemoteEnv(remote), LocalEnv(local)), n2,
          |RemoteEnv(remote)| > 0 || ex.Some? || st.Some?, Options(ex, st)))
  }

  /** `Prepare` once the env and the exclusions are applied: what is left
      is the settings step. */
  lemma PrepareAfterDelete(load: string -> Option<Node>, exclude: Option<seq<string>>, settings: Option<seq<string>>,
                           local: Node, remote: Node)
    requires !remote.Null?
    ensures var ex, st := Effective(exclude), Effective(settings);
      var n1 := if ex.Some? then DeleteAll(Stripped(remote), ex.value) else Stripped(remote);
      var w := if st.Some? then SetAll(load, n1, st.value) else Success(n1);
      Prepare(load, exclude, settings, local, remote)
        == if w.Failure? then Failure(w.error)
           else Success(Draft(MergeEnv(RemoteEnv(remote), LocalEnv(local)), w.value,
             |RemoteEnv(remote)| > 0 || ex.Some? || st.Some?, Options(ex, st)))
  {}

  /** `{env}`, the document written above the header. */
  function EnvDocument(env: seq<Entry>): Node {
    Mapping([Entry("env", Mapping(env))])
  }

  /** What is written for one template: the remote text as it is
      (`verbatim`), or the dumped env, the comment lines and the body. */
  datatype Output = Copied(text: string) | Rendered(envText: string, lines: seq<string>, body: string)

  function Text(o: Output): string {
    match o
    case Copied(text) => text
    case Rendered(envText, lines, body) => Render(envText, lines, body)
  }

  /** The text generated from the two loaded files. */
  function Generate(codec: YamlCodec, source: string, url: string, exclude: Option<seq<string>>,
                    settings: Option<seq<string>>, verbatim: bool, local: YamlFile, remote: YamlFile): (r: Result<Output, Error>)
    ensures verbatim ==> r == Success(Copied(remote.text))
    ensures !verbatim && r.Success? ==> r.value.Rendered?
    ensures !verbatim ==> (r.Failure? <==>
      Prepare(codec.load, exclude, settings, local.parsed, remote.parsed).Failure?
      || codec.dump(EnvDocument(Prepare(codec.load, exclude, settings, local.parsed, remote.parsed).value.env)).None?
      || (Prepare(codec.load, exclude, settings, local.parsed, remote.parsed).value.changed
         && codec.dumpNoCompat(Prepare(codec.load, exclude, settings, local.parsed, remote.parsed).value.tree).None?))
    ensures !verbatim && r.Success? ==>
      var d := Prepare(codec.load, exclude, settings, local.parsed, remote.parsed).value;
      r.value.lines == Comments(source, url, d.options)
      && codec.dump(EnvDocument(d.env)) == Some(r.value.envText)
      && (d.changed ==> codec.dumpNoCompat(d.tree) == Some(r.value.body))
      && (!d.changed ==> r.value.body == remote.text)
  {
    if verbatim then Success(Copied(remote.text))
    else match Prepare(codec.load, exclude, settings, local.parsed, remote.parsed)
      case Failure(e) => Failure(e)
      case Success(d) =>
        match (if d.changed then codec.dumpNoCompat(d.tree) else Some(remote.text))
        case None => Failure(YamlDumpError)
        case Some(body) =>
          match codec.dump(EnvDocument(d.env))
          case None => Failure(YamlDumpError)
          case Some(envText) => Success(Rendered(envText, Comments(source, url, d.options), body))
  }

  /** One template, from reading both files to the text that is written:
      the local file is read before the remote one. */
  function TemplateResult(files: map<string, string>, clone: Clone, codec: YamlCodec, source: string, url: string,
                          exclude: Option<seq<string>>, settings: Option<seq<string>>, verbatim: bool,
                          filename: string): (r: Result<Output, Error>)
    ensures LoadYamlFile(files, LocalWorkflowPath(filename), codec.load).Failure? ==>
      r == Failure(YamlLoadError(LocalWorkflowPath(filename)))
    ensures LoadYamlFile(files, LocalWorkflowPath(filename), codec.load).Success? ==>
      LoadYamlFile(clone.files, filename, codec.load).Failure? ==> r == Failure(YamlLoadError(filename))
    ensures r.Success? ==>
      LoadYamlFile(files, LocalWorkflowPath(filename), codec.load).Success?
      && LoadYamlFile(clone.files, filename, codec.load).Success?
    ensures verbatim && r.Success? ==> r.value == Copied(if filename in clone.files then clone.files[filename] else "")
  {
    match LoadYamlFile(files, LocalWorkflowPath(filename), codec.load)
    case Failure(e) => Failure(e)
    case Success(local) =>
      match LoadYamlFile(clone.files, filename, codec.load)
      case Failure(e) => Failure(e)
      case Success(remote) => Generate(codec, source, url, exclude, settings, verbatim, local, remote)
  }

  // What the generated file holds

  /** The merged env holds the local value of every key the local
      workflow declares, and the remote value of every other key. */
  lemma EnvPrecedence(load: string -> Option<Node>, exclude: Option<seq<string>>, settings: Option<seq<string>>,
                      local: Node, remote: Node, k: string)
    requires WellFormed(local) && Prepare(load, exclude, settings, local, remote).Success?
    ensures var env := Prepare(load, exclude, settings, local, remote).value.env;
      Find(env, k) == if Find(LocalEnv(local), k).Some? then Find(LocalEnv(local), k) else Find(RemoteEnv(remote), k)
  {
    if EnvOf(local).Some? {
      FoundWellFormed(local.entries, "env");
    }
    OwnEntriesUnique(EnvOf(local));
    MergeEnvFind(RemoteEnv(remote), LocalEnv(local), k);
  }

  /** The merged env lists the remote keys first, in the remote order. */
  lemma EnvOrder(load: string -> Option<Node>, exclude: Option<seq<string>>, settings: Option<seq<string>>,
                 local: Node, remote: Node)
    requires Prepare(load, exclude, settings, local, remote).Success?
    ensures var env := Prepare(load, exclude, settings, local, remote).value.env;
      |env| >= |RemoteEnv(remote)| && Keys(env)[..|RemoteEnv(remote)|] == Keys(RemoteEnv(remote))
  {
    MergeEnvKeys(RemoteEnv(remote), LocalEnv(local));
  }

  /** The tree before the settings are applied. */
  function Pruned(exclude: Option<seq<string>>, remote: Node): Node {
    if Effective(exclude).Some? then DeleteAll(Stripped(remote), exclude.value) else Stripped(remote)
  }

  lemma PreparedTree(load: string -> Option<Node>, exclude: Option<seq<string>>, settings: Option<seq<string>>,
                     local: Node, remote: Node)
    requires Prepare(load, exclude, settings, local, remote).Success?
    ensures Effective(settings).None? ==>
      Prepare(load, exclude, settings, local, remote).value.tree == Pruned(exclude, remote)
    ensures Effective(settings).Some? ==>
      SetAll(load, Pruned(exclude, remote), settings.value)
        == Success(Prepare(load, exclude, settings, local, remote).value.tree)
  {}

  /** Only the effective lists take part in the transformation. */
  lemma PrepareSameLists(load: string -> Option<Node>, e1: Option<seq<string>>, s1: Option<seq<string>>,
                         e2: Option<seq<string>>, s2: Option<seq<string>>, local: Node, remote: Node)
    requires Effective(e1) == Effective(e2) && Effective(s1) == Effective(s2)
    ensures Prepare(load, e1, s1, local, remote) == Prepare(load, e2, s2, local, remote)
  {
    assert Pruned(e1, remote) == Pruned(e2, remote);
  }

  /** A path apart from every setting, from every excluded path, and from
      `env` when the remote env is dropped, reads as in the remote tree. */
  lemma OthersKept(load: string -> Option<Node>, exclude: Option<seq<string>>, settings: Option<seq<string>>,
                   local: Node, remote: Node, q: seq<string>)
    requires Prepare(load, exclude, settings, local, remote).Success?
    requires |RemoteEnv(remote)| > 0 ==> Apart(["env"], q)
    requires Effective(exclude).Some? ==> forall p | p in exclude.value :: Apart(Segments(p), q)
    requires Effective(settings).Some? ==>
      forall i | 0 <= i < |settings.value| :: Apart(Segments(SplitSetting(settings.value[i]).0), q)
    ensures Get(Prepare(load, exclude, settings, local, remote).value.tree, q) == Get(remote, q)
  {
    PreparedTree(load, exclude, settings, local, remote);
    var n0 := Stripped(remote);
    assert Get(n0, q) == Get(remote, q) by {
      if |RemoteEnv(remote)| > 0 {
        DeleteKeepsApart(remote, ["env"], q);
      }
    }
    var n1 := Pruned(exclude, remote);
    assert Get(n1, q) == Get(remote, q) by {
      if Effective(exclude).Some? {
        DeleteAllKeepsApart(n0, exclude.value, q);
      }
    }
    if Effective(settings).Some? {
      SetAllKeepsApart(load, n1, settings.value, q);
    }
  }

  /** An excluded path is gone, unless a setting lies on it or below it,
      or above it. */
  lemma ExcludedGone(load: string -> Option<Node>, exclude: Option<seq<string>>, settings: Option<seq<string>>,
                     local: Node, remote: Node, i: nat)
    requires Prepare(load, exclude, settings, local, remote).Success?
    requires Effective(exclude).Some? && i < |exclude.value|
    requires Effective(settings).Some? ==>
      forall j | 0 <= j < |settings.value| :: Apart(Segments(SplitSetting(settings.value[j]).0), Segments(exclude.value[i]))
    ensures Get(Prepare(load, exclude, settings, local, remote).value.tree, Segments(exclude.value[i])).None?
  {
    PreparedTree(load, exclude, settings, local, remote);
    var q := Segments(exclude.value[i]);
    DeleteAllRemoves(Stripped(remote), exclude.value, i);
    if Effective(settings).Some? {
      SetAllKeepsApart(load, Pruned(exclude, remote), settings.value, q);
    }
  }

  /** A setting reads back at its path, unless a later setting lies on,
      above or below that path; the remote workflow must be a mapping, as
      `dot-prop` does not write into other values. */
  lemma SettingApplied(load: string -> Option<Node>, exclude: Option<seq<string>>, settings: Option<seq<string>>,
                       local: Node, remote: Node, i: nat)
    requires remote.Mapping? && Prepare(load, exclude, settings, local, remote).Success?
    requires Effective(settings).Some? && i < |settings.value|
    requires forall j | i < j < |settings.value| ::
      Apart(Segments(SplitSetting(settings.value[j]).0), Segments(SplitSetting(settings.value[i]).0))
    ensures Get(Prepare(load, exclude, settings, local, remote).value.tree, Segments(SplitSetting(settings.value[i]).0))
      == SettingValue(load, settings.value[i])
  {
    PreparedTree(load, exclude, settings, local, remote);
    var n0 := Stripped(remote);
    assert n0.Mapping?;
    if Effective(exclude).Some? {
      DeleteAllMapping(n0, exclude.value);
    }
    SetAllHolds(load, Pruned(exclude, remote), settings.value, i);
  }

  /** A remote env with own properties is not left in the tree, unless a
      setting writes to `env` or below it. */
  lemma EnvRemoved(load: string -> Option<Node>, exclude: Option<seq<string>>, settings: Option<seq<string>>,
                   local: Node, remote: Node)
    requires Prepare(load, exclude, settings, local, remote).Success? && |RemoteEnv(remote)| > 0
    requires Effective(settings).Some? ==>
      forall j | 0 <= j < |settings.value| :: Apart(Segments(SplitSetting(settings.value[j]).0), ["env"])
    ensures Get(Prepare(load, exclude, settings, local, remote).value.tree, ["env"]).None?
  {
    PreparedTree(load, exclude, settings, local, remote);
    DeleteRemovesBelow(remote, ["env"], ["env"]);
    if Effective(exclude).Some? {
      DeleteAllKeepsAbsent(Stripped(remote), exclude.value, ["env"]);
    }
    if Effective(settings).Some? {
      SetAllKeepsApart(load, Pruned(exclude, remote), settings.value, ["env"]);
    }
  }

  /** The step fails exactly when the remote workflow is empty or `null`,
      or when some value to set is not valid YAML. */
  lemma PrepareFails(load: string -> Option<Node>, exclude: Option<seq<string>>, settings: Option<seq<string>>,
                     local: Node, remote: Node)
    ensures Prepare(load, exclude, settings, local, remote).Failure? <==>
      remote.Null? || (Effective(settings).Some? && exists s | s in settings.value :: SettingValue(load, s).None?)
  {
    if !remote.Null? && Effective(settings).Some? {
      SetAllSuccess(load, Pruned(exclude, remote), settings.value);
    }
  }

  /** Without an env to drop and without options, the remote text is
      written unchanged below the header. */
  lemma UnchangedKeepsText(codec: YamlCodec, source: string, url: string, exclude: Option<seq<string>>,
                           settings: Option<seq<string>>, local: YamlFile, remote: YamlFile)
    requires Generate(codec, source, url, exclude, settings, false, local, remote).Success?
    requires |RemoteEnv(remote.parsed)| == 0 && Effective(exclude).None? && Effective(settings).None?
    ensures var o := Generate(codec, source, url, exclude, settings, false, local, remote).value;
      o.body == remote.text && o.lines == [GeneratedLine + source, SourceLine + url]
  {}

  /** The header written above a generated workflow reads back as its
      source and its effective options, provided the dumped env holds no
      `#` and no line of the body starts like an options line. */
  lemma HeaderReadsBack(codec: YamlCodec, source: string, url: string, exclude: Option<seq<string>>,
                        settings: Option<seq<string>>, local: YamlFile, remote: YamlFile)
    requires Generate(codec, source, url, exclude, settings, false, local, remote).Success?
    requires |source| >= 1 && '\n' !in source && '\n' !in url
    requires var o := Generate(codec, source, url, exclude, settings, false, local, remote).value;
      '#' !in o.envText && NoOptionsLine(o.body)
    ensures var o := Generate(codec, source, url, exclude, settings, false, local, remote).value;
      var opts := Options(Effective(exclude), Effective(settings));
      ParseHeader(Text(o)) == Some(Current(source, if opts.exclude.Some? || opts.settings.Some? then Some(Encode(opts)) else None))
  {
    var o := Generate(codec, source, url, exclude, settings, false, local, remote).value;
    var opts := Options(Effective(exclude), Effective(settings));
    assert o.lines == Comments(source, url, opts);
    RenderRoundTrip(o.envText, source, url, opts, o.body);
  }

  // The step as the source performs it

  /** `for (const path of exclude) dotProp.delete(tree, path)`, in place. */
  method DeleteEach(n: Node, paths: seq<string>) returns (m: Node)
    ensures m == DeleteAll(n, paths)
  {
    m := n;
    var i := 0;
    while i < |paths|
      invariant i <= |paths|
      invariant m == DeleteAll(n, paths[..i])
    {
      assert paths[..i + 1][..i] == paths[..i];
      m := DeletePath(m, Segments(paths[i]));
      i := i + 1;
    }
    assert paths[..i] == paths;
  }

  /** `for (const setting of set) dotProp.set(tree, path, yaml.load(value))`,
      in place, stopping at the first value the loader rejects. */
  method SetEach(load: string -> Option<Node>, n: Node, settings: seq<string>) returns (r: Result<Node, Error>)
    ensures r == SetAll(load, n, settings)
  {
    var m := n;
    var i := 0;
    while i < |settings|
      invariant i <= |settings|
      invariant SetAll(load, n, settings[..i]) == Success(m)
    {
      assert settings[..i + 1][..i] == settings[..i];
      var (path, value) := SplitSetting(settings[i]);
      var loaded := load(value);
      if loaded.None? {
        SetAllFailureExtends(load, n, settings, i + 1);
        return Failure(YamlLoadError(value));
      }
      m := SetPath(m, Segments(path), loaded.value);
      i := i + 1;
    }
    assert settings[..i] == settings;
    r := Success(m);
  }

  lemma TemplateResultOf(files: map<string, string>, clone: Clone, codec: YamlCodec, source: string, url: string,
                         exclude: Option<seq<string>>, settings: Option<seq<string>>, verbatim: bool,
                         filename: string, local: YamlFile, remote: YamlFile)
    requires LoadYamlFile(files, LocalWorkflowPath(filename), codec.load) == Success(local)
    requires LoadYamlFile(clone.files, filename, codec.load) == Success(remote)
    ensures TemplateResult(files, clone, codec, source, url, exclude, settings, verbatim, filename)
      == Generate(codec, source, url, exclude, settings, verbatim, local, remote)
  {}

  /** The last two steps of the generation: dumping the body, then the env. */
  lemma GenerateFrom(codec: YamlCodec, source: string, url: string, exclude: Option<seq<string>>,
                     settings: Option<seq<string>>, local: YamlFile, remote: YamlFile, d: Draft)
    requires Prepare(codec.load, exclude, settings, local.parsed, remote.parsed) == Success(d)
    ensures var body := if d.changed then codec.dumpNoCompat(d.tree) else Some(remote.text);
      var envText := codec.dump(EnvDocument(d.env));
      Generate(codec, source, url, exclude, settings, false, local, remote)
        == if body.None? || envText.None? then Failure(YamlDumpError)
           else Success(Rendered(envText.value, Comments(source, url, d.options), body.value))
  {}

  /** `applyTemplate(filename)`: read both files, transform the remote
      tree in place, and write the local workflow; a failing step writes
      nothing. */
  method ApplyTemplate(tree: Tree, clone: Clone, codec: YamlCodec, source: string, url: string,
                       exclude: Option<seq<string>>, settings: Option<seq<string>>, verbatim: bool,
                       filename: string) returns (r: Result<Output, Error>)
    modifies tree
    ensures r == TemplateResult(old(tree.files), clone, codec, source, url, exclude, settings, verbatim, filename)
    ensures r.Success? ==> tree.files == old(tree.files)[LocalWorkflowPath(filename) := Text(r.value)]
    ensures r.Failure? ==> tree.files == old(tree.files)
  {
    var localPath := LocalWorkflowPath(filename);
    var localFile := LoadYamlFile(tree.files, localPath, codec.load);
    if localFile.Failure? {
      return Failure(localFile.error);
    }
    var remoteFile := LoadYamlFile(clone.files, filename, codec.load);
    if remoteFile.Failure? {
      return Failure(remoteFile.error);
    }
    var local, remote := localFile.value, remoteFile.value;
    TemplateResultOf(old(tree.files), clone, codec, source, url, exclude, settings, verbatim, filename, local, remote);
    if verbatim {
      tree.WriteFile(localPath, remote.text);
      return Success(Copied(remote.text));
    }
    r := Transform(codec, source, url, exclude, settings, local, remote);
    if r.Success? {
      tree.WriteFile(localPath, Text(r.value));
    }
  }

  /** The body of `applyTemplate` between reading and writing, when not
      `verbatim`: the remote tree is changed in place and dumped again
      only when something changed (`needsUpdate`). */
  method Transform(codec: YamlCodec, source: string, url: string, exclude: Option<seq<string>>,
                   settings: Option<seq<string>>, local: YamlFile, remote: YamlFile) returns (r: Result<Output, Error>)
    ensures r == Generate(codec, source, url, exclude, settings, false, local, remote)
  {
    if remote.parsed.Null? {
      return Failure(TypeError);
    }

    PrepareAfterDelete(codec.load, exclude, settings, local.parsed, remote.parsed);
    var needsUpdate := false;
    var env := MergeEnv(RemoteEnv(remote.parsed), LocalEnv(local.parsed));
    var parsed := remote.parsed;
    if |RemoteEnv(remote.parsed)| > 0 {
      parsed := DeletePath(parsed, ["env"]);
      needsUpdate := true;
    }

    var ex := exclude;
    if ex.Some? && |ex.value| > 0 {
      parsed := DeleteEach(parsed, ex.value);
      needsUpdate := true;
    } else {
      ex := None;
    }
    assert parsed == if ex.Some? then DeleteAll(Stripped(remote.parsed), ex.value) else Stripped(remote.parsed);
    var st := settings;
    if st.Some? && |st.value| > 0 {
      var written := SetEach(codec.load, parsed, st.value);
      if written.Failure? {
        return Failure(written.error);
      }
      parsed := written.value;
      needsUpdate := true;
    } else {
      st := None;
    }
    assert Prepare(codec.load, exclude, settings, local.parsed, remote.parsed)
      == Success(Draft(env, parsed, needsUpdate, Options(ex, st)));
    GenerateFrom(codec, source, url, exclude, settings, local, remote, Draft(env, parsed, needsUpdate, Options(ex, st)));

    var body := remote.text;
    if needsUpdate {
      var dumped := codec.dumpNoCompat(parsed);
      if dumped.None? {
        return Failure(YamlDumpError);
      }
      body := dumped.value;
    }
    var comments := Comments(source, url, Options(ex, st));
    var envText := codec.dump(EnvDocument(env));
    if envText.None? {
      return Failure(YamlDumpError);
    }
    r := Success(Rendered(envText.value, comments, body));
  }

  // Every template of one source

  /** The files after a run, and the error the run reports. */
  datatype Run = Run(files: map<string, string>, error: Option<Error>)

  /** How one template is generated from the local tree as it is when
      the template's turn comes. */
  type Generator = (map<string, string>, string) -> Result<string, Error>

  /** `Promise.all(templates.map(applyTemplate))`, taken in template
      order: every template is attempted, a failing one writes nothing,
      and the first failure is the error of the run. */
  function ApplyEach(files: map<string, string>, gen: Generator, templates: seq<string>): (r: Run)
    ensures files.Keys <= r.files.Keys
    decreases |templates|
  {
    if |templates| == 0 then Run(files, None)
    else
      var run := ApplyEach(files, gen, templates[..|templates| - 1]);
      var t := templates[|templates| - 1];
      match gen(run.files, t)
      case Success(text) => Run(run.files[LocalWorkflowPath(t) := text], run.error)
      case Failure(e) => Run(run.files, if run.error.Some? then run.error else Some(e))
  }

  /** `f` and `g` hold the same file at `p`, or both hold none. */
  predicate Agree(f: map<string, string>, g: map<string, string>, p: string) {
    (p in f <==> p in g) && (p in f ==> f[p] == g[p])
  }

  /** A generator that reads only the template's own local workflow. */
  ghost predicate ReadsOwnFile(gen: Generator) {
    forall f, g, t | Agree(f, g, LocalWorkflowPath(t)) :: gen(f, t) == gen(g, t)
  }

  function TextOf(r: Result<Output, Error>): Result<string, Error> {
    if r.Success? then Success(Text(r.value)) else Failure(r.error)
  }

  /** The generator of lib.ts. */
  function TemplateGenerator(clone: Clone, codec: YamlCodec, source: string, url: string,
                             exclude: Option<seq<string>>, settings: Option<seq<string>>, verbatim: bool): Generator
  {
    (f: map<string, string>, t: string) => TextOf(TemplateResult(f, clone, codec, source, url, exclude, settings, verbatim, t))
  }

  /** Only the local file of a template takes part in its generation. */
  lemma TemplateGeneratorReadsOwnFile(clone: Clone, codec: YamlCodec, source: string, url: string,
                                      exclude: Option<seq<string>>, settings: Option<seq<string>>, verbatim: bool)
    ensures ReadsOwnFile(TemplateGenerator(clone, codec, source, url, exclude, settings, verbatim))
  {
    var gen := TemplateGenerator(clone, codec, source, url, exclude, settings, verbatim);
    forall f, g, t | Agree(f, g, LocalWorkflowPath(t)) ensures gen(f, t) == gen(g, t) {
      assert LoadYamlFile(f, LocalWorkflowPath(t), codec.load) == LoadYamlFile(g, LocalWorkflowPath(t), codec.load);
    }
  }

  /** One more template: the run so far, then that template on the tree
      the run left. */
  lemma ApplyEachSnoc(files: map<string, string>, gen: Generator, ts: seq<string>, i: nat)
    requires i < |ts|
    ensures var run := ApplyEach(files, gen, ts[..i]);
      ApplyEach(files, gen, ts[..i + 1])
        == match gen(run.files, ts[i])
           case Success(text) => Run(run.files[LocalWorkflowPath(ts[i]) := text], run.error)
           case Failure(e) => Run(run.files, if run.error.Some? then run.error else Some(e))
  {
    assert ts[..i + 1][..i] == ts[..i];
  }

  /** A file that is no template's local workflow is left as it was. */
  lemma {:induction false} ApplyEachElsewhere(files: map<string, string>, gen: Generator, templates: seq<string>, p: string)
    requires forall t | t in templates :: LocalWorkflowPath(t) != p
    ensures Agree(ApplyEach(files, gen, templates).files, files, p)
    decreases |templates|
  {
    if |templates| > 0 {
      var init := templates[..|templates| - 1];
      assert forall t | t in init :: t in templates;
      ApplyEachElsewhere(files, gen, init, p);
      assert templates[|templates| - 1] in templates;
    }
  }

  predicate DistinctTargets(templates: seq<string>) {
    forall a, b | 0 <= a < b < |templates| :: LocalWorkflowPath(templates[a]) != LocalWorkflowPath(templates[b])
  }

  /** The last template reads its local file as it was before the run. */
  lemma LastSeesOriginal(files: map<string, string>, gen: Generator, templates: seq<string>)
    requires |templates| > 0 && DistinctTargets(templates) && ReadsOwnFile(gen)
    ensures var t := templates[|templates| - 1];
      Agree(ApplyEach(files, gen, templates[..|templates| - 1]).files, files, LocalWorkflowPath(t))
    ensures var t := templates[|templates| - 1];
      gen(ApplyEach(files, gen, templates[..|templates| - 1]).files, t) == gen(files, t)
  {
    var init := templates[..|templates| - 1];
    var t := templates[|templates| - 1];
    forall u | u in init ensures LocalWorkflowPath(u) != LocalWorkflowPath(t) {
      var a :| 0 <= a < |init| && init[a] == u;
      assert templates[a] == u;
    }
    ApplyEachElsewhere(files, gen, init, LocalWorkflowPath(t));
  }

  /** When the templates write to different files, each file holds what
      its template generates from the tree as it was before the run, and
      a failing template leaves its file alone: the order in which the
      concurrent writes happen does not matter. */
  lemma {:induction false} ApplyEachIndependent(files: map<string, string>, gen: Generator, templates: seq<string>, i: nat)
    requires DistinctTargets(templates) && ReadsOwnFile(gen) && i < |templates|
    ensures var run := ApplyEach(files, gen, templates);
      var p := LocalWorkflowPath(templates[i]);
      var r := gen(files, templates[i]);
      (r.Success? ==> p in run.files && run.files[p] == r.value) && (r.Failure? ==> Agree(run.files, files, p))
    decreases |templates|
  {
    var last := |templates| - 1;
    var init := templates[..last];
    var prev := ApplyEach(files, gen, init).files;
    var q := LocalWorkflowPath(templates[last]);
    LastSeesOriginal(files, gen, templates);
    ApplyEachLastFiles(files, gen, templates);
    if i < last {
      var p := LocalWorkflowPath(templates[i]);
      assert init[i] == templates[i];
      assert DistinctTargets(init);
      ApplyEachIndependent(files, gen, init, i);
      assert q != p;
    }
  }

  /** The files after the last template: its text at its target when it
      succeeds, the files before it otherwise. */
  lemma ApplyEachLastFiles(files: map<string, string>, gen: Generator, templates: seq<string>)
    requires |templates| > 0
    ensures var prev := ApplyEach(files, gen, templates[..|templates| - 1]).files;
      var t := templates[|templates| - 1];
      ApplyEach(files, gen, templates).files
        == if gen(prev, t).Success? then prev[LocalWorkflowPath(t) := gen(prev, t).value] else prev
  {}

  /** The run reports no error exactly when every template succeeds on
      the tree as it was. */
  lemma {:induction false} ApplyEachSucceeds(files: map<string, string>, gen: Generator, templates: seq<string>)
    requires DistinctTargets(templates) && ReadsOwnFile(gen)
    ensures ApplyEach(files, gen, templates).error.None? <==> forall t | t in templates :: gen(files, t).Success?
    decreases |templates|
  {
    if |templates| > 0 {
      var last := |templates| - 1;
      var init := templates[..last];
      assert DistinctTargets(init);
      ApplyEachSucceeds(files, gen, init);
      LastSeesOriginal(files, gen, templates);
      ApplyEachLastError(files, gen, templates);
      LastMembers(templates);
    }
  }

  /** The run reports no error after the last template exactly when it
      reported none before it and the last template succeeds. */
  lemma ApplyEachLastError(files: map<string, string>, gen: Generator, templates: seq<string>)
    requires |templates| > 0
    ensures var run := ApplyEach(files, gen, templates[..|templates| - 1]);
      var t := templates[|templates| - 1];
      ApplyEach(files, gen, templates).error.None? <==> run.error.None? && gen(run.files, t).Success?
  {}

  /** The part of `ghat` that runs once the options are accepted: the
      source is parsed (as the downloader does before fetching), its
      workflows are found, and each is applied. */
  function SourceRun(files: map<string, string>, clone: Clone, codec: YamlCodec, source: string,
                     exclude: Option<seq<string>>, settings: Option<seq<string>>, verbatim: bool): (r: Run)
    ensures r.error.None? ==>
      ParseRepo.Parse(source).Success? && GetWorkflows(clone.root, clone.workflows).Success?
      && |GetWorkflows(clone.root, clone.workflows).value| > 0
    ensures files.Keys <= r.files.Keys
    ensures ParseRepo.Parse(source).Failure? || GetWorkflows(clone.root, clone.workflows).Failure? ==> r.files == files
  {
    match ParseRepo.Parse(source)
    case Failure(e) => Run(files, Some(e))
    case Success(repo) =>
      match GetWorkflows(clone.root, clone.workflows)
      case Failure(e) => Run(files, Some(e))
      case Success(templates) =>
        if |templates| == 0 then Run(files, Some(InputError("No workflows found in " + source)))
        else ApplyEach(files, TemplateGenerator(clone, codec, source, repo.url, exclude, settings, verbatim), templates)
  }

  /** A source whose download holds no workflow is refused, and nothing
      is written. */
  lemma NoWorkflowsRefused(files: map<string, string>, clone: Clone, codec: YamlCodec, source: string,
                           exclude: Option<seq<string>>, settings: Option<seq<string>>, verbatim: bool)
    requires ParseRepo.Parse(source).Success? && GetWorkflows(clone.root, clone.workflows) == Success([])
    ensures SourceRun(files, clone, codec, source, exclude, settings, verbatim)
      == Run(files, Some(InputError("No workflows found in " + source)))
  {}

  /** With a well-formed download, the run succeeds exactly when the
      source parses, the download holds workflows, and every one of them
      is generated. */
  lemma SourceRunSucceeds(files: map<string, string>, clone: Clone, codec: YamlCodec, source: string,
                          exclude: Option<seq<string>>, settings: Option<seq<string>>, verbatim: bool)
    requires SaneListing(clone.root) && SaneListing(clone.workflows)
    ensures SourceRun(files, clone, codec, source, exclude, settings, verbatim).error.None? <==>
      ParseRepo.Parse(source).Success? && GetWorkflows(clone.root, clone.workflows).Success?
      && |GetWorkflows(clone.root, clone.workflows).value| > 0
      && forall t | t in GetWorkflows(clone.root, clone.workflows).value ::
           TemplateResult(files, clone, codec, source, ParseRepo.Parse(source).value.url,
                          exclude, settings, verbatim, t).Success?
  {
    if ParseRepo.Parse(source).Success? && GetWorkflows(clone.root, clone.workflows).Success? {
      var url := ParseRepo.Parse(source).value.url;
      DistinctLocalPaths(clone.root, clone.workflows);
      TemplateGeneratorReadsOwnFile(clone, codec, source, url, exclude, settings, verbatim);
      ApplyEachSucceeds(files, TemplateGenerator(clone, codec, source, url, exclude, settings, verbatim),
        GetWorkflows(clone.root, clone.workflows).value);
    }
  }

  lemma SourceRunOf(files: map<string, string>, clone: Clone, codec: YamlCodec, source: string,
                    exclude: Option<seq<string>>, settings: Option<seq<string>>, verbatim: bool)
    requires ParseRepo.Parse(source).Success? && GetWorkflows(clone.root, clone.workflows).Success?
    requires |GetWorkflows(clone.root, clone.workflows).value| > 0
    ensures SourceRun(files, clone, codec, source, exclude, settings, verbatim)
      == ApplyEach(files, TemplateGenerator(clone, codec, source, ParseRepo.Parse(source).value.url, exclude, settings, verbatim),
                   GetWorkflows(clone.root, clone.workflows).value)
  {}

  /** `ghat(source, options)` after the checks: every template is
      attempted; the error of the first failing one is reported. */
  method ApplySource(tree: Tree, clone: Clone, codec: YamlCodec, source: string,
                     exclude: Option<seq<string>>, settings: Option<seq<string>>, verbatim: bool)
    returns (error: Option<Error>)
    modifies tree
    ensures Run(tree.files, error) == SourceRun(old(tree.files), clone, codec, source, exclude, settings, verbatim)
  {
    var repo := ParseRepo.Parse(source);
    if repo.Failure? {
      return Some(repo.error);
    }
    var templates := GetWorkflows(clone.root, clone.workflows);
    if templates.Failure? {
      return Some(templates.error);
    }
    if |templates.value| == 0 {
      return Some(InputError("No workflows found in " + source));
    }
    error := ApplyTemplates(tree, clone, codec, source, repo.value.url, exclude, settings, verbatim, templates.value);
    SourceRunOf(old(tree.files), clone, codec, source, exclude, settings, verbatim);
  }

  /** The templates one after another, each attempted whatever happened
      to the ones before it. */
  method ApplyTemplates(tree: Tree, clone: Clone, codec: YamlCodec, source: string, url: string,
                        exclude: Option<seq<string>>, settings: Option<seq<string>>, verbatim: bool,
                        ts: seq<string>) returns (error: Option<Error>)
    modifies tree
    ensures Run(tree.files, error)
      == ApplyEach(old(tree.files), TemplateGenerator(clone, codec, source, url, exclude, settings, verbatim), ts)
  {
    ghost var gen := TemplateGenerator(clone, codec, source, url, exclude, settings, verbatim);
    error := None;
    var i := 0;
    while i < |ts|
      invariant i <= |ts|
      invariant Run(tree.files, error) == ApplyEach(old(tree.files), gen, ts[..i])
    {
      ApplyEachSnoc(old(tree.files), gen, ts, i);
      ghost var before := tree.files;
      var r := ApplyTemplate(tree, clone, codec, source, url, exclude, settings, verbatim, ts[i]);
      assert TextOf(r) == gen(before, ts[i]);
      if r.Failure? && error.None? {
        error := Some(r.error);
      }
      i := i + 1;
    }
    assert ts[..i] == ts;
  }
}

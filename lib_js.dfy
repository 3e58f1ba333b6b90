/** The first generation of the command (lib.js): the same merge of a
    downloaded workflow with the local one as lib.ts, but the options are
    always lists, there is no `verbatim`, and the file names the command
    line it was generated with instead of recording source and options. */
module LibJs {
  import opened Wrappers
  import opened Errors
  import opened Yaml
  import opened DotPath
  import opened Discovery
  import ParseRepo
  import opened OptionsJson
  import opened Provenance
  import opened Engine
  import opened Invocation
  import opened WorkTree
  import opened MergeEngine
  import opened Resync

  const NoSourceMessage := "No source was specified"

  /** What lib.js writes for one template: the dumped `{env}`, the
      shell-escaped command-line arguments of the legacy header, and the
      workflow body. */
  datatype LegacyOutput = LegacyOutput(envText: string, args: string, body: string)

  function LegacyText(o: LegacyOutput): string {
    LegacyRender(o.envText, o.args, o.body)
  }

  /** The text generated from the two loaded files. `exclude` and `set`
      are arrays here; an empty one does nothing. */
  function LegacyGenerate(codec: YamlCodec, args: string, exclude: seq<string>, settings: seq<string>,
                          local: YamlFile, remote: YamlFile): (r: Result<LegacyOutput, Error>)
    ensures r.Success? ==> r.value.args == args
    ensures r.Failure? ==> r.error == TypeError || r.error.YamlLoadError? || r.error == YamlDumpError
    ensures r.Failure? <==>
      Prepare(codec.load, Some(exclude), Some(settings), local.parsed, remote.parsed).Failure?
      || codec.dump(EnvDocument(Prepare(codec.load, Some(exclude), Some(settings), local.parsed, remote.parsed).value.env)).None?
      || (Prepare(codec.load, Some(exclude), Some(settings), local.parsed, remote.parsed).value.changed
         && codec.dumpNoCompat(Prepare(codec.load, Some(exclude), Some(settings), local.parsed, remote.parsed).value.tree).None?)
    ensures r.Success? ==>
      var d := Prepare(codec.load, Some(exclude), Some(settings), local.parsed, remote.parsed).value;
      codec.dump(EnvDocument(d.env)) == Some(r.value.envText)
      && (d.changed ==> codec.dumpNoCompat(d.tree) == Some(r.value.body))
      && (!d.changed ==> r.value.body == remote.text)
  {
    match Prepare(codec.load, Some(exclude), Some(settings), local.parsed, remote.parsed)
    case Failure(e) => Failure(e)
    case Success(d) =>
      match (if d.changed then codec.dumpNoCompat(d.tree) else Some(remote.text))
      case None => Failure(YamlDumpError)
      case Some(body) =>
        match codec.dump(EnvDocument(d.env))
        case None => Failure(YamlDumpError)
        case Some(envText) => Success(LegacyOutput(envText, args, body))
  }

  /** One template, from reading both files to the text that is written. */
  function LegacyTemplateResult(files: map<string, string>, clone: Clone, codec: YamlCodec, args: string,
                                exclude: seq<string>, settings: seq<string>, filename: string): (r: Result<LegacyOutput, Error>)
    ensures LoadYamlFile(files, LocalWorkflowPath(filename), codec.load).Failure? ==>
      r == Failure(YamlLoadError(LocalWorkflowPath(filename)))
    ensures LoadYamlFile(files, LocalWorkflowPath(filename), codec.load).Success? ==>
      LoadYamlFile(clone.files, filename, codec.load).Failure? ==> r == Failure(YamlLoadError(filename))
    ensures r.Success? ==> r.value.args == args
  {
    match LoadYamlFile(files, LocalWorkflowPath(filename), codec.load)
    case Failure(e) => Failure(e)
    case Success(local) =>
      match LoadYamlFile(clone.files, filename, codec.load)
      case Failure(e) => Failure(e)
      case Success(remote) => LegacyGenerate(codec, args, exclude, settings, local, remote)
  }

  // What the two generations have in common

  /** The two generations transform a template identically: lib.js
      succeeds exactly when lib.ts given the same lists as arrays does,
      with the same env text and the same body; only the header differs. */
  lemma SameAsCurrent(codec: YamlCodec, args: string, source: string, url: string,
                      exclude: seq<string>, settings: seq<string>, local: YamlFile, remote: YamlFile)
    ensures var l := LegacyGenerate(codec, args, exclude, settings, local, remote);
      var c := Generate(codec, source, url, Some(exclude), Some(settings), false, local, remote);
      (l.Success? <==> c.Success?)
      && (l.Success? ==> l.value.envText == c.value.envText && l.value.body == c.value.body)
      && (l.Failure? ==> l.error == c.error)
  {}

  /** The header lib.js writes reads back, through the lib.ts header
      expression, as the legacy form with the same arguments, provided the
      dumped env holds no `#` and the arguments hold no backtick or line
      break. */
  lemma LegacyHeaderReadsBack(codec: YamlCodec, args: string, exclude: seq<string>, settings: seq<string>,
                              local: YamlFile, remote: YamlFile)
    requires LegacyGenerate(codec, args, exclude, settings, local, remote).Success?
    requires '#' !in LegacyGenerate(codec, args, exclude, settings, local, remote).value.envText
    requires |args| >= 1 && forall c | c in args :: ArgChar(c)
    ensures ParseHeader(LegacyText(LegacyGenerate(codec, args, exclude, settings, local, remote).value))
      == Some(Legacy(args))
  {
    var o := LegacyGenerate(codec, args, exclude, settings, local, remote).value;
    LegacyRoundTrip(o.envText, args, o.body);
  }

  /** A workflow lib.js wrote is picked up by the resync of lib.ts as a
      legacy command with the arguments it was generated with. */
  lemma LegacyRecognised(files: map<string, string>, path: string, o: LegacyOutput)
    requires path in files && files[path] == LegacyText(o)
    requires '#' !in o.envText && |o.args| >= 1 && forall c | c in o.args :: ArgChar(c)
    ensures ParseGhatConfig(files, path) == Success(Some(LegacyCommand(path, o.args)))
  {
    LegacyRoundTrip(o.envText, o.args, o.body);
  }

  // The step as the source performs it

  lemma LegacyTemplateResultOf(files: map<string, string>, clone: Clone, codec: YamlCodec, args: string,
                               exclude: seq<string>, settings: seq<string>, filename: string,
                               local: YamlFile, remote: YamlFile)
    requires LoadYamlFile(files, LocalWorkflowPath(filename), codec.load) == Success(local)
    requires LoadYamlFile(clone.files, filename, codec.load) == Success(remote)
    ensures LegacyTemplateResult(files, clone, codec, args, exclude, settings, filename)
      == LegacyGenerate(codec, args, exclude, settings, local, remote)
  {}

  lemma LegacyGenerateFrom(codec: YamlCodec, args: string, exclude: seq<string>, settings: seq<string>,
                           local: YamlFile, remote: YamlFile, d: Draft)
    requires Prepare(codec.load, Some(exclude), Some(settings), local.parsed, remote.parsed) == Success(d)
    ensures var body := if d.changed then codec.dumpNoCompat(d.tree) else Some(remote.text);
      var envText := codec.dump(EnvDocument(d.env));
      LegacyGenerate(codec, args, exclude, settings, local, remote)
        == if body.None? || envText.None? then Failure(YamlDumpError)
           else Success(LegacyOutput(envText.value, args, body.value))
  {}

  /** `applyTemplate(filename)` of lib.js: read both files, transform the
      remote tree in place, and write the local workflow; a failing step
      writes nothing. */
  method LegacyApplyTemplate(tree: Tree, clone: Clone, codec: YamlCodec, args: string,
                             exclude: seq<string>, settings: seq<string>, filename: string)
    returns (r: Result<LegacyOutput, Error>)
    modifies tree
    ensures r == LegacyTemplateResult(old(tree.files), clone, codec, args, exclude, settings, filename)
    ensures r.Success? ==> tree.files == old(tree.files)[LocalWorkflowPath(filename) := LegacyText(r.value)]
    ensures r.Failure? ==> tree.files == old(tree.files)
  {
    var localPath := LocalWorkflowPath(filename);
    var localFile := LoadYamlFile(tree.files, localPath, codec.load);
    if localFile.Failure? {
      return Failure(localFile.error);
    }
    var remoteFile := LoadYamlFile(clone.files, filename, codec.load);
    if remoteFile.Failure? {
      return Failure(remoteFile.error);
    }
    LegacyTemplateResultOf(old(tree.files), clone, codec, args, exclude, settings, filename,
      localFile.value, remoteFile.value);
    r := LegacyTransform(codec, args, exclude, settings, localFile.value, remoteFile.value);
    if r.Success? {
      tree.WriteFile(localPath, LegacyText(r.value));
    }
  }

  /** The body of lib.js's `applyTemplate` between reading and writing. */
  method LegacyTransform(codec: YamlCodec, args: string, exclude: seq<string>, settings: seq<string>,
                         local: YamlFile, remote: YamlFile) returns (r: Result<LegacyOutput, Error>)
    ensures r == LegacyGenerate(codec, args, exclude, settings, local, remote)
  {
    if remote.parsed.Null? {
      return Failure(TypeError);
    }

    var needsUpdate := false;
    var env := MergeEnv(RemoteEnv(remote.parsed), LocalEnv(local.parsed));
    var parsed := remote.parsed;
    if |RemoteEnv(remote.parsed)| > 0 {
      parsed := DeletePath(parsed, ["env"]);
      needsUpdate := true;
    }
    if |exclude| > 0 {
      parsed := DeleteEach(parsed, exclude);
      needsUpdate := true;
    }
    if |settings| > 0 {
      var written := SetEach(codec.load, parsed, settings);
      if written.Failure? {
        return Failure(written.error);
      }
      parsed := written.value;
      needsUpdate := true;
    }
    ghost var d := Draft(env, parsed, needsUpdate, Options(Effective(Some(exclude)), Effective(Some(settings))));
    assert Prepare(codec.load, Some(exclude), Some(settings), local.parsed, remote.parsed) == Success(d);
    LegacyGenerateFrom(codec, args, exclude, settings, local, remote, d);

    var body := remote.text;
    if needsUpdate {
      var dumped := codec.dumpNoCompat(parsed);
      if dumped.None? {
        return Failure(YamlDumpError);
      }
      body := dumped.value;
    }
    var envText := codec.dump(EnvDocument(env));
    if envText.None? {
      return Failure(YamlDumpError);
    }
    r := Success(LegacyOutput(envText.value, args, body));
  }

  // Every template of one source

  function LegacyTextOf(r: Result<LegacyOutput, Error>): Result<string, Error> {
    if r.Success? then Success(LegacyText(r.value)) else Failure(r.error)
  }

  /** The generator of lib.js. */
  function LegacyGenerator(clone: Clone, codec: YamlCodec, args: string,
                           exclude: seq<string>, settings: seq<string>): Generator
  {
    (f: map<string, string>, t: string) => LegacyTextOf(LegacyTemplateResult(f, clone, codec, args, exclude, settings, t))
  }

  lemma LegacyGeneratorReadsOwnFile(clone: Clone, codec: YamlCodec, args: string,
                                    exclude: seq<string>, settings: seq<string>)
    ensures ReadsOwnFile(LegacyGenerator(clone, codec, args, exclude, settings))
  {
    var gen := LegacyGenerator(clone, codec, args, exclude, settings);
    forall f: map<string, string>, g: map<string, string>, t: string | Agree(f, g, LocalWorkflowPath(t))
      ensures gen(f, t) == gen(g, t)
    {
      assert LoadYamlFile(f, LocalWorkflowPath(t), codec.load) == LoadYamlFile(g, LocalWorkflowPath(t), codec.load);
    }
  }

  /** `ghat(source, {exclude, set, argv})` of lib.js: an empty source is
      refused before anything is fetched; then the source is parsed, its
      workflows are found, and each is applied. */
  function LegacySourceRun(files: map<string, string>, clone: Clone, codec: YamlCodec, source: string,
                           exclude: seq<string>, settings: seq<string>, args: string): (r: Run)
    ensures r.error.None? ==>
      source != "" && ParseRepo.Parse(source).Success? && GetWorkflows(clone.root, clone.workflows).Success?
      && |GetWorkflows(clone.root, clone.workflows).value| > 0
    ensures files.Keys <= r.files.Keys
  {
    if source == "" then Run(files, Some(InputError(NoSourceMessage)))
    else match ParseRepo.Parse(source)
      case Failure(e) => Run(files, Some(e))
      case Success(_) =>
        match GetWorkflows(clone.root, clone.workflows)
        case Failure(e) => Run(files, Some(e))
        case Success(templates) =>
          if |templates| == 0 then Run(files, Some(InputError("No workflows found in " + source)))
          else ApplyEach(files, LegacyGenerator(clone, codec, args, exclude, settings), templates)
  }

  /** A run that reports no error needed a source; a run without one
      writes nothing. */
  lemma NoSourceRefused(files: map<string, string>, clone: Clone, codec: YamlCodec, source: string,
                        exclude: seq<string>, settings: seq<string>, args: string)
    ensures LegacySourceRun(files, clone, codec, source, exclude, settings, args).error.None? ==> source != ""
    ensures source == "" ==>
      LegacySourceRun(files, clone, codec, source, exclude, settings, args) == Run(files, Some(InputError(NoSourceMessage)))
  {}

  /** With a well-formed download, the run succeeds exactly when the
      source is given and parses, the download holds workflows, and every
      one of them is generated. */
  lemma LegacySourceRunSucceeds(files: map<string, string>, clone: Clone, codec: YamlCodec, source: string,
                                exclude: seq<string>, settings: seq<string>, args: string)
    requires SaneListing(clone.root) && SaneListing(clone.workflows)
    ensures LegacySourceRun(files, clone, codec, source, exclude, settings, args).error.None? <==>
      source != "" && ParseRepo.Parse(source).Success? && GetWorkflows(clone.root, clone.workflows).Success?
      && |GetWorkflows(clone.root, clone.workflows).value| > 0
      && forall t | t in GetWorkflows(clone.root, clone.workflows).value ::
           LegacyTemplateResult(files, clone, codec, args, exclude, settings, t).Success?
  {
    if source != "" && ParseRepo.Parse(source).Success? && GetWorkflows(clone.root, clone.workflows).Success? {
      DistinctLocalPaths(clone.root, clone.workflows);
      LegacyGeneratorReadsOwnFile(clone, codec, args, exclude, settings);
      ApplyEachSucceeds(files, LegacyGenerator(clone, codec, args, exclude, settings),
        GetWorkflows(clone.root, clone.workflows).value);
    }
  }

  /** After a run, the local workflow of each template holds what lib.js
      generated for it from the local files as they were before the run. */
  lemma LegacyRunWrites(files: map<string, string>, clone: Clone, codec: YamlCodec, source: string,
                        exclude: seq<string>, settings: seq<string>, args: string, i: nat)
    requires SaneListing(clone.root) && SaneListing(clone.workflows)
    requires source != "" && ParseRepo.Parse(source).Success? && GetWorkflows(clone.root, clone.workflows).Success?
    requires i < |GetWorkflows(clone.root, clone.workflows).value|
    ensures var t := GetWorkflows(clone.root, clone.workflows).value[i];
      var r := LegacyTemplateResult(files, clone, codec, args, exclude, settings, t);
      var run := LegacySourceRun(files, clone, codec, source, exclude, settings, args);
      (r.Success? ==> LocalWorkflowPath(t) in run.files && run.files[LocalWorkflowPath(t)] == LegacyText(r.value))
      && (r.Failure? ==> Agree(run.files, files, LocalWorkflowPath(t)))
  {
    var ts := GetWorkflows(clone.root, clone.workflows).value;
    DistinctLocalPaths(clone.root, clone.workflows);
    LegacyGeneratorReadsOwnFile(clone, codec, args, exclude, settings);
    ApplyEachIndependent(files, LegacyGenerator(clone, codec, args, exclude, settings), ts, i);
  }

  method LegacyGhat(tree: Tree, clone: Clone, codec: YamlCodec, source: string,
                    exclude: seq<string>, settings: seq<string>, args: string) returns (error: Option<Error>)
    modifies tree
    ensures Run(tree.files, error) == LegacySourceRun(old(tree.files), clone, codec, source, exclude, settings, args)
  {
    if source == "" {
      return Some(InputError(NoSourceMessage));
    }
    var repo := ParseRepo.Parse(source);
    if repo.Failure? {
      return Some(repo.error);
    }
    var templates := GetWorkflows(clone.root, clone.workflows);
    if templates.Failure? {
      return Some(templates.error);
    }
    if |templates.value| == 0 {
      return Some(InputError("No workflows found in " + source));
    }
    error := LegacyApplyTemplates(tree, clone, codec, args, exclude, settings, templates.value);
  }

  /** The templates one after another, each attempted whatever happened
      to the ones before it. */
  method LegacyApplyTemplates(tree: Tree, clone: Clone, codec: YamlCodec, args: string,
                              exclude: seq<string>, settings: seq<string>, ts: seq<string>)
    returns (error: Option<Error>)
    modifies tree
    ensures Run(tree.files, error) == ApplyEach(old(tree.files), LegacyGenerator(clone, codec, args, exclude, settings), ts)
  {
    ghost var gen := LegacyGenerator(clone, codec, args, exclude, settings);
    error := None;
    var i := 0;
    while i < |ts|
      invariant i <= |ts|
      invariant Run(tree.files, error) == ApplyEach(old(tree.files), gen, ts[..i])
    {
      ApplyEachSnoc(old(tree.files), gen, ts, i);
      ghost var before := tree.files;
      var r := LegacyApplyTemplate(tree, clone, codec, args, exclude, settings, ts[i]);
      assert LegacyTextOf(r) == gen(before, ts[i]);
      if r.Failure? && error.None? {
        error := Some(r.error);
      }
      i := i + 1;
    }
    assert ts[..i] == ts;
  }
}

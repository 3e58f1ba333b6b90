/** Regenerating the workflows of a repository from the headers they
    carry (lib.ts, `parseGhatConfigFromYaml` and `handleExisting`), and
    the entry point `ghat(source, options)` that chooses between this and
    a fresh download. */
module Resync {
  import opened Wrappers
  import Strings
  import opened Errors
  import opened Yaml
  import opened Discovery
  import opened OptionsJson
  import opened Provenance
  import opened Invocation
  import opened WorkTree
  import opened MergeEngine

  /** What one existing workflow records about its origin. */
  datatype Config =
    /** The current header: the source and the recorded options. */
    | Recorded(path: string, source: string, options: Option<Options>)
    /** The one-line legacy header: the command-line arguments. */
    | LegacyCommand(path: string, args: string)

  const NoExistingMessage: string :=
    "No source was specified and no existing ghat workflows were found in this repository"

  /** `parseGhatConfigFromYaml(path)`: nothing when the file has no
      header; the recorded options are decoded as JSON. */
  function ParseGhatConfig(files: map<string, string>, path: string): (r: Result<Option<Config>, Error>)
    ensures path !in files ==> r == Failure(ReadError(path))
    ensures r.Failure? ==> r.error == ReadError(path) || r.error.JsonError?
    ensures r.Success? ==> (r.value.Some? <==> ParseHeader(files[path]).Some?)
    ensures r.Success? && r.value.Some? ==> r.value.value.path == path
    ensures r.Success? && r.value.Some? ==> (r.value.value.Recorded? <==> ParseHeader(files[path]).value.Current?)
    ensures path in files && ParseHeader(files[path]).Some? && ParseHeader(files[path]).value.Legacy? ==>
      r == Success(Some(LegacyCommand(path, ParseHeader(files[path]).value.args)))
    ensures r.Success? && r.value.Some? && r.value.value.Recorded? ==>
      r.value.value.source == ParseHeader(files[path]).value.source
      && (r.value.value.options.None? <==> ParseHeader(files[path]).value.options.None?)
      && (r.value.value.options.Some? ==>
            Decode(ParseHeader(files[path]).value.options.value) == Success(r.value.value.options.value))
  {
    if path !in files then Failure(ReadError(path))
    else match ParseHeader(files[path])
      case None => Success(None)
      case Some(Legacy(args)) => Success(Some(LegacyCommand(path, args)))
      case Some(Current(source, json)) =>
        if json.None? then Success(Some(Recorded(path, source, None)))
        else match Decode(json.value)
          case Failure(e) => Failure(e)
          case Success(o) => Success(Some(Recorded(path, source, Some(o))))
  }

  /** The configurations of the listed workflows, in listing order; the
      first file that cannot be read or decoded stops the scan. */
  function Existing(files: map<string, string>, paths: seq<string>): (r: Result<seq<Config>, Error>)
    ensures r.Success? ==> |r.value| <= |paths|
    ensures r.Success? ==> forall i | 0 <= i < |r.value| :: r.value[i].path in paths
    decreases |paths|
  {
    if |paths| == 0 then Success([])
    else
      assert forall p | p in paths[..|paths| - 1] :: p in paths;
      match Existing(files, paths[..|paths| - 1])
      case Failure(e) => Failure(e)
      case Success(cs) =>
        match ParseGhatConfig(files, paths[|paths| - 1])
        case Failure(e) => Failure(e)
        case Success(None) => Success(cs)
        case Success(Some(c)) => Success(cs + [c])
  }

  /** The scan fails exactly when some listed file fails to parse. */
  lemma {:induction false} ExistingFails(files: map<string, string>, paths: seq<string>)
    ensures Existing(files, paths).Failure? <==> exists p | p in paths :: ParseGhatConfig(files, p).Failure?
    decreases |paths|
  {
    if |paths| > 0 {
      var init := paths[..|paths| - 1];
      var last := paths[|paths| - 1];
      ExistingFails(files, init);
      assert paths == init + [last];
      assert forall p :: p in paths <==> p in init || p == last;
    }
  }

  /** A successful scan finds exactly the configurations of the files that
      carry a header. */
  lemma {:induction false} ExistingFinds(files: map<string, string>, paths: seq<string>)
    requires Existing(files, paths).Success?
    ensures forall c :: c in Existing(files, paths).value <==>
      exists p | p in paths :: ParseGhatConfig(files, p) == Success(Some(c))
    decreases |paths|
  {
    if |paths| > 0 {
      ExistingStep(files, paths);
      ExistingFinds(files, paths[..|paths| - 1]);
      Strings.LastMembers(paths);
    }
  }

  /** A successful scan is the scan of all but the last file followed by
      the configuration the last file carries, if any. */
  lemma ExistingStep(files: map<string, string>, paths: seq<string>)
    requires |paths| > 0 && Existing(files, paths).Success?
    ensures var cs := Existing(files, paths[..|paths| - 1]);
      var pc := ParseGhatConfig(files, paths[|paths| - 1]);
      cs.Success? && pc.Success?
      && Existing(files, paths).value == cs.value + (if pc.value.Some? then [pc.value.value] else [])
  {}

  /** The loop of `handleExisting` that collects the configurations. */
  method CollectExisting(files: map<string, string>, paths: seq<string>) returns (r: Result<seq<Config>, Error>)
    ensures r == Existing(files, paths)
  {
    var existing: seq<Config> := [];
    var i := 0;
    while i < |paths|
      invariant i <= |paths|
      invariant Existing(files, paths[..i]) == Success(existing)
    {
      assert paths[..i + 1][..i] == paths[..i];
      var parsed := ParseGhatConfig(files, paths[i]);
      if parsed.Failure? {
        ExistingFailureExtends(files, paths, i + 1);
        return Failure(parsed.error);
      }
      if parsed.value.Some? {
        existing := existing + [parsed.value.value];
      }
      i := i + 1;
    }
    assert paths[..i] == paths;
    r := Success(existing);
  }

  lemma {:induction false} ExistingFailureExtends(files: map<string, string>, paths: seq<string>, i: nat)
    requires i <= |paths| && Existing(files, paths[..i]).Failure?
    ensures Existing(files, paths) == Existing(files, paths[..i])
    decreases |paths| - i
  {
    if i < |paths| {
      assert paths[..i + 1][..i] == paths[..i];
      ExistingFailureExtends(files, paths, i + 1);
    } else {
      assert paths[..i] == paths;
    }
  }

  /** The options a recorded configuration is replayed with. */
  function RecordedExclude(o: Option<Options>): Option<seq<string>> {
    if o.Some? then o.value.exclude else None
  }

  function RecordedSettings(o: Option<Options>): Option<seq<string>> {
    if o.Some? then o.value.settings else None
  }

  /** Everything a run leaves behind: the files, the error it reports, and
      the legacy command lines it hands to the executable. */
  datatype Outcome = Outcome(files: map<string, string>, error: Option<Error>, commands: seq<string>)

  function FirstError(a: Option<Error>, b: Option<Error>): Option<Error> {
    if a.Some? then a else b
  }

  /** How a recorded source is run again on the files as they are. */
  type Rerun = (map<string, string>, string, Option<Options>) -> Run

  /** `ghat(source, options)` for a recorded source and its recorded
      options; `verbatim` is never recorded. */
  function SourceRerun(clones: string -> Clone, codec: YamlCodec): Rerun {
    (f: map<string, string>, source: string, o: Option<Options>) =>
      SourceRun(f, clones(source), codec, source, RecordedExclude(o), RecordedSettings(o), false)
  }

  /** One existing workflow: a recorded source is run again, a legacy
      header hands its arguments to the executable. */
  function DispatchOne(before: Outcome, rerun: Rerun, c: Config): Outcome {
    match c
    case Recorded(_, source, o) =>
      var run := rerun(before.files, source, o);
      Outcome(run.files, FirstError(before.error, run.error), before.commands)
    case LegacyCommand(_, args) =>
      Outcome(before.files, before.error, before.commands + [args])
  }

  /** The arguments of the legacy headers among `configs`, in order. */
  function LegacyArgs(configs: seq<Config>): seq<string>
    decreases |configs|
  {
    if |configs| == 0 then []
    else (if configs[0].LegacyCommand? then [configs[0].args] else []) + LegacyArgs(configs[1..])
  }

  /** The legacy arguments of a list with one more configuration. */
  lemma {:induction false} LegacyArgsSnoc(configs: seq<Config>, c: Config)
    ensures LegacyArgs(configs + [c]) == LegacyArgs(configs) + (if c.LegacyCommand? then [c.args] else [])
    decreases |configs|
  {
    if |configs| == 0 {
      assert configs + [c] == [c];
      assert [c][1..] == [];
    } else {
      assert (configs + [c])[1..] == configs[1..] + [c];
      LegacyArgsSnoc(configs[1..], c);
    }
  }

  /** `Promise.all(existing.map(...))`, taken in order: the legacy
      arguments are handed over in the order of the records, and a list
      of legacy records alone writes nothing and reports nothing. */
  function DispatchAll(files: map<string, string>, rerun: Rerun, configs: seq<Config>): (r: Outcome)
    ensures r.commands == LegacyArgs(configs)
    ensures (forall i | 0 <= i < |configs| :: configs[i].LegacyCommand?) ==> r.files == files && r.error.None?
    decreases |configs|
  {
    if |configs| == 0 then Outcome(files, None, [])
    else
      var init := configs[..|configs| - 1];
      assert configs == init + [configs[|configs| - 1]];
      LegacyArgsSnoc(init, configs[|configs| - 1]);
      DispatchOne(DispatchAll(files, rerun, init), rerun, configs[|configs| - 1])
  }

  /** Every legacy argument is handed over; nothing else is. */
  lemma {:induction false} DispatchCommands(files: map<string, string>, rerun: Rerun, configs: seq<Config>)
    ensures forall a :: a in DispatchAll(files, rerun, configs).commands <==>
      exists c | c in configs :: c.LegacyCommand? && c.args == a
    decreases |configs|
  {
    if |configs| > 0 {
      var init := configs[..|configs| - 1];
      var last := configs[|configs| - 1];
      DispatchCommands(files, rerun, init);
      var before := DispatchAll(files, rerun, init).commands;
      var cs := DispatchAll(files, rerun, configs).commands;
      assert cs == if last.LegacyCommand? then before + [last.args] else before;
      assert configs == init + [last];
      forall a ensures a in cs <==> exists c | c in configs :: c.LegacyCommand? && c.args == a {
        if a in before {
          assert a in DispatchAll(files, rerun, init).commands;
          var c :| c in init && c.LegacyCommand? && c.args == a;
          assert c in configs;
        } else if a in cs {
          assert last in configs;
        } else {
          forall c | c in configs && c.LegacyCommand? ensures c.args != a {
            if c in init {
              assert c.args in DispatchAll(files, rerun, init).commands;
            }
          }
        }
      }
    }
  }

  /** `handleExisting()`: the workflows directory is scanned, and each
      workflow with a header is regenerated; without any, the user is
      told so. */
  function ResyncRun(files: map<string, string>, listing: Listing, clones: string -> Clone, codec: YamlCodec): (r: Outcome)
    ensures r.error.None? ==>
      FindYamlFiles(listing, WorkflowsDir).Success?
      && Existing(files, FindYamlFiles(listing, WorkflowsDir).value).Success?
      && |Existing(files, FindYamlFiles(listing, WorkflowsDir).value).value| > 0
    ensures r.commands != [] ==>
      FindYamlFiles(listing, WorkflowsDir).Success?
      && Existing(files, FindYamlFiles(listing, WorkflowsDir).value).Success?
      && r.commands == LegacyArgs(Existing(files, FindYamlFiles(listing, WorkflowsDir).value).value)
  {
    match FindYamlFiles(listing, WorkflowsDir)
    case Failure(e) => Outcome(files, Some(e), [])
    case Success(paths) =>
      match Existing(files, paths)
      case Failure(e) => Outcome(files, Some(e), [])
      case Success(configs) =>
        if |configs| == 0 then Outcome(files, Some(InputError(NoExistingMessage)), [])
        else DispatchAll(files, SourceRerun(clones, codec), configs)
  }

  /** A repository without any recorded workflow is told so, and nothing
      is written. */
  lemma NothingToResync(files: map<string, string>, listing: Listing, clones: string -> Clone, codec: YamlCodec)
    requires FindYamlFiles(listing, WorkflowsDir).Success?
    requires forall p | p in FindYamlFiles(listing, WorkflowsDir).value :: ParseGhatConfig(files, p) == Success(None)
    ensures ResyncRun(files, listing, clones, codec) == Outcome(files, Some(InputError(NoExistingMessage)), [])
  {
    ExistingNone(files, FindYamlFiles(listing, WorkflowsDir).value);
  }

  lemma {:induction false} ExistingNone(files: map<string, string>, paths: seq<string>)
    requires forall p | p in paths :: ParseGhatConfig(files, p) == Success(None)
    ensures Existing(files, paths) == Success([])
    decreases |paths|
  {
    if |paths| > 0 {
      var init := paths[..|paths| - 1];
      assert forall p | p in init :: p in paths;
      ExistingNone(files, init);
      assert paths[|paths| - 1] in paths;
    }
  }

  /** A workflow written with a header reads back as its source, and the
      options it records select the same lists as the ones it was
      written with, so regenerating it asks for the same work. */
  lemma RecoversOptions(codec: YamlCodec, source: string, url: string, exclude: Option<seq<string>>,
                        settings: Option<seq<string>>, local: YamlFile, remote: YamlFile,
                        files: map<string, string>, path: string)
    requires Generate(codec, source, url, exclude, settings, false, local, remote).Success?
    requires |source| >= 1 && '\n' !in source && '\n' !in url
    requires var o := Generate(codec, source, url, exclude, settings, false, local, remote).value;
      '#' !in o.envText && NoOptionsLine(o.body)
    requires path in files && files[path] == Text(Generate(codec, source, url, exclude, settings, false, local, remote).value)
    ensures ParseGhatConfig(files, path).Success? && ParseGhatConfig(files, path).value.Some?
    ensures var c := ParseGhatConfig(files, path).value.value;
      c.Recorded? && c.path == path && c.source == source
      && Effective(RecordedExclude(c.options)) == Effective(exclude)
      && Effective(RecordedSettings(c.options)) == Effective(settings)
  {
    HeaderReadsBack(codec, source, url, exclude, settings, local, remote);
    var opts := Options(Effective(exclude), Effective(settings));
    if opts.exclude.Some? || opts.settings.Some? {
      RoundTrip(opts);
    }
  }

  /** Running again with options that select the same lists generates the
      same output from the same files. */
  lemma SameListsSameOutput(codec: YamlCodec, source: string, url: string, e1: Option<seq<string>>,
                            s1: Option<seq<string>>, e2: Option<seq<string>>, s2: Option<seq<string>>,
                            local: YamlFile, remote: YamlFile)
    requires Effective(e1) == Effective(e2) && Effective(s1) == Effective(s2)
    ensures Generate(codec, source, url, e1, s1, false, local, remote)
      == Generate(codec, source, url, e2, s2, false, local, remote)
  {
    PrepareSameLists(codec.load, e1, s1, e2, s2, local.parsed, remote.parsed);
  }

  /** `ghat(source, options)` for one recorded source. */
  method RerunSource(tree: Tree, clones: string -> Clone, codec: YamlCodec, source: string, o: Option<Options>)
    returns (error: Option<Error>)
    modifies tree
    ensures Run(tree.files, error) == SourceRerun(clones, codec)(old(tree.files), source, o)
  {
    error := ApplySource(tree, clones(source), codec, source, RecordedExclude(o), RecordedSettings(o), false);
  }

  /** The dispatch loop of `handleExisting`. */
  method DispatchEach(tree: Tree, clones: string -> Clone, codec: YamlCodec, configs: seq<Config>)
    returns (error: Option<Error>, commands: seq<string>)
    modifies tree
    ensures Outcome(tree.files, error, commands) == DispatchAll(old(tree.files), SourceRerun(clones, codec), configs)
  {
    ghost var rerun := SourceRerun(clones, codec);
    error, commands := None, [];
    var i := 0;
    while i < |configs|
      invariant i <= |configs|
      invariant Outcome(tree.files, error, commands) == DispatchAll(old(tree.files), rerun, configs[..i])
    {
      assert configs[..i + 1][..i] == configs[..i];
      ghost var before := Outcome(tree.files, error, commands);
      assert DispatchAll(old(tree.files), rerun, configs[..i + 1]) == DispatchOne(before, rerun, configs[i]);
      match configs[i] {
        case Recorded(_, source, o) =>
          var e := RerunSource(tree, clones, codec, source, o);
          error := FirstError(error, e);
        case LegacyCommand(_, args) =>
          commands := commands + [args];
      }
      i := i + 1;
    }
    assert configs[..i] == configs;
  }

  method HandleExisting(tree: Tree, listing: Listing, clones: string -> Clone, codec: YamlCodec)
    returns (error: Option<Error>, commands: seq<string>)
    modifies tree
    ensures Outcome(tree.files, error, commands) == ResyncRun(old(tree.files), listing, clones, codec)
  {
    var paths := FindYamlFiles(listing, WorkflowsDir);
    if paths.Failure? {
      return Some(paths.error), [];
    }
    var existing := CollectExisting(tree.files, paths.value);
    if existing.Failure? {
      return Some(existing.error), [];
    }
    if |existing.value| == 0 {
      return Some(InputError(NoExistingMessage)), [];
    }
    error, commands := DispatchEach(tree, clones, codec, existing.value);
  }

  /** `ghat(source, options)`. */
  function GhatRun(files: map<string, string>, listing: Listing, clones: string -> Clone, codec: YamlCodec,
                   source: string, options: GhatOptions): (r: Outcome)
    ensures r.commands != [] ==> Validate(source, options) == Success(Resync)
    ensures Validate(source, options).Failure? ==> r.files == files && r.error == Some(Validate(source, options).error)
  {
    match Validate(source, options)
    case Failure(e) => Outcome(files, Some(e), [])
    case Success(Resync) => ResyncRun(files, listing, clones, codec)
    case Success(Apply(exclude, settings, verbatim)) =>
      var run := SourceRun(files, clones(source), codec, source, exclude, settings, verbatim);
      Outcome(run.files, run.error, [])
  }

  /** Refused options write nothing. */
  lemma RefusedWritesNothing(files: map<string, string>, listing: Listing, clones: string -> Clone,
                             codec: YamlCodec, source: string, options: GhatOptions)
    requires Validate(source, options).Failure?
    ensures GhatRun(files, listing, clones, codec, source, options)
      == Outcome(files, Some(Validate(source, options).error), [])
  {}

  method Ghat(tree: Tree, listing: Listing, clones: string -> Clone, codec: YamlCodec,
              source: string, options: GhatOptions) returns (error: Option<Error>, commands: seq<string>)
    modifies tree
    ensures Outcome(tree.files, error, commands) == GhatRun(old(tree.files), listing, clones, codec, source, options)
  {
    var plan := Validate(source, options);
    if plan.Failure? {
      return Some(plan.error), [];
    }
    match plan.value
    case Resync =>
      error, commands := HandleExisting(tree, listing, clones, codec);
    case Apply(exclude, settings, verbatim) =>
      error := ApplySource(tree, clones(source), codec, source, exclude, settings, verbatim);
      commands := [];
  }
}

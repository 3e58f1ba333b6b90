/** The original version of the command (index.js): a template is copied
    as it is unless the local workflow of the same name has a truthy
    `env`, in which case the two envs are merged and the template is
    dumped again without its own; the file starts with a
    `# Generated by` line. Templates are found by globbing `*.yml`. The
    downloader reports the commit it fetched in a message that is
    recognised by `commitRegex`. */
module IndexJs {
  import opened Wrappers
  import opened Strings
  import opened Errors
  import opened Yaml
  import opened DotPath
  import opened Discovery
  import ParseRepo
  import opened Provenance
  import opened Engine
  import opened WorkTree
  import opened MergeEngine
  import opened Resync

  // Discovery

  /** `*.yml` without globby's `dot` option: a name ending in `.yml` that
      does not start with a dot. */
  predicate IsGlobYml(name: string) {
    EndsWith(name, ".yml") && !StartsWith(name, ".")
  }

  /** `getWorkflows()`: the `*.yml` files at the root of the download when
      there is at least one, otherwise the `*.yml` files of `.github/workflows`. */
  function IndexGetWorkflows(root: Listing, workflows: Listing): (r: Result<seq<string>, Error>)
    ensures root.Unreadable? ==> r == Failure(DirectoryError(""))
    ensures root.Listed? && FilterNames(root.names, IsGlobYml) != [] ==>
      r == Success(FilterNames(root.names, IsGlobYml))
    ensures root.NotFound? || (root.Listed? && FilterNames(root.names, IsGlobYml) == []) ==>
      r == FindMatching(workflows, WorkflowsDir, IsGlobYml)
    ensures r.Success? && workflows.Listed? ==> forall p | p in r.value ::
      IsGlobYml(p) || exists n | n in workflows.names :: IsGlobYml(n) && p == JoinPath(WorkflowsDir, n)
  {
    match FindMatching(root, "", IsGlobYml)
    case Failure(e) => Failure(e)
    case Success(local) =>
      if |local| > 0 then
        assert JoinAll("", FilterNames(root.names, IsGlobYml)) == FilterNames(root.names, IsGlobYml);
        Success(local)
      else FindMatching(workflows, WorkflowsDir, IsGlobYml)
  }

  /** The glob accepts fewer names than lib.ts's `/\.ya?ml$/`: no `.yaml`
      and no dotfiles. So when both versions settle on the same directory
      (the glob finds something at the root, or lib.ts finds nothing
      there either), every template index.js picks is one lib.ts picks. */
  lemma IndexTemplatesAmongLib(root: Listing, workflows: Listing)
    requires IndexGetWorkflows(root, workflows).Success?
    requires root.Listed? && FilterNames(root.names, IsGlobYml) == [] ==> FilterNames(root.names, IsYamlName) == []
    ensures GetWorkflows(root, workflows).Success?
    ensures forall p | p in IndexGetWorkflows(root, workflows).value :: p in GetWorkflows(root, workflows).value
  {
    if root.Listed? && FilterNames(root.names, IsGlobYml) != [] {
      var g := FilterNames(root.names, IsGlobYml);
      assert g[0] in root.names && IsYamlName(g[0]);
      assert FilterNames(root.names, IsYamlName) != [] by {
        assert g[0] in FilterNames(root.names, IsYamlName);
      }
    } else if workflows.Listed? {
      var ts := IndexGetWorkflows(root, workflows).value;
      forall p | p in ts ensures p in GetWorkflows(root, workflows).value {
        var n :| n in workflows.names && IsGlobYml(n) && p == JoinPath(WorkflowsDir, n);
      }
    }
  }

  lemma IndexDistinctLocalPaths(root: Listing, workflows: Listing)
    requires SaneListing(root) && SaneListing(workflows)
    requires IndexGetWorkflows(root, workflows).Success?
    ensures DistinctTargets(IndexGetWorkflows(root, workflows).value)
  {
    var ts := IndexGetWorkflows(root, workflows).value;
    var firstTier := root.Listed? && FilterNames(root.names, IsGlobYml) != [];
    var lst := if firstTier then root else workflows;
    var sub := if firstTier then "" else WorkflowsDir;
    if |ts| > 0 {
      assert lst.Listed?;
      var names := FilterNames(lst.names, IsGlobYml);
      assert ts == JoinAll(sub, names) by {
        if firstTier {
          assert JoinAll("", names) == names;
        } else {
          assert FindMatching(workflows, WorkflowsDir, IsGlobYml) == Success(JoinAll(sub, names));
        }
      }
      JoinedTargetsDistinct(lst, sub, IsGlobYml, ts);
    }
  }

  // One template

  const GeneratedBy := "# Generated by `npx ghat "
  const DoNotEdit := "# DO NOT EDIT BELOW"
  const EnvHint := ", but you can specify" + " the `env` property ABOVE"

  /** The merged env and its dump. */
  datatype EnvBlock = EnvBlock(entries: seq<Entry>, text: string)

  /** What index.js writes for one template: the source it names, the
      env block when an env was merged, and the workflow body. */
  datatype IndexOutput = IndexOutput(source: string, env: Option<EnvBlock>, body: string)

  function EnvText(o: IndexOutput): string {
    if o.env.Some? then o.env.value.text else ""
  }

  function Hint(o: IndexOutput): string {
    if o.env.Some? then "" else EnvHint
  }

  /** The file index.js writes (the `outdent` template of `applyTemplate`):
      the `# Generated by` line, the dumped env, the `DO NOT EDIT` line
      with the hint when no env was merged, an empty line and the body. */
  function IndexText(o: IndexOutput): (r: string)
    ensures StartsWith(r, GeneratedBy + o.source + "`\n")
    ensures EndsWith(r, "\n\n" + o.body)
  {
    GeneratedBy + (o.source + ("`\n" + (EnvText(o) + ("\n" + (DoNotEdit + (Hint(o) + ("\n\n" + o.body)))))))
  }

  /** `localData.env` is truthy. */
  predicate MergesEnv(localData: Node) {
    EnvOf(localData).Some? && Truthy(EnvOf(localData).value)
  }

  /** The merge of `localText` (the local workflow, "" when it cannot be
      read) with `template` (the downloaded text, `None` when it cannot be
      read): the template text is kept unless the local file parses to a
      value with a truthy `env`. */
  function IndexGenerate(codec: YamlCodec, source: string, localText: string, template: Option<string>,
                         localPath: string, templatePath: string): (r: Result<IndexOutput, Error>)
    ensures r.Success? ==> r.value.source == source
    ensures r.Success? ==> (r.value.env.Some? <==>
      localText != "" && codec.load(localText).Some? && MergesEnv(codec.load(localText).value))
    ensures r.Success? && r.value.env.None? ==> template == Some(r.value.body)
    ensures r.Success? && r.value.env.Some? ==> codec.dump(EnvDocument(r.value.env.value.entries)) == Some(r.value.env.value.text)
    ensures r.Success? && r.value.env.Some? ==>
      template.Some? && codec.load(template.value).Some? && !codec.load(template.value).value.Null?
      && r.value.env.value.entries == MergeEnv(RemoteEnv(codec.load(template.value).value), LocalEnv(codec.load(localText).value))
      && codec.dump(DeletePath(codec.load(template.value).value, ["env"])) == Some(r.value.body)
    ensures template.None? ==> r.Failure?
    ensures localText != "" && codec.load(localText).None? ==> r == Failure(YamlLoadError(localPath))
    ensures r.Failure? ==> r.error in {ReadError(templatePath), YamlLoadError(localPath), YamlLoadError(templatePath), TypeError, YamlDumpError}
  {
    if localText == "" || (codec.load(localText).Some? && !codec.load(localText).value.Null? && !MergesEnv(codec.load(localText).value)) then
      if template.None? then Failure(ReadError(templatePath)) else Success(IndexOutput(source, None, template.value))
    else match codec.load(localText)
      case None => Failure(YamlLoadError(localPath))
      case Some(localData) =>
        if localData.Null? then Failure(TypeError)
        else if template.None? then Failure(ReadError(templatePath))
        else match codec.load(template.value)
          case None => Failure(YamlLoadError(templatePath))
          case Some(templateData) =>
            if templateData.Null? then Failure(TypeError)
            else
              var entries := MergeEnv(RemoteEnv(templateData), LocalEnv(localData));
              match codec.dump(DeletePath(templateData, ["env"]))
              case None => Failure(YamlDumpError)
              case Some(body) =>
                match codec.dump(EnvDocument(entries))
                case None => Failure(YamlDumpError)
                case Some(text) => Success(IndexOutput(source, Some(EnvBlock(entries, text)), body))
  }

  /** When an env is merged, the local workflow's keys win over the
      template's, and every other key of the template's env is kept. */
  lemma IndexEnvPrecedence(codec: YamlCodec, source: string, localText: string, template: Option<string>,
                           localPath: string, templatePath: string, k: string)
    requires IndexGenerate(codec, source, localText, template, localPath, templatePath).Success?
    requires IndexGenerate(codec, source, localText, template, localPath, templatePath).value.env.Some?
    requires codec.load(localText).Some? && WellFormed(codec.load(localText).value)
    ensures template.Some? && codec.load(template.value).Some?
    ensures var entries := IndexGenerate(codec, source, localText, template, localPath, templatePath).value.env.value.entries;
      var localEnv := LocalEnv(codec.load(localText).value);
      Find(entries, k) == if Find(localEnv, k).Some? then Find(localEnv, k)
                          else Find(RemoteEnv(codec.load(template.value).value), k)
  {
    var r := IndexGenerate(codec, source, localText, template, localPath, templatePath);
    var localData := codec.load(localText).value;
    var templateData := codec.load(template.value).value;
    assert r.value.env.value.entries == MergeEnv(RemoteEnv(templateData), LocalEnv(localData));
    OwnEntriesUnique(EnvOf(localData));
    MergeEnvFind(RemoteEnv(templateData), LocalEnv(localData), k);
  }

  /** When an env is merged, the body is the template dumped again after
      `delete templateData.env`, and that tree holds no `env`. */
  lemma IndexTemplateEnvRemoved(codec: YamlCodec, source: string, localText: string, template: Option<string>,
                                localPath: string, templatePath: string)
    requires IndexGenerate(codec, source, localText, template, localPath, templatePath).Success?
    requires IndexGenerate(codec, source, localText, template, localPath, templatePath).value.env.Some?
    ensures template.Some? && codec.load(template.value).Some? && !codec.load(template.value).value.Null?
    ensures var stripped := DeletePath(codec.load(template.value).value, ["env"]);
      Get(stripped, ["env"]) == None
      && codec.dump(stripped) == Some(IndexGenerate(codec, source, localText, template, localPath, templatePath).value.body)
  {
    var r := IndexGenerate(codec, source, localText, template, localPath, templatePath);
    assert template.Some? && codec.load(template.value).Some?;
    DeleteRemovesBelow(codec.load(template.value).value, ["env"], ["env"]);
  }

  // The header is not one lib.ts reads back

  /** A `#` followed by a letter other than `f` or `d` starts neither
      alternative of the expression. */
  lemma NotHere(t: string)
    requires |t| >= 3 && t[0] == '#' && LowerAscii(t[2]) != 'f' && LowerAscii(t[2]) != 'd'
    ensures HeaderHere(t).None?
  {
    assert GeneratedLit[2] == 'f' && LegacyLit[2] == 'd';
  }

  /** A line that opens with such a `#` and holds no other is skipped. */
  lemma {:induction false} SkipLine(p: string, rest: string)
    requires |p| >= 3 && p[0] == '#' && LowerAscii(p[2]) != 'f' && LowerAscii(p[2]) != 'd' && '#' !in p[1..]
    ensures ParseHeader(p + rest) == ParseHeader(rest)
  {
    var t := p + rest;
    NotHere(t);
    assert t[1..] == p[1..] + rest;
    ParseHeaderSkip(p[1..], rest);
  }

  /** After `# DO NOT EDIT BELOW` comes a line break or `, but`, never the
      `[ ,-]+use` of the legacy alternative. */
  lemma DoNotEditNotHeader(o: IndexOutput)
    ensures HeaderHere(DoNotEdit + (Hint(o) + ("\n\n" + o.body))).None?
  {
    var a := Hint(o) + ("\n\n" + o.body);
    var t := DoNotEdit + a;
    Cut(DoNotEdit, a);
    assert t[2] == 'D';
    assert LowerAscii(t[2]) != GeneratedLit[2];
    if CiStarts(t, LegacyLit) {
      assert t[19..] == a;
      HintNotBelow(o, a);
    }
  }

  /** What follows `# DO NOT EDIT BELOW` is not `[ ,-]+use`. */
  lemma HintNotBelow(o: IndexOutput, a: string)
    requires a == Hint(o) + ("\n\n" + o.body)
    ensures AfterBelow(a).None?
  {
    if o.env.Some? {
      assert a[0] == '\n';
      assert RunEnd(a, 0, BelowSep) == 0;
    } else {
      assert a[0] == ',' && a[1] == ' ' && a[2] == 'b';
      RunEndIs(a, 0, 2, BelowSep);
      assert a[2..][0] == 'b';
      assert LowerAscii(a[2..][0]) != UseLit[0];
    }
  }

  lemma HintHashFree(o: IndexOutput)
    ensures '#' !in Hint(o)
  {
    assert '#' !in ", but you can specify";
    assert '#' !in " the `env` property ABOVE";
  }

  lemma GeneratedByTail()
    ensures GeneratedBy == "#" + " Generated by `npx ghat "
  {}

  lemma DoNotEditTail()
    ensures DoNotEdit == "#" + " DO NOT EDIT BELOW"
  {}

  lemma HeadsHashFree()
    ensures '#' !in DoNotEdit[1..] && '#' !in GeneratedBy[1..]
  {
    GeneratedByTail();
    DoNotEditTail();
    assert ("#" + " DO NOT EDIT BELOW")[1..] == " DO NOT EDIT BELOW";
    assert ("#" + " Generated by `npx ghat ")[1..] == " Generated by `npx ghat ";
  }

  lemma {:induction false} DoNotEditSkipped(o: IndexOutput)
    ensures ParseHeader(DoNotEdit + (Hint(o) + ("\n\n" + o.body))) == ParseHeader(o.body)
  {
    var rest := Hint(o) + ("\n\n" + o.body);
    var t := DoNotEdit + rest;
    DoNotEditNotHeader(o);
    assert ParseHeader(t) == ParseHeader(t[1..]);
    assert t[1..] == DoNotEdit[1..] + rest;
    HintHashFree(o);
    HeadsHashFree();
    ParseHeaderSkip(DoNotEdit[1..], rest);
    ParseHeaderSkip(Hint(o), "\n\n" + o.body);
    ParseHeaderSkip("\n\n", o.body);
  }

  /** The `settingsParser` expression of lib.ts finds no header in the
      lines index.js writes above the body, so a file index.js wrote is
      read exactly as its body is, provided the source and the dumped env
      hold no `#`. */
  lemma {:induction false} IndexHeaderIgnored(o: IndexOutput)
    requires '#' !in o.source && '#' !in EnvText(o)
    ensures ParseHeader(IndexText(o)) == ParseHeader(o.body)
  {
    var x := DoNotEdit + (Hint(o) + ("\n\n" + o.body));
    HeadsHashFree();
    SkipLine(GeneratedBy, o.source + ("`\n" + (EnvText(o) + ("\n" + x))));
    ParseHeaderSkip(o.source, "`\n" + (EnvText(o) + ("\n" + x)));
    ParseHeaderSkip("`\n", EnvText(o) + ("\n" + x));
    ParseHeaderSkip(EnvText(o), "\n" + x);
    ParseHeaderSkip("\n", x);
    DoNotEditSkipped(o);
  }

  /** So the resync of lib.ts passes over a workflow index.js wrote, when
      its body holds no header of its own. */
  lemma IndexNotResynced(files: map<string, string>, path: string, o: IndexOutput)
    requires path in files && files[path] == IndexText(o)
    requires '#' !in o.source && '#' !in EnvText(o)
    requires ParseHeader(o.body).None?
    ensures ParseGhatConfig(files, path) == Success(None)
  {
    IndexHeaderIgnored(o);
  }

  // The step as the source performs it

  /** One template, reading the local workflow and the downloaded file. */
  function IndexTemplateResult(files: map<string, string>, clone: Clone, codec: YamlCodec, source: string,
                               filename: string): (r: Result<IndexOutput, Error>)
    ensures filename !in clone.files ==> r.Failure?
    ensures r.Success? ==> r.value.source == source
    ensures r.Success? && r.value.env.None? ==> filename in clone.files && r.value.body == clone.files[filename]
  {
    var localPath := LocalWorkflowPath(filename);
    IndexGenerate(codec, source, if localPath in files then files[localPath] else "",
      if filename in clone.files then Some(clone.files[filename]) else None, localPath, filename)
  }

  /** `applyTemplate(filename, source)`: `env` and `templateContent` are
      reassigned when the local workflow has an env; the file is written
      unless a step throws. */
  method IndexApplyTemplate(tree: Tree, clone: Clone, codec: YamlCodec, source: string, filename: string)
    returns (r: Result<IndexOutput, Error>)
    modifies tree
    ensures r == IndexTemplateResult(old(tree.files), clone, codec, source, filename)
    ensures r.Success? ==> tree.files == old(tree.files)[LocalWorkflowPath(filename) := IndexText(r.value)]
    ensures r.Failure? ==> tree.files == old(tree.files)
  {
    var templateContent := if filename in clone.files then Some(clone.files[filename]) else None;
    var localPath := LocalWorkflowPath(filename);
    var env: Option<seq<Entry>> := None;
    var localContent := if localPath in tree.files then tree.files[localPath] else "";
    if localContent != "" {
      var localData := codec.load(localContent);
      if localData.None? {
        return Failure(YamlLoadError(localPath));
      }
      if localData.value.Null? {
        return Failure(TypeError);
      }
      if MergesEnv(localData.value) {
        if templateContent.None? {
          return Failure(ReadError(filename));
        }
        var templateData := codec.load(templateContent.value);
        if templateData.None? {
          return Failure(YamlLoadError(filename));
        }
        if templateData.value.Null? {
          return Failure(TypeError);
        }
        env := Some(MergeEnv(RemoteEnv(templateData.value), LocalEnv(localData.value)));
        templateContent := codec.dump(DeletePath(templateData.value, ["env"]));
        if templateContent.None? {
          return Failure(YamlDumpError);
        }
      }
    }

    var block: Option<EnvBlock> := None;
    if env.Some? {
      var envText := codec.dump(EnvDocument(env.value));
      if envText.None? {
        return Failure(YamlDumpError);
      }
      block := Some(EnvBlock(env.value, envText.value));
    }
    if templateContent.None? {
      return Failure(ReadError(filename));
    }
    r := Success(IndexOutput(source, block, templateContent.value));
    tree.WriteFile(localPath, IndexText(r.value));
  }

  // Every template of one source

  function IndexTextOf(r: Result<IndexOutput, Error>): Result<string, Error> {
    if r.Success? then Success(IndexText(r.value)) else Failure(r.error)
  }

  /** The generator of index.js. */
  function IndexGenerator(clone: Clone, codec: YamlCodec, source: string): Generator {
    (f: map<string, string>, t: string) => IndexTextOf(IndexTemplateResult(f, clone, codec, source, t))
  }

  lemma IndexGeneratorReadsOwnFile(clone: Clone, codec: YamlCodec, source: string)
    ensures ReadsOwnFile(IndexGenerator(clone, codec, source))
  {
    var gen := IndexGenerator(clone, codec, source);
    forall f: map<string, string>, g: map<string, string>, t: string | Agree(f, g, LocalWorkflowPath(t))
      ensures gen(f, t) == gen(g, t)
    {
      assert IndexTemplateResult(f, clone, codec, source, t) == IndexTemplateResult(g, clone, codec, source, t);
    }
  }

  /** `ghat(source)` of index.js: the source is parsed, its workflows are
      found (none is a plain `Error`, not an `InputError`), and each is
      applied. */
  function IndexRun(files: map<string, string>, clone: Clone, codec: YamlCodec, source: string): (run: Run)
    ensures ParseRepo.Parse(source).Success? && IndexGetWorkflows(clone.root, clone.workflows) == Success([]) ==>
      run == Run(files, Some(PlainError("No workflows found in " + source)))
    ensures run.error.Some? ==> !run.error.value.InputError?
  {
    match ParseRepo.Parse(source)
    case Failure(e) => Run(files, Some(e))
    case Success(_) =>
      match IndexGetWorkflows(clone.root, clone.workflows)
      case Failure(e) => Run(files, Some(e))
      case Success(templates) =>
        if |templates| == 0 then Run(files, Some(PlainError("No workflows found in " + source)))
        else
          var gen := IndexGenerator(clone, codec, source);
          IndexRunErrors(files, gen, templates, clone, codec, source);
          ApplyEach(files, gen, templates)
  }

  /** No template step raises an `InputError`. */
  lemma {:induction false} IndexRunErrors(files: map<string, string>, gen: Generator, templates: seq<string>,
                                          clone: Clone, codec: YamlCodec, source: string)
    requires gen == IndexGenerator(clone, codec, source)
    ensures var e := ApplyEach(files, gen, templates).error; e.Some? ==> !e.value.InputError?
    decreases |templates|
  {
    if |templates| > 0 {
      IndexRunErrors(files, gen, templates[..|templates| - 1], clone, codec, source);
    }
  }

  /** With a well-formed download, the run succeeds exactly when the
      source parses, the glob finds workflows, and every one of them is
      generated. */
  lemma IndexRunSucceeds(files: map<string, string>, clone: Clone, codec: YamlCodec, source: string)
    requires SaneListing(clone.root) && SaneListing(clone.workflows)
    ensures IndexRun(files, clone, codec, source).error.None? <==>
      ParseRepo.Parse(source).Success? && IndexGetWorkflows(clone.root, clone.workflows).Success?
      && |IndexGetWorkflows(clone.root, clone.workflows).value| > 0
      && forall t | t in IndexGetWorkflows(clone.root, clone.workflows).value ::
           IndexTemplateResult(files, clone, codec, source, t).Success?
  {
    if ParseRepo.Parse(source).Success? && IndexGetWorkflows(clone.root, clone.workflows).Success? {
      IndexDistinctLocalPaths(clone.root, clone.workflows);
      IndexGeneratorReadsOwnFile(clone, codec, source);
      ApplyEachSucceeds(files, IndexGenerator(clone, codec, source), IndexGetWorkflows(clone.root, clone.workflows).value);
    }
  }

  method IndexGhat(tree: Tree, clone: Clone, codec: YamlCodec, source: string) returns (error: Option<Error>)
    modifies tree
    ensures Run(tree.files, error) == IndexRun(old(tree.files), clone, codec, source)
  {
    var repo := ParseRepo.Parse(source);
    if repo.Failure? {
      return Some(repo.error);
    }
    var templates := IndexGetWorkflows(clone.root, clone.workflows);
    if templates.Failure? {
      return Some(templates.error);
    }
    if |templates.value| == 0 {
      return Some(PlainError("No workflows found in " + source));
    }
    error := IndexApplyTemplates(tree, clone, codec, source, templates.value);
  }

  method IndexApplyTemplates(tree: Tree, clone: Clone, codec: YamlCodec, source: string, ts: seq<string>)
    returns (error: Option<Error>)
    modifies tree
    ensures Run(tree.files, error) == ApplyEach(old(tree.files), IndexGenerator(clone, codec, source), ts)
  {
    ghost var gen := IndexGenerator(clone, codec, source);
    error := None;
    var i := 0;
    while i < |ts|
      invariant i <= |ts|
      invariant Run(tree.files, error) == ApplyEach(old(tree.files), gen, ts[..i])
    {
      ApplyEachSnoc(old(tree.files), gen, ts, i);
      ghost var before := tree.files;
      var r := IndexApplyTemplate(tree, clone, codec, source, ts[i]);
      assert IndexTextOf(r) == gen(before, ts[i]);
      if r.Failure? && error.None? {
        error := Some(r.error);
      }
      i := i + 1;
    }
    assert ts[..i] == ts;
  }

  // The commit the downloader reports

  const CommitLit := "found matching commit hash: "

  /** `[\da-f]`: an ASCII digit or a lower-case hexadecimal letter. */
  predicate IsHashChar(c: char) {
    ('0' <= c <= '9') || ('a' <= c <= 'f')
  }

  predicate IsHash(h: string) {
    |h| == 40 && forall i | 0 <= i < |h| :: IsHashChar(h[i])
  }

  /** `commitRegex.exec(message)?.[1]`: the whole message must be the
      literal followed by exactly 40 hash characters. */
  function CommitOf(message: string): (r: Option<string>)
    ensures r.Some? ==> message == CommitLit + r.value && IsHash(r.value)
  {
    if StartsWith(message, CommitLit) && IsHash(message[|CommitLit|..]) then Some(message[|CommitLit|..])
    else None
  }

  /** Every message of that form is recognised, with its hash. */
  lemma CommitRoundTrip(h: string)
    requires IsHash(h)
    ensures CommitOf(CommitLit + h) == Some(h)
  {
    var m := CommitLit + h;
    assert m[..|CommitLit|] == CommitLit;
    assert m[|CommitLit|..] == h;
  }

  /** A message with anything before, after or instead of the hash, an
      upper-case letter or a hash of another length, is not recognised. */
  lemma CommitRejects(message: string)
    requires forall h | IsHash(h) :: message != CommitLit + h
    ensures CommitOf(message) == None
  {}

  /** The commit seen after one more `info` message. */
  function Watch(commit: Option<string>, message: string): (r: Option<string>)
    ensures CommitOf(message).Some? ==> r == CommitOf(message)
    ensures CommitOf(message).None? ==> r == commit
  {
    if CommitOf(message).Some? then CommitOf(message) else commit
  }

  /** The commit seen after the messages, in order. */
  function Watched(commit: Option<string>, messages: seq<string>): Option<string>
    decreases |messages|
  {
    if |messages| == 0 then commit
    else Watch(Watched(commit, messages[..|messages| - 1]), messages[|messages| - 1])
  }

  /** The commit kept is the hash of the last recognised message; with
      none, the commit is still unset. */
  lemma {:induction false} WatchedIsLast(messages: seq<string>)
    ensures Watched(None, messages).None? <==> forall i | 0 <= i < |messages| :: CommitOf(messages[i]).None?
    ensures Watched(None, messages).Some? ==> exists i | 0 <= i < |messages| ::
      CommitOf(messages[i]) == Watched(None, messages)
      && forall j | i < j < |messages| :: CommitOf(messages[j]).None?
    decreases |messages|
  {
    if |messages| > 0 {
      var last := |messages| - 1;
      var init := messages[..last];
      WatchedIsLast(init);
      assert forall i | 0 <= i < last :: init[i] == messages[i];
      if CommitOf(messages[last]).None? && Watched(None, init).Some? {
        var i :| 0 <= i < |init| && CommitOf(init[i]) == Watched(None, init)
          && forall j | i < j < |init| :: CommitOf(init[j]).None?;
        assert CommitOf(messages[i]) == Watched(None, messages);
      }
    }
  }

  /** The `info` listener of `ghat`: it keeps the last commit hash the
      downloader reported. */
  class CommitListener {
    var commit: Option<string>

    constructor ()
      ensures commit == None
    {
      commit := None;
    }

    method OnInfo(message: string)
      modifies this
      ensures commit == Watch(old(commit), message)
    {
      var commitMatch := CommitOf(message);
      if commitMatch.Some? {
        commit := commitMatch;
      }
    }
  }
}

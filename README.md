# ghat, modelled in Dafny

`ghat` copies GitHub Actions workflows from another repository into the
current one. You give it a *source*, such as `user/repo`,
`gitlab:user/repo#ref` or `https://host/user/repo/sub`. It downloads the
source and finds its workflow files. For each one it merges the `env`
block of the local copy over the template's, deletes the `exclude` paths,
assigns the `set` values, and writes the result under
`.github/workflows`. A comment header records where the file came from.
Run without a source, `ghat` reads those headers back and updates every
workflow it generated earlier (*resync*).

The project models four source files:

- `lib.ts`, the current engine: options validation, workflow discovery,
  the per-template merge, the provenance header and resync;
- `lib.js`, the earlier engine: the same merge with a one-line
  `# DO NOT EDIT BELOW, USE: npx ghat <args>` header, which `lib.ts`
  still recognises;
- `index.js`, the first version: it merges `env` only, discovers
  templates with a `*.yml` glob and watches the downloader's messages for
  the commit hash;
- `parse-repo.js`, the source-string parser: the regular expression, the
  host check and the URLs.

How the model is built:

- **YAML.** A parsed document is a `Yaml.Node` tree whose mappings keep
  insertion order. Loading and dumping are parameters
  (`Yaml.YamlCodec`); `None` stands for the library throwing.
- **Input state.** The local repository is a `WorkTree.Tree` holding a
  mutable `map` from path to text. Directory listings (`Discovery.Listing`)
  and the downloaded tree (`Discovery.Clone`) are inputs.
- **Updates in place.** Writes to the local tree are methods that update
  the `Tree`. Each one is proved equal to a function of the old files.
- **Concurrency.** `Promise.all` over the templates becomes one pass in
  template order (`MergeEngine.ApplyEach`). Every template is attempted,
  a failed one writes nothing, and the first failure is the run's error.
  Lemmas show that the order does not matter:
  - each template reads only its own local file;
  - the targets are pairwise distinct.
- **Regular expressions.** Each one is written out as the choice its
  alternatives and greedy quantifiers settle on:
  - `settingsParser` is `Provenance.ParseHeader`;
  - the source pattern is `ParseRepo.Read`;
  - `commitRegex` is `IndexJs.CommitOf`.

  `ParseRepo.Accepts` states the source grammar without the search
  order. `ParseRepo.BadSrcIffRejected` proves that the parser rejects
  exactly the strings outside it.

`lib.js` repeats `loadYamlFile`, `findYamlFiles` and `getWorkflows` from
`lib.ts` unchanged (lib.js:14-46). They are modelled once, by
`Yaml.LoadYamlFile`, `Discovery.FindYamlFiles` and
`Discovery.GetWorkflows`, which the `lib.ts` and `lib.js` engines use.
`index.js` has its own glob discovery (`IndexJs.IndexGetWorkflows`) and
reads its files its own way.

Where the code behaves differently from its own documentation, the model
follows the code:

- **Unreadable workflow.** `loadYamlFile` turns *any* read failure into
  an empty document (`.catch(() => '')`), not only a missing file.
- **Listing errors.** `findYamlFiles` re-throws every error that is not
  `ENOENT`. An unreadable directory is therefore an error
  (`DirectoryError`), not an empty listing.
- **`verbatim` conflicts.** `verbatim` is refused when `set` or
  `exclude` is present and truthy. An empty array is truthy, so
  `exclude: []` is refused too, while `exclude: ""` is accepted.
- **No workflows in `index.js`.** In `index.js`, "No workflows found" is
  a plain `Error`, not an `InputError`.
- **Sourcehut URLs.** For `git.sr.ht` the parser's domain is `git.sr.ht.`,
  with a trailing dot, and its URLs keep that dot.

## Model

| member | source | states |
|---|---|---|
| Strings.StripSuffix | parse-repo.js:36 | `.replace(/\.git$/, '')`: when the text ends with the suffix, the result followed by the suffix is the text; otherwise the text is unchanged |
| Strings.LowerAscii | lib.ts:24 | compared with the pattern's ASCII letters, a character matches under the `i` flag exactly when its ASCII lower case does: `A`-`Z` fold 32 code points down and every other character is kept |
| Strings.RunEnd | parse-repo.js:13 | a greedy `[...]*` stops at the first character outside the class, or at the end, and every character before it is in the class |
| Strings.SplitOnFirst | lib.ts:192 | cuts at the first `=`: the text is the head, `=` and the tail, and the head holds no `=`; with no `=` the head is the whole text |
| Strings.Split | lib.ts:182 | a dot-path's segments: at least one, none holds the separator, and joining them gives the path back |
| Strings.SplitJoin | lib.ts:182 | splitting a joined path gives back the segments when none holds the separator: splitting is the inverse of joining |
| Strings.Basename | lib.ts:157 | `path.basename`: a `/`-free suffix of the path, preceded by `/` when shorter than the path |
| Strings.JoinPath | lib.ts:39 | `path.join(dir, name)`: the path ends with the name; under a non-empty directory it is the directory, one `/`, and the name |
| Strings.NatToStringInjective | lib.ts:172 | different array indices print differently, so the keys a spread sequence contributes are distinct |
| Yaml.Keys | lib.ts:172 | a mapping's keys, in order, one per entry |
| Yaml.Find | lib.ts:172 | a property read: there is a value exactly when the key is present, and it is that entry's value |
| Yaml.Replace | lib.ts:172 | overwriting a present key: same keys in the same order, the new value there, every other key unchanged |
| Yaml.Put | lib.ts:172 | property assignment: the key reads the new value afterwards, other keys are unchanged, a present key keeps its place and a new key goes last |
| Yaml.Remove | lib.ts:176 | `delete`: the key is gone, every other key reads as before, and an absent key leaves the mapping unchanged |
| Yaml.PutUnique | lib.ts:172 | assignment keeps a mapping's keys unique |
| Yaml.RemoveUnique | lib.ts:176 | deletion keeps keys unique and only drops entries |
| Yaml.EnvOf | lib.ts:172 | `parsed.env` is found only on a mapping that has an `env` key |
| Yaml.Truthy | lib.ts:175 | JavaScript truthiness: every mapping and sequence is truthy, empty ones included, and `null` is falsy |
| Yaml.OwnEntries | lib.ts:172 | the own properties a spread copies: a mapping's entries, nothing for `undefined`, `null`, booleans and numbers |
| Yaml.OwnEntriesTruthy | lib.ts:175 | a value with own properties is truthy, so the `env &&` test adds nothing to the length test |
| Yaml.OwnEntriesUnique | lib.ts:172 | the properties spread from a well-formed value have pairwise distinct keys |
| Yaml.LoadYamlFile | lib.ts:26-32 | a missing or unreadable file gives empty text and `{}`; empty text parses to `{}`; any other text is what the loader returns for it; it fails exactly when non-empty text does not load, with that file's YAML error |
| Discovery.FilterNames | lib.ts:38 | a name is kept exactly when it is listed and passes; keeps everything when all pass; keeps distinct names distinct |
| Discovery.FilterNamesSingle | lib.ts:38 | a single name is kept exactly when it passes |
| Discovery.FilterNamesAppend | lib.ts:38 | filtering distributes over concatenation, so the kept names keep their listing order and multiplicity |
| Discovery.JoinAll | lib.ts:39 | each kept name is joined under the sub-directory, one path per name |
| Discovery.FindMatching | lib.ts:34-47 | a missing directory gives no files; an unreadable one is an error naming it; otherwise the result is exactly the listed names that match, joined under the directory |
| Discovery.FindYamlFiles | lib.ts:34-47 | the same, for names ending in `.yml` or `.yaml` |
| Discovery.GetWorkflows | lib.ts:49-58 | the YAML files at the top of the download when there is at least one; otherwise those of `.github/workflows`; an unreadable top directory is an error |
| Discovery.BasenameOfJoin | lib.ts:157 | the base name of a name joined under a directory is the name |
| Discovery.JoinPathInjective | lib.ts:39 | different names join to different paths |
| Discovery.JoinedTargetsDistinct | lib.ts:157 | the templates of one listing go to pairwise different local workflow paths |
| Discovery.DistinctLocalPaths | lib.ts:157 | every template `getWorkflows` returns is written to its own local path, so the parallel writes never collide |
| Discovery.LocalWorkflowPath | lib.ts:157 | a template is written under `.github/workflows/` |
| Discovery.LocalWorkflowPathBasename | lib.ts:157 | the local copy keeps the template's base name |
| DotPath.Segments | lib.ts:182 | a dot-path's segments: at least one, none holds `.`, and re-joining gives the path |
| DotPath.Get | lib.ts:182 | the empty path reads the node itself; a non-empty path resolves only through a mapping that holds its first segment |
| DotPath.DeletePath | lib.ts:182 | a root that is not a mapping is left alone; a mapping keeps every top-level key other than the first segment, gains no key, and loses that key when the path has one segment |
| DotPath.SetPath | lib.ts:193 | a root that is not a mapping is left alone; a mapping then holds the first segment, keeps every other top-level key, and holds the value there when the path has one segment |
| DotPath.ChildMapping | lib.ts:193 | assignment always descends into a mapping, creating or replacing one as needed |
| DotPath.GetAfterSet | lib.ts:193 | after `dotProp.set` on a mapping, reading the path gives the assigned value |
| DotPath.GetBelowSet | lib.ts:193 | everything below the assigned path is what lies below the assigned value |
| DotPath.SetKeepsApart | lib.ts:193 | assignment leaves every path apart from the assigned one unchanged |
| DotPath.SetWellFormed | lib.ts:193 | assignment keeps every mapping's keys unique |
| DotPath.DeleteRemovesBelow | lib.ts:182 | after `dotProp.delete`, nothing is left at the path or below it |
| DotPath.DeleteKeepsApart | lib.ts:182 | deletion leaves every path apart from the deleted one unchanged |
| DotPath.DeleteWellFormed | lib.ts:182 | deletion keeps every mapping's keys unique |
| Engine.MergeEnv | lib.ts:172 | the merged env holds exactly the keys of the template's env and of the local env |
| Engine.MergeEnvFind | lib.ts:172 | `{...remote, ...local}`: each key has the local value when the local env has it, the remote one otherwise |
| Engine.MergeEnvKeys | lib.ts:172 | the merged env starts with the remote keys, in their order |
| Engine.MergeEnvUnique | lib.ts:172 | merging keeps the env's keys unique |
| Engine.DeleteAll | lib.ts:181-183 | the exclude loop leaves a value that is not a mapping alone, and never adds a top-level key to a mapping |
| Engine.DeleteKeepsAbsent | lib.ts:182 | deleting never brings a path into existence |
| Engine.DeleteAllRemoves | lib.ts:181-183 | after the `exclude` loop, none of the excluded paths resolves |
| Engine.DeleteAllKeepsApart | lib.ts:181-183 | the `exclude` loop leaves every path apart from all excluded paths unchanged |
| Engine.DeleteAllKeepsAbsent | lib.ts:181-183 | the `exclude` loop creates nothing |
| Engine.DeleteAllMapping | lib.ts:181-183 | the `exclude` loop keeps a mapping a mapping |
| Engine.DeleteAllWellFormed | lib.ts:181-183 | the `exclude` loop keeps keys unique |
| Engine.SplitSetting | lib.ts:192 | `path=value` splits at the first `=`, so the path holds no `=`; a setting without `=` has the value `undefined`, which js-yaml loads as the text `undefined` |
| Engine.SetAll | lib.ts:191-194 | the `set` loop can fail only because a value does not load |
| Engine.SetAllSuccess | lib.ts:191-194 | the `set` loop succeeds exactly when every value loads |
| Engine.SetAllSucceeds | lib.ts:191-194 | when every value loads, the `set` loop succeeds |
| Engine.SetAllFailsAt | lib.ts:191-194 | the loop's error is the YAML error of the first value that fails to load |
| Engine.SetAllFailureExtends | lib.ts:191-194 | once a prefix of the settings fails, later settings change nothing |
| Engine.SetAllMapping | lib.ts:191-194 | the `set` loop keeps a mapping a mapping |
| Engine.SetAllLast | lib.ts:191-194 | the last setting's path reads its loaded value |
| Engine.SetAllHolds | lib.ts:191-194 | a setting whose path no later setting touches reads its own loaded value |
| Engine.SetAllKeepsApart | lib.ts:191-194 | paths apart from every setting's path are unchanged |
| Invocation.Normalize | lib.ts:129-135 | a string option becomes a one-element list, a list is kept, an absent option stays absent |
| Invocation.NormalizeFromList | lib.ts:129-135 | normalising a list option gives that list back |
| Invocation.Effective | lib.ts:180-199 | an option takes effect exactly when it is a non-empty list; an empty list becomes `undefined` |
| Invocation.EffectiveIdempotent | lib.ts:180-199 | clearing empty options a second time changes nothing |
| Invocation.Validate | lib.ts:114-135 | every refusal is an `InputError`; an accepted call with a source carries `verbatim` and the normalised lists |
| Invocation.ValidateResync | lib.ts:115-122 | resync is chosen exactly when there is no source and no option is truthy |
| Invocation.ValidateRefuses | lib.ts:115-126 | refused exactly when options come without a source, or `verbatim` comes with a truthy `set` or `exclude`; each case has its own message |
| Invocation.ValidateApplies | lib.ts:124-135 | with a source, an accepted call always downloads and applies |
| Invocation.VerbatimLists | lib.ts:124-126 | an accepted `verbatim` call has no lists beyond one empty string |
| Invocation.Given | lib.ts:116 | option truthiness: an array is given even when it is empty, and an absent option is not |
| Invocation.RecordedOptionsAccepted | lib.ts:101-103 | options read back from a header never make the repeated `ghat` call refuse |
| OptionsJson.Encode | lib.ts:212 | `JSON.stringify({exclude, set})` is braced, and is `{}` exactly when both lists are undefined |
| OptionsJson.Decode | lib.ts:78 | a rejected payload is a JSON error naming it; an accepted one starts with `{`; `{}` reads as no options |
| OptionsJson.HexRoundTrip | lib.ts:212 | a `\u00XX` escape digit reads back as its value |
| OptionsJson.EscapeCharRoundTrip | lib.ts:78 | `JSON.parse` reads one escaped character as that character |
| OptionsJson.EscapeRoundTrip | lib.ts:78 | a string escaped as `JSON.stringify` does reads back unchanged, with the rest after the closing quote |
| OptionsJson.QuoteRoundTrip | lib.ts:78 | a quoted string reads back unchanged |
| OptionsJson.ItemsRoundTrip | lib.ts:78 | a list's items read back in order |
| OptionsJson.ListRoundTrip | lib.ts:78 | an array of strings reads back, empty arrays included |
| OptionsJson.FieldRoundTrip | lib.ts:78 | a `"key":[...]` field reads back |
| OptionsJson.RoundTripBoth | lib.ts:78 | `{exclude, set}` with both lists reads back |
| OptionsJson.RoundTripExclude | lib.ts:78 | with `set` undefined, `JSON.stringify` drops the field and it reads back as missing |
| OptionsJson.RoundTripSet | lib.ts:78 | with `exclude` undefined, the field is dropped and reads back as missing |
| OptionsJson.RoundTrip | lib.ts:78 | `JSON.parse(JSON.stringify({exclude, set}))` gives back the same options |
| OptionsJson.EncodeShape | lib.ts:212 | the encoding is braced, holds no control character (so it stays on one line) and is longer than `{}` when a list is present |
| OptionsJson.EscapePrintable | lib.ts:212 | an escaped string holds no control character |
| OptionsJson.ItemsPrintable | lib.ts:212 | an encoded list holds no control character |
| OptionsJson.FieldPrintable | lib.ts:212 | an encoded field holds no control character |
| Provenance.ParseHeader | lib.ts:62 | the leftmost match of `settingsParser`: it lies at a `#`; a `source` is a non-empty rest of a line; `args` are non-empty and hold no line break or backquote |
| Provenance.OptionsLine | lib.ts:24 | the options group: a brace-delimited payload on one line, right after `\n# options: ` in any case |
| Provenance.CurrentHere | lib.ts:24 | the current header captures a non-empty one-line source |
| Provenance.LegacyHere | lib.ts:24 | the legacy header captures non-empty arguments without a line break or backquote |
| Provenance.AfterBelow | lib.ts:24 | after `do not edit below`, the separators then `use` lead to non-empty arguments |
| Provenance.AfterUse | lib.ts:24 | after `use`, the separators then `npx ghat ` lead to non-empty arguments |
| Provenance.ArgsOf | lib.ts:24 | the `args` group is a non-empty run without line breaks or backquotes |
| Provenance.LastOptionsFromIs | lib.ts:24 | the greedy `.+` makes the last options line win: the one with no other after it |
| Provenance.LastOptionsFromNone | lib.ts:24 | with no options line, the group is undefined |
| Provenance.NoHeaderWithoutHash | lib.ts:24 | a match starts with `#` |
| Provenance.ParseHeaderSkip | lib.ts:62 | text without `#` before a header does not change the leftmost match |
| Provenance.ParseHeaderHere | lib.ts:62 | a header at the start is the leftmost match |
| Provenance.Comments | lib.ts:205-214 | the `FILE GENERATED WITH` and `SOURCE` lines always, and the `OPTIONS` line with the JSON only when a list is in effect |
| Provenance.CurrentOf | lib.ts:24 | the generated line reads back the source and the options found after it |
| Provenance.OptionsFound | lib.ts:24 | the written options line is recovered |
| Provenance.OptionsAbsent | lib.ts:24 | without an options line, no options are recovered |
| Provenance.OptionsOfAfterSource | lib.ts:210-214 | the recovered options are the JSON written, or none when no list was in effect |
| Provenance.RenderLayout | lib.ts:216-221 | the written file is the dumped env, the comment lines one per line, an empty line and the body |
| Provenance.Render | lib.ts:216-221 | the written file starts with the dumped env and a line break, and ends with an empty line and the workflow body |
| Provenance.LegacyRender | lib.js:112-117 | the file starts with the dumped env, a line break and the legacy line with the arguments, and ends with an empty line and the body |
| Provenance.RenderRoundTrip | lib.ts:205-221 | reading a written file gives back its source and the options JSON written, or none |
| Provenance.NotCurrent | lib.ts:24 | a legacy line is never read as the current header |
| Provenance.LegacyHereOf | lib.ts:24 | the legacy line followed by text reads that text's argument run |
| Provenance.LegacyRoundTrip | lib.js:112-117 | when the dumped env holds no `#` and the arguments start with neither a line break nor a backquote, the file reads back as legacy with the arguments up to the first such character, and with all of them when they hold none |
| ParseRepo.HostA | parse-repo.js:13 | the first host alternative captures `[^:/]` characters with an inner dot, followed by `/` |
| ParseRepo.HostB | parse-repo.js:13 | the second captures a non-empty run of `[^:/]` after `git@`, followed by `:` or `/` |
| ParseRepo.HostC | parse-repo.js:13 | the third captures a non-empty prefix of the source that is followed by `:` |
| ParseRepo.Read | parse-repo.js:13-15 | a captured host is non-empty; a reading without a host is the `user/name` tail of the whole source; there is no reading only when that tail does not match either |
| ParseRepo.MatchTail | parse-repo.js:13 | the user and name groups are non-empty and made of their classes, and a ref is a non-empty single line; where each group starts and ends is stated by the two rows below |
| ParseRepo.TailForm | parse-repo.js:13 | on `user/name`, then any number of `/seg` segments, an optional `/` and an optional `#ref`, the user group ends at the first `/`, the name group at the end of the name, the sub-directory group holds every segment with its leading `/`, a trailing `/` is consumed without being captured, and the ref is the text after `#` |
| ParseRepo.MatchTailText | parse-repo.js:13 | conversely, whatever the rest of the pattern captures is laid out in the source, at its position, as `user/name`, the sub-directory group, an optional `/` and `#ref`, with nothing in between |
| ParseRepo.TailMatches | parse-repo.js:13 | the rest of the pattern matches at a position exactly when a user, `/` and a name character follow there |
| ParseRepo.ReadValid | parse-repo.js:13 | every reading of the pattern has such captures |
| ParseRepo.ReadSound | parse-repo.js:13 | whatever the pattern reads lies in the grammar: an optional host prefix, then user/name |
| ParseRepo.ReadComplete | parse-repo.js:13 | every string in the grammar is read |
| ParseRepo.BadSrcIffRejected | parse-repo.js:16-20 | `BAD_SRC` is thrown exactly for strings outside the grammar |
| ParseRepo.StripTld | parse-repo.js:22-25 | one final `.com` or `.org` is dropped from the host; a host with neither is kept |
| ParseRepo.Domain | parse-repo.js:40-42 | the domain is `bitbucket.org` for BitBucket, `git.sr.ht.` with a bare dot for Sourcehut, and the site plus `.com` for any other site |
| ParseRepo.DomainStrips | parse-repo.js:22-25 | a supported site other than git.sr.ht given as its own domain reads back as that site |
| ParseRepo.FromReading | parse-repo.js:22-33 | the site is the first captured host, or `github` when none was captured, with a final `.com`/`.org` dropped; the result is `UNSUPPORTED_HOST` exactly when that site is not supported, and otherwise the repository built for that very site |
| ParseRepo.Build | parse-repo.js:35-48 | a `.git` suffix is dropped from the name, the ref defaults to `HEAD`, the mode is `tar`, and the URL and ssh address use the site's domain |
| ParseRepo.BuildChars | parse-repo.js:43 | the built name keeps the name's characters and the URL is one line |
| ParseRepo.Parse | parse-repo.js:12-49 | `BAD_SRC` exactly when the pattern does not match; when it matches, `UNSUPPORTED_HOST` exactly when the reading's site is not supported; a result is on that site, with a non-empty user, a ref, and a one-line URL built from domain, user and name |
| ParseRepo.Shorthand | parse-repo.js:22-25 | `user/name[/seg...][/][#ref]` is GitHub, with the user, the name, the sub-directory `/seg...` and the ref read as written |
| ParseRepo.TemplateSource | parse-repo.js:12-49 | `fregante/ghat/templates/node` is the GitHub repository `fregante/ghat` with sub-directory `/templates/node` and ref `HEAD` |
| ParseRepo.HttpsForm | parse-repo.js:13 | `https://host/user/name[/seg...][/][#ref]` is the dotted host's site, without `.com`/`.org`, with user, name, sub-directory and ref read as written |
| ParseRepo.SshForm | parse-repo.js:13 | `git@host:user/name[/seg...][/][#ref]` is the host's site, with user, name, sub-directory and ref read as written |
| ParseRepo.ColonForm | parse-repo.js:13 | `host:user/name[/seg...][/][#ref]`, such as `gitlab:user/name`, is the host's site, with user, name, sub-directory and ref read as written |
| ParseRepo.UnsupportedDottedHost | parse-repo.js:26-33 | a dotted host outside the supported sites is `UNSUPPORTED_HOST` |
| ParseRepo.SshSlashDottedHost | parse-repo.js:13 | `git@github.com/u/r` is read through the first alternative with host `git@github.com`, so it is `UNSUPPORTED_HOST` |
| ParseRepo.DottedUser | parse-repo.js:13 | a dotted user followed by a sub-directory is read as a host: `my.user/repo/x` is `UNSUPPORTED_HOST` |
| MergeEngine.Prepare | lib.ts:169-203 | a `null` template fails with a `TypeError`; the recorded options are the lists in effect; the env is the merge of both envs; a re-dump is needed exactly when the template's env has at least one own property or a list is in effect, so an empty `env: {}` alone triggers none |
| MergeEngine.EnvPrecedence | lib.ts:172 | in the written env, the local value wins over the template's for every key |
| MergeEngine.EnvOrder | lib.ts:172 | the written env lists the template's keys first, in order |
| MergeEngine.PreparedTree | lib.ts:174-199 | the tree is the template without its env, then the `exclude` deletions, then the `set` assignments |
| MergeEngine.PrepareSameLists | lib.ts:180-199 | options that only differ by empty lists give the same draft |
| MergeEngine.OthersKept | lib.ts:174-199 | every path apart from `env`, the excluded paths and the set paths is as in the template |
| MergeEngine.ExcludedGone | lib.ts:180-188 | an excluded path that no setting touches is gone |
| MergeEngine.SettingApplied | lib.ts:190-199 | for a template that is a mapping, a set path that no later setting touches reads its loaded value |
| MergeEngine.EnvRemoved | lib.ts:175-178 | a template env with properties is absent from the body when every `set` path is apart from `env`; a setting such as `env.X=1` puts it back |
| MergeEngine.PrepareFails | lib.ts:172-193 | fails exactly for a `null` template or a `set` value that does not load |
| MergeEngine.Generate | lib.ts:164-221 | `verbatim` copies the template text; otherwise it fails exactly when the draft fails or a dump throws, and on success the header lines are the comments for the draft's options, the env text is the dump of `{env}` with the merged env, and the body is the compat-free dump of the changed tree or, when nothing changed, the template text |
| MergeEngine.UnchangedKeepsText | lib.ts:201-203 | with no template env and no list in effect, the template text is kept byte for byte and no options line is written |
| MergeEngine.HeaderReadsBack | lib.ts:205-221 | the written file's header reads back the source and the options in effect |
| MergeEngine.DeleteEach | lib.ts:181-183 | the in-place `exclude` loop computes the deletions in order |
| MergeEngine.SetEach | lib.ts:191-194 | the in-place `set` loop computes the assignments in order, stopping at the first value that does not load |
| MergeEngine.Transform | lib.ts:169-221 | the merge computes the generated text of the two loaded files |
| MergeEngine.TemplateResult | lib.ts:156-162 | an unloadable local workflow gives its YAML error, then an unloadable download gives the download's; a success loaded both; `verbatim` gives the downloaded text, or empty text when the file is missing |
| MergeEngine.ApplyTemplate | lib.ts:156-222 | on success only the local workflow path is written, with the generated text; on failure nothing is written |
| MergeEngine.TemplateGeneratorReadsOwnFile | lib.ts:157-162 | a template's output depends only on its own local file |
| MergeEngine.ApplyEach | lib.ts:224 | a run never removes a file |
| MergeEngine.ApplyEachElsewhere | lib.ts:224 | files that no template targets are not touched |
| MergeEngine.LastSeesOriginal | lib.ts:224 | with distinct targets, the last template reads its file as it was before the run |
| MergeEngine.ApplyEachIndependent | lib.ts:224 | with distinct targets, each template's file ends up as if that template ran alone: a pass writes its text and a failure leaves the file as it was |
| MergeEngine.ApplyEachSucceeds | lib.ts:224 | the run reports no error exactly when every template alone succeeds |
| MergeEngine.NoWorkflowsRefused | lib.ts:149-152 | a download without workflows is an `InputError` naming the source, and nothing is written |
| MergeEngine.SourceRun | lib.ts:137-224 | a run without error parsed the source and found at least one workflow; no file is removed; a parse or discovery failure writes nothing |
| MergeEngine.SourceRunSucceeds | lib.ts:137-224 | a run succeeds exactly when the source parses, workflows are found and every template succeeds |
| MergeEngine.ApplySource | lib.ts:137-224 | the method's files and error are those of the run on the old files |
| MergeEngine.ApplyTemplates | lib.ts:224 | the loop over the templates computes the pass in template order |
| Resync.ParseGhatConfig | lib.ts:60-80 | an unreadable file fails; a file yields a record exactly when the header pattern matches; a legacy header gives its arguments; a current header gives its source and options, which are present exactly when the options line matched and are its JSON decoded |
| Resync.Existing | lib.ts:83-90 | at most one record per listed path, and each record names a listed path |
| Resync.ExistingFails | lib.ts:84-90 | collecting fails exactly when one of the files fails |
| Resync.ExistingFinds | lib.ts:84-90 | the collected records are exactly those the files yield |
| Resync.ExistingFailureExtends | lib.ts:84-90 | the loop stops at the first failure |
| Resync.ExistingNone | lib.ts:84-90 | files without headers give no records |
| Resync.CollectExisting | lib.ts:84-90 | the sequential loop computes the collected records |
| Resync.NothingToResync | lib.ts:92-94 | with no record, the run is an `InputError` and writes nothing |
| Resync.DispatchAll | lib.ts:101-111 | the commands are the legacy records' arguments in record order; legacy records alone write nothing and report nothing |
| Resync.DispatchCommands | lib.ts:101-111 | the command lines handed on are exactly the arguments of the legacy records |
| Resync.RecoversOptions | lib.ts:60-80 | a file `ghat` wrote reads back as a record with its source and the lists in effect |
| Resync.SameListsSameOutput | lib.ts:101-103 | options with the same lists in effect generate the same output, so the recovered options reproduce the original output from the same files |
| Resync.RerunSource | lib.ts:102-103 | a current record runs `ghat` again with its source and recorded options, without `verbatim` |
| Resync.DispatchEach | lib.ts:101-111 | the dispatch loop computes the files, first error and commands of the records in order |
| Resync.ResyncRun | lib.ts:82-112 | a resync without error had a readable workflows directory and at least one record; any commands are the legacy arguments of the records found |
| Resync.HandleExisting | lib.ts:82-112 | `handleExisting` computes the resync of the records found |
| Resync.RefusedWritesNothing | lib.ts:115-126 | refused options write nothing and report their error |
| Resync.GhatRun | lib.ts:114-122 | legacy commands run only when resyncing; refused options write nothing and report the refusal |
| Resync.Ghat | lib.ts:114-225 | `ghat` computes validation, then resync or the source run |
| LibJs.LegacyGenerate | lib.js:80-117 | the header carries the arguments; it fails exactly when the draft fails or a dump throws; on success the env text is the dump of `{env}` with the merged env and the body is the compat-free dump of the changed tree or, when nothing changed, the template text |
| LibJs.SameAsCurrent | lib.js:80-110 | the legacy merge writes the same env and body as the current engine given the same lists, and fails the same way |
| LibJs.LegacyHeaderReadsBack | lib.js:112-117 | when the dumped env holds no `#` and the arguments are non-empty with no line break or backquote, a written legacy file reads back as legacy with its arguments |
| LibJs.LegacyRecognised | lib.js:114 | under the same conditions, the current engine reads a file that `lib.js` wrote as a legacy record with those arguments |
| LibJs.LegacyTemplateResult | lib.js:72-78 | an unloadable local workflow gives its YAML error, then an unloadable download gives the download's; the output carries the arguments |
| LibJs.LegacyApplyTemplate | lib.js:72-118 | on success only the local workflow path is written; on failure nothing is written |
| LibJs.LegacyTransform | lib.js:80-117 | the merge computes the legacy text of the two loaded files |
| LibJs.LegacyGeneratorReadsOwnFile | lib.js:73-78 | a template's output depends only on its own local file |
| LibJs.NoSourceRefused | lib.js:48-51 | without a source the run is an `InputError` and writes nothing |
| LibJs.LegacySourceRun | lib.js:48-120 | a run without error had a source that parses and found at least one workflow; no file is removed |
| LibJs.LegacySourceRunSucceeds | lib.js:48-120 | a run succeeds exactly when there is a source, it parses, workflows are found and every template succeeds |
| LibJs.LegacyRunWrites | lib.js:120 | each found template's file holds its own generated text, or is untouched when it fails |
| LibJs.LegacyGhat | lib.js:48-121 | the method's files and error are those of the run on the old files |
| LibJs.LegacyApplyTemplates | lib.js:120 | the loop computes the pass in template order |
| IndexJs.IndexGetWorkflows | index.js:39-52 | the top-level `*.yml` files when there is one, otherwise the `*.yml` files of `.github/workflows`; dot files do not match |
| IndexJs.IndexTemplatesAmongLib | index.js:39-52 | every template this glob finds is among those the current engine finds |
| IndexJs.IndexDistinctLocalPaths | index.js:17 | the templates go to pairwise different local paths |
| IndexJs.IndexGenerate | index.js:15-36 | an env block is written exactly when the local file loads to a value with a truthy `env`: it is the merge of both envs, and the body is the template re-dumped without `env`; otherwise the template text is kept; an unreadable template fails |
| IndexJs.IndexText | index.js:30-36 | the file starts with the `# Generated by` line naming the source, and ends with an empty line and the body |
| IndexJs.IndexEnvPrecedence | index.js:24 | `Object.assign`: the local value wins for every key |
| IndexJs.IndexTemplateEnvRemoved | index.js:25-26 | the re-dumped template has no `env` |
| IndexJs.DoNotEditNotHeader | index.js:33 | the `DO NOT EDIT BELOW` line cannot be read as a legacy header |
| IndexJs.IndexHeaderIgnored | index.js:30-36 | when the source and the dumped env hold no `#`, the header pattern reads an `index.js` file as it reads its body alone |
| IndexJs.IndexNotResynced | index.js:30-36 | when the source and the env hold no `#` and the body has no header, a resync skips a file that `index.js` wrote |
| IndexJs.IndexTemplateResult | index.js:15-36 | a missing template fails; a success names the source; without a merged env the body is the downloaded text |
| IndexJs.IndexApplyTemplate | index.js:15-37 | on success only the local workflow path is written; on failure nothing is written |
| IndexJs.IndexGeneratorReadsOwnFile | index.js:16-19 | a template's output depends only on its own local file |
| IndexJs.IndexRun | index.js:54-90 | a download without templates fails with a plain error naming the source; no error of a run is an `InputError` |
| IndexJs.IndexRunErrors | index.js:82-88 | no template step raises an `InputError` |
| IndexJs.IndexRunSucceeds | index.js:78-88 | a run succeeds exactly when the source parses, templates are found and each succeeds |
| IndexJs.IndexGhat | index.js:54-90 | the method's files and error are those of the run on the old files |
| IndexJs.IndexApplyTemplates | index.js:88 | the loop computes the pass in template order |
| IndexJs.CommitOf | index.js:13 | a match is the whole message: the literal followed by 40 lower-case hex digits |
| IndexJs.CommitRoundTrip | index.js:13 | every such message yields its hash |
| IndexJs.CommitRejects | index.js:13 | any other message yields nothing |
| IndexJs.Watch | index.js:61-67 | a matching message replaces the remembered commit, any other keeps it |
| IndexJs.WatchedIsLast | index.js:61-67 | the remembered commit is the hash of the last matching message, or none when no message matched |
| IndexJs.CommitListener.constructor | index.js:59 | no commit yet |
| IndexJs.CommitListener.OnInfo | index.js:61-70 | an `info` event updates the remembered commit as `Watch` says |
| WorkTree.Tree.WriteFile | lib.ts:216-221 | `writeFile` creates or replaces one file and leaves the others alone |

## Left out

- YAML text: the `js-yaml` parser and serialiser are parameters. Whether dump and load are inverse, and so whether a second run is byte-identical to the first, is not modelled.
- JSON: the decoder reads only the `{"exclude":[...],"set":[...]}` shape that `JSON.stringify` writes. Any other payload is a `JsonError`.
- `dot-prop` is not part of this model. `DotPath` follows its documented behaviour for plain keys: no `\.` escapes, no array indices, and sequences are not descended into. dot-prop ignores a whole `set` or `delete` whose path has a `__proto__`, `prototype` or `constructor` segment; `DotPath.SetPath` and `DotPath.DeletePath` treat those segments as ordinary keys.
- JavaScript objects list integer-like keys first. The model keeps every key in insertion order.
- Provenance.RenderRoundTrip: proved only when the dumped env has no `#` and no line of the body starts like an options line. Otherwise the header pattern can match there, as it does in the program.
- MergeEngine.HeaderReadsBack: the same hypotheses as `Provenance.RenderRoundTrip`, for the same reason.
- Resync.RecoversOptions: the same hypotheses as `Provenance.RenderRoundTrip`, for the same reason.
- Provenance.LegacyRoundTrip: proved only when the dumped env holds no `#` and the arguments start with neither a line break nor a backquote. Otherwise the pattern can match in the env, or the `args` group is empty or cut short, as in the program.
- LibJs.LegacyHeaderReadsBack: proved only when the dumped env holds no `#` and the arguments are non-empty with no line break or backquote, for the same reason.
- LibJs.LegacyRecognised: the same hypotheses as `LibJs.LegacyHeaderReadsBack`.
- IndexJs.IndexHeaderIgnored: proved only when the source and the dumped env hold no `#`. A `#` there can start a match, as in the program.
- IndexJs.IndexNotResynced: the same hypotheses as `IndexJs.IndexHeaderIgnored`, and the body must hold no header of its own.
- DotPath.SetKeepsApart: proved for documents without YAML aliases. js-yaml loads an alias `*x` as the very object of its anchor `&x`, and `dot-prop` changes that object in place, so in the program a change at one path shows at every path that reaches the shared object. A `Yaml.Node` tree never shares a node.
- DotPath.DeleteKeepsApart: proved for documents without YAML aliases, as for `DotPath.SetKeepsApart`.
- Engine.DeleteAllKeepsApart: proved for documents without YAML aliases, as for `DotPath.SetKeepsApart`.
- Engine.SetAllKeepsApart: proved for documents without YAML aliases, as for `DotPath.SetKeepsApart`.
- Engine.SetAllHolds: proved for documents without YAML aliases; in the program a later setting at an apart path that reaches the same shared object overwrites the value.
- MergeEngine.OthersKept: proved for documents without YAML aliases, as for `DotPath.SetKeepsApart`.
- MergeEngine.ExcludedGone: proved for documents without YAML aliases; in the program a setting at an apart path that reaches the same shared object brings the excluded path back.
- MergeEngine.SettingApplied: proved for documents without YAML aliases; in the program a later setting at an apart path that reaches the same shared object overwrites the value.
- Engine.SetAll: `undefined` is modelled as `null`. js-yaml loads a blank or comment-only value (`--set a=`) as `undefined` and `--set a=null` as `null`; `Yaml.Node` has one `Null` for both, so the tree the model stores is the same.
- MergeEngine.Generate: because `undefined` and `null` are one `Null`, the codec cannot dump them differently, while js-yaml writes `a: null` for `null` and leaves out a key that holds `undefined`.
- Concurrency: `Promise.all` is one pass in template order. A failed template writes nothing, and the first failure in that order is the error. The program's error is whichever rejection comes first in time. The same holds inside one template: `lib.ts` and `lib.js` load the local and the downloaded file together, and when both loads throw the model reports the local file's error, while the program reports whichever rejects first. `Resync.DispatchAll` likewise reruns the recorded sources one after another in record order, while `handleExisting` starts them together; records that share a source regenerate the same files, so the model's order is one schedule among several.
- File system and network results are inputs: `mkdtemp`, `mkdir`, `del`, `mkdirp`, the download and a failing `writeFile`.
- degit's own parse of the source is not part of this model. `ParseRepo.Parse` stands for it, and the subdirectory and ref are not applied to the download.
- `exec` of a legacy command line: the model records the argument text it would run and does not run it. Shell escaping of `argv` in `lib.js` is an input (`args`).
- `outdent` appears as the exact text it produces. The surrounding indentation and the leading and trailing newline it strips are not modelled.
- Logging: `console.log`, `console.error`, `chalk`, the `warn` listener and the rewriting of `options.` in messages.
- `index.js` reads the template before it loads the local file. If the local load throws, the pending template read is left unobserved. The model reports the local error.
- `globby`: file order is the listing order. Directories whose names end in `.yml` are not told apart from files.
- IndexJs.CommitListener: keeps the commit. Printing it, and `index.js` never using it afterwards, are not modelled.
- Merge failures are modelled as the `TypeError` that reading `remote.parsed.env` on `null` raises, and as load and dump errors. Other exceptions inside `js-yaml` or `dot-prop` are collapsed into these.

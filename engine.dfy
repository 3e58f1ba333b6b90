/** The tree transformations both generations of the engine apply to a
    template before writing it: merging the `env` mappings, deleting the
    `exclude` paths and assigning the `set` values. */
module Engine {
  import opened Wrappers
  import opened Strings
  import opened Errors
  import opened Yaml
  import opened DotPath

  /** `{...remote, ...local}`: the remote entries in order, then each
      local entry assigned over them. */
  function MergeEnv(remote: seq<Entry>, local: seq<Entry>): (r: seq<Entry>)
    ensures forall k :: k in Keys(r) <==> k in Keys(remote) || k in Keys(local)
    decreases |local|
  {
    if |local| == 0 then remote
    else
      var p := Put(remote, local[0].key, local[0].value);
      assert forall k :: k in Keys(p) <==> Find(p, k).Some?;
      assert Keys(local) == [local[0].key] + Keys(local[1..]);
      MergeEnv(p, local[1..])
  }

  /** A local value wins over a remote one; other remote values stay. */
  lemma {:induction false} MergeEnvFind(remote: seq<Entry>, local: seq<Entry>, k: string)
    requires UniqueKeys(local)
    ensures Find(MergeEnv(remote, local), k)
      == if Find(local, k).Some? then Find(local, k) else Find(remote, k)
    decreases |local|
  {
    if |local| > 0 {
      var e, tail := local[0], local[1..];
      assert forall i | 0 <= i < |tail| :: tail[i] == local[i + 1];
      assert Keys(local) == [e.key] + Keys(tail);
      MergeEnvFind(Put(remote, e.key, e.value), tail, k);
    }
  }

  /** Assigning one key keeps the keys already there, in their order. */
  lemma PutKeepsOrder(es: seq<Entry>, k: string, v: Node)
    ensures |Put(es, k, v)| >= |es| && Keys(Put(es, k, v))[..|es|] == Keys(es)
  {
    if k !in Keys(es) {
      assert Keys(es + [Entry(k, v)])[..|es|] == Keys(es);
    }
  }

  /** The merged keys start with the remote keys, in their order, as
      object spread keeps the first position of every key. */
  lemma {:induction false} MergeEnvKeys(remote: seq<Entry>, local: seq<Entry>)
    ensures |MergeEnv(remote, local)| >= |remote|
    ensures Keys(MergeEnv(remote, local))[..|remote|] == Keys(remote)
    decreases |local|
  {
    if |local| > 0 {
      var p := Put(remote, local[0].key, local[0].value);
      PutKeepsOrder(remote, local[0].key, local[0].value);
      MergeEnvKeys(p, local[1..]);
      assert MergeEnv(remote, local) == MergeEnv(p, local[1..]);
      var m := Keys(MergeEnv(p, local[1..]));
      forall i | 0 <= i < |remote| ensures m[i] == Keys(remote)[i] {
        assert m[..|p|][i] == m[i] && Keys(p)[..|remote|][i] == Keys(p)[i];
      }
      assert m[..|remote|] == Keys(remote);
    }
  }

  lemma {:induction false} MergeEnvUnique(remote: seq<Entry>, local: seq<Entry>)
    requires UniqueKeys(remote)
    ensures UniqueKeys(MergeEnv(remote, local))
    decreases |local|
  {
    if |local| > 0 {
      PutUnique(remote, local[0].key, local[0].value);
      MergeEnvUnique(Put(remote, local[0].key, local[0].value), local[1..]);
    }
  }

  /** `for (const path of exclude) dotProp.delete(tree, path)` */
  function DeleteAll(n: Node, paths: seq<string>): (r: Node)
    ensures !n.Mapping? ==> r == n
    ensures n.Mapping? ==> r.Mapping? && forall k | k in Keys(r.entries) :: k in Keys(n.entries)
    decreases |paths|
  {
    if |paths| == 0 then n
    else DeletePath(DeleteAll(n, paths[..|paths| - 1]), Segments(paths[|paths| - 1]))
  }

  /** Deleting never makes a path resolve. */
  lemma {:induction false} DeleteKeepsAbsent(n: Node, p: seq<string>, q: seq<string>)
    requires |p| >= 1 && Get(n, q).None?
    ensures Get(DeletePath(n, p), q).None?
    decreases p
  {
    if n.Mapping? && |q| >= 1 {
      if |p| == 1 {
        if q[0] != p[0] {
          assert Find(Remove(n.entries, p[0]), q[0]) == Find(n.entries, q[0]);
        }
      } else {
        match Find(n.entries, p[0])
        case Some(c) =>
          if c.Mapping? && q[0] == p[0] {
            DeleteKeepsAbsent(c, p[1..], q[1..]);
          }
        case None =>
      }
    }
  }

  /** No excluded path resolves after the deletions. */
  lemma {:induction false} DeleteAllRemoves(n: Node, paths: seq<string>, i: nat)
    requires i < |paths|
    ensures Get(DeleteAll(n, paths), Segments(paths[i])).None?
    decreases |paths|
  {
    var last := |paths| - 1;
    var prev := DeleteAll(n, paths[..last]);
    if i == last {
      DeleteRemovesBelow(prev, Segments(paths[i]), Segments(paths[i]));
    } else {
      assert paths[..last][i] == paths[i];
      DeleteAllRemoves(n, paths[..last], i);
      DeleteKeepsAbsent(prev, Segments(paths[last]), Segments(paths[i]));
    }
  }

  /** A path apart from every excluded path reads the same afterwards. */
  lemma {:induction false} DeleteAllKeepsApart(n: Node, paths: seq<string>, q: seq<string>)
    requires forall path | path in paths :: Apart(Segments(path), q)
    ensures Get(DeleteAll(n, paths), q) == Get(n, q)
    decreases |paths|
  {
    if |paths| > 0 {
      var last := |paths| - 1;
      var init := paths[..last];
      var m := DeleteAll(n, init);
      assert DeleteAll(n, paths) == DeletePath(m, Segments(paths[last]));
      assert paths[last] in paths;
      DeleteKeepsApart(m, Segments(paths[last]), q);
      assert forall path | path in init :: Apart(Segments(path), q) by {
        assert forall path | path in init :: path in paths;
      }
      DeleteAllKeepsApart(n, init, q);
    }

  }

  lemma {:induction false} DeleteAllWellFormed(n: Node, paths: seq<string>)
    requires WellFormed(n)
    ensures WellFormed(DeleteAll(n, paths))
    decreases |paths|
  {
    if |paths| > 0 {
      DeleteAllWellFormed(n, paths[..|paths| - 1]);
      DeleteWellFormed(DeleteAll(n, paths[..|paths| - 1]), Segments(paths[|paths| - 1]));
    }
  }

  /** `splitOnFirst(setting, '=')`: the path, and the text handed to
      `yaml.load`; a setting without `=` hands over `undefined`, which the
      loader reads as the text "undefined". */
  function SplitSetting(setting: string): (r: (string, string))
    ensures '=' in setting ==> r.0 + "=" + r.1 == setting && '=' !in r.0
    ensures '=' !in setting ==> r == (setting, "undefined")
  {
    var (path, value) := SplitOnFirst(setting, '=');
    (path, if value.Some? then value.value else "undefined")
  }

  /** `for (const setting of set) dotProp.set(tree, path, yaml.load(value))`:
      the first value the loader rejects stops the run. */
  function SetAll(load: string -> Option<Node>, n: Node, settings: seq<string>): (r: Result<Node, Error>)
    ensures r.Failure? ==> r.error.YamlLoadError?
    decreases |settings|
  {
    if |settings| == 0 then Success(n)
    else match SetAll(load, n, settings[..|settings| - 1])
      case Failure(e) => Failure(e)
      case Success(m) =>
        var (path, text) := SplitSetting(settings[|settings| - 1]);
        match load(text)
        case None => Failure(YamlLoadError(text))
        case Some(v) => Success(SetPath(m, Segments(path), v))
  }

  /** The value a setting assigns, if its text loads. */
  function SettingValue(load: string -> Option<Node>, setting: string): Option<Node> {
    load(SplitSetting(setting).1)
  }

  /** When every value loads, the run succeeds. */
  lemma {:induction false} SetAllSucceeds(load: string -> Option<Node>, n: Node, settings: seq<string>)
    requires forall s | s in settings :: SettingValue(load, s).Some?
    ensures SetAll(load, n, settings).Success?
    decreases |settings|
  {
    if |settings| > 0 {
      var init := settings[..|settings| - 1];
      assert forall s | s in init :: s in settings;
      SetAllSucceeds(load, n, init);
      assert settings[|settings| - 1] in settings;
    }
  }

  /** The run succeeds exactly when every value loads. */
  lemma {:induction false} SetAllSuccess(load: string -> Option<Node>, n: Node, settings: seq<string>)
    ensures SetAll(load, n, settings).Success? <==> forall s | s in settings :: SettingValue(load, s).Some?
    decreases |settings|
  {
    if |settings| > 0 {
      var init := settings[..|settings| - 1];
      var last := settings[|settings| - 1];
      SetAllSuccess(load, n, init);
      assert SetAll(load, n, settings).Success? <==>
        SetAll(load, n, init).Success? && SettingValue(load, last).Some?;
      assert settings == init + [last];
      assert forall s :: s in settings <==> s in init || s == last;
    }
  }

  /** Deleting from a tree keeps a path that does not resolve unresolved. */
  lemma {:induction false} DeleteAllKeepsAbsent(n: Node, paths: seq<string>, q: seq<string>)
    requires Get(n, q).None?
    ensures Get(DeleteAll(n, paths), q).None?
    decreases |paths|
  {
    if |paths| > 0 {
      DeleteAllKeepsAbsent(n, paths[..|paths| - 1], q);
      DeleteKeepsAbsent(DeleteAll(n, paths[..|paths| - 1]), Segments(paths[|paths| - 1]), q);
    }
  }

  /** Deleting from a mapping leaves a mapping. */
  lemma {:induction false} DeleteAllMapping(n: Node, paths: seq<string>)
    requires n.Mapping?
    ensures DeleteAll(n, paths).Mapping?
    decreases |paths|
  {
    if |paths| > 0 {
      DeleteAllMapping(n, paths[..|paths| - 1]);
    }
  }

  /** The first value that fails to load is the error of the run. */
  lemma SetAllFailsAt(load: string -> Option<Node>, n: Node, settings: seq<string>, i: nat)
    requires i < |settings| && SettingValue(load, settings[i]).None?
    requires forall s | s in settings[..i] :: SettingValue(load, s).Some?
    ensures SetAll(load, n, settings) == Failure(YamlLoadError(SplitSetting(settings[i]).1))
  {
    var pre := settings[..i + 1];
    assert pre[..i] == settings[..i] && pre[i] == settings[i];
    SetAllSucceeds(load, n, settings[..i]);
    SetAllFailureExtends(load, n, settings, i + 1);
  }

  /** Setting a mapping keeps it a mapping. */
  lemma {:induction false} SetAllMapping(load: string -> Option<Node>, n: Node, settings: seq<string>)
    requires n.Mapping? && SetAll(load, n, settings).Success?
    ensures SetAll(load, n, settings).value.Mapping?
    decreases |settings|
  {
    if |settings| > 0 {
      SetAllMapping(load, n, settings[..|settings| - 1]);
    }
  }

  /** The last setting is what its path reads afterwards. */
  lemma SetAllLast(load: string -> Option<Node>, n: Node, settings: seq<string>)
    requires n.Mapping? && |settings| >= 1 && SetAll(load, n, settings).Success?
    ensures var s := settings[|settings| - 1];
      Get(SetAll(load, n, settings).value, Segments(SplitSetting(s).0)) == SettingValue(load, s)
  {
    var init := settings[..|settings| - 1];
    SetAllMapping(load, n, init);
    var s := settings[|settings| - 1];
    GetAfterSet(SetAll(load, n, init).value, Segments(SplitSetting(s).0), SettingValue(load, s).value);
  }

  /** A setting holds afterwards when every later setting's path is apart
      from its path. */
  lemma {:induction false} SetAllHolds(load: string -> Option<Node>, n: Node, settings: seq<string>, i: nat)
    requires n.Mapping? && i < |settings| && SetAll(load, n, settings).Success?
    requires forall j | i < j < |settings| ::
      Apart(Segments(SplitSetting(settings[j]).0), Segments(SplitSetting(settings[i]).0))
    ensures Get(SetAll(load, n, settings).value, Segments(SplitSetting(settings[i]).0))
      == SettingValue(load, settings[i])
    decreases |settings|
  {
    var last := |settings| - 1;
    if i == last {
      SetAllLast(load, n, settings);
    } else {
      var init := settings[..last];
      assert init[i] == settings[i];
      assert forall j | i < j < |init| :: init[j] == settings[j];
      SetAllHolds(load, n, init, i);
      var (path, text) := SplitSetting(settings[last]);
      SetKeepsApart(SetAll(load, n, init).value, Segments(path), load(text).value,
        Segments(SplitSetting(settings[i]).0));
    }
  }

  /** A path apart from every setting's path reads the same afterwards. */
  lemma {:induction false} SetAllKeepsApart(load: string -> Option<Node>, n: Node, settings: seq<string>, q: seq<string>)
    requires SetAll(load, n, settings).Success?
    requires forall i | 0 <= i < |settings| :: Apart(Segments(SplitSetting(settings[i]).0), q)
    ensures Get(SetAll(load, n, settings).value, q) == Get(n, q)
    decreases |settings|
  {
    if |settings| > 0 {
      var last := |settings| - 1;
      var init := settings[..last];
      assert forall i | 0 <= i < last :: init[i] == settings[i];
      SetAllKeepsApart(load, n, init, q);
      var (path, text) := SplitSetting(settings[last]);
      SetKeepsApart(SetAll(load, n, init).value, Segments(path), load(text).value, q);
    }
  }

  /** Once a prefix of the settings fails, the whole run fails the same way. */
  lemma {:induction false} SetAllFailureExtends(load: string -> Option<Node>, n: Node, settings: seq<string>, i: nat)
    requires i <= |settings| && SetAll(load, n, settings[..i]).Failure?
    ensures SetAll(load, n, settings) == SetAll(load, n, settings[..i])
    decreases |settings| - i
  {
    if i < |settings| {
      assert settings[..i + 1][..i] == settings[..i];
      SetAllFailureExtends(load, n, settings, i + 1);
    } else {
      assert settings[..i] == settings;
    }
  }
}

/** Finding the workflow files of a directory tree: the YAML files at its
    root if there are any ("template repository"), otherwise those in its
    `.github/workflows` directory ("regular repository"). A directory
    listing is given as an input (`readdir` is not modelled). */
module Discovery {
  import opened Wrappers
  import opened Strings
  import opened Errors

  /** What `readdir` gives: the entry names in enumeration order, ENOENT,
      or any other failure. */
  datatype Listing = Listed(names: seq<string>) | NotFound | Unreadable

  const WorkflowsDir: string := ".github/workflows"

  /** A downloaded copy of a source: the listing of its root, the listing
      of its `.github/workflows`, and the files by path relative to the
      download directory. */
  datatype Clone = Clone(root: Listing, workflows: Listing, files: map<string, string>)

  /** `/\.ya?ml$/` */
  predicate IsYamlName(name: string) {
    EndsWith(name, ".yml") || EndsWith(name, ".yaml")
  }

  predicate Distinct(s: seq<string>) {
    forall i, j | 0 <= i < j < |s| :: s[i] != s[j]
  }

  /** `names.filter(keep)`: the kept names, in listing order. */
  function FilterNames(names: seq<string>, keep: string -> bool): (r: seq<string>)
    ensures |r| <= |names|
    ensures forall x :: x in r <==> x in names && keep(x)
    ensures (forall i | 0 <= i < |names| :: keep(names[i])) ==> r == names
    ensures Distinct(names) ==> Distinct(r)
  {
    if |names| == 0 then []
    else
      var rest := FilterNames(names[1..], keep);
      assert forall x :: x in names <==> x == names[0] || x in names[1..];
      if keep(names[0]) then [names[0]] + rest else rest
  }

  /** One name is kept exactly when it passes. */
  lemma FilterNamesSingle(x: string, keep: string -> bool)
    ensures FilterNames([x], keep) == if keep(x) then [x] else []
  {
    assert [x][1..] == [];
  }

  /** Filtering a listing in two parts keeps the kept names of the first
      part before those of the second: together with `FilterNamesSingle`,
      the result is the passing names, each as often as listed, in listing
      order. */
  lemma {:induction false} FilterNamesAppend(a: seq<string>, b: seq<string>, keep: string -> bool)
    ensures FilterNames(a + b, keep) == FilterNames(a, keep) + FilterNames(b, keep)
    decreases |a|
  {
    if |a| == 0 {
      assert a + b == b;
    } else {
      assert (a + b)[1..] == a[1..] + b;
      FilterNamesAppend(a[1..], b, keep);
    }
  }

  /** Each name joined under `sub` (`path.join(...sub, filename)`). */
  function JoinAll(sub: string, names: seq<string>): (r: seq<string>)
    ensures |r| == |names|
    ensures forall i | 0 <= i < |names| :: r[i] == JoinPath(sub, names[i])
  {
    seq(|names|, i requires 0 <= i < |names| => JoinPath(sub, names[i]))
  }

  /** The entries of a listing that `keep` accepts, joined under `sub`; a
      missing directory gives none, any other listing failure is thrown. */
  function FindMatching(listing: Listing, sub: string, keep: string -> bool): (r: Result<seq<string>, Error>)
    ensures r.Failure? <==> listing.Unreadable?
    ensures r.Failure? ==> r.error == DirectoryError(sub)
    ensures listing.NotFound? ==> r == Success([])
    ensures listing.Listed? ==> r.Success?
    ensures listing.Listed? ==>
      forall p :: p in r.value <==> exists n | n in listing.names :: keep(n) && p == JoinPath(sub, n)
  {
    match listing
    case NotFound => Success([])
    case Unreadable => Failure(DirectoryError(sub))
    case Listed(names) =>
      var kept := FilterNames(names, keep);
      var r := JoinAll(sub, kept);
      assert forall p :: p in r ==> exists n | n in names :: keep(n) && p == JoinPath(sub, n) by {
        forall p | p in r ensures exists n | n in names :: keep(n) && p == JoinPath(sub, n) {
          var i :| 0 <= i < |r| && r[i] == p;
          assert kept[i] in kept;
        }
      }
      assert forall n | n in names && keep(n) :: JoinPath(sub, n) in r by {
        forall n | n in names && keep(n) ensures JoinPath(sub, n) in r {
          var i :| 0 <= i < |kept| && kept[i] == n;
          assert r[i] == JoinPath(sub, n);
        }
      }
      Success(r)
  }

  /** `findYamlFiles(cwd, ...sub)`: the YAML entries of the listing joined
      under `sub`. */
  function FindYamlFiles(listing: Listing, sub: string): (r: Result<seq<string>, Error>)
    ensures r.Failure? <==> listing.Unreadable?
    ensures r.Failure? ==> r.error == DirectoryError(sub)
    ensures listing.NotFound? ==> r == Success([])
    ensures listing.Listed? ==> r.Success?
    ensures listing.Listed? ==>
      forall p :: p in r.value <==> exists n | n in listing.names :: IsYamlName(n) && p == JoinPath(sub, n)
  {
    FindMatching(listing, sub, IsYamlName)
  }

  /** `getWorkflows(directory)`: the root's YAML files when there is at
      least one, and then the workflows directory is not consulted;
      otherwise the YAML files of `.github/workflows`. */
  function GetWorkflows(root: Listing, workflows: Listing): (r: Result<seq<string>, Error>)
    ensures root.Unreadable? ==> r == Failure(DirectoryError(""))
    ensures root.Listed? && FilterNames(root.names, IsYamlName) != [] ==>
      r == Success(FilterNames(root.names, IsYamlName))
    ensures root.NotFound? || (root.Listed? && FilterNames(root.names, IsYamlName) == []) ==>
      r == FindYamlFiles(workflows, WorkflowsDir)
    ensures root.NotFound? && workflows.NotFound? ==> r == Success([])
  {
    match FindYamlFiles(root, "")
    case Failure(e) => Failure(e)
    case Success(local) =>
      if |local| > 0 then
        assert JoinAll("", FilterNames(root.names, IsYamlName)) == FilterNames(root.names, IsYamlName);
        Success(local)
      else FindYamlFiles(workflows, WorkflowsDir)
  }

  /** Where a template is written: `.github/workflows/<basename>`. */
  function LocalWorkflowPath(filename: string): (r: string)
    ensures |r| > |WorkflowsDir| && r[..|WorkflowsDir|] == WorkflowsDir && r[|WorkflowsDir|] == '/'
  {
    JoinPath(WorkflowsDir, Basename(filename))
  }

  /** The base name of a joined path is the name itself. */
  lemma BasenameOfJoin(dir: string, name: string)
    requires '/' !in name
    ensures Basename(JoinPath(dir, name)) == name
  {
    if dir == "" {
      BasenameAfterSlash("", name);
    } else {
      assert JoinPath(dir, name) == (dir + "/") + name;
      BasenameAfterSlash(dir + "/", name);
    }
  }

  /** Behind an empty prefix or one that ends with `/`, a `/`-free name
      is its own base name. */
  lemma {:induction false} BasenameAfterSlash(pre: string, name: string)
    requires '/' !in name && (pre == "" || pre[|pre| - 1] == '/')
    ensures Basename(pre + name) == name
    decreases |name|
  {
    var path := pre + name;
    if |name| > 0 {
      var init, last := name[..|name| - 1], name[|name| - 1];
      assert name == init + [last];
      assert path == (pre + init) + [last];
      assert path[..|path| - 1] == pre + init;
      assert last != '/' by { assert last in name; }
      assert Basename(path) == Basename(pre + init) + [last];
      assert '/' !in init by { assert forall c | c in init :: c in name; }
      BasenameAfterSlash(pre, init);
    } else {
      assert path == pre;
    }
  }

  /** The local copy of a template keeps its base name. */
  lemma LocalWorkflowPathBasename(filename: string)
    ensures Basename(LocalWorkflowPath(filename)) == Basename(filename)
  {
    BasenameOfJoin(WorkflowsDir, Basename(filename));
  }

  lemma JoinPathInjective(dir: string, a: string, b: string)
    ensures JoinPath(dir, a) == JoinPath(dir, b) ==> a == b
  {
    if dir != "" && JoinPath(dir, a) == JoinPath(dir, b) {
      assert JoinPath(dir, a)[|dir| + 1..] == a;
      assert JoinPath(dir, b)[|dir| + 1..] == b;
    }
  }

  /** Listing names never hold a '/', and one directory lists a name once. */
  predicate SaneListing(l: Listing) {
    l.Listed? ==> Distinct(l.names) && forall i | 0 <= i < |l.names| :: '/' !in l.names[i]
  }

  /** The entries one listing contributes are written to pairwise
      different local paths. */
  lemma JoinedTargetsDistinct(l: Listing, sub: string, keep: string -> bool, ts: seq<string>)
    requires SaneListing(l) && l.Listed? && ts == JoinAll(sub, FilterNames(l.names, keep))
    ensures forall i, j | 0 <= i < j < |ts| :: LocalWorkflowPath(ts[i]) != LocalWorkflowPath(ts[j])
  {
    var names := FilterNames(l.names, keep);
    forall i, j | 0 <= i < j < |ts| ensures LocalWorkflowPath(ts[i]) != LocalWorkflowPath(ts[j]) {
      assert names[i] in l.names && names[j] in l.names;
      BasenameOfJoin(sub, names[i]);
      BasenameOfJoin(sub, names[j]);
      JoinPathInjective(WorkflowsDir, names[i], names[j]);
    }
  }

  /** The templates found in one run are written to pairwise different
      local paths, so the concurrent per-file writes never collide. */
  lemma DistinctLocalPaths(root: Listing, workflows: Listing)
    requires SaneListing(root) && SaneListing(workflows)
    requires GetWorkflows(root, workflows).Success?
    ensures var ts := GetWorkflows(root, workflows).value;
      forall i, j | 0 <= i < j < |ts| :: LocalWorkflowPath(ts[i]) != LocalWorkflowPath(ts[j])
  {
    var ts := GetWorkflows(root, workflows).value;
    var firstTier := root.Listed? && FilterNames(root.names, IsYamlName) != [];
    var lst := if firstTier then root else workflows;
    var sub := if firstTier then "" else WorkflowsDir;
    if |ts| > 0 {
      assert lst.Listed?;
      var names := FilterNames(lst.names, IsYamlName);
      assert ts == JoinAll(sub, names) by {
        if firstTier {
          assert JoinAll("", names) == names;
        } else {
          assert FindYamlFiles(workflows, WorkflowsDir) == Success(JoinAll(sub, names));
        }
      }
      JoinedTargetsDistinct(lst, sub, IsYamlName, ts);
    }
  }
}

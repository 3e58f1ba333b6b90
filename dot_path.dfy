/** Dot-separated paths into a YAML tree, and the two mutations the
    engine applies with them: deleting the value at a path (`exclude`)
    and assigning a value at a path (`set`). These stand in for the
    `dot-prop` library, whose code is not part of this model; they follow
    the documented semantics: each segment is a plain key (no escaping),
    only mappings are descended into, deletion is a no-op when the path
    does not resolve, assignment creates missing intermediate mappings and
    replaces intermediate values that are not mappings, and neither
    touches a tree whose root is not a mapping. */
module DotPath {
  import opened Wrappers
  import opened Strings
  import opened Yaml

  /** `"jobs.build.timeout"` -> `["jobs", "build", "timeout"]`. */
  function Segments(path: string): (r: seq<string>)
    ensures |r| >= 1 && Join(r, '.') == path
    ensures forall i | 0 <= i < |r| :: '.' !in r[i]
  {
    Split(path, '.')
  }

  /** The value found by following `p` through mappings from `n`. */
  function Get(n: Node, p: seq<string>): (r: Option<Node>)
    ensures |p| == 0 ==> r == Some(n)
    ensures |p| >= 1 && r.Some? ==> n.Mapping? && p[0] in Keys(n.entries)
    decreases p
  {
    if |p| == 0 then Some(n)
    else if !n.Mapping? then None
    else match Find(n.entries, p[0])
      case None => None
      case Some(c) => Get(c, p[1..])
  }

  predicate IsPrefix(p: seq<string>, q: seq<string>) {
    |p| <= |q| && q[..|p|] == p
  }

  /** Neither path lies on the other: they part at some segment. */
  predicate Apart(p: seq<string>, q: seq<string>) {
    !IsPrefix(p, q) && !IsPrefix(q, p)
  }

  /** `dotProp.delete(n, path)`. */
  function DeletePath(n: Node, p: seq<string>): (r: Node)
    requires |p| >= 1
    ensures !n.Mapping? ==> r == n
    ensures n.Mapping? ==> r.Mapping? && forall k | k != p[0] :: Find(r.entries, k) == Find(n.entries, k)
    ensures n.Mapping? ==> forall k | k in Keys(r.entries) :: k in Keys(n.entries)
    ensures n.Mapping? && |p| == 1 ==> p[0] !in Keys(r.entries)
    decreases p
  {
    if !n.Mapping? then n
    else if |p| == 1 then Mapping(Remove(n.entries, p[0]))
    else match Find(n.entries, p[0])
      case Some(c) =>
        if c.Mapping? then Mapping(Put(n.entries, p[0], DeletePath(c, p[1..]))) else n
      case None => n
  }

  /** The mapping found under `k`, or a fresh empty one in its place. */
  function ChildMapping(es: seq<Entry>, k: string): (c: Node)
    ensures c.Mapping?
  {
    match Find(es, k)
    case Some(c) => if c.Mapping? then c else Mapping([])
    case None => Mapping([])
  }

  /** `dotProp.set(n, path, v)`. */
  function SetPath(n: Node, p: seq<string>, v: Node): (r: Node)
    requires |p| >= 1
    ensures !n.Mapping? ==> r == n
    ensures n.Mapping? ==> r.Mapping? && Find(r.entries, p[0]).Some?
    ensures n.Mapping? ==> forall k | k != p[0] :: Find(r.entries, k) == Find(n.entries, k)
    ensures n.Mapping? && |p| == 1 ==> Find(r.entries, p[0]) == Some(v)
    decreases p
  {
    if !n.Mapping? then n
    else if |p| == 1 then Mapping(Put(n.entries, p[0], v))
    else Mapping(Put(n.entries, p[0], SetPath(ChildMapping(n.entries, p[0]), p[1..], v)))
  }

  /** Two paths that start with the same segment are prefixes of each
      other exactly as their tails are. */
  lemma PrefixTail(p: seq<string>, q: seq<string>)
    requires |p| >= 1 && |q| >= 1 && p[0] == q[0]
    ensures |p| == 1 ==> IsPrefix(p, q)
    ensures |p| > 1 && IsPrefix(p[1..], q[1..]) ==> IsPrefix(p, q)
  {
    if |p| == 1 {
      assert q[..1] == [q[0]];
    } else if IsPrefix(p[1..], q[1..]) {
      assert q[..|p|] == [q[0]] + q[1..][..|p| - 1];
    }
  }

  /** After assigning at `p`, reading `p` gives the assigned value. */
  lemma {:induction false} GetAfterSet(n: Node, p: seq<string>, v: Node)
    requires |p| >= 1 && n.Mapping?
    ensures Get(SetPath(n, p, v), p) == Some(v)
    decreases p
  {
    if |p| > 1 {
      GetAfterSet(ChildMapping(n.entries, p[0]), p[1..], v);
    }
  }

  /** Below an assigned path, reading finds what is below in the value. */
  lemma {:induction false} GetBelowSet(n: Node, p: seq<string>, v: Node, rest: seq<string>)
    requires |p| >= 1 && n.Mapping?
    ensures Get(SetPath(n, p, v), p + rest) == Get(v, rest)
    decreases p
  {
    assert (p + rest)[0] == p[0] && (p + rest)[1..] == p[1..] + rest;
    if |p| > 1 {
      GetBelowSet(ChildMapping(n.entries, p[0]), p[1..], v, rest);
    }
  }

  /** Reading two or more segments into a mapping reads on from the
      child mapping; a missing or non-mapping child reads nothing. */
  lemma GetThroughChild(n: Node, q: seq<string>)
    requires n.Mapping? && |q| >= 2
    ensures Get(n, q) == Get(ChildMapping(n.entries, q[0]), q[1..])
  {
    match Find(n.entries, q[0])
    case Some(c) =>
      if !c.Mapping? {
        NonMappingHasNothingBelow(c, q[1..]);
      }
    case None =>
  }

  /** Assigning at `p` changes nothing at a path apart from `p`. */
  lemma {:induction false} SetKeepsApart(n: Node, p: seq<string>, v: Node, q: seq<string>)
    requires |p| >= 1 && Apart(p, q)
    ensures Get(SetPath(n, p, v), q) == Get(n, q)
    decreases p
  {
    assert |q| >= 1 by { assert q[..0] == [] == p[..0]; }
    if n.Mapping? && q[0] == p[0] {
      PrefixTail(p, q);
      PrefixTail(q, p);
      var c := ChildMapping(n.entries, p[0]);
      SetKeepsApart(c, p[1..], v, q[1..]);
      GetThroughChild(n, q);
    }
  }

  /** After deleting `p`, nothing is found at `p` or below it. */
  lemma {:induction false} DeleteRemovesBelow(n: Node, p: seq<string>, q: seq<string>)
    requires |p| >= 1 && IsPrefix(p, q)
    ensures Get(DeletePath(n, p), q) == None
    decreases p
  {
    assert q[0] == p[0] by { assert q[..|p|][0] == q[0]; }
    if n.Mapping? && |p| > 1 {
      assert IsPrefix(p[1..], q[1..]) by { assert q[1..][..|p| - 1] == q[..|p|][1..]; }
      match Find(n.entries, p[0])
      case Some(c) =>
        if c.Mapping? {
          DeleteRemovesBelow(c, p[1..], q[1..]);
        } else {
          NonMappingHasNothingBelow(c, q[1..]);
        }
      case None =>
    }
  }

  lemma NonMappingHasNothingBelow(n: Node, q: seq<string>)
    requires !n.Mapping? && |q| >= 1
    ensures Get(n, q) == None
  {
  }

  /** Deleting `p` changes nothing at a path apart from `p`. */
  lemma {:induction false} DeleteKeepsApart(n: Node, p: seq<string>, q: seq<string>)
    requires |p| >= 1 && Apart(p, q)
    ensures Get(DeletePath(n, p), q) == Get(n, q)
    decreases p
  {
    if n.Mapping? && q[0] == p[0] {
      PrefixTail(p, q);
      PrefixTail(q, p);
      match Find(n.entries, p[0])
      case Some(c) =>
        if c.Mapping? {
          DeleteKeepsApart(c, p[1..], q[1..]);
        }
      case None =>
    }
  }

  /** Deleting keeps every mapping's keys unique. */
  lemma {:induction false} DeleteWellFormed(n: Node, p: seq<string>)
    requires |p| >= 1 && WellFormed(n)
    ensures WellFormed(DeletePath(n, p))
    decreases p
  {
    if n.Mapping? {
      var es := n.entries;
      if |p| == 1 {
        RemoveUnique(es, p[0]);
        var r := Remove(es, p[0]);
        forall i | 0 <= i < |r| ensures WellFormed(r[i].value) {
          assert r[i] in es;
        }
      } else {
        match Find(es, p[0])
        case Some(c) =>
          if c.Mapping? {
            assert WellFormed(c) by { FoundWellFormed(es, p[0]); }
            DeleteWellFormed(c, p[1..]);
            PutWellFormed(es, p[0], DeletePath(c, p[1..]));
          }
        case None =>
      }
    }
  }

  /** Assigning a well-formed value keeps every mapping's keys unique. */
  lemma {:induction false} SetWellFormed(n: Node, p: seq<string>, v: Node)
    requires |p| >= 1 && WellFormed(n) && WellFormed(v)
    ensures WellFormed(SetPath(n, p, v))
    decreases p
  {
    if n.Mapping? {
      var es := n.entries;
      if |p| == 1 {
        PutWellFormed(es, p[0], v);
      } else {
        var c := ChildMapping(es, p[0]);
        assert WellFormed(c) by {
          if Find(es, p[0]).Some? { FoundWellFormed(es, p[0]); }
        }
        SetWellFormed(c, p[1..], v);
        PutWellFormed(es, p[0], SetPath(c, p[1..], v));
      }
    }
  }

  lemma FoundWellFormed(es: seq<Entry>, k: string)
    requires WellFormed(Mapping(es)) && Find(es, k).Some?
    ensures WellFormed(Find(es, k).value)
  {
    var e := Entry(k, Find(es, k).value);
    var i :| 0 <= i < |es| && es[i] == e;
  }

  lemma PutWellFormed(es: seq<Entry>, k: string, v: Node)
    requires WellFormed(Mapping(es)) && WellFormed(v)
    ensures WellFormed(Mapping(Put(es, k, v)))
  {
    PutUnique(es, k, v);
    var r := Put(es, k, v);
    forall i | 0 <= i < |r| ensures WellFormed(r[i].value) {
      PutEntryFrom(es, k, v, i);
    }
  }

  lemma {:induction false} PutEntryFrom(es: seq<Entry>, k: string, v: Node, i: nat)
    requires i < |Put(es, k, v)|
    ensures Put(es, k, v)[i] in es || Put(es, k, v)[i] == Entry(k, v)
  {
    if k in Keys(es) {
      ReplaceEntryFrom(es, k, v, i);
    }
  }

  lemma {:induction false} ReplaceEntryFrom(es: seq<Entry>, k: string, v: Node, i: nat)
    requires i < |Replace(es, k, v)|
    ensures Replace(es, k, v)[i] in es || Replace(es, k, v)[i] == Entry(k, v)
  {
    if i > 0 {
      ReplaceEntryFrom(es[1..], k, v, i - 1);
    }
  }
}

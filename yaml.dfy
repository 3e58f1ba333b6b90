/** The parsed YAML document, as the engine sees what `js-yaml` returns:
    a tree of mappings, sequences and scalars. Mappings keep their entries
    in insertion order, as JavaScript objects do. The YAML text format
    itself is not modelled: loading and dumping are parameters. */
module Yaml {
  import opened Wrappers
  import opened Strings
  import opened Errors

  datatype Node =
    | Null                          // `null`, and `undefined` from an empty document
    | Bool(b: bool)
    | Int(i: int)
    | Str(s: string)
    | Sequence(items: seq<Node>)
    | Mapping(entries: seq<Entry>)

  datatype Entry = Entry(key: string, value: Node)

  /** The YAML library: `load` is `yaml.load` (`None` when it throws),
      `dump` is `yaml.dump` with default options and `dumpNoCompat` is
      `yaml.dump(_, {noCompatMode: true})` (`None` when they throw). */
  datatype YamlCodec = YamlCodec(
    load: string -> Option<Node>,
    dump: Node -> Option<string>,
    dumpNoCompat: Node -> Option<string>)

  /** The keys of a mapping, in order. */
  function Keys(es: seq<Entry>): (ks: seq<string>)
    ensures |ks| == |es|
    ensures forall i | 0 <= i < |es| :: ks[i] == es[i].key
  {
    if |es| == 0 then [] else [es[0].key] + Keys(es[1..])
  }

  /** JavaScript objects never hold a key twice. */
  predicate UniqueKeys(es: seq<Entry>) {
    forall i, j | 0 <= i < j < |es| :: es[i].key != es[j].key
  }

  /** Every mapping in the tree has unique keys. */
  predicate WellFormed(n: Node)
    decreases n
  {
    match n
    case Sequence(items) => forall i | 0 <= i < |items| :: WellFormed(items[i])
    case Mapping(es) => UniqueKeys(es) && forall i | 0 <= i < |es| :: WellFormed(es[i].value)
    case _ => true
  }

  /** The value stored under `k` (property read `obj[k]`). */
  function Find(es: seq<Entry>, k: string): (r: Option<Node>)
    ensures r.Some? <==> k in Keys(es)
    ensures r.Some? ==> Entry(k, r.value) in es
  {
    if |es| == 0 then None
    else if es[0].key == k then Some(es[0].value)
    else Find(es[1..], k)
  }

  /** Every entry under `k` given the value `v`; the order is kept. */
  function Replace(es: seq<Entry>, k: string, v: Node): (r: seq<Entry>)
    ensures Keys(r) == Keys(es)
    ensures k in Keys(es) ==> Find(r, k) == Some(v)
    ensures forall k' | k' != k :: Find(r, k') == Find(es, k')
  {
    if |es| == 0 then []
    else [if es[0].key == k then Entry(k, v) else es[0]] + Replace(es[1..], k, v)
  }

  /** Property assignment `obj[k] = v`: an existing key keeps its place
      and takes the new value, a new key is appended. */
  function Put(es: seq<Entry>, k: string, v: Node): (r: seq<Entry>)
    ensures Find(r, k) == Some(v)
    ensures forall k' | k' != k :: Find(r, k') == Find(es, k')
    ensures k in Keys(es) ==> Keys(r) == Keys(es)
    ensures k !in Keys(es) ==> r == es + [Entry(k, v)]
  {
    if k in Keys(es) then Replace(es, k, v)
    else
      var r := es + [Entry(k, v)];
      FindAppend(es, k, v);
      r
  }

  lemma {:induction false} FindAppend(es: seq<Entry>, k: string, v: Node)
    requires k !in Keys(es)
    ensures Find(es + [Entry(k, v)], k) == Some(v)
    ensures forall k' | k' != k :: Find(es + [Entry(k, v)], k') == Find(es, k')
  {
    if |es| > 0 {
      assert (es + [Entry(k, v)])[1..] == es[1..] + [Entry(k, v)];
      assert Keys(es) == [es[0].key] + Keys(es[1..]);
      FindAppend(es[1..], k, v);
    }
  }

  /** Property deletion `delete obj[k]`; the other entries keep their order. */
  function Remove(es: seq<Entry>, k: string): (r: seq<Entry>)
    ensures Find(r, k) == None
    ensures forall k' | k' != k :: Find(r, k') == Find(es, k')
    ensures forall k' :: k' in Keys(r) <==> k' in Keys(es) && k' != k
    ensures k !in Keys(es) ==> r == es
  {
    if |es| == 0 then []
    else if es[0].key == k then Remove(es[1..], k)
    else
      var r := [es[0]] + Remove(es[1..], k);
      assert Keys(es) == [es[0].key] + Keys(es[1..]);
      assert Keys(r) == [es[0].key] + Keys(Remove(es[1..], k));
      r
  }

  lemma {:induction false} PutUnique(es: seq<Entry>, k: string, v: Node)
    requires UniqueKeys(es)
    ensures UniqueKeys(Put(es, k, v))
  {
    var r := Put(es, k, v);
    forall i, j | 0 <= i < j < |r| ensures r[i].key != r[j].key {
      assert Keys(r)[i] == r[i].key && Keys(r)[j] == r[j].key;
      if k !in Keys(es) && j == |es| {
        assert Keys(es)[i] == r[i].key;
      }
    }
  }

  lemma {:induction false} RemoveUnique(es: seq<Entry>, k: string)
    requires UniqueKeys(es)
    ensures UniqueKeys(Remove(es, k))
    ensures forall i | 0 <= i < |Remove(es, k)| :: Remove(es, k)[i] in es
  {
    if |es| > 0 {
      RemoveUnique(es[1..], k);
      var tail := Remove(es[1..], k);
      if es[0].key != k {
        var r := [es[0]] + tail;
        forall j | 0 < j < |r| ensures r[0].key != r[j].key {
          assert tail[j - 1] in es[1..];
        }
      }
    }
  }

  /** JavaScript truthiness of a value. */
  predicate Truthy(n: Node)
    ensures n.Mapping? || n.Sequence? ==> Truthy(n)
    ensures n.Null? ==> !Truthy(n)
  {
    match n
    case Null => false
    case Bool(b) => b
    case Int(i) => i != 0
    case Str(s) => s != ""
    case _ => true
  }

  /** `parsed.env` on a non-null value: only a mapping can hold `env`. */
  function EnvOf(n: Node): (r: Option<Node>)
    ensures r.Some? ==> n.Mapping? && "env" in Keys(n.entries)
  {
    if n.Mapping? then Find(n.entries, "env") else None
  }

  /** The own enumerable properties of a value, as object spread
      `{...v}`, `Object.assign({}, v)` and `Object.keys(v)` see them:
      a mapping's entries, a sequence's or a string's indices, and
      nothing for `undefined`, `null`, numbers and booleans. */
  function OwnEntries(v: Option<Node>): (r: seq<Entry>)
    ensures v.Some? && v.value.Mapping? ==> r == v.value.entries
    ensures v.None? || v.value.Null? || v.value.Bool? || v.value.Int? ==> r == []
  {
    match v
    case Some(Mapping(es)) => es
    case Some(Sequence(items)) => seq(|items|, i requires 0 <= i < |items| => Entry(NatToString(i), items[i]))
    case Some(Str(s)) => seq(|s|, i requires 0 <= i < |s| => Entry(NatToString(i), Str([s[i]])))
    case _ => []
  }

  /** A value has own properties only if it is truthy, so the source's
      `env && Object.keys(env).length > 0` is just the second test. */
  lemma OwnEntriesTruthy(v: Node)
    ensures |OwnEntries(Some(v))| > 0 ==> Truthy(v)
  {
  }

  /** Spreading a well-formed value never yields a key twice. */
  lemma OwnEntriesUnique(v: Option<Node>)
    requires v.Some? ==> WellFormed(v.value)
    ensures UniqueKeys(OwnEntries(v))
  {
    var r := OwnEntries(v);
    if v.Some? && (v.value.Sequence? || v.value.Str?) {
      forall i, j | 0 <= i < j < |r| ensures r[i].key != r[j].key {
        if r[i].key == r[j].key {
          NatToStringInjective(i, j);
        }
      }
    }
  }

  /** The result of `loadYamlFile`: the text read, and what it parses to. */
  datatype YamlFile = YamlFile(text: string, parsed: Node)

  /** `loadYamlFile`: a file that cannot be read (absent from `files`)
      reads as "" and an empty text parses to `{}` without calling the
      loader; anything else goes through the loader, which may throw. */
  function LoadYamlFile(files: map<string, string>, path: string, load: string -> Option<Node>): (r: Result<YamlFile, Error>)
    ensures path !in files ==> r == Success(YamlFile("", Mapping([])))
    ensures r.Success? ==> r.value.text == (if path in files then files[path] else "")
    ensures r.Success? && r.value.text == "" ==> r.value.parsed == Mapping([])
    ensures r.Success? && r.value.text != "" ==> load(r.value.text) == Some(r.value.parsed)
    ensures r.Failure? <==> path in files && files[path] != "" && load(files[path]).None?
    ensures r.Failure? ==> r.error == YamlLoadError(path)
  {
    var text := if path in files then files[path] else "";
    if text == "" then Success(YamlFile("", Mapping([])))
    else match load(text)
      case None => Failure(YamlLoadError(path))
      case Some(n) => Success(YamlFile(text, n))
  }
}

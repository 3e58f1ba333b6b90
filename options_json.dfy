/** The `OPTIONS:` payload of a generated workflow's header: the JSON text
    `JSON.stringify({exclude, set})` writes for two optional lists of
    strings, and a decoder for that shape. */
module OptionsJson {
  import opened Wrappers
  import opened Strings
  import opened Errors

  /** The options a workflow was generated with; `settings` is the `set` list; an absent field is one
      that was `undefined`, which `JSON.stringify` leaves out. */
  datatype Options = Options(exclude: Option<seq<string>>, settings: Option<seq<string>>)

  function HexDigit(d: nat): (c: char)
    requires d < 16
  {
    if d < 10 then ('0' as int + d) as char else ('a' as int + d - 10) as char
  }

  function HexValue(c: char): Option<nat> {
    if '0' <= c <= '9' then Some(c as int - '0' as int)
    else if 'a' <= c <= 'f' then Some(c as int - 'a' as int + 10)
    else if 'A' <= c <= 'F' then Some(c as int - 'A' as int + 10)
    else None
  }

  lemma HexRoundTrip(d: nat)
    requires d < 16
    ensures HexValue(HexDigit(d)) == Some(d)
  {}

  /** How `JSON.stringify` writes one character inside a string. */
  function EscapeChar(c: char): string {
    if c == '"' then "\\\""
    else if c == '\\' then "\\\\"
    else if c == '\U{0008}' then "\\b"
    else if c == '\U{000C}' then "\\f"
    else if c == '\n' then "\\n"
    else if c == '\r' then "\\r"
    else if c == '\t' then "\\t"
    else if c < ' ' then "\\u00" + [HexDigit(c as int / 16), HexDigit(c as int % 16)]
    else [c]
  }

  function Escape(s: string): string
    decreases |s|
  {
    if |s| == 0 then "" else EscapeChar(s[0]) + Escape(s[1..])
  }

  function Quote(s: string): string {
    "\"" + Escape(s) + "\""
  }

  /** The items of a non-empty list and its closing bracket. */
  function Items(xs: seq<string>): string
    requires |xs| >= 1
    decreases |xs|
  {
    Quote(xs[0]) + (if |xs| == 1 then "]" else "," + Items(xs[1..]))
  }

  function List(xs: seq<string>): string {
    "[" + (if |xs| == 0 then "]" else Items(xs))
  }

  function Field(key: string, xs: Option<seq<string>>): string {
    if xs.Some? then "\"" + key + "\":" + List(xs.value) else ""
  }

  /** `JSON.stringify({exclude, set})` */
  function Encode(o: Options): (r: string)
    ensures |r| >= 2 && r[0] == '{' && r[|r| - 1] == '}'
    ensures r == "{}" <==> o.exclude.None? && o.settings.None?
  {
    "{" + Field("exclude", o.exclude) + (if o.exclude.Some? && o.settings.Some? then "," else "")
    + Field("set", o.settings) + "}"
  }

  // Decoding

  /** The character a one-letter escape stands for. */
  function Unescape(c: char): Option<char> {
    if c == '"' then Some('"')
    else if c == '\\' then Some('\\')
    else if c == '/' then Some('/')
    else if c == 'b' then Some('\U{0008}')
    else if c == 'f' then Some('\U{000C}')
    else if c == 'n' then Some('\n')
    else if c == 'r' then Some('\r')
    else if c == 't' then Some('\t')
    else None
  }

  function Hex4(s: string): Option<nat>
    requires |s| == 4
  {
    match (HexValue(s[0]), HexValue(s[1]), HexValue(s[2]), HexValue(s[3]))
    case (Some(a), Some(b), Some(c), Some(d)) => Some(((a * 16 + b) * 16 + c) * 16 + d)
    case _ => None
  }

  /** The characters of a string up to its closing quote, and what follows. */
  function StringBody(s: string, acc: string): (r: Option<(string, string)>)
    ensures r.Some? ==> |r.value.1| < |s|
    decreases |s|
  {
    if |s| == 0 then None
    else if s[0] == '"' then Some((acc, s[1..]))
    else if s[0] == '\\' then
      if |s| < 2 then None
      else if s[1] == 'u' then
        if |s| < 6 then None
        else match Hex4(s[2..6])
          case None => None
          case Some(v) =>
            if 0xD800 <= v < 0xE000 || v >= 0x11_0000 then None
            else StringBody(s[6..], acc + [v as char])
      else match Unescape(s[1])
        case None => None
        case Some(c) => StringBody(s[2..], acc + [c])
    else if s[0] < ' ' then None
    else StringBody(s[1..], acc + [s[0]])
  }

  /** The items after `[` up to and including `]`. */
  function ItemsFrom(s: string, acc: seq<string>): Option<(seq<string>, string)>
    decreases |s|
  {
    if |s| == 0 || s[0] != '"' then None
    else match StringBody(s[1..], "")
      case None => None
      case Some((x, t)) =>
        if |t| == 0 then None
        else if t[0] == ',' then ItemsFrom(t[1..], acc + [x])
        else if t[0] == ']' then Some((acc + [x], t[1..]))
        else None
  }

  function ListFrom(s: string): Option<(seq<string>, string)> {
    if |s| == 0 || s[0] != '[' then None
    else if |s| >= 2 && s[1] == ']' then Some(([], s[2..]))
    else ItemsFrom(s[1..], [])
  }

  function FieldFrom(s: string, key: string): Option<(seq<string>, string)> {
    var lead := "\"" + key + "\":";
    if StartsWith(s, lead) then ListFrom(s[|lead|..]) else None
  }

  /** The fields of the object after `{`, and what follows them. */
  function FieldsFrom(s: string): (Options, string) {
    match FieldFrom(s, "exclude")
    case Some((xs, t)) =>
      if |t| > 0 && t[0] == ',' && FieldFrom(t[1..], "set").Some?
      then (Options(Some(xs), Some(FieldFrom(t[1..], "set").value.0)), FieldFrom(t[1..], "set").value.1)
      else (Options(Some(xs), None), t)
    case None =>
      match FieldFrom(s, "set")
      case Some((ys, t)) => (Options(None, Some(ys)), t)
      case None => (Options(None, None), s)
  }

  /** `JSON.parse` restricted to the shape `Encode` writes. */
  function Decode(s: string): (r: Result<Options, Error>)
    ensures r.Failure? ==> r.error == JsonError(s)
    ensures r.Success? ==> |s| >= 2 && s[0] == '{'
    ensures s == "{}" ==> r == Success(Options(None, None))
  {
    if |s| == 0 || s[0] != '{' then Failure(JsonError(s))
    else
      var (o, rest) := FieldsFrom(s[1..]);
      if rest == "}" then Success(o) else Failure(JsonError(s))
  }

  // The round trip

  lemma Snoc(acc: seq<string>, xs: seq<string>)
    requires |xs| >= 1
    ensures acc + [xs[0]] + xs[1..] == acc + xs
  {
    assert [xs[0]] + xs[1..] == xs;
  }

  lemma EscapeCharRoundTrip(c: char, t: string, acc: string)
    ensures StringBody(EscapeChar(c) + t, acc) == StringBody(t, acc + [c])
  {
    var e := EscapeChar(c) + t;
    if c == '"' || c == '\\' || c == '\U{0008}' || c == '\U{000C}' || c == '\n' || c == '\r' || c == '\t' {
      assert e[0] == '\\' && e[2..] == t;
    } else if c < ' ' {
      var hi := c as int / 16;
      var lo := c as int % 16;
      assert e[0] == '\\' && e[1] == 'u' && e[6..] == t;
      assert e[2..6] == ['0', '0', HexDigit(hi), HexDigit(lo)];
      HexRoundTrip(hi);
      HexRoundTrip(lo);
      assert Hex4(e[2..6]) == Some(c as int);
    } else {
      assert e[1..] == t;
    }
  }

  lemma {:induction false} EscapeRoundTrip(x: string, rest: string, acc: string)
    ensures StringBody(Escape(x) + "\"" + rest, acc) == Some((acc + x, rest))
    decreases |x|
  {
    if |x| == 0 {
      assert Escape(x) + "\"" + rest == "\"" + rest;
      assert ("\"" + rest)[1..] == rest;
      assert acc + x == acc;
    } else {
      assert Escape(x) + "\"" + rest == EscapeChar(x[0]) + (Escape(x[1..]) + "\"" + rest);
      EscapeCharRoundTrip(x[0], Escape(x[1..]) + "\"" + rest, acc);
      EscapeRoundTrip(x[1..], rest, acc + [x[0]]);
      assert acc + [x[0]] + x[1..] == acc + x;
    }
  }

  /** A quoted string is read back, leaving what follows it. */
  lemma QuoteRoundTrip(x: string, rest: string)
    ensures |Quote(x) + rest| >= 1 && (Quote(x) + rest)[0] == '"'
    ensures StringBody((Quote(x) + rest)[1..], "") == Some((x, rest))
  {
    assert (Quote(x) + rest)[1..] == Escape(x) + "\"" + rest;
    EscapeRoundTrip(x, rest, "");
    assert "" + x == x;
  }

  lemma {:induction false} ItemsRoundTrip(xs: seq<string>, rest: string, acc: seq<string>)
    requires |xs| >= 1
    ensures ItemsFrom(Items(xs) + rest, acc) == Some((acc + xs, rest))
    decreases |xs|
  {
    var tail := if |xs| == 1 then "]" else "," + Items(xs[1..]);
    var t := tail + rest;
    var s := Items(xs) + rest;
    assert s == Quote(xs[0]) + t;
    QuoteRoundTrip(xs[0], t);
    assert ItemsFrom(s, acc) ==
      (if t[0] == ',' then ItemsFrom(t[1..], acc + [xs[0]])
       else if t[0] == ']' then Some((acc + [xs[0]], t[1..]))
       else None);
    if |xs| == 1 {
      assert t[0] == ']' && t[1..] == rest;
      assert acc + [xs[0]] == acc + xs;
    } else {
      DropHead(',', Items(xs[1..]), rest);
      ItemsRoundTrip(xs[1..], rest, acc + [xs[0]]);
      Snoc(acc, xs);
    }
  }

  lemma ItemsStart(xs: seq<string>)
    requires |xs| >= 1
    ensures |Items(xs)| >= 1 && Items(xs)[0] == '"'
  {
    QuoteRoundTrip(xs[0], if |xs| == 1 then "]" else "," + Items(xs[1..]));
  }

  lemma ListRoundTrip(xs: seq<string>, rest: string)
    ensures ListFrom(List(xs) + rest) == Some((xs, rest))
  {
    if |xs| == 0 {
      Cut("[]", rest);
    } else {
      DropHead('[', Items(xs), rest);
      ItemsStart(xs);
      ItemsRoundTrip(xs, rest, []);
      assert [] + xs == xs;
    }
  }

  lemma FieldRoundTrip(key: string, xs: seq<string>, rest: string)
    ensures FieldFrom(Field(key, Some(xs)) + rest, key) == Some((xs, rest))
  {
    var lead := "\"" + key + "\":";
    Assoc(lead, List(xs), rest);
    Cut(lead, List(xs) + rest);
    ListRoundTrip(xs, rest);
  }

  /** The `set` field is not read as `exclude`. */
  lemma SetIsNotExclude(ys: seq<string>, rest: string)
    ensures FieldFrom(Field("set", Some(ys)) + rest, "exclude").None?
  {
    var s := Field("set", Some(ys)) + rest;
    assert s[1] == 's';
    var lead := "\"exclude\":";
    assert lead[1] == 'e';
    if |lead| <= |s| {
      assert s[..|lead|][1] == 's';
    }
  }

  lemma FieldsFromBoth(s: string, xs: seq<string>, t: string, ys: seq<string>, rest: string)
    requires FieldFrom(s, "exclude") == Some((xs, t)) && |t| > 0 && t[0] == ','
    requires FieldFrom(t[1..], "set") == Some((ys, rest))
    ensures FieldsFrom(s) == (Options(Some(xs), Some(ys)), rest)
  {}

  lemma FieldsFromSet(s: string, ys: seq<string>, rest: string)
    requires FieldFrom(s, "exclude").None? && FieldFrom(s, "set") == Some((ys, rest))
    ensures FieldsFrom(s) == (Options(None, Some(ys)), rest)
  {}

  lemma FieldsBoth(xs: seq<string>, ys: seq<string>, rest: string)
    ensures FieldsFrom(Field("exclude", Some(xs)) + ("," + Field("set", Some(ys)) + rest))
      == (Options(Some(xs), Some(ys)), rest)
  {
    var t := "," + Field("set", Some(ys)) + rest;
    DropHead(',', Field("set", Some(ys)), rest);
    FieldRoundTrip("exclude", xs, t);
    FieldRoundTrip("set", ys, rest);
    FieldsFromBoth(Field("exclude", Some(xs)) + t, xs, t, ys, rest);
  }

  /** A text that is a brace and fields read to the closing brace. */
  lemma DecodeOf(s: string, body: string, o: Options)
    requires s == "{" + body && FieldsFrom(body) == (o, "}")
    ensures Decode(s) == Success(o)
  {
    DropHead('{', body, "");
    assert body + "" == body;
  }

  /** The encoding of both fields, grouped as the decoder reads it. */
  lemma EncodeBoth(ex: string, st: string)
    ensures "{" + ex + "," + st + "}" == "{" + (ex + ("," + st + "}"))
  {
    Assoc("{" + ex, ",", st);
    Assoc("{" + ex, "," + st, "}");
    Assoc("{", ex, "," + st + "}");
  }

  lemma RoundTripBoth(xs: seq<string>, ys: seq<string>)
    ensures Decode(Encode(Options(Some(xs), Some(ys)))) == Success(Options(Some(xs), Some(ys)))
  {
    var ex, st := Field("exclude", Some(xs)), Field("set", Some(ys));
    EncodeBoth(ex, st);
    assert Encode(Options(Some(xs), Some(ys))) == "{" + ex + "," + st + "}";
    FieldsBoth(xs, ys, "}");
    DecodeOf(Encode(Options(Some(xs), Some(ys))), ex + ("," + st + "}"), Options(Some(xs), Some(ys)));
  }

  lemma RoundTripExclude(xs: seq<string>)
    ensures Decode(Encode(Options(Some(xs), None))) == Success(Options(Some(xs), None))
  {
    var ex := Field("exclude", Some(xs));
    assert Encode(Options(Some(xs), None)) == "{" + (ex + "}");
    FieldRoundTrip("exclude", xs, "}");
    DecodeOf(Encode(Options(Some(xs), None)), ex + "}", Options(Some(xs), None));
  }

  /** The encoding of the settings alone, grouped as the decoder reads it. */
  lemma EncodeSet(ys: seq<string>)
    ensures Encode(Options(None, Some(ys))) == "{" + (Field("set", Some(ys)) + "}")
  {
    var st := Field("set", Some(ys));
    assert Field("exclude", None) == "";
    assert "{" + "" + "" + st == "{" + st;
    Assoc("{", st, "}");
  }

  lemma RoundTripSet(ys: seq<string>)
    ensures Decode(Encode(Options(None, Some(ys)))) == Success(Options(None, Some(ys)))
  {
    var st := Field("set", Some(ys));
    EncodeSet(ys);
    SetIsNotExclude(ys, "}");
    FieldRoundTrip("set", ys, "}");
    FieldsFromSet(st + "}", ys, "}");
    DecodeOf(Encode(Options(None, Some(ys))), st + "}", Options(None, Some(ys)));
  }

  /** Decoding inverts encoding. */
  lemma RoundTrip(o: Options)
    ensures Decode(Encode(o)) == Success(o)
  {
    match o
    case Options(Some(xs), Some(ys)) => RoundTripBoth(xs, ys);
    case Options(Some(xs), None) => RoundTripExclude(xs);
    case Options(None, Some(ys)) => RoundTripSet(ys);
    case Options(None, None) =>
      assert Encode(o) == "{}";
      assert Encode(o)[1..] == "}";
  }

  /** The encoding is one line of printable characters inside braces. */
  lemma EncodeShape(o: Options)
    ensures |Encode(o)| >= 2 && Encode(o)[0] == '{' && Encode(o)[|Encode(o)| - 1] == '}'
    ensures forall c | c in Encode(o) :: ' ' <= c
    ensures o.exclude.Some? || o.settings.Some? ==> |Encode(o)| >= 3
  {
    FieldPrintable("exclude", o.exclude);
    FieldPrintable("set", o.settings);
  }

  lemma FieldPrintable(key: string, xs: Option<seq<string>>)
    requires forall c | c in key :: ' ' <= c
    ensures forall c | c in Field(key, xs) :: ' ' <= c
  {
    if xs.Some? && |xs.value| > 0 {
      ItemsPrintable(xs.value);
    }
  }

  lemma {:induction false} ItemsPrintable(xs: seq<string>)
    requires |xs| >= 1
    ensures forall c | c in Items(xs) :: ' ' <= c
    decreases |xs|
  {
    EscapePrintable(xs[0]);
    if |xs| > 1 {
      ItemsPrintable(xs[1..]);
    }
  }

  /** Escaping leaves no control character in the text. */
  lemma {:induction false} EscapePrintable(x: string)
    ensures forall c | c in Escape(x) :: ' ' <= c
    decreases |x|
  {
    if |x| > 0 {
      EscapePrintable(x[1..]);
    }
  }
}

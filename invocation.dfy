/** The options of one `ghat(source, options)` call in lib.ts: checking
    which combinations are allowed and normalising single values to
    lists. */
module Invocation {
  import opened Wrappers
  import opened Errors

  /** A `string | string[]` option as it arrives: missing, one value, or
      a list of values (an array is truthy even when empty). */
  datatype OptList = Absent | One(item: string) | Many(items: seq<string>)

  datatype GhatOptions = GhatOptions(exclude: OptList, settings: OptList, verbatim: bool)

  /** What the call goes on to do once its options are accepted. */
  datatype Plan =
    /** No source: regenerate every workflow that records its origin. */
    | Resync
    /** Download `source` and write its workflows with these options. */
    | Apply(exclude: Option<seq<string>>, settings: Option<seq<string>>, verbatim: bool)

  const NoSourceMessage: string :=
    "If you don\U{2019}t specifiy a source, any further options won\U{2019}t be applied"
  const VerbatimMessage: string :=
    "`verbatim` can\U{2019}t be used together with `set`/`exclude`"

  /** JavaScript truthiness of the option. */
  predicate Given(l: OptList)
    ensures l.Many? ==> Given(l)
    ensures Given(l) ==> !l.Absent?
  {
    match l
    case Absent => false
    case One(s) => s != ""
    case Many(_) => true
  }

  /** `typeof x === 'string' ? [x] : x` */
  function Normalize(l: OptList): (r: Option<seq<string>>)
    ensures r.None? <==> l.Absent?
    ensures l.One? ==> r == Some([l.item])
    ensures l.Many? ==> r == Some(l.items)
  {
    match l
    case Absent => None
    case One(s) => Some([s])
    case Many(xs) => Some(xs)
  }

  /** The options a decoded list arrives as. */
  function FromList(l: Option<seq<string>>): OptList {
    if l.Some? then Many(l.value) else Absent
  }

  lemma NormalizeFromList(l: Option<seq<string>>)
    ensures Normalize(FromList(l)) == l
  {}

  /** `l && l.length > 0 ? l : undefined`: the list only when it has an
      element. */
  function Effective(l: Option<seq<string>>): (r: Option<seq<string>>)
    ensures r.Some? <==> l.Some? && |l.value| > 0
    ensures r.Some? ==> r == l
  {
    if l.Some? && |l.value| > 0 then l else None
  }

  lemma EffectiveIdempotent(l: Option<seq<string>>)
    ensures Effective(Effective(l)) == Effective(l)
  {}

  /** The checks at the start of `ghat`. */
  function Validate(source: string, o: GhatOptions): (r: Result<Plan, Error>)
    ensures r.Failure? ==> r.error.InputError?
    ensures r.Success? && r.value.Apply? ==>
      r.value.verbatim == o.verbatim
      && r.value.exclude == Normalize(o.exclude) && r.value.settings == Normalize(o.settings)
  {
    if source == "" then
      if Given(o.exclude) || Given(o.settings) || o.verbatim then Failure(InputError(NoSourceMessage))
      else Success(Resync)
    else if o.verbatim && (Given(o.settings) || Given(o.exclude)) then Failure(InputError(VerbatimMessage))
    else Success(Apply(Normalize(o.exclude), Normalize(o.settings), o.verbatim))
  }

  /** The call resynchronises exactly when there is no source and no option
      is given. */
  lemma ValidateResync(source: string, o: GhatOptions)
    ensures Validate(source, o) == Success(Resync)
      <==> source == "" && !Given(o.exclude) && !Given(o.settings) && !o.verbatim
  {}

  /** The call is refused exactly for options without a source, or for
      `verbatim` together with a list. */
  lemma ValidateRefuses(source: string, o: GhatOptions)
    ensures Validate(source, o).Failure? <==>
      (source == "" && (Given(o.exclude) || Given(o.settings) || o.verbatim))
      || (source != "" && o.verbatim && (Given(o.exclude) || Given(o.settings)))
    ensures Validate(source, o).Failure? && source != "" ==> Validate(source, o).error.message == VerbatimMessage
    ensures Validate(source, o).Failure? && source == "" ==> Validate(source, o).error.message == NoSourceMessage
  {}

  /** Every call with a source that is not refused downloads it. */
  lemma ValidateApplies(source: string, o: GhatOptions)
    requires source != "" && Validate(source, o).Success?
    ensures Validate(source, o).value.Apply?
  {}

  /** The only list that gets past the `verbatim` check is the one an empty
      string normalises to: a falsy option is not "given". */
  lemma VerbatimLists(source: string, o: GhatOptions)
    requires Validate(source, o).Success? && Validate(source, o).value.Apply?
    requires Validate(source, o).value.verbatim
    ensures var p := Validate(source, o).value;
      (p.exclude.None? || p.exclude == Some([""])) && (p.settings.None? || p.settings == Some([""]))
  {}

  /** Options decoded from a recorded header are always accepted with a
      source, so a resynchronised run never stops at these checks. */
  lemma RecordedOptionsAccepted(source: string, exclude: Option<seq<string>>, settings: Option<seq<string>>)
    requires source != ""
    ensures Validate(source, GhatOptions(FromList(exclude), FromList(settings), false))
      == Success(Apply(exclude, settings, false))
  {}
}

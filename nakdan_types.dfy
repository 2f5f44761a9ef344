/**
 * The shapes of the Nakdan service's reply (utils/nakdan_types.py) and the readings of it
 * that more than one operation shares: the first vowelised candidate and the BGU table.
 */
module NakdanTypes {
  import opened Wrappers
  import opened PyBuiltins

  /** A decoded JSON value; numbers are kept as integers. */
  datatype Json =
    | JNull
    | JBool(b: bool)
    | JNum(n: int)
    | JStr(s: string)
    | JList(items: seq<Json>)
    | JObject(entries: seq<(string, Json)>)

  /** `type(x).__name__` of the value `json` decodes to. */
  function TypeName(j: Json): string {
    match j
    case JNull => "NoneType"
    case JBool(_) => "bool"
    case JNum(_) => "int"
    case JStr(_) => "str"
    case JList(_) => "list"
    case JObject(_) => "dict"
  }

  /**
   * A `{word, options, BGU?, UD?}` record (WordOption). A missing `word` reads as "" and a
   * missing `options` as [], as `.get` does; BGU and UD are None when the key is absent and
   * otherwise hold whatever JSON value (null included) the record carries.
   */
  datatype WordOption = WordOption(word: string, options: seq<Json>, bgu: Option<Json>, ud: Option<Json>)

  /** One element of the reply list: a plain string or a record (NakdanAPIResponse). */
  datatype Token = Plain(text: string) | Record(entry: WordOption)

  /** What `_call_nakdan_api` gives back: the decoded list, or the exception it raised. */
  datatype ApiReply = Reply(data: seq<Token>) | Raised(detail: string)

  /**
   * MorphData. `baseForm` is the source's `lemma` key (`lemma` is a Dafny keyword);
   * `menukad` is the vowelised stem, `sufGender`/`sufPerson`/`sufNumber` the suffix features.
   */
  datatype MorphData = MorphData(
    word: string,
    prefix: string,
    suffix: string,
    menukad: string,
    baseForm: string,
    pos: string,
    gender: string,
    number: string,
    person: string,
    status: string,
    tense: string,
    binyan: string,
    sufGender: string,
    sufPerson: string,
    sufNumber: string)

  /**
   * The vowelised form the analysis paths display: `options[0][0]` when `options[0]` is a
   * non-empty list whose head is a string, otherwise the record's `word`.
   */
  function FirstCandidate(w: WordOption): (r: string)
    ensures w.options == [] ==> r == w.word
    ensures |w.options| > 0 && !w.options[0].JList? ==> r == w.word
    ensures |w.options| > 0 && w.options[0].JList? && w.options[0].items == [] ==> r == w.word
    ensures |w.options| > 0 && w.options[0].JList? && |w.options[0].items| > 0 ==>
      r == if w.options[0].items[0].JStr? then w.options[0].items[0].s else w.word
  {
    if |w.options| > 0 && w.options[0].JList? && |w.options[0].items| > 0 && w.options[0].items[0].JStr?
    then w.options[0].items[0].s
    else w.word
  }

  /** The fragment an element adds to the analysed text: `str(element)` for a plain string. */
  function AnalyzedForm(t: Token): string {
    match t
    case Plain(s) => s
    case Record(w) => FirstCandidate(w)
  }

  /** The fragments of a whole reply, one per element, in order. */
  function AnalyzedForms(data: seq<Token>): (r: seq<string>)
    ensures |r| == |data| && forall i :: 0 <= i < |data| ==> r[i] == AnalyzedForm(data[i])
  {
    seq(|data|, i requires 0 <= i < |data| => AnalyzedForm(data[i]))
  }

  /** `bgu.strip().split('\n')`. */
  function BguLines(bgu: string): seq<string> {
    SplitOn(Strip(bgu), '\n')
  }

  /**
   * The BGU table: when BGU is a string of at least two lines, `dict(zip(headers, values))`
   * of its first two lines split on tabs; otherwise nothing (absent, null, not a string, or
   * one line after stripping).
   */
  function BguTable(bgu: Option<Json>): (r: Option<map<string, string>>)
    ensures r.Some? <==> bgu.Some? && bgu.value.JStr? && '\n' in Strip(bgu.value.s)
    ensures r.Some? ==> |BguLines(bgu.value.s)| >= 2
    ensures r.Some? ==> r.value == ZipDict(SplitOn(BguLines(bgu.value.s)[0], '\t'),
                                           SplitOn(BguLines(bgu.value.s)[1], '\t'))
  {
    if bgu.Some? && bgu.value.JStr? && |BguLines(bgu.value.s)| >= 2 then
      var lines := BguLines(bgu.value.s);
      Some(ZipDict(SplitOn(lines[0], '\t'), SplitOn(lines[1], '\t')))
    else None
  }

  /** Index of the first element that is not a string (`|items|` if there is none). */
  function FirstNonString(items: seq<Json>): (k: nat)
    ensures k <= |items|
    ensures forall i :: 0 <= i < k ==> items[i].JStr?
    ensures k < |items| ==> !items[k].JStr?
  {
    if items == [] || !items[0].JStr? then 0 else 1 + FirstNonString(items[1..])
  }

  function Strings(items: seq<Json>): (r: seq<string>)
    requires forall i :: 0 <= i < |items| ==> items[i].JStr?
    ensures |r| == |items| && forall i :: 0 <= i < |items| ==> r[i] == items[i].s
  {
    seq(|items|, i requires 0 <= i < |items| => items[i].s)
  }

  /**
   * `sep.join(items)` over decoded values: the join of the strings, or the TypeError
   * CPython raises at the first element that is not a string.
   */
  function JoinJson(sep: string, items: seq<Json>): (r: Result<string, string>)
    ensures r.Success? <==> forall i :: 0 <= i < |items| ==> items[i].JStr?
    ensures r.Success? ==> r.value == Join(sep, Strings(items))
    ensures r.Failure? ==> FirstNonString(items) < |items|
    ensures r.Failure? ==>
      r.error == "sequence item " + NatToString(FirstNonString(items)) + ": expected str instance, "
                 + TypeName(items[FirstNonString(items)]) + " found"
  {
    var k := FirstNonString(items);
    if k < |items| then
      Failure("sequence item " + NatToString(k) + ": expected str instance, " + TypeName(items[k]) + " found")
    else
      Success(Join(sep, Strings(items)))
  }
}

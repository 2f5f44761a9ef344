/**
 * commands/analyze.py: the command's own analyze_text, built on process_word_data, and the
 * fields of the morphological-analysis embed built from the entries it returns.
 */
module AnalyzeCommand {
  import opened Wrappers
  import opened PyBuiltins
  import opened HebrewConstants
  import opened Models
  import opened NakdanTypes
  import Nlp
  import DiscordHelpers

  // ---------------------------------------------------------------- analyze_text

  /** The entry for one element: the record's analysis, or None for the `{}` of a plain string. */
  function AnalysisOf(t: Token): Option<MorphData> {
    match t
    case Plain(_) => None
    case Record(w) => Some(Nlp.WordMorphology(w))
  }

  function AnalysesOf(data: seq<Token>): (r: seq<Option<MorphData>>)
    ensures |r| == |data| && forall i :: 0 <= i < |data| ==> r[i] == AnalysisOf(data[i])
  {
    seq(|data|, i requires 0 <= i < |data| => AnalysisOf(data[i]))
  }

  lemma AnalysesSnoc(data: seq<Token>, i: nat)
    requires i < |data|
    ensures AnalysesOf(data[..i + 1]) == AnalysesOf(data[..i]) + [AnalysisOf(data[i])]
    ensures AnalyzedForms(data[..i + 1]) == AnalyzedForms(data[..i]) + [AnalyzedForm(data[i])]
  {
    assert data[..i + 1] == data[..i] + [data[i]];
  }

  /**
   * The response for a reply: the vowelised forms concatenated and normalised with one
   * entry per element, or, when that text is too long for the record, what
   * handle_api_error makes of the validation error.
   */
  function AnalysisResponse(data: seq<Token>, nfc: string -> string,
                            handleApiError: (string, string) -> NakdanResponse<Option<MorphData>>)
    : NakdanResponse<Option<MorphData>>
  {
    match New(nfc(Join("", AnalyzedForms(data))), wordAnalysis := AnalysesOf(data))
    case Success(r) => r
    case Failure(message) => handleApiError(message, "analyzing text")
  }

  /**
   * What a reply turns into: a text that fits gives a response without error whose text is
   * the normalised concatenation and whose entries follow the elements one for one (None
   * exactly for plain strings; a record's entry keeps its word and its segmentation);
   * a text that does not fit is handed to handle_api_error with the length message.
   */
  lemma AnalysisResponseCases(data: seq<Token>, nfc: string -> string,
                              handleApiError: (string, string) -> NakdanResponse<Option<MorphData>>)
    ensures var text := nfc(Join("", AnalyzedForms(data)));
      && (|text| <= MaxTextLength ==>
            AnalysisResponse(data, nfc, handleApiError) == NakdanResponse(text, None, [], [], AnalysesOf(data)))
      && (|text| > MaxTextLength ==>
            AnalysisResponse(data, nfc, handleApiError) == handleApiError(TextTooLongMessage, "analyzing text"))
    ensures forall i :: 0 <= i < |data| ==>
      (AnalysesOf(data)[i].None? <==> data[i].Plain?) &&
      (data[i].Record? ==> AnalysesOf(data)[i].value.word == data[i].entry.word
                           && AnalysesOf(data)[i].value.menukad == Nlp.ProcessWordParts(data[i].entry.word).menukad
                           && AnalysesOf(data)[i].value.prefix == Nlp.ProcessWordParts(data[i].entry.word).prefix
                           && AnalysesOf(data)[i].value.suffix == Nlp.ProcessWordParts(data[i].entry.word).suffix)
  {
  }

  /**
   * analyze_text of commands/analyze.py. The three helpers it imports from nakdan_api are
   * not defined there, so they are parameters: `checkRequirements` (the validation, None
   * when the text passes), the reply of `call_nakdan_api`, and `handleApiError` (what a
   * caught exception becomes, given its message and "analyzing text").
   */
  method AnalyzeText(text: string, maxLength: int,
                     checkRequirements: (string, int) -> Option<NakdanResponse<Option<MorphData>>>,
                     reply: ApiReply, nfc: string -> string,
                     handleApiError: (string, string) -> NakdanResponse<Option<MorphData>>)
    returns (r: NakdanResponse<Option<MorphData>>)
    ensures checkRequirements(text, maxLength).Some? ==> r == checkRequirements(text, maxLength).value
    ensures checkRequirements(text, maxLength).None? && reply.Raised? ==>
      r == handleApiError(reply.detail, "analyzing text")
    ensures checkRequirements(text, maxLength).None? && reply.Reply? ==>
      r == AnalysisResponse(reply.data, nfc, handleApiError)
  {
    var errorResponse := checkRequirements(text, maxLength);
    if errorResponse.Some? {
      return errorResponse.value;
    }
    if reply.Raised? {
      return handleApiError(reply.detail, "analyzing text");
    }
    var data := reply.data;
    var wordAnalysis: seq<Option<MorphData>> := [];
    var vowelizedWords: seq<string> := [];
    for i := 0 to |data|
      invariant wordAnalysis == AnalysesOf(data[..i])
      invariant vowelizedWords == AnalyzedForms(data[..i])
    {
      AnalysesSnoc(data, i);
      match data[i]
      case Record(wordData) =>
        var vowelizedForm, analysis := Nlp.ProcessWordData(wordData);
        vowelizedWords := vowelizedWords + [vowelizedForm];
        wordAnalysis := wordAnalysis + [Some(analysis)];
      case Plain(s) =>
        wordAnalysis := wordAnalysis + [None];
        vowelizedWords := vowelizedWords + [s];
    }
    assert data[..|data|] == data;
    var vowelizedText := Join("", vowelizedWords);
    var preservedText := nfc(vowelizedText);
    var built := New(preservedText, wordAnalysis := wordAnalysis);
    r := if built.Success? then built.value else handleApiError(built.error, "analyzing text");
  }

  // ---------------------------------------------------------------- the lines of one entry

  /** The fourteen values an entry can show, in the order the embed lists them. */
  datatype Key =
    | Prefix | Menukad | BaseForm
    | Pos | Gender | Number | Person | Status | Tense | Binyan
    | Suffix | SufGender | SufPerson | SufNumber

  /** Position of a key in the display order. */
  function Rank(k: Key): nat {
    match k
    case Prefix => 0
    case Menukad => 1
    case BaseForm => 2
    case Pos => 3
    case Gender => 4
    case Number => 5
    case Person => 6
    case Status => 7
    case Tense => 8
    case Binyan => 9
    case Suffix => 10
    case SufGender => 11
    case SufPerson => 12
    case SufNumber => 13
  }

  function Value(a: MorphData, k: Key): string {
    match k
    case Prefix => a.prefix
    case Menukad => a.menukad
    case BaseForm => a.baseForm
    case Pos => a.pos
    case Gender => a.gender
    case Number => a.number
    case Person => a.person
    case Status => a.status
    case Tense => a.tense
    case Binyan => a.binyan
    case Suffix => a.suffix
    case SufGender => a.sufGender
    case SufPerson => a.sufPerson
    case SufNumber => a.sufNumber
  }

  function HebrewLabel(k: Key): string {
    match k
    case Prefix => PrefixLabel
    case Menukad => VowelizedLabel
    case BaseForm => BaseFormLabel
    case Pos => PartOfSpeechLabel
    case Gender => GenderLabel
    case Number => NumberLabel
    case Person => PersonLabel
    case Status => StatusLabel
    case Tense => TenseLabel
    case Binyan => BinyanLabel
    case Suffix => SuffixLabel
    case SufGender => SuffixGenderLabel
    case SufPerson => SuffixPersonLabel
    case SufNumber => SuffixNumberLabel
  }

  function EnglishLabel(k: Key): string {
    match k
    case Prefix => "Prefix"
    case Menukad => "Vowelized"
    case BaseForm => "Base Form"
    case Pos => "Part of Speech"
    case Gender => "Gender"
    case Number => "Number"
    case Person => "Person"
    case Status => "Status"
    case Tense => "Tense"
    case Binyan => "Binyan"
    case Suffix => "Suffix"
    case SufGender => "Suffix Gender"
    case SufPerson => "Suffix Person"
    case SufNumber => "Suffix Number"
  }

  /** The segments and the base form are shown as they are; features are prettified. */
  predicate Verbatim(k: Key) {
    k.Prefix? || k.Menukad? || k.BaseForm? || k.Suffix?
  }

  /** The suffix and the three features that belong to it. */
  predicate SuffixPart(k: Key) {
    k.Suffix? || k.SufGender? || k.SufPerson? || k.SufNumber?
  }

  /** `value.replace('_', ' ').title()`. */
  function Prettified(value: string): string {
    Title(ReplaceChar(value, '_', ' '))
  }

  /** The text a key shows for an entry. */
  function Shown(a: MorphData, k: Key): string {
    if Verbatim(k) then Value(a, k) else Prettified(Value(a, k))
  }

  /** `f"**{heb_label} | {eng_label}:** {value}"`. */
  function Line(hebrew: string, english: string, value: string): string {
    "**" + hebrew + " | " + english + ":** " + value
  }

  function LineFor(a: MorphData, k: Key): string {
    Line(HebrewLabel(k), EnglishLabel(k), Shown(a, k))
  }

  /** All keys in display order: three heads, `feature_order`, the suffix, `suffix_features`. */
  const AllKeys: seq<Key> :=
    [Prefix, Menukad, BaseForm, Pos, Gender, Number, Person, Status, Tense, Binyan,
     Suffix, SufGender, SufPerson, SufNumber]
  /** `feature_order`: `AllKeys[3..10]`. */
  const FeatureOrder: seq<Key> := [Pos, Gender, Number, Person, Status, Tense, Binyan]
  /** `suffix_features`: `AllKeys[11..]`. */
  const SuffixFeatures: seq<Key> := [SufGender, SufPerson, SufNumber]

  /** The keys the code looks at for an entry, in order: the suffix block only with a suffix. */
  function Candidates(a: MorphData): seq<Key> {
    if a.suffix != "" then AllKeys else AllKeys[..10]
  }

  /** The keys of `ks` whose value is non-empty, in order. */
  function Present(a: MorphData, ks: seq<Key>): seq<Key> {
    if ks == [] then []
    else Present(a, ks[..|ks| - 1]) + (if Value(a, ks[|ks| - 1]) != "" then [ks[|ks| - 1]] else [])
  }

  lemma {:induction false} PresentMembers(a: MorphData, ks: seq<Key>, k: Key)
    ensures k in Present(a, ks) <==> k in ks && Value(a, k) != ""
  {
    if ks != [] {
      PresentMembers(a, ks[..|ks| - 1], k);
      assert ks == ks[..|ks| - 1] + [ks[|ks| - 1]];
    }
  }

  /** The keys that get a line. */
  function ShownKeys(a: MorphData): seq<Key> {
    Present(a, Candidates(a))
  }

  function Lines(a: MorphData, ks: seq<Key>): (r: seq<string>)
    ensures |r| == |ks| && forall i :: 0 <= i < |ks| ==> r[i] == LineFor(a, ks[i])
  {
    seq(|ks|, i requires 0 <= i < |ks| => LineFor(a, ks[i]))
  }

  /** The lines of an entry's field. */
  function FieldLines(a: MorphData): seq<string> {
    Lines(a, ShownKeys(a))
  }

  /** The lines for the first `n` keys. */
  function LinesUpTo(a: MorphData, n: nat): seq<string>
    requires n <= |AllKeys|
  {
    Lines(a, Present(a, AllKeys[..n]))
  }

  /** Looking at key `n` adds its line when its value is non-empty. */
  lemma Considered(a: MorphData, n: nat, next: nat, k: Key)
    requires n < |AllKeys| && AllKeys[n] == k && next == n + 1
    ensures LinesUpTo(a, next) == LinesUpTo(a, n) + (if Value(a, k) != "" then [LineFor(a, k)] else [])
  {
    assert AllKeys[..n + 1][..n] == AllKeys[..n];
    var p := Present(a, AllKeys[..n]);
    if Value(a, k) != "" {
      assert Lines(a, p + [k]) == Lines(a, p) + [LineFor(a, k)];
    }
  }

  /** Where the command finds each key, and how it writes each verbatim line. */
  lemma KeyTables(a: MorphData)
    ensures AllKeys[0] == Prefix && AllKeys[1] == Menukad && AllKeys[2] == BaseForm && AllKeys[10] == Suffix
    ensures FeatureOrder == AllKeys[3..10] && SuffixFeatures == AllKeys[11..14] && AllKeys[..14] == AllKeys
    ensures forall k :: k in FeatureOrder ==> !Verbatim(k)
    ensures forall k :: k in SuffixFeatures ==> !Verbatim(k)
    ensures LineFor(a, Prefix) == Line(PrefixLabel, "Prefix", a.prefix)
    ensures LineFor(a, Menukad) == Line(VowelizedLabel, "Vowelized", a.menukad)
    ensures LineFor(a, BaseForm) == Line(BaseFormLabel, "Base Form", a.baseForm)
    ensures LineFor(a, Suffix) == Line(SuffixLabel, "Suffix", a.suffix)
  {
  }

  /** A feature's line shows its prettified value. */
  lemma FeatureLine(a: MorphData, k: Key)
    requires !Verbatim(k)
    ensures LineFor(a, k) == Line(HebrewLabel(k), EnglishLabel(k), Prettified(Value(a, k)))
  {
  }

  /**
   * One of the two loops over a feature table (`feature_order`, `suffix_features`): the
   * line of each feature with a non-empty value, prettified, in table order.
   */
  method AddFeatureLines(a: MorphData, features: seq<Key>, start: nat, end: nat, lines: seq<string>)
    returns (fieldValue: seq<string>)
    requires start <= end <= |AllKeys| && features == AllKeys[start..end]
    requires forall k :: k in features ==> !Verbatim(k)
    requires lines == LinesUpTo(a, start)
    ensures fieldValue == LinesUpTo(a, end)
  {
    fieldValue := lines;
    ghost var n: nat := start;
    for j := 0 to |features|
      invariant n == start + j
      invariant fieldValue == LinesUpTo(a, n)
    {
      var feature := features[j];
      assert AllKeys[n] == feature;
      Considered(a, n, n + 1, feature);
      FeatureLine(a, feature);
      if Value(a, feature) != "" {
        var formattedValue := Prettified(Value(a, feature));
        fieldValue := fieldValue + [Line(HebrewLabel(feature), EnglishLabel(feature), formattedValue)];
      }
      n := n + 1;
    }
  }

  /**
   * The lines of one entry exactly as the command builds them: prefix, vowelised and base
   * form, the seven features, then the suffix and its three features when there is one,
   * each only when its value is non-empty.
   */
  method FieldValue(a: MorphData) returns (fieldValue: seq<string>)
    ensures fieldValue == FieldLines(a)
  {
    KeyTables(a);
    fieldValue := [];
    assert AllKeys[..0] == [];
    Considered(a, 0, 1, Prefix);
    if a.prefix != "" {
      fieldValue := fieldValue + [Line(PrefixLabel, "Prefix", a.prefix)];
    }
    assert fieldValue == LinesUpTo(a, 1);
    Considered(a, 1, 2, Menukad);
    if a.menukad != "" {
      fieldValue := fieldValue + [Line(VowelizedLabel, "Vowelized", a.menukad)];
    }
    assert fieldValue == LinesUpTo(a, 2);
    Considered(a, 2, 3, BaseForm);
    if a.baseForm != "" {
      fieldValue := fieldValue + [Line(BaseFormLabel, "Base Form", a.baseForm)];
    }
    assert fieldValue == LinesUpTo(a, 3);
    fieldValue := AddFeatureLines(a, FeatureOrder, 3, 10, fieldValue);
    if a.suffix != "" {
      Considered(a, 10, 11, Suffix);
      fieldValue := fieldValue + [Line(SuffixLabel, "Suffix", a.suffix)];
      assert fieldValue == LinesUpTo(a, 11);
      fieldValue := AddFeatureLines(a, SuffixFeatures, 11, 14, fieldValue);
    }
  }

  /**
   * Which lines an entry gets: a key has a line exactly when its value is non-empty and,
   * for the suffix and its features, the entry has a suffix.
   */
  lemma ShownKeysMembers(a: MorphData, k: Key)
    ensures k in ShownKeys(a) <==> Value(a, k) != "" && (SuffixPart(k) ==> a.suffix != "")
  {
    PresentMembers(a, Candidates(a), k);
    assert k in AllKeys;
    assert AllKeys[..10] == [Prefix, Menukad, BaseForm, Pos, Gender, Number, Person, Status, Tense, Binyan];
  }

  /** Keys in rank order stay in rank order when the empty ones are dropped. */
  lemma {:induction false} PresentOrdered(a: MorphData, ks: seq<Key>)
    requires forall i, j :: 0 <= i < j < |ks| ==> Rank(ks[i]) < Rank(ks[j])
    ensures forall i, j :: 0 <= i < j < |Present(a, ks)| ==> Rank(Present(a, ks)[i]) < Rank(Present(a, ks)[j])
  {
    if ks != [] {
      var init := ks[..|ks| - 1];
      PresentOrdered(a, init);
      var last := ks[|ks| - 1];
      forall k | k in Present(a, init)
        ensures Rank(k) < Rank(last)
      {
        PresentMembers(a, init, k);
        var i :| 0 <= i < |init| && init[i] == k;
      }
    }
  }

  /** The lines of an entry come in the display order, each key at most once. */
  lemma ShownKeysOrdered(a: MorphData)
    ensures forall i, j :: 0 <= i < j < |ShownKeys(a)| ==> Rank(ShownKeys(a)[i]) < Rank(ShownKeys(a)[j])
    ensures |FieldLines(a)| == |ShownKeys(a)|
    ensures forall i :: 0 <= i < |ShownKeys(a)| ==> FieldLines(a)[i] == LineFor(a, ShownKeys(a)[i])
  {
    assert forall i :: 0 <= i < |AllKeys| ==> Rank(AllKeys[i]) == i;
    PresentOrdered(a, Candidates(a));
  }

  /**
   * A prettified feature holds no underscore; each underscore becomes a space, a letter is
   * upper case at the start of a word (first, or after an uncased character such as that
   * space) and lower case inside one, and every other character, Hebrew letters included,
   * stays where it was.
   */
  lemma PrettifiedValue(value: string)
    ensures |Prettified(value)| == |value|
    ensures '_' !in Prettified(value)
    ensures forall i :: 0 <= i < |value| && value[i] == '_' ==> Prettified(value)[i] == ' '
    ensures forall i :: 0 <= i < |value| && value[i] != '_' ==>
      Prettified(value)[i] == if i > 0 && IsCased(value[i - 1]) then ToLower(value[i]) else ToUpper(value[i])
    ensures forall i :: 0 <= i < |value| && !IsCased(value[i]) && value[i] != '_' ==> Prettified(value)[i] == value[i]
  {
    var spaced := ReplaceChar(value, '_', ' ');
    TitleKeepsUncased(spaced, false);
    assert forall j :: 0 <= j < |value| ==> IsCased(spaced[j]) == IsCased(value[j]);
  }

  /** A BGU tag such as PROPER_NOUN is shown as "Proper Noun". */
  lemma PrettifiedExample(v: string)
    requires v == "PROPER_NOUN"
    ensures Prettified(v) == "Proper Noun"
  {
    PrettifiedValue(v);
    var r := Prettified(v);
    assert r[0] == 'P' && r[1] == 'r' && r[2] == 'o' && r[3] == 'p' && r[4] == 'e' && r[5] == 'r';
    assert r[6] == ' ' && r[7] == 'N' && r[8] == 'o' && r[9] == 'u' && r[10] == 'n';
  }

  // ---------------------------------------------------------------- the embed fields

  datatype EmbedField = EmbedField(name: string, value: string)

  /** `f"Word #{i}"` when the entry list is longer than two, otherwise "". */
  function FieldName(count: nat, i: nat): string {
    if count > 2 then "Word #" + NatToString(i) else ""
  }

  /** The field for entry `i` (numbered `i + 1`): none for `{}` or an entry with no line. */
  function FieldAt(entries: seq<Option<MorphData>>, i: nat): (r: Option<EmbedField>)
    requires i < |entries|
    ensures r.None? <==> entries[i].None? || FieldLines(entries[i].value) == []
    ensures r.Some? ==> r.value.value == Join("\n", FieldLines(entries[i].value))
    ensures r.Some? ==> r.value.name == if |entries| > 2 then "Word #" + NatToString(i + 1) else ""
  {
    match entries[i]
    case None => None
    case Some(a) =>
      if FieldLines(a) == [] then None
      else Some(EmbedField(FieldName(|entries|, i + 1), Join("\n", FieldLines(a))))
  }

  /** The field of each entry, or none. */
  function FieldOptions(entries: seq<Option<MorphData>>): (r: seq<Option<EmbedField>>)
    ensures |r| == |entries| && forall i :: 0 <= i < |entries| ==> r[i] == FieldAt(entries, i)
  {
    seq(|entries|, i requires 0 <= i < |entries| => FieldAt(entries, i))
  }

  /** The fields of the first `n` entries, in order. */
  function FieldsUpTo(entries: seq<Option<MorphData>>, n: nat): seq<EmbedField>
    requires n <= |entries|
  {
    Somes(FieldOptions(entries)[..n])
  }

  /** Entry `i` adds its field, if it has one, after those of the entries before it. */
  lemma FieldsStep(entries: seq<Option<MorphData>>, i: nat, next: nat)
    requires next == i + 1 && next <= |entries|
    ensures FieldsUpTo(entries, next) ==
      FieldsUpTo(entries, i) + (if FieldAt(entries, i).Some? then [FieldAt(entries, i).value] else [])
  {
    SomesPrefixStep(FieldOptions(entries), i, next);
  }

  /** How many entries `word_analysis[:-1]` keeps. */
  function RenderedCount(entries: seq<Option<MorphData>>): nat {
    if |entries| == 0 then 0 else |entries| - 1
  }

  /** The fields of the embed. */
  function EmbedFields(entries: seq<Option<MorphData>>): seq<EmbedField> {
    FieldsUpTo(entries, RenderedCount(entries))
  }

  /** The analysis embed; only its list of fields is modelled. */
  class Embed {
    var fields: seq<EmbedField>

    constructor ()
      ensures fields == []
    {
      fields := [];
    }

    /** `embed.add_field(name=..., value=..., inline=False)`. */
    method AddField(name: string, value: string)
      modifies this
      ensures fields == old(fields) + [EmbedField(name, value)]
    {
      fields := fields + [EmbedField(name, value)];
    }
  }

  /** The loop of the command over `enumerate(word_analysis[:-1], 1)`. */
  method AddFields(entries: seq<Option<MorphData>>, embed: Embed)
    modifies embed
    ensures embed.fields == old(embed.fields) + EmbedFields(entries)
  {
    var shown := if |entries| > 0 then entries[..|entries| - 1] else [];
    for i := 0 to |shown|
      invariant embed.fields == old(embed.fields) + FieldsUpTo(entries, i)
    {
      FieldsStep(entries, i, i + 1);
      var wordAnalysis := shown[i];
      assert wordAnalysis == entries[i];
      if wordAnalysis.None? {
        continue;
      }
      var fieldValue := FieldValue(wordAnalysis.value);
      if fieldValue != [] {
        var name := if |entries| > 2 then "Word #" + NatToString(i + 1) else "";
        assert FieldAt(entries, i) == Some(EmbedField(name, Join("\n", fieldValue)));
        embed.AddField(name, Join("\n", fieldValue));
      }
    }
  }

  /** The reply the command sends: the formatted error, or the embed's fields. */
  datatype CommandReply = ErrorReply(message: string) | EmbedReply(fields: seq<EmbedField>)

  function ReplyFor(result: NakdanResponse<Option<MorphData>>): CommandReply {
    if result.error.Some? && result.error.value != "" then ErrorReply(DiscordHelpers.FormatErrorMessage(result.error.value))
    else EmbedReply(EmbedFields(result.wordAnalysis))
  }

  /**
   * The command once analyze_text has returned: a non-empty error is formatted and sent;
   * otherwise the embed gets one field per rendered entry.
   */
  method Respond(result: NakdanResponse<Option<MorphData>>) returns (reply: CommandReply)
    ensures reply == ReplyFor(result)
  {
    if result.error.Some? && result.error.value != "" {
      return ErrorReply(DiscordHelpers.FormatErrorMessage(result.error.value));
    }
    var embed := new Embed();
    AddFields(result.wordAnalysis, embed);
    reply := EmbedReply(embed.fields);
  }

  // ---------------------------------------------------------------- what the embed shows

  /** The last entry never decides anything: whatever it is, the fields are the same. */
  lemma LastEntryNotRendered(entries: seq<Option<MorphData>>, x: Option<MorphData>, y: Option<MorphData>)
    ensures EmbedFields(entries + [x]) == EmbedFields(entries + [y])
  {
    FieldsAgree(entries + [x], entries + [y], |entries|);
  }

  lemma FieldsAgree(e1: seq<Option<MorphData>>, e2: seq<Option<MorphData>>, n: nat)
    requires |e1| == |e2| && n <= |e1|
    requires forall i :: 0 <= i < n ==> e1[i] == e2[i]
    ensures FieldsUpTo(e1, n) == FieldsUpTo(e2, n)
  {
    forall i | 0 <= i < n
      ensures FieldOptions(e1)[i] == FieldOptions(e2)[i]
    {
      assert FieldAt(e1, i) == FieldAt(e2, i);
    }
    assert FieldOptions(e1)[..n] == FieldOptions(e2)[..n];
  }

  /**
   * The fields are exactly those of the rendered entries that have one: an entry's field
   * appears, and every field comes from some entry before the last.
   */
  lemma FieldsFromEntries(entries: seq<Option<MorphData>>, n: nat, f: EmbedField)
    requires n <= |entries|
    ensures f in FieldsUpTo(entries, n) <==> exists i :: 0 <= i < n && FieldAt(entries, i) == Some(f)
  {
    var options := FieldOptions(entries);
    SomesPrefixMembers(options, n, f);
    if exists i :: 0 <= i < n && options[i] == Some(f) {
      var i :| 0 <= i < n && options[i] == Some(f);
      assert FieldAt(entries, i) == Some(f);
    }
    if exists i :: 0 <= i < n && FieldAt(entries, i) == Some(f) {
      var i :| 0 <= i < n && FieldAt(entries, i) == Some(f);
      assert options[i] == Some(f);
    }
  }

  /**
   * Fields are numbered by the entry's position among all entries, skipped ones included:
   * entry `i` with at least one line gives the field "Word #(i + 1)" when there are more
   * than two entries, and a field with an empty name otherwise; each field of the first `n`
   * is "Word #i" for some `i` up to `n`, or unnamed with two or fewer entries.
   */
  lemma FieldNamesNumbered(entries: seq<Option<MorphData>>, n: nat)
    requires n <= |entries|
    ensures |entries| > 2 ==> forall i :: 0 <= i < n && entries[i].Some? && FieldLines(entries[i].value) != [] ==>
      EmbedField("Word #" + NatToString(i + 1), Join("\n", FieldLines(entries[i].value))) in FieldsUpTo(entries, n)
    ensures |entries| <= 2 ==> forall i :: 0 <= i < n && entries[i].Some? && FieldLines(entries[i].value) != [] ==>
      EmbedField("", Join("\n", FieldLines(entries[i].value))) in FieldsUpTo(entries, n)
    ensures |entries| <= 2 ==> forall f :: f in FieldsUpTo(entries, n) ==> f.name == ""
    ensures |entries| > 2 ==> forall f :: f in FieldsUpTo(entries, n) ==> NumberedUpTo(f.name, n)
  {
    forall i | 0 <= i < n && entries[i].Some? && FieldLines(entries[i].value) != []
      ensures EmbedField(FieldName(|entries|, i + 1), Join("\n", FieldLines(entries[i].value))) in FieldsUpTo(entries, n)
    {
      EntryFieldShown(entries, n, i, i + 1);
    }
    forall f | f in FieldsUpTo(entries, n)
      ensures |entries| <= 2 ==> f.name == ""
      ensures |entries| > 2 ==> NumberedUpTo(f.name, n)
    {
      FieldsFromEntries(entries, n, f);
      var i :| 0 <= i < n && FieldAt(entries, i) == Some(f);
      assert f.name == FieldName(|entries|, i + 1);
    }
  }

  /** An entry before `n` with at least one line has its field among the first `n`. */
  lemma EntryFieldShown(entries: seq<Option<MorphData>>, n: nat, i: nat, number: nat)
    requires n <= |entries| && i < n && number == i + 1
    requires entries[i].Some? && FieldLines(entries[i].value) != []
    ensures EmbedField(FieldName(|entries|, number), Join("\n", FieldLines(entries[i].value))) in FieldsUpTo(entries, n)
  {
    var f := EmbedField(FieldName(|entries|, number), Join("\n", FieldLines(entries[i].value)));
    assert FieldAt(entries, i) == Some(f);
    FieldsFromEntries(entries, n, f);
  }

  /** A name "Word #i" for some `i` from 1 to `n`. */
  ghost predicate NumberedUpTo(name: string, n: nat) {
    exists i :: 1 <= i <= n && name == "Word #" + NatToString(i)
  }

  /** With more than two entries no two fields share a name. */
  lemma FieldNamesDistinct(entries: seq<Option<MorphData>>, n: nat)
    requires 2 < |entries| && n <= |entries|
    ensures forall p, q :: 0 <= p < q < |FieldsUpTo(entries, n)| ==>
      FieldsUpTo(entries, n)[p].name != FieldsUpTo(entries, n)[q].name
  {
    var xs := FieldOptions(entries)[..n];
    OptionNamesDistinct(entries, n, xs);
    SomesDistinct(xs, (f: EmbedField) => f.name);
  }

  /** Before the `None` entries are dropped, the field of each entry has a name of its own. */
  lemma OptionNamesDistinct(entries: seq<Option<MorphData>>, n: nat, xs: seq<Option<EmbedField>>)
    requires 2 < |entries| && n <= |entries| && xs == FieldOptions(entries)[..n]
    ensures forall i, j :: 0 <= i < j < |xs| && xs[i].Some? && xs[j].Some? ==> xs[i].value.name != xs[j].value.name
  {
    forall i, j | 0 <= i < j < |xs| && xs[i].Some? && xs[j].Some?
      ensures xs[i].value.name != xs[j].value.name
    {
      PairNamesDiffer(entries, i, j);
    }
  }

  lemma PairNamesDiffer(entries: seq<Option<MorphData>>, i: nat, j: nat)
    requires 2 < |entries| && i < j < |entries|
    ensures FieldAt(entries, i).Some? && FieldAt(entries, j).Some? ==>
      FieldAt(entries, i).value.name != FieldAt(entries, j).value.name
  {
    FieldAtName(entries, i, i + 1);
    FieldAtName(entries, j, j + 1);
    NumberedNamesDiffer(i + 1, j + 1);
  }

  /** The field of entry `i`, if any, is named after the entry's number. */
  lemma FieldAtName(entries: seq<Option<MorphData>>, i: nat, number: nat)
    requires i < |entries| && number == i + 1
    ensures FieldAt(entries, i).Some? ==> FieldAt(entries, i).value.name == FieldName(|entries|, number)
  {
  }

  lemma NumberedNamesDiffer(i: nat, j: nat)
    requires i != j
    ensures "Word #" + NatToString(i) != "Word #" + NatToString(j)
  {
    NatToStringDistinct(i, j);
    assert ("Word #" + NatToString(i))[6..] == NatToString(i);
    assert ("Word #" + NatToString(j))[6..] == NatToString(j);
  }
}

/**
 * utils/nlp.py: splitting a segmented word into prefix, stem and suffix, reading the BGU
 * block into the analysis record in place, and the per-record composition of the two.
 */
module Nlp {
  import opened Wrappers
  import opened PyBuiltins
  import opened NakdanTypes

  /** The record process_word_parts starts from: `word` set, every other field "". */
  function Blank(word: string): MorphData {
    MorphData(word, "", "", "", "", "", "", "", "", "", "", "", "", "", "")
  }

  /**
   * process_word_parts: `word.split('|')`; with more than one part the first non-empty part
   * is the prefix, with more than two the last part is the suffix and the middle parts,
   * rejoined with '|', are the stem; a word without '|' is its own stem.
   */
  function ProcessWordParts(word: string): (a: MorphData)
    ensures a.word == word
    ensures a.baseForm == "" && a.pos == "" && a.gender == "" && a.number == "" && a.person == ""
    ensures a.status == "" && a.tense == "" && a.binyan == ""
    ensures a.sufGender == "" && a.sufPerson == "" && a.sufNumber == ""
  {
    var parts := SplitOn(word, '|');
    var blank := Blank(word);
    if |parts| > 1 then
      var withPrefix := if parts[0] != "" then blank.(prefix := parts[0]) else blank;
      if |parts| > 2 then
        withPrefix.(suffix := parts[|parts| - 1], menukad := Join("|", parts[1..|parts| - 1]))
      else
        withPrefix.(menukad := parts[1])
    else
      blank.(menukad := word)
  }

  /**
   * How process_word_parts segments a word, by the number of '|' in it: none leaves the
   * word as the stem; one splits it into prefix and stem; two or more cut a prefix before
   * the first and a suffix after the last, with the rest as the stem. In every case the
   * segments put back together with '|' are the word, and prefix and suffix hold no '|'.
   */
  lemma ProcessWordPartsSegments(word: string)
    ensures var a := ProcessWordParts(word);
      && (Count(word, '|') == 0 ==> a.menukad == word && a.prefix == "" && a.suffix == "")
      && (Count(word, '|') == 1 ==>
            a.prefix + "|" + a.menukad == word && a.suffix == "" && '|' !in a.prefix && '|' !in a.menukad)
      && (Count(word, '|') >= 2 ==>
            a.prefix + "|" + a.menukad + "|" + a.suffix == word && '|' !in a.prefix && '|' !in a.suffix)
  {
    var n := |SplitOn(word, '|')|;
    if n == 2 {
      TwoSegments(word);
    } else if n > 2 {
      ThreeSegments(word);
    }
  }

  lemma TwoSegments(word: string)
    requires |SplitOn(word, '|')| == 2
    ensures var a := ProcessWordParts(word);
      a.prefix + "|" + a.menukad == word && a.suffix == "" && '|' !in a.prefix && '|' !in a.menukad
  {
    var parts := SplitOn(word, '|');
    var a := ProcessWordParts(word);
    assert a.prefix == parts[0] && a.menukad == parts[1] && a.suffix == "";
    JoinSplitOn(word, '|');
    assert word == parts[0] + "|" + Join("|", parts[1..]);
    assert parts[1..] == [parts[1]];
  }

  lemma ThreeSegments(word: string)
    requires |SplitOn(word, '|')| > 2
    ensures var a := ProcessWordParts(word);
      a.prefix + "|" + a.menukad + "|" + a.suffix == word && '|' !in a.prefix && '|' !in a.suffix
  {
    var parts := SplitOn(word, '|');
    JoinSplitOn(word, '|');
    JoinOuter("|", parts);
  }

  /**
   * The effect of process_bgu_field on a record: with a usable BGU table the eight
   * features are read from it ("" for a missing key; see FeatureFromTable), and the three
   * suffix features too when the record has a suffix; without one the record is left as
   * it was.
   */
  function BguApplied(a: MorphData, bgu: Option<Json>): (r: MorphData)
    ensures BguTable(bgu).None? ==> r == a
    ensures r.word == a.word && r.prefix == a.prefix && r.suffix == a.suffix && r.menukad == a.menukad
    ensures a.suffix == "" ==> r.sufGender == a.sufGender && r.sufPerson == a.sufPerson && r.sufNumber == a.sufNumber
    ensures BguTable(bgu).Some? && a.suffix != "" ==>
      && r.sufGender == Get(BguTable(bgu).value, "Suf_Gender")
      && r.sufPerson == Get(BguTable(bgu).value, "Suf_Person")
      && r.sufNumber == Get(BguTable(bgu).value, "Suf_Number")
  {
    match BguTable(bgu)
    case None => a
    case Some(d) =>
      var b := a.(baseForm := Get(d, "lex"), pos := Get(d, "POS"), gender := Get(d, "Gender"),
                  number := Get(d, "Number"), person := Get(d, "Person"), tense := Get(d, "Tense"),
                  binyan := Get(d, "Binyan"), status := Get(d, "Status"));
      if b.suffix != "" then
        b.(sufGender := Get(d, "Suf_Gender"), sufPerson := Get(d, "Suf_Person"), sufNumber := Get(d, "Suf_Number"))
      else b
  }

  /**
   * A BGU block that is absent, null, not a string, or a single line after stripping
   * changes nothing.
   */
  lemma BguUnusableLeavesRecord(a: MorphData, bgu: Option<Json>)
    requires bgu.None? || bgu.value.JNull? || !bgu.value.JStr? || |BguLines(bgu.value.s)| < 2
    ensures BguApplied(a, bgu) == a
  {
  }

  /** The eight features process_bgu_field reads from every usable BGU table. */
  datatype BguKey = Lex | Pos | Gender | Number | Person | Tense | Binyan | Status

  /** The BGU header each feature is read from. */
  function Header(k: BguKey): string {
    match k
    case Lex => "lex"
    case Pos => "POS"
    case Gender => "Gender"
    case Number => "Number"
    case Person => "Person"
    case Tense => "Tense"
    case Binyan => "Binyan"
    case Status => "Status"
  }

  /** The field of a record that a feature fills. */
  function Feature(m: MorphData, k: BguKey): string {
    match k
    case Lex => m.baseForm
    case Pos => m.pos
    case Gender => m.gender
    case Number => m.number
    case Person => m.person
    case Tense => m.tense
    case Binyan => m.binyan
    case Status => m.status
  }

  /**
   * With a usable block each feature is the value under its header, taken from the last
   * header column of that name that has a value (so extra headers or extra values are
   * dropped), and "" when there is none.
   */
  lemma BguFeatureFromColumns(a: MorphData, bgu: string, k: BguKey, headers: seq<string>, values: seq<string>)
    requires '\n' in Strip(bgu)
    requires headers == SplitOn(BguLines(bgu)[0], '\t') && values == SplitOn(BguLines(bgu)[1], '\t')
    ensures (forall j :: 0 <= j < Min(|headers|, |values|) ==> headers[j] != Header(k)) ==>
      Feature(BguApplied(a, Some(JStr(bgu))), k) == ""
    ensures forall i :: 0 <= i < Min(|headers|, |values|) && headers[i] == Header(k)
                     && (forall j :: i < j < Min(|headers|, |values|) ==> headers[j] != Header(k))
                     ==> Feature(BguApplied(a, Some(JStr(bgu))), k) == values[i]
  {
    FeatureFromTable(a, Some(JStr(bgu)), k);
    ZipGet(headers, values, Header(k));
  }

  /** Each feature of the updated record is the table's value under its header. */
  lemma FeatureFromTable(a: MorphData, bgu: Option<Json>, k: BguKey)
    requires BguTable(bgu).Some?
    ensures Feature(BguApplied(a, bgu), k) == Get(BguTable(bgu).value, Header(k))
  {
    var d := BguTable(bgu).value;
    var b := a.(baseForm := Get(d, "lex"), pos := Get(d, "POS"), gender := Get(d, "Gender"),
                number := Get(d, "Number"), person := Get(d, "Person"), tense := Get(d, "Tense"),
                binyan := Get(d, "Binyan"), status := Get(d, "Status"));
    assert Feature(b, k) == Get(d, Header(k));
    if b.suffix != "" {
      var c := b.(sufGender := Get(d, "Suf_Gender"), sufPerson := Get(d, "Suf_Person"), sufNumber := Get(d, "Suf_Number"));
      assert BguApplied(a, bgu) == c;
      assert Feature(c, k) == Feature(b, k);
    } else {
      assert BguApplied(a, bgu) == b;
    }
  }

  /** The `analysis` dictionary, which process_bgu_field updates in place. */
  class Analysis {
    var data: MorphData

    constructor (initial: MorphData)
      ensures data == initial
    {
      data := initial;
    }
  }

  /** process_bgu_field: reads the record's BGU block into `analysis`, in place. */
  method ProcessBguField(wordData: WordOption, analysis: Analysis)
    modifies analysis
    ensures analysis.data == BguApplied(old(analysis.data), wordData.bgu)
  {
    if wordData.bgu.None? || wordData.bgu.value.JNull? {
      return;
    }
    var bguText := wordData.bgu.value;
    if !bguText.JStr? {
      return;
    }
    var bguLines := SplitOn(Strip(bguText.s), '\n');
    if |bguLines| >= 2 {
      var headers := SplitOn(bguLines[0], '\t');
      var values := SplitOn(bguLines[1], '\t');
      var bguData := ZipDict(headers, values);
      analysis.data := analysis.data.(
        baseForm := Get(bguData, "lex"),
        pos := Get(bguData, "POS"),
        gender := Get(bguData, "Gender"),
        number := Get(bguData, "Number"),
        person := Get(bguData, "Person"),
        tense := Get(bguData, "Tense"),
        binyan := Get(bguData, "Binyan"),
        status := Get(bguData, "Status"));
      if analysis.data.suffix != "" {
        analysis.data := analysis.data.(
          sufGender := Get(bguData, "Suf_Gender"),
          sufPerson := Get(bguData, "Suf_Person"),
          sufNumber := Get(bguData, "Suf_Number"));
      }
    }
  }

  /** The analysis process_word_data returns for a record. */
  function WordMorphology(w: WordOption): MorphData {
    BguApplied(ProcessWordParts(w.word), w.bgu)
  }

  /**
   * process_word_data: the first vowelised candidate (or the word) and the word's
   * segmentation updated by its BGU block. The UD block is parsed only to be rendered to
   * the log, so it has no effect here.
   */
  method ProcessWordData(wordData: WordOption) returns (vowelised: string, analysis: MorphData)
    ensures vowelised == FirstCandidate(wordData)
    ensures analysis == WordMorphology(wordData)
    ensures analysis.word == wordData.word
  {
    var word := wordData.word;
    var options := wordData.options;
    vowelised := word;
    if |options| > 0 && options[0].JList? && |options[0].items| > 0 {
      vowelised := if options[0].items[0].JStr? then options[0].items[0].s else word;
    }
    var record := new Analysis(ProcessWordParts(word));
    ProcessBguField(wordData, record);
    analysis := record.data;
  }
}

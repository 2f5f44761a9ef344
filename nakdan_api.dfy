/**
 * utils/nakdan_api.py: the three entry points that validate a text, hand it to the Nakdan
 * service and turn the reply into a NakdanResponse (analyze_text, get_lemmas, get_nikud),
 * with is_hebrew and the whitespace-preserving reassembly of the vowelised text.
 *
 * The service call is not modelled: each entry point receives the reply as an ApiReply,
 * and Hebrew normalisation (`Hebrew(s).normalize().string`) is the parameter `nfc`.
 */
module NakdanApi {
  import opened Wrappers
  import opened PyBuiltins
  import opened HebrewConstants
  import opened Models
  import opened NakdanTypes
  import Nlp

  // ---------------------------------------------------------------- validation

  /** A character of the Hebrew block, U+0590 to U+05FF. */
  predicate IsHebrewChar(c: char) {
    '\U{0590}' <= c <= '\U{05FF}'
  }

  /** is_hebrew: some character of the text lies in the Hebrew block. */
  function IsHebrew(text: string): (r: bool)
    ensures r <==> exists i :: 0 <= i < |text| && IsHebrewChar(text[i])
  {
    if text == [] then false
    else IsHebrewChar(text[0]) || IsHebrew(text[1..])
  }

  /**
   * The checks each entry point makes before calling the service, in order: a blank text,
   * then a text longer than `limit`, then a text without Hebrew. None means the text may
   * be sent. A text with a Hebrew letter is never blank, so a text passes exactly when it
   * fits the limit and holds a Hebrew letter.
   */
  function Validate(text: string, limit: int): (r: Option<string>)
    ensures r == Some(EmptyTextMessage) <==> forall i :: 0 <= i < |text| ==> IsSpace(text[i])
    ensures r == Some(TextTooLongMessage) <==> (exists i :: 0 <= i < |text| && !IsSpace(text[i])) && |text| > limit
    ensures r == Some(NonHebrewMessage) <==>
      && (exists i :: 0 <= i < |text| && !IsSpace(text[i]))
      && |text| <= limit
      && (forall i :: 0 <= i < |text| ==> !IsHebrewChar(text[i]))
    ensures r.None? <==> |text| <= limit && exists i :: 0 <= i < |text| && IsHebrewChar(text[i])
  {
    if Strip(text) == "" then Some(EmptyTextMessage)
    else if |text| > limit then Some(TextTooLongMessage)
    else if !IsHebrew(text) then Some(NonHebrewMessage)
    else None
  }

  /** Blank texts are refused as empty, the limit being MAX_TEXT_LENGTH. */
  lemma ValidateBlankExamples()
    ensures Validate("", MaxTextLength) == Some(EmptyTextMessage)
    ensures Validate(" \t\n", MaxTextLength) == Some(EmptyTextMessage)
  {
  }

  /** A Latin word is refused for want of Hebrew; a Hebrew word passes. */
  lemma ValidateScriptExamples()
    ensures Validate("hello", MaxTextLength) == Some(NonHebrewMessage)
    ensures Validate("שלום", MaxTextLength) == None
  {
    assert !IsSpace("hello"[0]);
    assert IsHebrewChar("שלום"[0]);
  }

  /** MAX_TEXT_LENGTH characters pass; one more is too long. */
  lemma ValidateLengthExamples()
    ensures Validate(seq(501, _ => 'א'), MaxTextLength) == Some(TextTooLongMessage)
    ensures Validate(seq(500, _ => 'א'), MaxTextLength) == None
  {
    var long := seq(501, _ => 'א');
    assert !IsSpace(long[0]);
    var fits := seq(500, _ => 'א');
    assert IsHebrewChar(fits[0]);
  }

  /**
   * Building the success response: the NakdanResponse validator rejects a text longer than
   * MAX_TEXT_LENGTH, and the ValueError, raised inside the `try`, comes back as a
   * processing error.
   */
  function Finish<A>(text: string, entries: seq<A>): (r: NakdanResponse<A>)
    ensures r.Valid()
    ensures r.error.None? <==> |text| <= MaxTextLength
    ensures r.error.None? ==> r == NakdanResponse(text, None, [], [], entries)
    ensures r.error.Some? ==> r == ErrorResponse(ProcessingError(TextTooLongMessage))
  {
    match New(text, wordAnalysis := entries)
    case Success(response) => response
    case Failure(message) => ErrorResponse(ProcessingError(message))
  }

  // ---------------------------------------------------------------- analyze_text

  /** The dictionary analyze_text records per element: `{}` for a plain string. */
  datatype WordEntry =
    | NoEntry
    | Entry(word: string, baseForm: string, pos: string, gender: string, number: string, person: string, tense: string)

  /**
   * The entry for one element: the record's word and, when its BGU block is a usable
   * table, the six features read from it. Any other BGU value has no `strip`; the error is
   * caught and logged, and the features stay "".
   */
  function EntryOf(t: Token): (e: WordEntry)
    ensures e.NoEntry? <==> t.Plain?
    ensures t.Record? ==> e.word == t.entry.word
    ensures t.Record? && BguTable(t.entry.bgu).None? ==> e == Entry(t.entry.word, "", "", "", "", "", "")
  {
    match t
    case Plain(_) => NoEntry
    case Record(w) =>
      match BguTable(w.bgu)
      case None => Entry(w.word, "", "", "", "", "", "")
      case Some(d) =>
        Entry(w.word, Get(d, "lex"), Get(d, "POS"), Get(d, "Gender"), Get(d, "Number"), Get(d, "Person"), Get(d, "Tense"))
  }

  function Entries(data: seq<Token>): (r: seq<WordEntry>)
    ensures |r| == |data| && forall i :: 0 <= i < |data| ==> r[i] == EntryOf(data[i])
  {
    seq(|data|, i requires 0 <= i < |data| => EntryOf(data[i]))
  }

  /** The entries of one element more. */
  lemma EntriesSnoc(data: seq<Token>, i: nat)
    requires i < |data|
    ensures Entries(data[..i + 1]) == Entries(data[..i]) + [EntryOf(data[i])]
    ensures AnalyzedForms(data[..i + 1]) == AnalyzedForms(data[..i]) + [AnalyzedForm(data[i])]
  {
    assert data[..i + 1] == data[..i] + [data[i]];
  }

  /**
   * This inline reading of the BGU block and the one in utils/nlp.py give the same six
   * features for every record.
   */
  lemma EntryAgreesWithNlp(w: WordOption)
    ensures var e, m := EntryOf(Record(w)), Nlp.WordMorphology(w);
      && e.word == m.word && e.baseForm == m.baseForm && e.pos == m.pos && e.gender == m.gender
      && e.number == m.number && e.person == m.person && e.tense == m.tense
  {
    var a := Nlp.ProcessWordParts(w.word);
    if BguTable(w.bgu).None? {
      assert Nlp.WordMorphology(w) == a;
    }
  }

  /** The body of analyze_text's loop for a record: its vowelised form and its entry. */
  method AnalyzeRecord(w: WordOption) returns (vowelizedForm: string, analysis: WordEntry)
    ensures vowelizedForm == FirstCandidate(w)
    ensures analysis == EntryOf(Record(w))
  {
    var word := w.word;
    var options := w.options;
    if |options| > 0 && options[0].JList? && |options[0].items| > 0 {
      vowelizedForm := if options[0].items[0].JStr? then options[0].items[0].s else word;
    } else {
      vowelizedForm := word;
    }
    analysis := Entry(word, "", "", "", "", "", "");
    if w.bgu.Some? && w.bgu.value.JStr? {
      var bguLines := SplitOn(Strip(w.bgu.value.s), '\n');
      if |bguLines| >= 2 {
        var headers := SplitOn(bguLines[0], '\t');
        var values := SplitOn(bguLines[1], '\t');
        var bguData := ZipDict(headers, values);
        analysis := analysis.(
          baseForm := Get(bguData, "lex"),
          pos := Get(bguData, "POS"),
          gender := Get(bguData, "Gender"),
          number := Get(bguData, "Number"),
          person := Get(bguData, "Person"),
          tense := Get(bguData, "Tense"));
      }
    }
  }

  /**
   * analyze_text. The length check uses MAX_TEXT_LENGTH, not the `maxLength` argument. With
   * a reply the text is the vowelised forms concatenated without separators and
   * normalised, and there is one entry per element.
   */
  method AnalyzeText(text: string, maxLength: int, reply: ApiReply, nfc: string -> string)
    returns (r: NakdanResponse<WordEntry>)
    ensures r.Valid()
    ensures Validate(text, MaxTextLength).Some? ==> r == ErrorResponse(Validate(text, MaxTextLength).value)
    ensures Validate(text, MaxTextLength).None? && reply.Raised? ==> r == ErrorResponse(ProcessingError(reply.detail))
    ensures Validate(text, MaxTextLength).None? && reply.Reply? ==>
      r == Finish(nfc(Join("", AnalyzedForms(reply.data))), Entries(reply.data))
  {
    var invalid := Validate(text, MaxTextLength);
    if invalid.Some? {
      return ErrorResponse(invalid.value);
    }
    if reply.Raised? {
      return ErrorResponse(ProcessingError(reply.detail));
    }
    var data := reply.data;
    var wordAnalysis: seq<WordEntry> := [];
    var vowelizedWords: seq<string> := [];
    for i := 0 to |data|
      invariant wordAnalysis == Entries(data[..i])
      invariant vowelizedWords == AnalyzedForms(data[..i])
    {
      EntriesSnoc(data, i);
      match data[i]
      case Record(w) =>
        var vowelizedForm, analysis := AnalyzeRecord(w);
        vowelizedWords := vowelizedWords + [vowelizedForm];
        wordAnalysis := wordAnalysis + [analysis];
      case Plain(s) =>
        wordAnalysis := wordAnalysis + [NoEntry];
        vowelizedWords := vowelizedWords + [s];
    }
    assert data[..|data|] == data;
    var vowelizedText := Join("", vowelizedWords);
    var preservedText := nfc(vowelizedText);
    var built := New(preservedText, wordAnalysis := wordAnalysis);
    r := if built.Success? then built.value else ErrorResponse(ProcessingError(built.error));
  }

  // ---------------------------------------------------------------- get_lemmas

  /** The dictionary get_lemmas records per element (`baseForm` is its `lemma` key): `{}` for a plain string. */
  datatype LemmaEntry = NoLemmaEntry | LemmaEntry(word: string, baseForm: Json)

  /**
   * `options[0][1][0]`, the first morphological reading, when the lookup reaches it:
   * `options[0]` a list of at least two items whose second is a non-empty list.
   */
  function MorphHead(w: WordOption): Option<Json> {
    if |w.options| > 0 && w.options[0].JList? && |w.options[0].items| >= 2
       && w.options[0].items[1].JList? && |w.options[0].items[1].items| >= 1
    then Some(w.options[0].items[1].items[0])
    else None
  }

  /**
   * The lemma get_lemmas takes for a record: item 1 of the first morphological reading when
   * that reading has more than one item (one character, when the reading is a string),
   * otherwise the word. `len` of a null, boolean or number and item 1 of a dictionary raise
   * inside the `try`, and those leave the word too.
   */
  function LemmaOf(w: WordOption): (r: Json)
    ensures MorphHead(w).None? ==> r == JStr(w.word)
    ensures MorphHead(w).Some? && MorphHead(w).value.JStr? ==>
      var s := MorphHead(w).value.s;
      r == if |s| > 1 then JStr([s[1]]) else JStr(w.word)
    ensures MorphHead(w).Some? && MorphHead(w).value.JList? ==>
      var xs := MorphHead(w).value.items;
      r == if |xs| > 1 then xs[1] else JStr(w.word)
    ensures MorphHead(w).Some? && !MorphHead(w).value.JStr? && !MorphHead(w).value.JList? ==> r == JStr(w.word)
  {
    var word := w.word;
    var options := w.options;
    if |options| > 0 && options[0].JList? then
      var firstOption := options[0].items;
      if |firstOption| >= 2 && firstOption[1].JList? then
        var morphData := firstOption[1].items;
        if |morphData| >= 1 then
          match morphData[0]
          case JStr(s) => if |s| > 1 then JStr([s[1]]) else JStr(word)
          case JList(xs) => if |xs| > 1 then xs[1] else JStr(word)
          case _ => JStr(word)
        else JStr(word)
      else JStr(word)
    else JStr(word)
  }

  /** What each element contributes to the joined text: `str(element)` for a plain string. */
  function LemmaFragment(t: Token): Json {
    match t
    case Plain(s) => JStr(s)
    case Record(w) => LemmaOf(w)
  }

  function LemmaFragments(data: seq<Token>): (r: seq<Json>)
    ensures |r| == |data| && forall i :: 0 <= i < |data| ==> r[i] == LemmaFragment(data[i])
  {
    seq(|data|, i requires 0 <= i < |data| => LemmaFragment(data[i]))
  }

  function LemmaEntryOf(t: Token): (e: LemmaEntry)
    ensures e.NoLemmaEntry? <==> t.Plain?
  {
    match t
    case Plain(_) => NoLemmaEntry
    case Record(w) => LemmaEntry(w.word, LemmaOf(w))
  }

  function LemmaEntries(data: seq<Token>): (r: seq<LemmaEntry>)
    ensures |r| == |data| && forall i :: 0 <= i < |data| ==> r[i] == LemmaEntryOf(data[i])
  {
    seq(|data|, i requires 0 <= i < |data| => LemmaEntryOf(data[i]))
  }

  lemma LemmaEntriesSnoc(data: seq<Token>, i: nat)
    requires i < |data|
    ensures LemmaFragments(data[..i + 1]) == LemmaFragments(data[..i]) + [LemmaFragment(data[i])]
    ensures LemmaEntries(data[..i + 1]) == LemmaEntries(data[..i]) + [LemmaEntryOf(data[i])]
  {
    assert data[..i + 1] == data[..i] + [data[i]];
  }

  /**
   * The response for a reply: the fragments joined with single spaces, or, when a lemma is
   * not a string, the processing error for the TypeError `' '.join` raises.
   */
  function LemmasResponse(data: seq<Token>): NakdanResponse<LemmaEntry> {
    match JoinJson(" ", LemmaFragments(data))
    case Success(joined) => Finish(joined, LemmaEntries(data))
    case Failure(message) => ErrorResponse(ProcessingError(message))
  }

  /** When every lemma is a string the text is their join with single spaces. */
  lemma LemmasJoined(data: seq<Token>)
    requires forall i :: 0 <= i < |data| ==> LemmaFragment(data[i]).JStr?
    ensures var r := LemmasResponse(data);
      && (|Join(" ", Strings(LemmaFragments(data)))| <= MaxTextLength ==>
            r.error.None? && r.text == Join(" ", Strings(LemmaFragments(data))))
      && (r.error.None? ==> r.wordAnalysis == LemmaEntries(data))
  {
    assert forall i :: 0 <= i < |LemmaFragments(data)| ==> LemmaFragments(data)[i].JStr?;
  }

  /**
   * A lemma that is not a string (a reading whose item 1 is a list, a number, null) makes
   * the whole call fail with the TypeError for the first such element.
   */
  lemma NonStringLemmaFails(data: seq<Token>, i: nat)
    requires i < |data| && !LemmaFragment(data[i]).JStr?
    requires forall j :: 0 <= j < i ==> LemmaFragment(data[j]).JStr?
    ensures LemmasResponse(data) == ErrorResponse(ProcessingError(
      "sequence item " + NatToString(i) + ": expected str instance, " + TypeName(LemmaFragment(data[i])) + " found"))
  {
    var items := LemmaFragments(data);
    var k := FirstNonString(items);
    assert !items[i].JStr?;
    assert k == i;
  }

  /**
   * get_lemmas. Unlike analyze_text it checks the length against `maxLength`.
   */
  method GetLemmas(text: string, maxLength: int, reply: ApiReply) returns (r: NakdanResponse<LemmaEntry>)
    ensures r.Valid()
    ensures Validate(text, maxLength).Some? ==> r == ErrorResponse(Validate(text, maxLength).value)
    ensures Validate(text, maxLength).None? && reply.Raised? ==> r == ErrorResponse(ProcessingError(reply.detail))
    ensures Validate(text, maxLength).None? && reply.Reply? ==> r == LemmasResponse(reply.data)
  {
    var invalid := Validate(text, maxLength);
    if invalid.Some? {
      return ErrorResponse(invalid.value);
    }
    if reply.Raised? {
      return ErrorResponse(ProcessingError(reply.detail));
    }
    var data := reply.data;
    var lemmatizedWords: seq<Json> := [];
    var wordAnalysis: seq<LemmaEntry> := [];
    for i := 0 to |data|
      invariant lemmatizedWords == LemmaFragments(data[..i])
      invariant wordAnalysis == LemmaEntries(data[..i])
    {
      LemmaEntriesSnoc(data, i);
      match data[i]
      case Record(w) =>
        var word := w.word;
        var options := w.options;
        var baseForm := JStr(word);
        if |options| > 0 && options[0].JList? {
          var firstOption := options[0].items;
          if |firstOption| >= 2 && firstOption[1].JList? {
            var morphData := firstOption[1].items;
            if |morphData| >= 1 {
              match morphData[0]
              case JStr(s) =>
                if |s| > 1 {
                  baseForm := JStr([s[1]]);
                }
              case JList(xs) =>
                if |xs| > 1 {
                  baseForm := xs[1];
                }
              case _ =>
            }
          }
        }
        lemmatizedWords := lemmatizedWords + [baseForm];
        wordAnalysis := wordAnalysis + [LemmaEntry(word, baseForm)];
      case Plain(s) =>
        lemmatizedWords := lemmatizedWords + [JStr(s)];
        wordAnalysis := wordAnalysis + [NoLemmaEntry];
    }
    assert data[..|data|] == data;
    var joined := JoinJson(" ", lemmatizedWords);
    if joined.Failure? {
      return ErrorResponse(ProcessingError(joined.error));
    }
    var built := New(joined.value, wordAnalysis := wordAnalysis);
    r := if built.Success? then built.value else ErrorResponse(ProcessingError(built.error));
  }

  // ---------------------------------------------------------------- get_nikud

  /**
   * The whitespace around the words of `s[i..].split()`: the run before the first word,
   * the run between each pair of neighbours and the run after the last, one more than
   * there are words.
   */
  function GapsFrom(s: string, i: nat): (r: seq<string>)
    requires i <= |s|
    ensures |r| == |WordsFrom(s, i)| + 1
    decreases |s| - i
  {
    var k := SkipSpaces(s, i);
    if k == |s| then [s[i..]]
    else [s[i..k]] + GapsFrom(s, SkipWord(s, k))
  }

  /** The whitespace around the words of `s.split()`. */
  function Gaps(s: string): (r: seq<string>)
    ensures |r| == |SplitWs(s)| + 1
  {
    GapsFrom(s, 0)
  }

  /** The text the gaps and the words make when each word is put between two gaps. */
  function Interleave(spaces: seq<string>, words: seq<string>): string
    requires |spaces| == |words| + 1
  {
    if words == [] then spaces[0] else spaces[0] + words[0] + Interleave(spaces[1..], words[1..])
  }

  /** The words and gaps from `i` when a word starts at or after it. */
  lemma FromStep(s: string, i: nat)
    requires i <= |s| && WordsFrom(s, i) != []
    ensures SkipSpaces(s, i) < |s|
    ensures var k := SkipSpaces(s, i); var e := SkipWord(s, k);
      && k < e
      && GapsFrom(s, i) == [s[i..k]] + GapsFrom(s, e)
      && WordsFrom(s, i) == [s[k..e]] + WordsFrom(s, e)
  {
  }

  /** One step of Interleave: the first gap, the first word, then the rest. */
  lemma InterleaveCons(gap: string, word: string, gaps: seq<string>, words: seq<string>)
    requires |gaps| == |words| + 1
    ensures Interleave([gap] + gaps, [word] + words) == gap + word + Interleave(gaps, words)
  {
    assert ([gap] + gaps)[1..] == gaps;
    assert ([word] + words)[1..] == words;
  }

  /** Splitting a text into words and gaps loses nothing. */
  lemma {:induction false} GapsFromRoundTrip(s: string, i: nat)
    requires i <= |s|
    ensures Interleave(GapsFrom(s, i), WordsFrom(s, i)) == s[i..]
    decreases |s| - i
  {
    if SkipSpaces(s, i) < |s| {
      var k := SkipSpaces(s, i);
      var e := SkipWord(s, k);
      var gaps, words := GapsFrom(s, e), WordsFrom(s, e);
      calc {
        Interleave(GapsFrom(s, i), WordsFrom(s, i));
        { FromStep(s, i); }
        Interleave([s[i..k]] + gaps, [s[k..e]] + words);
        { InterleaveCons(s[i..k], s[k..e], gaps, words); }
        s[i..k] + s[k..e] + Interleave(gaps, words);
        { GapsFromRoundTrip(s, e); }
        s[i..k] + s[k..e] + s[e..];
        { SliceSplit(s, i, k, e); }
        s[i..];
      }
    }
  }

  lemma SliceSplit(s: string, i: nat, k: nat, e: nat)
    requires i <= k <= e <= |s|
    ensures s[i..k] + s[k..e] + s[e..] == s[i..]
  {
  }

  lemma GapsRoundTrip(s: string)
    ensures Interleave(Gaps(s), SplitWs(s)) == s
  {
    GapsFromRoundTrip(s, 0);
    assert s[0..] == s;
  }

  /** Every gap is whitespace, and the gaps between two words are never empty. */
  lemma {:induction false} GapsFromAreWhitespace(s: string, i: nat)
    requires i <= |s|
    requires i == 0 || i == |s| || IsSpace(s[i])
    ensures forall n :: 0 <= n < |GapsFrom(s, i)| ==> AllSpace(GapsFrom(s, i)[n])
    ensures forall n :: 0 < n < |GapsFrom(s, i)| - 1 ==> GapsFrom(s, i)[n] != ""
    ensures 0 < i < |s| && |GapsFrom(s, i)| > 1 ==> GapsFrom(s, i)[0] != ""
    decreases |s| - i
  {
    var k := SkipSpaces(s, i);
    if k < |s| {
      var e := SkipWord(s, k);
      GapsFromAreWhitespace(s, e);
      var rest := GapsFrom(s, e);
      assert GapsFrom(s, i) == [s[i..k]] + rest;
      if 0 < i && i < |s| {
        assert k > i;
      }
    }
  }

  /** Every gap of a text is whitespace, and the gaps between two words are never empty. */
  lemma GapsAreWhitespace(s: string)
    ensures forall n :: 0 <= n < |Gaps(s)| ==> AllSpace(Gaps(s)[n])
    ensures forall n :: 0 < n < |Gaps(s)| - 1 ==> Gaps(s)[n] != ""
  {
    GapsFromAreWhitespace(s, 0);
  }

  /** `find` from `start` skips a whitespace run to the word `s[k..e]` that ends it. */
  lemma {:induction false} FindAfterSpaces(s: string, start: nat, k: nat, e: nat)
    requires start <= k < e <= |s|
    requires forall j :: start <= j < k ==> IsSpace(s[j])
    requires !IsSpace(s[k])
    ensures Find(s, s[k..e], start) == k
    decreases k - start
  {
    if start < k {
      assert s[start..start + (e - k)][0] == s[start];
      FindAfterSpaces(s, start + 1, k, e);
    }
  }

  /** The loop of get_nikud that records the original spacing with `find`. */
  method OriginalSpaces(text: string) returns (originalSpaces: seq<string>)
    ensures originalSpaces == Gaps(text)
  {
    var originalWords := SplitWs(text);
    originalSpaces := [];
    var currentPos: nat := 0;
    for i := 0 to |originalWords|
      invariant currentPos <= |text|
      invariant WordsFrom(text, currentPos) == originalWords[i..]
      invariant originalSpaces + GapsFrom(text, currentPos) == Gaps(text)
    {
      var word := originalWords[i];
      var wordPos := Find(text, word, currentPos);
      var next := wordPos + |word|;
      GapStep(text, currentPos, originalWords, i, wordPos, next, originalSpaces);
      if wordPos > currentPos {
        originalSpaces := originalSpaces + [text[currentPos..wordPos]];
      } else {
        originalSpaces := originalSpaces + [""];
      }
      currentPos := next;
    }
    LastGap(text, currentPos, originalSpaces);
    if currentPos < |text| {
      originalSpaces := originalSpaces + [text[currentPos..]];
    } else {
      originalSpaces := originalSpaces + [""];
    }
  }

  /**
   * One round of the loop: from a position where the words left are `words[i..]`, `find`
   * lands on the next word where the whitespace ends, and the words and gaps after it are
   * the rest.
   */
  lemma NextWord(text: string, pos: nat, words: seq<string>, i: nat, wordPos: int, next: int)
    requires pos <= |text| && i < |words| && WordsFrom(text, pos) == words[i..]
    requires wordPos == Find(text, words[i], pos) && next == wordPos + |words[i]|
    ensures pos <= wordPos && 0 <= next <= |text|
    ensures WordsFrom(text, next) == words[i + 1..]
    ensures GapsFrom(text, pos) == [text[pos..wordPos]] + GapsFrom(text, next)
  {
    FromStep(text, pos);
    var k := SkipSpaces(text, pos);
    var e := SkipWord(text, k);
    ConsTail(text[k..e], WordsFrom(text, e), words[i..]);
    assert words[i..][1..] == words[i + 1..];
    FindAfterSpaces(text, pos, k, e);
  }

  /**
   * The loop invariant of OriginalSpaces survives one round: the gap `find` skips (empty
   * when the word starts at once) joins the collected gaps and the position moves past the
   * word.
   */
  lemma GapStep(text: string, pos: nat, words: seq<string>, i: nat, wordPos: int, next: int, collected: seq<string>)
    requires pos <= |text| && i < |words| && WordsFrom(text, pos) == words[i..]
    requires collected + GapsFrom(text, pos) == Gaps(text)
    requires wordPos == Find(text, words[i], pos) && next == wordPos + |words[i]|
    ensures pos <= wordPos && 0 <= next <= |text|
    ensures WordsFrom(text, next) == words[i + 1..]
    ensures (collected + [text[pos..wordPos]]) + GapsFrom(text, next) == Gaps(text)
    ensures wordPos <= pos ==> (collected + [""]) + GapsFrom(text, next) == Gaps(text)
  {
    NextWord(text, pos, words, i, wordPos, next);
    AppendGap(collected, text[pos..wordPos], GapsFrom(text, next), Gaps(text));
    if wordPos <= pos {
      EmptyGap(collected, text[pos..wordPos], GapsFrom(text, next), Gaps(text));
    }
  }

  /** Moving the next gap from the pending list to the collected one. */
  lemma AppendGap(collected: seq<string>, gap: string, pending: seq<string>, all: seq<string>)
    requires collected + ([gap] + pending) == all
    ensures (collected + [gap]) + pending == all
  {
    assert collected + ([gap] + pending) == (collected + [gap]) + pending;
  }

  /** With no word left the one remaining gap is the rest of the text. */
  lemma LastGap(s: string, i: nat, collected: seq<string>)
    requires i <= |s| && |WordsFrom(s, i)| == 0
    requires collected + GapsFrom(s, i) == Gaps(s)
    ensures collected + [s[i..]] == Gaps(s)
    ensures i == |s| ==> collected + [""] == Gaps(s)
  {
    assert GapsFrom(s, i) == [s[i..]];
    if i == |s| {
      EmptyGap(collected, s[i..], [], Gaps(s));
    }
  }

  /** An empty gap is recorded as "". */
  lemma EmptyGap(collected: seq<string>, gap: string, pending: seq<string>, all: seq<string>)
    requires |gap| == 0 && (collected + [gap]) + pending == all
    ensures (collected + [""]) + pending == all
  {
    assert gap == "";
  }

  /** Taking the head off a non-empty sequence. */
  lemma ConsTail<T>(x: T, xs: seq<T>, ys: seq<T>)
    requires [x] + xs == ys
    ensures ys[0] == x && xs == ys[1..]
  {
    assert ([x] + xs)[1..] == xs;
  }

  /**
   * The vowelised form get_nikud takes for a record: `options[0]` when it is a string,
   * otherwise the record's word.
   */
  function NikudForm(w: WordOption): (r: string)
    ensures w.options == [] ==> r == w.word
    ensures |w.options| > 0 && w.options[0].JStr? ==> r == w.options[0].s
    ensures |w.options| > 0 && !w.options[0].JStr? ==> r == w.word
  {
    if |w.options| > 0 && w.options[0].JStr? then w.options[0].s else w.word
  }

  function NikudWord(t: Token): string {
    match t
    case Plain(s) => s
    case Record(w) => NikudForm(w)
  }

  function NikudWords(data: seq<Token>): (r: seq<string>)
    ensures |r| == |data| && forall i :: 0 <= i < |data| ==> r[i] == NikudWord(data[i])
  {
    seq(|data|, i requires 0 <= i < |data| => NikudWord(data[i]))
  }

  lemma NikudWordsSnoc(data: seq<Token>, i: nat)
    requires i < |data|
    ensures NikudWords(data[..i + 1]) == NikudWords(data[..i]) + [NikudWord(data[i])]
  {
    assert data[..i + 1] == data[..i] + [data[i]];
  }

  /**
   * The two paths read different shapes of `options`: analysis takes the head of a list,
   * vowelisation only a string, and each falls back to the word on the other's shape.
   */
  lemma VowelisedFormsDiffer(w: WordOption)
    requires |w.options| > 0
    ensures w.options[0].JStr? ==> NikudForm(w) == w.options[0].s && FirstCandidate(w) == w.word
    ensures w.options[0].JList? ==> NikudForm(w) == w.word
  {
  }

  /** Words `i..` of the reassembly, each after its gap when there is one. */
  function StitchFrom(spaces: seq<string>, words: seq<string>, nfc: string -> string, i: nat): string
    requires i <= |words|
    decreases |words| - i
  {
    if i == |words| then ""
    else (if i < |spaces| then spaces[i] else "") + nfc(words[i]) + StitchFrom(spaces, words, nfc, i + 1)
  }

  /**
   * The reassembled text: each normalised word after the gap of the same index, if there is
   * one, then the last gap when there are more gaps than words.
   */
  function WithSpacing(spaces: seq<string>, words: seq<string>, nfc: string -> string): string {
    StitchFrom(spaces, words, nfc, 0) + (if |spaces| > 0 && |spaces| > |words| then spaces[|spaces| - 1] else "")
  }

  /** Appending the next gap and word to the reassembled prefix leaves the rest to do. */
  lemma StitchStep(spaces: seq<string>, words: seq<string>, nfc: string -> string, i: nat, next: nat,
                   text: string, gap: string)
    requires i < |words| && next == i + 1 && gap == (if i < |spaces| then spaces[i] else "")
    requires text + StitchFrom(spaces, words, nfc, i) == StitchFrom(spaces, words, nfc, 0)
    ensures (text + gap + nfc(words[i])) + StitchFrom(spaces, words, nfc, next) == StitchFrom(spaces, words, nfc, 0)
  {
    var rest := StitchFrom(spaces, words, nfc, next);
    assert StitchFrom(spaces, words, nfc, i) == gap + nfc(words[i]) + rest;
    assert text + (gap + nfc(words[i]) + rest) == (text + gap + nfc(words[i])) + rest;
  }

  /** The loop of get_nikud that puts the words back between the original gaps. */
  method JoinWithSpacing(originalSpaces: seq<string>, vowelizedWords: seq<string>, nfc: string -> string)
    returns (vowelizedText: string)
    ensures vowelizedText == WithSpacing(originalSpaces, vowelizedWords, nfc)
  {
    vowelizedText := "";
    for i := 0 to |vowelizedWords|
      invariant vowelizedText + StitchFrom(originalSpaces, vowelizedWords, nfc, i)
                == StitchFrom(originalSpaces, vowelizedWords, nfc, 0)
    {
      ghost var gap := if i < |originalSpaces| then originalSpaces[i] else "";
      StitchStep(originalSpaces, vowelizedWords, nfc, i, i + 1, vowelizedText, gap);
      if i < |originalSpaces| {
        vowelizedText := vowelizedText + originalSpaces[i];
      } else {
        assert vowelizedText + gap == vowelizedText;
      }
      vowelizedText := vowelizedText + nfc(vowelizedWords[i]);
    }
    if |originalSpaces| > 0 && |originalSpaces| > |vowelizedWords| {
      vowelizedText := vowelizedText + originalSpaces[|originalSpaces| - 1];
    }
  }

  function NormalizeEach(words: seq<string>, nfc: string -> string): (r: seq<string>)
    ensures |r| == |words| && forall i :: 0 <= i < |words| ==> r[i] == nfc(words[i])
  {
    seq(|words|, i requires 0 <= i < |words| => nfc(words[i]))
  }

  /** With one gap more than there are words, reassembly is interleaving. */
  lemma SpacingInterleaves(spaces: seq<string>, words: seq<string>, nfc: string -> string)
    requires |spaces| == |words| + 1
    ensures WithSpacing(spaces, words, nfc) == Interleave(spaces, NormalizeEach(words, nfc))
  {
    StitchInterleaves(spaces, words, nfc, 0);
    assert spaces[0..] == spaces;
    assert NormalizeEach(words, nfc)[0..] == NormalizeEach(words, nfc);
  }

  lemma {:induction false} StitchInterleaves(spaces: seq<string>, words: seq<string>, nfc: string -> string, i: nat)
    requires |spaces| == |words| + 1 && i <= |words|
    ensures StitchFrom(spaces, words, nfc, i) + spaces[|words|]
            == Interleave(spaces[i..], NormalizeEach(words, nfc)[i..])
    decreases |words| - i
  {
    if i < |words| {
      StitchInterleaves(spaces, words, nfc, i + 1);
      assert spaces[i..][1..] == spaces[i + 1..];
      assert NormalizeEach(words, nfc)[i..][1..] == NormalizeEach(words, nfc)[i + 1..];
    } else {
      assert spaces[i..] == [spaces[|words|]];
    }
  }

  /** The text get_nikud builds from a reply, before the length validator. */
  function NikudText(text: string, data: seq<Token>, nfc: string -> string): string {
    nfc(WithSpacing(Gaps(text), NikudWords(data), nfc))
  }

  /**
   * When the reply has one element per word of the text, get_nikud keeps the text's own
   * whitespace: each normalised vowelised word sits where its original word stood.
   */
  lemma NikudKeepsSpacing(text: string, data: seq<Token>, nfc: string -> string)
    requires |data| == |SplitWs(text)|
    ensures NikudText(text, data, nfc) == nfc(Interleave(Gaps(text), NormalizeEach(NikudWords(data), nfc)))
  {
    SpacingInterleaves(Gaps(text), NikudWords(data), nfc);
  }

  /**
   * With normalisation the identity, a reply that gives every word back unchanged
   * reproduces the text exactly, whitespace included.
   */
  lemma NikudRoundTrip(text: string, data: seq<Token>, nfc: string -> string)
    requires forall s :: nfc(s) == s
    requires NikudWords(data) == SplitWs(text)
    ensures NikudText(text, data, nfc) == text
  {
    var words := SplitWs(text);
    NikudKeepsSpacing(text, data, nfc);
    assert NormalizeEach(words, nfc) == words;
    GapsRoundTrip(text);
  }

  /** get_nikud. */
  method GetNikud(text: string, maxLength: int, reply: ApiReply, nfc: string -> string)
    returns (r: NakdanResponse<()>)
    ensures r.Valid()
    ensures Validate(text, maxLength).Some? ==> r == ErrorResponse(Validate(text, maxLength).value)
    ensures Validate(text, maxLength).None? && reply.Raised? ==> r == ErrorResponse(ProcessingError(reply.detail))
    ensures Validate(text, maxLength).None? && reply.Reply? ==> r == Finish(NikudText(text, reply.data, nfc), [])
  {
    var invalid := Validate(text, maxLength);
    if invalid.Some? {
      return ErrorResponse(invalid.value);
    }
    if reply.Raised? {
      return ErrorResponse(ProcessingError(reply.detail));
    }
    var data := reply.data;
    var originalSpaces := OriginalSpaces(text);
    var vowelizedWords: seq<string> := [];
    for i := 0 to |data|
      invariant vowelizedWords == NikudWords(data[..i])
    {
      NikudWordsSnoc(data, i);
      match data[i]
      case Record(w) =>
        var options := w.options;
        if |options| > 0 && options[0].JStr? {
          vowelizedWords := vowelizedWords + [options[0].s];
        } else {
          vowelizedWords := vowelizedWords + [w.word];
        }
      case Plain(s) =>
        vowelizedWords := vowelizedWords + [s];
    }
    assert data[..|data|] == data;
    var vowelizedText := JoinWithSpacing(originalSpaces, vowelizedWords, nfc);
    var preservedText := nfc(vowelizedText);
    var built := New<()>(preservedText, wordAnalysis := []);
    r := if built.Success? then built.value else ErrorResponse(ProcessingError(built.error));
  }
}

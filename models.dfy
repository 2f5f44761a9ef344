/** The pydantic records of utils/models.py. */
module Models {
  import opened Wrappers
  import opened HebrewConstants

  /**
   * MorphologicalFeatures: only `word` is required, every other feature defaults to "".
   * `baseForm` is the source's `lemma` field (`lemma` is a Dafny keyword).
   */
  datatype MorphologicalFeatures = MorphologicalFeatures(
    word: string,
    baseForm: string := "",
    pos: string := "",
    gender: string := "",
    number: string := "",
    person: string := "",
    tense: string := "")

  /** NakdanAPIPayload with its defaults. */
  datatype NakdanAPIPayload = NakdanAPIPayload(
    task: string,
    data: string,
    genre: string := "modern",
    addmorph: bool := true,
    keepqq: bool := false,
    nodageshdefmem: bool := false,
    patachma: bool := false,
    keepmetagim: bool := true)

  /**
   * NakdanResponse. The per-word entries are dictionaries whose keys differ by operation,
   * so their type is a parameter. Values are built through New, which runs the validator.
   */
  datatype NakdanResponse<A> = NakdanResponse(
    text: string,
    error: Option<string>,
    lemmas: seq<string>,
    posTags: seq<string>,
    wordAnalysis: seq<A>)
  {
    /** The invariant the `text` validator enforces. */
    predicate Valid() {
      |text| <= MaxTextLength
    }
  }

  /**
   * Constructing a NakdanResponse: the defaults of the optional fields, and the validator
   * on `text`, which raises a ValueError carrying TextTooLongMessage.
   */
  function New<A>(
    text: string,
    error: Option<string> := None,
    lemmas: seq<string> := [],
    posTags: seq<string> := [],
    wordAnalysis: seq<A> := []): (r: Result<NakdanResponse<A>, string>)
    ensures r.Success? <==> |text| <= MaxTextLength
    ensures r.Success? ==> r.value.Valid()
    ensures r.Success? ==> r.value == NakdanResponse(text, error, lemmas, posTags, wordAnalysis)
    ensures r.Failure? ==> r.error == TextTooLongMessage
  {
    if |text| > MaxTextLength then Failure(TextTooLongMessage)
    else Success(NakdanResponse(text, error, lemmas, posTags, wordAnalysis))
  }

  /** Only `text` has to be given: error is None and the three lists are empty. */
  lemma NewDefaults<A>(text: string)
    requires |text| <= MaxTextLength
    ensures New<A>(text) == Success(NakdanResponse(text, None, [], [], []))
  {
  }

  /** The response every error path returns: empty text, so the validator always accepts it. */
  function ErrorResponse<A>(message: string): (r: NakdanResponse<A>)
    ensures r.Valid() && r.text == "" && r.error == Some(message)
    ensures r.lemmas == [] && r.posTags == [] && r.wordAnalysis == []
  {
    var built := New<A>("", Some(message));
    built.value
  }

  /** MorphologicalFeatures built from a word alone has every other feature empty. */
  lemma MorphologicalFeaturesDefaults(word: string)
    ensures MorphologicalFeatures(word) == MorphologicalFeatures(word, "", "", "", "", "", "")
  {
  }

  /** The payload defaults. */
  lemma PayloadDefaults(task: string, data: string)
    ensures NakdanAPIPayload(task, data) == NakdanAPIPayload(task, data, "modern", true, false, false, false, true)
  {
  }
}

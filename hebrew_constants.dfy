/** The fixed texts and limits of the bot (utils/hebrew_constants.py, utils/hebrew_labels.py). */
module HebrewConstants {

  /** MAX_TEXT_LENGTH. */
  const MaxTextLength: nat := 500

  /** ERROR_MESSAGES["empty_text"]. */
  const EmptyTextMessage := "Text cannot be " + "empty"
  /**
   * ERROR_MESSAGES["text_too_long"]; the NakdanResponse validator raises the same text,
   * both being the f-string over MAX_TEXT_LENGTH.
   */
  const TextTooLongMessage := "Text exceeds maximum length of " + "500" + " characters"
  /** ERROR_MESSAGES["non_hebrew"]. */
  const NonHebrewMessage := "Text " + "must contain Hebrew" + " characters"

  /** The "Processing error: ..." text every caught exception turns into. */
  function ProcessingError(detail: string): string {
    "Processing error: " + detail
  }

  // HebrewLabels, the Hebrew half of each line label in the analysis embed.
  const VowelizedLabel := "מנוקד"
  const BaseFormLabel := "צורת המקור"
  const PrefixLabel := "תחילית"
  const SuffixLabel := "סופית"
  const PartOfSpeechLabel := "חלק דיבור"
  const GenderLabel := "מין"
  const NumberLabel := "מספר"
  const PersonLabel := "גוף"
  const StatusLabel := "מצב"
  const TenseLabel := "זמן"
  const BinyanLabel := "בניין"
  const SuffixGenderLabel := "מין הסיומת"
  const SuffixPersonLabel := "גוף הסיומת"
  const SuffixNumberLabel := "מספר הסיומת"
}

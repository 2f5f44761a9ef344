# AlephBot response handling, modelled in Dafny

AlephBot is a Discord bot that sends Hebrew text to Dicta's Nakdan service. It shows the
result as vowelised text (niqqud), as base forms (lemmas), or as a morphological-analysis
embed. This project models the layer between the service's decoded JSON reply and what
the bot shows:

- the validation every entry point runs before it calls the service;
- the per-element loops of `analyze_text`, `get_lemmas` and `get_nikud`, including their
  field-by-field fallbacks for malformed elements, the BGU table parse and the lemma
  extraction;
- the whitespace-preserving reassembly of `get_nikud`;
- the splitting of a segmented word into prefix, stem and suffix, and the in-place update
  of a record from its BGU block;
- the command's own `analyze_text` and the fields of the analysis embed: which lines
  appear, in what order, which entries are skipped, and how fields are named;
- the routing of error strings to user messages;
- the `NakdanResponse` record, whose validator rejects texts over 500 characters.

The Python builtins the code leans on are written out with CPython's semantics in
`py_builtins.dfy`:

- `str.isspace`, `strip()`, `split(sep)` (empty parts kept) and `split()` (whitespace
  runs, empty parts dropped);
- `find(sub, start)`, `sep.join`, `replace`, `title()` and `str(n)`;
- the `in` substring test;
- `dict(zip(keys, values)).get(k, '')`. It truncates to the shorter list, and a later
  duplicate key wins.

The service reply is an input value, `ApiReply`: either the decoded element list or the
message of the exception the call raised. Each element is a `Token`: a plain string or a
`{word, options, BGU?, UD?}` record. JSON values are the `Json` datatype.
`Hebrew(s).normalize().string` is an opaque function parameter, `nfc`. The source's
`lemma` key is spelled `baseForm`, because `lemma` is a Dafny keyword.

Files and modules:

- `wrappers.dfy` (`Wrappers`): Option, Result, and `Somes`, the list of present values;
- `py_builtins.dfy` (`PyBuiltins`);
- `hebrew_constants.dfy` (`HebrewConstants`): limits, messages and labels;
- `models.dfy` (`Models`);
- `nakdan_types.dfy` (`NakdanTypes`): the reply's shapes and the readings of it that
  several paths share;
- `nakdan_api.dfy` (`NakdanApi`);
- `nlp.dfy` (`Nlp`);
- `analyze.dfy` (`AnalyzeCommand`);
- `discord_helpers.dfy` (`DiscordHelpers`).

The code's loops are Dafny methods with loop invariants. Each method is proved equal to a
specification function, and the lemmas are stated about those functions. The dictionary
that `process_bgu_field` updates in place is the class `Nlp.Analysis`. The Discord embed
that the command fills with `add_field` is the class `AnalyzeCommand.Embed`.

Where the documentation and the code disagree, the model follows the code:

- `analyze_text` in utils/nakdan_api.py compares the length with `MAX_TEXT_LENGTH`, not
  with its `max_length` argument. `get_lemmas` and `get_nikud` use `max_length`.
- Because of the retry decorator, a failing service call surfaces as tenacity's
  `RetryError`, not as an `httpx` error. So every failure of the call takes the
  "Processing error: " branch, and the "Connection error: " branch cannot be reached.
- With reply records of the declared shape (`word` a string, `options` a list), the
  `KeyError` branch of `get_nikud` cannot be reached either. The model takes records at
  that shape (see "Left out").
- A built text longer than 500 characters makes the `NakdanResponse` validator raise
  inside the `try`. The result is a "Processing error: " response, not a too-long
  response.
- `get_nikud` never fills `lemmas` or `pos_tags`.

## Model

| member | source | states |
|---|---|---|
| NakdanApi.IsHebrew | utils/nakdan_api.py:115-119 | true exactly when some character of the text lies in U+0590..U+05FF |
| NakdanApi.Validate | utils/nakdan_api.py:30-37 | the checks run in a fixed order (blank after strip, then longer than the limit, then no Hebrew character), each giving its own message; a text passes exactly when it fits the limit and holds a Hebrew character |
| NakdanApi.ValidateBlankExamples | utils/nakdan_api.py:204-205 | the empty text and a whitespace-only text are refused as empty |
| NakdanApi.ValidateScriptExamples | utils/nakdan_api.py:210-211 | a Latin word is refused with the non-Hebrew message; a Hebrew word passes |
| NakdanApi.ValidateLengthExamples | utils/nakdan_api.py:207-208 | 500 Hebrew letters pass the check; 501 are refused as too long |
| NakdanApi.Finish | utils/nakdan_api.py:101-104 | building the success record yields a valid record with no error exactly when the text fits 500 characters; otherwise the validator's error, caught, becomes the processing-error response |
| NakdanApi.EntryOf | utils/nakdan_api.py:58-91 | a plain string gets the empty entry and a record an entry with its word; with no usable BGU table every feature stays "" |
| NakdanApi.EntryAgreesWithNlp | utils/nakdan_api.py:69-85 | the inline BGU reading of analyze_text and the one in utils/nlp.py give the same word, base form, pos, gender, number, person and tense for every record |
| NakdanApi.AnalyzeRecord | utils/nakdan_api.py:46-89 | the loop body for a record yields the first vowelised candidate and the record's entry |
| NakdanApi.AnalyzeText | utils/nakdan_api.py:29-113 | a failed check returns its message with empty text, before any reply is used (the length is checked against MAX_TEXT_LENGTH); a raised call becomes a processing error; otherwise the text is the normalised ''-join of one fragment per element, with one entry per element in order; the result always satisfies the validator |
| NakdanApi.LemmaOf | utils/nakdan_api.py:225-235 | the lemma is item 1 of `options[0][1][0]` when that path exists and the item is there (one character for a string); every failed step, including caught exceptions, falls back to the word |
| NakdanApi.LemmasJoined | utils/nakdan_api.py:237-255 | when every fragment is a string and the ' '-join fits, the response text is that join, and the entries follow the elements |
| NakdanApi.NonStringLemmaFails | utils/nakdan_api.py:250-264 | a non-string lemma makes the whole call fail with CPython's join TypeError for the first such element, as a processing error |
| NakdanApi.GetLemmas | utils/nakdan_api.py:203-264 | the checks run against `max_length`; a raised call becomes a processing error; otherwise the result is the response for the lemma fragments and entries the loop collects |
| NakdanApi.GapsRoundTrip | utils/nakdan_api.py:290-308 | the whitespace runs around the words of `text.split()`, interleaved with those words, give back the text exactly |
| NakdanApi.GapsAreWhitespace | utils/nakdan_api.py:290-308 | every recorded run is whitespace, and the runs between two words are never empty |
| NakdanApi.OriginalSpaces | utils/nakdan_api.py:291-308 | the `find`-driven loop records exactly the whitespace runs around the words, one more than there are words |
| NakdanApi.VowelisedFormsDiffer | utils/nakdan_api.py:313-321 | analysis takes the head of a list in `options[0]`, vowelisation only a string `options[0]`, and each falls back to the word on the other's shape |
| NakdanApi.JoinWithSpacing | utils/nakdan_api.py:326-335 | the loop puts each normalised word after the run of the same index (when there is one), then adds the last run when there are more runs than words |
| NakdanApi.SpacingInterleaves | utils/nakdan_api.py:326-335 | with one run more than there are words, the reassembly is the interleaving of the runs and the normalised words |
| NakdanApi.NikudKeepsSpacing | utils/nakdan_api.py:290-339 | when the reply has one element per word of the text, each normalised vowelised word sits where its original word stood, between the original whitespace |
| NakdanApi.NikudRoundTrip | utils/nakdan_api.py:290-339 | with identity normalisation, a reply that gives every word back unchanged reproduces the text, whitespace included |
| NakdanApi.GetNikud | utils/nakdan_api.py:278-357 | the checks run against `max_length`; a raised call becomes a processing error; otherwise the text is the normalised reassembly of the vowelised words with the original spacing, run through the validator, with no entries |
| Nlp.ProcessWordParts | utils/nlp.py:48-79 | the record keeps the word, and every feature other than the segments is "" |
| Nlp.ProcessWordPartsSegments | utils/nlp.py:67-77 | with no bar separator the word is the stem; with one, prefix, bar and stem rebuild the word; with two or more, prefix, bar, stem, bar and suffix rebuild it; prefix and suffix never hold a bar |
| Nlp.BguApplied | utils/nlp.py:9-45 | with no usable table the record is unchanged; word, prefix, suffix and stem are never touched; with a usable table and a suffix the three suffix features are the table's Suf_Gender, Suf_Person and Suf_Number values ("" when missing), and without a suffix they are left alone |
| Nlp.BguUnusableLeavesRecord | utils/nlp.py:11-21 | a BGU block that is absent, null, not a string, or one line after stripping changes nothing |
| Nlp.FeatureFromTable | utils/nlp.py:27-36 | with a usable block each of the eight features is the table's value under its header, "" when the header is missing |
| Nlp.BguFeatureFromColumns | utils/nlp.py:20-36 | each feature is the value in the last header column of its name that has a value, and "" when there is none |
| Nlp.Analysis.constructor | utils/nlp.py:101 | the dictionary starts as the record it is given |
| Nlp.ProcessBguField | utils/nlp.py:9-45 | the dictionary is updated in place to the BGU-applied record |
| Nlp.ProcessWordData | utils/nlp.py:90-105 | returns the first vowelised candidate and the segmentation updated by the BGU block, keeping the word |
| Models.New | utils/models.py:15-27 | construction succeeds exactly when the text has at most 500 characters, keeping every field; otherwise it fails with the validator's message |
| Models.NewDefaults | utils/models.py:17-21 | from the text alone: error None and the three lists empty |
| Models.ErrorResponse | utils/models.py:23-27 | a response with empty text is always accepted and carries its error and empty lists |
| Models.MorphologicalFeaturesDefaults | utils/models.py:5-13 | every feature but `word` defaults to "" |
| Models.PayloadDefaults | utils/models.py:29-38 | genre "modern", addmorph true, keepqq, nodageshdefmem and patachma false, keepmetagim true |
| NakdanTypes.BguTable | utils/nlp.py:20-24 | a table exists exactly when BGU is a string with a newline after stripping; it is the zip of the tab-split first two lines |
| NakdanTypes.JoinJson | utils/nakdan_api.py:250 | ' '.join succeeds exactly when every item is a string, giving their join, and otherwise raises the TypeError for the first non-string item |
| DiscordHelpers.FormatErrorMessage | utils/discord_helpers.py:32-44 | every message starts with the cross mark and a space |
| DiscordHelpers.FormatErrorRouting | utils/discord_helpers.py:35-43 | each fixed reply is given exactly when its substring test is the first that matches, and any other error is quoted in full after the apology |
| DiscordHelpers.ValidationMessagesRouted | utils/discord_helpers.py:35-40 | the three validation messages get three different replies: too long, Hebrew wanted, text wanted |
| DiscordHelpers.OversizedReplyRoutedAsTooLong | utils/discord_helpers.py:35-36 | a processing error that quotes the validator's message is still answered with the too-long reply |
| AnalyzeCommand.AnalysisResponseCases | commands/analyze.py:26-45 | a text that fits gives a response without error, with the normalised text and one entry per element (None exactly for plain strings; a record keeps its word and segmentation); a text that does not fit goes to handle_api_error with the length message |
| AnalyzeCommand.AnalyzeText | commands/analyze.py:16-45 | a requirements error is returned as it is, before any reply is used; a raised call goes to handle_api_error; otherwise the result is the response for the elements |
| AnalyzeCommand.AddFeatureLines | commands/analyze.py:97-116 | a feature-table loop adds the line of each feature with a non-empty value, prettified, in table order |
| AnalyzeCommand.FieldValue | commands/analyze.py:74-116 | an entry's lines are exactly the lines for its shown keys, in display order |
| AnalyzeCommand.ShownKeysMembers | commands/analyze.py:77-116 | a key has a line exactly when its value is non-empty and, for the suffix and its features, the entry has a suffix |
| AnalyzeCommand.ShownKeysOrdered | commands/analyze.py:77-116 | lines come in the order prefix, vowelised, base form, pos, gender, number, person, status, tense, binyan, suffix, suffix features, each key at most once |
| AnalyzeCommand.PrettifiedValue | commands/analyze.py:97-115 | a prettified value keeps its length; each underscore becomes a space; a letter is upper case at the start of a word (first, or after an uncased character) and lower case inside one; every other uncased character (Hebrew included) stays in place |
| AnalyzeCommand.PrettifiedExample | commands/analyze.py:99 | the tag PROPER_NOUN is shown as "Proper Noun" |
| AnalyzeCommand.Embed.constructor | commands/analyze.py:63-67 | a new embed has no fields |
| AnalyzeCommand.Embed.AddField | commands/analyze.py:120-124 | appends one field with the given name and value |
| AnalyzeCommand.AddFields | commands/analyze.py:69-124 | the loop appends exactly the fields of the entries before the last, skipping empty entries and entries with no line |
| AnalyzeCommand.Respond | commands/analyze.py:58-125 | a non-empty error is formatted and sent instead of the embed; otherwise the embed carries the fields of the rendered entries |
| AnalyzeCommand.LastEntryNotRendered | commands/analyze.py:69 | the last entry never affects the fields |
| AnalyzeCommand.FieldsFromEntries | commands/analyze.py:69-124 | a field appears exactly when some rendered entry gives it |
| AnalyzeCommand.FieldNamesNumbered | commands/analyze.py:69-121 | entry i (counting from 0, skipped entries included) that has a line gives the field "Word #(i+1)" with its lines joined by newlines when there are more than two entries, an unnamed field otherwise; every field is such a "Word #i", or unnamed with two or fewer entries |
| AnalyzeCommand.FieldAt | commands/analyze.py:69-124 | entry i gives no field exactly when it is empty or has no line; otherwise its field joins its lines with newlines and is named "Word #(i+1)" with more than two entries, "" otherwise |
| AnalyzeCommand.FieldNamesDistinct | commands/analyze.py:69-121 | with more than two entries no two fields share a name |
| PyBuiltins.JoinSplitOn | utils/nlp.py:67-74 | joining the parts of `split(sep)` with the same separator gives back the text |
| PyBuiltins.SplitWsWords | utils/nakdan_api.py:291 | every word of `split()` is non-empty and free of whitespace |
| PyBuiltins.SplitWs | utils/nakdan_api.py:291 | `split()` gives no word exactly when the text is all whitespace |
| PyBuiltins.Strip | utils/nakdan_api.py:30 | `strip()` is the text with its leading and trailing whitespace runs removed: the runs are whitespace, and the result neither starts nor ends with whitespace; it is empty exactly when the text is all whitespace |
| PyBuiltins.SplitOn | utils/nlp.py:67 | `split(sep)` gives one part more than there are separators, and no part holds the separator |
| PyBuiltins.Find | utils/nakdan_api.py:297 | `find(sub, start)` is the first position at or after start where sub occurs, or -1 when there is none |
| PyBuiltins.ZipDict | utils/nlp.py:24 | the keys of `dict(zip(keys, values))` are the keys at the positions below the shorter length |
| PyBuiltins.Title | commands/analyze.py:99 | `title()` keeps the length; a letter is upper case when it opens the text or follows an uncased character, lower case when it follows a cased one |
| PyBuiltins.TitleFrom | commands/analyze.py:99 | the same, character by character, from a given previous-cased state |
| NakdanTypes.FirstCandidate | utils/nlp.py:95-98 | the vowelised form is `options[0][0]` when `options[0]` is a non-empty list with a string head; no options, a non-list first option, an empty one or a non-string head each fall back to the word (also utils/nakdan_api.py:50-55) |
| NakdanApi.NikudForm | utils/nakdan_api.py:314-321 | the vowelised form is `options[0]` when it is a string; no options, or a first option of any other shape, fall back to the word |
| PyBuiltins.ZipDictKeys | utils/nlp.py:24 | the keys of `dict(zip(keys, values))` are those paired up to the shorter list |
| PyBuiltins.ZipDictLatest | utils/nlp.py:24 | for a key that occurs more than once, the later pair wins |
| PyBuiltins.ZipGet | utils/nlp.py:24-35 | `.get(k, '')` on the zip is the value of the last pair with key k, or "" when there is none |
| PyBuiltins.TitleKeepsUncased | commands/analyze.py:99 | `title()` keeps every uncased character in place and never changes whether a character is cased |
| PyBuiltins.TitleIdempotent | commands/analyze.py:99 | title-casing twice is the same as title-casing once |
| PyBuiltins.NatToStringInjective | commands/analyze.py:121 | different numbers print differently, so the "Word #i" names are distinct |

## Left out

- `_call_nakdan_api`, the HTTP request, and tenacity's retry and back-off: network I/O and
  time-based waits. Each entry point receives the reply, or the raised message, as input.
- The "Connection error: " branch: the call cannot raise an `httpx` exception to it (see
  above).
- Record fields at other types than the declared ones: `word` is a string and `options` a
  list of JSON values. So the model does not capture a dictionary `options`, whose
  `options[0]` raises `KeyError` (in `get_nikud` that reaches "Invalid API response
  format: 0" and skips the word fallbacks). It does not capture a string `options` either,
  whose first character `get_nikud` would take as the vowelised form.
- JSON numbers are integers: a float is not modelled. A float lemma's join error would
  name `float` where NakdanTypes.TypeName gives `int`.
- `Hebrew(...).normalize()`: it relies on Unicode tables. It is the parameter `nfc`, and
  NikudRoundTrip assumes it is the identity.
- `process_ud_field`: it parses the UD block with spaCy and deplacy only to draw the
  parse on standard output. It has no effect on the result.
- Logging everywhere, including the unrecognised-error log line of `format_error_message`.
- The timeouts: they are floats that only reach the network client.
- `str(element)` for a reply element that is neither a string nor a dictionary: the
  reply's declared type has only strings and records.
- The framing `str()` adds around a pydantic `ValidationError`: only the validator's own
  message is kept inside the processing error.
- The embed's title, colour, description and footer, `create_hebrew_embed`, the deferral,
  and the asynchronous senders: Discord UI. The command looks up
  `EmbedTitles.MORPHOLOGICAL_ANALYSIS`, which utils/hebrew_constants.py does not define
  (it defines `MORPHOLOGY`). The model assumes the lookup succeeds and covers only the
  list of fields.
- `check_text_requirements`, `call_nakdan_api` and `handle_api_error`, which
  commands/analyze.py imports: utils/nakdan_api.py does not define them, so
  AnalyzeCommand.AnalyzeText takes all three as parameters.
- PyBuiltins.Title: `title()` is exact for ASCII letters only. Every other character
  counts as uncased and is left as it is, which holds for Hebrew letters; TitleFrom,
  TitleKeepsUncased and PrettifiedValue share that scope.
- The `500` inside the too-long messages is written as a literal, not computed from
  `MAX_TEXT_LENGTH`.
- `handle_command_error` and the other Discord plumbing in utils/discord_helpers.py:
  cooldown replies with float formatting.

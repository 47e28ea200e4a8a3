# Text-classification batch pipeline: verified model of its in-memory core

The pipeline in `app.py` reads a spreadsheet of product or ticket
descriptions, cleans each description with a spaCy pipeline, sends all
cleaned texts in one request to a hosted fastText ("BlazingText") classifier,
keeps the top label and probability of each answer, attaches them to the
input rows by position, and rewrites the labels into readable category names.
This project models the in-memory part of that chain in Dafny and proves what
each stage promises.

- `ascii.dfy` (module `Ascii`): the character classes and the two Python
  string methods the core relies on, `str.lower()` and `str.title()`, over
  ASCII. `Title` follows CPython's single pass (title-case a character when
  the previous one was not cased, lower-case it otherwise) and is proved equal
  to the word rule, idempotent, and word-by-word.
- `records.dfy` (module `Records`): an input row (`Description` plus its other
  cells) and a row of the cleaned frame (the row plus `processed_desc`).
- `text_cleaning.dfy` (module `TextCleaning`): `spacy_text_cleaning`. The spaCy
  pipeline is a parameter `nlp` that maps a lower-cased description to
  tokens carrying the attributes the filter reads (`text`, `is_space`,
  `like_num`, `is_stop`, `lemma_`). The nested loop with its five `continue`
  rules is a method proved to produce, per row and in row order, the
  single-space join of the surviving token texts. Lemmas characterise the
  survivors as an order-preserving selection of exactly the tokens that pass
  all five rules, show the cleaned text is empty exactly when no token
  survives, and show that the join loses nothing. When no surviving token
  text holds a space, splitting the cleaned text on spaces gives the survivors back.
- `payload.dfy` (module `Payload`): `create_payload`, the projection of the
  cleaned column into `{"instances": [...]}`, and its link back to the input
  rows.
- `label_cleaning.dfy` (module `LabelCleaning`): the three label rewrites of
  `clean_predicted_data`. The `__label__` removal is the left-to-right,
  non-overlapping scan of `re.sub`. It leaves a string unchanged exactly when
  the prefix does not occur in it. On its own it can leave a new
  `__label__` behind (for `__la__label__bel__`), but the underscore
  replacement that follows removes every underscore, so a canonical label
  never holds one. Canonicalisation is proved idempotent, and its fixed
  points are characterised.
- `label_examples.dfy` (module `LabelExamples`): two worked examples of
  canonicalisation, proved from the general lemmas.
- `predictions.dfy` (module `Predictions`): `process_labels` (the extraction
  loop and the positional attachment) and the frame `data_with_prediction` as
  a class whose `label` column `clean_predicted_data` reassigns in place.

The model follows the code at these points:
- The merge at `app.py:109` does not compare the number of predictions with
  the number of rows. The model states equal lengths as a precondition rather
  than an alignment error.
- The pronoun rule at `app.py:59` compares the lemma with the literal `-PRON-`.
- `str.title()` at `app.py:121` lower-cases every letter that is not at a word
  start. Any non-letter, not only a space, starts a new word.
- The predictions are attached to the original input frame (`app.py:101`,
  `app.py:109`). That frame has no `processed_desc` column.

## Model

| member | source | states |
|---|---|---|
| `Ascii.Lower` | app.py:44 | `str.lower()`: same length, no upper-case letter left, letters stay letters and keep their identity up to case, every other character unchanged |
| `Ascii.Title` | app.py:121 | `str.title()`: same length; each letter at a word start (first position or after a non-letter) is upper-cased and every other character lower-cased. `TitleKeepsShape`, `TitleIsTitled`, `TitleFixedIff` and `TitleIdempotent` characterise it |
| `Ascii.TitleAfter` | app.py:121 | CPython's single left-to-right title pass, carrying whether the previous character was cased; it keeps the length, and `TitleAfterAt` gives each output position |
| `Ascii.TitleAfterAt` | app.py:121 | after any prefix state, each output character of the title pass is lower-cased exactly when the character before it (or the carried state) is cased, and upper-cased otherwise |
| `Ascii.TitleAfterEach` | app.py:121 | the same statement for every position at once |
| `Ascii.TitleKeepsShape` | app.py:121 | title case keeps the length, keeps letters letters, leaves every non-letter where it was, and introduces no new non-letter |
| `Ascii.TitleIsTitled` | app.py:121 | the result of `str.title()` is titled: word-initial letters upper case, all other letters lower case |
| `Ascii.TitleFixedIff` | app.py:121 | `str.title()` leaves a string unchanged if and only if it is already titled |
| `Ascii.TitleIdempotent` | app.py:121 | applying `str.title()` twice equals applying it once |
| `Ascii.TitleAfterAppend` | app.py:121 | the title pass over a concatenation is the pass over the first part followed by the pass over the second, started from the first part's last character |
| `Ascii.TitleBySpace` | app.py:121 | title case of two parts joined by a space is the two title-cased parts joined by that space |
| `Ascii.TitleLowerWord` | app.py:121 | a non-empty all-lower-case word is title-cased by upper-casing its first letter only |
| `TextCleaning.KeptTexts` | app.py:48-61 | the texts the five `continue` rules (`Keep`) let through, in document order: never more than the tokens, none shorter than two characters. `KeptTextsSelect` and `KeptTextsSurvive` characterise it |
| `TextCleaning.KeptIndices` | app.py:50-61 | the positions of the kept tokens are in range, strictly increasing, each passes all five rules, and every token passing them is among them |
| `TextCleaning.KeptTextsSelect` | app.py:48-61 | the surviving texts are exactly the texts at the kept positions, in document order: no token reordered, duplicated or invented |
| `TextCleaning.KeptTextsSurvive` | app.py:50-61 | every surviving text is at least two characters long and is the text of a token that is not space, not number-like, not a stop word and whose lemma is not `-PRON-` |
| `TextCleaning.Join` | app.py:62 | `" ".join(words)`: for non-empty words the result is `""` if and only if there are no words. `SplitJoin` shows nothing is lost |
| `TextCleaning.CleanDoc` | app.py:48-62 | one description's cleaned text is `""` if and only if none of its tokens survives. `CleanDocSplits` relates it to the survivors |
| `TextCleaning.SplitJoin` | app.py:62 | splitting the `" "`-join of non-empty, space-free words on spaces returns the words |
| `TextCleaning.CleanDocSplits` | app.py:62 | when no surviving token text contains a space, the cleaned text splits back into exactly the surviving texts |
| `TextCleaning.SpacyTextCleaning` | app.py:44-68 | one output row per input row, in order: row `i` is input row `i` with the cleaned text of its lower-cased, tokenised description (the empty string included) |
| `Payload.CreatePayload` | app.py:76-77 | `instances` has one entry per row and entry `i` is row `i`'s `processed_desc` |
| `Payload.PayloadFollowsRecords` | app.py:76-77 | built from the cleaned frame, instance `i` is the cleaned text of input record `i`, one per record, and it is `""` exactly when no token of that description survives |
| `LabelCleaning.RemoveAll` | app.py:119 | `replace('__label__', '', regex=True)` as a left-to-right scan: it never lengthens a label and returns only characters of the label. `RemoveAllFixedIff` characterises when it changes nothing |
| `LabelCleaning.RemoveAllUnchanged` | app.py:119 | removing `__label__` from a string with no occurrence of it changes nothing |
| `LabelCleaning.RemoveAllShortens` | app.py:119 | when the pattern occurs anywhere, the removal makes the string strictly shorter |
| `LabelCleaning.RemoveAllFixedIff` | app.py:119 | the removal leaves a string unchanged if and only if the pattern occurs nowhere in it |
| `LabelCleaning.NoPrefixWithoutDoubleUnderscore` | app.py:119 | a string without two adjacent underscores holds no `__label__` |
| `LabelCleaning.ReplaceUnderscores` | app.py:120 | same length, no underscore left, each underscore becomes a space and every other character is kept |
| `LabelCleaning.Canonical` | app.py:119-121 | the three rewrites in order; a canonical label has no `_`, no `__label__`, and is titled. `CanonicalFixedIff` and `CanonicalIdempotent` characterise it |
| `LabelCleaning.CanonicalFixedIff` | app.py:119-121 | canonicalisation leaves a label unchanged if and only if it has no underscore and is titled |
| `LabelCleaning.CanonicalIdempotent` | app.py:119-121 | canonicalising twice equals canonicalising once |
| `LabelCleaning.CanonicalOfPrefixed` | app.py:119-121 | for `__label__<name>` with no further `__label__` in the name, the result is the title case of the name with underscores read as spaces |
| `LabelCleaning.CanonicalOfTwoWords` | app.py:119-121 | `__label__<a>_<b>` for two non-empty lower-case words becomes the two words with their first letters upper-cased, separated by a space |
| `LabelExamples.CanonicalOfficeSupplies` | app.py:119-121 | `__label__office_supplies` becomes `Office Supplies` |
| `LabelExamples.CanonicalAbc` | app.py:119-121 | `__label__a_b_c` becomes `A B C` |
| `Predictions.ExtractTopPredictions` | app.py:103-107 | both lists have the response's length; `labels[i]` is entry `i`'s first label and `probs[i]` its first probability |
| `Predictions.MapColumn` | app.py:119-121 | an element-wise column rewrite keeps the row count and rewrites row `i` from row `i` |
| `Predictions.PredictionTable.constructor` | app.py:109 | the frame holds the input rows with the label and probability columns beside them, row by row |
| `Predictions.PredictionTable.CleanPredictedData` | app.py:119-121 | every label becomes the canonical form of the old label and is then a fixed point of canonicalisation, so a second run changes nothing; rows, probabilities and row count unchanged |
| `Predictions.ProcessLabels` | app.py:103-110 | a fresh frame of the input rows where row `i` carries response entry `i`'s first label and first probability |

## Left out

- Object-storage download and upload (`app.py:9-22`, `app.py:132-140`): network I/O.
- Spreadsheet reading and writing with pandas (`app.py:24-29`, `app.py:123-128`): file I/O in a foreign library.
- The endpoint call and the JSON encoding and decoding of request and response (`app.py:80-94`, `app.py:166`): a remote service and foreign code. The model starts from the decoded response, a sequence of `Prediction` entries.
- Loading the spaCy pipeline and what it computes: the tokeniser, the lemmatiser, the stop-word list and the number classifier (`app.py:37`, `app.py:44`). These are foreign model internals, so `nlp` is a parameter and token attributes are inputs.
- Probabilities are floats and the model does no arithmetic on them, so they are an uninterpreted type parameter. The range 0 to 1 is not modelled.
- Logging with `print`, the unused `concurrent.futures` import, and the `__main__` orchestration that passes frames through global variables (`app.py:144-179`).
- `Ascii.Lower`: models `str.lower()` on ASCII only; non-ASCII letters are left as they are.
- `Ascii.Title`: models `str.title()` on ASCII only. Non-ASCII characters count as uncased and are left as they are, and title-case digraphs are not modelled.
- `TextCleaning.SpacyTextCleaning`: a description cell is a string. On a non-string cell, such as a missing value, `item.lower()` at `app.py:44` raises `AttributeError` before `str()` is reached; the model has no such cell, since a `Record` description is always a string.
- `TextCleaning.SpacyTextCleaning`: a frame without a `Description` column makes `app.py:44` raise `KeyError`; this cannot happen in the model, since every `Record` carries a description.
- `Predictions.ExtractTopPredictions`: an entry with an empty `label` or `prob` list makes the code raise; the model requires non-empty lists instead. A missing key cannot occur, because the entry type always has both fields.
- `Predictions.ProcessLabels`: when the response length differs from the row count, `pd.concat` pads with missing values. This is not modelled; equal lengths are a precondition.
- Row alignment in `pd.concat` assumes the default 0..n-1 index that `pd.read_excel` gives, so "the same index" and "the same position" coincide.
- `TextCleaning.Split` and its helpers `Fields` and `FirstSpace` are not in the source; they are the reading of the cleaned text that the join round trip is proved against.

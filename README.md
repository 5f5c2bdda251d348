# Skin-disease prediction form: verified decision rules

The page lets a user pick a photo of their skin, type a description of their
symptoms and send both to a prediction server. The server replies with a list
of `{class, confidence}` records. Around that exchange the page applies three
decision rules, and this project models each of them in Dafny and proves what
they guarantee:

- **Upload pre-check** (`Upload`): the picker's `beforeUpload` hook accepts a
  file exactly when it is a JPEG or PNG image smaller than two mebibytes. Each
  failed condition raises its own message.
- **Symptom-text guard** (`SymptomText`): with no description, submitting does
  nothing. Otherwise the description is trimmed and split on whitespace runs,
  and fewer than five pieces is an input error. `trim`, the `/\s+/` split and
  the whitespace class are modelled character by character.
- **Result selector** (`ResultSelector`): the reply is rejected when every
  confidence is below 0.5 (the empty reply included). Otherwise the page folds
  the reply with `reduce` and keeps the most confident record. The fold keeps
  the running best only when it is *strictly* more confident, so among equally
  confident records the **last** one wins.
- **Diagnosis state** (`SkinForm`): a class holding the component state
  `disease` and `isPredicting`, and the submit handler that changes them.
  The handler is split at the request into `StartSubmit` and `FinishSubmit`,
  and `OnSubmit` composes the two.

`Wrappers` holds the `Option` type used for "undefined"/`null` values.

Among equally confident records the code keeps the later one, because
`a.confidence > b.confidence` keeps the running best only on a strict win.
The model follows the code (`ReduceMaxIsLastMax`, `TieGoesToLater`).

## Model

| member | source | states |
|---|---|---|
| `Upload.BeforeUpload` | src/App.tsx:119-128 | accepted exactly when the type is `image/jpeg` or `image/png` and the size is below 2097152 bytes (the real-number test `size/1024/1024 < 2`); each failing condition adds its own message exactly once, the type message before the size message, and acceptance is exactly "no message" |
| `Upload.SizeBoundIsStrict` | src/App.tsx:124-128 | a PNG of exactly 2 MiB is refused with only the size message; one byte less is accepted |
| `Upload.TypeIsChecked` | src/App.tsx:120-123 | a small GIF is refused with only the type message |
| `SymptomText.WhitespaceClass` | src/App.tsx:140-143 | `IsSpace`, the whitespace class shared by `trim()` and `\s`: space, tab, line feed and carriage return are in it, no visible ASCII character is |
| `SymptomText.TrimStart` | src/App.tsx:140 | the result is a suffix of the input, everything dropped is whitespace, and the result does not start with whitespace |
| `SymptomText.TrimEnd` | src/App.tsx:140 | the result is a prefix of the input, everything dropped is whitespace, and the result does not end with whitespace |
| `SymptomText.Trim` | src/App.tsx:140 | `trim()` yields `""` exactly for whitespace-only input; otherwise the result starts and ends with a non-space |
| `SymptomText.TrimPadded` | src/App.tsx:140 | trimming removes exactly the whitespace padding around a text whose ends are non-space |
| `SymptomText.FirstSpace` | src/App.tsx:143 | the first whitespace position: no whitespace before it, whitespace at it (or end of text) |
| `SymptomText.Split` | src/App.tsx:143 | `split(/\s+/)` yields at least one piece, and no piece contains whitespace |
| `SymptomText.SplitWord` | src/App.tsx:143 | a single word splits to itself |
| `SymptomText.SplitAfterWord` | src/App.tsx:143 | a word followed by a whitespace run of any length is the first piece, and splitting continues after the run |
| `SymptomText.SplitInterleave` | src/App.tsx:143 | round trip: words joined by any non-empty whitespace runs split back to exactly those words |
| `SymptomText.WordCountCountsWords` | src/App.tsx:140-146 | a description made of `n` words, with any separating and padding whitespace, has word count `n` |
| `SymptomText.BlankTextCountsOne` | src/App.tsx:139-147 | a non-empty whitespace-only description trims to `""`, splits to `[""]`, counts 1 and is an input error |
| `SymptomText.WordCount` | src/App.tsx:140-146 | `words.length` is never 0, and is 1 for blank text |
| `SymptomText.CheckSymptoms` | src/App.tsx:139-153 | no submission exactly for undefined or empty text; an input error exactly for non-empty text with word count below 5, carrying that count (between 1 and 4); otherwise at least 5 words |
| `SymptomText.GuardCountsWords` | src/App.tsx:139-153 | the guard's verdict on an `n`-word description: input error with count `n` when `n < 5`, accepted otherwise |
| `ResultSelector.DescriptionTableKeys` | src/App.tsx:19-83 | the description table is keyed by exactly three class names: `Acne or Rosacea`, `Malignant Lesions`, `Psoriasis or Lichen Planus` |
| `ResultSelector.AllBelowThreshold` | src/App.tsx:172 | `every(v => v.confidence < 0.5)` holds exactly when every record is below 0.5, so it is true of the empty reply |
| `ResultSelector.Keep` | src/App.tsx:183-186 | the reducer's result is at least as confident as both arguments, and it is the first argument only on a strict win |
| `ResultSelector.FoldMax` | src/App.tsx:183-186 | the fold returns the running best or an entry still to visit, and it is at least as confident as all of them |
| `ResultSelector.ReduceMax` | src/App.tsx:183-186 | `reduce` without an initial value, defined only on a non-empty reply, returns a member of maximal confidence |
| `ResultSelector.Select` | src/App.tsx:172-188 | rejected exactly when every confidence is below 0.5 (so always on `[]`); the fold is reached only on a non-empty reply; the accepted record is in the reply, has confidence at least 0.5 and is at least as confident as every record |
| `ResultSelector.LastMaxExists` | src/App.tsx:183-186 | every non-empty reply has a last position of maximal confidence |
| `ResultSelector.LastMaxUnique` | src/App.tsx:183-186 | that position is unique |
| `ResultSelector.FoldMaxAtLastMax` | src/App.tsx:183-186 | the fold returns exactly the record at the last maximal position of `[acc] + rest` |
| `ResultSelector.ReduceMaxIsLastMax` | src/App.tsx:183-186 | tie-break: `reduce` returns the last of the equally most confident records |
| `ResultSelector.SelectAcceptsLastMax` | src/App.tsx:172-188 | a reply whose last most-confident record reaches 0.5 is accepted with exactly that record |
| `ResultSelector.TieGoesToLater` | src/App.tsx:184-185 | `[{A,0.7},{B,0.7}]` selects `B` |
| `ResultSelector.ConfidentReplyAccepted` | src/App.tsx:172-188 | the reply `[Acne 0.91, Malignant 0.04, Psoriasis 0.05]` selects `Acne or Rosacea` |
| `ResultSelector.UnsureRepliesRejected` | src/App.tsx:172-173 | `[0.2, 0.3, 0.1]` and `[]` are rejected |
| `ResultSelector.UndescribedLabelAccepted` | src/App.tsx:19-83 | a confident class outside the description table's three keys is still accepted, so the lookup at line 307 would fail |
| `SkinForm.DiagnosisState.constructor` | src/App.tsx:90-94 | the page starts with no diagnosis and no request outstanding |
| `SkinForm.DiagnosisState.StartSubmit` | src/App.tsx:139-156 | returns the guard's verdict; when the text passes, `disease` is cleared and `isPredicting` set; otherwise neither changes |
| `SkinForm.DiagnosisState.FinishSubmit` | src/App.tsx:172-189 | returns `Select` of the reply; `isPredicting` ends false; `disease` becomes the winner on acceptance and is left as it was on rejection |
| `SkinForm.DiagnosisState.OnSubmit` | src/App.tsx:138-190 | no text or too few words: the matching outcome and no state change; rejected reply: error outcome, `disease` null, `isPredicting` false; accepted reply: the winner is shown, stored in `disease`, and `isPredicting` is false |
| `SkinForm.SubmitOnFreshPage` | src/App.tsx:138-190 | on a freshly loaded page, a description that passes the guard ends in a diagnosis drawn from the reply with confidence at least 0.5, or in the error outcome exactly when the reply is rejected |

## Left out

- The request to the prediction server (src/App.tsx:158-170) is network I/O. The reply is a parameter of `FinishSubmit`/`OnSubmit`. The photo and the text it would carry are not modelled.
- `OnSubmit` does not model a failed request. A network error, a non-2xx status, or a reply body that is not an array makes the handler throw after `setIsPredicting(true)` (src/App.tsx:156-172). The page is then left in `StartSubmit`'s post-state (`disease == None && isPredicting`), and the button keeps spinning. The model's `OnSubmit` always receives a reply and always ends with `isPredicting` false once the text passes the guard.
- The `Swal.fire` and `message.error` pop-ups are modelled as returned outcomes (`SubmitOutcome`, `UploadError`), not as UI effects.
- Rendering, layout and media queries (src/App.tsx:96-98, 192-357) are presentation only. This includes the button's `disabled`/`loading` state.
- `handleChange` and `getBase64` (src/App.tsx:100-117) are left out. They depend on a file-reader helper that is not part of this model.
- The async ordering around `await` is left out, as is any interleaving of two submissions. The handler is modelled as its two synchronous halves.
- The contents of the description table (src/App.tsx:19-83) are static text. Only its key set is modelled.
- `Math.round(disease.confidence * 100)` (src/App.tsx:296) is floating-point display formatting.
- Confidences are modelled as exact `real` values. Only comparisons with each other and with 0.5 matter, so floating-point rounding plays no part. A reply record without a numeric `confidence` is not modelled.
- `SymptomText.IsSpace` lists ECMAScript's WhiteSpace and LineTerminator code points, with the space separators of current Unicode. A JavaScript engine built on a different Unicode version may differ.
- Strings are sequences of Unicode scalar values. JavaScript strings are UTF-16, and an unpaired surrogate has no counterpart here.
- The file size in bytes is a `nat`. JavaScript sizes are exact integers below 2^53, and dividing by 1024 is exact in floating point, so the real-number division models the source's test exactly.

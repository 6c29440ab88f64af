# MCQ checker: the `/` request handler

This project models `index()` in `flaskapp.py`, the one request handler of a
small multiple-choice quiz server. It also models the two decisions the page
template makes about each question.

The handler picks the current theme and loads that theme's questions. Then it
either:

- redirects, for a POST that carries a `delete_answer` field; or
- renders the page from a map of selected answers and a page-wide `graded`
  flag.

On every POST the map is rebuilt. First come the `saved_<id>` fields that the
browser replays from its local store. Then comes the one question the request
submits, whose value is stripped and upper-cased.

The template decides two things per question:

- whether the question is multiple-choice, which holds exactly when it has
  options;
- whether it shows a verdict, and which one.

## Modules

- `MultiDict` (`multidict.dfy`): the form as the framework hands it over. It is
  a sequence of `(name, value)` pairs in body order, and names may repeat.
  - `Get` is `form.get`: it returns the first value for a name.
  - `Items` is `form.items()`: each name once, in order of first appearance,
    with its first value.
- `AsciiText` (`text.dfy`): three string operations.
  - `Strip` is `str.strip()`.
  - `Upper` is `str.upper()`.
  - `RemoveAll` is `str.replace(pat, '')`. Like Python, it scans left to
    right, deletes every non-overlapping occurrence and does not rescan its
    output.
- `Quiz` (`quiz.dfy`): the question record, `IsMultipleChoice` (line 163) and
  the display rule `Show` (lines 175-180).
- `Index` (`index.dfy`): the handler.
  - `Respond` specifies the whole response as a function of the request.
  - `HandleIndex` is the handler as the source runs it. The saved-answer loop
    (`LoadSavedAnswers`) and the submission step (`ApplySubmission`) update a
    map in place, and each is proved against its specification function.
- `IndexProperties` (`properties.dfy`): what the handler promises for every
  request.
- `IndexScenarios` (`scenarios.dfy`): concrete requests against a one-theme
  catalog, and what `replace` does to unusual saved keys.

In three places the code behaves differently from what one might expect, and
the model follows the code:

- **A whitespace-only choice.** The emptiness test at line 356 runs before
  `strip()`. So a choice of `" "` still grades the page, and it stores `""`
  (`WhitespaceChoiceStoresEmpty`, `ScenarioBlankChoice`). One might expect
  such a choice to grade nothing and leave the map alone.
- **Page-wide grading.** `graded` is one flag for the whole page. Once it is
  true, every multiple-choice question with a non-empty selected answer shows
  a verdict, including answers that came only from replayed history
  (`GradedShowsEveryAnswered`, `ScenarioPageWideGrading`,
  `ScenarioPageWideShown`). One might expect only the submitted question to
  be graded.
- **`key.replace('saved_', '')`.** This deletes every occurrence of the
  prefix, not only the leading one. As a result, `saved_saved_Q1` and
  `saved_Q1` name the same question (`SavedKeysCollide`). When both are
  present, the one that comes later in the form wins
  (`CollidingKeysLaterWins`).

## Model

| member | source | states |
|---|---|---|
| AsciiText.Strip | flaskapp.py:357 | the result starts and ends with a non-whitespace character (or is empty), and `s` is leading whitespace, then the result, then trailing whitespace |
| AsciiText.StripEmptyIff | flaskapp.py:356-357 | stripping gives `""` exactly when the input is all whitespace |
| AsciiText.Upper | flaskapp.py:357 | same length; each character is mapped by ASCII upper-casing; the result has no lower-case letter |
| AsciiText.RemoveAll | flaskapp.py:349 | the result is never longer than the input |
| AsciiText.RemoveAllAbsent | flaskapp.py:349 | a string that does not contain the pattern is left unchanged |
| AsciiText.RemoveAllAfterPrefix | flaskapp.py:349 | a leading occurrence is deleted and the rest is processed on its own |
| AsciiText.RemoveAllKeepsHead | flaskapp.py:349 | a first character that does not start an occurrence is kept, and the scan goes on after it |
| AsciiText.RemoveAllPrefixedId | flaskapp.py:349 | `(pat + id).replace(pat, '')` is `id` when `pat` does not occur in `id` |
| MultiDict.Get | flaskapp.py:336 | `None` exactly when no field has the name; otherwise the value belongs to a field with that name |
| MultiDict.FirstIndex | flaskapp.py:347 | the index of the first field with the name, and the length of the form exactly when no field has it |
| MultiDict.FirstIndexAppend | flaskapp.py:347 | one more field keeps the first index of every earlier name, and a new name first appears at the end |
| MultiDict.GetFirst | flaskapp.py:353-355 | `get` returns the value of the first field with the name |
| MultiDict.Items | flaskapp.py:347 | names are distinct, the set of names is the form's, each value is the one `get` returns for its name, and the names come in order of first appearance in the form |
| MultiDict.ItemsCover | flaskapp.py:347 | every name of the form is reported with its `get` value |
| MultiDict.ItemsOfDistinct | flaskapp.py:347 | a form without repeated names is its own `items()` |
| Quiz.Show | flaskapp.py:163-180 | free-form exactly when there are no options; a verdict exactly when multiple-choice, graded and the selected answer is non-empty; the verdict shows that answer and is "Correct" exactly when it equals the correct letter |
| Quiz.ShowAll | flaskapp.py:156-180 | one display per question, each given by `Show` |
| Quiz.UngradedShowsNoVerdict | flaskapp.py:175 | an ungraded page shows no verdict |
| Quiz.GradedShowsEveryAnswered | flaskapp.py:175-180 | on a graded page every answered multiple-choice question shows a verdict |
| Quiz.ShowDependsOnOwnEntry | flaskapp.py:175-177 | a question's display depends only on its own entry in the map |
| Quiz.MissingCorrectIsAlwaysWrong | flaskapp.py:177-180 | a question with no stored correct letter is never "Correct" |
| Index.FormText | flaskapp.py:339 | non-empty exactly when the field is present and non-empty, and then it is the value `get` returns, that of the first field with the name |
| Index.CurrentTheme | flaskapp.py:323 | the query's `theme` when non-empty, else the form's `theme`; empty exactly when both are missing or empty |
| Index.CollectSaved | flaskapp.py:347-350 | the keys are exactly the ids of the saved fields |
| Index.CollectSavedLastWins | flaskapp.py:347-350 | an id keeps the value of the last saved field that names it |
| Index.Submission | flaskapp.py:353-356 | present exactly when `question_id` is non-empty and the field it names is non-empty; its parts are the values `get` returns for those two names |
| Index.LoadSavedAnswers | flaskapp.py:347-350 | the loop builds exactly `CollectSaved` of the items |
| Index.ApplySubmission | flaskapp.py:353-359 | graded exactly when there is a submission; then the submitted entry is overwritten with the normalised choice, and otherwise the map is unchanged |
| Index.HandleIndex | flaskapp.py:322-372 | the handler's outcome is `Respond` of the request |
| IndexProperties.DeleteRedirects | flaskapp.py:336-344 | a POST with a delete directive redirects to the form's theme, else the query's theme |
| IndexProperties.RedirectIff | flaskapp.py:334-344 | the handler redirects exactly for a POST with a delete directive |
| IndexProperties.NonPostRendersEmpty | flaskapp.py:330-334 | a non-POST renders an empty map, ungraded, for the current theme |
| IndexProperties.RenderedQuestions | flaskapp.py:323-328 | a rendered page lists the current theme's questions, and none when there is no theme |
| IndexProperties.GradedIff | flaskapp.py:353-359 | graded exactly when the request is a POST with no delete directive, a non-empty `question_id`, and a non-empty raw value for it |
| IndexProperties.SelectedKeys | flaskapp.py:347-358 | the map's keys are the saved fields' ids plus the submitted id, if there is one |
| IndexProperties.SavedIdsOfItems | flaskapp.py:347-349 | replaying `items()` visits exactly the form's saved ids |
| IndexProperties.SavedFieldValue | flaskapp.py:347-350 | a saved field with an unshared id, and not the one submitted, shows up with its value |
| IndexProperties.SavedFieldCollected | flaskapp.py:347-350 | the replay loop keeps that field's value under its id |
| IndexProperties.SubmissionPrecedence | flaskapp.py:353-358 | the submitted answer is stored stripped and upper-cased, overriding history, and the page is graded |
| IndexProperties.SubmissionAlone | flaskapp.py:353-359 | with no saved fields, the map holds only the submitted answer |
| IndexProperties.SubmissionOnlyTouchesItsQuestion | flaskapp.py:358 | every other entry is what the saved fields set |
| IndexProperties.HistoryOnlyIsUngraded | flaskapp.py:347-359 | without a submission (no `question_id`, or an empty field for it) the map is the replayed history, ungraded |
| IndexProperties.WhitespaceChoiceStoresEmpty | flaskapp.py:356-359 | a whitespace-only choice grades the page, stores `""`, and its question shows no verdict |
| IndexProperties.LowerCaseCorrectNeverMatches | flaskapp.py:357 | a correct letter containing a lower-case letter never matches a fresh submission |
| IndexScenarios.SavedKeyOfPlainId | flaskapp.py:349 | `saved_Q1` names `Q1` |
| IndexScenarios.SavedKeyQ2 | flaskapp.py:349 | `saved_Q2` names `Q2` |
| IndexScenarios.SavedKeysCollide | flaskapp.py:349 | `saved_saved_Q1` and `saved_Q1` both name `Q1` |
| IndexScenarios.SavedKeyNoRescan | flaskapp.py:349 | `saved_ssaved_aved_` names `saved_`: the output is not rescanned |
| IndexScenarios.NormaliseSpacedLetter | flaskapp.py:357 | `" b "` is stored as `"B"` |
| IndexScenarios.LetterNormalised | flaskapp.py:357 | `"a"` and `"A"` are both stored as `"A"` |
| IndexScenarios.ScenarioSubmit | flaskapp.py:353-359 | submitting `a` for Q1 renders the theme's questions with `{Q1: A}`, graded |
| IndexScenarios.ScenarioSubmitShown | flaskapp.py:175-180 | on that page Q1 is "Correct" and Q2 keeps its check button |
| IndexScenarios.HistoryFormSaved | flaskapp.py:347-350 | a form with one saved field replays to a one-entry map |
| IndexScenarios.ScenarioHistoryOnly | flaskapp.py:347-359 | replayed history alone renders `{Q1: B}`, ungraded |
| IndexScenarios.CollidingKeysLaterWins | flaskapp.py:347-350 | of `saved_Q1 = A` and then `saved_saved_Q1 = B`, the later one sets `Q1` to `B` |
| IndexScenarios.ScenarioHistoryOnlyShown | flaskapp.py:175 | on that page no question shows a verdict |
| IndexScenarios.ScenarioEmptyChoice | flaskapp.py:355-356 | an empty choice renders an empty map, ungraded |
| IndexScenarios.ScenarioBlankChoice | flaskapp.py:356-359 | a choice of one space, with no theme, renders no questions and `{Q1: ""}`, graded |
| IndexScenarios.ScenarioPageWideGrading | flaskapp.py:347-359 | submitting Q1 beside a saved Q2 grades the page with both answers in the map |
| IndexScenarios.ScenarioPageWideShown | flaskapp.py:175-180 | Q1 is "Correct", and Q2, never submitted, is "Wrong" |
| IndexScenarios.ScenarioDelete | flaskapp.py:336-343 | the delete button's form redirects to `/?theme=geo` |
| IndexScenarios.ScenarioDeleteWithoutTheme | flaskapp.py:339-343 | a delete with no theme anywhere redirects to `/?theme=` |

## Left out

- `get_available_themes` and `load_theme_questions` (flaskapp.py:12-29) read the theme directory and parse JSON files. The model takes the theme files as a parameter: a map from theme name to question list, read by `LoadQuestions`. An unknown or unreadable theme is modelled as an empty list, which is what the source returns for a missing file or a parse error.
- `available_themes`, `score` and `total` are passed to the template but modelled nowhere, because no decision depends on them.
- Template markup is not modelled: the theme navigation, the `checked` pre-selection of a radio button (line 169), the explanation block, the nested delete form and the "Show Answer" block of free-form questions. Only the multiple-choice test and the verdict rule are kept.
- The browser script (lines 220-315) is not modelled. It runs in the client and keeps answers in local storage. Its effect reaches the server only as the `saved_` fields of a request, and those fields are an input here.
- Flask plumbing is not modelled: the app object, the secret key, `make_response`, `redirect` and the `__main__` start-up. The redirect is modelled as its target URL.
- Python's `strip()` and `upper()` are Unicode-aware. The model approximates them with ASCII: whitespace is characters 9-13, 28-31 and the space, and upper-casing maps only `a`-`z`.
- Any HTTP method other than `POST` follows the GET path, as in the source. HEAD reaches the handler too, because the framework adds it to every route that lists GET, and it takes the GET path. OPTIONS is answered by the framework without calling the handler and is not modelled.
- Questions without an `id` are not modelled. Every question has an `id` string. A missing `correct` entry is `None`, which never equals an answer.
- AsciiText.RemoveAll: its own contract only bounds the length. What it computes is stated by `RemoveAllAbsent`, `RemoveAllAfterPrefix`, `RemoveAllKeepsHead` and `RemoveAllPrefixedId`.

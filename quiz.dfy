/**
 The questions of a theme and the two decisions the page template makes about
 each one: whether it is multiple-choice, and whether and how its answer is
 graded, given the page's map of selected answers and its `graded` flag.
 */
module Quiz {
  import opened MultiDict

  /** One question as loaded from the theme's JSON file. `options` is empty
      when the JSON has no `options` entry, or an empty one; `correct` is
      `None` when the JSON has no `correct` entry. */
  datatype Question = Question(
    id: string,
    text: string,
    options: map<string, string>,
    correct: Option<string>,
    explanation: string,
    answer: string)

  /** `{% if q.get('options') %}`: a question is multiple-choice exactly when
      it has at least one option. */
  predicate IsMultipleChoice(q: Question) {
    |q.options| > 0
  }

  /** What the page shows under a question. */
  datatype Shown =
    | FreeForm                            // the "Show Answer" block
    | CheckButton                         // a multiple-choice question not graded on this page
    | Verdict(correct: bool, chosen: string)  // "Correct (c)" or "Wrong (you chose x)"

  /** `selected.get(q.id)` taken as a Jinja condition: an entry exists and is
      not the empty string. */
  predicate HasAnswer(selected: map<string, string>, id: string) {
    id in selected && selected[id] != ""
  }

  /** The template's rule for one question. A multiple-choice question gets a
      verdict exactly when the page is graded and the question has a
      non-empty selected answer; the verdict is "Correct" exactly when that
      answer equals the question's correct letter. */
  function Show(q: Question, selected: map<string, string>, graded: bool): (v: Shown)
    ensures v.FreeForm? <==> !IsMultipleChoice(q)
    ensures v.Verdict? <==> IsMultipleChoice(q) && graded && HasAnswer(selected, q.id)
    ensures v.Verdict? ==> v.chosen == selected[q.id] && v.chosen != ""
    ensures v.Verdict? ==> (v.correct <==> q.correct == Some(v.chosen))
  {
    if !IsMultipleChoice(q) then FreeForm
    else if graded && HasAnswer(selected, q.id) then
      var user := selected[q.id];
      Verdict(q.correct == Some(user), user)
    else CheckButton
  }

  /** The page shown for a list of questions, one entry per question. */
  function ShowAll(questions: seq<Question>, selected: map<string, string>, graded: bool): (vs: seq<Shown>)
    ensures |vs| == |questions|
    ensures forall i :: 0 <= i < |questions| ==> vs[i] == Show(questions[i], selected, graded)
  {
    seq(|questions|, i requires 0 <= i < |questions| => Show(questions[i], selected, graded))
  }

  /** An ungraded page shows no verdict at all. */
  lemma UngradedShowsNoVerdict(questions: seq<Question>, selected: map<string, string>, i: nat)
    requires i < |questions|
    ensures !ShowAll(questions, selected, false)[i].Verdict?
  {
  }

  /** Grading is page-wide: on a graded page EVERY multiple-choice question
      with a non-empty selected answer shows a verdict, whichever question
      was the one just submitted. */
  lemma GradedShowsEveryAnswered(questions: seq<Question>, selected: map<string, string>, i: nat)
    requires i < |questions| && IsMultipleChoice(questions[i]) && HasAnswer(selected, questions[i].id)
    ensures ShowAll(questions, selected, true)[i]
            == Verdict(questions[i].correct == Some(selected[questions[i].id]), selected[questions[i].id])
  {
  }

  /** The verdict depends on the selected map only through the question's own
      entry. */
  lemma ShowDependsOnOwnEntry(q: Question, s1: map<string, string>, s2: map<string, string>, graded: bool)
    requires (q.id in s1) == (q.id in s2)
    requires q.id in s1 ==> s1[q.id] == s2[q.id]
    ensures Show(q, s1, graded) == Show(q, s2, graded)
  {
  }

  /** A question whose stored correct letter is missing can only ever be
      graded "Wrong". */
  lemma MissingCorrectIsAlwaysWrong(q: Question, selected: map<string, string>, graded: bool)
    requires q.correct.None?
    ensures Show(q, selected, graded).Verdict? ==> !Show(q, selected, graded).correct
  {
  }
}

/**
 The request handler behind `/`: it chooses the current theme, loads that
 theme's questions, and then either redirects (a POST carrying a delete
 directive) or renders the page from a map of selected answers and a
 page-wide `graded` flag. The selected map is rebuilt on every POST from the
 `saved_<id>` fields the browser replays and from the one question the
 request submits.
 */
module Index {
  import opened MultiDict
  import opened AsciiText
  import opened Quiz

  /** The prefix the browser puts before a question id when it replays a
      previously chosen answer. */
  const SavedPrefix := "saved_"

  /** An incoming request: its HTTP method (`verb`), its query arguments and its form
      body (in body order, names may repeat). */
  datatype Request = Request(verb: string, args: map<string, string>, form: seq<Field>)

  /** What the handler answers: a redirect, or the page rendered for the
      current theme, its questions, the selected answers and the flag. */
  datatype Outcome =
    | Redirect(location: string)
    | Render(currentTheme: string, questions: seq<Question>, selected: map<string, string>, graded: bool)

  /** `request.args.get(k, "")`. */
  function Arg(args: map<string, string>, k: string): string {
    if k in args then args[k] else ""
  }

  /** A form lookup read as a Python condition: `form.get(k)` is truthy, that
      is the field exists and is not empty. */
  predicate Truthy(o: Option<string>) {
    o.Some? && o.value != ""
  }

  /** `request.form.get(k)` when it is truthy, otherwise `""`: what the
      source's `form.get(k) or ...` and `form.get(k, "")` contribute. */
  function FormText(form: seq<Field>, k: string): (v: string)
    ensures v != "" <==> Truthy(Get(form, k))
    ensures v != "" ==> Get(form, k) == Some(v)
  {
    if Truthy(Get(form, k)) then Get(form, k).value else ""
  }

  /** `current_theme`: the query argument `theme` when it is non-empty,
      otherwise the form field `theme`, otherwise the empty string. */
  function CurrentTheme(req: Request): (t: string)
    ensures Arg(req.args, "theme") != "" ==> t == req.args["theme"]
    ensures Arg(req.args, "theme") == "" ==> t == FormText(req.form, "theme")
    ensures t == "" <==> Arg(req.args, "theme") == "" && !Truthy(Get(req.form, "theme"))
  {
    var fromArgs := Arg(req.args, "theme");
    if fromArgs != "" then fromArgs else FormText(req.form, "theme")
  }

  /** The form carries a non-empty `delete_answer` field. */
  predicate DeleteRequested(req: Request) {
    Truthy(Get(req.form, "delete_answer"))
  }

  /** The theme a delete redirect goes back to: the form's `theme`, else the
      query's `theme`, else `current_theme`. */
  function RedirectTheme(req: Request): string {
    var theme := if Truthy(Get(req.form, "theme")) then Get(req.form, "theme").value
                 else Arg(req.args, "theme");
    if theme == "" then CurrentTheme(req) else theme
  }

  /** `load_theme_questions(theme)`, with the theme files given as a map from
      theme name to its parsed question list; an unknown theme yields no
      questions. */
  function LoadQuestions(catalog: map<string, seq<Question>>, theme: string): seq<Question> {
    if theme in catalog then catalog[theme] else []
  }

  /** A form name that replays a saved answer. */
  predicate IsSavedKey(key: string) {
    StartsWith(key, SavedPrefix)
  }

  /** `key.replace('saved_', '')`: every occurrence of the prefix is deleted,
      not only the leading one. */
  function SavedId(key: string): string {
    RemoveAll(key, SavedPrefix)
  }

  /** The question ids that the saved fields among `items` name. */
  function SavedIds(items: seq<Field>): set<string> {
    set j | 0 <= j < |items| && IsSavedKey(items[j].0) :: SavedId(items[j].0)
  }

  /** The saved ids of a sequence with one more field. */
  lemma SavedIdsAppend(items: seq<Field>, x: Field)
    ensures SavedIds(items + [x]) == SavedIds(items) + (if IsSavedKey(x.0) then {SavedId(x.0)} else {})
  {
    var q := items + [x];
    forall y | y in SavedIds(q)
      ensures y in SavedIds(items) + (if IsSavedKey(x.0) then {SavedId(x.0)} else {})
    {
      var j :| 0 <= j < |q| && IsSavedKey(q[j].0) && SavedId(q[j].0) == y;
      if j < |items| { assert items[j] == q[j]; }
    }
    forall y | y in SavedIds(items) ensures y in SavedIds(q) {
      var j :| 0 <= j < |items| && IsSavedKey(items[j].0) && SavedId(items[j].0) == y;
      assert q[j] == items[j];
    }
    if IsSavedKey(x.0) { assert q[|items|] == x; }
  }

  /** The map the loop over `request.form.items()` builds: each saved field
      `k = v`, in order, sets `SavedId(k)` to `v`; every other field is
      skipped. Its keys are exactly the saved ids of the fields. */
  function CollectSaved(items: seq<Field>): (m: map<string, string>)
    ensures m.Keys == SavedIds(items)
    decreases |items|
  {
    if items == [] then map[]
    else
      var p := items[..|items| - 1];
      var x := items[|items| - 1];
      assert items == p + [x];
      SavedIdsAppend(p, x);
      var m := CollectSaved(p);
      if IsSavedKey(x.0) then m[SavedId(x.0) := x.1] else m
  }

  /** Last write wins: the value `CollectSaved` keeps for an id is the value
      of the last saved field that names that id. */
  lemma {:induction false} CollectSavedLastWins(items: seq<Field>, j: nat)
    requires j < |items| && IsSavedKey(items[j].0)
    requires forall k :: j < k < |items| && IsSavedKey(items[k].0) ==> SavedId(items[k].0) != SavedId(items[j].0)
    ensures SavedId(items[j].0) in CollectSaved(items)
    ensures CollectSaved(items)[SavedId(items[j].0)] == items[j].1
    decreases |items|
  {
    var p := items[..|items| - 1];
    if j < |items| - 1 {
      assert p[j] == items[j];
      forall k | j < k < |p| && IsSavedKey(p[k].0) ensures SavedId(p[k].0) != SavedId(p[j].0) {
        assert p[k] == items[k];
      }
      CollectSavedLastWins(p, j);
    }
  }

  /** The question the request submits: the non-empty `question_id` field
      together with the raw, non-empty value of the form field it names. */
  function Submission(form: seq<Field>): (s: Option<(string, string)>)
    ensures s.Some? <==> FormText(form, "question_id") != ""
                         && FormText(form, FormText(form, "question_id")) != ""
    ensures s.Some? ==> Get(form, "question_id") == Some(s.value.0) && Get(form, s.value.0) == Some(s.value.1)
  {
    var qid := FormText(form, "question_id");
    if qid == "" then None
    else
      var choice := FormText(form, qid);
      if choice == "" then None else Some((qid, choice))
  }

  /** The whole response of the handler, as a function of the request and the
      theme files. */
  function Respond(req: Request, catalog: map<string, seq<Question>>): Outcome {
    var current := CurrentTheme(req);
    if req.verb == "POST" && DeleteRequested(req) then
      Redirect("/?theme=" + RedirectTheme(req))
    else
      var questions := if current != "" then LoadQuestions(catalog, current) else [];
      if req.verb != "POST" then
        Render(current, questions, map[], false)
      else
        var saved := CollectSaved(Items(req.form));
        match Submission(req.form)
        case None => Render(current, questions, saved, false)
        case Some((qid, raw)) => Render(current, questions, saved[qid := Upper(Strip(raw))], true)
  }

  /** The loop of `index()` over `request.form.items()`: it fills a map in
      place, one saved field at a time, and ends with the map `CollectSaved`
      describes. */
  method LoadSavedAnswers(items: seq<Field>) returns (selected: map<string, string>)
    ensures selected == CollectSaved(items)
  {
    selected := map[];
    var i := 0;
    while i < |items|
      invariant 0 <= i <= |items|
      invariant selected == CollectSaved(items[..i])
    {
      var (key, value) := items[i];
      assert items[..i + 1] == items[..i] + [(key, value)];
      if StartsWith(key, SavedPrefix) {
        var qId := RemoveAll(key, SavedPrefix);
        selected := selected[qId := value];
      }
      i := i + 1;
    }
    assert items[..i] == items;
  }

  /** The submission step of `index()`: when `question_id` names a field
      with a non-empty value, that value, stripped and upper-cased,
      overwrites the question's entry and the page becomes graded; otherwise
      nothing changes. */
  method ApplySubmission(form: seq<Field>, saved: map<string, string>)
    returns (selected: map<string, string>, graded: bool)
    ensures graded <==> Submission(form).Some?
    ensures graded ==> selected == saved[Submission(form).value.0 := Upper(Strip(Submission(form).value.1))]
    ensures !graded ==> selected == saved
  {
    selected, graded := saved, false;
    var questionId := Get(form, "question_id");
    if questionId.Some? && questionId.value != "" {
      var userChoice := Get(form, questionId.value);
      if userChoice.Some? && userChoice.value != "" {
        var normalized := Upper(Strip(userChoice.value));
        selected := selected[questionId.value := normalized];
        graded := true;
      }
    }
  }

  /** `index()`: the handler as the source runs it, building the selected map
      in place with a loop over the form's items and then overwriting the
      submitted question's entry. */
  method HandleIndex(req: Request, catalog: map<string, seq<Question>>) returns (out: Outcome)
    ensures out == Respond(req, catalog)
  {
    var currentTheme := CurrentTheme(req);
    var questions: seq<Question> := [];
    if currentTheme != "" {
      questions := LoadQuestions(catalog, currentTheme);
    }

    var selected: map<string, string> := map[];
    var graded := false;

    if req.verb == "POST" {
      var deleteAnswer := Get(req.form, "delete_answer");
      if deleteAnswer.Some? && deleteAnswer.value != "" {
        var formTheme := Get(req.form, "theme");
        var theme := if formTheme.Some? && formTheme.value != "" then formTheme.value
                     else Arg(req.args, "theme");
        if theme == "" {
          theme := currentTheme;
        }
        assert theme == RedirectTheme(req);
        out := Redirect("/?theme=" + theme);
        return;
      }

      selected := LoadSavedAnswers(Items(req.form));

      selected, graded := ApplySubmission(req.form, selected);
    }
    out := Render(currentTheme, questions, selected, graded);
  }
}

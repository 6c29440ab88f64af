/**
 What the handler promises, stated over `Respond` for every request: delete
 precedence, the GET path, where the current theme and the redirect target
 come from, which form fields end up in the selected map, how the submitted
 answer is normalised and overrides history, exactly when the page is graded,
 and how the template then shows each question.
 */
module IndexProperties {
  import opened MultiDict
  import opened AsciiText
  import opened Quiz
  import opened Index

  /** The request is a POST without a delete directive: the path that
      rebuilds the selected map. */
  predicate Rebuilds(req: Request) {
    req.verb == "POST" && !DeleteRequested(req)
  }

  /** The request's form submits question `qid` with the raw value `raw`. */
  predicate Submits(req: Request, qid: string, raw: string) {
    Get(req.form, "question_id") == Some(qid) && qid != ""
    && Get(req.form, qid) == Some(raw) && raw != ""
  }

  /** A POST with a delete directive redirects and builds no page. The target
      is the form's `theme`, else the query's `theme`; the fallback to
      `current_theme` never changes it, because `current_theme` is empty
      whenever both of those are. */
  lemma DeleteRedirects(req: Request, catalog: map<string, seq<Question>>)
    requires req.verb == "POST" && DeleteRequested(req)
    ensures Respond(req, catalog)
            == Redirect("/?theme=" + (if FormText(req.form, "theme") != "" then FormText(req.form, "theme")
                                      else Arg(req.args, "theme")))
  {
  }

  /** The handler redirects exactly for a POST carrying a delete directive. */
  lemma RedirectIff(req: Request, catalog: map<string, seq<Question>>)
    ensures Respond(req, catalog).Redirect? <==> req.verb == "POST" && DeleteRequested(req)
  {
  }

  /** Any request that is not a POST (a GET) renders an empty selected map,
      ungraded, whatever its form holds. */
  lemma NonPostRendersEmpty(req: Request, catalog: map<string, seq<Question>>)
    requires req.verb != "POST"
    ensures Respond(req, catalog).Render?
    ensures Respond(req, catalog).selected == map[] && !Respond(req, catalog).graded
    ensures Respond(req, catalog).currentTheme == CurrentTheme(req)
  {
  }

  /** A rendered page lists the current theme's questions, and none when no
      theme is selected; an unknown theme therefore renders no questions
      either, but keeps its name as the current theme. */
  lemma RenderedQuestions(req: Request, catalog: map<string, seq<Question>>)
    requires Respond(req, catalog).Render?
    ensures var out := Respond(req, catalog);
            out.currentTheme == CurrentTheme(req)
            && out.questions == (if CurrentTheme(req) != "" && CurrentTheme(req) in catalog
                                 then catalog[CurrentTheme(req)] else [])
  {
  }

  /** The page is graded exactly when: the request is a POST, it has no
      delete directive, `question_id` is non-empty, and the raw field it
      names is non-empty BEFORE stripping. */
  lemma {:induction false} GradedIff(req: Request, catalog: map<string, seq<Question>>)
    ensures var out := Respond(req, catalog);
            (out.Render? && out.graded)
            <==> (req.verb == "POST" && !DeleteRequested(req)
                  && Truthy(Get(req.form, "question_id"))
                  && Truthy(Get(req.form, Get(req.form, "question_id").value)))
  {
    if req.verb == "POST" && !DeleteRequested(req) {
      if Truthy(Get(req.form, "question_id")) {
        var qid := Get(req.form, "question_id").value;
        assert FormText(req.form, "question_id") == qid;
        assert Truthy(Get(req.form, qid)) <==> FormText(req.form, qid) != "";
      }
    }
  }

  /** The question ids named by the form's saved fields. */
  function SavedFieldIds(form: seq<Field>): set<string> {
    set k | k in Keys(form) && IsSavedKey(k) :: SavedId(k)
  }

  /** Every saved field of the form yields an entry under its saved id, and
      nothing else adds an entry except the submitted question. */
  lemma {:induction false} SelectedKeys(req: Request, catalog: map<string, seq<Question>>)
    requires Rebuilds(req)
    ensures var out := Respond(req, catalog);
            out.Render?
            && out.selected.Keys == SavedFieldIds(req.form)
                                    + (if out.graded then {Submission(req.form).value.0} else {})
  {
    SavedIdsOfItems(req.form);
  }

  /** Replaying `items()` visits the same saved ids as the form itself. */
  lemma SavedIdsOfItems(form: seq<Field>)
    ensures SavedIds(Items(form)) == SavedFieldIds(form)
  {
    var items := Items(form);
    assert Keys(items) == Keys(form);
    forall id | id in SavedIds(items) ensures id in SavedFieldIds(form) {
      var j :| 0 <= j < |items| && IsSavedKey(items[j].0) && SavedId(items[j].0) == id;
      assert items[j].0 in Keys(items);
    }
    forall id | id in SavedFieldIds(form) ensures id in SavedIds(items) {
      var k :| k in Keys(form) && IsSavedKey(k) && SavedId(k) == id;
      var j :| 0 <= j < |items| && items[j].0 == k;
    }
  }

  /** A saved field `k = v` whose id no other saved field shares, and which
      is not the question submitted this request, shows up as `v`. */
  lemma {:induction false} SavedFieldValue(req: Request, catalog: map<string, seq<Question>>, k: string)
    requires Rebuilds(req)
    requires k in Keys(req.form) && IsSavedKey(k)
    requires forall k' :: k' in Keys(req.form) && IsSavedKey(k') && k' != k ==> SavedId(k') != SavedId(k)
    requires Submission(req.form).None? || Submission(req.form).value.0 != SavedId(k)
    ensures Respond(req, catalog).Render?
    ensures SavedId(k) in Respond(req, catalog).selected
    ensures Respond(req, catalog).selected[SavedId(k)] == Get(req.form, k).value
  {
    SavedFieldCollected(req.form, k);
    SubmissionOnlyTouchesItsQuestion(req, catalog, SavedId(k));
  }

  /** The replay loop keeps, for a saved field whose id no other saved field
      shares, that field's value. */
  lemma {:induction false} SavedFieldCollected(form: seq<Field>, k: string)
    requires k in Keys(form) && IsSavedKey(k)
    requires forall k' :: k' in Keys(form) && IsSavedKey(k') && k' != k ==> SavedId(k') != SavedId(k)
    ensures SavedId(k) in CollectSaved(Items(form))
    ensures CollectSaved(Items(form))[SavedId(k)] == Get(form, k).value
  {
    var items := Items(form);
    ItemsCover(form, k);
    var j :| 0 <= j < |items| && items[j] == (k, Get(form, k).value);
    forall i | j < i < |items| && IsSavedKey(items[i].0)
      ensures SavedId(items[i].0) != SavedId(items[j].0)
    {
      assert items[i].0 in Keys(items);
      assert items[i].0 != k;
    }
    CollectSavedLastWins(items, j);
  }

  /** The submitted answer is stored stripped and upper-cased, whatever a
      saved field said about the same question, and the page is graded. */
  lemma SubmissionPrecedence(req: Request, catalog: map<string, seq<Question>>, qid: string, raw: string)
    requires Rebuilds(req) && Submits(req, qid, raw)
    ensures Respond(req, catalog).Render? && Respond(req, catalog).graded
    ensures qid in Respond(req, catalog).selected
    ensures Respond(req, catalog).selected[qid] == Upper(Strip(raw))
  {
    assert Submission(req.form) == Some((qid, raw));
  }

  /** The submission step leaves every other entry as the saved fields set
      it. */
  lemma SubmissionOnlyTouchesItsQuestion(req: Request, catalog: map<string, seq<Question>>, id: string)
    requires Rebuilds(req)
    requires Submission(req.form).None? || Submission(req.form).value.0 != id
    ensures var out := Respond(req, catalog);
            var saved := CollectSaved(Items(req.form));
            out.Render? && (id in out.selected <==> id in saved)
            && (id in saved ==> out.selected[id] == saved[id])
  {
  }

  /** A submission with no saved field beside it renders a map holding only
      the submitted answer. */
  lemma {:induction false} SubmissionAlone(req: Request, catalog: map<string, seq<Question>>, qid: string, raw: string)
    requires Rebuilds(req) && Submits(req, qid, raw) && SavedFieldIds(req.form) == {}
    ensures Respond(req, catalog).Render? && Respond(req, catalog).graded
    ensures Respond(req, catalog).selected == map[qid := Upper(Strip(raw))]
  {
    SubmissionPrecedence(req, catalog, qid, raw);
    SelectedKeys(req, catalog);
    var m := Respond(req, catalog).selected;
    assert m.Keys == {qid};
    OneEntry(m, qid, Upper(Strip(raw)));
  }

  /** A map with the one key `k` is `map[k := v]`. */
  lemma OneEntry(m: map<string, string>, k: string, v: string)
    requires m.Keys == {k} && m[k] == v
    ensures m == map[k := v]
  {
  }

  /** Without a submission the page shows the replayed history as it is and
      is not graded. */
  lemma HistoryOnlyIsUngraded(req: Request, catalog: map<string, seq<Question>>)
    requires Rebuilds(req) && Submission(req.form).None?
    ensures Respond(req, catalog).Render?
    ensures Respond(req, catalog).selected == CollectSaved(Items(req.form))
    ensures !Respond(req, catalog).graded
  {
  }

  /** A choice made only of whitespace still grades the page, but is stored
      as the empty string, so its own question shows no verdict. */
  lemma {:induction false} WhitespaceChoiceStoresEmpty(req: Request, catalog: map<string, seq<Question>>,
                                                     qid: string, raw: string, q: Question)
    requires Rebuilds(req) && Submits(req, qid, raw) && AllSpace(raw)
    requires q.id == qid
    ensures Respond(req, catalog).Render? && Respond(req, catalog).graded
    ensures Respond(req, catalog).selected[qid] == ""
    ensures !Show(q, Respond(req, catalog).selected, Respond(req, catalog).graded).Verdict?
  {
    SubmissionPrecedence(req, catalog, qid, raw);
    StripEmptyIff(raw);
  }

  /** A submitted answer is upper-case, so a question whose stored correct
      letter contains a lower-case letter is never graded "Correct" for
      the answer just submitted. */
  lemma {:induction false} LowerCaseCorrectNeverMatches(req: Request, catalog: map<string, seq<Question>>,
                                                      qid: string, raw: string, q: Question)
    requires Rebuilds(req) && Submits(req, qid, raw)
    requires q.id == qid && q.correct.Some? && !NoLower(q.correct.value)
    ensures var out := Respond(req, catalog);
            out.Render? && !(Show(q, out.selected, out.graded).Verdict? && Show(q, out.selected, out.graded).correct)
  {
    SubmissionPrecedence(req, catalog, qid, raw);
    var stored := Upper(Strip(raw));
    assert NoLower(stored);
    assert q.correct.value != stored;
  }
}

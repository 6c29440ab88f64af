/**
 Concrete requests against a one-theme catalog, and what `key.replace` does
 to unusual saved keys.
 */
module IndexScenarios {
  import opened MultiDict
  import opened AsciiText
  import opened Quiz
  import opened Index
  import opened IndexProperties

  const GeoQ1 := Question("Q1", "Capital of France?", map["A" := "Paris", "B" := "Rome"], Some("A"), "", "")
  const GeoQ2 := Question("Q2", "Capital of Italy?", map["A" := "Paris", "B" := "Rome"], Some("B"), "", "")
  const Geo := map["geo" := [GeoQ1, GeoQ2]]

  /** `saved_Q1` is read back as question `Q1`. */
  lemma SavedKeyOfPlainId()
    ensures SavedId("saved_Q1") == "Q1"
  {
    assert !Contains("Q1", SavedPrefix);
    RemoveAllPrefixedId(SavedPrefix, "Q1");
    assert SavedPrefix + "Q1" == "saved_Q1";
  }

  /** The replacement deletes the prefix inside the id too, so two different
      saved keys can name the same question. */
  lemma SavedKeysCollide()
    ensures SavedId("saved_saved_Q1") == SavedId("saved_Q1") == "Q1"
  {
    SavedKeyOfPlainId();
    RemoveAllAfterPrefix(SavedPrefix, "saved_Q1");
    assert SavedPrefix + "saved_Q1" == "saved_saved_Q1";
  }

  /** The replacement does not rescan its own output: deleting the inner
      `saved_` of `ssaved_aved_` leaves a new `saved_` that stays. */
  lemma SavedKeyNoRescan()
    ensures SavedId("saved_ssaved_aved_") == "saved_"
  {
    NoRescanOuter();
    NoRescanKeep();
    NoRescanInner();
  }

  /** The leading `saved_` goes. */
  lemma NoRescanOuter()
    ensures SavedId("saved_ssaved_aved_") == RemoveAll("ssaved_aved_", SavedPrefix)
  {
    assert SavedPrefix + "ssaved_aved_" == "saved_ssaved_aved_";
    RemoveAllAfterPrefix(SavedPrefix, "ssaved_aved_");
  }

  /** The `s` that does not start `saved_` stays. */
  lemma NoRescanKeep()
    ensures RemoveAll("ssaved_aved_", SavedPrefix) == "s" + RemoveAll("saved_aved_", SavedPrefix)
  {
    assert "ssaved_aved_" == ['s'] + "saved_aved_";
    assert "ssaved_aved_"[..6] == "ssaved";
    RemoveAllKeepsHead(SavedPrefix, 's', "saved_aved_");
  }

  /** The inner `saved_` goes and the five characters left are too short to
      hold another. */
  lemma NoRescanInner()
    ensures RemoveAll("saved_aved_", SavedPrefix) == "aved_"
  {
    assert SavedPrefix + "aved_" == "saved_aved_";
    RemoveAllAfterPrefix(SavedPrefix, "aved_");
  }

  /** `saved_Q2` is read back as question `Q2`. */
  lemma SavedKeyQ2()
    ensures SavedId("saved_Q2") == "Q2"
  {
    assert !Contains("Q2", SavedPrefix);
    RemoveAllPrefixedId(SavedPrefix, "Q2");
    assert SavedPrefix + "Q2" == "saved_Q2";
  }

  /** Normalisation: `" b "` is stored as `"B"`. */
  lemma NormaliseSpacedLetter()
    ensures Upper(Strip(" b ")) == "B"
  {
    assert IsSpace(' ') && !IsSpace('b');
    var r := Strip(" b ");
    var i :| StrippedAt(" b ", r, i);
    assert r == "b";
  }

  /** A single letter, either case, is stored as its upper-case form. */
  lemma LetterNormalised()
    ensures Upper(Strip("a")) == "A" && Upper(Strip("A")) == "A"
  {
    assert Strip("a") == "a";
    assert Strip("A") == "A";
  }

  /** A post from the page for theme `geo`, the query string naming no theme. */
  predicate GeoPost(req: Request, form: seq<Field>) {
    req.verb == "POST" && req.form == form && Arg(req.args, "theme") == ""
  }

  const SubmitForm: seq<Field> := [("theme", "geo"), ("question_id", "Q1"), ("Q1", "a")]

  lemma SubmitFormFacts()
    ensures Get(SubmitForm, "theme") == Some("geo") && Get(SubmitForm, "delete_answer") == None
    ensures Get(SubmitForm, "question_id") == Some("Q1") && Get(SubmitForm, "Q1") == Some("a")
    ensures SavedFieldIds(SubmitForm) == {}
  {
    assert Keys(SubmitForm) == {"theme", "question_id", "Q1"} by {
      assert SubmitForm[0].0 == "theme";
      assert SubmitForm[1].0 == "question_id";
      assert SubmitForm[2].0 == "Q1";
    }
    assert "question_id"[..6][0] == 'q';
    assert !IsSavedKey("theme") && !IsSavedKey("question_id") && !IsSavedKey("Q1");
  }

  /** A submission of `a` for Q1 grades the page and stores `A`. */
  lemma ScenarioSubmit(req: Request)
    requires GeoPost(req, SubmitForm)
    ensures Respond(req, Geo) == Render("geo", [GeoQ1, GeoQ2], map["Q1" := "A"], true)
  {
    SubmitFormFacts();
    SubmissionAlone(req, Geo, "Q1", "a");
    LetterNormalised();
    RenderedQuestions(req, Geo);
    assert CurrentTheme(req) == "geo";
  }

  /** On that page Q1 is graded "Correct" and Q2, unanswered, keeps its
      check button. */
  lemma ScenarioSubmitShown()
    ensures ShowAll([GeoQ1, GeoQ2], map["Q1" := "A"], true) == [Verdict(true, "A"), CheckButton]
  {
  }

  const HistoryForm: seq<Field> := [("theme", "geo"), ("saved_Q1", "B")]

  lemma HistoryFormFacts()
    ensures Get(HistoryForm, "theme") == Some("geo") && Get(HistoryForm, "delete_answer") == None
    ensures Get(HistoryForm, "question_id") == None
    ensures Keys(HistoryForm) == {"theme", "saved_Q1"}
    ensures !IsSavedKey("theme") && IsSavedKey("saved_Q1")
    ensures SavedFieldIds(HistoryForm) == {"Q1"}
  {
    assert HistoryForm[0].0 == "theme";
    assert HistoryForm[1].0 == "saved_Q1";
    SavedKeyOfPlainId();
  }

  /** Replayed history alone: Q1 is shown as chosen `B`, nothing is graded. */
  lemma ScenarioHistoryOnly(req: Request)
    requires GeoPost(req, HistoryForm)
    ensures Respond(req, Geo) == Render("geo", [GeoQ1, GeoQ2], map["Q1" := "B"], false)
  {
    HistoryFormFacts();
    HistoryFormSaved();
    assert Submission(req.form).None?;
    HistoryOnlyIsUngraded(req, Geo);
    RenderedQuestions(req, Geo);
    assert CurrentTheme(req) == "geo";
  }

  /** The loop over that form's items keeps the one saved answer. */
  lemma HistoryFormSaved()
    ensures CollectSaved(Items(HistoryForm)) == map["Q1" := "B"]
  {
    HistoryFormItems();
    HistoryFormReplay();
  }

  /** That form repeats no name, so it is its own `items()`. */
  lemma HistoryFormItems()
    ensures Items(HistoryForm) == HistoryForm
  {
    assert DistinctKeys(HistoryForm) by {
      assert HistoryForm[0].0 != HistoryForm[1].0;
    }
    ItemsOfDistinct(HistoryForm);
  }

  /** Replaying its fields in order sets only `Q1`. */
  lemma HistoryFormReplay()
    ensures CollectSaved(HistoryForm) == map["Q1" := "B"]
  {
    HistoryFormFacts();
    SavedKeyOfPlainId();
    var p := HistoryForm[..1];
    assert p == [("theme", "geo")];
    assert p[..0] == [];
    assert CollectSaved(p) == map[];
  }

  const CollidingForm: seq<Field> := [("saved_Q1", "A"), ("saved_saved_Q1", "B")]

  /** Two saved keys that name the same question: the later one in the
      form's order wins. */
  lemma CollidingKeysLaterWins()
    ensures CollectSaved(Items(CollidingForm)) == map["Q1" := "B"]
  {
    CollidingFormItems();
    CollidingFormReplay();
  }

  /** That form repeats no name, so it is its own `items()`. */
  lemma CollidingFormItems()
    ensures Items(CollidingForm) == CollidingForm
  {
    assert DistinctKeys(CollidingForm) by {
      assert CollidingForm[0].0[6] != CollidingForm[1].0[6];
    }
    ItemsOfDistinct(CollidingForm);
  }

  /** Replaying its two fields in order sets `Q1` twice. */
  lemma CollidingFormReplay()
    ensures CollectSaved(CollidingForm) == map["Q1" := "B"]
  {
    SavedKeysCollide();
    assert "saved_Q1"[..6] == SavedPrefix && "saved_saved_Q1"[..6] == SavedPrefix;
    var p := CollidingForm[..1];
    assert p == [("saved_Q1", "A")];
    assert p[..0] == [];
    assert CollectSaved(p) == map["Q1" := "A"];
  }

  /** On that page no question shows a verdict. */
  lemma ScenarioHistoryOnlyShown()
    ensures ShowAll([GeoQ1, GeoQ2], map["Q1" := "B"], false) == [CheckButton, CheckButton]
  {
  }

  const EmptyChoiceForm: seq<Field> := [("theme", "geo"), ("question_id", "Q1"), ("Q1", "")]

  lemma EmptyChoiceFormFacts()
    ensures Get(EmptyChoiceForm, "theme") == Some("geo") && Get(EmptyChoiceForm, "delete_answer") == None
    ensures Get(EmptyChoiceForm, "question_id") == Some("Q1") && Get(EmptyChoiceForm, "Q1") == Some("")
    ensures SavedFieldIds(EmptyChoiceForm) == {}
  {
    assert Keys(EmptyChoiceForm) == {"theme", "question_id", "Q1"} by {
      assert EmptyChoiceForm[0].0 == "theme";
      assert EmptyChoiceForm[1].0 == "question_id";
      assert EmptyChoiceForm[2].0 == "Q1";
    }
    assert "question_id"[..6][0] == 'q';
    assert !IsSavedKey("theme") && !IsSavedKey("question_id") && !IsSavedKey("Q1");
  }

  /** An empty choice grades nothing and adds no entry. */
  lemma ScenarioEmptyChoice(req: Request)
    requires GeoPost(req, EmptyChoiceForm)
    ensures Respond(req, Geo) == Render("geo", [GeoQ1, GeoQ2], map[], false)
  {
    EmptyChoiceFormFacts();
    assert FormText(req.form, "Q1") == "";
    assert Submission(req.form).None?;
    SelectedKeys(req, Geo);
    var out := Respond(req, Geo);
    assert out.selected.Keys == {};
  }

  const BlankChoiceForm: seq<Field> := [("question_id", "Q1"), ("Q1", " ")]

  lemma BlankChoiceFormFacts()
    ensures Get(BlankChoiceForm, "theme") == None && Get(BlankChoiceForm, "delete_answer") == None
    ensures Get(BlankChoiceForm, "question_id") == Some("Q1") && Get(BlankChoiceForm, "Q1") == Some(" ")
    ensures SavedFieldIds(BlankChoiceForm) == {}
  {
    assert Keys(BlankChoiceForm) == {"question_id", "Q1"} by {
      assert BlankChoiceForm[0].0 == "question_id";
      assert BlankChoiceForm[1].0 == "Q1";
    }
    assert "question_id"[..6][0] == 'q';
    assert !IsSavedKey("question_id") && !IsSavedKey("Q1");
  }

  /** A choice of one space grades the page and stores the empty string;
      with no theme the page lists no questions. */
  lemma ScenarioBlankChoice(req: Request)
    requires GeoPost(req, BlankChoiceForm)
    ensures Respond(req, Geo) == Render("", [], map["Q1" := ""], true)
  {
    BlankChoiceFormFacts();
    assert AllSpace(" ");
    StripEmptyIff(" ");
    SubmissionAlone(req, Geo, "Q1", " ");
    RenderedQuestions(req, Geo);
    assert CurrentTheme(req) == "";
  }

  const PageWideForm: seq<Field> := [("theme", "geo"), ("question_id", "Q1"), ("Q1", "A"), ("saved_Q2", "A")]

  lemma PageWideFormFacts()
    ensures Get(PageWideForm, "theme") == Some("geo") && Get(PageWideForm, "delete_answer") == None
    ensures Get(PageWideForm, "question_id") == Some("Q1") && Get(PageWideForm, "Q1") == Some("A")
    ensures Get(PageWideForm, "saved_Q2") == Some("A")
    ensures Keys(PageWideForm) == {"theme", "question_id", "Q1", "saved_Q2"}
    ensures !IsSavedKey("theme") && !IsSavedKey("question_id") && !IsSavedKey("Q1") && IsSavedKey("saved_Q2")
    ensures Submission(PageWideForm) == Some(("Q1", "A"))
    ensures forall k :: k in Keys(PageWideForm) && IsSavedKey(k) ==> k == "saved_Q2"
  {
    assert PageWideForm[0].0 == "theme";
    assert PageWideForm[1].0 == "question_id";
    assert PageWideForm[2].0 == "Q1";
    assert PageWideForm[3].0 == "saved_Q2";
    assert "question_id"[..6][0] == 'q';
  }

  /** Grading is page-wide: submitting Q1 also grades Q2, whose answer only
      came from replayed history. */
  lemma ScenarioPageWideGrading(req: Request)
    requires GeoPost(req, PageWideForm)
    ensures var out := Respond(req, Geo);
            out.Render? && out.graded && out.currentTheme == "geo" && out.questions == [GeoQ1, GeoQ2]
            && "Q1" in out.selected && out.selected["Q1"] == "A"
            && "Q2" in out.selected && out.selected["Q2"] == "A"
  {
    PageWideFormFacts();
    SavedKeyQ2();
    LetterNormalised();
    SubmissionPrecedence(req, Geo, "Q1", "A");
    assert Submission(req.form).value.0 != SavedId("saved_Q2");
    SavedFieldValue(req, Geo, "saved_Q2");
    RenderedQuestions(req, Geo);
    assert CurrentTheme(req) == "geo";
  }

  /** On such a page Q1 is "Correct" and Q2, never submitted, is "Wrong". */
  lemma ScenarioPageWideShown(selected: map<string, string>)
    requires "Q1" in selected && selected["Q1"] == "A" && "Q2" in selected && selected["Q2"] == "A"
    ensures ShowAll([GeoQ1, GeoQ2], selected, true) == [Verdict(true, "A"), Verdict(false, "A")]
  {
  }

  /** The delete button's form redirects back to its theme. */
  lemma ScenarioDelete(req: Request)
    requires GeoPost(req, [("theme", "geo"), ("delete_answer", "Q1"), ("question_id", "Q1")])
    ensures Respond(req, Geo) == Redirect("/?theme=geo")
  {
    assert Get(req.form, "theme") == Some("geo");
    assert Get(req.form, "delete_answer") == Some("Q1");
    DeleteRedirects(req, Geo);
  }

  /** A delete with no theme anywhere redirects to the bare theme view. */
  lemma ScenarioDeleteWithoutTheme(req: Request)
    requires GeoPost(req, [("delete_answer", "Q1")])
    ensures Respond(req, Geo) == Redirect("/?theme=")
  {
    assert Get(req.form, "theme") == None;
    assert Get(req.form, "delete_answer") == Some("Q1");
    DeleteRedirects(req, Geo);
  }
}

/** The archetype assessment's session: a step cursor over the question
    catalog, the intro-form gate, the results switch and the contact form.
    Every handler becomes a pure transition on an immutable session record;
    rendering, alerts and the score animation are side effects and are
    dropped. */
module ArchetypeApp {
  import opened Wrappers
  import opened Archetypes
  import opened ArchetypeScoring
  import opened ArchetypeLogic

  /** The index of the last question; the intro screen is step -1. */
  const LastStep: int := |QUESTIONS| - 1

  /** The fourteen form fields the session starts with: the three intro
      fields, one per question, and the free-text `additional`. */
  const FIELDS: seq<string> := [
    "name", "organization", "role",
    "timeline", "decisionMaking", "innovation", "partnership", "budget",
    "creative", "communication", "competitive", "agencyIdeas", "pastLessons",
    "additional"
  ]

  datatype Contact = Contact(name: string, organization: string, email: string)

  datatype ContactField = ContactName | ContactOrganization | ContactEmail

  datatype Session = Session(
    step: int,
    showResults: bool,
    showError: bool,
    showContactForm: bool,
    form: FormData,
    contact: Contact,
    nextDisabled: bool)

  /** The screen `render` draws. */
  datatype Screen = Intro | QuestionScreen(index: int) | Results

  /** The cursor never leaves the intro step or the question catalog. */
  predicate Valid(s: Session)
  {
    -1 <= s.step <= LastStep
  }

  /** The next button's `disabled` attribute as `render` writes it: only a
      question screen has the button, and it is disabled while the current
      question's answer is empty. */
  function DrawnDisabled(s: Session): bool
  {
    ScreenOf(s).QuestionScreen? && 0 <= s.step < |QUESTIONS| && Answer(s.form, QUESTIONS[s.step].id) == ""
  }

  /** The page on screen was drawn from the session as it is now. */
  predicate Fresh(s: Session)
  {
    s.nextDisabled == DrawnDisabled(s)
  }

  /** `render`: the page is redrawn from the session, which refreshes the
      next button's disabled state and nothing else the model keeps. */
  function Render(s: Session): (r: Session)
    ensures Fresh(r) && r == s.(nextDisabled := r.nextDisabled)
  {
    s.(nextDisabled := DrawnDisabled(s))
  }

  /** Name, organization and role are all truthy. */
  predicate IntroComplete(form: FormData)
  {
    Answer(form, "name") != "" && Answer(form, "organization") != "" && Answer(form, "role") != ""
  }

  /** A form holding every field, each empty. */
  function EmptyForm(): (f: FormData)
    ensures forall k :: k in f <==> k in FIELDS
    ensures forall k :: Answer(f, k) == ""
  {
    map k | k in FIELDS :: ""
  }

  /** The contact form prefilled from the intro fields, with no email. */
  function Prefill(form: FormData): (c: Contact)
    ensures c.name == Answer(form, "name") && c.organization == Answer(form, "organization")
    ensures c.email == ""
  {
    Contact(Answer(form, "name"), Answer(form, "organization"), "")
  }

  /** The constructor's state, as `init` first draws it. */
  function Init(): (r: Session)
    ensures Valid(r) && r.step == -1 && Fresh(r)
    ensures !r.showResults && !r.showError && !r.showContactForm
    ensures forall k :: Answer(r.form, k) == ""
    ensures r.contact == Contact("", "", "")
  {
    Session(-1, false, false, false, EmptyForm(), Contact("", "", ""), false)
  }

  /** `handleInputChange`: the named field takes the value, every other
      field keeps its own, and any error message is hidden. The page is
      redrawn only when an error was showing; otherwise the next button
      keeps the state it was drawn with. */
  function InputChange(s: Session, field: string, value: string): (r: Session)
    ensures Answer(r.form, field) == value
    ensures forall k :: k != field ==> Answer(r.form, k) == Answer(s.form, k)
    ensures !r.showError
    ensures r.step == s.step && r.showResults == s.showResults
    ensures r.showContactForm == s.showContactForm && r.contact == s.contact
    ensures s.showError ==> Fresh(r)
    ensures !s.showError ==> r.nextDisabled == s.nextDisabled
  {
    var r := s.(form := s.form[field := value], showError := false);
    if s.showError then Render(r) else r
  }

  /** `handleStartAssessment`: the first question opens exactly when the
      three intro fields are filled; otherwise the error shows and the
      cursor stays put. */
  function StartAssessment(s: Session): (r: Session)
    ensures IntroComplete(s.form) ==> r.step == 0
    ensures !IntroComplete(s.form) ==> r.step == s.step
    ensures r.showError <==> !IntroComplete(s.form)
    ensures r.form == s.form && r.contact == s.contact
    ensures r.showResults == s.showResults && r.showContactForm == s.showContactForm
    ensures Valid(s) ==> Valid(r)
    ensures Fresh(r)
  {
    if IntroComplete(s.form) then Render(s.(step := 0, showError := false))
    else Render(s.(showError := true))
  }

  /** `handleNext`: advance while a later question exists; on the last one
      switch to the results and leave the cursor where it is. */
  function Next(s: Session): (r: Session)
    ensures s.step < LastStep ==> r.step == s.step + 1 && r.showResults == s.showResults
    ensures s.step >= LastStep ==> r.step == s.step && r.showResults
    ensures r.form == s.form && r.contact == s.contact && r.showError == s.showError
    ensures r.showContactForm == s.showContactForm
    ensures Valid(s) ==> Valid(r)
    ensures Fresh(r)
  {
    if s.step < LastStep then Render(s.(step := s.step + 1)) else Render(s.(showResults := true))
  }

  /** `handleBack`: step back one question; the first question returns to
      the intro, and the intro (or any other step) stays. */
  function Back(s: Session): (r: Session)
    ensures s.step > 0 ==> r.step == s.step - 1
    ensures s.step == 0 ==> r.step == -1
    ensures s.step < 0 ==> r.step == s.step
    ensures r == s.(step := r.step, nextDisabled := r.nextDisabled) && Fresh(r)
    ensures Valid(s) ==> Valid(r)
  {
    if s.step > 0 then Render(s.(step := s.step - 1))
    else if s.step == 0 then Render(s.(step := -1))
    else Render(s)
  }

  /** `handleReset`: every answer is cleared, the cursor returns to the
      intro and both the results and the contact form are hidden. The error
      flag and the contact data are not touched. */
  function Reset(s: Session): (r: Session)
    ensures forall k :: Answer(r.form, k) == ""
    ensures r.step == -1 && Valid(r)
    ensures !r.showResults && !r.showContactForm
    ensures r.showError == s.showError && r.contact == s.contact
    ensures Fresh(r)
  {
    Render(s.(form := EmptyForm(), step := -1, showResults := false, showContactForm := false))
  }

  /** `toggleContactForm`: opening prefills name and organization from the
      intro with an empty email; closing keeps whatever was typed. */
  function ToggleContactForm(s: Session): (r: Session)
    ensures r.showContactForm == !s.showContactForm
    ensures !s.showContactForm ==> r.contact == Prefill(s.form)
    ensures s.showContactForm ==> r.contact == s.contact
    ensures r == s.(showContactForm := r.showContactForm, contact := r.contact, nextDisabled := r.nextDisabled)
    ensures Fresh(r)
  {
    if s.showContactForm then Render(s.(showContactForm := false))
    else Render(s.(contact := Prefill(s.form), showContactForm := true))
  }

  /** `handleContactChange`: one contact field takes the value. */
  function ContactChange(s: Session, field: ContactField, value: string): (r: Session)
    ensures field == ContactName ==> r.contact == s.contact.(name := value)
    ensures field == ContactOrganization ==> r.contact == s.contact.(organization := value)
    ensures field == ContactEmail ==> r.contact == s.contact.(email := value)
    ensures r == s.(contact := r.contact)
  {
    match field
    case ContactName => s.(contact := s.contact.(name := value))
    case ContactOrganization => s.(contact := s.contact.(organization := value))
    case ContactEmail => s.(contact := s.contact.(email := value))
  }

  /** Whether a contact submission was accepted, and the session after it. */
  datatype Submission = Submission(session: Session, accepted: bool)

  predicate ContactComplete(c: Contact)
  {
    c.name != "" && c.organization != "" && c.email != ""
  }

  /** `handleContactSubmit`: accepted exactly when name, organization and
      email are all filled; an accepted submission hides the form and
      prefills it afresh, a rejected one changes nothing. */
  function ContactSubmit(s: Session): (r: Submission)
    ensures r.accepted <==> ContactComplete(s.contact)
    ensures r.accepted ==> !r.session.showContactForm && r.session.contact == Prefill(s.form)
    ensures r.accepted ==>
              r.session == s.(showContactForm := false, contact := r.session.contact, nextDisabled := r.session.nextDisabled)
    ensures r.accepted ==> Fresh(r.session)
    ensures !r.accepted ==> r.session == s
  {
    if ContactComplete(s.contact) then
      Submission(Render(s.(showContactForm := false, contact := Prefill(s.form))), true)
    else
      Submission(s, false)
  }

  /** `render`'s choice: results first, then the intro whenever an intro
      field is empty or the cursor is on the intro, else the current
      question. */
  function ScreenOf(s: Session): (r: Screen)
    ensures r == Results <==> s.showResults
    ensures r == Intro <==> !s.showResults && (!IntroComplete(s.form) || s.step == -1)
    ensures r.QuestionScreen? ==> r.index == s.step && IntroComplete(s.form)
  {
    if s.showResults then Results
    else if !IntroComplete(s.form) || s.step == -1 then Intro
    else QuestionScreen(s.step)
  }

  /** In a valid session a question screen always shows a catalog question. */
  lemma QuestionScreenInCatalog(s: Session)
    requires Valid(s)
    ensures ScreenOf(s).QuestionScreen? ==> 0 <= ScreenOf(s).index < |QUESTIONS|
  {
  }

  /** The description table's entry under `key`, else its entry under
      `fallback`, else `undefined`. */
  function Lookup(key: Option<string>, fallback: Option<string>): (r: Option<Description>)
    ensures key.Some? && key.value in ARCHETYPE_DESCRIPTIONS ==> r == Some(ARCHETYPE_DESCRIPTIONS[key.value])
    ensures !(key.Some? && key.value in ARCHETYPE_DESCRIPTIONS) ==>
              r == if fallback.Some? && fallback.value in ARCHETYPE_DESCRIPTIONS
                   then Some(ARCHETYPE_DESCRIPTIONS[fallback.value]) else None
    ensures r.Some? ==> r.value in ARCHETYPE_DESCRIPTIONS.Values
  {
    if key.Some? && key.value in ARCHETYPE_DESCRIPTIONS then Some(ARCHETYPE_DESCRIPTIONS[key.value])
    else if fallback.Some? && fallback.value in ARCHETYPE_DESCRIPTIONS then Some(ARCHETYPE_DESCRIPTIONS[fallback.value])
    else None
  }

  /** `renderResultsScreen`'s lookup: the description of the archetype key,
      falling back to the first dominant archetype's own entry. */
  function DescriptionFor(dominants: seq<Archetype>): (r: Option<Description>)
    ensures |dominants| > 0 <==> r.Some?
    ensures |dominants| > 0 ==> r == Some(ARCHETYPE_DESCRIPTIONS[ArchetypeKey(dominants).value])
  {
    DescriptionKeys();
    Lookup(ArchetypeKey(dominants), if |dominants| > 0 then Some(Tag(dominants[0])) else None)
  }

  /** The results screen's description is always the classification key's
      own entry: the fallback never fires. */
  lemma ResultsDescription(form: FormData)
    ensures var dominants := DominantArchetypes(ScoresOf(form));
            var key := ArchetypeKey(dominants);
            key.Some? && DescriptionFor(dominants) == Some(ARCHETYPE_DESCRIPTIONS[key.value])
  {
    ClassificationHasDescription(ScoresOf(form));
  }

  /** The intro screen's three text inputs. */
  const INTRO_FIELDS: seq<string> := ["name", "organization", "role"]

  /** A user action on a control of the page. */
  datatype Event =
    | Type(field: string, value: string)
    | Choose(option: nat)
    | Start
    | Forward
    | Backward
    | StartOver
    | ToggleContact
    | TypeContact(contactField: ContactField, contactValue: string)
    | SubmitContact

  /** The screen each control is drawn on. */
  predicate OnScreen(screen: Screen, e: Event)
  {
    match e
    case Type(_, _) => screen == Intro
    case Start => screen == Intro
    case Choose(_) => screen.QuestionScreen?
    case Forward => screen.QuestionScreen?
    case Backward => screen.QuestionScreen?
    case _ => screen == Results
  }

  /** Whether the control behind `e` is on the page and can be used: the
      intro's text inputs and start button, the current question's options,
      its back button and its next button unless that was drawn disabled,
      and the results screen's buttons and, when open, its contact form. */
  function Enabled(s: Session, e: Event): (b: bool)
    ensures b ==> OnScreen(ScreenOf(s), e)
    ensures b && e.Forward? ==> !s.nextDisabled
    ensures b && (e.TypeContact? || e.SubmitContact?) ==> s.showContactForm
  {
    var screen := ScreenOf(s);
    match e
    case Type(f, _) => screen == Intro && f in INTRO_FIELDS
    case Choose(k) => screen.QuestionScreen? && 0 <= s.step < |QUESTIONS| && k < |QUESTIONS[s.step].options|
    case Start => screen == Intro
    case Forward => screen.QuestionScreen? && 0 <= s.step < |QUESTIONS| && !s.nextDisabled
    case Backward => screen.QuestionScreen?
    case StartOver => screen == Results
    case ToggleContact => screen == Results
    case TypeContact(_, _) => screen == Results && s.showContactForm
    case SubmitContact => screen == Results && s.showContactForm
  }

  /** The handler an enabled control calls; a control that is not drawn, or
      is disabled, leaves the session as it is. A chosen option stores its
      value under the current question's id. The results appear only
      through the next button on the last question. */
  function Apply(s: Session, e: Event): (r: Session)
    ensures !Enabled(s, e) ==> r == s
    ensures Valid(s) ==> Valid(r)
    ensures r.showResults && !s.showResults ==> e.Forward? && !s.nextDisabled && s.step >= LastStep
  {
    if !Enabled(s, e) then s
    else
      match e
      case Type(f, v) => InputChange(s, f, v)
      case Choose(k) => InputChange(s, QUESTIONS[s.step].id, QUESTIONS[s.step].options[k].value)
      case Start => StartAssessment(s)
      case Forward => Next(s)
      case Backward => Back(s)
      case StartOver => Reset(s)
      case ToggleContact => ToggleContactForm(s)
      case TypeContact(f, v) => ContactChange(s, f, v)
      case SubmitContact => ContactSubmit(s).session
  }

  /** The session after a sequence of actions, oldest first. */
  function Run(s: Session, events: seq<Event>): Session
    decreases |events|
  {
    if |events| == 0 then s else Run(Apply(s, events[0]), events[1..])
  }

  /** Every action keeps the cursor within the intro and the catalog. */
  lemma ApplyPreservesValid(s: Session, e: Event)
    requires Valid(s)
    ensures Valid(Apply(s, e))
  {
  }

  /** From the constructor on, whatever the user does, the cursor stays
      within [-1, |QUESTIONS| - 1]. */
  lemma {:induction false} RunPreservesValid(s: Session, events: seq<Event>)
    requires Valid(s)
    ensures Valid(Run(s, events))
    decreases |events|
  {
    if |events| > 0 {
      ApplyPreservesValid(s, events[0]);
      RunPreservesValid(Apply(s, events[0]), events[1..]);
    }
  }

  lemma ReachableSessionsValid(events: seq<Event>)
    ensures Valid(Run(Init(), events))
  {
    RunPreservesValid(Init(), events);
  }

  /** What the page's controls keep true: past the intro its three fields
      are filled, a next button that would now be drawn disabled was drawn
      disabled, every question is unanswered or holds one of its options,
      every question before the cursor is answered, and every question is
      answered once the results show. */
  predicate Walked(s: Session)
  {
    Valid(s) &&
    (s.step >= 0 ==> IntroComplete(s.form)) &&
    (DrawnDisabled(s) ==> s.nextDisabled) &&
    (forall i :: 0 <= i < |QUESTIONS| ==> Answer(s.form, QUESTIONS[i].id) == "" || Chosen(s.form, i)) &&
    (forall i :: 0 <= i < |QUESTIONS| && (i < s.step || s.showResults) ==> Chosen(s.form, i))
  }

  /** No intro field shares a name with a question. */
  lemma IntroFieldsNotQuestions()
    ensures forall f, i :: f in INTRO_FIELDS && 0 <= i < |QUESTIONS| ==> QUESTIONS[i].id != f
  {
  }

  /** Writing a field that no question other than `j` uses keeps every
      other question's answer, and so its choice. */
  lemma ChosenFramed(s: Session, r: Session, j: int)
    requires forall i :: 0 <= i < |QUESTIONS| && i != j ==> Answer(r.form, QUESTIONS[i].id) == Answer(s.form, QUESTIONS[i].id)
    ensures forall i :: 0 <= i < |QUESTIONS| && i != j ==> (Chosen(r.form, i) <==> Chosen(s.form, i))
  {
  }

  /** Every question offers a first option. */
  lemma HasFirstOption(i: int)
    requires 0 <= i < |QUESTIONS|
    ensures |QUESTIONS[i].options| > 0
  {
    OneChoicePerArchetype();
  }

  /** `after` agrees with `before` on the intro and on every question but `j`. */
  predicate KeepsOthers(before: FormData, after: FormData, j: int)
  {
    IntroComplete(after) == IntroComplete(before) &&
    forall i :: 0 <= i < |QUESTIONS| && i != j ==>
      Answer(after, QUESTIONS[i].id) == Answer(before, QUESTIONS[i].id) && (Chosen(after, i) <==> Chosen(before, i))
  }

  /** Writing question `j`'s answer keeps the intro and every other
      question's answer, and so its choice. */
  lemma AnswerWriteFramed(form: FormData, j: int, v: string)
    requires 0 <= j < |QUESTIONS|
    ensures Answer(form[QUESTIONS[j].id := v], QUESTIONS[j].id) == v
    ensures KeepsOthers(form, form[QUESTIONS[j].id := v], j)
  {
    var f := form[QUESTIONS[j].id := v];
    IntroFieldsNotQuestions();
    assert IntroComplete(f) == IntroComplete(form);
    QuestionIdsDistinct();
    forall i | 0 <= i < |QUESTIONS| && i != j
      ensures Answer(f, QUESTIONS[i].id) == Answer(form, QUESTIONS[i].id) && (Chosen(f, i) <==> Chosen(form, i))
    {
      assert QUESTIONS[i].id != QUESTIONS[j].id;
    }
  }

  /** Writing one of question `j`'s option values answers it. */
  lemma OptionWriteChosen(form: FormData, j: int, k: nat)
    requires 0 <= j < |QUESTIONS| && k < |QUESTIONS[j].options|
    ensures Chosen(form[QUESTIONS[j].id := QUESTIONS[j].options[k].value], j)
  {
    var f := form[QUESTIONS[j].id := QUESTIONS[j].options[k].value];
    assert QUESTIONS[j].options[k].value == Answer(f, QUESTIONS[j].id);
  }

  /** Choosing option `k` writes its value under the current question. */
  lemma ChooseWrites(s: Session, k: nat)
    requires Enabled(s, Choose(k))
    ensures var r := Apply(s, Choose(k));
            0 <= s.step < |QUESTIONS| && k < |QUESTIONS[s.step].options| &&
            r == InputChange(s, QUESTIONS[s.step].id, QUESTIONS[s.step].options[k].value) &&
            r.form == s.form[QUESTIONS[s.step].id := QUESTIONS[s.step].options[k].value] &&
            KeepsOthers(s.form, r.form, s.step) && Chosen(r.form, s.step) &&
            Answer(r.form, QUESTIONS[s.step].id) != ""
  {
    var v := QUESTIONS[s.step].options[k].value;
    ChoiceValuesDistinct();
    assert v != "";
    AnswerWriteFramed(s.form, s.step, v);
    OptionWriteChosen(s.form, s.step, k);
  }

  /** Every enabled control keeps the walk invariant. */
  lemma ApplyKeepsWalked(s: Session, e: Event)
    requires Walked(s)
    ensures Walked(Apply(s, e))
  {
    if Enabled(s, e) {
      match e
      case Type(f, v) => TypeKeepsWalked(s, f, v);
      case Choose(k) => ChooseKeepsWalked(s, k);
      case Forward => ForwardKeepsWalked(s);
      case StartOver => ResetKeepsWalked(s);
      case Start => StartKeepsWalked(s);
      case Backward => BackKeepsWalked(s);
      case ToggleContact => ContactKeepsWalked(s, e);
      case TypeContact(f, v) => ContactKeepsWalked(s, e);
      case SubmitContact => ContactKeepsWalked(s, e);
    }
  }

  /** An action that keeps the answers, moves the cursor back or onto the
      first question, and shows the results only if they were showing,
      keeps the walk invariant. */
  lemma FramedWalk(s: Session, r: Session)
    requires Walked(s) && Valid(r) && r.form == s.form
    requires r.step <= s.step || r.step <= 0
    requires r.showResults ==> s.showResults
    requires r.step >= 0 ==> IntroComplete(r.form)
    requires DrawnDisabled(r) ==> r.nextDisabled
    ensures Walked(r)
  {
  }

  lemma StartKeepsWalked(s: Session)
    requires Walked(s) && Enabled(s, Start)
    ensures Walked(Apply(s, Start))
  {
    FramedWalk(s, StartAssessment(s));
  }

  lemma BackKeepsWalked(s: Session)
    requires Walked(s) && Enabled(s, Backward)
    ensures Walked(Apply(s, Backward))
  {
    FramedWalk(s, Back(s));
  }

  lemma ContactKeepsWalked(s: Session, e: Event)
    requires Walked(s) && Enabled(s, e)
    requires e.ToggleContact? || e.TypeContact? || e.SubmitContact?
    ensures Walked(Apply(s, e))
  {
    FramedWalk(s, Apply(s, e));
  }

  lemma ResetKeepsWalked(s: Session)
    requires Walked(s) && Enabled(s, StartOver)
    ensures Walked(Apply(s, StartOver))
  {
    var r := Apply(s, StartOver);
    assert forall i :: 0 <= i < |QUESTIONS| ==> Answer(r.form, QUESTIONS[i].id) == "";
  }

  lemma TypeKeepsWalked(s: Session, f: string, v: string)
    requires Walked(s) && Enabled(s, Type(f, v))
    ensures Walked(Apply(s, Type(f, v)))
  {
    var r := Apply(s, Type(f, v));
    IntroFieldsNotQuestions();
    ChosenFramed(s, r, -1);
    assert s.step == -1 && r.step == -1;
  }

  lemma ChooseKeepsWalked(s: Session, k: nat)
    requires Walked(s) && Enabled(s, Choose(k))
    ensures Walked(Apply(s, Choose(k)))
  {
    var r := Apply(s, Choose(k));
    ChooseWrites(s, k);
    assert r.step == s.step && r.showResults == s.showResults;
    assert !DrawnDisabled(r);
  }

  lemma ForwardKeepsWalked(s: Session)
    requires Walked(s) && Enabled(s, Forward)
    ensures Walked(Apply(s, Forward))
  {
    assert Chosen(s.form, s.step);
  }

  lemma {:induction false} RunKeepsWalked(s: Session, events: seq<Event>)
    requires Walked(s)
    ensures Walked(Run(s, events))
    decreases |events|
  {
    if |events| > 0 {
      ApplyKeepsWalked(s, events[0]);
      RunKeepsWalked(Apply(s, events[0]), events[1..]);
    }
  }

  /** Since the next button stays disabled until its question is answered,
      whenever the results show after construction every question holds
      one of its options and the scores total ten tenths. */
  lemma ResultsOnlyWhenAnswered(events: seq<Event>)
    ensures var s := Run(Init(), events);
            s.showResults ==>
              (forall i :: 0 <= i < |QUESTIONS| ==> Chosen(s.form, i)) && ScoresOf(s.form).Total() == 10
    ensures var s := RunIntended(Init(), events);
            s.showResults ==>
              (forall i :: 0 <= i < |QUESTIONS| ==> Chosen(s.form, i)) && ScoresOf(s.form).Total() == 10
  {
    RunKeepsWalked(Init(), events);
    RunIntendedKeepsWalked(Init(), events);
    var s := Run(Init(), events);
    if s.showResults {
      FullFormScoresTen(s.form);
    }
    var t := RunIntended(Init(), events);
    if t.showResults {
      FullFormScoresTen(t.form);
    }
  }

  // ------------------------------------------------ the stale next button

  /** Pick each question's first option, then press next, `n` times over. */
  function PickAndNext(n: nat): (events: seq<Event>)
    ensures |events| == 2 * n
  {
    if n == 0 then [] else [Choose(0), Forward] + PickAndNext(n - 1)
  }

  /** Choosing an option on a question whose next button was drawn disabled
      leaves it disabled: `handleInputChange` redraws only to hide an error,
      which a question screen does not show. So the press that follows is
      ignored, though the question is now answered. */
  lemma ChoiceKeepsNextDisabled(s: Session, k: nat)
    requires Enabled(s, Choose(k)) && !s.showError && s.nextDisabled
    ensures var r := Apply(s, Choose(k));
            Chosen(r.form, s.step) && r.nextDisabled && ScreenOf(r) == ScreenOf(s) &&
            Apply(r, Forward) == r
  {
    ChooseWrites(s, k);
  }

  /** As written, picking and pressing next never leaves a question whose
      next button was drawn disabled. */
  lemma {:induction false} StaleWalkStuck(s: Session, n: nat)
    requires ScreenOf(s).QuestionScreen? && 0 <= s.step < |QUESTIONS|
    requires !s.showError && s.nextDisabled
    ensures var r := Run(s, PickAndNext(n));
            r.step == s.step && !r.showResults && ScreenOf(r) == ScreenOf(s) && !r.showError && r.nextDisabled
    ensures n > 0 ==> Chosen(Run(s, PickAndNext(n)).form, s.step)
    decreases n
  {
    if n > 0 {
      var t := StalePair(s);
      RunPair(s, Choose(0), Forward, PickAndNext(n - 1));
      assert Run(s, PickAndNext(n)) == Run(t, PickAndNext(n - 1));
      StaleWalkStuck(t, n - 1);
      if n == 1 {
        assert Run(t, PickAndNext(0)) == t;
      }
    }
  }

  /** One pick of the first option and one press of next on such a question
      answer it and change nothing else the walk depends on. */
  lemma StalePair(s: Session) returns (t: Session)
    requires ScreenOf(s).QuestionScreen? && 0 <= s.step < |QUESTIONS|
    requires !s.showError && s.nextDisabled
    ensures t == Apply(Apply(s, Choose(0)), Forward)
    ensures t.step == s.step && !t.showResults && ScreenOf(t) == ScreenOf(s) && !t.showError && t.nextDisabled
    ensures Chosen(t.form, s.step)
  {
    HasFirstOption(s.step);
    ChoiceKeepsNextDisabled(s, 0);
    t := Apply(s, Choose(0));
  }

  /** Two actions in front of a sequence are applied first. */
  lemma RunPair(s: Session, a: Event, b: Event, rest: seq<Event>)
    ensures Run(s, [a, b] + rest) == Run(Apply(Apply(s, a), b), rest)
  {
    var events := [a, b] + rest;
    assert events[0] == a && events[1..][0] == b && events[1..][1..] == rest;
  }

  /** The smallest walk that shows it: fill the intro, start, pick the first
      option of the first question and press next. The press is ignored and
      the first question stays on screen. */
  lemma StaleNextButtonExample()
    ensures var s := Run(Init(), [Type("name", "a"), Type("organization", "b"), Type("role", "c"), Start] + PickAndNext(1));
            s.step == 0 && !s.showResults && Chosen(s.form, 0)
  {
    var intro := [Type("name", "a"), Type("organization", "b"), Type("role", "c"), Start];
    RunAppend(Init(), intro, PickAndNext(1));
    var s4 := Run(Init(), intro);
    RunFour(Init(), Type("name", "a"), Type("organization", "b"), Type("role", "c"), Start);
    FilledIntroStarts(s4);
    StaleWalkStuck(s4, 1);
  }

  /** Filling the intro and starting opens the first question, drawn with
      its next button disabled. */
  lemma FilledIntroStarts(s4: Session)
    requires s4 == Apply(Apply(Apply(Apply(Init(), Type("name", "a")), Type("organization", "b")), Type("role", "c")), Start)
    ensures s4.step == 0 && ScreenOf(s4) == QuestionScreen(0) && !s4.showError && s4.nextDisabled
  {
    var s1 := Apply(Init(), Type("name", "a"));
    var s2 := Apply(s1, Type("organization", "b"));
    var s3 := Apply(s2, Type("role", "c"));
    assert Answer(s3.form, "name") == "a" && Answer(s3.form, "organization") == "b" && Answer(s3.form, "role") == "c";
    assert QUESTIONS[0].id == "timeline";
    assert Answer(s4.form, QUESTIONS[0].id) == "";
  }

  /** Four actions are applied one after another. */
  lemma RunFour(s: Session, a: Event, b: Event, c: Event, d: Event)
    ensures Run(s, [a, b, c, d]) == Apply(Apply(Apply(Apply(s, a), b), c), d)
  {
    RunPair(s, a, b, [c, d]);
    RunPair(Apply(Apply(s, a), b), c, d, []);
    assert [a, b] + [c, d] == [a, b, c, d] && [c, d] + [] == [c, d];
  }

  lemma {:induction false} RunAppend(s: Session, xs: seq<Event>, ys: seq<Event>)
    ensures Run(s, xs + ys) == Run(Run(s, xs), ys)
    decreases |xs|
  {
    if |xs| > 0 {
      assert (xs + ys)[0] == xs[0] && (xs + ys)[1..] == xs[1..] + ys;
      RunAppend(Apply(s, xs[0]), xs[1..], ys);
    } else {
      assert xs + ys == ys;
    }
  }

  /** The evidently intended handling of an option choice: the page is
      redrawn, so the next button follows the answer just given. Every other
      action is handled as written. */
  function ApplyIntended(s: Session, e: Event): (r: Session)
    ensures e.Choose? && Enabled(s, e) ==> Fresh(r) && Enabled(r, Forward)
    ensures !(e.Choose? && Enabled(s, e)) ==> r == Apply(s, e)
  {
    if e.Choose? && Enabled(s, e) then
      ChosenEnablesNext(s, e.option);
      Render(Apply(s, e))
    else Apply(s, e)
  }

  lemma ChosenEnablesNext(s: Session, k: nat)
    requires Enabled(s, Choose(k))
    ensures var r := Render(Apply(s, Choose(k)));
            ScreenOf(r) == ScreenOf(s) && Chosen(r.form, s.step) && !r.nextDisabled
  {
    ChooseWrites(s, k);
  }

  /** The session after a sequence of actions under the intended handling. */
  function RunIntended(s: Session, events: seq<Event>): Session
    decreases |events|
  {
    if |events| == 0 then s else RunIntended(ApplyIntended(s, events[0]), events[1..])
  }

  /** With the page redrawn on every choice, picking and pressing next from
      any question walks through the remaining questions to the results. */
  lemma {:induction false} IntendedWalk(s: Session, n: nat)
    requires ScreenOf(s).QuestionScreen? && 0 <= s.step < |QUESTIONS|
    requires n == |QUESTIONS| - s.step
    ensures RunIntended(s, PickAndNext(n)).showResults
    decreases n
  {
    HasFirstOption(s.step);
    var events := PickAndNext(n);
    assert events[0] == Choose(0) && events[1..][0] == Forward && events[1..][1..] == PickAndNext(n - 1);
    var r := ApplyIntended(s, Choose(0));
    ChosenEnablesNext(s, 0);
    var t := ApplyIntended(r, Forward);
    assert r.step == s.step && t == Next(r);
    assert RunIntended(s, events) == RunIntended(t, PickAndNext(n - 1));
    if s.step < LastStep {
      IntendedWalk(t, n - 1);
    } else {
      assert PickAndNext(n - 1) == [];
      assert t.showResults;
    }
  }

  /** The intended handling keeps the walk invariant too, so its results
      also show only for a fully answered form. */
  lemma {:induction false} RunIntendedKeepsWalked(s: Session, events: seq<Event>)
    requires Walked(s)
    ensures Walked(RunIntended(s, events))
    decreases |events|
  {
    if |events| > 0 {
      ApplyKeepsWalked(s, events[0]);
      RunIntendedKeepsWalked(ApplyIntended(s, events[0]), events[1..]);
    }
  }

  /** `n` presses of Next. */
  function Advance(s: Session, n: nat): Session
    decreases n
  {
    if n == 0 then s else Advance(Next(s), n - 1)
  }

  /** Pressing Next from a question reaches the results exactly when the
      presses outnumber the questions left after the current one, and the
      cursor stops on the last question. */
  lemma {:induction false} AdvanceReachesResults(s: Session, n: nat)
    requires Valid(s)
    ensures Advance(s, n).showResults <==> s.showResults || n > LastStep - s.step
    ensures Advance(s, n).step == if s.step + n <= LastStep then s.step + n else LastStep
    decreases n
  {
    if n > 0 {
      AdvanceReachesResults(Next(s), n - 1);
    }
  }

  /** Starting with the intro filled, |QUESTIONS| presses of Next after
      the start land on the results, and one press fewer does not. */
  lemma FullWalkShowsResults(s: Session)
    requires Valid(s) && !s.showResults && IntroComplete(s.form)
    ensures Advance(StartAssessment(s), |QUESTIONS|).showResults
    ensures !Advance(StartAssessment(s), |QUESTIONS| - 1).showResults
  {
    AdvanceReachesResults(StartAssessment(s), |QUESTIONS|);
    AdvanceReachesResults(StartAssessment(s), |QUESTIONS| - 1);
  }

  /** On a page drawn from a fully answered form the next button is enabled,
      and `handleNext` redraws the page, so pressing it behaves exactly like
      `handleNext` until the results show. */
  lemma {:induction false} AnsweredWalk(s: Session, n: nat)
    requires Valid(s) && 0 <= s.step && IntroComplete(s.form) && Fresh(s)
    requires s.showResults ==> s.step == LastStep
    requires forall i :: 0 <= i < |QUESTIONS| ==> Chosen(s.form, i)
    ensures Run(s, seq(n, _ => Forward)) == Advance(s, n)
    decreases n
  {
    if n > 0 {
      var events := seq(n, _ => Forward);
      assert events[0] == Forward && events[1..] == seq(n - 1, _ => Forward);
      if !s.showResults {
        ChoiceValuesDistinct();
        assert Chosen(s.form, s.step);
        assert Enabled(s, Forward);
      }
      AnsweredWalk(Next(s), n - 1);
    }
  }

  /** On the first question of a fully answered form, drawn as it is,
      |QUESTIONS| presses of the next button reach the results. */
  lemma AnsweredWalkShowsResults(s: Session)
    requires s.step == 0 && !s.showResults && IntroComplete(s.form) && Fresh(s)
    requires forall i :: 0 <= i < |QUESTIONS| ==> Chosen(s.form, i)
    ensures Run(s, seq(|QUESTIONS|, _ => Forward)).showResults
  {
    AnsweredWalk(s, |QUESTIONS|);
    AdvanceReachesResults(s, |QUESTIONS|);
  }

  /** Back undoes Next anywhere before the last question, the intro
      included. */
  lemma BackUndoesNext(s: Session)
    requires -1 <= s.step < LastStep
    ensures Back(Next(s)) == Render(s)
    ensures Fresh(s) ==> Back(Next(s)) == s
  {
  }

  /** Next undoes Back on every question, the first one included. */
  lemma NextUndoesBack(s: Session)
    requires 0 <= s.step <= LastStep
    ensures Next(Back(s)) == Render(s)
    ensures Fresh(s) ==> Next(Back(s)) == s
  {
  }

  /** Reset always returns to the intro screen. */
  lemma ResetShowsIntro(s: Session)
    ensures ScreenOf(Reset(s)) == Intro
  {
  }

  /** The start button opens the first question when the intro is filled
      and the results are not showing, and otherwise leaves the screen as
      it was. */
  lemma StartShowsFirstQuestion(s: Session)
    ensures !s.showResults && IntroComplete(s.form) ==> ScreenOf(StartAssessment(s)) == QuestionScreen(0)
    ensures !IntroComplete(s.form) ==> ScreenOf(StartAssessment(s)) == ScreenOf(s)
  {
  }

  /** Opening then closing the contact form keeps the prefilled contact. */
  lemma ToggleTwice(s: Session)
    requires !s.showContactForm
    ensures var r := ToggleContactForm(ToggleContactForm(s));
            !r.showContactForm && r.contact == Prefill(s.form) && r == Render(s).(contact := r.contact)
  {
  }

  /** A freshly opened contact form cannot be submitted: its email is empty. */
  lemma FreshContactRejected(s: Session)
    requires !s.showContactForm
    ensures !ContactSubmit(ToggleContactForm(s)).accepted
  {
  }

  /** An empty form scores nothing. */
  lemma EmptyFormScoresZero()
    ensures ScoresOf(EmptyForm()) == Zero
  {
    var f := EmptyForm();
    TallyTotal(QUESTIONS, f);
    var cs := Contributions(QUESTIONS, f);
    assert forall i :: 0 <= i < |cs| ==> cs[i].None?;
    assert Answered(QUESTIONS, f) == {};
  }
}

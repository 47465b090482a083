/** Tallying answers into archetype scores.

    Scores are kept in integer tenths: an entry of 3 stands for the 0.3 that
    three `+= 0.1` steps produce. For the at most ten additions the catalog
    allows, two such sums are equal exactly when their counts are, and each
    compares with the literals 0.2, 0.3 and 0.4 as its count compares with
    2, 3 and 4, so every decision the classifier takes on the doubles it
    takes identically on the counts. */
module ArchetypeScoring {
  import opened Wrappers
  import opened Archetypes

  /** A score vector in tenths, one entry per archetype. */
  datatype Scores = Scores(architect: nat, visionary: nat, accelerator: nat, entrepreneur: nat)
  {
    function Get(a: Archetype): (r: nat)
      ensures r <= Total()
    {
      match a
      case Architect => architect
      case Visionary => visionary
      case Accelerator => accelerator
      case Entrepreneur => entrepreneur
    }

    /** Adds one tenth to the entry of `a`. */
    function Bump(a: Archetype): (r: Scores)
      ensures r.Get(a) == Get(a) + 1
      ensures forall b :: b != a ==> r.Get(b) == Get(b)
      ensures r.Total() == Total() + 1
    {
      match a
      case Architect => this.(architect := architect + 1)
      case Visionary => this.(visionary := visionary + 1)
      case Accelerator => this.(accelerator := accelerator + 1)
      case Entrepreneur => this.(entrepreneur := entrepreneur + 1)
    }

    function Total(): nat
    {
      architect + visionary + accelerator + entrepreneur
    }
  }

  /** Every archetype starts at zero. */
  const Zero: Scores := Scores(0, 0, 0, 0)

  /** The form's field values by field name. */
  type FormData = map<string, string>

  /** The stored answer for a field; a missing field reads as the empty
      string, which is falsy exactly like `undefined`. */
  function Answer(form: FormData, id: string): string
  {
    if id in form then form[id] else ""
  }

  /** The first option whose value is `v`, if any. */
  function Find(options: seq<Choice>, v: string): (r: Option<Choice>)
    ensures r.None? <==> forall k :: 0 <= k < |options| ==> options[k].value != v
    ensures r.Some? ==> exists k :: 0 <= k < |options| && options[k] == r.value &&
                          options[k].value == v &&
                          forall m :: 0 <= m < k ==> options[m].value != v
  {
    if |options| == 0 then None
    else if options[0].value == v then Some(options[0])
    else
      var r := Find(options[1..], v);
      assert r.Some? ==> exists k :: 1 <= k < |options| && options[k] == r.value &&
                           options[k].value == v &&
                           forall m :: 0 <= m < k ==> options[m].value != v;
      r
  }

  /** The archetype a question's answer scores for, if any: nothing for an
      empty answer or one that matches no option. */
  function Contribution(q: Question, form: FormData): Option<Archetype>
  {
    var answer := Answer(form, q.id);
    if answer == "" then None
    else match Find(q.options, answer)
      case None => None
      case Some(choice) => Some(choice.archetype)
  }

  /** The scores after visiting `qs` in order, one tenth per scoring answer. */
  function Tally(qs: seq<Question>, form: FormData): Scores
  {
    if |qs| == 0 then Zero
    else
      var before := Tally(qs[..|qs| - 1], form);
      match Contribution(qs[|qs| - 1], form)
      case None => before
      case Some(a) => before.Bump(a)
  }

  /** The scores of a form over the whole catalog. */
  function ScoresOf(form: FormData): Scores
  {
    Tally(QUESTIONS, form)
  }

  /** What each question of `qs` scores for, position by position. */
  function Contributions(qs: seq<Question>, form: FormData): (cs: seq<Option<Archetype>>)
    ensures |cs| == |qs|
    ensures forall i :: 0 <= i < |qs| ==> cs[i] == Contribution(qs[i], form)
  {
    if |qs| == 0 then []
    else Contributions(qs[..|qs| - 1], form) + [Contribution(qs[|qs| - 1], form)]
  }

  /** Positions of the questions whose answer scores for `a`. */
  function Votes(qs: seq<Question>, form: FormData, a: Archetype): set<nat>
  {
    VotesIn(Contributions(qs, form), a)
  }

  /** Positions of the questions whose answer scores at all. */
  function Answered(qs: seq<Question>, form: FormData): set<nat>
  {
    ScoringIn(Contributions(qs, form))
  }

  function VotesIn(cs: seq<Option<Archetype>>, a: Archetype): set<nat>
  {
    set i: nat | i < |cs| && cs[i] == Some(a)
  }

  function ScoringIn(cs: seq<Option<Archetype>>): set<nat>
  {
    set i: nat | i < |cs| && cs[i].Some?
  }

  /** A catalog question scores for `a` exactly when its answer is non-empty
      and is the value of the option belonging to `a`; any other answer adds
      nothing. */
  lemma ContributionSpec(i: nat, form: FormData, a: Archetype)
    requires i < |QUESTIONS|
    ensures Contribution(QUESTIONS[i], form) == Some(a) <==>
              var q := QUESTIONS[i];
              Answer(form, q.id) != "" &&
              exists k :: 0 <= k < |q.options| && q.options[k].value == Answer(form, q.id) &&
                          q.options[k].archetype == a
    ensures Contribution(QUESTIONS[i], form).None? <==>
              var q := QUESTIONS[i];
              Answer(form, q.id) == "" ||
              forall k :: 0 <= k < |q.options| ==> q.options[k].value != Answer(form, q.id)
  {
    ChoiceValuesDistinct();
    var q := QUESTIONS[i];
    var answer := Answer(form, q.id);
    if answer != "" {
      match Find(q.options, answer)
      case None =>
      case Some(c) =>
        var k :| 0 <= k < |q.options| && q.options[k] == c && c.value == answer;
        assert forall m :: 0 <= m < |q.options| && q.options[m].value == answer ==> m == k;
    }
  }

  /** Each score counts the questions whose answer voted for its archetype. */
  lemma TallyCounts(qs: seq<Question>, form: FormData)
    ensures forall a :: Tally(qs, form).Get(a) == |Votes(qs, form, a)|
  {
    forall a
      ensures Tally(qs, form).Get(a) == |Votes(qs, form, a)|
    {
      TallyCount(qs, form, a);
    }
  }

  lemma {:induction false} TallyCount(qs: seq<Question>, form: FormData, a: Archetype)
    ensures Tally(qs, form).Get(a) == |Votes(qs, form, a)|
    decreases |qs|
  {
    var cs := Contributions(qs, form);
    if |qs| == 0 {
      assert VotesIn(cs, a) == {};
    } else {
      var n := |qs| - 1;
      TallyCount(qs[..n], form, a);
      assert cs[..n] == Contributions(qs[..n], form);
      VotesStep(cs, a);
      assert cs[n] == Contribution(qs[n], form);
    }
  }

  /** The total counts the questions whose answer scored at all, so neither
      the total nor any entry exceeds the number of questions. */
  lemma {:induction false} TallyTotal(qs: seq<Question>, form: FormData)
    ensures Tally(qs, form).Total() == |Answered(qs, form)| <= |qs|
    ensures forall a :: Tally(qs, form).Get(a) <= |qs|
    decreases |qs|
  {
    var cs := Contributions(qs, form);
    if |qs| == 0 {
      assert ScoringIn(cs) == {};
    } else {
      var n := |qs| - 1;
      TallyTotal(qs[..n], form);
      assert cs[..n] == Contributions(qs[..n], form);
      ScoringStep(cs);
      assert cs[n] == Contribution(qs[n], form);
    }
  }

  lemma VotesStep(cs: seq<Option<Archetype>>, a: Archetype)
    requires |cs| > 0
    ensures |VotesIn(cs, a)| == |VotesIn(cs[..|cs| - 1], a)| + (if cs[|cs| - 1] == Some(a) then 1 else 0)
  {
    var n := |cs| - 1;
    var before := VotesIn(cs[..n], a);
    assert forall i: nat :: i in before <==> i < n && cs[i] == Some(a);
    if cs[n] == Some(a) {
      assert VotesIn(cs, a) == before + {n};
    } else {
      assert VotesIn(cs, a) == before;
    }
  }

  lemma ScoringStep(cs: seq<Option<Archetype>>)
    requires |cs| > 0
    ensures |ScoringIn(cs)| == |ScoringIn(cs[..|cs| - 1])| + (if cs[|cs| - 1].Some? then 1 else 0)
  {
    var n := |cs| - 1;
    var before := ScoringIn(cs[..n]);
    assert forall i: nat :: i in before <==> i < n && cs[i].Some?;
    if cs[n].Some? {
      assert ScoringIn(cs) == before + {n};
    } else {
      assert ScoringIn(cs) == before;
    }
  }

  /** When every question's answer scores, the total is the number of questions. */
  lemma {:induction false} AllScoringTotal(qs: seq<Question>, form: FormData)
    requires forall i :: 0 <= i < |qs| ==> Contribution(qs[i], form).Some?
    ensures Tally(qs, form).Total() == |qs|
    decreases |qs|
  {
    if |qs| > 0 {
      AllScoringTotal(qs[..|qs| - 1], form);
    }
  }

  /** Question `i` holds the value of one of its own options. */
  predicate Chosen(form: FormData, i: int)
    requires 0 <= i < |QUESTIONS|
  {
    exists k :: 0 <= k < |QUESTIONS[i].options| && QUESTIONS[i].options[k].value == Answer(form, QUESTIONS[i].id)
  }

  /** A form answering all ten questions with one of their options scores
      ten tenths in all, that is 1.0. */
  lemma FullFormScoresTen(form: FormData)
    requires forall i :: 0 <= i < |QUESTIONS| ==> Chosen(form, i)
    ensures ScoresOf(form).Total() == 10
  {
    QuestionIdsDistinct();
    forall i | 0 <= i < |QUESTIONS|
      ensures Contribution(QUESTIONS[i], form).Some?
    {
      assert Chosen(form, i);
      ChoiceValuesDistinct();
      ContributionSpec(i, form, Architect);
    }
    AllScoringTotal(QUESTIONS, form);
  }

  /** The `forEach` loop of the scorer: visits the catalog in order and adds
      one tenth for each answer that matches an option. */
  method CalculateScores(form: FormData) returns (scores: Scores)
    ensures scores == ScoresOf(form)
    ensures forall a :: scores.Get(a) == |Votes(QUESTIONS, form, a)|
    ensures scores.Total() == |Answered(QUESTIONS, form)| <= |QUESTIONS|
  {
    scores := Zero;
    for i := 0 to |QUESTIONS|
      invariant scores == Tally(QUESTIONS[..i], form)
    {
      var q := QUESTIONS[i];
      var answer := Answer(form, q.id);
      if answer != "" {
        var selected := Find(q.options, answer);
        if selected.Some? {
          scores := scores.Bump(selected.value.archetype);
        }
      }
      assert QUESTIONS[..i + 1][..i] == QUESTIONS[..i];
    }
    assert QUESTIONS[..|QUESTIONS|] == QUESTIONS;
    TallyCounts(QUESTIONS, form);
    TallyTotal(QUESTIONS, form);
  }
}

/** The static tables of the archetype assessment: the four archetypes, the
    ten-question catalog and the keys of the description table. */
module Archetypes {

  /** The four archetypes, in the order in which the score object declares them. */
  datatype Archetype = Architect | Visionary | Accelerator | Entrepreneur

  /** Declaration order of the score object's keys, which is the order
      `Object.entries` enumerates them in. */
  const Declared: seq<Archetype> := [Architect, Visionary, Accelerator, Entrepreneur]

  /** Position of an archetype in `Declared`. */
  function Rank(a: Archetype): (k: nat)
    ensures k < |Declared| && Declared[k] == a
  {
    match a
    case Architect => 0
    case Visionary => 1
    case Accelerator => 2
    case Entrepreneur => 3
  }

  /** The lower-case tag an archetype carries in the data and in description keys. */
  function Tag(a: Archetype): string
  {
    match a
    case Architect => "architect"
    case Visionary => "visionary"
    case Accelerator => "accelerator"
    case Entrepreneur => "entrepreneur"
  }

  lemma TagInjective(a: Archetype, b: Archetype)
    ensures Tag(a) == Tag(b) <==> a == b
  {
  }

  /** One answer option: the value the form stores and the archetype it scores for. */
  datatype Choice = Choice(value: string, archetype: Archetype)

  /** One catalog question; its prompt and option labels are display text. */
  datatype Question = Question(id: string, options: seq<Choice>)

  function Q(id: string, architect: string, visionary: string, accelerator: string, entrepreneur: string): Question
  {
    Question(id, [Choice(architect, Architect), Choice(visionary, Visionary),
                  Choice(accelerator, Accelerator), Choice(entrepreneur, Entrepreneur)])
  }

  const QUESTIONS: seq<Question> := [
    Q("timeline", "strategic", "breakthrough", "kpis", "quickWins"),
    Q("decisionMaking", "formal", "vision", "data", "quick"),
    Q("innovation", "proven", "breakthrough", "test", "fast"),
    Q("partnership", "strategic", "creative", "optimization", "growth"),
    Q("budget", "planned", "bigIdeas", "performance", "scale"),
    Q("creative", "compliance", "push", "conversion", "works"),
    Q("communication", "formal", "creative", "dashboards", "quick"),
    Q("competitive", "positioning", "cultural", "metrics", "window"),
    Q("agencyIdeas", "strategic", "breakthrough", "optimization", "results"),
    Q("pastLessons", "process", "mediocrity", "performance", "slow")
  ]

  /** The catalog has ten questions and no two share an id. */
  lemma QuestionIdsDistinct()
    ensures |QUESTIONS| == 10
    ensures forall i, j :: 0 <= i < j < |QUESTIONS| ==> QUESTIONS[i].id != QUESTIONS[j].id
  {
  }

  /** Every question offers exactly four options, one per archetype, listed in
      declaration order; hence each archetype is scored by exactly one option. */
  lemma OneChoicePerArchetype()
    ensures forall i :: 0 <= i < |QUESTIONS| ==> |QUESTIONS[i].options| == 4
    ensures forall i, k :: 0 <= i < |QUESTIONS| && 0 <= k < |QUESTIONS[i].options| ==>
              QUESTIONS[i].options[k].archetype == Declared[k]
  {
  }

  /** Within a question option values are non-empty and pairwise distinct, so
      looking an answer up by value finds at most one option. */
  lemma ChoiceValuesDistinct()
    ensures forall i, k :: 0 <= i < |QUESTIONS| && 0 <= k < |QUESTIONS[i].options| ==>
              QUESTIONS[i].options[k].value != ""
    ensures forall i, k, m :: 0 <= i < |QUESTIONS| && 0 <= k < m < |QUESTIONS[i].options| ==>
              QUESTIONS[i].options[k].value != QUESTIONS[i].options[m].value
  {
  }

  /** A description entry; the body text is display prose and is not modelled. */
  datatype Description = Description(title: string)

  const MULTIPLE: string := "multiple"

  const ARCHETYPE_DESCRIPTIONS: map<string, Description> := map[
    "architect" := Description("ARCHITECT"),
    "visionary" := Description("VISIONARY"),
    "accelerator" := Description("ACCELERATOR"),
    "entrepreneur" := Description("ENTREPRENEUR"),
    "accelerator-architect" := Description("ARCHITECT & ACCELERATOR"),
    "accelerator-entrepreneur" := Description("ACCELERATOR & ENTREPRENEUR"),
    "accelerator-visionary" := Description("VISIONARY & ACCELERATOR"),
    "architect-entrepreneur" := Description("ARCHITECT & ENTREPRENEUR"),
    "architect-visionary" := Description("ARCHITECT & VISIONARY"),
    "entrepreneur-visionary" := Description("VISIONARY & ENTREPRENEUR"),
    "multiple" := Description("MIXED EXPECTATIONS")
  ]

  /** Strict lexicographic order on strings by character code, the order the
      default `Array.prototype.sort` uses on these ASCII tags. */
  predicate LexLess(x: string, y: string)
    decreases |x|
  {
    if |x| == 0 then |y| > 0
    else if |y| == 0 then false
    else x[0] < y[0] || (x[0] == y[0] && LexLess(x[1..], y[1..]))
  }

  /** The description key of a blend: the two tags in alphabetical order joined by `-`. */
  function PairKey(a: Archetype, b: Archetype): string
  {
    if LexLess(Tag(b), Tag(a)) then Tag(b) + "-" + Tag(a) else Tag(a) + "-" + Tag(b)
  }

  /** The table holds the four single tags, the fallback `multiple`, and one
      key per unordered pair of distinct archetypes: eleven keys in all. */
  lemma DescriptionKeys()
    ensures forall a :: Tag(a) in ARCHETYPE_DESCRIPTIONS
    ensures MULTIPLE in ARCHETYPE_DESCRIPTIONS
    ensures forall a, b :: a != b ==> PairKey(a, b) in ARCHETYPE_DESCRIPTIONS
    ensures |ARCHETYPE_DESCRIPTIONS| == 11
  {
    forall a, b | a != b
      ensures PairKey(a, b) in ARCHETYPE_DESCRIPTIONS
    {
      PairKeyInTable(a, b);
    }
    DescriptionCount();
  }

  /** The table literal lists eleven distinct keys. */
  lemma DescriptionCount()
    ensures |ARCHETYPE_DESCRIPTIONS| == 11
  {
  }

  /** Alphabetical position of each tag. */
  function AlphaRank(a: Archetype): nat
  {
    match a
    case Accelerator => 0
    case Architect => 1
    case Entrepreneur => 2
    case Visionary => 3
  }

  /** Comparing two tags lexicographically agrees with their alphabetical positions. */
  lemma TagLexOrder(a: Archetype, b: Archetype)
    ensures LexLess(Tag(a), Tag(b)) <==> AlphaRank(a) < AlphaRank(b)
  {
    if a == b {
      LexLessIrreflexive(Tag(a));
    } else if {a, b} == {Accelerator, Architect} {
      var x, y := Tag(a), Tag(b);
      assert x[0] == y[0] == 'a';
      assert LexLess(x, y) == LexLess(x[1..], y[1..]);
      LexLessFirst(x[1..], y[1..]);
    } else {
      LexLessFirst(Tag(a), Tag(b));
    }
  }

  lemma LexLessFirst(x: string, y: string)
    requires |x| > 0 && |y| > 0
    ensures x[0] < y[0] ==> LexLess(x, y)
    ensures x[0] > y[0] ==> !LexLess(x, y)
  {
  }

  lemma {:induction false} LexLessIrreflexive(x: string)
    ensures !LexLess(x, x)
    decreases |x|
  {
    if |x| > 0 {
      LexLessIrreflexive(x[1..]);
    }
  }

  lemma PairKeyInTable(a: Archetype, b: Archetype)
    requires a != b
    ensures PairKey(a, b) in ARCHETYPE_DESCRIPTIONS
  {
    TagLexOrder(b, a);
    if AlphaRank(b) < AlphaRank(a) {
      JoinedInTable(b, a);
    } else {
      JoinedInTable(a, b);
    }
  }

  lemma JoinedInTable(lo: Archetype, hi: Archetype)
    requires AlphaRank(lo) < AlphaRank(hi)
    ensures Tag(lo) + "-" + Tag(hi) in ARCHETYPE_DESCRIPTIONS
  {
    var k := Tag(lo) + "-" + Tag(hi);
    match (lo, hi)
    case (Accelerator, Architect) => assert k == "accelerator-architect";
    case (Accelerator, Entrepreneur) => assert k == "accelerator-entrepreneur";
    case (Accelerator, Visionary) => assert k == "accelerator-visionary";
    case (Architect, Entrepreneur) => assert k == "architect-entrepreneur";
    case (Architect, Visionary) => assert k == "architect-visionary";
    case (Entrepreneur, Visionary) => assert k == "entrepreneur-visionary";
  }

}

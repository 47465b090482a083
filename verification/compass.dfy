/** The compass teaser: eight sliders averaged into a percentage, a
    description naming the three weakest attributes, and a contact form that
    posts the result. Rendering, timers, scrolling and the network call are
    side effects; the webhook's answer enters as a boolean. */
module Compass {
  import opened Wrappers
  import opened CompassData

  /** Slider positions by question id. */
  type Sliders = map<string, Ordinal>

  /** Every catalog question has a slider position. */
  predicate Complete(sliders: Sliders)
  {
    forall k :: 0 <= k < |COMPASS_QUESTIONS| ==> COMPASS_QUESTIONS[k].id in sliders
  }

  /** Only catalog questions have slider positions. */
  predicate OnlyCatalog(sliders: Sliders)
  {
    forall id :: id in sliders ==> exists k :: 0 <= k < |COMPASS_QUESTIONS| && COMPASS_QUESTIONS[k].id == id
  }

  /** Every catalog slider at its middle position 3. */
  function DefaultSliders(): (m: Sliders)
    ensures Complete(m) && OnlyCatalog(m)
    ensures forall k :: 0 <= k < |COMPASS_QUESTIONS| ==> m[COMPASS_QUESTIONS[k].id] == 3
  {
    map k | 0 <= k < |COMPASS_QUESTIONS| :: COMPASS_QUESTIONS[k].id := 3
  }

  // ---------------------------------------------------------------- scores

  /** One attribute's display name and percentage. */
  datatype Scored = Scored(name: string, score: nat)

  predicate Named(qs: seq<CompassQuestion>, sliders: Sliders)
  {
    forall k :: 0 <= k < |qs| ==> qs[k].id in sliders && qs[k].id in ATTRIBUTE_NAMES
  }

  /** The entry `calculateScore` pushes for one question. */
  function Entry(q: CompassQuestion, sliders: Sliders): (e: Scored)
    requires q.id in sliders && q.id in ATTRIBUTE_NAMES
    ensures e.name == ATTRIBUTE_NAMES[q.id] && e.score == SCORE_MAP[sliders[q.id]]
    ensures 15 <= e.score <= 100
  {
    Scored(ATTRIBUTE_NAMES[q.id], ScoreOf(sliders[q.id]))
  }

  /** The entries for `qs`, in order. */
  function ScoreList(qs: seq<CompassQuestion>, sliders: Sliders): (r: seq<Scored>)
    requires Named(qs, sliders)
    ensures |r| == |qs|
    ensures forall k :: 0 <= k < |qs| ==> r[k] == Entry(qs[k], sliders)
    decreases |qs|
  {
    if |qs| == 0 then [] else ScoreList(qs[..|qs| - 1], sliders) + [Entry(qs[|qs| - 1], sliders)]
  }

  lemma CatalogNamed(sliders: Sliders)
    requires Complete(sliders)
    ensures Named(COMPASS_QUESTIONS, sliders)
  {
    AttributeNamesCover();
  }

  function Sum(xs: seq<Scored>): int
    decreases |xs|
  {
    if |xs| == 0 then 0 else Sum(xs[..|xs| - 1]) + xs[|xs| - 1].score
  }

  /** The mean of the eight percentages rounded to the nearest integer, a
      half rounding up, as `Math.round` does. */
  function Average(total: int): (avg: int)
    ensures 8 * avg - 4 <= total < 8 * avg + 4
  {
    (total + 4) / 8
  }

  /** Only one integer lies within half a unit (ties upwards) of `total / 8`. */
  lemma AverageUnique(total: int, a: int)
    requires 8 * a - 4 <= total < 8 * a + 4
    ensures a == Average(total)
  {
  }

  /** What `calculateScore` returns. */
  datatype Calculation = Calculation(avg: int, scores: seq<Scored>)

  function Calculate(sliders: Sliders): (c: Calculation)
    requires Complete(sliders)
    ensures |c.scores| == |COMPASS_QUESTIONS|
  {
    CatalogNamed(sliders);
    var scores := ScoreList(COMPASS_QUESTIONS, sliders);
    Calculation(Average(Sum(scores)), scores)
  }

  /** `calculateScore`: one entry per question in catalog order, holding the
      attribute's display name and its slider's percentage, and their mean
      rounded half up. */
  method CalculateScore(sliders: Sliders) returns (avg: int, scores: seq<Scored>)
    requires Complete(sliders)
    ensures |scores| == |COMPASS_QUESTIONS|
    ensures forall k :: 0 <= k < |scores| ==>
              var id := COMPASS_QUESTIONS[k].id;
              id in ATTRIBUTE_NAMES && scores[k].name == ATTRIBUTE_NAMES[id] &&
              scores[k].score == SCORE_MAP[sliders[id]]
    ensures 8 * avg - 4 <= Sum(scores) < 8 * avg + 4
    ensures 15 <= avg <= 100
    ensures Calculation(avg, scores) == Calculate(sliders)
  {
    CatalogNamed(sliders);
    scores := [];
    for i := 0 to |COMPASS_QUESTIONS|
      invariant scores == ScoreList(COMPASS_QUESTIONS[..i], sliders)
    {
      assert COMPASS_QUESTIONS[..i + 1][..i] == COMPASS_QUESTIONS[..i];
      scores := scores + [Entry(COMPASS_QUESTIONS[i], sliders)];
    }
    assert COMPASS_QUESTIONS[..|COMPASS_QUESTIONS|] == COMPASS_QUESTIONS;
    var total := Total(scores);
    avg := (total + 4) / 8;
    SumBounds(scores);
  }

  /** The `reduce` that adds the entries' percentages up. */
  method Total(scores: seq<Scored>) returns (total: int)
    ensures total == Sum(scores)
  {
    total := 0;
    for i := 0 to |scores|
      invariant total == Sum(scores[..i])
    {
      assert scores[..i + 1][..i] == scores[..i];
      total := total + scores[i].score;
    }
    assert scores[..|scores|] == scores;
  }

  /** Eight percentages between 15 and 100 sum to between 8 * 15 and 8 * 100. */
  lemma {:induction false} SumBounds(xs: seq<Scored>)
    requires forall k :: 0 <= k < |xs| ==> 15 <= xs[k].score <= 100
    ensures 15 * |xs| <= Sum(xs) <= 100 * |xs|
    decreases |xs|
  {
    if |xs| > 0 {
      SumBounds(xs[..|xs| - 1]);
    }
  }

  /** The average of any complete set of sliders is a percentage between
      the lowest and highest map entries. */
  lemma AverageBounds(sliders: Sliders)
    requires Complete(sliders)
    ensures 15 <= Calculate(sliders).avg <= 100
  {
    var scores := Calculate(sliders).scores;
    CompassCatalog();
    CatalogNamed(sliders);
    assert scores == ScoreList(COMPASS_QUESTIONS, sliders);
    assert forall k :: 0 <= k < |scores| ==> scores[k] == Entry(COMPASS_QUESTIONS[k], sliders);
    SumBounds(scores);
    assert 120 <= Sum(scores) <= 800;
  }

  lemma {:induction false} SumConstant(xs: seq<Scored>, v: nat)
    requires forall k :: 0 <= k < |xs| ==> xs[k].score == v
    ensures Sum(xs) == v * |xs|
    decreases |xs|
  {
    if |xs| > 0 {
      SumConstant(xs[..|xs| - 1], v);
    }
  }

  /** Sliders all at one position all score that position's percentage. */
  lemma UniformScores(sliders: Sliders, v: Ordinal)
    requires Complete(sliders)
    requires forall k :: 0 <= k < |COMPASS_QUESTIONS| ==> sliders[COMPASS_QUESTIONS[k].id] == v
    ensures forall k :: 0 <= k < |Calculate(sliders).scores| ==> Calculate(sliders).scores[k].score == ScoreOf(v)
  {
    var scores := Calculate(sliders).scores;
    CatalogNamed(sliders);
    assert scores == ScoreList(COMPASS_QUESTIONS, sliders);
    forall k | 0 <= k < |scores|
      ensures scores[k].score == ScoreOf(v)
    {
      assert scores[k] == Entry(COMPASS_QUESTIONS[k], sliders);
    }
  }

  /** Untouched sliders average to 60. */
  lemma DefaultAverage()
    ensures Calculate(DefaultSliders()).avg == 60
  {
    var c := Calculate(DefaultSliders());
    UniformScores(DefaultSliders(), 3);
    ScoreMapStrictlyIncreasing(3, 3);
    SumConstant(c.scores, 60);
    CompassCatalog();
    assert Sum(c.scores) == 480;
  }

  lemma {:induction false} SumMonotone(xs: seq<Scored>, ys: seq<Scored>)
    requires |xs| == |ys|
    requires forall k :: 0 <= k < |xs| ==> xs[k].score <= ys[k].score
    ensures Sum(xs) <= Sum(ys)
    decreases |xs|
  {
    if |xs| > 0 {
      SumMonotone(xs[..|xs| - 1], ys[..|ys| - 1]);
    }
  }

  /** Moving one slider up never lowers the average, and moving it changes
      only that attribute's entry. */
  lemma SliderRaisesAverage(sliders: Sliders, id: string, u: Ordinal, v: Ordinal)
    requires Complete(sliders) && u <= v
    ensures Calculate(sliders[id := u]).avg <= Calculate(sliders[id := v]).avg
    ensures forall k :: 0 <= k < |COMPASS_QUESTIONS| && COMPASS_QUESTIONS[k].id != id ==>
              Calculate(sliders[id := u]).scores[k] == Calculate(sliders).scores[k]
  {
    var a, b := Calculate(sliders[id := u]).scores, Calculate(sliders[id := v]).scores;
    forall k | 0 <= k < |COMPASS_QUESTIONS|
      ensures a[k].score <= b[k].score
      ensures COMPASS_QUESTIONS[k].id != id ==> a[k] == Calculate(sliders).scores[k]
    {
      SliderEntry(sliders, id, u, v, k);
    }
    SumMonotone(a, b);
  }

  /** Entry `k` under the two slider positions, and against the unmoved sliders. */
  lemma SliderEntry(sliders: Sliders, id: string, u: Ordinal, v: Ordinal, k: int)
    requires Complete(sliders) && u <= v && 0 <= k < |COMPASS_QUESTIONS|
    ensures Calculate(sliders[id := u]).scores[k].score <= Calculate(sliders[id := v]).scores[k].score
    ensures COMPASS_QUESTIONS[k].id != id ==> Calculate(sliders[id := u]).scores[k] == Calculate(sliders).scores[k]
  {
    var lo, hi := sliders[id := u], sliders[id := v];
    CatalogNamed(sliders);
    CatalogNamed(lo);
    CatalogNamed(hi);
    ScoreMapStrictlyIncreasing(u, v);
    assert Calculate(lo).scores[k] == Entry(COMPASS_QUESTIONS[k], lo);
    assert Calculate(hi).scores[k] == Entry(COMPASS_QUESTIONS[k], hi);
    assert Calculate(sliders).scores[k] == Entry(COMPASS_QUESTIONS[k], sliders);
  }

  // ---------------------------------------------------------- stable sort

  predicate Ascending(xs: seq<Scored>)
  {
    forall i, j :: 0 <= i < j < |xs| ==> xs[i].score <= xs[j].score
  }

  /** Places `x` in front of the first entry scoring at least as much, so
      it stays ahead of the equal entries that came after it in the input. */
  function Insert(x: Scored, ys: seq<Scored>): (r: seq<Scored>)
    ensures |r| == |ys| + 1
    ensures multiset(r) == multiset(ys) + multiset{x}
    decreases |ys|
  {
    if |ys| == 0 || x.score <= ys[0].score then [x] + ys
    else
      assert ys == [ys[0]] + ys[1..];
      [ys[0]] + Insert(x, ys[1..])
  }

  lemma {:induction false} InsertAscending(x: Scored, ys: seq<Scored>)
    requires Ascending(ys)
    ensures Ascending(Insert(x, ys))
    decreases |ys|
  {
    if |ys| > 0 && x.score > ys[0].score {
      var tail := Insert(x, ys[1..]);
      InsertAscending(x, ys[1..]);
      assert ys == [ys[0]] + ys[1..];
      forall j | 0 <= j < |tail|
        ensures ys[0].score <= tail[j].score
      {
        assert tail[j] in multiset(tail);
        assert tail[j] == x || tail[j] in multiset(ys[1..]);
      }
      assert Insert(x, ys) == [ys[0]] + tail;
    }
  }

  /** The entries sorted by ascending score, ties kept in input order, on a
      copy: ascending by score, a permutation of the input. */
  function SortAscending(xs: seq<Scored>): (r: seq<Scored>)
    ensures |r| == |xs|
    ensures multiset(r) == multiset(xs)
    ensures Ascending(r)
    decreases |xs|
  {
    if |xs| == 0 then []
    else
      assert xs == [xs[0]] + xs[1..];
      var rest := SortAscending(xs[1..]);
      InsertAscending(xs[0], rest);
      Insert(xs[0], rest)
  }

  /** The entries scoring `v`, in order. */
  function WithScore(xs: seq<Scored>, v: nat): seq<Scored>
    decreases |xs|
  {
    if |xs| == 0 then [] else (if xs[0].score == v then [xs[0]] else []) + WithScore(xs[1..], v)
  }

  lemma {:induction false} InsertKeepsTies(x: Scored, ys: seq<Scored>, v: nat)
    ensures WithScore(Insert(x, ys), v) == (if x.score == v then [x] else []) + WithScore(ys, v)
    decreases |ys|
  {
    var r := Insert(x, ys);
    assert WithScore(r, v) == (if r[0].score == v then [r[0]] else []) + WithScore(r[1..], v);
    if |ys| == 0 || x.score <= ys[0].score {
      assert r[0] == x && r[1..] == ys;
    } else {
      InsertKeepsTies(x, ys[1..], v);
      assert r[0] == ys[0] && r[1..] == Insert(x, ys[1..]);
      assert WithScore(ys, v) == (if ys[0].score == v then [ys[0]] else []) + WithScore(ys[1..], v);
    }
  }

  /** The sort is stable: for every score, the entries holding it come out
      in the order they went in. */
  lemma {:induction false} SortStable(xs: seq<Scored>, v: nat)
    ensures WithScore(SortAscending(xs), v) == WithScore(xs, v)
    decreases |xs|
  {
    if |xs| > 0 {
      SortStable(xs[1..], v);
      InsertKeepsTies(xs[0], SortAscending(xs[1..]), v);
    }
  }

  lemma {:induction false} WithScoreAll(xs: seq<Scored>, v: nat)
    requires forall k :: 0 <= k < |xs| ==> xs[k].score == v
    ensures WithScore(xs, v) == xs
    decreases |xs|
  {
    if |xs| > 0 {
      WithScoreAll(xs[1..], v);
      assert xs == [xs[0]] + xs[1..];
    }
  }

  /** When every entry scores the same the sort leaves the list as it is:
      ties keep catalog order. */
  lemma TiesKeepOrder(xs: seq<Scored>, v: nat)
    requires forall k :: 0 <= k < |xs| ==> xs[k].score == v
    ensures SortAscending(xs) == xs
  {
    var r := SortAscending(xs);
    forall k | 0 <= k < |r|
      ensures r[k].score == v
    {
      assert r[k] in multiset(xs);
    }
    SortStable(xs, v);
    WithScoreAll(xs, v);
    WithScoreAll(r, v);
  }

  // ------------------------------------------------------------ lowest 3

  function Names(xs: seq<Scored>): (r: seq<string>)
    ensures |r| == |xs|
    ensures forall k :: 0 <= k < |xs| ==> r[k] == xs[k].name
  {
    seq(|xs|, k requires 0 <= k < |xs| => xs[k].name)
  }

  /** The first three entries of the ascending order, or all of them when
      there are fewer. */
  function Lowest(scores: seq<Scored>): (r: seq<Scored>)
    ensures |r| == if |scores| < 3 then |scores| else 3
    ensures multiset(r) <= multiset(scores)
  {
    var sorted := SortAscending(scores);
    var n := if |sorted| < 3 then |sorted| else 3;
    assert sorted == sorted[..n] + sorted[n..];
    sorted[..n]
  }

  /** No entry left out of the lowest three scores less than any entry in
      it, and the three are in ascending order. */
  lemma LowestAreLowest(scores: seq<Scored>)
    ensures Ascending(Lowest(scores))
    ensures forall y, k :: y in multiset(scores) - multiset(Lowest(scores)) && 0 <= k < |Lowest(scores)| ==>
              Lowest(scores)[k].score <= y.score
  {
    var sorted := SortAscending(scores);
    var n := |Lowest(scores)|;
    assert Lowest(scores) == sorted[..n];
    PrefixIsLowest(sorted, n);
  }

  /** In an ascending list no entry after the first `n` scores less than
      any of them. */
  lemma PrefixIsLowest(sorted: seq<Scored>, n: nat)
    requires Ascending(sorted) && n <= |sorted|
    ensures Ascending(sorted[..n])
    ensures forall y, k :: y in multiset(sorted) - multiset(sorted[..n]) && 0 <= k < n ==>
              sorted[k].score <= y.score
  {
    SuffixRemains(sorted, n);
    forall y: Scored, k | y in multiset(sorted[n..]) && 0 <= k < n
      ensures sorted[k].score <= y.score
    {
      SuffixNotLower(sorted, n, y, k);
    }
  }

  /** An entry past the first `n` of an ascending list scores at least as
      much as each of them. */
  lemma SuffixNotLower(sorted: seq<Scored>, n: nat, y: Scored, k: nat)
    requires Ascending(sorted) && k < n <= |sorted| && y in sorted[n..]
    ensures sorted[k].score <= y.score
  {
    var j :| 0 <= j < |sorted[n..]| && sorted[n..][j] == y;
    assert sorted[n + j] == y;
  }

  /** Taking the first `n` entries out of a list leaves the rest. */
  lemma SuffixRemains(xs: seq<Scored>, n: nat)
    requires n <= |xs|
    ensures multiset(xs) - multiset(xs[..n]) == multiset(xs[n..])
  {
    assert xs == xs[..n] + xs[n..];
  }

  /** `getScoreDescription`: the description for the average, naming the
      three lowest-scoring attributes, ties in catalog order. */
  function GetScoreDescription(avg: int, scores: seq<Scored>): (d: ScoreDescription)
    ensures InBand(avg, d.band)
    ensures avg < 70 && |scores| >= 3 ==> d.named == Names(Lowest(scores))
    ensures avg >= 70 ==> d.named == []
  {
    GetDescription(avg, Names(Lowest(scores)))
  }

  /** With every slider untouched all percentages tie at 60, so the
      description names the first three attributes of the catalog. */
  lemma DefaultDescription()
    ensures GetScoreDescription(Calculate(DefaultSliders()).avg, Calculate(DefaultSliders()).scores)
            == ScoreDescription(Developing, ["Awake", "Aware", "Reflective"])
  {
    DefaultAverage();
    UniformLowest(DefaultSliders(), 3);
  }

  /** Sliders all at one position tie, so the lowest three are the first
      three attributes of the catalog. */
  lemma UniformLowest(sliders: Sliders, v: Ordinal)
    requires Complete(sliders)
    requires forall k :: 0 <= k < |COMPASS_QUESTIONS| ==> sliders[COMPASS_QUESTIONS[k].id] == v
    ensures Names(Lowest(Calculate(sliders).scores)) == ["Awake", "Aware", "Reflective"]
  {
    var scores := Calculate(sliders).scores;
    UniformScores(sliders, v);
    TiesKeepOrder(scores, ScoreOf(v));
    CompassCatalog();
    assert Lowest(scores) == scores[..3];
    AttributeNamesInOrder();
    CatalogNamed(sliders);
    assert scores == ScoreList(COMPASS_QUESTIONS, sliders);
    forall k | 0 <= k < 3
      ensures scores[k].name == ["Awake", "Aware", "Reflective"][k]
    {
      assert scores[k] == Entry(COMPASS_QUESTIONS[k], sliders);
    }
  }

  // ------------------------------------------------------- detailed scores

  /** The score of the first entry named `name`, or 0 when there is none
      (or when that score is itself 0). */
  function FindScore(xs: seq<Scored>, name: string): (r: nat)
    ensures (forall k :: 0 <= k < |xs| ==> xs[k].name != name) ==> r == 0
    ensures forall k :: (0 <= k < |xs| && xs[k].name == name &&
                         (forall m :: 0 <= m < k ==> xs[m].name != name)) ==> r == xs[k].score
    decreases |xs|
  {
    if |xs| == 0 then 0
    else if xs[0].name == name then xs[0].score
    else FindScore(xs[1..], name)
  }

  /** `detailedScores`: each question id against the percentage found
      under its display name. */
  function DetailedScores(scores: seq<Scored>): map<string, nat>
  {
    map id | id in ATTRIBUTE_NAMES :: FindScore(scores, ATTRIBUTE_NAMES[id])
  }

  /** Every catalog id's detailed score is exactly its own slider's
      percentage: display names are distinct, so the lookup by name finds
      the right entry. */
  lemma DetailedScoresMatch(sliders: Sliders)
    requires Complete(sliders)
    ensures forall k :: 0 <= k < |COMPASS_QUESTIONS| ==>
              var id := COMPASS_QUESTIONS[k].id;
              id in DetailedScores(Calculate(sliders).scores) &&
              DetailedScores(Calculate(sliders).scores)[id] == ScoreOf(sliders[id])
  {
    AttributeNamesCover();
    AttributeNamesDistinct();
    var scores := Calculate(sliders).scores;
    forall k | 0 <= k < |COMPASS_QUESTIONS|
      ensures FindScore(scores, ATTRIBUTE_NAMES[COMPASS_QUESTIONS[k].id]) == ScoreOf(sliders[COMPASS_QUESTIONS[k].id])
    {
      var name := ATTRIBUTE_NAMES[COMPASS_QUESTIONS[k].id];
      assert scores[k].name == name;
      assert forall m :: 0 <= m < k ==> scores[m].name != name;
    }
  }

  // --------------------------------------------------------------- webhook

  const PRODUCTION_URL: string := "https://antennagroup.app.n8n.cloud/webhook/14cb2342-5ecc-4dfb-8056-b9a5a2ab61a6"
  const TEST_URL: string := "https://antennagroup.app.n8n.cloud/webhook-test/14cb2342-5ecc-4dfb-8056-b9a5a2ab61a6"
  const URLS: map<string, string> := map["production" := PRODUCTION_URL, "test" := TEST_URL]

  /** `getWebhookUrl` given the app element's `data-mode` attribute (None
      when the element or the attribute is missing): an empty or missing
      mode reads as `production`, and a mode the table lacks falls back to
      the production URL. */
  function WebhookUrl(mode: Option<string>): (url: string)
    ensures url == TEST_URL <==> mode == Some("test")
    ensures url != TEST_URL ==> url == PRODUCTION_URL
  {
    var m := if mode.Some? && mode.value != "" then mode.value else "production";
    if m in URLS && URLS[m] != "" then URLS[m] else URLS["production"]
  }

  // --------------------------------------------------------------- session

  datatype Contact = Contact(name: string, email: string, company: string, message: string)

  datatype ContactField = Name | Email | Company | Message

  const EmptyContact: Contact := Contact("", "", "", "")

  datatype Tone = Success | Failure | Info

  datatype Notification = Notification(show: bool, message: string, tone: Tone)

  datatype State = State(
    showResults: bool,
    showContactForm: bool,
    sliders: Sliders,
    contact: Contact,
    notification: Notification,
    calculatedScore: int)

  /** Every catalog slider has a position, and the shown score is either
      the initial 0 or an average of them. */
  predicate Valid(st: State)
  {
    Complete(st.sliders) && (st.calculatedScore == 0 || 15 <= st.calculatedScore <= 100)
  }

  /** The constructor's state. */
  function Init(): (st: State)
    ensures Valid(st) && st.sliders == DefaultSliders()
    ensures !st.showResults && !st.showContactForm && st.contact == EmptyContact
    ensures !st.notification.show && st.calculatedScore == 0
  {
    State(false, false, DefaultSliders(), EmptyContact, Notification(false, "", Success), 0)
  }

  /** `handleSliderChange`: the one slider moves, every other keeps its
      position. */
  function SliderChange(st: State, id: string, v: Ordinal): (r: State)
    ensures id in r.sliders && r.sliders[id] == v
    ensures forall k :: k != id ==> (k in r.sliders <==> k in st.sliders)
    ensures forall k :: k != id && k in st.sliders ==> r.sliders[k] == st.sliders[k]
    ensures r == st.(sliders := r.sliders)
    ensures Valid(st) ==> Valid(r)
  {
    st.(sliders := st.sliders[id := v])
  }

  /** `showNotification`. */
  function Notify(st: State, message: string, tone: Tone): (r: State)
    ensures r.notification.show && r.notification.message == message && r.notification.tone == tone
    ensures r == st.(notification := r.notification)
  {
    st.(notification := Notification(true, message, tone))
  }

  /** `hideNotification`: the message and its tone stay, they are just not
      shown. */
  function HideNotification(st: State): (r: State)
    ensures !r.notification.show && r.notification.message == st.notification.message
    ensures r.notification.tone == st.notification.tone
    ensures r == st.(notification := r.notification)
  {
    st.(notification := st.notification.(show := false))
  }

  /** `handleShowResults`: the results appear with the current average. */
  function ShowResults(st: State): (r: State)
    requires Complete(st.sliders)
    ensures r.showResults && r.calculatedScore == Calculate(st.sliders).avg
    ensures r == st.(showResults := true, calculatedScore := r.calculatedScore)
    ensures Valid(r)
  {
    AverageBounds(st.sliders);
    st.(showResults := true, calculatedScore := Calculate(st.sliders).avg)
  }

  /** `handleToggleContactForm`. */
  function ToggleContactForm(st: State): (r: State)
    ensures r.showContactForm == !st.showContactForm
    ensures r == st.(showContactForm := r.showContactForm)
  {
    st.(showContactForm := !st.showContactForm)
  }

  /** `handleContactChange`: one contact field takes the value. */
  function ContactChange(st: State, field: ContactField, value: string): (r: State)
    ensures field == Name ==> r.contact == st.contact.(name := value)
    ensures field == Email ==> r.contact == st.contact.(email := value)
    ensures field == Company ==> r.contact == st.contact.(company := value)
    ensures field == Message ==> r.contact == st.contact.(message := value)
    ensures r == st.(contact := r.contact)
  {
    match field
    case Name => st.(contact := st.contact.(name := value))
    case Email => st.(contact := st.contact.(email := value))
    case Company => st.(contact := st.contact.(company := value))
    case Message => st.(contact := st.contact.(message := value))
  }

  /** The required contact fields; the message is optional. */
  predicate ContactReady(c: Contact)
  {
    c.name != "" && c.email != "" && c.company != ""
  }

  /** The body posted to the webhook; the timestamp and the fixed
      assessment-type fields are not modelled. */
  datatype Payload = Payload(contact: Contact, score: int, responses: Sliders, detailedScores: map<string, nat>)

  /** The state after a submission and the payload it posted, if any. */
  datatype Submitted = Submitted(state: State, sent: Option<Payload>)

  const MissingFieldsMessage: string := "Please complete all required fields."
  const ThanksMessage: string := "Thank you! We will be in touch soon."
  const WebhookErrorMessage: string :=
    "There was an error submitting your information. Please check the browser console for details."

  /** `handleContactSubmit` with the webhook's answer `webhookOk`: an
      incomplete contact posts nothing and only shows an error; a complete
      one posts the fresh average, the slider positions and the detailed
      scores, then on success clears the contact and hides the form, and on
      failure only shows an error. */
  function ContactSubmit(st: State, webhookOk: bool): (r: Submitted)
    requires Complete(st.sliders)
    ensures r.sent.Some? <==> ContactReady(st.contact)
    ensures !ContactReady(st.contact) ==> r.state == Notify(st, MissingFieldsMessage, Failure)
    ensures r.sent.Some? ==>
              r.sent.value.contact == st.contact && r.sent.value.responses == st.sliders &&
              r.sent.value.score == Calculate(st.sliders).avg &&
              r.sent.value.detailedScores == DetailedScores(Calculate(st.sliders).scores)
    ensures r.sent.Some? && webhookOk ==>
              r.state == Notify(st, ThanksMessage, Success).(contact := EmptyContact, showContactForm := false)
    ensures r.sent.Some? && !webhookOk ==> r.state == Notify(st, WebhookErrorMessage, Failure)
    ensures Valid(st) ==> Valid(r.state)
  {
    if !ContactReady(st.contact) then
      Submitted(Notify(st, MissingFieldsMessage, Failure), None)
    else
      var c := Calculate(st.sliders);
      var payload := Payload(st.contact, c.avg, st.sliders, DetailedScores(c.scores));
      if webhookOk then
        Submitted(Notify(st, ThanksMessage, Success).(contact := EmptyContact, showContactForm := false), Some(payload))
      else
        Submitted(Notify(st, WebhookErrorMessage, Failure), Some(payload))
  }

  /** `handleTryAgain`: every catalog slider returns to 3 (any other key
      keeps its value), and the results, the contact form and the contact
      are cleared. */
  function TryAgain(st: State): (r: State)
    ensures forall k :: 0 <= k < |COMPASS_QUESTIONS| ==>
              COMPASS_QUESTIONS[k].id in r.sliders && r.sliders[COMPASS_QUESTIONS[k].id] == 3
    ensures forall id :: id in st.sliders && id !in DefaultSliders() ==> id in r.sliders && r.sliders[id] == st.sliders[id]
    ensures r.sliders.Keys == st.sliders.Keys + DefaultSliders().Keys
    ensures !r.showResults && !r.showContactForm && r.contact == EmptyContact
    ensures r.notification == st.notification && r.calculatedScore == st.calculatedScore
    ensures Valid(st) ==> Valid(r)
  {
    st.(sliders := st.sliders + DefaultSliders(), showResults := false, showContactForm := false,
        contact := EmptyContact)
  }

  /** When only catalog sliders exist, trying again is the constructor's
      state apart from the notification and the last shown score. */
  lemma TryAgainRestoresInit(st: State)
    requires OnlyCatalog(st.sliders)
    ensures TryAgain(st) == Init().(notification := st.notification, calculatedScore := st.calculatedScore)
  {
    var d := DefaultSliders();
    forall id | id in st.sliders
      ensures id in d
    {
      var k :| 0 <= k < |COMPASS_QUESTIONS| && COMPASS_QUESTIONS[k].id == id;
    }
    UnionAbsorbed(st.sliders, d);
  }

  lemma UnionAbsorbed(a: Sliders, b: Sliders)
    requires forall id :: id in a ==> id in b
    ensures a + b == b
  {
  }

  /** A user action or timer firing. */
  datatype Event =
    | Slide(id: string, position: Ordinal)
    | SeeResults
    | ToggleContact
    | TypeContact(field: ContactField, value: string)
    | Submit(webhookOk: bool)
    | Retry
    | Hide

  function Apply(st: State, e: Event): (r: State)
    requires Valid(st)
    ensures Valid(r)
  {
    match e
    case Slide(id, v) => SliderChange(st, id, v)
    case SeeResults => ShowResults(st)
    case ToggleContact => ToggleContactForm(st)
    case TypeContact(f, v) => ContactChange(st, f, v)
    case Submit(ok) => ContactSubmit(st, ok).state
    case Retry => TryAgain(st)
    case Hide => HideNotification(st)
  }

  /** The state after a sequence of events, oldest first; each one keeps
      every slider present and the shown score a valid average. */
  function Run(st: State, events: seq<Event>): (r: State)
    requires Valid(st)
    ensures Valid(r)
    decreases |events|
  {
    if |events| == 0 then st else Run(Apply(st, events[0]), events[1..])
  }

  /** Whatever happens after construction, the score shown on the results
      is a percentage the sliders can produce. */
  lemma ReachableScores(events: seq<Event>)
    ensures var st := Run(Init(), events);
            Complete(st.sliders) && (st.calculatedScore == 0 || 15 <= st.calculatedScore <= 100)
  {
  }
}

/** The compass teaser's constant tables: the eight attribute questions, the
    slider-to-percentage map, the display names and the description bands. */
module CompassData {

  /** A slider position; the radio buttons pass the positions 1 to 5. */
  type Ordinal = x: int | 1 <= x <= 5 witness 3

  /** An attribute question; its prompt text is display prose and is not
      modelled, its five slider labels are. */
  datatype CompassQuestion = CompassQuestion(id: string, labels: seq<string>)

  const COMPASS_QUESTIONS: seq<CompassQuestion> := [
    CompassQuestion("awake", ["No influence", "Rarely cited", "Some presence", "Regular voice", "Industry leader"]),
    CompassQuestion("aware", ["Disconnected", "Basic awareness", "Adequate trust", "Strong connection", "Deeply trusted"]),
    CompassQuestion("reflective", ["Inauthentic", "Gaps exist", "Mostly aligned", "Strong alignment", "Fully authentic"]),
    CompassQuestion("attentive", ["Poor quality", "Inconsistent", "Adequate", "High quality", "Flawless"]),
    CompassQuestion("cogent", ["No segmentation", "Limited targeting", "Some targeting", "Effective targeting", "Ongoing optimization"]),
    CompassQuestion("sentient", ["No creative", "It's ineffective", "Could be better", "It's adequate", "Award winning"]),
    CompassQuestion("visionary", ["No vision", "Vague direction", "Some clarity", "Clear vision", "It's inspiring audiences"]),
    CompassQuestion("intentional", ["Weak", "Uncertain", "Adequate", "Strong", "Exceptional"])
  ]

  /** Eight questions with distinct ids, one label per slider position. */
  lemma CompassCatalog()
    ensures |COMPASS_QUESTIONS| == 8
    ensures forall i, j :: 0 <= i < j < |COMPASS_QUESTIONS| ==> COMPASS_QUESTIONS[i].id != COMPASS_QUESTIONS[j].id
    ensures forall i :: 0 <= i < |COMPASS_QUESTIONS| ==> |COMPASS_QUESTIONS[i].labels| == 5
  {
  }

  const SCORE_MAP: map<int, nat> := map[1 := 15, 2 := 40, 3 := 60, 4 := 80, 5 := 100]

  /** The percentage of a slider position: every position has one, between
      the lowest entry 15 and the highest 100. */
  function ScoreOf(v: Ordinal): (p: nat)
    ensures v in SCORE_MAP && p == SCORE_MAP[v]
    ensures 15 <= p <= 100
  {
    SCORE_MAP[v]
  }

  /** A higher slider position always maps to a higher percentage, and the
      middle position maps to 60. */
  lemma ScoreMapStrictlyIncreasing(u: Ordinal, v: Ordinal)
    ensures u < v <==> ScoreOf(u) < ScoreOf(v)
    ensures ScoreOf(u) == ScoreOf(v) ==> u == v
    ensures ScoreOf(3) == 60
  {
  }

  const ATTRIBUTE_NAMES: map<string, string> := map[
    "awake" := "Awake",
    "aware" := "Aware",
    "reflective" := "Reflective",
    "attentive" := "Attentive",
    "cogent" := "Cogent",
    "sentient" := "Sentient",
    "visionary" := "Visionary",
    "intentional" := "Intentional"
  ]

  /** Every question has a display name, and the table names nothing else. */
  lemma AttributeNamesCover()
    ensures forall k :: 0 <= k < |COMPASS_QUESTIONS| ==> COMPASS_QUESTIONS[k].id in ATTRIBUTE_NAMES
    ensures |ATTRIBUTE_NAMES| == |COMPASS_QUESTIONS|
  {
  }

  /** The display names in catalog order. */
  lemma AttributeNamesInOrder()
    ensures forall k :: 0 <= k < |COMPASS_QUESTIONS| ==>
              COMPASS_QUESTIONS[k].id in ATTRIBUTE_NAMES &&
              ATTRIBUTE_NAMES[COMPASS_QUESTIONS[k].id] ==
              ["Awake", "Aware", "Reflective", "Attentive", "Cogent", "Sentient", "Visionary", "Intentional"][k]
  {
  }

  /** No two questions share a display name, so a score can be found again
      by its name. */
  lemma AttributeNamesDistinct()
    ensures forall i, j :: 0 <= i < j < |COMPASS_QUESTIONS| ==>
              COMPASS_QUESTIONS[i].id in ATTRIBUTE_NAMES && COMPASS_QUESTIONS[j].id in ATTRIBUTE_NAMES &&
              ATTRIBUTE_NAMES[COMPASS_QUESTIONS[i].id] != ATTRIBUTE_NAMES[COMPASS_QUESTIONS[j].id]
  {
    AttributeNamesInOrder();
  }

  /** The six description bands, from the lowest average to the highest. */
  datatype Band = Foundational | Emerging | Developing | Established | Strong | Exceptional

  /** The band's place in the order of averages. */
  function Level(b: Band): nat
  {
    match b
    case Foundational => 0
    case Emerging => 1
    case Developing => 2
    case Established => 3
    case Strong => 4
    case Exceptional => 5
  }

  /** The bands as half-open intervals of the average, each closed at its
      lower edge: [-inf,45), [45,60), [60,70), [70,75), [75,90), [90,inf). */
  predicate InBand(avg: int, b: Band)
  {
    match b
    case Foundational => avg < 45
    case Emerging => 45 <= avg < 60
    case Developing => 60 <= avg < 70
    case Established => 70 <= avg < 75
    case Strong => 75 <= avg < 90
    case Exceptional => 90 <= avg
  }

  /** The band `getDescription` selects, following its nested tests: below
      70 it picks among the gap-naming bands, otherwise among the others. */
  function BandOf(avg: int): (b: Band)
    ensures InBand(avg, b)
  {
    if avg < 70 then
      if avg >= 60 then Developing
      else if avg >= 45 then Emerging
      else Foundational
    else
      if avg >= 90 then Exceptional
      else if avg >= 75 then Strong
      else Established
  }

  /** Every average lies in exactly one band, the one `BandOf` picks. */
  lemma BandsPartition(avg: int, b: Band)
    ensures InBand(avg, b) <==> b == BandOf(avg)
  {
  }

  /** A higher average never selects a lower band. */
  lemma BandMonotone(x: int, y: int)
    requires x <= y
    ensures Level(BandOf(x)) <= Level(BandOf(y))
  {
  }

  /** The description: its band and the attribute names it interpolates. */
  datatype ScoreDescription = ScoreDescription(band: Band, named: seq<string>)

  /** The `k`-th name as a template interpolates it: a missing element reads
      as `undefined`. */
  function Interpolate(xs: seq<string>, k: nat): string
  {
    if k < |xs| then xs[k] else "undefined"
  }

  /** `getDescription`: the three bands below 70 name the first three
      entries of `lowest3`; the three bands from 70 up name nothing. */
  function GetDescription(avg: int, lowest3: seq<string>): (d: ScoreDescription)
    ensures InBand(avg, d.band)
    ensures avg < 70 ==> |d.named| == 3
    ensures avg >= 70 ==> d.named == []
    ensures forall k :: 0 <= k < |d.named| && k < |lowest3| ==> d.named[k] == lowest3[k]
  {
    var band := BandOf(avg);
    if avg < 70 then
      ScoreDescription(band, [Interpolate(lowest3, 0), Interpolate(lowest3, 1), Interpolate(lowest3, 2)])
    else
      ScoreDescription(band, [])
  }

  /** From 70 up the description does not depend on the lowest attributes;
      below 70 it tells any two lists apart by their first three names. */
  lemma DescriptionDependence(avg: int, xs: seq<string>, ys: seq<string>)
    requires |xs| >= 3 && |ys| >= 3
    ensures avg >= 70 ==> GetDescription(avg, xs) == GetDescription(avg, ys)
    ensures avg < 70 ==> (GetDescription(avg, xs) == GetDescription(avg, ys) <==> xs[..3] == ys[..3])
  {
    if avg < 70 && xs[..3] != ys[..3] {
      var k :| 0 <= k < 3 && xs[k] != ys[k];
      assert GetDescription(avg, xs).named[k] != GetDescription(avg, ys).named[k];
    }
  }
}

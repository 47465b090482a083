/** The dominant-archetype classifier and the description-key normaliser. */
module ArchetypeLogic {
  import opened Wrappers
  import opened Archetypes
  import opened ArchetypeScoring

  /** Thresholds of the three rules, in tenths. */
  const FlatFloor: nat := 2
  const FlatCeiling: nat := 4
  const StrongLevel: nat := 3
  const RunnerUpLevel: nat := 4

  /** `a` precedes `b` after sorting the score entries by descending score:
      `Array.prototype.sort` is stable, so equal scores keep the declaration
      order `Object.entries` produced. On distinct archetypes this is a
      strict total order, hence the sorted result is unique. */
  predicate Before(s: Scores, a: Archetype, b: Archetype)
  {
    s.Get(a) > s.Get(b) || (s.Get(a) == s.Get(b) && Rank(a) < Rank(b))
  }

  /** Every earlier element precedes every later one; in particular the
      elements are pairwise distinct. */
  predicate Ordered(s: Scores, xs: seq<Archetype>)
  {
    forall i, j :: 0 <= i < j < |xs| ==> Before(s, xs[i], xs[j])
  }

  predicate Distinct(xs: seq<Archetype>)
  {
    forall i, j :: 0 <= i < j < |xs| ==> xs[i] != xs[j]
  }

  /** `Before` is total on distinct archetypes. */
  lemma BeforeTotal(s: Scores, a: Archetype, b: Archetype)
    requires a != b
    ensures Before(s, a, b) || Before(s, b, a)
  {
  }

  lemma OrderedCons(s: Scores, x: Archetype, ys: seq<Archetype>)
    requires Ordered(s, ys)
    requires forall y :: y in ys ==> Before(s, x, y)
    ensures Ordered(s, [x] + ys)
  {
    var r := [x] + ys;
    forall i, j | 0 <= i < j < |r|
      ensures Before(s, r[i], r[j])
    {
      if i == 0 {
        assert r[j] == ys[j - 1] && r[j] in ys;
      } else {
        assert r[i] == ys[i - 1] && r[j] == ys[j - 1];
      }
    }
  }

  function Insert(s: Scores, a: Archetype, xs: seq<Archetype>): (r: seq<Archetype>)
    requires Ordered(s, xs) && a !in xs
    ensures forall x :: x in r <==> x == a || x in xs
    ensures |r| == |xs| + 1
    ensures Ordered(s, r)
  {
    if |xs| == 0 then [a]
    else if Before(s, a, xs[0]) then
      assert forall y :: y in xs ==> Before(s, a, y) by {
        forall y | y in xs ensures Before(s, a, y) {
          var j :| 0 <= j < |xs| && xs[j] == y;
          if j > 0 { assert Before(s, xs[0], xs[j]); }
        }
      }
      OrderedCons(s, a, xs);
      [a] + xs
    else
      var rest := Insert(s, a, xs[1..]);
      assert forall y :: y in rest ==> Before(s, xs[0], y) by {
        forall y | y in rest ensures Before(s, xs[0], y) {
          if y == a {
            BeforeTotal(s, a, xs[0]);
          } else {
            var j :| 1 <= j < |xs| && xs[j] == y;
          }
        }
      }
      OrderedCons(s, xs[0], rest);
      [xs[0]] + rest
  }

  /** Sorts distinct archetypes by descending score, ties in declaration order. */
  function SortByScore(s: Scores, xs: seq<Archetype>): (r: seq<Archetype>)
    requires forall i, j :: 0 <= i < j < |xs| ==> xs[i] != xs[j]
    ensures forall x :: x in r <==> x in xs
    ensures |r| == |xs|
    ensures Ordered(s, r)
  {
    if |xs| == 0 then []
    else
      var rest := SortByScore(s, xs[1..]);
      Insert(s, xs[0], rest)
  }

  /** The archetypes ordered by descending score, ties kept in declaration
      order, as the stable descending sort of the score entries leaves them. */
  function Ranking(s: Scores): (r: seq<Archetype>)
    ensures |r| == 4
    ensures forall a :: a in r
    ensures Ordered(s, r)
  {
    var r := SortByScore(s, Declared);
    assert forall a :: a in r by {
      forall a ensures a in r {
        assert Declared[Rank(a)] == a;
      }
    }
    r
  }

  /** Keeps the elements scoring at least `t`, in order. */
  function AtLeast(s: Scores, xs: seq<Archetype>, t: nat): (r: seq<Archetype>)
    ensures forall a :: a in r <==> a in xs && s.Get(a) >= t
    ensures |r| <= |xs|
    ensures Distinct(xs) ==> Distinct(r)
    ensures Ordered(s, xs) ==> Ordered(s, r)
  {
    if |xs| == 0 then []
    else if s.Get(xs[0]) >= t then
      var rest := AtLeast(s, xs[1..], t);
      ConsSublist(s, xs, rest);
      [xs[0]] + rest
    else AtLeast(s, xs[1..], t)
  }

  /** Keeps the elements scoring exactly `v`, in order. */
  function WithScore(s: Scores, xs: seq<Archetype>, v: nat): (r: seq<Archetype>)
    ensures forall a :: a in r <==> a in xs && s.Get(a) == v
    ensures |r| <= |xs|
    ensures Distinct(xs) ==> Distinct(r)
    ensures Ordered(s, xs) ==> Ordered(s, r)
  {
    if |xs| == 0 then []
    else if s.Get(xs[0]) == v then
      var rest := WithScore(s, xs[1..], v);
      ConsSublist(s, xs, rest);
      [xs[0]] + rest
    else WithScore(s, xs[1..], v)
  }

  /** Putting a list's head in front of a sublist of its tail keeps the
      list ordered and free of duplicates. */
  lemma ConsSublist(s: Scores, xs: seq<Archetype>, rest: seq<Archetype>)
    requires |xs| > 0
    requires forall a :: a in rest ==> a in xs[1..]
    ensures Distinct(xs) && Distinct(rest) ==> Distinct([xs[0]] + rest)
    ensures Ordered(s, xs) && Ordered(s, rest) ==> Ordered(s, [xs[0]] + rest)
  {
    var ys := [xs[0]] + rest;
    forall j | 1 <= j < |ys|
      ensures exists k :: 1 <= k < |xs| && xs[k] == ys[j]
    {
      assert ys[j] == rest[j - 1] && rest[j - 1] in xs[1..];
      var k :| 0 <= k < |xs| - 1 && xs[1..][k] == ys[j];
      assert xs[k + 1] == ys[j];
    }
  }

  /** The flat-distribution condition: every score in [0.2, 0.4). */
  predicate Flat(s: Scores)
  {
    forall a :: FlatFloor <= s.Get(a) < FlatCeiling
  }

  /** `getDominantArchetype`: the flat rule, then the three-strong rule, then
      the maxima with a strong runner-up. The result is never empty, free of
      duplicates, and ordered by descending score with ties in declaration
      order. */
  function DominantArchetypes(s: Scores): (r: seq<Archetype>)
    ensures 1 <= |r| <= 4
    ensures Ordered(s, r)
    ensures Distinct(r)
  {
    var sorted := Ranking(s);
    if AllAtLeast(s, sorted, FlatFloor) && AllBelow(s, sorted, FlatCeiling) then sorted
    else
      var strong := AtLeast(s, sorted, StrongLevel);
      if |strong| >= 3 then strong
      else Leaders(s, sorted)
  }

  /** Every archetype in `xs` scores at least `t`. */
  predicate AllAtLeast(s: Scores, xs: seq<Archetype>, t: nat)
  {
    forall i :: 0 <= i < |xs| ==> s.Get(xs[i]) >= t
  }

  /** Every archetype in `xs` scores below `t`. */
  predicate AllBelow(s: Scores, xs: seq<Archetype>, t: nat)
  {
    forall i :: 0 <= i < |xs| ==> s.Get(xs[i]) < t
  }

  /** The default rule on a ranking: the entries tied with the first, and
      the second entry too when the first stands alone and the second
      reaches 0.4. */
  function Leaders(s: Scores, sorted: seq<Archetype>): (r: seq<Archetype>)
    requires |sorted| >= 2 && Ordered(s, sorted)
    ensures 1 <= |r| <= |sorted|
    ensures Ordered(s, r)
  {
    var maxScore := s.Get(sorted[0]);
    var secondScore := s.Get(sorted[1]);
    var dominants := WithScore(s, sorted, maxScore);
    assert dominants[0] == sorted[0];
    if |dominants| == 1 && secondScore >= RunnerUpLevel then
      assert dominants == [sorted[0]];
      dominants + [sorted[1]]
    else dominants
  }

  /** The highest of the four scores. */
  function MaxScore(s: Scores): nat
  {
    var m1 := if s.architect >= s.visionary then s.architect else s.visionary;
    var m2 := if s.accelerator >= s.entrepreneur then s.accelerator else s.entrepreneur;
    if m1 >= m2 then m1 else m2
  }

  function Indicator(b: bool): nat
  {
    if b then 1 else 0
  }

  /** How many archetypes score at least `t`. */
  function CountAtLeast(s: Scores, t: nat): nat
  {
    Indicator(s.architect >= t) + Indicator(s.visionary >= t) +
    Indicator(s.accelerator >= t) + Indicator(s.entrepreneur >= t)
  }

  /** How many archetypes score exactly `v`. */
  function CountEqual(s: Scores, v: nat): nat
  {
    Indicator(s.architect == v) + Indicator(s.visionary == v) +
    Indicator(s.accelerator == v) + Indicator(s.entrepreneur == v)
  }

  /** `b` takes second place behind a unique leader: among the archetypes
      below the maximum it scores highest, and among those scoring as much
      it is declared first. */
  predicate RunnerUp(s: Scores, b: Archetype)
  {
    && s.Get(b) < MaxScore(s)
    && forall c :: s.Get(c) < MaxScore(s) ==>
         s.Get(c) < s.Get(b) || (s.Get(c) == s.Get(b) && Rank(b) <= Rank(c))
  }

  lemma MaxScoreIsMax(s: Scores)
    ensures forall a :: s.Get(a) <= MaxScore(s)
    ensures exists a :: s.Get(a) == MaxScore(s)
  {
    if MaxScore(s) == s.architect {
      assert s.Get(Architect) == MaxScore(s);
    } else if MaxScore(s) == s.visionary {
      assert s.Get(Visionary) == MaxScore(s);
    } else if MaxScore(s) == s.accelerator {
      assert s.Get(Accelerator) == MaxScore(s);
    } else {
      assert s.Get(Entrepreneur) == MaxScore(s);
    }
  }

  /** The head of the ranking holds the maximum; every later entry scores no
      more than every earlier one. */
  lemma RankingFacts(s: Scores)
    ensures s.Get(Ranking(s)[0]) == MaxScore(s)
    ensures forall i, j :: 0 <= i < j < 4 ==> s.Get(Ranking(s)[i]) >= s.Get(Ranking(s)[j])
  {
    var r := Ranking(s);
    MaxScoreIsMax(s);
    var top :| s.Get(top) == MaxScore(s);
    assert top in r;
    var k :| 0 <= k < 4 && r[k] == top;
    if k > 0 {
      assert Before(s, r[0], r[k]);
    }
  }

  lemma {:induction false} DistinctCardinality(xs: seq<Archetype>)
    requires Distinct(xs)
    ensures |set x | x in xs| == |xs|
  {
    if |xs| > 0 {
      DistinctCardinality(xs[1..]);
      assert (set x | x in xs) == {xs[0]} + (set x | x in xs[1..]);
    }
  }

  /** Two duplicate-free lists holding the same archetypes are equally long. */
  lemma SameElementsSameLength(xs: seq<Archetype>, ys: seq<Archetype>)
    requires Distinct(xs) && Distinct(ys)
    requires forall a :: a in xs <==> a in ys
    ensures |xs| == |ys|
  {
    DistinctCardinality(xs);
    DistinctCardinality(ys);
    assert (set x | x in xs) == (set y | y in ys);
  }

  lemma DeclaredDistinct()
    ensures Distinct(Declared)
    ensures forall a :: a in Declared
  {
    forall a ensures a in Declared {
      assert Declared[Rank(a)] == a;
    }
  }

  /** Filtering the ranking keeps as many archetypes as the counts say. */
  lemma FilterLengths(s: Scores, t: nat)
    ensures |AtLeast(s, Ranking(s), t)| == CountAtLeast(s, t)
    ensures |WithScore(s, Ranking(s), t)| == CountEqual(s, t)
  {
    DeclaredDistinct();
    var r := Ranking(s);
    assert Distinct(r);
    SameElementsSameLength(AtLeast(s, r, t), AtLeast(s, Declared, t));
    SameElementsSameLength(WithScore(s, r, t), WithScore(s, Declared, t));
    DeclaredFilterLengths(s, t);
  }

  lemma DeclaredFilterLengths(s: Scores, t: nat)
    ensures |AtLeast(s, Declared, t)| == CountAtLeast(s, t)
    ensures |WithScore(s, Declared, t)| == CountEqual(s, t)
  {
    DeclaredAtLeastLength(s, t);
    DeclaredWithScoreLength(s, t);
  }

  lemma DeclaredAtLeastLength(s: Scores, t: nat)
    ensures |AtLeast(s, Declared, t)| == CountAtLeast(s, t)
  {
    var d1, d2, d3 := Declared[1..], Declared[2..], Declared[3..];
    assert d1 == [Visionary, Accelerator, Entrepreneur] && d1[1..] == d2;
    assert d2 == [Accelerator, Entrepreneur] && d2[1..] == d3;
    assert d3 == [Entrepreneur] && d3[1..] == [];
    assert |AtLeast(s, d3, t)| == Indicator(s.entrepreneur >= t);
    assert |AtLeast(s, d2, t)| == Indicator(s.accelerator >= t) + |AtLeast(s, d3, t)|;
    assert |AtLeast(s, d1, t)| == Indicator(s.visionary >= t) + |AtLeast(s, d2, t)|;
    assert |AtLeast(s, Declared, t)| == Indicator(s.architect >= t) + |AtLeast(s, d1, t)|;
  }

  lemma DeclaredWithScoreLength(s: Scores, v: nat)
    ensures |WithScore(s, Declared, v)| == CountEqual(s, v)
  {
    var d1, d2, d3 := Declared[1..], Declared[2..], Declared[3..];
    assert d1 == [Visionary, Accelerator, Entrepreneur] && d1[1..] == d2;
    assert d2 == [Accelerator, Entrepreneur] && d2[1..] == d3;
    assert d3 == [Entrepreneur] && d3[1..] == [];
    assert |WithScore(s, d3, v)| == Indicator(s.entrepreneur == v);
    assert |WithScore(s, d2, v)| == Indicator(s.accelerator == v) + |WithScore(s, d3, v)|;
    assert |WithScore(s, d1, v)| == Indicator(s.visionary == v) + |WithScore(s, d2, v)|;
    assert |WithScore(s, Declared, v)| == Indicator(s.architect == v) + |WithScore(s, d1, v)|;
  }

  /** Flat rule: when every score lies in [0.2, 0.4) the result is all four
      archetypes by descending score, ties in declaration order. */
  lemma FlatRule(s: Scores)
    requires Flat(s)
    ensures DominantArchetypes(s) == Ranking(s)
    ensures |DominantArchetypes(s)| == 4
    ensures forall a :: a in DominantArchetypes(s)
  {
  }

  /** Three-strong rule: otherwise, when three or more scores reach 0.3, the
      result is exactly the archetypes that reach it. */
  lemma StrongRule(s: Scores)
    requires !Flat(s) && CountAtLeast(s, StrongLevel) >= 3
    ensures forall a :: a in DominantArchetypes(s) <==> s.Get(a) >= StrongLevel
    ensures |DominantArchetypes(s)| == CountAtLeast(s, StrongLevel)
  {
    FilterLengths(s, StrongLevel);
  }

  /** Outside the flat and three-strong rules the classifier returns the
      archetypes tied for first place, with the second entry of the ranking
      appended when the leader is alone and that entry reaches 0.4. */
  lemma DefaultShape(s: Scores)
    requires !Flat(s) && CountAtLeast(s, StrongLevel) < 3
    ensures DominantArchetypes(s) == Leaders(s, Ranking(s))
  {
    var sorted := Ranking(s);
    RankingFacts(s);
    FilterLengths(s, StrongLevel);
    var a :| !(FlatFloor <= s.Get(a) < FlatCeiling);
    assert a in sorted;
    var k :| 0 <= k < 4 && sorted[k] == a;
    assert !AllAtLeast(s, sorted, FlatFloor) || !AllBelow(s, sorted, FlatCeiling);
  }

  /** Default rule: otherwise the result is every archetype holding the
      maximum, plus the runner-up when the leader is unique and the
      runner-up reaches 0.4. */
  lemma DefaultRule(s: Scores)
    requires !Flat(s) && CountAtLeast(s, StrongLevel) < 3
    ensures var r := DominantArchetypes(s);
            if CountEqual(s, MaxScore(s)) == 1 && exists b :: RunnerUp(s, b) && s.Get(b) >= RunnerUpLevel
            then |r| == 2 && s.Get(r[0]) == MaxScore(s) && RunnerUp(s, r[1])
            else forall a :: a in r <==> s.Get(a) == MaxScore(s)
  {
    var sorted := Ranking(s);
    var leaders := WithScore(s, sorted, MaxScore(s));
    DefaultShape(s);
    assert s.Get(sorted[0]) == MaxScore(s) by { RankingFacts(s); }
    FilterLengths(s, MaxScore(s));
    RankingFacts(s);
    if CountEqual(s, MaxScore(s)) == 1 {
      SecondPlace(s);
      assert leaders == [sorted[0]];
      if exists b :: RunnerUp(s, b) && s.Get(b) >= RunnerUpLevel {
        var b :| RunnerUp(s, b) && s.Get(b) >= RunnerUpLevel;
        RunnerUpScore(s, b, sorted[1]);
      } else {
        assert !(s.Get(sorted[1]) >= RunnerUpLevel);
      }
    }
  }

  /** With a unique leader, the second entry of the ranking is the runner-up. */
  lemma SecondPlace(s: Scores)
    requires CountEqual(s, MaxScore(s)) == 1
    ensures RunnerUp(s, Ranking(s)[1])
  {
    var r := Ranking(s);
    RankingFacts(s);
    FilterLengths(s, MaxScore(s));
    var leaders := WithScore(s, r, MaxScore(s));
    assert leaders[0] == r[0];
    assert r[1] !in leaders;
    forall c | s.Get(c) < MaxScore(s)
      ensures s.Get(c) < s.Get(r[1]) || (s.Get(c) == s.Get(r[1]) && Rank(r[1]) <= Rank(c))
    {
      assert c in r;
      var j :| 0 <= j < 4 && r[j] == c;
      if j > 1 {
        assert Before(s, r[1], r[j]);
      }
    }
  }

  lemma RunnerUpScore(s: Scores, b: Archetype, b': Archetype)
    requires RunnerUp(s, b) && RunnerUp(s, b')
    ensures s.Get(b) == s.Get(b')
  {
  }

  /** `getArchetypeKey`: three or more archetypes give `multiple`; two give
      their alphabetically sorted, dash-joined blend key when the table has
      it and `multiple` otherwise; one gives its own tag. An empty list has
      no first element and yields `undefined`. */
  function ArchetypeKey(dominants: seq<Archetype>): (r: Option<string>)
    ensures r.None? <==> |dominants| == 0
    ensures r.Some? ==> r.value in ARCHETYPE_DESCRIPTIONS
    ensures |dominants| >= 3 ==> r == Some(MULTIPLE)
    ensures |dominants| == 1 ==> r == Some(Tag(dominants[0]))
  {
    DescriptionKeys();
    if |dominants| >= 3 then Some(MULTIPLE)
    else if |dominants| == 2 then
      var key := PairKey(dominants[0], dominants[1]);
      if key in ARCHETYPE_DESCRIPTIONS then Some(key) else Some(MULTIPLE)
    else if |dominants| == 1 then Some(Tag(dominants[0]))
    else None
  }

  /** A pair of distinct archetypes always resolves to its blend key,
      whichever order the pair comes in; a pair repeating one archetype
      falls back to `multiple`. */
  lemma PairKeyResolution(a: Archetype, b: Archetype)
    ensures a != b ==> ArchetypeKey([a, b]) == Some(PairKey(a, b)) == ArchetypeKey([b, a])
    ensures a == b ==> ArchetypeKey([a, b]) == Some(MULTIPLE)
  {
    DescriptionKeys();
    if a != b {
      TagLexOrder(a, b);
      TagLexOrder(b, a);
      TagInjective(a, b);
    } else {
      SelfPairNotAKey(a);
    }
  }

  lemma SelfPairNotAKey(a: Archetype)
    ensures PairKey(a, a) !in ARCHETYPE_DESCRIPTIONS
  {
    LexLessIrreflexive(Tag(a));
    assert PairKey(a, a) == Tag(a) + "-" + Tag(a);
    DoubledTagNotAKey(a);
  }

  /** A tag joined to itself is none of the table's keys: each doubled key
      differs from the blend key of the same length. */
  lemma DoubledTagNotAKey(a: Archetype)
    ensures Tag(a) + "-" + Tag(a) !in ARCHETYPE_DESCRIPTIONS
  {
    var k := Tag(a) + "-" + Tag(a);
    match a
    case Architect =>
      assert k == "architect-architect";
      DifferentAt(k, "architect-visionary", 10);
    case Visionary =>
      assert k == "visionary-visionary";
      DifferentAt(k, "architect-visionary", 0);
    case Accelerator => assert k == "accelerator-accelerator";
    case Entrepreneur => assert k == "entrepreneur-entrepreneur";
  }

  /** Strings that differ at one position are different. */
  lemma DifferentAt(x: string, y: string, i: nat)
    requires i < |x| && i < |y| && x[i] != y[i]
    ensures x != y
  {
  }

  /** Every classification resolves to a key the description table holds,
      so the fallback lookup by the first archetype is never needed. */
  lemma ClassificationHasDescription(s: Scores)
    ensures ArchetypeKey(DominantArchetypes(s)).Some?
    ensures ArchetypeKey(DominantArchetypes(s)).value in ARCHETYPE_DESCRIPTIONS
    ensures |DominantArchetypes(s)| == 2 ==>
              var r := DominantArchetypes(s);
              ArchetypeKey(r) == Some(PairKey(r[0], r[1]))
  {
    var r := DominantArchetypes(s);
    if |r| == 2 {
      PairKeyResolution(r[0], r[1]);
    }
  }

  /** Worked classification: a balanced 3/3/2/2 profile is flat and keeps
      all four archetypes, in declaration order since the ties keep it. */
  lemma FlatExample(s: Scores)
    requires s == Scores(3, 3, 2, 2)
    ensures DominantArchetypes(s) == [Architect, Visionary, Accelerator, Entrepreneur]
    ensures ArchetypeKey(DominantArchetypes(s)) == Some(MULTIPLE)
  {
    FlatRule(s);
    var xs := [Architect, Visionary, Accelerator, Entrepreneur];
    var r := Ranking(s);
    assert forall a :: a in r <==> a in xs;
    OrderedUnique(s, r, xs);
  }

  /** A unique leader whose rivals all stay below 0.4 stands alone: the
      runner-up is too weak to join it. */
  lemma LoneLeader(s: Scores, a: Archetype)
    requires !Flat(s) && CountAtLeast(s, StrongLevel) < 3
    requires s.Get(a) == MaxScore(s) && CountEqual(s, MaxScore(s)) == 1
    requires forall b :: b != a ==> s.Get(b) < RunnerUpLevel
    ensures DominantArchetypes(s) == [a]
  {
    forall b | RunnerUp(s, b)
      ensures s.Get(b) < RunnerUpLevel
    {
      assert b != a;
    }
    DefaultRule(s);
    var r := DominantArchetypes(s);
    assert forall c :: s.Get(c) == MaxScore(s) <==> c == a;
    assert forall c :: c in r <==> c == a;
    SameElementsSameLength(r, [a]);
  }

  /** Worked classification: a lone 0.4 leader with a weak runner-up stands alone. */
  lemma LoneLeaderExample(s: Scores)
    requires s == Scores(4, 1, 1, 1)
    ensures DominantArchetypes(s) == [Architect]
    ensures ArchetypeKey(DominantArchetypes(s)) == Some("architect")
  {
    assert !Flat(s) by { assert s.Get(Visionary) < FlatFloor; }
    assert CountAtLeast(s, StrongLevel) == 1;
    assert MaxScore(s) == 4 && CountEqual(s, 4) == 1;
    LoneLeader(s, Architect);
  }

  /** Worked classification: two tied leaders form the blend of the pair. */
  lemma TiedPairExample(s: Scores)
    requires s == Scores(4, 4, 1, 1)
    ensures DominantArchetypes(s) == [Architect, Visionary]
    ensures ArchetypeKey(DominantArchetypes(s)) == Some("architect-visionary")
  {
    assert !Flat(s) by { assert s.Get(Accelerator) < FlatFloor; }
    assert CountAtLeast(s, StrongLevel) == 2;
    assert MaxScore(s) == 4 && CountEqual(s, 4) == 2;
    DefaultRule(s);
    var r := DominantArchetypes(s);
    assert forall a :: a in r <==> s.Get(a) == 4;
    var xs := [Architect, Visionary];
    assert forall a :: a in r <==> a in xs;
    OrderedTriple(s, Architect, Visionary, Visionary);
    OrderedUnique(s, r, xs);
    BlendKeyExamples();
  }

  /** Worked classification: a unique 0.5 leader with a 0.4 runner-up brings
      the runner-up in. */
  lemma RunnerUpExample(s: Scores)
    requires s == Scores(1, 5, 0, 4)
    ensures DominantArchetypes(s) == [Visionary, Entrepreneur]
    ensures ArchetypeKey(DominantArchetypes(s)) == Some("entrepreneur-visionary")
  {
    assert !Flat(s) by { assert s.Get(Accelerator) < FlatFloor; }
    assert CountAtLeast(s, StrongLevel) == 2;
    assert MaxScore(s) == 5 && CountEqual(s, 5) == 1;
    assert RunnerUp(s, Entrepreneur);
    DefaultRule(s);
    var r := DominantArchetypes(s);
    assert |r| == 2 && s.Get(r[0]) == 5 && RunnerUp(s, r[1]);
    assert r[0] == Visionary;
    assert s.Get(r[1]) == 4 by {
      assert s.Get(Entrepreneur) < MaxScore(s);
    }
    assert r[1] == Entrepreneur;
    PairShape(r);
    BlendKeyExamples();
  }

  /** Worked classification: three archetypes at 0.3 trigger the
      three-strong rule, whose key is `multiple`. */
  lemma ThreeStrongExample(s: Scores)
    requires s == Scores(3, 3, 3, 1)
    ensures DominantArchetypes(s) == [Architect, Visionary, Accelerator]
    ensures ArchetypeKey(DominantArchetypes(s)) == Some(MULTIPLE)
  {
    assert !Flat(s) by { assert s.Get(Entrepreneur) < FlatFloor; }
    assert CountAtLeast(s, StrongLevel) == 3;
    StrongRule(s);
    var r := DominantArchetypes(s);
    var xs := [Architect, Visionary, Accelerator];
    assert forall a :: a in r <==> s.Get(a) >= 3;
    assert forall a :: a in r <==> a in xs;
    OrderedTriple(s, Architect, Visionary, Accelerator);
    OrderedUnique(s, r, xs);
  }

  lemma OrderedTriple(s: Scores, a: Archetype, b: Archetype, c: Archetype)
    requires Before(s, a, b)
    ensures Ordered(s, [a, b])
    ensures Before(s, b, c) ==> Ordered(s, [a, b, c])
  {
  }

  lemma BlendKeyExamples()
    ensures ArchetypeKey([Architect, Visionary]) == Some("architect-visionary")
    ensures ArchetypeKey([Visionary, Entrepreneur]) == Some("entrepreneur-visionary")
  {
    PairKeyResolution(Architect, Visionary);
    TagLexOrder(Visionary, Architect);
    assert PairKey(Architect, Visionary) == "architect" + "-" + "visionary" == "architect-visionary";
    PairKeyResolution(Visionary, Entrepreneur);
    TagLexOrder(Entrepreneur, Visionary);
    assert PairKey(Visionary, Entrepreneur) == "entrepreneur" + "-" + "visionary" == "entrepreneur-visionary";
  }

  lemma PairShape(r: seq<Archetype>)
    requires |r| == 2
    ensures r == [r[0], r[1]]
  {
  }

  /** Two ordered lists holding the same archetypes are equal. */
  lemma OrderedUnique(s: Scores, xs: seq<Archetype>, ys: seq<Archetype>)
    requires Ordered(s, xs) && Ordered(s, ys)
    requires forall a :: a in xs <==> a in ys
    ensures xs == ys
  {
    SameElementsSameLength(xs, ys);
    forall i | 0 <= i < |xs| ensures xs[i] == ys[i] {
      OrderedPosition(s, xs, ys, i);
    }
  }

  /** In two ordered lists with the same elements, each position holds the same element. */
  lemma {:induction false} OrderedPosition(s: Scores, xs: seq<Archetype>, ys: seq<Archetype>, i: nat)
    requires Ordered(s, xs) && Ordered(s, ys) && |xs| == |ys|
    requires forall a :: a in xs <==> a in ys
    requires i < |xs|
    ensures xs[i] == ys[i]
    decreases i
  {
    assert ys[0] in xs;
    var k :| 0 <= k < |xs| && xs[k] == ys[0];
    assert xs[0] in ys;
    var m :| 0 <= m < |ys| && ys[m] == xs[0];
    assert k == 0 || Before(s, xs[0], ys[0]);
    assert m == 0 || Before(s, ys[0], xs[0]);
    BeforeAsymmetric(s, xs[0], ys[0]);
    if i > 0 {
      var xs', ys' := xs[1..], ys[1..];
      forall a ensures a in xs' <==> a in ys' {
        if a in xs' {
          var k :| 1 <= k < |xs| && xs[k] == a;
          assert Before(s, xs[0], a);
          assert a in ys;
          var m :| 0 <= m < |ys| && ys[m] == a;
          assert m != 0;
          assert ys'[m - 1] == a;
        }
        if a in ys' {
          var k :| 1 <= k < |ys| && ys[k] == a;
          assert Before(s, ys[0], a);
          assert a in xs;
          var m :| 0 <= m < |xs| && xs[m] == a;
          assert m != 0;
          assert xs'[m - 1] == a;
        }
      }
      OrderedPosition(s, xs', ys', i - 1);
    }
  }

  lemma BeforeAsymmetric(s: Scores, a: Archetype, b: Archetype)
    ensures Before(s, a, b) ==> !Before(s, b, a)
  {
  }
}

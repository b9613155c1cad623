/** The overall health score: 100 minus a severity-weighted penalty, never below 0. */
module HealthScorer {
  import opened Models

  /** The points a finding of each severity costs. */
  function Penalty(s: Severity): (p: nat)
    ensures 1 <= p <= 10
  {
    match s
    case Critical => 10
    case High => 5
    case Medium => 2
    case Low => 1
  }

  /** The summed penalty of the findings. */
  function TotalPenalty(smells: seq<CodeSmell>): nat
  {
    if smells == [] then 0 else Penalty(smells[0].severity) + TotalPenalty(smells[1..])
  }

  /** `_calculate_health_score`. */
  function HealthScore(smells: seq<CodeSmell>): (score: int)
    ensures 0 <= score <= 100
    ensures smells == [] ==> score == 100
  {
    if smells == [] then 100 else Max(0, 100 - TotalPenalty(smells))
  }

  /** `_calculate_health_score`: the penalty is accumulated finding by finding. */
  method CalculateHealthScore(smells: seq<CodeSmell>) returns (score: int)
    ensures score == HealthScore(smells)
  {
    if smells == [] {
      return 100;
    }
    var penalty := 0;
    var i := 0;
    while i < |smells|
      invariant i <= |smells|
      invariant penalty == TotalPenalty(smells[..i])
    {
      var smell := smells[i];
      TotalPenaltyAppend(smells[..i], [smell]);
      assert smells[..i + 1] == smells[..i] + [smell];
      if smell.severity == Critical {
        penalty := penalty + 10;
      } else if smell.severity == High {
        penalty := penalty + 5;
      } else if smell.severity == Medium {
        penalty := penalty + 2;
      } else {
        penalty := penalty + 1;
      }
      i := i + 1;
    }
    assert smells[..|smells|] == smells;
    score := Max(0, 100 - penalty);
  }

  lemma {:induction false} TotalPenaltyAppend(a: seq<CodeSmell>, b: seq<CodeSmell>)
    ensures TotalPenalty(a + b) == TotalPenalty(a) + TotalPenalty(b)
  {
    if a != [] {
      assert (a + b)[1..] == a[1..] + b;
      TotalPenaltyAppend(a[1..], b);
    } else {
      assert a + b == b;
    }
  }

  /** The penalty from the severity counts: 10 per critical, 5 per high, 2 per medium, 1 per low. */
  lemma {:induction false} PenaltyByCounts(smells: seq<CodeSmell>)
    ensures TotalPenalty(smells) == 10 * CountSeverity(smells, Critical) + 5 * CountSeverity(smells, High)
                                    + 2 * CountSeverity(smells, Medium) + CountSeverity(smells, Low)
  {
    if smells != [] {
      PenaltyByCounts(smells[1..]);
    }
  }

  /** Every finding costs at least one point and at most ten. */
  lemma {:induction false} PenaltyBounds(smells: seq<CodeSmell>)
    ensures |smells| <= TotalPenalty(smells) <= 10 * |smells|
  {
    if smells != [] {
      PenaltyBounds(smells[1..]);
    }
  }

  /** The score only depends on the multiset of severities, not on the order of the findings
      nor on anything else about them. */
  lemma HealthScoreOrderIndependent(a: seq<CodeSmell>, b: seq<CodeSmell>)
    requires multiset(Severities(a)) == multiset(Severities(b))
    ensures HealthScore(a) == HealthScore(b)
  {
    assert |a| == |multiset(Severities(a))| == |multiset(Severities(b))| == |b|;
    PenaltyByCounts(a);
    PenaltyByCounts(b);
    CountSeverityIsMultiplicity(a, Critical);
    CountSeverityIsMultiplicity(b, Critical);
    CountSeverityIsMultiplicity(a, High);
    CountSeverityIsMultiplicity(b, High);
    CountSeverityIsMultiplicity(a, Medium);
    CountSeverityIsMultiplicity(b, Medium);
    CountSeverityIsMultiplicity(a, Low);
    CountSeverityIsMultiplicity(b, Low);
  }

  /** One more finding lowers the score by its penalty, stopping at zero; so it never raises it,
      and the first finding of an empty list takes the score from 100 to `100 - penalty`. */
  lemma AppendNeverRaises(smells: seq<CodeSmell>, s: CodeSmell)
    ensures smells != [] ==> HealthScore(smells + [s]) == Max(0, HealthScore(smells) - Penalty(s.severity))
    ensures smells == [] ==> HealthScore(smells + [s]) == 100 - Penalty(s.severity)
    ensures HealthScore(smells + [s]) < HealthScore(smells) || HealthScore(smells) == 0
  {
    TotalPenaltyAppend(smells, [s]);
    assert [s][1..] == [];
    if smells == [] {
      assert smells + [s] == [s];
    }
  }

  /** Every finding costs at least a point, so the score is 100 exactly when there are no findings;
      it is 0 exactly when the penalty reaches 100. */
  lemma ScoreExtremes(smells: seq<CodeSmell>)
    ensures HealthScore(smells) == 100 <==> smells == []
    ensures smells != [] ==> (HealthScore(smells) == 0 <==> TotalPenalty(smells) >= 100)
  {
    PenaltyBounds(smells);
  }
}

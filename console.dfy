/** `display_console_report`: the console view of a run. Printing is not modelled; the view is the
    data each printed line shows, in printing order. */
module ConsoleReport {
  import opened Text
  import opened Models
  import opened Sorting
  import opened HealthScorer
  import opened ReportAssembler

  // ----- health score and status -----

  /** The console's own score, from the four severity counts. */
  function ConsoleHealthScore(total: nat, counts: map<string, nat>): int
    requires HasSeverityKeys(counts)
  {
    var penalty: int := counts["critical"] * 10 + counts["high"] * 5 + counts["medium"] * 2 + counts["low"] * 1;
    if total == 0 then 100 else Max(0, 100 - penalty)
  }

  /** The console score and `_calculate_health_score` agree on every list of findings. */
  lemma ConsoleScoreAgrees(smells: seq<CodeSmell>, counts: map<string, nat>)
    requires forall s: Severity :: SeverityValue(s) in counts && counts[SeverityValue(s)] == CountSeverity(smells, s)
    ensures HasSeverityKeys(counts)
    ensures ConsoleHealthScore(|smells|, counts) == HealthScore(smells)
  {
    assert SeverityValue(Low) == "low" && SeverityValue(Medium) == "medium";
    assert SeverityValue(High) == "high" && SeverityValue(Critical) == "critical";
    PenaltyByCounts(smells);
  }

  datatype Status = Excellent | Good | NeedsAttention | CriticalStatus

  /** The status line under the score. */
  function StatusBand(score: int): (st: Status)
    ensures st == Excellent <==> score >= 90
    ensures st == Good <==> 70 <= score < 90
    ensures st == NeedsAttention <==> 50 <= score < 70
    ensures st == CriticalStatus <==> score < 50
  {
    if score >= 90 then Excellent
    else if score >= 70 then Good
    else if score >= 50 then NeedsAttention
    else CriticalStatus
  }

  /** Bands from best (0) to worst (3). */
  function BandRank(st: Status): nat
  {
    match st
    case Excellent => 0
    case Good => 1
    case NeedsAttention => 2
    case CriticalStatus => 3
  }

  /** A higher score never shows a worse status. */
  lemma StatusBandMonotone(a: int, b: int)
    requires a <= b
    ensures BandRank(StatusBand(b)) <= BandRank(StatusBand(a))
  {
  }

  /** One more finding never improves the status. */
  lemma StatusNeverImproves(smells: seq<CodeSmell>, s: CodeSmell)
    ensures BandRank(StatusBand(HealthScore(smells))) <= BandRank(StatusBand(HealthScore(smells + [s])))
  {
    AppendNeverRaises(smells, s);
    StatusBandMonotone(HealthScore(smells + [s]), HealthScore(smells));
  }

  // ----- detailed issues -----

  const ConsoleCap: nat := 3

  /** The sort key of the within-group sort: the severity's position in low..critical. */
  function RankOf(s: CodeSmell): nat
  {
    Rank(s.severity)
  }

  /** One group as printed: its type, size, the three most severe findings and the "more" count. */
  datatype ConsoleGroup = ConsoleGroup(kind: string, size: nat, shown: seq<CodeSmell>, more: Option<nat>)

  /** A group's findings, most severe first, ties in input order. */
  function BySeverity(group: seq<CodeSmell>): seq<CodeSmell>
  {
    SortDesc(group, RankOf)
  }

  function ConsoleGroupOf(smells: seq<CodeSmell>, kind: string): ConsoleGroup
  {
    var group := OfKind(smells, kind);
    ConsoleGroup(kind, |group|, Shown(BySeverity(group), ConsoleCap), MoreCount(|group|, ConsoleCap))
  }

  /** The groups of the given types, in that order. */
  function GroupViews(smells: seq<CodeSmell>, keys: seq<string>): (r: seq<ConsoleGroup>)
    ensures |r| == |keys| && forall i :: 0 <= i < |keys| ==> r[i] == ConsoleGroupOf(smells, keys[i])
  {
    seq(|keys|, i requires 0 <= i < |keys| => ConsoleGroupOf(smells, keys[i]))
  }

  /** The groups in `sorted(smell_groups.items())` order. */
  function ConsoleGroups(smells: seq<CodeSmell>): seq<ConsoleGroup>
  {
    GroupViews(smells, SortStrings(Kinds(smells)))
  }

  /** The "DETAILED ISSUES" part, from `smell_groups`: sort the keys, then sort and cap each group. */
  method BuildConsoleGroups(smells: seq<CodeSmell>, order: seq<string>, byType: map<string, seq<CodeSmell>>)
    returns (groups: seq<ConsoleGroup>)
    requires order == Kinds(smells)
    requires forall k :: k in byType <==> k in order
    requires forall k :: k in byType ==> byType[k] == OfKind(smells, k)
    ensures groups == ConsoleGroups(smells)
  {
    var keys := SortStrings(order);
    SortStringsPermutes(order);
    assert forall k :: k in keys ==> k in byType by {
      forall k | k in keys
        ensures k in byType
      {
        assert k in multiset(keys);
      }
    }
    groups := ShowGroups(smells, keys, byType);
  }

  /** The loop over the sorted groups: each group sorted by severity and capped. */
  method ShowGroups(smells: seq<CodeSmell>, keys: seq<string>, byType: map<string, seq<CodeSmell>>)
    returns (groups: seq<ConsoleGroup>)
    requires forall k :: k in keys ==> k in byType
    requires forall k :: k in byType ==> byType[k] == OfKind(smells, k)
    ensures groups == GroupViews(smells, keys)
  {
    groups := [];
    var i := 0;
    while i < |keys|
      invariant i <= |keys|
      invariant |groups| == i && forall j :: 0 <= j < i ==> groups[j] == ConsoleGroupOf(smells, keys[j])
    {
      var kind := keys[i];
      var members := byType[kind];
      var sorted := SortDesc(members, RankOf);
      groups := groups + [ConsoleGroup(kind, |members|, Shown(sorted, ConsoleCap), MoreCount(|members|, ConsoleCap))];
      i := i + 1;
    }
  }

  /** The groups come in strictly ascending type order, one per type present; each has the size of
      its type's count and shows at most three findings; its "more" count is the rest of the group. */
  predicate GroupListing(smells: seq<CodeSmell>, r: seq<ConsoleGroup>)
  {
    && (forall i, j :: 0 <= i < j < |r| ==> StrLess(r[i].kind, r[j].kind))
    && (forall i :: 0 <= i < |r| ==> KindPresent(smells, r[i].kind))
    && (forall m :: 0 <= m < |smells| ==> KindListed(r, smells[m].smellType))
    && (forall i :: 0 <= i < |r| ==> GroupShape(smells, r[i]))
  }

  /** Some finding has the type. */
  predicate KindPresent(smells: seq<CodeSmell>, kind: string)
  {
    exists m :: 0 <= m < |smells| && smells[m].smellType == kind
  }

  /** Some group is of the type. */
  predicate KindListed(r: seq<ConsoleGroup>, kind: string)
  {
    exists i :: 0 <= i < |r| && r[i].kind == kind
  }

  /** The group's size is its type's count, three are shown (all of them in a smaller group), the
      rest is the "more" count. */
  predicate GroupShape(smells: seq<CodeSmell>, g: ConsoleGroup)
  {
    && g.size == CountKind(smells, g.kind)
    && |g.shown| == (if g.size <= ConsoleCap then g.size else ConsoleCap)
    && (g.more.Some? <==> g.size > ConsoleCap)
    && (g.more.Some? ==> |g.shown| + g.more.value == g.size)
  }

  /** The console's group listing has that shape. */
  lemma ConsoleGroupsRule(smells: seq<CodeSmell>)
    ensures GroupListing(smells, ConsoleGroups(smells))
  {
    var kinds := Kinds(smells);
    var keys := SortStrings(kinds);
    SortStringsSorted(kinds);
    SortStringsPermutes(kinds);
    GroupViewsRule(smells, keys);
  }

  /** Groups listed for keys that are the types present, each once, in ascending order. */
  lemma GroupViewsRule(smells: seq<CodeSmell>, keys: seq<string>)
    requires StrictlyAscending(keys) && multiset(keys) == multiset(Kinds(smells))
    ensures GroupListing(smells, GroupViews(smells, keys))
  {
    var r := GroupViews(smells, keys);
    GroupViewsOrdered(smells, keys);
    GroupViewsShape(smells, keys);
    GroupViewsCover(smells, keys);
  }

  lemma GroupViewsOrdered(smells: seq<CodeSmell>, keys: seq<string>)
    requires StrictlyAscending(keys)
    ensures var r := GroupViews(smells, keys);
            forall i, j :: 0 <= i < j < |r| ==> StrLess(r[i].kind, r[j].kind)
  {
    var r := GroupViews(smells, keys);
    forall i, j | 0 <= i < j < |r|
      ensures StrLess(r[i].kind, r[j].kind)
    {
      assert r[i].kind == keys[i] && r[j].kind == keys[j];
    }
  }

  lemma GroupViewsShape(smells: seq<CodeSmell>, keys: seq<string>)
    requires multiset(keys) == multiset(Kinds(smells))
    ensures var r := GroupViews(smells, keys);
            forall i :: 0 <= i < |r| ==> GroupShape(smells, r[i]) && KindPresent(smells, r[i].kind)
  {
    var r := GroupViews(smells, keys);
    forall i | 0 <= i < |r|
      ensures GroupShape(smells, r[i]) && KindPresent(smells, r[i].kind)
    {
      assert keys[i] in multiset(Kinds(smells));
      GroupOfPresentKind(smells, keys[i]);
    }
  }

  lemma GroupViewsCover(smells: seq<CodeSmell>, keys: seq<string>)
    requires multiset(keys) == multiset(Kinds(smells))
    ensures var r := GroupViews(smells, keys);
            forall m :: 0 <= m < |smells| ==> KindListed(r, smells[m].smellType)
  {
    var r := GroupViews(smells, keys);
    forall m | 0 <= m < |smells|
      ensures KindListed(r, smells[m].smellType)
    {
      var k := smells[m].smellType;
      KindsMembers(smells, k);
      assert k in multiset(keys);
      var i :| 0 <= i < |keys| && keys[i] == k;
      assert r[i].kind == k;
    }
  }

  lemma GroupOfPresentKind(smells: seq<CodeSmell>, kind: string)
    requires kind in Kinds(smells)
    ensures GroupShape(smells, ConsoleGroupOf(smells, kind)) && KindPresent(smells, kind)
  {
    var group := OfKind(smells, kind);
    OfKindCount(smells, kind);
    KindsMembers(smells, kind);
    SortDescSorted(group, RankOf);
    assert |BySeverity(group)| == |multiset(BySeverity(group))| == |group|;
  }

  /** Within one group: the listing is the group reordered, by descending severity, stable within a
      severity, and the three shown are at least as severe as any finding not shown. */
  lemma ConsoleGroupOrder(smells: seq<CodeSmell>, kind: string, rank: nat)
    ensures var group := OfKind(smells, kind);
            var sorted := BySeverity(group);
            var g := ConsoleGroupOf(smells, kind);
            && multiset(sorted) == multiset(group)
            && SortedDesc(sorted, RankOf)
            && WithKey(sorted, RankOf, rank) == WithKey(group, RankOf, rank)
            && g.shown == sorted[..|g.shown|]
            && (forall i, j :: 0 <= i < |g.shown| && |g.shown| <= j < |sorted| ==> RankOf(g.shown[i]) >= RankOf(sorted[j]))
  {
    var group := OfKind(smells, kind);
    SortDescSorted(group, RankOf);
    SortDescStable(group, RankOf, rank);
  }

  // ----- recommendations -----

  datatype Recommendation = Urgent | HighPriority | Systematic | DebtTracking

  /** The four severity counts as the console keeps them. */
  function SeverityCounts(smells: seq<CodeSmell>): (counts: map<string, nat>)
    ensures HasSeverityKeys(counts)
    ensures forall s: Severity :: SeverityValue(s) in counts && counts[SeverityValue(s)] == CountSeverity(smells, s)
    ensures forall v :: v in counts <==> IsSeverityValue(v)
  {
    map["low" := CountSeverity(smells, Low), "medium" := CountSeverity(smells, Medium),
        "high" := CountSeverity(smells, High), "critical" := CountSeverity(smells, Critical)]
  }

  /** `smell_groups` as the dictionary the console builds. */
  function GroupMap(smells: seq<CodeSmell>): map<string, seq<CodeSmell>>
  {
    map k | k in Kinds(smells) :: OfKind(smells, k)
  }

  /** The first three recommendations, which read only the counts. */
  function CountRecommendations(total: nat, counts: map<string, nat>): (r: seq<Recommendation>)
    requires HasSeverityKeys(counts)
    ensures Urgent in r <==> counts["critical"] > 0
    ensures HighPriority in r <==> counts["high"] > 0
    ensures Systematic in r <==> total > 20
    ensures DebtTracking !in r
    ensures forall i, j :: 0 <= i < j < |r| ==> r[i] != r[j]
  {
    (if counts["critical"] > 0 then [Urgent] else [])
    + (if counts["high"] > 0 then [HighPriority] else [])
    + (if total > 20 then [Systematic] else [])
  }

  /** How the recommendations block ends as written: it completes, or it stops with
      `UnboundLocalError` after printing `printed`. */
  datatype RecommendationsOutcome = Completed(shown: seq<Recommendation>) | Unbound(printed: seq<Recommendation>)

  /** The block as written: `smell_groups` is bound only when there are findings (`None` here),
      and the fourth test reads it regardless. */
  function RecommendationsAsWritten(total: nat, counts: map<string, nat>,
                                    smellGroups: Option<map<string, seq<CodeSmell>>>): RecommendationsOutcome
    requires HasSeverityKeys(counts)
  {
    var first := CountRecommendations(total, counts);
    match smellGroups
    case None => Unbound(first)
    case Some(groups) =>
      var debt := if TechnicalDebtComment in groups then groups[TechnicalDebtComment] else [];
      Completed(first + (if |debt| > 5 then [DebtTracking] else []))
  }

  /** `display_console_report`'s recommendations on a list of findings, as written. */
  function ConsoleRecommendationsAsWritten(smells: seq<CodeSmell>): RecommendationsOutcome
  {
    RecommendationsAsWritten(|smells|, SeverityCounts(smells), if smells == [] then None else Some(GroupMap(smells)))
  }

  /** The recommendations as intended: `smell_groups` empty when there are no findings. */
  function Recommendations(smells: seq<CodeSmell>): (r: seq<Recommendation>)
    ensures Urgent in r <==> CountSeverity(smells, Critical) > 0
    ensures HighPriority in r <==> CountSeverity(smells, High) > 0
    ensures Systematic in r <==> |smells| > 20
    ensures DebtTracking in r <==> CountKind(smells, TechnicalDebtComment) > 5
    ensures forall i, j :: 0 <= i < j < |r| ==> r[i] != r[j]
  {
    var counts := SeverityCounts(smells);
    assert counts["critical"] == CountSeverity(smells, Critical) by { assert SeverityValue(Critical) == "critical"; }
    assert counts["high"] == CountSeverity(smells, High) by { assert SeverityValue(High) == "high"; }
    CountRecommendations(|smells|, counts)
    + (if CountKind(smells, TechnicalDebtComment) > 5 then [DebtTracking] else [])
  }

  /** The `technical_debt_comment` group, looked up with an empty default, holds every such finding. */
  lemma DebtGroupSize(smells: seq<CodeSmell>)
    ensures var groups := if smells == [] then map[] else GroupMap(smells);
            |if TechnicalDebtComment in groups then groups[TechnicalDebtComment] else []|
              == CountKind(smells, TechnicalDebtComment)
  {
    OfKindCount(smells, TechnicalDebtComment);
    if TechnicalDebtComment !in Kinds(smells) {
      KindsAbsent(smells, TechnicalDebtComment);
    }
  }

  /** With no findings the block as written raises after printing nothing; with findings it
      prints exactly the intended recommendations. */
  lemma RecommendationsAsWrittenRule(smells: seq<CodeSmell>)
    ensures smells == [] ==> ConsoleRecommendationsAsWritten(smells) == Unbound([])
    ensures smells != [] ==> ConsoleRecommendationsAsWritten(smells) == Completed(Recommendations(smells))
  {
    DebtGroupSize(smells);
    var counts := SeverityCounts(smells);
    assert counts["critical"] == CountSeverity(smells, Critical) by { assert SeverityValue(Critical) == "critical"; }
    assert counts["high"] == CountSeverity(smells, High) by { assert SeverityValue(High) == "high"; }
  }

  // ----- the whole view -----

  /** Everything the console report prints, as data. */
  datatype ConsoleView = ConsoleView(
    totalIssues: nat,
    counts: map<string, nat>,
    healthScore: int,
    status: Status,
    groups: seq<ConsoleGroup>,
    metrics: seq<DebtMetric>,
    recommendations: seq<Recommendation>)

  /** `display_console_report`, with the recommendations as intended. */
  method DisplayConsoleReport(smells: seq<CodeSmell>, metrics: seq<DebtMetric>) returns (view: ConsoleView)
    ensures view.totalIssues == |smells|
    ensures forall s: Severity :: SeverityValue(s) in view.counts && view.counts[SeverityValue(s)] == CountSeverity(smells, s)
    ensures view.healthScore == HealthScore(smells)
    ensures view.status == StatusBand(HealthScore(smells))
    ensures view.groups == ConsoleGroups(smells)
    ensures view.metrics == metrics
    ensures view.recommendations == Recommendations(smells)
    ensures smells != [] ==> ConsoleRecommendationsAsWritten(smells) == Completed(view.recommendations)
  {
    var total := |smells|;
    var counts := CountBySeverity(smells);
    var score := ConsoleHealthScore(total, counts);
    ConsoleScoreAgrees(smells, counts);
    var groups, debtGroupSize := DetailedIssues(smells);
    SameCounts(smells, counts);
    var recommendations := CountRecommendations(total, counts)
                           + (if debtGroupSize > 5 then [DebtTracking] else []);
    view := ConsoleView(total, counts, score, StatusBand(score), groups, metrics, recommendations);
    RecommendationsAsWrittenRule(smells);
  }

  /** The "DETAILED ISSUES" listing and the size of the debt-comment group it was built from
      (an empty group when there are no findings at all). */
  method DetailedIssues(smells: seq<CodeSmell>) returns (groups: seq<ConsoleGroup>, debtGroupSize: nat)
    ensures groups == ConsoleGroups(smells)
    ensures debtGroupSize == CountKind(smells, TechnicalDebtComment)
  {
    groups := [];
    debtGroupSize := 0;
    if smells != [] {
      var order, byType := GroupByType(smells);
      groups := BuildConsoleGroups(smells, order, byType);
      OfKindCount(smells, TechnicalDebtComment);
      if TechnicalDebtComment in byType {
        debtGroupSize := |byType[TechnicalDebtComment]|;
      } else {
        KindsAbsent(smells, TechnicalDebtComment);
      }
    } else {
      assert ConsoleGroups(smells) == [];
    }
  }

  /** Counts with the four severity keys holding the four counts are the console's counts. */
  lemma SameCounts(smells: seq<CodeSmell>, counts: map<string, nat>)
    requires forall v :: v in counts <==> IsSeverityValue(v)
    requires forall s: Severity :: SeverityValue(s) in counts && counts[SeverityValue(s)] == CountSeverity(smells, s)
    ensures counts == SeverityCounts(smells)
  {
    var c := SeverityCounts(smells);
    forall v | v in counts
      ensures v in c && counts[v] == c[v]
    {
      var s: Severity :| SeverityValue(s) == v;
    }
    assert counts.Keys == c.Keys;
  }
}

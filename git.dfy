/** The history-level trend metrics computed from `git log` lines of the form
    `hash|author|date|subject`. Running git is outside the model: its output arrives as a value. */
module GitAnalyzer {
  import opened Text
  import opened Models

  /** Subject words that mark a commit as debt-related (matched as substrings). */
  const DebtKeywords: seq<string> := ["fix", "refactor", "cleanup", "debt", "hack", "workaround", "temp"]

  /** A commit frequency strictly above this many commits per day is reported. */
  const FrequencyLimit: real := 10.0

  /** The fraction of debt commits above which they are reported. */
  const DebtRatio: real := 0.2


  // ----- the commit list -----

  /** `stdout.strip().split('\n')`, or no commits at all when git failed (`None`) or printed
      nothing but whitespace. */
  function Commits(log: Option<string>): (commits: seq<string>)
    ensures log.None? ==> commits == []
    ensures log.Some? && Strip(log.value) != [] ==> |commits| == multiset(Strip(log.value))['\n'] + 1
    ensures forall i :: 0 <= i < |commits| ==> '\n' !in commits[i]
  {
    match log
    case None => []
    case Some(out) => if Strip(out) == [] then [] else Split(Strip(out), '\n')
  }

  // ----- commit frequency -----

  /** The third `|`-field of a commit line, when the line has one. */
  function CommitDate(commit: string): (r: Option<string>)
    ensures r.Some? <==> multiset(commit)['|'] >= 2
    ensures r.Some? ==> '|' !in r.value
  {
    if '|' in commit then
      var parts := Split(commit, '|');
      if |parts| >= 3 then Some(parts[2]) else None
    else None
  }

  /** The distinct dates among the commit lines. */
  function Dates(commits: seq<string>): set<string>
  {
    if commits == [] then {}
    else
      var last := CommitDate(commits[|commits| - 1]);
      Dates(commits[..|commits| - 1]) + (if last.Some? then {last.value} else {})
  }

  /** `len(commits) / max(len(dates), 1)`, and 0 for no commits. */
  function CommitFrequency(commits: seq<string>): real
  {
    if commits == [] then 0.0
    else (|commits| as real) / (Max(|Dates(commits)|, 1) as real)
  }

  /** `_analyze_commit_frequency`: collects the dates in a set, then divides. */
  method AnalyzeCommitFrequency(commits: seq<string>) returns (frequency: real)
    ensures frequency == CommitFrequency(commits)
  {
    if commits == [] {
      return 0.0;
    }
    var dates: set<string> := {};
    var i := 0;
    while i < |commits|
      invariant i <= |commits|
      invariant dates == Dates(commits[..i])
    {
      assert commits[..i + 1][..i] == commits[..i];
      var commit := commits[i];
      if '|' in commit {
        var parts := Split(commit, '|');
        if |parts| >= 3 {
          dates := dates + {parts[2]};
        }
      }
      i := i + 1;
    }
    assert commits[..|commits|] == commits;
    frequency := (|commits| as real) / (Max(|dates|, 1) as real);
  }

  /** A date is collected exactly when some commit line carries it as its third field. */
  lemma {:induction false} DatesMembers(commits: seq<string>, d: string)
    ensures d in Dates(commits) <==> exists i :: 0 <= i < |commits| && CommitDate(commits[i]) == Some(d)
  {
    if commits != [] {
      var init := commits[..|commits| - 1];
      DatesMembers(init, d);
      if d in Dates(init) {
        var i :| 0 <= i < |init| && CommitDate(init[i]) == Some(d);
        assert commits[i] == init[i];
      }
      if exists i :: 0 <= i < |commits| && CommitDate(commits[i]) == Some(d) {
        var i :| 0 <= i < |commits| && CommitDate(commits[i]) == Some(d);
        if i < |init| {
          assert init[i] == commits[i];
        }
      }
    }
  }

  /** There are never more distinct dates than commit lines. */
  lemma {:induction false} DatesBound(commits: seq<string>)
    ensures |Dates(commits)| <= |commits|
  {
    if commits != [] {
      DatesBound(commits[..|commits| - 1]);
    }
  }

  /** Division by a positive real against a bound, in multiplicative form. */
  lemma DivisionBound(n: real, m: real, c: real)
    requires m > 0.0
    ensures n / m > c <==> n > c * m
    ensures n / m >= c <==> n >= c * m
  {
    var q := n / m;
    assert q * m == n;
    assert (q - c) * m == n - c * m;
  }

  /** `n / k > c` on reals exactly when `n > c * k` on integers. */
  lemma RatioThreshold(n: nat, k: nat, c: nat)
    requires k >= 1
    ensures (n as real) / (k as real) > c as real <==> n > c * k
  {
    DivisionBound(n as real, k as real, c as real);
    assert (c * k) as real == (c as real) * (k as real);
  }

  /** Frequency is 0 without commits and at least one commit per day with some. */
  lemma FrequencyBounds(commits: seq<string>)
    ensures commits == [] ==> CommitFrequency(commits) == 0.0
    ensures commits != [] ==> 1.0 <= CommitFrequency(commits) <= |commits| as real
  {
    if commits != [] {
      DatesBound(commits);
      var n := |commits| as real;
      var m := Max(|Dates(commits)|, 1) as real;
      DivisionBound(n, m, 1.0);
      DivisionBound(n, m, n);
      assert n * m >= n;
    }
  }

  /** The frequency threshold in integer terms: `n / max(d, 1) > 10` exactly when `n > 10 * max(d, 1)`. */
  lemma FrequencyThreshold(commits: seq<string>)
    ensures CommitFrequency(commits) > FrequencyLimit
            <==> |commits| > 10 * Max(|Dates(commits)|, 1)
  {
    if commits != [] {
      RatioThreshold(|commits|, Max(|Dates(commits)|, 1), 10);
    }
  }

  // ----- debt commits -----

  /** The last `|`-field, lower-cased. */
  function Subject(commit: string): (r: string)
    ensures '|' !in r
  {
    var parts := Split(commit, '|');
    Lower(parts[|parts| - 1])
  }

  /** `any(keyword in message for keyword in keywords)`. */
  predicate MentionsKeyword(message: string, keywords: seq<string>)
  {
    keywords != [] && (Contains(message, keywords[0]) || MentionsKeyword(message, keywords[1..]))
  }

  lemma {:induction false} MentionsKeywordMeans(message: string, keywords: seq<string>)
    ensures MentionsKeyword(message, keywords) <==> exists k :: k in keywords && Contains(message, k)
  {
    if keywords != [] {
      MentionsKeywordMeans(message, keywords[1..]);
      assert keywords == [keywords[0]] + keywords[1..];
    }
  }

  /** A line with a `|` whose lower-cased last field contains one of the keywords. */
  predicate IsDebtCommit(commit: string)
  {
    '|' in commit && MentionsKeyword(Subject(commit), DebtKeywords)
  }

  /** `_count_debt_commits`, as a specification. */
  function DebtCommitCount(commits: seq<string>): (count: nat)
    ensures count <= |commits|
  {
    if commits == [] then 0
    else DebtCommitCount(commits[..|commits| - 1]) + (if IsDebtCommit(commits[|commits| - 1]) then 1 else 0)
  }

  /** `_count_debt_commits`: one pass with a counter. */
  method CountDebtCommits(commits: seq<string>) returns (count: nat)
    ensures count == DebtCommitCount(commits)
  {
    count := 0;
    var i := 0;
    while i < |commits|
      invariant i <= |commits|
      invariant count == DebtCommitCount(commits[..i])
    {
      assert commits[..i + 1][..i] == commits[..i];
      var commit := commits[i];
      if '|' in commit {
        var parts := Split(commit, '|');
        var message := Lower(parts[|parts| - 1]);
        if MentionsKeyword(message, DebtKeywords) {
          count := count + 1;
        }
      }
      i := i + 1;
    }
    assert commits[..|commits|] == commits;
  }

  /** A well-formed line splits into its four fields. */
  /** A line of `git log --pretty=format:%H|%an|%ad|%s`. */
  function CommitLine(hash: string, author: string, date: string, subject: string): string
  {
    hash + "|" + (author + "|" + (date + "|" + subject))
  }

  /** A well-formed line splits into its four fields. */
  lemma {:induction false} SplitCommitLine(hash: string, author: string, date: string, subject: string)
    requires '|' !in hash && '|' !in author && '|' !in date && '|' !in subject
    ensures Split(CommitLine(hash, author, date, subject), '|') == [hash, author, date, subject]
  {
    var t1 := date + "|" + subject;
    var t2 := author + "|" + t1;
    SplitNoSeparator(subject, '|');
    SplitAfterPiece(date, '|', subject);
    SplitAfterPiece(author, '|', t1);
    SplitAfterPiece(hash, '|', t2);
  }

  /** On a well-formed line `hash|author|date|subject` the date is the third field and the debt
      test reads the subject alone, lower-cased, for a keyword anywhere in it. */
  lemma WellFormedCommit(hash: string, author: string, date: string, subject: string)
    requires '|' !in hash && '|' !in author && '|' !in date && '|' !in subject
    ensures var line := CommitLine(hash, author, date, subject);
            && CommitDate(line) == Some(date)
            && Subject(line) == Lower(subject)
            && (IsDebtCommit(line) <==> exists k :: k in DebtKeywords && Contains(Lower(subject), k))
  {
    var line := CommitLine(hash, author, date, subject);
    SplitCommitLine(hash, author, date, subject);
    var parts := Split(line, '|');
    assert parts == [hash, author, date, subject];
    assert |parts| == 4 && parts[2] == date && parts[3] == subject;
    assert line[|hash|] == '|';
    assert '|' in line;
    MentionsKeywordMeans(Lower(subject), DebtKeywords);
  }

  /** The indices of the debt commits. */
  function DebtIndices(commits: seq<string>, n: nat): set<nat>
    requires n <= |commits|
  {
    set i: nat | i < n && IsDebtCommit(commits[i])
  }

  /** The count is the number of positions holding a debt commit. */
  lemma {:induction false} DebtCommitCountIsCardinality(commits: seq<string>, n: nat)
    requires n <= |commits|
    ensures DebtCommitCount(commits[..n]) == |DebtIndices(commits, n)|
  {
    if n > 0 {
      DebtCommitCountIsCardinality(commits, n - 1);
      DebtCountStep(commits, n);
      DebtIndicesStep(commits, n);
    } else {
      assert DebtIndices(commits, 0) == {};
    }
  }

  lemma DebtCountStep(commits: seq<string>, n: nat)
    requires 0 < n <= |commits|
    ensures DebtCommitCount(commits[..n])
            == DebtCommitCount(commits[..n - 1]) + (if IsDebtCommit(commits[n - 1]) then 1 else 0)
  {
    assert commits[..n][..n - 1] == commits[..n - 1];
    assert commits[..n][n - 1] == commits[n - 1];
  }

  lemma DebtIndicesStep(commits: seq<string>, n: nat)
    requires 0 < n <= |commits|
    ensures DebtIndices(commits, n) == DebtIndices(commits, n - 1) + (if IsDebtCommit(commits[n - 1]) then {n - 1} else {})
  {
  }

  // ----- the metrics -----

  function FrequencyMetric(frequency: real): DebtMetric
  {
    DebtMetric("High Commit Frequency", frequency, "increasing", Medium,
               "Rapid commits may indicate rushed development")
  }

  function DebtCommitsMetric(count: nat): DebtMetric
  {
    DebtMetric("Technical Debt Commits", count as real, "concerning", High,
               "High ratio of fix/refactor commits suggests accumulating debt")
  }

  /** The metrics of `get_debt_trends` for a list of commit lines: frequency first, then debt commits,
      each only when its threshold is crossed. */
  function DebtTrends(commits: seq<string>): seq<DebtMetric>
  {
    var frequency := CommitFrequency(commits);
    var count := DebtCommitCount(commits);
    (if frequency > FrequencyLimit then [FrequencyMetric(frequency)] else [])
    + (if count as real > (|commits| as real) * DebtRatio then [DebtCommitsMetric(count)] else [])
  }

  /** `get_debt_trends` on git's output; `None` is a failed or timed-out git run. */
  function GitTrends(log: Option<string>): seq<DebtMetric>
  {
    DebtTrends(Commits(log))
  }

  /** `get_debt_trends` from the commit list on: both analyses, then the thresholds. */
  method GetDebtTrends(log: Option<string>) returns (metrics: seq<DebtMetric>)
    ensures metrics == GitTrends(log)
  {
    if log.None? {
      return [];
    }
    var out := Strip(log.value);
    if out == [] {
      return [];
    }
    var commits := Split(out, '\n');
    metrics := [];
    var frequency := AnalyzeCommitFrequency(commits);
    if frequency > FrequencyLimit {
      metrics := metrics + [FrequencyMetric(frequency)];
    }
    var count := CountDebtCommits(commits);
    if count as real > (|commits| as real) * DebtRatio {
      metrics := metrics + [DebtCommitsMetric(count)];
    }
  }

  /** Which metrics appear, in integer terms: the frequency metric exactly when
      `n > 10 * max(d, 1)`, the debt metric exactly when `5 * count > n`, in that order,
      and at most these two; each carries its measured value (the frequency, the count)
      and its fixed trend, risk level and description. */
  lemma {:induction false} DebtTrendsRule(commits: seq<string>)
    ensures var m := DebtTrends(commits);
            var n := |commits|;
            var count := DebtCommitCount(commits);
            && |m| <= 2
            && ((exists i :: 0 <= i < |m| && m[i].metricName == "High Commit Frequency")
                <==> n > 10 * Max(|Dates(commits)|, 1))
            && ((exists i :: 0 <= i < |m| && m[i].metricName == "Technical Debt Commits")
                <==> 5 * count > n)
            && (|m| == 2 ==> m[0].metricName == "High Commit Frequency" && m[1].riskLevel == High)
            && (forall i :: 0 <= i < |m| && m[i].metricName == "High Commit Frequency" ==>
                  m[i].currentValue == CommitFrequency(commits) && m[i] == FrequencyMetric(CommitFrequency(commits)))
            && (forall i :: 0 <= i < |m| && m[i].metricName == "Technical Debt Commits" ==>
                  m[i].currentValue == count as real && m[i] == DebtCommitsMetric(count))
  {
    FrequencyThreshold(commits);
    var n := |commits|;
    var count := DebtCommitCount(commits);
    assert (5 * count) as real == 5.0 * (count as real);
    assert count as real > (n as real) * DebtRatio <==> 5 * count > n;
    var m := DebtTrends(commits);
    var frequency := CommitFrequency(commits);
    var fm := if frequency > FrequencyLimit then [FrequencyMetric(frequency)] else [];
    var dm := if count as real > (n as real) * DebtRatio then [DebtCommitsMetric(count)] else [];
    assert m == fm + dm;
    if n > 10 * Max(|Dates(commits)|, 1) {
      assert m[0].metricName == "High Commit Frequency";
    }
    if 5 * count > n {
      assert m[|m| - 1].metricName == "Technical Debt Commits";
    }
  }

  /** Fifteen commits on three days: five a day is no high frequency; two debt commits (13%)
      are no finding, four (27%) are. */
  lemma FifteenCommitsExample(commits: seq<string>)
    requires |commits| == 15 && |Dates(commits)| == 3
    ensures DebtCommitCount(commits) == 2 ==> DebtTrends(commits) == []
    ensures DebtCommitCount(commits) == 4 ==> DebtTrends(commits) == [DebtCommitsMetric(4)]
  {
    FrequencyThreshold(commits);
  }
}

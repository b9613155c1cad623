/** The records the analyzers exchange: severities, findings ("code smells"), trend metrics and
    the run configuration, with the counting functions every report uses. */
module Models {

  datatype Option<T> = None | Some(value: T)

  /** DebtSeverity, ordered low < medium < high < critical. */
  datatype Severity = Low | Medium | High | Critical

  /** The severity's string value, as serialized and used as a severity-count key. */
  function SeverityValue(s: Severity): string
  {
    match s
    case Low => "low"
    case Medium => "medium"
    case High => "high"
    case Critical => "critical"
  }

  /** The order the console sorts by. */
  const SeverityOrder: seq<string> := ["low", "medium", "high", "critical"]

  /** `SeverityOrder.index(s.value)`: the severity's position in the low-to-critical order. */
  function Rank(s: Severity): (r: nat)
    ensures r < |SeverityOrder| && SeverityOrder[r] == SeverityValue(s)
    ensures forall j :: 0 <= j < r ==> SeverityOrder[j] != SeverityValue(s)
  {
    match s
    case Low => 0
    case Medium => 1
    case High => 2
    case Critical => 3
  }

  /** Python's `max` of two integers. */
  function Max(a: int, b: int): (r: int)
    ensures r >= a && r >= b && (r == a || r == b)
  {
    if a >= b then a else b
  }

  /** One finding. `confidence` is the fixed per-kind confidence score in percent
      (0.6 is 60), which is how the reports display it. */
  datatype CodeSmell = CodeSmell(
    filePath: string,
    lineNumber: int,
    smellType: string,
    description: string,
    severity: Severity,
    suggestedFix: string,
    confidence: nat)

  /** A history-level statistic that crossed its threshold. */
  datatype DebtMetric = DebtMetric(
    metricName: string,
    currentValue: real,
    trend: string,
    riskLevel: Severity,
    impactDescription: string)

  /** The configuration snapshot. `analysisDepth` is accepted but read by no analyzer. */
  datatype DetectiveConfig = DetectiveConfig(
    projectPath: string,
    excludePatterns: seq<string>,
    fileExtensions: seq<string>,
    maxFileSizeMb: int,
    analysisDepth: string)

  /** The configuration with every field at its declared default. */
  function DefaultConfig(projectPath: string): DetectiveConfig
  {
    DetectiveConfig(
      projectPath,
      [".git", "__pycache__", "node_modules", ".venv"],
      [".py", ".js", ".ts", ".java", ".cpp", ".cs"],
      5,
      "standard")
  }

  // The smell kinds the analyzers emit.
  const LongFunction: string := "long_function"
  const TooManyParameters: string := "too_many_parameters"
  const DeepNesting: string := "deep_nesting"
  const SyntaxErrorKind: string := "syntax_error"
  const LargeFile: string := "large_file"
  const TechnicalDebtComment: string := "technical_debt_comment"
  const LongLine: string := "long_line"

  /** Number of findings of a kind. */
  function CountKind(smells: seq<CodeSmell>, kind: string): nat
  {
    if smells == [] then 0
    else (if smells[0].smellType == kind then 1 else 0) + CountKind(smells[1..], kind)
  }

  /** Number of findings of a kind reported at a line. */
  function CountAt(smells: seq<CodeSmell>, kind: string, line: int): nat
  {
    if smells == [] then 0
    else (if smells[0].smellType == kind && smells[0].lineNumber == line then 1 else 0)
         + CountAt(smells[1..], kind, line)
  }

  /** `len([s for s in smells if s.severity == sev])`. */
  function CountSeverity(smells: seq<CodeSmell>, sev: Severity): nat
  {
    if smells == [] then 0
    else (if smells[0].severity == sev then 1 else 0) + CountSeverity(smells[1..], sev)
  }

  lemma {:induction false} CountKindAppend(a: seq<CodeSmell>, b: seq<CodeSmell>, kind: string)
    ensures CountKind(a + b, kind) == CountKind(a, kind) + CountKind(b, kind)
  {
    if a != [] {
      assert (a + b)[1..] == a[1..] + b;
      CountKindAppend(a[1..], b, kind);
    } else {
      assert a + b == b;
    }
  }

  lemma {:induction false} CountAtAppend(a: seq<CodeSmell>, b: seq<CodeSmell>, kind: string, line: int)
    ensures CountAt(a + b, kind, line) == CountAt(a, kind, line) + CountAt(b, kind, line)
  {
    if a != [] {
      assert (a + b)[1..] == a[1..] + b;
      CountAtAppend(a[1..], b, kind, line);
    } else {
      assert a + b == b;
    }
  }

  lemma {:induction false} CountSeverityAppend(a: seq<CodeSmell>, b: seq<CodeSmell>, sev: Severity)
    ensures CountSeverity(a + b, sev) == CountSeverity(a, sev) + CountSeverity(b, sev)
  {
    if a != [] {
      assert (a + b)[1..] == a[1..] + b;
      CountSeverityAppend(a[1..], b, sev);
    } else {
      assert a + b == b;
    }
  }

  /** No finding of the kind: the count is zero. */
  lemma {:induction false} CountKindNone(smells: seq<CodeSmell>, kind: string)
    requires forall i :: 0 <= i < |smells| ==> smells[i].smellType != kind
    ensures CountKind(smells, kind) == 0
  {
    if smells != [] {
      CountKindNone(smells[1..], kind);
    }
  }

  /** No finding of the kind at the line: the count is zero. */
  lemma {:induction false} CountAtNone(smells: seq<CodeSmell>, kind: string, line: int)
    requires forall i :: 0 <= i < |smells| ==> smells[i].smellType != kind || smells[i].lineNumber != line
    ensures CountAt(smells, kind, line) == 0
  {
    if smells != [] {
      CountAtNone(smells[1..], kind, line);
    }
  }

  /** The four severity counts add up to the number of findings. */
  lemma {:induction false} SeverityCountsSum(smells: seq<CodeSmell>)
    ensures CountSeverity(smells, Critical) + CountSeverity(smells, High)
            + CountSeverity(smells, Medium) + CountSeverity(smells, Low) == |smells|
  {
    if smells != [] {
      SeverityCountsSum(smells[1..]);
    }
  }

  /** A severity count is the multiplicity of that severity among the findings. */
  lemma {:induction false} CountSeverityIsMultiplicity(smells: seq<CodeSmell>, sev: Severity)
    ensures CountSeverity(smells, sev) == multiset(Severities(smells))[sev]
  {
    if smells != [] {
      CountSeverityIsMultiplicity(smells[1..], sev);
      assert Severities(smells) == [smells[0].severity] + Severities(smells[1..]);
    }
  }

  /** The severities of the findings, in order. */
  function Severities(smells: seq<CodeSmell>): (r: seq<Severity>)
    ensures |r| == |smells| && forall i :: 0 <= i < |smells| ==> r[i] == smells[i].severity
  {
    seq(|smells|, i requires 0 <= i < |smells| => smells[i].severity)
  }
}

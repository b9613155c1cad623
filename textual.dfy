/** The line-oriented analysis every file gets, whatever its language
    (`CodeAnalyzer._analyze_general_patterns`). */
module TextualAnalyzer {
  import opened Text
  import opened Models

  const MaxLines: nat := 500
  const MaxLineLength: nat := 120

  /** `content.split('\n')`. */
  function Lines(content: string): seq<string>
  {
    Split(content, '\n')
  }

  /** `re.search(r'TODO|FIXME|HACK|XXX', line, re.IGNORECASE)` finds a match: one of the four
      markers occurs anywhere in the line, in any letter case, also inside a longer word. */
  predicate HasDebtMarker(line: string)
  {
    var u := Upper(line);
    Contains(u, "TODO") || Contains(u, "FIXME") || Contains(u, "HACK") || Contains(u, "XXX")
  }

  function LargeFileSmell(filePath: string, lineCount: nat): CodeSmell
  {
    CodeSmell(filePath, 1, LargeFile, "File has " + NatToString(lineCount) + " lines (>500)",
              Medium, "Consider splitting into multiple files", 80)
  }

  function DebtCommentSmell(filePath: string, lineNumber: nat, line: string): CodeSmell
  {
    CodeSmell(filePath, lineNumber, TechnicalDebtComment, "Technical debt marker: " + Strip(line),
              Low, "Address the noted issue", 60)
  }

  function LongLineSmell(filePath: string, lineNumber: nat, line: string): CodeSmell
  {
    CodeSmell(filePath, lineNumber, LongLine, "Line length: " + NatToString(|line|) + " characters (>120)",
              Low, "Break line or refactor for readability", 90)
  }

  /** The first pass: at most one finding for the whole file. */
  function LargeFilePass(filePath: string, lines: seq<string>): seq<CodeSmell>
  {
    if |lines| > MaxLines then [LargeFileSmell(filePath, |lines|)] else []
  }

  /** The second pass over the first `k` lines. */
  function MarkerPass(filePath: string, lines: seq<string>, k: nat): seq<CodeSmell>
    requires k <= |lines|
  {
    if k == 0 then []
    else MarkerPass(filePath, lines, k - 1)
         + (if HasDebtMarker(lines[k - 1]) then [DebtCommentSmell(filePath, k, lines[k - 1])] else [])
  }

  /** The third pass over the first `k` lines. */
  function LongLinePass(filePath: string, lines: seq<string>, k: nat): seq<CodeSmell>
    requires k <= |lines|
  {
    if k == 0 then []
    else LongLinePass(filePath, lines, k - 1)
         + (if |lines[k - 1]| > MaxLineLength then [LongLineSmell(filePath, k, lines[k - 1])] else [])
  }

  /** The findings of the three passes, in the order the passes run. */
  function GeneralPatterns(filePath: string, content: string): seq<CodeSmell>
  {
    var lines := Lines(content);
    LargeFilePass(filePath, lines) + MarkerPass(filePath, lines, |lines|) + LongLinePass(filePath, lines, |lines|)
  }

  method AnalyzeGeneralPatterns(filePath: string, content: string) returns (smells: seq<CodeSmell>)
    ensures smells == GeneralPatterns(filePath, content)
  {
    smells := [];
    var lines := Split(content, '\n');
    if |lines| > MaxLines {
      smells := smells + [LargeFileSmell(filePath, |lines|)];
    }
    var markers := ScanMarkers(filePath, lines);
    var longLines := ScanLongLines(filePath, lines);
    smells := smells + markers + longLines;
  }

  /** The second pass: one finding per line that carries a marker. */
  method ScanMarkers(filePath: string, lines: seq<string>) returns (found: seq<CodeSmell>)
    ensures found == MarkerPass(filePath, lines, |lines|)
  {
    found := [];
    var i := 0;
    while i < |lines|
      invariant i <= |lines|
      invariant found == MarkerPass(filePath, lines, i)
    {
      if HasDebtMarker(lines[i]) {
        found := found + [DebtCommentSmell(filePath, i + 1, lines[i])];
      }
      i := i + 1;
    }
  }

  /** The third pass: one finding per line longer than the limit. */
  method ScanLongLines(filePath: string, lines: seq<string>) returns (found: seq<CodeSmell>)
    ensures found == LongLinePass(filePath, lines, |lines|)
  {
    found := [];
    var i := 0;
    while i < |lines|
      invariant i <= |lines|
      invariant found == LongLinePass(filePath, lines, i)
    {
      if |lines[i]| > MaxLineLength {
        found := found + [LongLineSmell(filePath, i + 1, lines[i])];
      }
      i := i + 1;
    }
  }

  /** Every finding of the marker pass is a debt comment at a line in 1..k. */
  lemma {:induction false} MarkerPassShape(filePath: string, lines: seq<string>, k: nat)
    requires k <= |lines|
    ensures forall f :: f in MarkerPass(filePath, lines, k) ==>
              f.smellType == TechnicalDebtComment && 1 <= f.lineNumber <= k
  {
    if k > 0 {
      MarkerPassShape(filePath, lines, k - 1);
    }
  }

  /** Every finding of the long-line pass is a long line at a line in 1..k. */
  lemma {:induction false} LongLinePassShape(filePath: string, lines: seq<string>, k: nat)
    requires k <= |lines|
    ensures forall f :: f in LongLinePass(filePath, lines, k) ==>
              f.smellType == LongLine && 1 <= f.lineNumber <= k
  {
    if k > 0 {
      LongLinePassShape(filePath, lines, k - 1);
    }
  }

  /** Line `i` (1-based) gets one debt-comment finding if it carries a marker, else none. */
  lemma {:induction false} MarkerPassAt(filePath: string, lines: seq<string>, k: nat, i: int)
    requires k <= |lines|
    ensures CountAt(MarkerPass(filePath, lines, k), TechnicalDebtComment, i)
            == if 1 <= i <= k && HasDebtMarker(lines[i - 1]) then 1 else 0
  {
    if k > 0 {
      MarkerPassAt(filePath, lines, k - 1, i);
      var last := if HasDebtMarker(lines[k - 1]) then [DebtCommentSmell(filePath, k, lines[k - 1])] else [];
      CountAtAppend(MarkerPass(filePath, lines, k - 1), last, TechnicalDebtComment, i);
    }
  }

  /** Line `i` (1-based) gets one long-line finding if it is longer than 120 characters, else none. */
  lemma {:induction false} LongLinePassAt(filePath: string, lines: seq<string>, k: nat, i: int)
    requires k <= |lines|
    ensures CountAt(LongLinePass(filePath, lines, k), LongLine, i)
            == if 1 <= i <= k && |lines[i - 1]| > MaxLineLength then 1 else 0
  {
    if k > 0 {
      LongLinePassAt(filePath, lines, k - 1, i);
      var last := if |lines[k - 1]| > MaxLineLength then [LongLineSmell(filePath, k, lines[k - 1])] else [];
      CountAtAppend(LongLinePass(filePath, lines, k - 1), last, LongLine, i);
    }
  }

  /** Exactly one `large_file` finding, at line 1, when the file has more than 500 lines;
      none otherwise (so a file of exactly 500 lines gets none). */
  lemma LargeFileRule(filePath: string, content: string)
    ensures CountKind(GeneralPatterns(filePath, content), LargeFile)
            == if |Lines(content)| > MaxLines then 1 else 0
    ensures forall f :: f in GeneralPatterns(filePath, content) && f.smellType == LargeFile ==> f.lineNumber == 1
  {
    var lines := Lines(content);
    var m := MarkerPass(filePath, lines, |lines|);
    var l := LongLinePass(filePath, lines, |lines|);
    MarkerPassShape(filePath, lines, |lines|);
    LongLinePassShape(filePath, lines, |lines|);
    CountKindNone(m, LargeFile);
    CountKindNone(l, LargeFile);
    CountKindAppend(LargeFilePass(filePath, lines), m, LargeFile);
    CountKindAppend(LargeFilePass(filePath, lines) + m, l, LargeFile);
  }

  /** Each line `i` with a debt marker yields exactly one `technical_debt_comment`, at line `i`,
      however many markers it holds and whether or not it is also a long line. */
  lemma DebtMarkerRule(filePath: string, content: string, i: int)
    requires 1 <= i <= |Lines(content)|
    ensures CountAt(GeneralPatterns(filePath, content), TechnicalDebtComment, i)
            == if HasDebtMarker(Lines(content)[i - 1]) then 1 else 0
  {
    var lines := Lines(content);
    var large := LargeFilePass(filePath, lines);
    var l := LongLinePass(filePath, lines, |lines|);
    LongLinePassShape(filePath, lines, |lines|);
    CountAtNone(large, TechnicalDebtComment, i);
    CountAtNone(l, TechnicalDebtComment, i);
    MarkerPassAt(filePath, lines, |lines|, i);
    CountAtAppend(large, MarkerPass(filePath, lines, |lines|), TechnicalDebtComment, i);
    CountAtAppend(large + MarkerPass(filePath, lines, |lines|), l, TechnicalDebtComment, i);
  }

  /** Each line `i` longer than 120 characters yields exactly one `long_line` at line `i`;
      a line of 120 characters or fewer yields none. */
  lemma LongLineRule(filePath: string, content: string, i: int)
    requires 1 <= i <= |Lines(content)|
    ensures CountAt(GeneralPatterns(filePath, content), LongLine, i)
            == if |Lines(content)[i - 1]| > MaxLineLength then 1 else 0
  {
    var lines := Lines(content);
    var large := LargeFilePass(filePath, lines);
    var m := MarkerPass(filePath, lines, |lines|);
    MarkerPassShape(filePath, lines, |lines|);
    CountAtNone(large, LongLine, i);
    CountAtNone(m, LongLine, i);
    LongLinePassAt(filePath, lines, |lines|, i);
    CountAtAppend(large, m, LongLine, i);
    CountAtAppend(large + m, LongLinePass(filePath, lines, |lines|), LongLine, i);
  }

  /** Every textual finding is of one of the three textual kinds and points at a line of the file. */
  lemma TextualFindingsInRange(filePath: string, content: string)
    ensures forall f :: f in GeneralPatterns(filePath, content) ==>
              1 <= f.lineNumber <= |Lines(content)|
              && (f.smellType == LargeFile || f.smellType == TechnicalDebtComment || f.smellType == LongLine)
  {
    var lines := Lines(content);
    MarkerPassShape(filePath, lines, |lines|);
    LongLinePassShape(filePath, lines, |lines|);
  }

  /** The pass that produces a finding kind: the output order of the passes. */
  function PassIndex(f: CodeSmell): nat
  {
    if f.smellType == LargeFile then 0 else if f.smellType == TechnicalDebtComment then 1 else 2
  }

  /** `f` comes strictly before `g` in (pass, line) order. */
  predicate Precedes(f: CodeSmell, g: CodeSmell)
  {
    PassIndex(f) < PassIndex(g) || (PassIndex(f) == PassIndex(g) && f.lineNumber < g.lineNumber)
  }

  predicate StrictlyOrdered(s: seq<CodeSmell>)
  {
    forall a, b :: 0 <= a < b < |s| ==> Precedes(s[a], s[b])
  }

  lemma {:induction false} MarkerPassOrdered(filePath: string, lines: seq<string>, k: nat)
    requires k <= |lines|
    ensures StrictlyOrdered(MarkerPass(filePath, lines, k))
  {
    if k > 0 {
      var prev := MarkerPass(filePath, lines, k - 1);
      MarkerPassOrdered(filePath, lines, k - 1);
      MarkerPassShape(filePath, lines, k - 1);
      if HasDebtMarker(lines[k - 1]) {
        var f := DebtCommentSmell(filePath, k, lines[k - 1]);
        assert MarkerPass(filePath, lines, k) == prev + [f];
        OrderedSnoc(prev, f);
      } else {
        assert MarkerPass(filePath, lines, k) == prev + [];
        assert prev + [] == prev;
      }
    }
  }

  lemma {:induction false} LongLinePassOrdered(filePath: string, lines: seq<string>, k: nat)
    requires k <= |lines|
    ensures StrictlyOrdered(LongLinePass(filePath, lines, k))
  {
    if k > 0 {
      var prev := LongLinePass(filePath, lines, k - 1);
      LongLinePassOrdered(filePath, lines, k - 1);
      LongLinePassShape(filePath, lines, k - 1);
      if |lines[k - 1]| > MaxLineLength {
        var f := LongLineSmell(filePath, k, lines[k - 1]);
        assert LongLinePass(filePath, lines, k) == prev + [f];
        OrderedSnoc(prev, f);
      } else {
        assert LongLinePass(filePath, lines, k) == prev + [];
        assert prev + [] == prev;
      }
    }
  }

  /** A finding of the same type and a later line than all before it extends the order. */
  lemma OrderedSnoc(prev: seq<CodeSmell>, f: CodeSmell)
    requires StrictlyOrdered(prev)
    requires forall g :: g in prev ==> g.smellType == f.smellType && g.lineNumber < f.lineNumber
    ensures StrictlyOrdered(prev + [f])
  {
    OrderedConcat(prev, [f]);
  }

  lemma OrderedConcat(a: seq<CodeSmell>, b: seq<CodeSmell>)
    requires StrictlyOrdered(a) && StrictlyOrdered(b)
    requires forall f, g :: f in a && g in b ==> Precedes(f, g)
    ensures StrictlyOrdered(a + b)
  {
    forall x, y | 0 <= x < y < |a + b| ensures Precedes((a + b)[x], (a + b)[y]) {
      if y < |a| {
      } else if x >= |a| {
        assert (a + b)[x] == b[x - |a|] && (a + b)[y] == b[y - |a|];
      } else {
        assert (a + b)[x] in a && (a + b)[y] in b;
      }
    }
  }

  /** The findings come in (pass, line) order: the `large_file` finding first, then the debt
      comments by ascending line, then the long lines by ascending line; no two are at the same
      line within a pass. */
  lemma GeneralPatternsOrder(filePath: string, content: string)
    ensures StrictlyOrdered(GeneralPatterns(filePath, content))
  {
    var lines := Lines(content);
    var large := LargeFilePass(filePath, lines);
    var m := MarkerPass(filePath, lines, |lines|);
    var l := LongLinePass(filePath, lines, |lines|);
    MarkerPassShape(filePath, lines, |lines|);
    LongLinePassShape(filePath, lines, |lines|);
    MarkerPassOrdered(filePath, lines, |lines|);
    LongLinePassOrdered(filePath, lines, |lines|);
    OrderedConcat(large, m);
    forall f, g | f in large + m && g in l ensures Precedes(f, g) {
      assert f in large || f in m;
    }
    OrderedConcat(large + m, l);
  }
}

/** The aggregation behind the HTML report and the executive summary: severity counts, grouping
    by smell type in first-appearance order, the per-group display cap, HTML escaping of the
    interpolated text, and the figures the summary is written from. */
module ReportAssembler {
  import opened Text
  import opened Models
  import opened Sorting

  // ----- severity counts -----

  /** The four severity values, the keys of `severity_counts`. */
  predicate IsSeverityValue(v: string)
  {
    v == "low" || v == "medium" || v == "high" || v == "critical"
  }

  /** The map has an entry for each severity value. */
  predicate HasSeverityKeys(counts: map<string, nat>)
  {
    "low" in counts && "medium" in counts && "high" in counts && "critical" in counts
  }

  /** `severity_counts`: a zero for each severity, then one increment per finding. */
  method CountBySeverity(smells: seq<CodeSmell>) returns (counts: map<string, nat>)
    ensures forall v :: v in counts <==> IsSeverityValue(v)
    ensures forall s: Severity :: SeverityValue(s) in counts && counts[SeverityValue(s)] == CountSeverity(smells, s)
  {
    counts := map["low" := 0, "medium" := 0, "high" := 0, "critical" := 0];
    var i := 0;
    while i < |smells|
      invariant i <= |smells|
      invariant forall v :: v in counts <==> IsSeverityValue(v)
      invariant forall s: Severity :: SeverityValue(s) in counts
                  && counts[SeverityValue(s)] == CountSeverity(smells[..i], s)
    {
      var smell := smells[i];
      forall s: Severity
        ensures CountSeverity(smells[..i + 1], s) == CountSeverity(smells[..i], s) + (if smell.severity == s then 1 else 0)
      {
        assert smells[..i + 1] == smells[..i] + [smell];
        CountSeverityAppend(smells[..i], [smell], s);
      }
      var key := SeverityValue(smell.severity);
      counts := counts[key := counts[key] + 1];
      i := i + 1;
    }
    assert smells[..|smells|] == smells;
  }

  // ----- grouping by smell type -----

  /** The smell types in order of first appearance: the key order of `smell_groups`. */
  function Kinds(smells: seq<CodeSmell>): (r: seq<string>)
    ensures forall i, j :: 0 <= i < j < |r| ==> r[i] != r[j]
  {
    if smells == [] then []
    else
      var init := Kinds(smells[..|smells| - 1]);
      var t := smells[|smells| - 1].smellType;
      if t in init then init else init + [t]
  }

  /** The findings of one smell type, in input order. */
  function OfKind(smells: seq<CodeSmell>, kind: string): seq<CodeSmell>
  {
    if smells == [] then []
    else
      var last := smells[|smells| - 1];
      OfKind(smells[..|smells| - 1], kind) + (if last.smellType == kind then [last] else [])
  }

  /** `smell_groups`: `order` is the dictionary's key order, `groups` its contents. */
  method GroupByType(smells: seq<CodeSmell>) returns (order: seq<string>, groups: map<string, seq<CodeSmell>>)
    ensures order == Kinds(smells)
    ensures forall k :: k in groups <==> k in order
    ensures forall k :: k in groups ==> groups[k] == OfKind(smells, k)
  {
    order := [];
    groups := map[];
    var i := 0;
    while i < |smells|
      invariant i <= |smells|
      invariant order == Kinds(smells[..i])
      invariant forall k :: k in groups <==> k in order
      invariant forall k :: k in groups ==> groups[k] == OfKind(smells[..i], k)
    {
      var smell := smells[i];
      assert smells[..i + 1][..i] == smells[..i];
      if smell.smellType !in groups {
        KindsAbsent(smells[..i], smell.smellType);
        groups := groups[smell.smellType := []];
        order := order + [smell.smellType];
      }
      groups := groups[smell.smellType := groups[smell.smellType] + [smell]];
      i := i + 1;
    }
    assert smells[..|smells|] == smells;
  }

  /** A type that is not among the keys has no findings yet. */
  lemma {:induction false} KindsAbsent(smells: seq<CodeSmell>, kind: string)
    requires kind !in Kinds(smells)
    ensures OfKind(smells, kind) == []
  {
    if smells != [] {
      KindsAbsent(smells[..|smells| - 1], kind);
    }
  }

  /** A type is a key exactly when some finding has it. */
  lemma {:induction false} KindsMembers(smells: seq<CodeSmell>, kind: string)
    ensures kind in Kinds(smells) <==> exists i :: 0 <= i < |smells| && smells[i].smellType == kind
  {
    if smells != [] {
      var init := smells[..|smells| - 1];
      KindsMembers(init, kind);
      if kind in Kinds(init) {
        var i :| 0 <= i < |init| && init[i].smellType == kind;
        assert smells[i] == init[i];
      }
      if exists i :: 0 <= i < |smells| && smells[i].smellType == kind {
        var i :| 0 <= i < |smells| && smells[i].smellType == kind;
        if i < |init| {
          assert init[i] == smells[i];
        }
      }
    }
  }

  /** A group holds exactly the findings of its type: as many as `CountKind` counts, all of that type. */
  lemma {:induction false} OfKindCount(smells: seq<CodeSmell>, kind: string)
    ensures |OfKind(smells, kind)| == CountKind(smells, kind)
    ensures forall i :: 0 <= i < |OfKind(smells, kind)| ==> OfKind(smells, kind)[i].smellType == kind
  {
    if smells != [] {
      var init := smells[..|smells| - 1];
      var last := smells[|smells| - 1];
      OfKindCount(init, kind);
      assert smells == init + [last];
      CountKindAppend(init, [last], kind);
    }
  }

  /** Summed counts of the given types. */
  function CountKinds(smells: seq<CodeSmell>, kinds: seq<string>): nat
  {
    if kinds == [] then 0 else CountKind(smells, kinds[0]) + CountKinds(smells, kinds[1..])
  }

  lemma {:induction false} CountKindsAppendKind(smells: seq<CodeSmell>, kinds: seq<string>, k: string)
    ensures CountKinds(smells, kinds + [k]) == CountKinds(smells, kinds) + CountKind(smells, k)
  {
    if kinds != [] {
      assert (kinds + [k])[1..] == kinds[1..] + [k];
      CountKindsAppendKind(smells, kinds[1..], k);
    } else {
      assert [k][1..] == [];
    }
  }

  /** One more finding adds one to the summed counts when its type is listed once, nothing otherwise. */
  lemma {:induction false} CountKindsAppendSmell(smells: seq<CodeSmell>, x: CodeSmell, kinds: seq<string>)
    requires forall i, j :: 0 <= i < j < |kinds| ==> kinds[i] != kinds[j]
    ensures CountKinds(smells + [x], kinds) == CountKinds(smells, kinds) + (if x.smellType in kinds then 1 else 0)
  {
    if kinds != [] {
      CountKindsAppendSmell(smells, x, kinds[1..]);
      CountKindAppend(smells, [x], kinds[0]);
      assert [x][1..] == [];
      assert kinds == [kinds[0]] + kinds[1..];
      if x.smellType == kinds[0] {
        assert x.smellType !in kinds[1..];
      }
    }
  }

  /** The groups partition the findings: their sizes add up to the number of findings. */
  lemma {:induction false} GroupsPartition(smells: seq<CodeSmell>)
    ensures CountKinds(smells, Kinds(smells)) == |smells|
  {
    if smells != [] {
      var init := smells[..|smells| - 1];
      var x := smells[|smells| - 1];
      GroupsPartition(init);
      assert smells == init + [x];
      CountKindsAppendSmell(init, x, Kinds(init));
      if x.smellType !in Kinds(init) {
        KindsAbsent(init, x.smellType);
        OfKindCount(init, x.smellType);
        CountKindsAppendKind(smells, Kinds(init), x.smellType);
        CountKindsAppendSmell(init, x, Kinds(init));
        CountKindAppend(init, [x], x.smellType);
        assert [x][1..] == [];
      }
    }
  }

  // ----- display caps -----

  /** `xs[:cap]`. */
  function Shown<T>(xs: seq<T>, cap: nat): (r: seq<T>)
    ensures |r| == if |xs| <= cap then |xs| else cap
    ensures r == xs[..|r|]
    ensures |xs| <= cap ==> r == xs
  {
    if |xs| <= cap then xs else xs[..cap]
  }

  /** The "... and N more instances" line: present only past the cap, with N the rest. */
  function MoreCount(size: nat, cap: nat): (r: Option<nat>)
    ensures r.Some? <==> size > cap
    ensures r.Some? ==> r.value == size - cap && r.value > 0
  {
    if size > cap then Some(size - cap) else None
  }

  /** What is shown plus what is announced as "more" is the whole group. */
  lemma ShownPlusMore<T>(xs: seq<T>, cap: nat)
    ensures |Shown(xs, cap)| + (match MoreCount(|xs|, cap) case None => 0 case Some(n) => n) == |xs|
  {
  }

  // ----- HTML escaping -----

  /** `s.replace(c, rep)` for a one-character pattern. */
  function ReplaceChar(s: string, c: char, rep: string): string
  {
    if s == [] then [] else (if s[0] == c then rep else [s[0]]) + ReplaceChar(s[1..], c, rep)
  }

  /** `.replace('&', '&amp;').replace('<', '&lt;').replace('>', '&gt;')`, in that order. */
  function EscapeHtml(s: string): string
  {
    ReplaceChar(ReplaceChar(ReplaceChar(s, '&', "&amp;"), '<', "&lt;"), '>', "&gt;")
  }

  /** The escape of one character. */
  function EscapeChar(c: char): string
  {
    if c == '&' then "&amp;" else if c == '<' then "&lt;" else if c == '>' then "&gt;" else [c]
  }

  /** Escaping character by character in a single pass. */
  function EscapeEach(s: string): string
  {
    if s == [] then [] else EscapeChar(s[0]) + EscapeEach(s[1..])
  }

  lemma {:induction false} ReplaceCharAppend(a: string, b: string, c: char, rep: string)
    ensures ReplaceChar(a + b, c, rep) == ReplaceChar(a, c, rep) + ReplaceChar(b, c, rep)
  {
    if a != [] {
      assert (a + b)[1..] == a[1..] + b;
      ReplaceCharAppend(a[1..], b, c, rep);
    } else {
      assert a + b == b;
    }
  }

  lemma {:induction false} ReplaceCharAbsent(s: string, c: char, rep: string)
    requires c !in s
    ensures ReplaceChar(s, c, rep) == s
  {
    if s != [] {
      ReplaceCharAbsent(s[1..], c, rep);
      assert s == [s[0]] + s[1..];
    }
  }

  /** Replacing by a text without `c` leaves no `c`. */
  lemma {:induction false} ReplaceCharRemoves(s: string, c: char, rep: string)
    requires c !in rep
    ensures c !in ReplaceChar(s, c, rep)
  {
    if s != [] {
      ReplaceCharRemoves(s[1..], c, rep);
    }
  }

  lemma ReplaceCharSingle(x: char, c: char, rep: string)
    ensures ReplaceChar([x], c, rep) == if x == c then rep else [x]
  {
    assert [x][1..] == [];
  }

  lemma EscapeHtmlOneChar(c: char)
    ensures EscapeHtml([c]) == EscapeChar(c)
  {
    var r1 := ReplaceChar([c], '&', "&amp;");
    ReplaceCharSingle(c, '&', "&amp;");
    var r2 := ReplaceChar(r1, '<', "&lt;");
    if c == '&' {
      assert r1 == "&amp;";
      ReplaceCharAbsent(r1, '<', "&lt;");
      ReplaceCharAbsent(r2, '>', "&gt;");
    } else {
      assert r1 == [c];
      ReplaceCharSingle(c, '<', "&lt;");
      if c == '<' {
        assert r2 == "&lt;";
        ReplaceCharAbsent(r2, '>', "&gt;");
      } else {
        assert r2 == [c];
        ReplaceCharSingle(c, '>', "&gt;");
      }
    }
  }

  /** The three chained replacements escape every character once: because `&` goes first, the
      `&` of an inserted `&lt;` or `&gt;` is not escaped again. */
  lemma {:induction false} EscapeHtmlIsSinglePass(s: string)
    ensures EscapeHtml(s) == EscapeEach(s)
  {
    if s != [] {
      EscapeHtmlIsSinglePass(s[1..]);
      assert s == [s[0]] + s[1..];
      var r1 := ReplaceChar([s[0]], '&', "&amp;");
      var t1 := ReplaceChar(s[1..], '&', "&amp;");
      ReplaceCharAppend([s[0]], s[1..], '&', "&amp;");
      ReplaceCharAppend(r1, t1, '<', "&lt;");
      ReplaceCharAppend(ReplaceChar(r1, '<', "&lt;"), ReplaceChar(t1, '<', "&lt;"), '>', "&gt;");
      EscapeHtmlOneChar(s[0]);
    }
  }

  /** Escaped text holds no `<` and no `>`, so it cannot open or close a tag. */
  lemma {:induction false} EscapedHasNoAngles(s: string)
    ensures '<' !in EscapeHtml(s) && '>' !in EscapeHtml(s)
  {
    EscapeHtmlIsSinglePass(s);
    EscapeEachHasNoAngles(s);
  }

  lemma {:induction false} EscapeEachHasNoAngles(s: string)
    ensures '<' !in EscapeEach(s) && '>' !in EscapeEach(s)
  {
    if s != [] {
      EscapeEachHasNoAngles(s[1..]);
    }
  }

  /** Reading the escaped text back: the three entities become their characters again. */
  function Unescape(s: string): string
    decreases |s|
  {
    if s == [] then []
    else if |s| >= 5 && s[..5] == "&amp;" then "&" + Unescape(s[5..])
    else if |s| >= 4 && s[..4] == "&lt;" then "<" + Unescape(s[4..])
    else if |s| >= 4 && s[..4] == "&gt;" then ">" + Unescape(s[4..])
    else [s[0]] + Unescape(s[1..])
  }

  lemma UnescapeAmp(rest: string)
    ensures Unescape("&amp;" + rest) == "&" + Unescape(rest)
  {
    var e := "&amp;" + rest;
    assert e[..5] == "&amp;" && e[5..] == rest;
  }

  /** The two four-character entities: `&lt;` reads back as `<` and `&gt;` as `>`. */
  lemma UnescapeAngle(c: char, rest: string)
    requires c == '<' || c == '>'
    ensures Unescape(EscapeChar(c) + rest) == [c] + Unescape(rest)
  {
    var e := EscapeChar(c) + rest;
    assert e[1] == (if c == '<' then 'l' else 'g');
    assert e[..4] == EscapeChar(c) && e[4..] == rest;
  }

  lemma UnescapePlain(c: char, rest: string)
    requires c != '&'
    ensures Unescape([c] + rest) == [c] + Unescape(rest)
  {
    var e := [c] + rest;
    assert e[0] == c && e[1..] == rest;
  }

  lemma UnescapeStep(c: char, rest: string)
    ensures Unescape(EscapeChar(c) + rest) == [c] + Unescape(rest)
  {
    if c == '&' {
      UnescapeAmp(rest);
    } else if c == '<' || c == '>' {
      UnescapeAngle(c, rest);
    } else {
      UnescapePlain(c, rest);
    }
  }

  /** Escaping loses nothing: unescaping gives the original text back. */
  lemma {:induction false} EscapeRoundTrip(s: string)
    ensures Unescape(EscapeHtml(s)) == s
  {
    EscapeHtmlIsSinglePass(s);
    EscapeEachRoundTrip(s);
  }

  lemma {:induction false} EscapeEachRoundTrip(s: string)
    ensures Unescape(EscapeEach(s)) == s
  {
    if s != [] {
      EscapeEachRoundTrip(s[1..]);
      UnescapeStep(s[0], EscapeEach(s[1..]));
      assert s == [s[0]] + s[1..];
    }
  }

  /** The summary as placed in the HTML: escaped, then each newline turned into `<br>`. It holds
      no newline, and turning each `<br>` back into a newline and decoding the entities gives the
      summary back: the escaped text has no `<` of its own, so every `<br>` marks a newline. */
  function SummaryHtml(summary: string): (r: string)
    ensures '\n' !in r
    ensures Unescape(BreaksToNewlines(r)) == summary
  {
    var escaped := EscapeHtml(summary);
    ReplaceCharRemoves(escaped, '\n', "<br>");
    EscapedHasNoAngles(summary);
    BreaksRoundTrip(escaped);
    EscapeRoundTrip(summary);
    ReplaceChar(escaped, '\n', "<br>")
  }

  /** Reading the HTML summary back: each `<br>` becomes a newline again. */
  function BreaksToNewlines(s: string): string
    decreases |s|
  {
    if s == [] then []
    else if |s| >= 4 && s[..4] == "<br>" then "\n" + BreaksToNewlines(s[4..])
    else [s[0]] + BreaksToNewlines(s[1..])
  }

  /** In a text with no `<` of its own, replacing newlines by `<br>` can be undone. */
  lemma {:induction false} BreaksRoundTrip(t: string)
    requires '<' !in t
    ensures BreaksToNewlines(ReplaceChar(t, '\n', "<br>")) == t
  {
    if t != [] {
      var rest := ReplaceChar(t[1..], '\n', "<br>");
      BreaksRoundTrip(t[1..]);
      if t[0] == '\n' {
        var e := "<br>" + rest;
        assert e[..4] == "<br>" && e[4..] == rest;
      } else {
        var e := [t[0]] + rest;
        assert e[0] == t[0] && e[1..] == rest;
      }
      assert t == [t[0]] + t[1..];
    }
  }

  // ----- the findings section of the HTML report -----

  const HtmlCap: nat := 5

  /** One shown finding, its text fields escaped. */
  datatype HtmlItem = HtmlItem(
    severityClass: string,
    filePath: string,
    lineNumber: int,
    confidence: nat,
    description: string,
    suggestedFix: string)

  /** One smell-group block: its type, its size, the first five findings and the "more" count. */
  datatype HtmlSection = HtmlSection(kind: string, size: nat, items: seq<HtmlItem>, more: Option<nat>)

  function HtmlItemOf(smell: CodeSmell): HtmlItem
  {
    HtmlItem(SeverityValue(smell.severity), EscapeHtml(smell.filePath), smell.lineNumber,
             smell.confidence, EscapeHtml(smell.description), EscapeHtml(smell.suggestedFix))
  }

  function HtmlItems(smells: seq<CodeSmell>): (r: seq<HtmlItem>)
    ensures |r| == |smells| && forall i :: 0 <= i < |smells| ==> r[i] == HtmlItemOf(smells[i])
  {
    seq(|smells|, i requires 0 <= i < |smells| => HtmlItemOf(smells[i]))
  }

  function HtmlSectionOf(smells: seq<CodeSmell>, kind: string): HtmlSection
  {
    var group := OfKind(smells, kind);
    HtmlSection(kind, |group|, HtmlItems(Shown(group, HtmlCap)), MoreCount(|group|, HtmlCap))
  }

  /** The sections of the report, one per smell type in first-appearance order. */
  function HtmlSections(smells: seq<CodeSmell>): (r: seq<HtmlSection>)
    ensures |r| == |Kinds(smells)|
    ensures forall i :: 0 <= i < |r| ==> r[i] == HtmlSectionOf(smells, Kinds(smells)[i])
  {
    var kinds := Kinds(smells);
    seq(|kinds|, i requires 0 <= i < |kinds| => HtmlSectionOf(smells, kinds[i]))
  }

  /** The findings part of `generate_html_report`: groups, then one block per group. */
  method BuildHtmlSections(smells: seq<CodeSmell>) returns (sections: seq<HtmlSection>)
    ensures sections == HtmlSections(smells)
  {
    var order, groups := GroupByType(smells);
    sections := [];
    var i := 0;
    while i < |order|
      invariant i <= |order|
      invariant |sections| == i
      invariant forall j :: 0 <= j < i ==> sections[j] == HtmlSectionOf(smells, order[j])
    {
      var section := RenderSection(order[i], groups[order[i]]);
      sections := sections + [section];
      i := i + 1;
    }
  }

  /** One group's block: its heading count, up to five escaped findings, and the "more" line. */
  method RenderSection(kind: string, group: seq<CodeSmell>) returns (section: HtmlSection)
    ensures section == HtmlSection(kind, |group|, HtmlItems(Shown(group, HtmlCap)), MoreCount(|group|, HtmlCap))
  {
    var items := RenderItems(Shown(group, HtmlCap));
    var more := if |group| > HtmlCap then Some(|group| - HtmlCap) else None;
    section := HtmlSection(kind, |group|, items, more);
  }

  /** The loop over a group's shown findings, escaping each. */
  method RenderItems(shown: seq<CodeSmell>) returns (items: seq<HtmlItem>)
    ensures items == HtmlItems(shown)
  {
    items := [];
    var j := 0;
    while j < |shown|
      invariant j <= |shown|
      invariant items == HtmlItems(shown[..j])
    {
      items := items + [HtmlItemOf(shown[j])];
      j := j + 1;
    }
    assert shown[..|shown|] == shown;
  }

  /** Every section lists its first five findings (all of them when it has fewer), all of its own type, the first ones of that type
      in input order, with escaped text; its "more" count is the rest of the group; and the section
      sizes add up to the number of findings. No findings: no sections, the "No Issues Found" page. */
  lemma HtmlSectionsRule(smells: seq<CodeSmell>)
    ensures var r := HtmlSections(smells);
            && (smells == [] <==> r == [])
            && forall i :: 0 <= i < |r| ==>
                 && r[i].size == CountKind(smells, r[i].kind) > 0
                 && |r[i].items| == (if r[i].size <= HtmlCap then r[i].size else HtmlCap)
                 && r[i].items == HtmlItems(OfKind(smells, r[i].kind)[..|r[i].items|])
                 && (r[i].more.Some? <==> r[i].size > HtmlCap)
                 && (r[i].more.Some? ==> |r[i].items| + r[i].more.value == r[i].size)
                 && (forall j :: 0 <= j < |r[i].items| ==>
                       '<' !in r[i].items[j].description && '>' !in r[i].items[j].description)
  {
    var r := HtmlSections(smells);
    if smells == [] {
      assert Kinds(smells) == [];
    } else {
      KindsMembers(smells, smells[0].smellType);
    }
    forall i | 0 <= i < |r|
      ensures r[i].size == CountKind(smells, r[i].kind) > 0
      ensures forall j :: 0 <= j < |r[i].items| ==>
                '<' !in r[i].items[j].description && '>' !in r[i].items[j].description
    {
      var kind := Kinds(smells)[i];
      OfKindCount(smells, kind);
      KindsMembers(smells, kind);
      var w :| 0 <= w < |smells| && smells[w].smellType == kind;
      CountKindPositive(smells, kind, w);
      forall j | 0 <= j < |r[i].items|
        ensures '<' !in r[i].items[j].description && '>' !in r[i].items[j].description
      {
        EscapedHasNoAngles(Shown(OfKind(smells, kind), HtmlCap)[j].description);
      }
    }
  }

  lemma {:induction false} CountKindPositive(smells: seq<CodeSmell>, kind: string, w: nat)
    requires w < |smells| && smells[w].smellType == kind
    ensures CountKind(smells, kind) > 0
  {
    if w > 0 {
      CountKindPositive(smells[1..], kind, w - 1);
    }
  }

  // ----- the executive-summary figures -----

  /** `smell_counts`: a count per smell type, keyed in first-appearance order. */
  method CountByType(smells: seq<CodeSmell>) returns (order: seq<string>, counts: map<string, nat>)
    ensures order == Kinds(smells)
    ensures forall k :: k in counts <==> k in order
    ensures forall k :: k in counts ==> counts[k] == CountKind(smells, k)
  {
    order := [];
    counts := map[];
    var i := 0;
    while i < |smells|
      invariant i <= |smells|
      invariant order == Kinds(smells[..i])
      invariant forall k :: k in counts <==> k in order
      invariant forall k :: k in counts ==> counts[k] == CountKind(smells[..i], k)
    {
      assert smells[..i + 1] == smells[..i] + [smells[i]];
      order, counts := TallyOne(smells[..i], smells[i], order, counts);
      i := i + 1;
    }
    assert smells[..|smells|] == smells;
  }

  /** One step of the tally: the finding's type count goes up by one, a new type is appended. */
  method TallyOne(seen: seq<CodeSmell>, smell: CodeSmell, order: seq<string>, counts: map<string, nat>)
    returns (order': seq<string>, counts': map<string, nat>)
    requires order == Kinds(seen)
    requires forall k :: k in counts <==> k in order
    requires forall k :: k in counts ==> counts[k] == CountKind(seen, k)
    ensures order' == Kinds(seen + [smell])
    ensures forall k :: k in counts' <==> k in order'
    ensures forall k :: k in counts' ==> counts'[k] == CountKind(seen + [smell], k)
  {
    assert (seen + [smell])[..|seen|] == seen;
    forall k
      ensures CountKind(seen + [smell], k) == CountKind(seen, k) + (if smell.smellType == k then 1 else 0)
    {
      CountKindAppend(seen, [smell], k);
    }
    if smell.smellType !in counts {
      KindsAbsent(seen, smell.smellType);
      OfKindCount(seen, smell.smellType);
    }
    var current := if smell.smellType in counts then counts[smell.smellType] else 0;
    counts' := counts[smell.smellType := current + 1];
    order' := order + (if smell.smellType in order then [] else [smell.smellType]);
  }

  /** `smell_counts.items()`: the loop over the types in key order. */
  method CountItems(smells: seq<CodeSmell>, order: seq<string>, counts: map<string, nat>)
    returns (items: seq<(string, nat)>)
    requires order == Kinds(smells)
    requires forall k :: k in counts <==> k in order
    requires forall k :: k in counts ==> counts[k] == CountKind(smells, k)
    ensures items == TypeCounts(smells)
  {
    items := [];
    var i := 0;
    while i < |order|
      invariant i <= |order|
      invariant |items| == i && forall j :: 0 <= j < i ==> items[j] == (order[j], CountKind(smells, order[j]))
    {
      items := items + [(order[i], counts[order[i]])];
      i := i + 1;
    }
  }

  /** The `(type, count)` items of `smell_counts`, in key order. */
  function TypeCounts(smells: seq<CodeSmell>): (r: seq<(string, nat)>)
    ensures |r| == |Kinds(smells)|
    ensures forall i :: 0 <= i < |r| ==> r[i] == (Kinds(smells)[i], CountKind(smells, Kinds(smells)[i]))
  {
    var kinds := Kinds(smells);
    seq(|kinds|, i requires 0 <= i < |kinds| => (kinds[i], CountKind(smells, kinds[i])))
  }

  function CountOf(item: (string, nat)): nat
  {
    item.1
  }

  /** `sorted(smell_counts.items(), key=count, reverse=True)[:5]`. */
  function TopSmells(smells: seq<CodeSmell>): seq<(string, nat)>
  {
    Shown(SortDesc(TypeCounts(smells), CountOf), 5)
  }

  /** The top list has five types (all of them when there are fewer), each with its true count, from most to least frequent;
      a type left out occurs no more often than any type listed; and types with equal counts
      keep their first-appearance order. */
  lemma TopSmellsRule(smells: seq<CodeSmell>, k: nat)
    ensures var top := TopSmells(smells);
            var sorted := SortDesc(TypeCounts(smells), CountOf);
            && |top| == (if |Kinds(smells)| <= 5 then |Kinds(smells)| else 5)
            && top == sorted[..|top|]
            && (forall i :: 0 <= i < |top| ==> top[i].1 == CountKind(smells, top[i].0) > 0)
            && (forall i, j :: 0 <= i < j < |top| ==> top[i].1 >= top[j].1)
            && (forall i, j :: 0 <= i < |top| && |top| <= j < |sorted| ==> top[i].1 >= sorted[j].1)
            && WithKey(sorted, CountOf, k) == WithKey(TypeCounts(smells), CountOf, k)
  {
    var items := TypeCounts(smells);
    SortDescSorted(items, CountOf);
    SortDescStable(items, CountOf, k);
    SortedCounts(smells);
  }

  /** The sorted counts are the types present, each with its true, positive count. */
  lemma SortedCounts(smells: seq<CodeSmell>)
    ensures var sorted := SortDesc(TypeCounts(smells), CountOf);
            && |sorted| == |Kinds(smells)|
            && forall i :: 0 <= i < |sorted| ==> sorted[i].1 == CountKind(smells, sorted[i].0) > 0
  {
    var items := TypeCounts(smells);
    var sorted := SortDesc(items, CountOf);
    SortDescSorted(items, CountOf);
    assert |sorted| == |multiset(sorted)| == |multiset(items)| == |items|;
    forall i | 0 <= i < |sorted|
      ensures sorted[i].1 == CountKind(smells, sorted[i].0) > 0
    {
      assert sorted[i] in multiset(items);
      var m :| 0 <= m < |items| && items[m] == sorted[i];
      var kind := Kinds(smells)[m];
      KindsMembers(smells, kind);
      var w :| 0 <= w < |smells| && smells[w].smellType == kind;
      CountKindPositive(smells, kind, w);
    }
  }

  /** The figures the executive summary is written from. */
  datatype SummaryFigures = SummaryFigures(
    totalIssues: nat,
    criticalIssues: nat,
    highIssues: nat,
    topSmells: seq<(string, nat)>,
    trends: seq<string>)

  /** The aggregation at the head of `generate_executive_summary`. */
  method AggregateSummary(smells: seq<CodeSmell>, metrics: seq<DebtMetric>) returns (f: SummaryFigures)
    ensures f.totalIssues == |smells|
    ensures f.criticalIssues == CountSeverity(smells, Critical)
    ensures f.highIssues == CountSeverity(smells, High)
    ensures f.topSmells == TopSmells(smells)
    ensures |f.trends| == |metrics| && forall i :: 0 <= i < |metrics| ==> f.trends[i] == metrics[i].metricName
  {
    var severityCounts := CountBySeverity(smells);
    var order, counts := CountByType(smells);
    var items := CountItems(smells, order, counts);
    var trends := seq(|metrics|, j requires 0 <= j < |metrics| => metrics[j].metricName);
    f := SummaryFigures(|smells|, severityCounts["critical"], severityCounts["high"],
                        Shown(SortDesc(items, CountOf), 5), trends);
    assert SeverityValue(Critical) == "critical" && SeverityValue(High) == "high";
  }
}

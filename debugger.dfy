/** The debug script's state and passes: the five issue lists, the checks that
    fill them, the panel they are shown in and the summary written to the log. */
module DebugScript {
  import opened Dom
  import opened Diagnostics
  import opened Rules

  // ---------------------------------------------------------------------
  // log(message, level)

  datatype Level = DebugLevel | InfoLevel | WarnLevel | ErrorLevel

  /** `DEBUG.logLevel` as shipped. */
  const ConfiguredLevel := InfoLevel

  /** The three early returns of `log`. */
  predicate Emits(level: Level, configured: Level)
  {
    && !(level == DebugLevel && configured != DebugLevel)
    && !(level == InfoLevel && configured == ErrorLevel)
    && !(level == WarnLevel && configured == ErrorLevel)
  }

  function Rank(l: Level): nat
  {
    match l
    case DebugLevel => 0
    case InfoLevel => 1
    case WarnLevel => 2
    case ErrorLevel => 3
  }

  /** For every setting but `warn`, `log` passes exactly the messages at least
      as severe as the setting; under `warn` it still passes `info` messages.
      All messages of the script are logged at `info`, which the shipped
      setting passes. */
  lemma EmitsByRank(level: Level, configured: Level)
    ensures configured != WarnLevel ==> (Emits(level, configured) <==> Rank(level) >= Rank(configured))
    ensures configured == WarnLevel ==> (Emits(level, configured) <==> level != DebugLevel)
    ensures Emits(InfoLevel, ConfiguredLevel)
  {
  }

  // ---------------------------------------------------------------------
  // The panel and the summary, as functions of the five lists

  /** The keys of `ISSUES`, in the order `Object.entries` yields them. */
  const Categories: seq<string> := ["textOverlap", "brokenButtons", "layoutIssues", "cssConflicts", "selectorFailures"]

  /** One category block of the panel: its name, its size, the messages of its
      first three issues and the "... and N more" remainder. */
  datatype Section = Section(category: string, count: nat, shown: seq<string>, more: Option<nat>)

  /** What `updateDebugPanel` writes: "Issues Found: N", the category blocks
      and whether the "No issues detected" line is added. */
  datatype PanelView = PanelView(total: nat, sections: seq<Section>, allClear: bool)

  function Total(lists: seq<seq<Issue>>): nat
  {
    if lists == [] then 0 else Total(lists[..|lists| - 1]) + |lists[|lists| - 1]|
  }

  function Min(a: nat, b: nat): nat
  {
    if a < b then a else b
  }

  function MessagesOf(issues: seq<Issue>): (r: seq<string>)
    ensures |r| == |issues|
    ensures forall i :: 0 <= i < |issues| ==> r[i] == issues[i].message
  {
    seq(|issues|, i requires 0 <= i < |issues| => issues[i].message)
  }

  function SectionFor(category: string, issues: seq<Issue>): Section
  {
    var n := |issues|;
    Section(category, n, MessagesOf(issues[..Min(3, n)]), if n > 3 then Some(n - 3) else None)
  }

  /** The blocks of the non-empty lists among the first `k`, in category order. */
  function SectionsUpTo(lists: seq<seq<Issue>>, k: nat): seq<Section>
    requires k <= |lists| <= |Categories|
  {
    if k == 0 then []
    else SectionsUpTo(lists, k - 1) + (if lists[k - 1] != [] then [SectionFor(Categories[k - 1], lists[k - 1])] else [])
  }

  function Panel(lists: seq<seq<Issue>>): PanelView
    requires |lists| == |Categories|
  {
    var total := Total(lists);
    PanelView(total, SectionsUpTo(lists, |lists|), total == 0)
  }

  const NoIssuesLine := "\U{2705} No issues detected"

  function FoundIssuesLine(total: nat): string
  {
    "\U{274C} Found " + NatToString(total) + " issues:"
  }

  function SummaryBlock(category: string, issues: seq<Issue>): seq<string>
  {
    var first := issues[..Min(2, |issues|)];
    ["  " + category + ": " + NatToString(|issues|) + " issues"]
      + seq(|first|, i requires 0 <= i < |first| => "    - " + first[i].message)
  }

  function SummaryUpTo(lists: seq<seq<Issue>>, k: nat): seq<string>
    requires k <= |lists| <= |Categories|
  {
    if k == 0 then []
    else SummaryUpTo(lists, k - 1) + (if lists[k - 1] != [] then SummaryBlock(Categories[k - 1], lists[k - 1]) else [])
  }

  /** The lines `logSummary` logs. */
  function SummaryLines(lists: seq<seq<Issue>>): seq<string>
    requires |lists| == |Categories|
  {
    var total := Total(lists);
    if total == 0 then [NoIssuesLine] else [FoundIssuesLine(total)] + SummaryUpTo(lists, |lists|)
  }

  /** The number of non-empty lists among the first `k`. */
  function NonEmpty(lists: seq<seq<Issue>>, k: nat): nat
    requires k <= |lists|
  {
    if k == 0 then 0 else NonEmpty(lists, k - 1) + (if lists[k - 1] != [] then 1 else 0)
  }

  lemma {:induction false} TotalZero(lists: seq<seq<Issue>>)
    ensures Total(lists) == 0 <==> forall k :: 0 <= k < |lists| ==> lists[k] == []
  {
    if lists != [] {
      var n := |lists| - 1;
      TotalZero(lists[..n]);
      assert forall k :: 0 <= k < n ==> lists[..n][k] == lists[k];
    }
  }

  /** A category block reports the whole count: the messages shown (at most
      three, the first ones) plus the remainder named in "... and N more". */
  lemma SectionCounts(category: string, issues: seq<Issue>)
    requires issues != []
    ensures var sec := SectionFor(category, issues);
            && sec.count == |issues| > 0
            && |sec.shown| == Min(3, |issues|)
            && (sec.more.Some? <==> |issues| > 3)
            && |sec.shown| + (if sec.more.Some? then sec.more.value else 0) == |issues|
            && (forall i :: 0 <= i < |sec.shown| ==> sec.shown[i] == issues[i].message)
  {
  }

  /** There is one block per non-empty list; each block is that of some
      non-empty list and each non-empty list has its block. */
  lemma {:induction false} SectionsExact(lists: seq<seq<Issue>>, k: nat)
    requires k <= |lists| <= |Categories|
    ensures |SectionsUpTo(lists, k)| == NonEmpty(lists, k)
    ensures forall j :: 0 <= j < |SectionsUpTo(lists, k)| ==>
              exists c :: 0 <= c < k && lists[c] != [] && SectionsUpTo(lists, k)[j] == SectionFor(Categories[c], lists[c])
    ensures forall c :: 0 <= c < k && lists[c] != [] ==>
              SectionFor(Categories[c], lists[c]) in SectionsUpTo(lists, k)
  {
    if k > 0 {
      SectionsExact(lists, k - 1);
      var prev := SectionsUpTo(lists, k - 1);
      var cur := SectionsUpTo(lists, k);
      assert forall j :: 0 <= j < |prev| ==> cur[j] == prev[j];
      forall j | 0 <= j < |cur|
        ensures exists c :: 0 <= c < k && lists[c] != [] && cur[j] == SectionFor(Categories[c], lists[c])
      {
        if j >= |prev| {
          assert cur[j] == SectionFor(Categories[k - 1], lists[k - 1]);
        } else {
          var c :| 0 <= c < k - 1 && lists[c] != [] && prev[j] == SectionFor(Categories[c], lists[c]);
          assert cur[j] == SectionFor(Categories[c], lists[c]);
        }
      }
    }
  }

  /** The panel's total is the sum of the list sizes; it shows the all-clear
      line exactly when every list is empty. */
  lemma PanelExact(lists: seq<seq<Issue>>)
    requires |lists| == |Categories|
    ensures var v := Panel(lists);
            && v.total == |lists[0]| + |lists[1]| + |lists[2]| + |lists[3]| + |lists[4]|
            && (v.allClear <==> forall k :: 0 <= k < |lists| ==> lists[k] == [])
            && (v.allClear <==> v.sections == [])
            && |v.sections| == NonEmpty(lists, |lists|) <= 5
  {
    TotalZero(lists);
    SectionsExact(lists, |lists|);
    TotalOfFive(lists);
    NonEmptyZero(lists, |lists|);
  }

  /** The total over the five categories, written out. */
  lemma TotalOfFive(lists: seq<seq<Issue>>)
    requires |lists| == 5
    ensures Total(lists) == |lists[0]| + |lists[1]| + |lists[2]| + |lists[3]| + |lists[4]|
  {
    assert lists[..4][..3] == lists[..3];
    assert lists[..3][..2] == lists[..2];
    assert lists[..2][..1] == lists[..1];
    assert lists[..1][..0] == [];
    assert Total(lists) == Total(lists[..4]) + |lists[4]|;
    assert Total(lists[..4]) == Total(lists[..3]) + |lists[3]|;
    assert Total(lists[..3]) == Total(lists[..2]) + |lists[2]|;
    assert Total(lists[..2]) == Total(lists[..1]) + |lists[1]|;
    assert Total(lists[..1]) == |lists[0]|;
  }

  lemma {:induction false} NonEmptyZero(lists: seq<seq<Issue>>, k: nat)
    requires k <= |lists|
    ensures NonEmpty(lists, k) == 0 <==> forall c :: 0 <= c < k ==> lists[c] == []
    ensures NonEmpty(lists, k) <= k
  {
    if k > 0 {
      NonEmptyZero(lists, k - 1);
    }
  }

  /** The summary logs, per category, the first two of the messages the panel
      shows for it. */
  lemma SummaryWithinPanel(category: string, issues: seq<Issue>)
    requires issues != []
    ensures var block := SummaryBlock(category, issues);
            var sec := SectionFor(category, issues);
            && |block| == 1 + Min(2, |sec.shown|)
            && forall i :: 1 <= i < |block| ==> block[i] == "    - " + sec.shown[i - 1]
  {
  }

  /** The summary is the single all-clear line exactly when every list is
      empty; otherwise it opens with the total, and it never exceeds one line
      plus three per category. */
  lemma {:induction false} SummaryShape(lists: seq<seq<Issue>>)
    requires |lists| == |Categories|
    ensures var lines := SummaryLines(lists);
            && (lines == [NoIssuesLine] <==> forall k :: 0 <= k < |lists| ==> lists[k] == [])
            && (Total(lists) > 0 ==> lines[0] == FoundIssuesLine(Total(lists)))
            && |lines| <= 16
  {
    TotalZero(lists);
    SummaryBound(lists, |lists|);
    var total := Total(lists);
    if total > 0 {
      var lines := SummaryLines(lists);
      var found := FoundIssuesLine(total);
      assert found[0] == '\U{274C}';
      assert lines[0] == found;
      assert lines[0] != NoIssuesLine by {
        assert NoIssuesLine[0] == '\U{2705}';
      }
    }
  }

  lemma {:induction false} SummaryBound(lists: seq<seq<Issue>>, k: nat)
    requires k <= |lists| <= |Categories|
    ensures |SummaryUpTo(lists, k)| <= 3 * k
  {
    if k > 0 {
      SummaryBound(lists, k - 1);
    }
  }

  // ---------------------------------------------------------------------
  // checkSelectorFailures' matching and its log lines

  /** `document.querySelectorAll(sel).length`, counted over the first `k` elements. */
  function CountMatches(es: seq<Element>, sel: string, k: nat): nat
    requires k <= |es|
  {
    if k == 0 then 0 else CountMatches(es, sel, k - 1) + (if SelectorMatches(sel, es[k - 1]) then 1 else 0)
  }

  lemma {:induction false} CountMatchesPositive(es: seq<Element>, sel: string, k: nat)
    requires k <= |es|
    ensures CountMatches(es, sel, k) > 0 <==> exists j | 0 <= j < k :: SelectorMatches(sel, es[j])
    ensures CountMatches(es, sel, k) <= k
  {
    if k > 0 {
      CountMatchesPositive(es, sel, k - 1);
    }
  }

  /** The "Found N elements for …" lines for the selectors that matched. */
  function FoundLogUpTo(es: seq<Element>, k: nat): seq<string>
    requires k <= |CheckedTestIds|
  {
    if k == 0 then []
    else
      var sel := TestIdSelector(CheckedTestIds[k - 1]);
      var n := CountMatches(es, sel, |es|);
      FoundLogUpTo(es, k - 1) + (if n > 0 then ["Found " + NatToString(n) + " elements for " + sel] else [])
  }

  /** Every listed selector is either reported missing or logged as found, never both. */
  lemma {:induction false} FoundOrMissing(es: seq<Element>, k: nat)
    requires k <= |CheckedTestIds|
    ensures |FoundLogUpTo(es, k)| + |FailuresUpTo(es, k)| == k
  {
    if k > 0 {
      FoundOrMissing(es, k - 1);
      CountMatchesPositive(es, TestIdSelector(CheckedTestIds[k - 1]), |es|);
    }
  }

  const RunningLine := "Running debug checks..."

  /** The `ISSUES` object and the checks over it. */
  class Debugger {
    var textOverlap: seq<Issue>
    var brokenButtons: seq<Issue>
    var layoutIssues: seq<Issue>
    var cssConflicts: seq<Issue>
    var selectorFailures: seq<Issue>

    /** The five lists in category order. */
    function Lists(): seq<seq<Issue>>
      reads this
    {
      [textOverlap, brokenButtons, layoutIssues, cssConflicts, selectorFailures]
    }

    constructor()
      ensures Lists() == [[], [], [], [], []]
    {
      textOverlap := [];
      brokenButtons := [];
      layoutIssues := [];
      cssConflicts := [];
      selectorFailures := [];
    }

    /** `document.querySelectorAll(q)`: the matching positions in document order. */
    static method QueryAll(es: seq<Element>, q: Query) returns (idx: seq<nat>)
      ensures idx == SelectAll(es, q)
    {
      idx := [];
      for k := 0 to |es|
        invariant idx == Select(es, q, k)
      {
        if MatchesQuery(es[k], q) {
          idx := idx + [k];
        }
      }
    }

    method CheckTextOverlap(s: Snapshot)
      requires Complete(s)
      modifies this
      ensures textOverlap == old(textOverlap) + TextOverlapIssues(s)
      ensures brokenButtons == old(brokenButtons) && layoutIssues == old(layoutIssues)
      ensures cssConflicts == old(cssConflicts) && selectorFailures == old(selectorFailures)
    {
      var idx := QueryAll(s.page, TextQuery);
      ghost var bs := TextBlocks(s, idx);
      for i := 0 to |idx|
        invariant textOverlap == old(textOverlap) + Flatten(bs[..i])
        invariant brokenButtons == old(brokenButtons) && layoutIssues == old(layoutIssues)
        invariant cssConflicts == old(cssConflicts) && selectorFailures == old(selectorFailures)
      {
        FlattenStep(bs, i);
        var pushed := TextElement(s, idx, i);
        TextBlocksAt(s, idx, i);
        AppendAssoc(old(textOverlap), Flatten(bs[..i]), bs[i]);
        textOverlap := textOverlap + pushed;
      }
      assert bs[..|idx|] == bs;
    }

    /** The body of the outer `forEach` of `checkTextOverlap`: the issues it
        pushes for the `i`-th text element. */
    static method TextElement(s: Snapshot, idx: seq<nat>, i: nat) returns (pushed: seq<Issue>)
      requires Complete(s) && Positions(s, idx) && i < |idx|
      ensures pushed == TextBlock(s, idx, i)
    {
      var p := idx[i];
      var b := s.boxes[p];
      var sel := SelectorFor(s.page[p]);
      if ZeroSize(b.rect) {
        return [Issue(Invisible, Some(p), sel, "Text element has zero dimensions")];
      }
      pushed := [];
      if Overflows(b) {
        pushed := [Issue(Overflow, Some(p), sel, "Text content overflows container")];
      }
      var overlaps := OverlapsOf(s, idx, i);
      pushed := pushed + overlaps;
    }

    /** The inner `forEach` of `checkTextOverlap`: one issue per other text
        element whose rectangle meets that of the `i`-th. */
    static method OverlapsOf(s: Snapshot, idx: seq<nat>, i: nat) returns (found: seq<Issue>)
      requires Complete(s) && Positions(s, idx) && i < |idx|
      ensures found == OverlapsUpTo(s, idx, i, |idx|)
    {
      var p := idx[i];
      var rect := s.boxes[p].rect;
      var sel := SelectorFor(s.page[p]);
      found := [];
      for m := 0 to |idx|
        invariant found == OverlapsUpTo(s, idx, i, m)
      {
        if m != i && RectsOverlap(rect, s.boxes[idx[m]].rect) {
          found := found + [Issue(Overlap, Some(p), sel, "Overlaps with " + SelectorFor(s.page[idx[m]]))];
        }
      }
    }

    method CheckBrokenButtons(s: Snapshot)
      requires Complete(s)
      modifies this
      ensures brokenButtons == old(brokenButtons) + BrokenButtonIssues(s)
      ensures textOverlap == old(textOverlap) && layoutIssues == old(layoutIssues)
      ensures cssConflicts == old(cssConflicts) && selectorFailures == old(selectorFailures)
    {
      var idx := QueryAll(s.page, ButtonQuery);
      ghost var bs := ButtonBlocks(s, idx);
      for i := 0 to |idx|
        invariant brokenButtons == old(brokenButtons) + Flatten(bs[..i])
        invariant textOverlap == old(textOverlap) && layoutIssues == old(layoutIssues)
        invariant cssConflicts == old(cssConflicts) && selectorFailures == old(selectorFailures)
      {
        FlattenStep(bs, i);
        var pushed := ButtonElement(s, idx[i]);
        ButtonBlocksAt(s, idx, i);
        AppendAssoc(old(brokenButtons), Flatten(bs[..i]), bs[i]);
        brokenButtons := brokenButtons + pushed;
      }
      assert bs[..|idx|] == bs;
    }

    /** The body of the `forEach` of `checkBrokenButtons`: the issues it
        pushes for the button at `p`. */
    static method ButtonElement(s: Snapshot, p: nat) returns (pushed: seq<Issue>)
      requires Complete(s) && p < |s.page|
      ensures pushed == ButtonBlock(s, p)
    {
      var b := s.boxes[p];
      var sel := SelectorFor(s.page[p]);
      if ZeroSize(b.rect) {
        return [Issue(Invisible, Some(p), sel, "Button has zero dimensions")];
      }
      if IsHiddenBox(b) {
        return [Issue(Hidden, Some(p), sel, "Button is hidden")];
      }
      pushed := [];
      var text := TextContent(s.page, p);
      if IsBlank(text) {
        pushed := pushed + [Issue(NoText, Some(p), sel, "Button has no visible text")];
      }
      if OffScreenRect(b.rect, s.viewportWidth, s.viewportHeight) {
        pushed := pushed + [Issue(OffScreen, Some(p), sel, "Button positioned off-screen")];
      }
    }

    method CheckLayoutIssues(s: Snapshot)
      requires Complete(s)
      modifies this
      ensures layoutIssues == old(layoutIssues) + LayoutIssues(s)
      ensures textOverlap == old(textOverlap) && brokenButtons == old(brokenButtons)
      ensures cssConflicts == old(cssConflicts) && selectorFailures == old(selectorFailures)
    {
      var primary := FirstWithTestId(s.page, "primaryColumn", 0);
      var sidebar := FirstWithTestId(s.page, "sidebarColumn", 0);
      if primary.Some? {
        var p := primary.value;
        var r := s.boxes[p].rect;
        if r.width < 300 {
          layoutIssues := layoutIssues +
            [Issue(NarrowColumn, Some(p), PrimarySelector, "Primary column too narrow: " + IntToString(r.width) + "px")];
        }
        if r.left < 0 {
          layoutIssues := layoutIssues +
            [Issue(ColumnOffset, Some(p), PrimarySelector, "Primary column positioned off-screen: left=" + IntToString(r.left) + "px")];
        }
      }
      assert layoutIssues == old(layoutIssues) + PrimaryIssues(s);
      if sidebar.Some? {
        var q := sidebar.value;
        var r := s.boxes[q].rect;
        if r.left > 0 && r.width < 200 {
          layoutIssues := layoutIssues +
            [Issue(SidebarNarrow, Some(q), SidebarSelector, "Sidebar too narrow: " + IntToString(r.width) + "px")];
        }
      }
    }

    method CheckCssConflicts(s: Snapshot)
      requires Complete(s)
      modifies this
      ensures cssConflicts == old(cssConflicts) + CssConflictIssues(s)
      ensures textOverlap == old(textOverlap) && brokenButtons == old(brokenButtons)
      ensures layoutIssues == old(layoutIssues) && selectorFailures == old(selectorFailures)
    {
      var idx := QueryAll(s.page, StyledQuery);
      ghost var bs := CssBlocks(s, idx);
      for i := 0 to |idx|
        invariant cssConflicts == old(cssConflicts) + Flatten(bs[..i])
        invariant textOverlap == old(textOverlap) && brokenButtons == old(brokenButtons)
        invariant layoutIssues == old(layoutIssues) && selectorFailures == old(selectorFailures)
      {
        FlattenStep(bs, i);
        var pushed := StyledElement(s, idx[i]);
        CssBlocksAt(s, idx, i);
        AppendAssoc(old(cssConflicts), Flatten(bs[..i]), bs[i]);
        cssConflicts := cssConflicts + pushed;
      }
      assert bs[..|idx|] == bs;
    }

    /** The body of the `forEach` of `checkCSSConflicts`: the issues it pushes for the element at `p`. */
    static method StyledElement(s: Snapshot, p: nat) returns (pushed: seq<Issue>)
      requires Complete(s) && p < |s.page|
      ensures pushed == CssBlock(s, p)
    {
      var e := s.page[p];
      var b := s.boxes[p];
      pushed := [];
      if Mono in e.classes {
        if !Contains(b.fontFamily, "Monaco") && !Contains(b.fontFamily, "Menlo") && !Contains(b.fontFamily, "monospace") {
          pushed := pushed + [Issue(FontOverride, Some(p), SelectorFor(e), "Monospace font not applied: " + b.fontFamily)];
        }
      }
      if Compact in e.classes {
        if b.padding != CompactPadding {
          pushed := pushed + [Issue(PaddingOverride, Some(p), SelectorFor(e), "Compact padding not applied: " + b.padding)];
        }
      }
    }

    /** Returns the "Found N elements for …" lines it logs. */
    method CheckSelectorFailures(es: seq<Element>) returns (logged: seq<string>)
      modifies this
      ensures selectorFailures == old(selectorFailures) + SelectorFailureIssues(es)
      ensures logged == FoundLogUpTo(es, |CheckedTestIds|)
      ensures textOverlap == old(textOverlap) && brokenButtons == old(brokenButtons)
      ensures layoutIssues == old(layoutIssues) && cssConflicts == old(cssConflicts)
    {
      logged := [];
      for k := 0 to |CheckedTestIds|
        invariant selectorFailures == old(selectorFailures) + FailuresUpTo(es, k)
        invariant logged == FoundLogUpTo(es, k)
        invariant textOverlap == old(textOverlap) && brokenButtons == old(brokenButtons)
        invariant layoutIssues == old(layoutIssues) && cssConflicts == old(cssConflicts)
      {
        var missing, found := CheckSelector(es, k);
        AppendAssoc(old(selectorFailures), FailuresUpTo(es, k), missing);
        AppendAssoc(FoundLogUpTo(es, k), found, []);
        selectorFailures := selectorFailures + missing;
        logged := logged + found;
      }
    }

    /** The body of the `forEach` of `checkSelectorFailures` for the `k`-th
        selector: the issue it pushes and the line it logs. */
    static method CheckSelector(es: seq<Element>, k: nat) returns (missing: seq<Issue>, found: seq<string>)
      requires k < |CheckedTestIds|
      ensures FailuresUpTo(es, k + 1) == FailuresUpTo(es, k) + missing
      ensures FoundLogUpTo(es, k + 1) == FoundLogUpTo(es, k) + found
    {
      var sel := TestIdSelector(CheckedTestIds[k]);
      var n := CountAll(es, sel);
      CountMatchesPositive(es, sel, |es|);
      if n == 0 {
        missing, found := [MissingIssue(sel)], [];
      } else {
        missing, found := [], ["Found " + NatToString(n) + " elements for " + sel];
      }
    }

    /** `document.querySelectorAll(sel).length`. */
    static method CountAll(es: seq<Element>, sel: string) returns (n: nat)
      ensures n == CountMatches(es, sel, |es|)
    {
      n := 0;
      for j := 0 to |es|
        invariant n == CountMatches(es, sel, j)
      {
        if SelectorMatches(sel, es[j]) {
          n := n + 1;
        }
      }
    }

    /** Writes the panel when both its container and its content block exist. */
    method UpdateDebugPanel(panelPresent: bool, contentPresent: bool) returns (view: Option<PanelView>)
      ensures view == if panelPresent && contentPresent then Some(Panel(Lists())) else None
    {
      if !panelPresent || !contentPresent {
        return None;
      }
      var lists := Lists();
      var total := CountIssues(lists);
      var sections := [];
      for k := 0 to |lists|
        invariant sections == SectionsUpTo(lists, k)
      {
        var n := |lists[k]|;
        if n > 0 {
          var shown := MessagesOf(lists[k][..if n < 3 then n else 3]);
          sections := sections + [Section(Categories[k], n, shown, if n > 3 then Some(n - 3) else None)];
        }
      }
      view := Some(PanelView(total, sections, total == 0));
    }

    /** The lines `logSummary` logs. */
    method LogSummary() returns (lines: seq<string>)
      ensures lines == SummaryLines(Lists())
    {
      var lists := Lists();
      var total := CountIssues(lists);
      if total == 0 {
        return [NoIssuesLine];
      }
      lines := [FoundIssuesLine(total)];
      for k := 0 to |lists|
        invariant lines == [FoundIssuesLine(total)] + SummaryUpTo(lists, k)
      {
        if |lists[k]| > 0 {
          var block := SummaryOf(Categories[k], lists[k]);
          AppendAssoc([FoundIssuesLine(total)], SummaryUpTo(lists, k), block);
          lines := lines + block;
        }
      }
    }

    /** `Object.values(ISSUES).reduce((sum, issues) => sum + issues.length, 0)`. */
    static method CountIssues(lists: seq<seq<Issue>>) returns (total: nat)
      ensures total == Total(lists)
    {
      total := 0;
      for k := 0 to |lists|
        invariant total == Total(lists[..k])
      {
        assert lists[..k + 1][..k] == lists[..k];
        total := total + |lists[k]|;
      }
      assert lists[..|lists|] == lists;
    }

    /** The lines `logSummary` logs for one non-empty category. */
    static method SummaryOf(category: string, issues: seq<Issue>) returns (block: seq<string>)
      ensures block == SummaryBlock(category, issues)
    {
      block := ["  " + category + ": " + NatToString(|issues|) + " issues"];
      var first := issues[..Min(2, |issues|)];
      for j := 0 to |first|
        invariant block == ["  " + category + ": " + NatToString(|issues|) + " issues"]
                           + seq(j, i requires 0 <= i < j => "    - " + first[i].message)
      {
        block := block + ["    - " + first[j].message];
      }
    }

    /** `initDebug` with debugging enabled, as shipped: the panel is added,
        with its content block, before the first run. */
    method InitDebug(s: Snapshot) returns (view: Option<PanelView>, log: seq<string>)
      requires Complete(s)
      modifies this
      ensures textOverlap == TextOverlapIssues(s) && brokenButtons == BrokenButtonIssues(s)
      ensures layoutIssues == LayoutIssues(s) && cssConflicts == CssConflictIssues(s)
      ensures selectorFailures == SelectorFailureIssues(s.page)
      ensures view == Some(Panel(Lists()))
      ensures log == [RunningLine] + FoundLogUpTo(s.page, |CheckedTestIds|) + SummaryLines(Lists())
    {
      view, log := RunDebugChecks(s, true, true);
    }

    /** One run: clear the lists, run the five checks, update the panel and log
        the summary. The lists afterwards depend only on the snapshot. */
    method RunDebugChecks(s: Snapshot, panelPresent: bool, contentPresent: bool)
      returns (view: Option<PanelView>, log: seq<string>)
      requires Complete(s)
      modifies this
      ensures textOverlap == TextOverlapIssues(s) && brokenButtons == BrokenButtonIssues(s)
      ensures layoutIssues == LayoutIssues(s) && cssConflicts == CssConflictIssues(s)
      ensures selectorFailures == SelectorFailureIssues(s.page)
      ensures view == if panelPresent && contentPresent then Some(Panel(Lists())) else None
      ensures log == [RunningLine] + FoundLogUpTo(s.page, |CheckedTestIds|) + SummaryLines(Lists())
    {
      textOverlap, brokenButtons, layoutIssues, cssConflicts, selectorFailures := [], [], [], [], [];
      CheckTextOverlap(s);
      assert textOverlap == TextOverlapIssues(s);
      CheckBrokenButtons(s);
      assert brokenButtons == BrokenButtonIssues(s);
      CheckLayoutIssues(s);
      assert layoutIssues == LayoutIssues(s);
      CheckCssConflicts(s);
      assert cssConflicts == CssConflictIssues(s);
      var found := CheckSelectorFailures(s.page);
      assert selectorFailures == SelectorFailureIssues(s.page);
      view := UpdateDebugPanel(panelPresent, contentPresent);
      var summary := LogSummary();
      log := [RunningLine] + found + summary;
    }
  }
}

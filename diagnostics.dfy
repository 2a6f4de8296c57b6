/** What the five checks of the debug script report for one snapshot of the
    page. Rectangles, computed styles and the viewport size are inputs taken
    from the snapshot; only the decisions are modelled. */
module Diagnostics {
  import opened Dom
  import opened Rules

  /** `getBoundingClientRect()`, in whole pixels. */
  datatype Rect = Rect(left: int, top: int, right: int, bottom: int, width: int, height: int)

  /** What layout and `getComputedStyle` report for one element. */
  datatype Box = Box(
    rect: Rect,
    scrollWidth: int, clientWidth: int, scrollHeight: int, clientHeight: int,
    display: string, visibility: string, fontFamily: string, padding: string)

  /** The page, one box per element, and `window.innerWidth`/`innerHeight`. */
  datatype Snapshot = Snapshot(page: seq<Element>, boxes: seq<Box>, viewportWidth: int, viewportHeight: int)

  predicate Complete(s: Snapshot)
  {
    |s.boxes| == |s.page|
  }

  datatype IssueKind =
    | Invisible | Overflow | Overlap
    | Hidden | NoText | OffScreen
    | NarrowColumn | ColumnOffset | SidebarNarrow
    | FontOverride | PaddingOverride
    | Missing

  /** One entry of an issue list; `element` is absent for selector misses. */
  datatype Issue = Issue(kind: IssueKind, element: Option<nat>, selector: string, message: string)

  // ---------------------------------------------------------------------
  // rectsOverlap

  /** Edges compare strictly, so rectangles that only touch still overlap. */
  predicate RectsOverlap(a: Rect, b: Rect)
  {
    !(a.right < b.left || a.left > b.right || a.bottom < b.top || a.top > b.bottom)
  }

  predicate Proper(r: Rect)
  {
    r.left <= r.right && r.top <= r.bottom
  }

  ghost predicate CommonPoint(a: Rect, b: Rect, x: int, y: int)
  {
    a.left <= x <= a.right && b.left <= x <= b.right && a.top <= y <= a.bottom && b.top <= y <= b.bottom
  }

  lemma OverlapSymmetric(a: Rect, b: Rect)
    ensures RectsOverlap(a, b) == RectsOverlap(b, a)
  {
  }

  /** For proper rectangles, overlapping means sharing a point of their closed
      areas, edges included. */
  lemma OverlapMeansCommonPoint(a: Rect, b: Rect)
    requires Proper(a) && Proper(b)
    ensures RectsOverlap(a, b) <==> exists x, y :: CommonPoint(a, b, x, y)
  {
    if RectsOverlap(a, b) {
      var x := if a.left < b.left then b.left else a.left;
      var y := if a.top < b.top then b.top else a.top;
      assert CommonPoint(a, b, x, y);
    }
  }

  /** Rectangles that only share an edge count as overlapping. */
  lemma TouchingEdgesOverlap(a: Rect, b: Rect)
    requires Proper(a) && Proper(b)
    requires a.right == b.left && a.top <= b.bottom && b.top <= a.bottom
    ensures RectsOverlap(a, b) && RectsOverlap(b, a)
  {
  }

  /** A proper rectangle overlaps itself: the reason an element is never
      compared with itself. */
  lemma SelfOverlap(a: Rect)
    requires Proper(a)
    ensures RectsOverlap(a, a)
  {
  }

  // ---------------------------------------------------------------------
  // getElementSelector and the selectors it produces

  const TestIdPrefix := "[data-testid=\""
  const TestIdSuffix := "\"]"

  function TestIdSelector(t: string): string
  {
    TestIdPrefix + t + TestIdSuffix
  }

  /** `#id` if the element has an id, else its `data-testid` selector, else its lower-cased tag. */
  function SelectorFor(e: Element): string
  {
    if e.id != "" then "#" + e.id
    else if e.testId != "" then TestIdSelector(e.testId)
    else Lower(e.tag)
  }

  /** Whether a selector of the three shapes above matches an element, read
      literally: CSS escaping of the pasted id or test id is not modelled. */
  predicate SelectorMatches(sel: string, e: Element)
  {
    if |sel| >= 1 && sel[0] == '#' then e.id == sel[1..]
    else if |sel| >= |TestIdPrefix| + |TestIdSuffix| && sel[..|TestIdPrefix|] == TestIdPrefix
            && sel[|sel| - |TestIdSuffix|..] == TestIdSuffix
    then e.testId == sel[|TestIdPrefix|..|sel| - |TestIdSuffix|]
    else sel == Lower(e.tag)
  }

  predicate IsLetter(c: char)
  {
    'a' <= c <= 'z' || 'A' <= c <= 'Z'
  }

  /** A `[data-testid="t"]` selector matches exactly the elements whose test id is `t`. */
  lemma TestIdSelectorMatches(t: string, e: Element)
    ensures SelectorMatches(TestIdSelector(t), e) <==> e.testId == t
  {
    var sel := TestIdSelector(t);
    assert sel[0] == '[';
    assert sel[..|TestIdPrefix|] == TestIdPrefix;
    assert sel[|sel| - |TestIdSuffix|..] == TestIdSuffix;
    assert sel[|TestIdPrefix|..|sel| - |TestIdSuffix|] == t;
  }

  /** The selector `getElementSelector` builds matches the element it was built
      from, provided its tag name starts with a letter as HTML tag names do. */
  lemma SelectorFindsElement(e: Element)
    requires |e.tag| >= 1 && IsLetter(e.tag[0])
    ensures SelectorMatches(SelectorFor(e), e)
  {
    if e.id != "" {
      assert ("#" + e.id)[1..] == e.id;
    } else if e.testId != "" {
      TestIdSelectorMatches(e.testId, e);
    } else {
      var sel := Lower(e.tag);
      assert sel[0] != '#' && sel[0] != TestIdPrefix[0];
    }
  }

  // ---------------------------------------------------------------------
  // Selecting elements and grouping issues by element

  /** A `querySelectorAll` the checks use: by test id, or by any of some classes. */
  datatype Query = TestIds(ids: set<string>) | AnyClass(names: set<string>)

  predicate MatchesQuery(e: Element, q: Query)
  {
    match q
    case TestIds(ids) => e.testId in ids
    case AnyClass(names) => exists c | c in names :: c in e.classes
  }

  /** The positions below `k` that match `q`, in document order. */
  function Select(es: seq<Element>, q: Query, k: nat): (r: seq<nat>)
    requires k <= |es|
    ensures forall i :: 0 <= i < |r| ==> r[i] < k && MatchesQuery(es[r[i]], q)
    ensures forall i, j :: 0 <= i < j < |r| ==> r[i] < r[j]
    ensures forall p :: 0 <= p < k && MatchesQuery(es[p], q) ==> p in r
    ensures |r| <= k
  {
    if k == 0 then []
    else Select(es, q, k - 1) + (if MatchesQuery(es[k - 1], q) then [k - 1] else [])
  }

  function SelectAll(es: seq<Element>, q: Query): seq<nat>
  {
    Select(es, q, |es|)
  }

  /** Positions into a snapshot, strictly increasing. */
  predicate Positions(s: Snapshot, idx: seq<nat>)
  {
    && (forall i :: 0 <= i < |idx| ==> idx[i] < |s.page|)
    && (forall i, j :: 0 <= i < j < |idx| ==> idx[i] < idx[j])
  }

  /** The per-element lists one after the other. */
  function Flatten(bs: seq<seq<Issue>>): seq<Issue>
  {
    if bs == [] then [] else Flatten(bs[..|bs| - 1]) + bs[|bs| - 1]
  }

  lemma FlattenStep(bs: seq<seq<Issue>>, i: nat)
    requires i < |bs|
    ensures Flatten(bs[..i + 1]) == Flatten(bs[..i]) + bs[i]
  {
    assert bs[..i + 1][..i] == bs[..i];
  }

  lemma AppendAssoc<T>(a: seq<T>, b: seq<T>, c: seq<T>)
    ensures a + (b + c) == (a + b) + c
  {
  }

  /** The issues in `issues` whose element is `p`, in order. */
  function About(issues: seq<Issue>, p: nat): seq<Issue>
  {
    if issues == [] then []
    else About(issues[..|issues| - 1], p) + (if issues[|issues| - 1].element == Some(p) then [issues[|issues| - 1]] else [])
  }

  predicate AllAbout(b: seq<Issue>, p: nat)
  {
    forall i :: 0 <= i < |b| ==> b[i].element == Some(p)
  }

  lemma {:induction false} AboutAppend(a: seq<Issue>, b: seq<Issue>, p: nat)
    ensures About(a + b, p) == About(a, p) + About(b, p)
    decreases |b|
  {
    if b != [] {
      var b' := b[..|b| - 1];
      assert (a + b)[..|a + b| - 1] == a + b';
      AboutAppend(a, b', p);
    } else {
      assert a + b == a;
    }
  }

  lemma {:induction false} AboutOwn(b: seq<Issue>, p: nat, q: nat)
    requires AllAbout(b, q)
    ensures About(b, p) == if p == q then b else []
    decreases |b|
  {
    if b != [] {
      var n := |b| - 1;
      var init := b[..n];
      assert AllAbout(init, q) by {
        forall i | 0 <= i < n
          ensures init[i].element == Some(q)
        {
          assert init[i] == b[i];
        }
      }
      AboutOwn(init, p, q);
      assert b[n].element == Some(q);
      if p == q {
        assert b == init + [b[n]];
      }
    }
  }

  lemma {:induction false} AboutNone(bs: seq<seq<Issue>>, idx: seq<nat>, p: nat)
    requires |bs| <= |idx|
    requires forall k :: 0 <= k < |bs| ==> AllAbout(bs[k], idx[k]) && idx[k] != p
    ensures About(Flatten(bs), p) == []
    decreases |bs|
  {
    if bs != [] {
      var n := |bs| - 1;
      AboutNone(bs[..n], idx, p);
      AboutAppend(Flatten(bs[..n]), bs[n], p);
      AboutOwn(bs[n], p, idx[n]);
    }
  }

  /** When each list is about its own element and the elements are distinct,
      the issues about the element of list `i` are exactly list `i`. */
  lemma {:induction false} AboutFlatten(bs: seq<seq<Issue>>, idx: seq<nat>, i: nat)
    requires |bs| <= |idx| && i < |bs|
    requires forall k :: 0 <= k < |bs| ==> AllAbout(bs[k], idx[k])
    requires forall j, k :: 0 <= j < k < |idx| ==> idx[j] < idx[k]
    ensures About(Flatten(bs), idx[i]) == bs[i]
    decreases |bs|
  {
    var n := |bs| - 1;
    AboutAppend(Flatten(bs[..n]), bs[n], idx[i]);
    AboutOwn(bs[n], idx[i], idx[n]);
    if i == n {
      AboutNone(bs[..n], idx, idx[i]);
    } else {
      AboutFlatten(bs[..n], idx, i);
    }
  }

  /** An element that no list is about has no issues. */
  lemma AboutUnlisted(bs: seq<seq<Issue>>, idx: seq<nat>, p: nat)
    requires |bs| <= |idx|
    requires forall k :: 0 <= k < |bs| ==> AllAbout(bs[k], idx[k])
    requires p !in idx
    ensures About(Flatten(bs), p) == []
  {
    AboutNone(bs, idx, p);
  }

  function Kinds(issues: seq<Issue>): seq<IssueKind>
  {
    seq(|issues|, i requires 0 <= i < |issues| => issues[i].kind)
  }

  lemma {:induction false} FlattenBound(bs: seq<seq<Issue>>, m: nat)
    requires forall k :: 0 <= k < |bs| ==> |bs[k]| <= m
    ensures |Flatten(bs)| <= |bs| * m
    decreases |bs|
  {
    if bs != [] {
      FlattenBound(bs[..|bs| - 1], m);
    }
  }

  // ---------------------------------------------------------------------
  // checkTextOverlap

  const TextQuery := TestIds({"tweetText", "User-Name", "UserScreenName"})

  predicate ZeroSize(r: Rect)
  {
    r.width == 0 || r.height == 0
  }

  predicate Overflows(b: Box)
  {
    b.scrollWidth > b.clientWidth || b.scrollHeight > b.clientHeight
  }

  /** The overlap issues of list element `i` against the list elements below `m`. */
  function OverlapsUpTo(s: Snapshot, idx: seq<nat>, i: nat, m: nat): (r: seq<Issue>)
    requires Complete(s) && Positions(s, idx) && i < |idx| && m <= |idx|
    ensures AllAbout(r, idx[i])
    ensures forall k :: 0 <= k < |r| ==> r[k].kind == Overlap
  {
    if m == 0 then []
    else
      var p := idx[i];
      var q := idx[m - 1];
      OverlapsUpTo(s, idx, i, m - 1) +
        (if m - 1 != i && RectsOverlap(s.boxes[p].rect, s.boxes[q].rect)
         then [Issue(Overlap, Some(p), SelectorFor(s.page[p]), "Overlaps with " + SelectorFor(s.page[q]))]
         else [])
  }

  /** What `checkTextOverlap` reports for the `i`-th text element. */
  function TextBlock(s: Snapshot, idx: seq<nat>, i: nat): (r: seq<Issue>)
    requires Complete(s) && Positions(s, idx) && i < |idx|
    ensures AllAbout(r, idx[i])
  {
    var p := idx[i];
    var b := s.boxes[p];
    var sel := SelectorFor(s.page[p]);
    if ZeroSize(b.rect) then [Issue(Invisible, Some(p), sel, "Text element has zero dimensions")]
    else
      (if Overflows(b) then [Issue(Overflow, Some(p), sel, "Text content overflows container")] else [])
      + OverlapsUpTo(s, idx, i, |idx|)
  }

  function TextBlocks(s: Snapshot, idx: seq<nat>): seq<seq<Issue>>
    requires Complete(s) && Positions(s, idx)
  {
    seq(|idx|, i requires 0 <= i < |idx| => TextBlock(s, idx, i))
  }

  lemma TextBlocksAt(s: Snapshot, idx: seq<nat>, i: nat)
    requires Complete(s) && Positions(s, idx) && i < |idx|
    ensures TextBlocks(s, idx)[i] == TextBlock(s, idx, i)
  {
  }

  function TextTargets(s: Snapshot): seq<nat>
  {
    SelectAll(s.page, TextQuery)
  }

  /** The `textOverlap` list after `checkTextOverlap` on an empty list. */
  function TextOverlapIssues(s: Snapshot): seq<Issue>
    requires Complete(s)
  {
    Flatten(TextBlocks(s, TextTargets(s)))
  }

  /** The number of list elements below `m`, other than `i`, whose rectangle meets that of `i`. */
  function Partners(s: Snapshot, idx: seq<nat>, i: nat, m: nat): nat
    requires Complete(s) && Positions(s, idx) && i < |idx| && m <= |idx|
  {
    if m == 0 then 0
    else
      var meets := m - 1 != i && RectsOverlap(s.boxes[idx[i]].rect, s.boxes[idx[m - 1]].rect);
      Partners(s, idx, i, m - 1) + (if meets then 1 else 0)
  }

  lemma {:induction false} OverlapsCount(s: Snapshot, idx: seq<nat>, i: nat, m: nat)
    requires Complete(s) && Positions(s, idx) && i < |idx| && m <= |idx|
    ensures |OverlapsUpTo(s, idx, i, m)| == Partners(s, idx, i, m)
  {
    if m > 0 {
      OverlapsCount(s, idx, i, m - 1);
      var meets := m - 1 != i && RectsOverlap(s.boxes[idx[i]].rect, s.boxes[idx[m - 1]].rect);
      assert |OverlapsUpTo(s, idx, i, m)| == |OverlapsUpTo(s, idx, i, m - 1)| + (if meets then 1 else 0);
    }
  }

  /** An element is never counted as its own partner. */
  lemma {:induction false} PartnersBound(s: Snapshot, idx: seq<nat>, i: nat, m: nat)
    requires Complete(s) && Positions(s, idx) && i < |idx| && m <= |idx|
    ensures Partners(s, idx, i, m) <= if i < m then m - 1 else m
  {
    if m > 0 {
      PartnersBound(s, idx, i, m - 1);
    }
  }

  /** A text element of zero width or height gets exactly one `invisible`
      issue and nothing else of its own. */
  lemma TextZeroSize(s: Snapshot, i: nat)
    requires Complete(s) && i < |TextTargets(s)|
    requires ZeroSize(s.boxes[TextTargets(s)[i]].rect)
    ensures var p := TextTargets(s)[i];
            About(TextOverlapIssues(s), p) == [Issue(Invisible, Some(p), SelectorFor(s.page[p]), "Text element has zero dimensions")]
  {
    var idx := TextTargets(s);
    AboutFlatten(TextBlocks(s, idx), idx, i);
  }

  /** A visible text element gets an `overflow` issue exactly when its content
      overflows, and one `overlap` issue per other text element whose
      rectangle meets its own; never one for itself. */
  lemma TextVisible(s: Snapshot, i: nat)
    requires Complete(s) && i < |TextTargets(s)|
    requires !ZeroSize(s.boxes[TextTargets(s)[i]].rect)
    ensures var idx := TextTargets(s);
            var mine := About(TextOverlapIssues(s), idx[i]);
            var overflow := Overflows(s.boxes[idx[i]]);
            && |mine| == (if overflow then 1 else 0) + Partners(s, idx, i, |idx|)
            && (forall k :: 0 <= k < |mine| ==> mine[k].kind == (if k == 0 && overflow then Overflow else Overlap))
            && Partners(s, idx, i, |idx|) <= |idx| - 1
  {
    var idx := TextTargets(s);
    var bs := TextBlocks(s, idx);
    AboutFlatten(bs, idx, i);
    TextBlocksAt(s, idx, i);
    var p := idx[i];
    var sel := SelectorFor(s.page[p]);
    var head := if Overflows(s.boxes[p]) then [Issue(Overflow, Some(p), sel, "Text content overflows container")] else [];
    var overlaps := OverlapsUpTo(s, idx, i, |idx|);
    assert bs[i] == head + overlaps;
    OverlapsCount(s, idx, i, |idx|);
    PartnersBound(s, idx, i, |idx|);
    KindsAfter(head, overlaps, Overlap);
  }

  /** Appending issues of one kind gives that kind to every position past `a`. */
  lemma KindsAfter(a: seq<Issue>, b: seq<Issue>, kind: IssueKind)
    requires forall k :: 0 <= k < |b| ==> b[k].kind == kind
    ensures forall k :: |a| <= k < |a + b| ==> (a + b)[k].kind == kind
  {
    forall k | |a| <= k < |a + b|
      ensures (a + b)[k].kind == kind
    {
      assert (a + b)[k] == b[k - |a|];
    }
  }

  /** Text elements that the check does not select get no issues. */
  lemma TextUnlisted(s: Snapshot, p: nat)
    requires Complete(s) && p < |s.page| && !MatchesQuery(s.page[p], TextQuery)
    ensures About(TextOverlapIssues(s), p) == []
  {
    var idx := TextTargets(s);
    AboutUnlisted(TextBlocks(s, idx), idx, p);
  }

  /** At most one issue per pair of text elements. */
  lemma TextBound(s: Snapshot)
    requires Complete(s)
    ensures |TextOverlapIssues(s)| <= |TextTargets(s)| * |TextTargets(s)|
  {
    var idx := TextTargets(s);
    var bs := TextBlocks(s, idx);
    forall k | 0 <= k < |bs| ensures |bs[k]| <= |idx| {
      OverlapsCount(s, idx, k, |idx|);
      PartnersBound(s, idx, k, |idx|);
    }
    FlattenBound(bs, |idx|);
  }

  // ---------------------------------------------------------------------
  // checkBrokenButtons

  const ButtonQuery := TestIds({"like", "retweet", "reply"})

  /** The characters `String.prototype.trim` removes. */
  predicate IsJsSpace(c: char)
  {
    c == ' ' || c == '\t' || c == '\n' || c == '\r' || c == '\U{000B}' || c == '\U{000C}'
    || c == '\U{00A0}' || c == '\U{FEFF}' || c == '\U{1680}' || ('\U{2000}' <= c <= '\U{200A}')
    || c == '\U{2028}' || c == '\U{2029}' || c == '\U{202F}' || c == '\U{205F}' || c == '\U{3000}'
  }

  /** `!text || text.trim() === ''`. */
  predicate IsBlank(s: string)
  {
    forall i :: 0 <= i < |s| ==> IsJsSpace(s[i])
  }

  predicate IsHiddenBox(b: Box)
  {
    b.display == "none" || b.visibility == "hidden"
  }

  predicate OffScreenRect(r: Rect, viewportWidth: int, viewportHeight: int)
  {
    r.right < 0 || r.bottom < 0 || r.left > viewportWidth || r.top > viewportHeight
  }

  /** What `checkBrokenButtons` reports for the button at position `p`. */
  function ButtonBlock(s: Snapshot, p: nat): (r: seq<Issue>)
    requires Complete(s) && p < |s.page|
    ensures AllAbout(r, p)
  {
    var b := s.boxes[p];
    var sel := SelectorFor(s.page[p]);
    if ZeroSize(b.rect) then [Issue(Invisible, Some(p), sel, "Button has zero dimensions")]
    else if IsHiddenBox(b) then [Issue(Hidden, Some(p), sel, "Button is hidden")]
    else
      (if IsBlank(TextContent(s.page, p)) then [Issue(NoText, Some(p), sel, "Button has no visible text")] else [])
      + (if OffScreenRect(b.rect, s.viewportWidth, s.viewportHeight)
         then [Issue(OffScreen, Some(p), sel, "Button positioned off-screen")] else [])
  }

  function ButtonTargets(s: Snapshot): seq<nat>
  {
    SelectAll(s.page, ButtonQuery)
  }

  function ButtonBlocks(s: Snapshot, idx: seq<nat>): seq<seq<Issue>>
    requires Complete(s) && Positions(s, idx)
  {
    seq(|idx|, i requires 0 <= i < |idx| => ButtonBlock(s, idx[i]))
  }

  lemma ButtonBlocksAt(s: Snapshot, idx: seq<nat>, i: nat)
    requires Complete(s) && Positions(s, idx) && i < |idx|
    ensures ButtonBlocks(s, idx)[i] == ButtonBlock(s, idx[i])
  {
  }

  function BrokenButtonIssues(s: Snapshot): seq<Issue>
    requires Complete(s)
  {
    Flatten(ButtonBlocks(s, ButtonTargets(s)))
  }

  /** The early exits: a zero-size button gets only `invisible`, a hidden one
      only `hidden`; otherwise `no-text` and `off-screen` are decided
      independently. */
  lemma ButtonClassified(s: Snapshot, i: nat)
    requires Complete(s) && i < |ButtonTargets(s)|
    ensures var p := ButtonTargets(s)[i];
            ButtonKinds(s, p, Kinds(About(BrokenButtonIssues(s), p)))
  {
    var idx := ButtonTargets(s);
    AboutFlatten(ButtonBlocks(s, idx), idx, i);
    ButtonBlockKinds(s, idx[i]);
  }

  predicate ButtonKinds(s: Snapshot, p: nat, ks: seq<IssueKind>)
    requires Complete(s) && p < |s.page|
  {
    var b := s.boxes[p];
    && (ZeroSize(b.rect) ==> ks == [Invisible])
    && (!ZeroSize(b.rect) && IsHiddenBox(b) ==> ks == [Hidden])
    && (!ZeroSize(b.rect) && !IsHiddenBox(b) ==>
          ks == (if IsBlank(TextContent(s.page, p)) then [NoText] else [])
                + (if OffScreenRect(b.rect, s.viewportWidth, s.viewportHeight) then [OffScreen] else []))
    && |ks| <= 2
  }

  lemma ButtonBlockKinds(s: Snapshot, p: nat)
    requires Complete(s) && p < |s.page|
    ensures ButtonKinds(s, p, Kinds(ButtonBlock(s, p)))
  {
  }

  /** Elements that are not like, retweet or reply buttons get no button issues. */
  lemma ButtonUnlisted(s: Snapshot, p: nat)
    requires Complete(s) && p < |s.page| && !MatchesQuery(s.page[p], ButtonQuery)
    ensures About(BrokenButtonIssues(s), p) == []
  {
    var idx := ButtonTargets(s);
    AboutUnlisted(ButtonBlocks(s, idx), idx, p);
  }

  lemma ButtonBound(s: Snapshot)
    requires Complete(s)
    ensures |BrokenButtonIssues(s)| <= 2 * |ButtonTargets(s)|
  {
    var idx := ButtonTargets(s);
    FlattenBound(ButtonBlocks(s, idx), 2);
  }

  // ---------------------------------------------------------------------
  // checkLayoutIssues

  const PrimarySelector := "[data-testid=\"primaryColumn\"]"
  const SidebarSelector := "[data-testid=\"sidebarColumn\"]"

  function PrimaryIssues(s: Snapshot): (r: seq<Issue>)
    requires Complete(s)
  {
    match FirstWithTestId(s.page, "primaryColumn", 0)
    case None => []
    case Some(p) =>
      var rect := s.boxes[p].rect;
      (if rect.width < 300
       then [Issue(NarrowColumn, Some(p), PrimarySelector, "Primary column too narrow: " + IntToString(rect.width) + "px")]
       else [])
      + (if rect.left < 0
         then [Issue(ColumnOffset, Some(p), PrimarySelector, "Primary column positioned off-screen: left=" + IntToString(rect.left) + "px")]
         else [])
  }

  function SidebarIssues(s: Snapshot): (r: seq<Issue>)
    requires Complete(s)
  {
    match FirstWithTestId(s.page, "sidebarColumn", 0)
    case None => []
    case Some(q) =>
      var rect := s.boxes[q].rect;
      if rect.left > 0 && rect.width < 200
      then [Issue(SidebarNarrow, Some(q), SidebarSelector, "Sidebar too narrow: " + IntToString(rect.width) + "px")]
      else []
  }

  /** The `layoutIssues` list after `checkLayoutIssues` on an empty list. */
  function LayoutIssues(s: Snapshot): seq<Issue>
    requires Complete(s)
  {
    PrimaryIssues(s) + SidebarIssues(s)
  }

  predicate HasKind(issues: seq<Issue>, k: IssueKind)
  {
    exists i :: 0 <= i < |issues| && issues[i].kind == k
  }

  lemma HasKindAppend(a: seq<Issue>, b: seq<Issue>, k: IssueKind)
    ensures HasKind(a + b, k) <==> HasKind(a, k) || HasKind(b, k)
  {
    if HasKind(a + b, k) {
      var i :| 0 <= i < |a + b| && (a + b)[i].kind == k;
      if i >= |a| {
        assert b[i - |a|].kind == k;
      }
    }
    if HasKind(a, k) {
      var i :| 0 <= i < |a| && a[i].kind == k;
      assert (a + b)[i] == a[i];
    }
    if HasKind(b, k) {
      var i :| 0 <= i < |b| && b[i].kind == k;
      assert (a + b)[|a| + i] == b[i];
    }
  }

  /** Each layout issue is reported exactly when its condition holds, about the
      first matching column; missing columns produce nothing. */
  lemma LayoutExact(s: Snapshot)
    requires Complete(s)
    ensures var pc := FirstWithTestId(s.page, "primaryColumn", 0);
            var sb := FirstWithTestId(s.page, "sidebarColumn", 0);
            var out := LayoutIssues(s);
            && (HasKind(out, NarrowColumn) <==> pc.Some? && s.boxes[pc.value].rect.width < 300)
            && (HasKind(out, ColumnOffset) <==> pc.Some? && s.boxes[pc.value].rect.left < 0)
            && (HasKind(out, SidebarNarrow) <==>
                  sb.Some? && s.boxes[sb.value].rect.left > 0 && s.boxes[sb.value].rect.width < 200)
            && (forall i :: 0 <= i < |out| ==> out[i].kind in {NarrowColumn, ColumnOffset, SidebarNarrow})
            && (forall i :: 0 <= i < |out| && out[i].kind != SidebarNarrow ==> out[i].element == pc)
            && (forall i :: 0 <= i < |out| && out[i].kind == SidebarNarrow ==> out[i].element == sb)
            && |out| <= 3
            && (pc.None? && sb.None? ==> out == [])
  {
    var a := PrimaryIssues(s);
    var b := SidebarIssues(s);
    PrimaryExact(s);
    SidebarExact(s);
    HasKindAppend(a, b, NarrowColumn);
    HasKindAppend(a, b, ColumnOffset);
    HasKindAppend(a, b, SidebarNarrow);
  }

  lemma PrimaryExact(s: Snapshot)
    requires Complete(s)
    ensures var pc := FirstWithTestId(s.page, "primaryColumn", 0);
            var a := PrimaryIssues(s);
            && (HasKind(a, NarrowColumn) <==> pc.Some? && s.boxes[pc.value].rect.width < 300)
            && (HasKind(a, ColumnOffset) <==> pc.Some? && s.boxes[pc.value].rect.left < 0)
            && !HasKind(a, SidebarNarrow)
            && (forall i :: 0 <= i < |a| ==> a[i].kind in {NarrowColumn, ColumnOffset} && a[i].element == pc)
            && |a| <= 2
  {
    var pc := FirstWithTestId(s.page, "primaryColumn", 0);
    var a := PrimaryIssues(s);
    if pc.Some? {
      var rect := s.boxes[pc.value].rect;
      if rect.width < 300 {
        assert a[0].kind == NarrowColumn;
      }
      if rect.left < 0 {
        assert a[|a| - 1].kind == ColumnOffset;
      }
    }
  }

  lemma SidebarExact(s: Snapshot)
    requires Complete(s)
    ensures var sb := FirstWithTestId(s.page, "sidebarColumn", 0);
            var b := SidebarIssues(s);
            && (HasKind(b, SidebarNarrow) <==>
                  sb.Some? && s.boxes[sb.value].rect.left > 0 && s.boxes[sb.value].rect.width < 200)
            && !HasKind(b, NarrowColumn) && !HasKind(b, ColumnOffset)
            && (forall i :: 0 <= i < |b| ==> b[i].kind == SidebarNarrow && b[i].element == sb)
            && |b| <= 1
  {
    var sb := FirstWithTestId(s.page, "sidebarColumn", 0);
    var b := SidebarIssues(s);
    if sb.Some? && s.boxes[sb.value].rect.left > 0 && s.boxes[sb.value].rect.width < 200 {
      assert b[0].kind == SidebarNarrow;
    }
  }

  // ---------------------------------------------------------------------
  // checkCSSConflicts

  const StyledQuery := AnyClass({Applied, Compact, Mono})
  const CompactPadding := "8px 12px"

  predicate MonospaceFont(fontFamily: string)
  {
    Contains(fontFamily, "Monaco") || Contains(fontFamily, "Menlo") || Contains(fontFamily, "monospace")
  }

  function CssBlock(s: Snapshot, p: nat): (r: seq<Issue>)
    requires Complete(s) && p < |s.page|
    ensures AllAbout(r, p)
  {
    var e := s.page[p];
    var b := s.boxes[p];
    (if Mono in e.classes && !MonospaceFont(b.fontFamily)
     then [Issue(FontOverride, Some(p), SelectorFor(e), "Monospace font not applied: " + b.fontFamily)] else [])
    + (if Compact in e.classes && b.padding != CompactPadding
       then [Issue(PaddingOverride, Some(p), SelectorFor(e), "Compact padding not applied: " + b.padding)] else [])
  }

  function CssTargets(s: Snapshot): seq<nat>
  {
    SelectAll(s.page, StyledQuery)
  }

  function CssBlocks(s: Snapshot, idx: seq<nat>): seq<seq<Issue>>
    requires Complete(s) && Positions(s, idx)
  {
    seq(|idx|, i requires 0 <= i < |idx| => CssBlock(s, idx[i]))
  }

  lemma CssBlocksAt(s: Snapshot, idx: seq<nat>, i: nat)
    requires Complete(s) && Positions(s, idx) && i < |idx|
    ensures CssBlocks(s, idx)[i] == CssBlock(s, idx[i])
  {
  }

  function CssConflictIssues(s: Snapshot): seq<Issue>
    requires Complete(s)
  {
    Flatten(CssBlocks(s, CssTargets(s)))
  }

  /** For every element on the page: a `font-override` issue exactly when it
      has `ux-fixer-mono` and its computed font names none of Monaco, Menlo
      or monospace (as a substring), and a `padding-override` issue exactly
      when it has `ux-fixer-compact` and its padding is not `8px 12px`. */
  lemma CssExact(s: Snapshot, p: nat)
    requires Complete(s) && p < |s.page|
    ensures CssKinds(s, p, Kinds(About(CssConflictIssues(s), p)))
  {
    var idx := CssTargets(s);
    if MatchesQuery(s.page[p], StyledQuery) {
      var i :| 0 <= i < |idx| && idx[i] == p;
      AboutFlatten(CssBlocks(s, idx), idx, i);
      CssBlockKinds(s, p);
    } else {
      AboutUnlisted(CssBlocks(s, idx), idx, p);
      assert Mono !in s.page[p].classes && Compact !in s.page[p].classes;
    }
  }

  predicate CssKinds(s: Snapshot, p: nat, ks: seq<IssueKind>)
    requires Complete(s) && p < |s.page|
  {
    var e := s.page[p];
    var b := s.boxes[p];
    ks == (if Mono in e.classes && !MonospaceFont(b.fontFamily) then [FontOverride] else [])
          + (if Compact in e.classes && b.padding != CompactPadding then [PaddingOverride] else [])
  }

  lemma CssBlockKinds(s: Snapshot, p: nat)
    requires Complete(s) && p < |s.page|
    ensures CssKinds(s, p, Kinds(CssBlock(s, p)))
  {
  }

  // ---------------------------------------------------------------------
  // checkSelectorFailures

  const CheckedTestIds: seq<string> :=
    ["primaryColumn", "sidebarColumn", "tweet", "tweetText", "User-Name", "UserScreenName", "like", "retweet", "reply"]

  /** `document.querySelectorAll(selector).length > 0`. */
  predicate Found(es: seq<Element>, sel: string)
  {
    exists j | 0 <= j < |es| :: SelectorMatches(sel, es[j])
  }

  function MissingIssue(sel: string): Issue
  {
    Issue(Missing, None, sel, "No elements found for selector: " + sel)
  }

  function FailuresUpTo(es: seq<Element>, k: nat): (r: seq<Issue>)
    requires k <= |CheckedTestIds|
    ensures |r| <= k
    ensures forall i :: 0 <= i < |r| ==> r[i].kind == Missing && r[i].element == None
  {
    if k == 0 then []
    else
      var sel := TestIdSelector(CheckedTestIds[k - 1]);
      FailuresUpTo(es, k - 1) + (if Found(es, sel) then [] else [MissingIssue(sel)])
  }

  function SelectorFailureIssues(es: seq<Element>): seq<Issue>
  {
    FailuresUpTo(es, |CheckedTestIds|)
  }

  /** The number of listed test ids below `k` that no element carries. */
  function MissingCount(es: seq<Element>, k: nat): nat
    requires k <= |CheckedTestIds|
  {
    if k == 0 then 0
    else MissingCount(es, k - 1) + (if exists j | 0 <= j < |es| :: es[j].testId == CheckedTestIds[k - 1] then 0 else 1)
  }

  lemma FoundByTestId(es: seq<Element>, t: string)
    ensures Found(es, TestIdSelector(t)) <==> exists j | 0 <= j < |es| :: es[j].testId == t
  {
    forall j | 0 <= j < |es| ensures SelectorMatches(TestIdSelector(t), es[j]) <==> es[j].testId == t {
      TestIdSelectorMatches(t, es[j]);
    }
  }

  /** One `missing` issue per listed selector that matches nothing, in list
      order: the issue for the `k`-th selector is the last one exactly when
      that selector matches nothing, and there are as many as there are
      absent test ids, at most nine. */
  lemma {:induction false} FailuresExact(es: seq<Element>, k: nat)
    requires k <= |CheckedTestIds|
    ensures |FailuresUpTo(es, k)| == MissingCount(es, k) <= k
    ensures k > 0 ==>
              var t := CheckedTestIds[k - 1];
              (!exists j | 0 <= j < |es| :: es[j].testId == t) <==>
                (FailuresUpTo(es, k) == FailuresUpTo(es, k - 1) + [MissingIssue(TestIdSelector(t))])
  {
    if k > 0 {
      FailuresExact(es, k - 1);
      FoundByTestId(es, CheckedTestIds[k - 1]);
      var prev := FailuresUpTo(es, k - 1);
      assert |prev + [MissingIssue(TestIdSelector(CheckedTestIds[k - 1]))]| != |prev|;
    }
  }

  lemma SelectorFailuresBound(es: seq<Element>)
    ensures |SelectorFailureIssues(es)| == MissingCount(es, |CheckedTestIds|) <= 9
  {
    FailuresExact(es, |CheckedTestIds|);
  }
}

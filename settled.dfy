/** What a page looks like once a pass of `applyTransformations` has run,
    stated so that the later passes visibly keep it. Once every pass's work
    is done, no pass changes the page; this is why running the transformer
    again (the mutation observer and the exported `applyTransformations` both
    do) leaves the page as it is. */
module Settled {
  import opened Dom
  import opened Rules
  import Tweets
  import Buttons
  import Page

  /** `e` carries every class of `classes` and every property of `style` with its value. */
  predicate HasLook(e: Element, classes: set<string>, style: map<string, string>)
  {
    classes <= e.classes && forall q :: q in style ==> q in e.style && e.style[q] == style[q]
  }

  /** The first element with test id `t`, if there is one, carries the look. */
  predicate ColumnDone(es: seq<Element>, t: string, classes: set<string>, style: map<string, string>)
  {
    match FirstWithTestId(es, t, 0)
    case None => true
    case Some(p) => HasLook(es[p], classes, style)
  }

  /** The styles `transformNavigation` gives the sidebar at this viewport width. */
  function NavStylesAt(viewportWidth: int, v: Version): map<string, string>
  {
    if viewportWidth >= Page.DesktopWidth then Page.NavStylesFor(v) else map[]
  }

  predicate FeedDone(es: seq<Element>, v: Version)
  {
    ColumnDone(es, "primaryColumn", Page.FeedClasses(v), Page.FeedStylesFor(v))
  }

  predicate NavDone(es: seq<Element>, viewportWidth: int, v: Version)
  {
    ColumnDone(es, "sidebarColumn", {Applied}, NavStylesAt(viewportWidth, v))
  }

  predicate NoNewTweets(es: seq<Element>)
  {
    forall k :: 0 <= k < |es| ==> !NewTweet(es[k])
  }

  predicate NoNewButtons(es: seq<Element>, v: Version)
  {
    forall k :: 0 <= k < |es| ==> !NewButton(es[k], v)
  }

  predicate PromotedHidden(es: seq<Element>)
  {
    forall k :: 0 <= k < |es| && IsPromoted(es[k]) ==> Hidden in es[k].classes
  }

  // ---------------------------------------------------------------------
  // A pass whose work is done changes nothing

  lemma DecorateDone(es: seq<Element>, p: nat, classes: set<string>, style: map<string, string>)
    requires p < |es| && HasLook(es[p], classes, style)
    ensures Page.Decorate(es, p, classes, style) == es
  {
    assert es[p].classes + classes == es[p].classes;
    assert es[p].style + style == es[p].style;
  }

  lemma FeedNoop(es: seq<Element>, v: Version)
    requires FeedDone(es, v)
    ensures Page.TransformFeed(es, v) == es
  {
    match Page.PrimaryColumn(es)
    case None =>
    case Some(p) => DecorateDone(es, p, Page.FeedClasses(v), Page.FeedStylesFor(v));
  }

  lemma NavNoop(es: seq<Element>, viewportWidth: int, v: Version)
    requires NavDone(es, viewportWidth, v)
    ensures Page.TransformNav(es, viewportWidth, v) == es
  {
    match Page.Sidebar(es)
    case None =>
    case Some(s) => DecorateDone(es, s, {Applied}, NavStylesAt(viewportWidth, v));
  }

  lemma HideNoop(es: seq<Element>)
    requires PromotedHidden(es)
    ensures Page.HidePromoted(es) == es
  {
    forall k | 0 <= k < |es|
      ensures Page.HideIfPromoted(es[k]) == es[k]
    {
      if IsPromoted(es[k]) {
        assert es[k].classes + {Hidden} == es[k].classes;
      }
    }
  }

  // ---------------------------------------------------------------------
  // Each pass does its own work

  lemma FeedSettles(es: seq<Element>, v: Version)
    ensures FeedDone(Page.TransformFeed(es, v), v)
  {
    match Page.PrimaryColumn(es)
    case None =>
    case Some(p) =>
      var r := Page.TransformFeed(es, v);
      Page.FirstWithTestIdSame(es, r, "primaryColumn", 0);
  }

  lemma TweetsSettle(es: seq<Element>, v: Version)
    ensures NoNewTweets(Tweets.TransformTweets(es, v))
  {
    Tweets.TweetsOnlyAdd(es, v);
    Tweets.TweetsAllMarked(es, v);
  }

  lemma NavSettles(es: seq<Element>, viewportWidth: int, v: Version)
    ensures NavDone(Page.TransformNav(es, viewportWidth, v), viewportWidth, v)
  {
    match Page.Sidebar(es)
    case None =>
    case Some(s) =>
      var r := Page.TransformNav(es, viewportWidth, v);
      Page.FirstWithTestIdSame(es, r, "sidebarColumn", 0);
  }

  lemma ButtonsSettle(es: seq<Element>, v: Version)
    ensures NoNewButtons(Buttons.TransformButtons(es, v), v)
  {
    Buttons.ButtonsAllMarked(es, v);
  }

  lemma HideSettles(es: seq<Element>)
    ensures PromotedHidden(Page.HidePromoted(es))
  {
    Page.HidePromotedEffect(es);
  }

  lemma SkipSettles(es: seq<Element>)
    requires |es| >= 1
    ensures HasClassSomewhere(Page.AddSkipLinks(es), SkipLinkClass)
  {
    if !HasClassSomewhere(es, SkipLinkClass) {
      Page.SkipLinkMoves(es);
      assert SkipLinkClass in Page.AddSkipLinks(es)[1].classes;
    }
  }

  // ---------------------------------------------------------------------
  // Later passes keep the work of earlier ones

  /** `z` keeps the test ids of `x`'s elements, only adds classes, and may
      append elements without a test id. */
  predicate Grows(x: seq<Element>, z: seq<Element>)
  {
    && |x| <= |z|
    && (forall k :: 0 <= k < |x| ==> z[k].testId == x[k].testId && x[k].classes <= z[k].classes)
    && (forall k :: |x| <= k < |z| ==> z[k].testId == "")
  }

  /** `f` has every property of `style` that `e` has, with the same value. */
  predicate StyleKept(e: Element, f: Element, style: map<string, string>)
  {
    forall q :: q in style && q in e.style ==> q in f.style && f.style[q] == e.style[q]
  }

  lemma {:induction false} FirstGrown(x: seq<Element>, z: seq<Element>, t: string, k: nat)
    requires Grows(x, z) && t != ""
    ensures FirstWithTestId(z, t, k) == FirstWithTestId(x, t, k)
    decreases |z| - k
  {
    if k < |z| {
      FirstGrown(x, z, t, k + 1);
    }
  }

  lemma GrownMarks(x: seq<Element>, z: seq<Element>, v: Version)
    requires Grows(x, z)
    ensures NoNewTweets(x) ==> NoNewTweets(z)
    ensures NoNewButtons(x, v) ==> NoNewButtons(z, v)
    ensures PromotedHidden(x) ==> PromotedHidden(z)
  {
  }

  lemma GrownColumn(x: seq<Element>, z: seq<Element>, t: string, classes: set<string>, style: map<string, string>)
    requires Grows(x, z) && t != "" && ColumnDone(x, t, classes, style)
    requires forall k :: 0 <= k < |x| && x[k].testId == t ==> StyleKept(x[k], z[k], style)
    ensures ColumnDone(z, t, classes, style)
  {
    FirstGrown(x, z, t, 0);
  }

  /** The feed pass sets none of the screen-name/time properties. */
  lemma FeedNotMeta(v: Version)
    ensures forall q :: q in Page.FeedStylesFor(v) ==> q !in Tweets.MetaStyles
  {
    assert Tweets.MetaStyles.Keys == {"fontSize", "color"};
  }

  /** The tweet pass keeps the feed column's look: the only styles it could
      set on the column are the screen-name/time ones, which the feed pass
      does not set. */
  lemma TweetsKeep(es: seq<Element>, v: Version)
    requires FeedDone(es, v)
    ensures FeedDone(Tweets.TransformTweets(es, v), v)
  {
    var r := Tweets.TransformTweets(es, v);
    Tweets.TweetsOnlyAdd(es, v);
    assert Grows(es, r);
    FeedNotMeta(v);
    forall k | 0 <= k < |es| && es[k].testId == "primaryColumn"
      ensures StyleKept(es[k], r[k], Page.FeedStylesFor(v))
    {
      Tweets.TweetsStyleOthers(es, v, k);
    }
    GrownColumn(es, r, "primaryColumn", Page.FeedClasses(v), Page.FeedStylesFor(v));
  }

  /** The navigation pass touches only the sidebar. */
  lemma NavKeeps(es: seq<Element>, viewportWidth: int, v: Version)
    requires FeedDone(es, v) && NoNewTweets(es)
    ensures var r := Page.TransformNav(es, viewportWidth, v);
            FeedDone(r, v) && NoNewTweets(r)
  {
    var r := Page.TransformNav(es, viewportWidth, v);
    Page.NavEffect(es, viewportWidth, v);
    assert Grows(es, r);
    GrownMarks(es, r, v);
    GrownColumn(es, r, "primaryColumn", Page.FeedClasses(v), Page.FeedStylesFor(v));
  }

  /** The button pass only adds classes to buttons and appends labels
      without test ids; every element that is not a button stays as it was. */
  lemma ButtonsGrow(es: seq<Element>, v: Version)
    ensures var r := Buttons.TransformButtons(es, v);
            && Grows(es, r)
            && forall k :: 0 <= k < |es| && es[k].testId !in ButtonIds(v) ==> r[k] == es[k]
  {
    var r := Buttons.TransformButtons(es, v);
    Buttons.ButtonsShape(es, |es|, v);
    Buttons.ButtonsRecords(es, |es|, v);
    forall k | 0 <= k < |es|
      ensures es[k].classes <= r[k].classes
    {
      if NewButton(es[k], v) {
        assert r[k].classes == es[k].classes + {Applied, Compact};
      }
    }
  }

  /** The button pass touches only buttons and appends labels without test ids. */
  lemma ButtonsKeep(es: seq<Element>, viewportWidth: int, v: Version)
    requires FeedDone(es, v) && NoNewTweets(es) && NavDone(es, viewportWidth, v)
    ensures var r := Buttons.TransformButtons(es, v);
            FeedDone(r, v) && NoNewTweets(r) && NavDone(r, viewportWidth, v)
  {
    var r := Buttons.TransformButtons(es, v);
    ButtonsGrow(es, v);
    GrownMarks(es, r, v);
    assert "primaryColumn" !in ButtonIds(v) && "sidebarColumn" !in ButtonIds(v);
    GrownColumn(es, r, "primaryColumn", Page.FeedClasses(v), Page.FeedStylesFor(v));
    GrownColumn(es, r, "sidebarColumn", {Applied}, NavStylesAt(viewportWidth, v));
  }

  /** Hiding promoted tweets only adds a class. */
  lemma HideKeeps(es: seq<Element>, viewportWidth: int, v: Version)
    requires FeedDone(es, v) && NoNewTweets(es) && NavDone(es, viewportWidth, v) && NoNewButtons(es, v)
    ensures var r := Page.HidePromoted(es);
            FeedDone(r, v) && NoNewTweets(r) && NavDone(r, viewportWidth, v) && NoNewButtons(r, v)
  {
    var r := Page.HidePromoted(es);
    Page.HidePromotedEffect(es);
    assert Grows(es, r);
    GrownMarks(es, r, v);
    GrownColumn(es, r, "primaryColumn", Page.FeedClasses(v), Page.FeedStylesFor(v));
    GrownColumn(es, r, "sidebarColumn", {Applied}, NavStylesAt(viewportWidth, v));
  }

  /** The skip-link pass keeps every element's test id, with the link at 1. */
  lemma SkipTestIds(es: seq<Element>)
    requires |es| >= 1 && !HasClassSomewhere(es, SkipLinkClass)
    ensures var i := Page.InsertSkipLink(es); var r := Page.AddSkipLinks(es);
            |r| == |i| && forall k :: 0 <= k < |r| ==> r[k].testId == i[k].testId
  {
    var i := Page.InsertSkipLink(es);
    var r := Page.AddSkipLinks(es);
    assert r == Page.AnchorMain(i);
    forall k | 0 <= k < |r|
      ensures r[k].testId == i[k].testId
    {
      Page.AnchorMainAt(i, k);
    }
  }

  /** After the skip link is inserted, the first element with a given test id
      is the same element as before, one place further down unless it is the body. */
  lemma SkipFirst(es: seq<Element>, t: string)
    requires |es| >= 1 && !HasClassSomewhere(es, SkipLinkClass) && t != ""
    ensures var r := Page.AddSkipLinks(es);
            FirstWithTestId(r, t, 0) == match FirstWithTestId(es, t, 0)
                                        case None => None
                                        case Some(p) => Some(if p == 0 then 0 else p + 1)
  {
    var i := Page.InsertSkipLink(es);
    var r := Page.AddSkipLinks(es);
    SkipTestIds(es);
    Page.FirstWithTestIdSame(i, r, t, 0);
    Page.FirstWithTestIdShifted(es, i, t, 1);
    assert i[1].testId == "";
    assert FirstWithTestId(i, t, 1) == FirstWithTestId(i, t, 2);
  }

  /** The element the skip-link pass moves to `q` keeps its classes and styles. */
  lemma SkipLook(es: seq<Element>, p: nat)
    requires |es| >= 1 && !HasClassSomewhere(es, SkipLinkClass) && p < |es|
    ensures var r := Page.AddSkipLinks(es); var q := if p == 0 then 0 else p + 1;
            r[q].classes == es[p].classes && r[q].style == es[p].style
  {
    Page.SkipLinkMoves(es);
  }

  lemma SkipColumn(es: seq<Element>, t: string, classes: set<string>, style: map<string, string>)
    requires |es| >= 1 && t != "" && ColumnDone(es, t, classes, style)
    ensures ColumnDone(Page.AddSkipLinks(es), t, classes, style)
  {
    if !HasClassSomewhere(es, SkipLinkClass) {
      SkipFirst(es, t);
      match FirstWithTestId(es, t, 0)
      case None =>
      case Some(p) => SkipLook(es, p);
    }
  }

  /** Where each element of the page ends up after the skip-link pass: the
      link sits at 1 and every other element keeps its test id and classes. */
  lemma SkipElement(es: seq<Element>, k: nat)
    requires |es| >= 1 && !HasClassSomewhere(es, SkipLinkClass) && k < |es| + 1
    ensures var r := Page.AddSkipLinks(es); var j := if k == 0 then 0 else k - 1;
            && |r| == |es| + 1
            && (k == 1 ==> r[k] == Page.SkipLink())
            && (k != 1 ==> r[k].testId == es[j].testId && r[k].classes == es[j].classes)
  {
    var i := Page.InsertSkipLink(es);
    assert Page.AddSkipLinks(es) == Page.AnchorMain(i);
    Page.AnchorMainAt(i, k);
  }

  lemma SkipMarks(es: seq<Element>, v: Version)
    requires |es| >= 1
    ensures NoNewTweets(es) ==> NoNewTweets(Page.AddSkipLinks(es))
    ensures NoNewButtons(es, v) ==> NoNewButtons(Page.AddSkipLinks(es), v)
    ensures PromotedHidden(es) ==> PromotedHidden(Page.AddSkipLinks(es))
  {
    if !HasClassSomewhere(es, SkipLinkClass) {
      var r := Page.AddSkipLinks(es);
      forall k | 0 <= k < |r|
        ensures (NoNewTweets(es) ==> !NewTweet(r[k])) && (NoNewButtons(es, v) ==> !NewButton(r[k], v))
        ensures PromotedHidden(es) && IsPromoted(r[k]) ==> Hidden in r[k].classes
      {
        SkipElement(es, k);
      }
    }
  }

  /** The skip-link pass keeps the work of all the passes before it. */
  lemma SkipKeeps(es: seq<Element>, viewportWidth: int, v: Version)
    requires |es| >= 1
    requires FeedDone(es, v) && NoNewTweets(es) && NavDone(es, viewportWidth, v)
    requires NoNewButtons(es, v) && PromotedHidden(es)
    ensures var r := Page.AddSkipLinks(es);
            && FeedDone(r, v) && NoNewTweets(r) && NavDone(r, viewportWidth, v)
            && NoNewButtons(r, v) && PromotedHidden(r)
  {
    SkipColumn(es, "primaryColumn", Page.FeedClasses(v), Page.FeedStylesFor(v));
    SkipColumn(es, "sidebarColumn", {Applied}, NavStylesAt(viewportWidth, v));
    SkipMarks(es, v);
  }
}

/** The content script's state and entry points. One class serves both
    copies of the script: `version` says whether it is the current copy
    (`scripts/content.js`) or the older build copy (`build/content.js`),
    whose passes cover fewer buttons and set fewer styles. */
module UxFixer {
  import opened Dom
  import opened Rules
  import Tweets
  import Buttons
  import Page
  import opened Throttling
  import Mutations
  import Settled

  /** `CONFIG.performance.mutationThrottle`, in milliseconds. */
  const MutationThrottle := 50

  /** The page after `applyTransformations`. */
  function ApplyAll(es: seq<Element>, viewportWidth: int, v: Version): seq<Element>
    requires |es| >= 1
  {
    var feed := Page.TransformFeed(es, v);
    var tweets := Tweets.TransformTweets(feed, v);
    var nav := Page.TransformNav(tweets, viewportWidth, v);
    var buttons := Buttons.TransformButtons(nav, v);
    var promo := Page.HidePromoted(buttons);
    Page.AddSkipLinks(promo)
  }

  /** Running `applyTransformations` again on a page it has already
      transformed changes nothing, so the repeated runs the mutation observer
      and the exported API trigger are harmless. */
  lemma ApplyAllIdempotent(es: seq<Element>, viewportWidth: int, v: Version)
    requires |es| >= 1
    ensures ApplyAll(ApplyAll(es, viewportWidth, v), viewportWidth, v) == ApplyAll(es, viewportWidth, v)
  {
    var feed := Page.TransformFeed(es, v);
    Settled.FeedSettles(es, v);
    var tweets := Tweets.TransformTweets(feed, v);
    Settled.TweetsKeep(feed, v);
    Settled.TweetsSettle(feed, v);
    var nav := Page.TransformNav(tweets, viewportWidth, v);
    Settled.NavKeeps(tweets, viewportWidth, v);
    Settled.NavSettles(tweets, viewportWidth, v);
    var buttons := Buttons.TransformButtons(nav, v);
    Settled.ButtonsKeep(nav, viewportWidth, v);
    Settled.ButtonsSettle(nav, v);
    var promo := Page.HidePromoted(buttons);
    Settled.HideKeeps(buttons, viewportWidth, v);
    Settled.HideSettles(buttons);
    var r := Page.AddSkipLinks(promo);
    Settled.SkipKeeps(promo, viewportWidth, v);
    Settled.SkipSettles(promo);
    assert r == ApplyAll(es, viewportWidth, v);
    Settled.FeedNoop(r, v);
    Tweets.TweetsNothingNew(r, v);
    Settled.NavNoop(r, viewportWidth, v);
    Buttons.ButtonsNothingNew(r, |r|, v);
    Settled.HideNoop(r);
  }

  /** The module-level `state` object of the script, with the page it works on. */
  class ContentScript {
    const version: Version
    var elems: seq<Element>
    var isApplied: bool
    var observerActive: bool
    var performanceMode: bool
    var debugMode: bool
    /** `applyTransformations` waits for `DOMContentLoaded`. */
    var deferred: bool
    /** The throttle around the mutation callback, once `setupObservers` has run. */
    var observer: Throttle?

    predicate Valid()
      reads this
    {
      && WellFormed(elems)
      && (observerActive <==> observer != null)
      && (observer != null ==> observer.limit == MutationThrottle)
    }

    function Flags(): (bool, bool, bool, bool, bool)
      reads this
    {
      (isApplied, observerActive, performanceMode, debugMode, deferred)
    }

    constructor(page: seq<Element>, version: Version)
      requires WellFormed(page)
      ensures Valid() && this.version == version && elems == page
      ensures Flags() == (false, false, false, false, false) && observer == null
    {
      this.version := version;
      elems := page;
      isApplied := false;
      observerActive := false;
      performanceMode := false;
      debugMode := false;
      deferred := false;
      observer := null;
    }

    // -------------------------------------------------------------------
    // The page passes

    method TransformFeedContainer()
      modifies this
      requires Valid()
      ensures Valid() && elems == Page.TransformFeed(old(elems), version)
      ensures Flags() == old(Flags()) && observer == old(observer)
    {
      var p := Page.PrimaryColumn(elems);
      if p.None? {
        return;
      }
      var e := elems[p.value];
      e := e.(classes := e.classes + Page.FeedClasses(version));
      e := e.(style := e.style + Page.FeedStylesFor(version));
      elems := elems[p.value := e];
    }

    method TransformTweets()
      modifies this
      requires Valid()
      ensures Valid() && elems == Tweets.TransformTweets(old(elems), version)
      ensures Flags() == old(Flags()) && observer == old(observer)
    {
      ghost var es := elems;
      var n := |elems|;
      var t := 0;
      Tweets.EffectAtStart(es, version);
      assert elems == Tweets.TweetsUpTo(es, 0, version);
      while t < n
        invariant 0 <= t <= n == |es|
        invariant elems == Tweets.TweetsUpTo(es, t, version)
        invariant Flags() == old(Flags()) && observer == old(observer)
      {
        Tweets.EffectShape(es, t, t, version);
        if NewTweet(elems[t]) {
          StyleTweet(es, t);
        } else {
          Tweets.TweetsSkip(es, t, version);
        }
        t := t + 1;
      }
      Tweets.TweetsOnlyAdd(es, version);
    }

    /** The body of the `forEach` over tweets, for the unprocessed tweet at `t`. */
    method StyleTweet(ghost es: seq<Element>, t: nat)
      modifies this
      requires t < |es| && NewTweet(es[t]) && elems == Tweets.TweetsUpTo(es, t, version)
      ensures elems == Tweets.TweetsUpTo(es, t + 1, version)
      ensures Flags() == old(Flags()) && observer == old(observer)
    {
      Tweets.PartialStart(es, t, version);
      elems := elems[t := Tweets.MarkTweet(elems[t])];
      StyleParts(es, t);
      Tweets.PartialDone(es, t, version);
      if version == Current {
        Tweets.PartialShape(es, t, |es|, version);
        Tweets.FirstTextSame(elems, es, t);
        var f := Tweets.FirstText(elems, t);
        if f.Some? {
          elems := elems[f.value := Tweets.AddMargins(elems[f.value])];
        }
      }
    }

    /** The three `forEach` passes over the text, user-name and
        screen-name/time elements inside tweet `t`. */
    method StyleParts(ghost es: seq<Element>, t: nat)
      modifies this
      requires t < |es| && elems == Tweets.PartialSeq(es, t, t + 1, version)
      ensures elems == Tweets.PartialSeq(es, t, |es|, version)
      ensures Flags() == old(Flags()) && observer == old(observer)
    {
      var n := |elems|;
      var k := t + 1;
      while k < n
        invariant t + 1 <= k <= n == |es|
        invariant elems == Tweets.PartialSeq(es, t, k, version)
        invariant Flags() == old(Flags()) && observer == old(observer)
      {
        Tweets.PartialShape(es, t, k, version);
        DescendantPrefix(elems, es, k, t);
        Tweets.PartialStep(es, t, k, version);
        if IsDescendant(elems, k, t) {
          elems := elems[k := Tweets.StylePart(elems[k], version)];
        }
        k := k + 1;
      }
    }

    method TransformNavigation(viewportWidth: int)
      modifies this
      requires Valid()
      ensures Valid() && elems == Page.TransformNav(old(elems), viewportWidth, version)
      ensures Flags() == old(Flags()) && observer == old(observer)
    {
      var s := Page.Sidebar(elems);
      if s.None? {
        return;
      }
      var e := elems[s.value];
      e := e.(classes := e.classes + {Applied});
      if viewportWidth >= Page.DesktopWidth {
        e := e.(style := e.style + Page.NavStylesFor(version));
      } else {
        assert e.style + map[] == e.style;
      }
      elems := elems[s.value := e];
    }

    method TransformActionButtons()
      modifies this
      requires Valid()
      ensures Valid() && elems == Buttons.TransformButtons(old(elems), version)
      ensures Flags() == old(Flags()) && observer == old(observer)
    {
      ghost var es := elems;
      var n := |elems|;
      var i := 0;
      while i < n
        invariant 0 <= i <= n == |es|
        invariant elems == Buttons.ButtonsUpTo(es, i, version)
        invariant Flags() == old(Flags()) && observer == old(observer)
      {
        VisitButton(es, i);
        i := i + 1;
      }
      Buttons.ButtonsWellFormed(es, n, version);
    }

    /** The body of the `forEach` over action buttons, for the element at `i`. */
    method VisitButton(ghost es: seq<Element>, i: nat)
      modifies this
      requires i < |es| && elems == Buttons.ButtonsUpTo(es, i, version)
      ensures elems == Buttons.ButtonsUpTo(es, i + 1, version)
      ensures Flags() == old(Flags()) && observer == old(observer)
    {
      Buttons.ButtonsNotYet(es, i, version);
      if NewButton(elems[i], version) {
        ghost var p := elems;
        var b := elems[i];
        var marked := b.(classes := b.classes + {Applied, Compact});
        elems := elems[i := marked];
        AddButtonLabels(i);
        if version == Current {
          elems := elems[i := elems[i].(style := elems[i].style + Buttons.ButtonStyles)];
        }
        Buttons.AddLabelIgnoresOwnLook(p, i, marked, Buttons.MarkButton(b, version), version);
      }
    }

    method AddButtonLabels(b: nat)
      modifies this
      requires b < |elems|
      ensures elems == Buttons.AddLabel(old(elems), b, version)
      ensures Flags() == old(Flags()) && observer == old(observer)
    {
      var caption := LabelFor(elems[b].testId, version);
      if caption.None? {
        return;
      }
      var wanted := if version == Current then !Buttons.HasLabel(elems, b)
                    else !Contains(TextContent(elems, b), caption.value);
      if wanted {
        elems := elems + [Buttons.LabelSpan(b, caption.value, version)];
      }
    }

    method RemovePromotionalContent()
      modifies this
      requires Valid()
      ensures Valid() && elems == Page.HidePromoted(old(elems))
      ensures Flags() == old(Flags()) && observer == old(observer)
    {
      ghost var es := elems;
      var n := |elems|;
      for k := 0 to n
        invariant |elems| == n
        invariant forall j :: 0 <= j < n ==> elems[j] == if j < k then Page.HideIfPromoted(es[j]) else es[j]
        invariant Flags() == old(Flags()) && observer == old(observer)
      {
        if IsPromoted(elems[k]) {
          elems := elems[k := elems[k].(classes := elems[k].classes + {Hidden})];
        }
      }
    }

    method AddSkipLinks()
      modifies this
      requires Valid()
      ensures Valid() && elems == Page.AddSkipLinks(old(elems))
      ensures Flags() == old(Flags()) && observer == old(observer)
    {
      Page.SkipLinksWellFormed(elems);
      elems := Page.AddSkipLinks(elems);
    }

    method ApplyTransformations(viewportWidth: int)
      modifies this
      requires Valid()
      ensures Valid() && elems == ApplyAll(old(elems), viewportWidth, version)
      ensures Flags() == old(Flags()) && observer == old(observer)
    {
      TransformFeedContainer();
      TransformTweets();
      TransformNavigation(viewportWidth);
      TransformActionButtons();
      RemovePromotionalContent();
      AddSkipLinks();
    }

    // -------------------------------------------------------------------
    // Start-up and the observer

    /** `init`, with `domLoading` for `document.readyState === 'loading'`. */
    method Init(domLoading: bool, viewportWidth: int)
      modifies this
      requires Valid()
      ensures Valid()
      ensures old(isApplied) ==> elems == old(elems) && Flags() == old(Flags()) && observer == old(observer)
      ensures !old(isApplied) ==>
                && isApplied && observerActive
                && performanceMode == old(performanceMode) && debugMode == old(debugMode)
                && (domLoading ==> elems == old(elems) && deferred)
                && (!domLoading ==> elems == ApplyAll(old(elems), viewportWidth, version) && deferred == old(deferred))
    {
      if isApplied {
        return;
      }
      if domLoading {
        deferred := true;
      } else {
        ApplyTransformations(viewportWidth);
      }
      SetupObservers();
      isApplied := true;
    }

    /** The `DOMContentLoaded` listener `init` registers while the page loads. */
    method DomContentLoaded(viewportWidth: int)
      modifies this
      requires Valid()
      ensures Valid() && !deferred
      ensures old(deferred) ==> elems == ApplyAll(old(elems), viewportWidth, version)
      ensures !old(deferred) ==> elems == old(elems)
      ensures isApplied == old(isApplied) && observerActive == old(observerActive)
      ensures performanceMode == old(performanceMode) && debugMode == old(debugMode) && observer == old(observer)
    {
      if deferred {
        deferred := false;
        ApplyTransformations(viewportWidth);
      }
    }

    method SetupObservers()
      modifies this
      requires Valid()
      ensures Valid() && observerActive && elems == old(elems)
      ensures old(observerActive) ==> Flags() == old(Flags()) && observer == old(observer)
      ensures !old(observerActive) ==> fresh(observer) && observer.State() == Idle
      ensures isApplied == old(isApplied) && performanceMode == old(performanceMode)
      ensures debugMode == old(debugMode) && deferred == old(deferred)
    {
      if observerActive {
        return;
      }
      observer := new Throttle(MutationThrottle);
      observerActive := true;
    }

    /** The mutation callback before throttling; `calls` counts the runs of
        `transformTweets`. */
    method MutationCallback(batch: seq<Mutations.MutationRecord>) returns (calls: nat)
      modifies this
      requires Valid()
      ensures Valid()
      ensures calls == Mutations.BatchCalls(old(elems), batch, |batch|)
      ensures elems == if calls > 0 then Tweets.TransformTweets(old(elems), version) else old(elems)
      ensures Flags() == old(Flags()) && observer == old(observer)
    {
      ghost var es := elems;
      calls := 0;
      for r := 0 to |batch|
        invariant Valid() && Flags() == old(Flags()) && observer == old(observer)
        invariant calls == Mutations.BatchCalls(es, batch, r)
        invariant elems == if calls > 0 then Tweets.TransformTweets(es, version) else es
      {
        var m := batch[r];
        if m.kind == Mutations.ChildList {
          for i := 0 to |m.addedNodes|
            invariant Valid() && Flags() == old(Flags()) && observer == old(observer)
            invariant calls == Mutations.BatchCalls(es, batch, r) + Mutations.NodesCalls(es, m.addedNodes, i)
            invariant elems == if calls > 0 then Tweets.TransformTweets(es, version) else es
          {
            calls := AddedNode(es, m.addedNodes[i], calls);
          }
        }
      }
    }

    /** The callback's body for one added node; `calls` counts the runs of
        `transformTweets` so far, starting from the page `es`. */
    method AddedNode(ghost es: seq<Element>, n: Mutations.AddedNode, calls0: nat) returns (calls: nat)
      modifies this
      requires Valid() && elems == if calls0 > 0 then Tweets.TransformTweets(es, version) else es
      ensures Valid() && Flags() == old(Flags()) && observer == old(observer)
      ensures calls == calls0 + Mutations.NodeCalls(es, n)
      ensures elems == if calls > 0 then Tweets.TransformTweets(es, version) else es
    {
      Tweets.TweetsOnlyAdd(es, version);
      Tweets.TweetsIdempotent(es, version);
      Mutations.NodeSameShape(elems, es, n);
      calls := calls0;
      match n
      case OtherNode =>
      case ElementNode(p) =>
        if p < |elems| {
          var inside := Mutations.HasTweetInside(elems, p);
          if IsTweet(elems[p]) {
            TransformTweets();
            calls := calls + 1;
          }
          if inside {
            TransformTweets();
            calls := calls + 1;
          }
        }
    }

    /** A mutation batch delivered at time `now` to the throttled callback. */
    method ObserveMutations(batch: seq<Mutations.MutationRecord>, now: int) returns (fired: bool)
      modifies this, observer
      requires Valid()
      ensures Valid() && Flags() == old(Flags()) && observer == old(observer)
      ensures old(observer) == null ==> !fired
      ensures old(observer) != null ==> (fired, observer.State()) == Step(MutationThrottle, old(observer.State()), now)
      ensures fired ==> elems == if Mutations.AddsTweet(old(elems), batch) then Tweets.TransformTweets(old(elems), version) else old(elems)
      ensures !fired ==> elems == old(elems)
    {
      if observer == null {
        return false;
      }
      fired := observer.Call(now);
      if fired {
        var calls := MutationCallback(batch);
        Mutations.CallsIffAddsTweet(old(elems), batch);
      }
    }

    // -------------------------------------------------------------------
    // The keyboard toggles

    method TogglePerformanceMode()
      modifies this
      requires Valid()
      ensures Valid() && performanceMode == !old(performanceMode)
      ensures elems == old(elems)[Body := Page.SetClass(old(elems)[Body], PerformanceClass, performanceMode)]
      ensures (PerformanceClass in elems[Body].classes) == performanceMode
      ensures isApplied == old(isApplied) && observerActive == old(observerActive)
      ensures debugMode == old(debugMode) && deferred == old(deferred) && observer == old(observer)
    {
      performanceMode := !performanceMode;
      if performanceMode {
        elems := elems[Body := elems[Body].(classes := elems[Body].classes + {PerformanceClass})];
      } else {
        elems := elems[Body := elems[Body].(classes := elems[Body].classes - {PerformanceClass})];
      }
    }

    method ToggleDebugMode()
      modifies this
      ensures debugMode == !old(debugMode) && elems == old(elems)
      ensures isApplied == old(isApplied) && observerActive == old(observerActive)
      ensures performanceMode == old(performanceMode) && deferred == old(deferred) && observer == old(observer)
    {
      debugMode := !debugMode;
    }
  }
}

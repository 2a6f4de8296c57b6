/** What `transformTweets` does to a page, stated element by element, and
    the properties that follow: it only adds classes and styles, it marks
    every tweet, it styles the parts of every tweet it processes, and a
    second run changes nothing. */
module Tweets {
  import opened Dom
  import opened Rules

  const TextStyles: map<string, string> :=
    map["whiteSpace" := "pre-wrap", "wordWrap" := "break-word", "overflowWrap" := "break-word"]
  const UserNameStyles: map<string, string> := map["marginBottom" := "2px"]
  const MetaStyles: map<string, string> := map["fontSize" := "12px", "color" := "#536471"]
  const ContentMargins: map<string, string> := map["marginTop" := "4px", "marginBottom" := "8px"]

  /** The inline styles the current copy gives a part of a tweet; the older copy sets none. */
  function PartStyles(e: Element, v: Version): map<string, string>
  {
    if v == Legacy then map[] else
      (if IsTweetText(e) then TextStyles else map[])
      + (if IsUserName(e) then UserNameStyles else map[])
      + (if IsMeta(e) then MetaStyles else map[])
  }

  /** The three `forEach` passes over one tweet's text, user name and
      screen-name/time elements, as they affect one element under the tweet. */
  function StylePart(e: Element, v: Version): Element
  {
    if IsTweetPart(e) then e.(classes := e.classes + {Mono}, style := e.style + PartStyles(e, v)) else e
  }

  function MarkTweet(e: Element): Element
  {
    e.(classes := e.classes + {Applied, Compact})
  }

  function AddMargins(e: Element): Element
  {
    e.(style := e.style + ContentMargins)
  }

  /** `tweet.querySelector('[data-testid="tweetText"]')`, searching positions from `k` on. */
  function FirstTextFrom(es: seq<Element>, t: int, k: nat): (r: Option<nat>)
    decreases |es| - k
    ensures r.Some? ==> k <= r.value < |es| && IsDescendant(es, r.value, t) && IsTweetText(es[r.value])
  {
    if k >= |es| then None
    else if IsDescendant(es, k, t) && IsTweetText(es[k]) then Some(k)
    else FirstTextFrom(es, t, k + 1)
  }

  function FirstText(es: seq<Element>, t: int): Option<nat>
  {
    FirstTextFrom(es, t, 0)
  }

  /** Some ancestor of `j` below position `bound` is an unprocessed tweet. */
  predicate UnderNewTweet(es: seq<Element>, j: int, bound: int)
    decreases j
  {
    && 0 <= j < |es|
    && 0 <= es[j].parent < j
    && ((es[j].parent < bound && NewTweet(es[es[j].parent])) || UnderNewTweet(es, es[j].parent, bound))
  }

  /** `j` is the first tweet text of some unprocessed tweet that is an ancestor
      of `c` and lies below position `bound`. */
  predicate MarginFrom(es: seq<Element>, j: int, c: int, bound: int)
    decreases c
  {
    && 0 <= c < |es|
    && 0 <= es[c].parent < c
    && var a := es[c].parent;
       (a < bound && NewTweet(es[a]) && FirstText(es, a) == Some(j)) || MarginFrom(es, j, a, bound)
  }

  predicate MarginTarget(es: seq<Element>, j: int, bound: int)
  {
    MarginFrom(es, j, j, bound)
  }

  /** An element marked as a processed tweet (`mark`), styled as part of a
      processed tweet (`part`) and given the tweet-text margins (`margins`). */
  function Effect(e: Element, mark: bool, part: bool, margins: bool, v: Version): Element
  {
    var e1 := if mark then MarkTweet(e) else e;
    var e2 := if part then StylePart(e1, v) else e1;
    if margins then AddMargins(e2) else e2
  }

  /** Element `j` once the tweets at positions below `bound` have been processed. */
  function TweetEffect(es: seq<Element>, j: int, bound: int, v: Version): Element
    requires 0 <= j < |es|
  {
    Effect(es[j], j < bound && NewTweet(es[j]), UnderNewTweet(es, j, bound),
           v == Current && MarginTarget(es, j, bound), v)
  }

  function TweetsUpTo(es: seq<Element>, bound: int, v: Version): seq<Element>
  {
    seq(|es|, j requires 0 <= j < |es| => TweetEffect(es, j, bound, v))
  }

  /** The page after `transformTweets` (`v` says which copy). */
  function TransformTweets(es: seq<Element>, v: Version): seq<Element>
  {
    TweetsUpTo(es, |es|, v)
  }

  // ---------------------------------------------------------------------
  // One step of the loop over tweets

  lemma {:induction false} UnderStep(es: seq<Element>, j: int, i: int)
    requires 0 <= i < |es|
    ensures UnderNewTweet(es, j, i + 1) == (UnderNewTweet(es, j, i) || (NewTweet(es[i]) && IsDescendant(es, j, i)))
    decreases j
  {
    if 0 <= j < |es| && 0 <= es[j].parent < j {
      UnderStep(es, es[j].parent, i);
    }
  }

  lemma {:induction false} MarginStep(es: seq<Element>, j: int, c: int, i: int)
    requires 0 <= i < |es|
    ensures MarginFrom(es, j, c, i + 1) ==
            (MarginFrom(es, j, c, i) || (NewTweet(es[i]) && FirstText(es, i) == Some(j) && IsDescendant(es, c, i)))
    decreases c
  {
    if 0 <= c < |es| && 0 <= es[c].parent < c {
      MarginStep(es, j, es[c].parent, i);
    }
  }

  /** A margin target is a tweet text. */
  lemma {:induction false} MarginIsText(es: seq<Element>, j: int, c: int, bound: int)
    requires MarginFrom(es, j, c, bound)
    ensures 0 <= j < |es| && IsTweetText(es[j])
    decreases c
  {
    var a := es[c].parent;
    if !(a < bound && NewTweet(es[a]) && FirstText(es, a) == Some(j)) {
      MarginIsText(es, j, a, bound);
    }
  }

  /** Which pass selects an element, and the styles it sets, depend only on
      the element's `data-testid` and tag. */
  lemma PartKindKept(e: Element, f: Element, v: Version)
    requires e.testId == f.testId && e.tag == f.tag
    ensures IsTweetPart(e) == IsTweetPart(f) && IsTweetText(e) == IsTweetText(f)
    ensures PartStyles(e, v) == PartStyles(f, v)
  {
  }

  lemma EffectMark(e: Element, part: bool, margins: bool, v: Version)
    ensures MarkTweet(Effect(e, false, part, margins, v)) == Effect(e, true, part, margins, v)
  {
    var m := MarkTweet(e);
    PartKindKept(e, m, v);
    if part && IsTweetPart(e) {
      assert (e.classes + {Mono}) + {Applied, Compact} == (e.classes + {Applied, Compact}) + {Mono};
    }
  }

  lemma MapAddTwice(m: map<string, string>, p: map<string, string>)
    ensures (m + p) + p == m + p
  {
  }

  lemma MapAddSwap(m: map<string, string>, p: map<string, string>, q: map<string, string>)
    requires forall k :: k in p ==> k !in q
    ensures (m + q) + p == (m + p) + q
  {
  }

  /** The tweet-text margins and a tweet text's own styles touch different properties. */
  lemma MarginsApart(e: Element, v: Version)
    requires IsTweetText(e)
    ensures forall k :: k in PartStyles(e, v) ==> k !in ContentMargins
  {
  }

  lemma EffectPart(e: Element, mark: bool, part: bool, margins: bool, v: Version)
    requires margins ==> IsTweetText(e)
    ensures StylePart(Effect(e, mark, part, margins, v), v) == Effect(e, mark, true, margins, v)
  {
    var e1 := if mark then MarkTweet(e) else e;
    PartKindKept(e, e1, v);
    if IsTweetPart(e) {
      var p := PartStyles(e, v);
      var e2 := if part then StylePart(e1, v) else e1;
      var e2' := StylePart(e1, v);
      PartKindKept(e1, e2, v);
      if margins {
        var e3 := AddMargins(e2);
        PartKindKept(e2, e3, v);
        MarginsApart(e, v);
        MapAddSwap(e2.style, p, ContentMargins);
        MapAddTwice(e1.style, p);
        assert StylePart(e3, v) == AddMargins(e2');
      } else {
        MapAddTwice(e1.style, p);
        assert StylePart(e2, v) == e2';
      }
    }
  }

  lemma EffectMargins(e: Element, mark: bool, part: bool, margins: bool, v: Version)
    ensures AddMargins(Effect(e, mark, part, margins, v)) == Effect(e, mark, part, true, v)
  {
    var e2 := Effect(e, mark, part, false, v);
    assert (e2.style + ContentMargins) + ContentMargins == e2.style + ContentMargins;
  }

  /** Processing tweet `i` turns the page with the tweets below `i` done into
      the page with the tweets below `i + 1` done. */
  lemma TweetStep(es: seq<Element>, i: int, j: int, v: Version)
    requires 0 <= i < |es| && 0 <= j < |es|
    ensures !NewTweet(es[i]) ==> TweetEffect(es, j, i + 1, v) == TweetEffect(es, j, i, v)
    ensures NewTweet(es[i]) ==>
      var e1 := if j == i then MarkTweet(TweetEffect(es, j, i, v)) else TweetEffect(es, j, i, v);
      var e2 := if IsDescendant(es, j, i) then StylePart(e1, v) else e1;
      TweetEffect(es, j, i + 1, v) == (if v == Current && FirstText(es, i) == Some(j) then AddMargins(e2) else e2)
  {
    UnderStep(es, j, i);
    MarginStep(es, j, j, i);
    var e := es[j];
    var under := UnderNewTweet(es, j, i);
    var margins := v == Current && MarginTarget(es, j, i);
    if margins {
      MarginIsText(es, j, j, i);
    }
    if NewTweet(es[i]) {
      var isFirst := FirstText(es, i) == Some(j);
      if j == i {
        assert !IsDescendant(es, j, i) by {
          if IsDescendant(es, j, i) { DescendantFollows(es, j, i); }
        }
        EffectMark(e, under, margins, v);
      } else if IsDescendant(es, j, i) {
        EffectPart(e, false, under, margins, v);
        if v == Current && isFirst {
          EffectMargins(e, false, true, margins, v);
        }
      }
    }
  }

  // ---------------------------------------------------------------------
  // Properties of the whole pass

  lemma {:induction false} UnderFromAncestor(es: seq<Element>, j: int, a: int, bound: int)
    requires 0 <= a < |es| && IsDescendant(es, j, a) && a < bound && NewTweet(es[a])
    ensures UnderNewTweet(es, j, bound)
    decreases j
  {
    if es[j].parent != a {
      UnderFromAncestor(es, es[j].parent, a, bound);
    }
  }

  lemma {:induction false} MarginFromAncestor(es: seq<Element>, j: int, c: int, a: int, bound: int)
    requires 0 <= a < |es| && IsDescendant(es, c, a) && a < bound && NewTweet(es[a])
    requires FirstText(es, a) == Some(j)
    ensures MarginFrom(es, j, c, bound)
    decreases c
  {
    if es[c].parent != a {
      MarginFromAncestor(es, j, es[c].parent, a, bound);
    }
  }

  lemma {:induction false} MarginImpliesUnder(es: seq<Element>, j: int, c: int, bound: int)
    requires MarginFrom(es, j, c, bound)
    ensures UnderNewTweet(es, c, bound)
    decreases c
  {
    var a := es[c].parent;
    if !(a < bound && NewTweet(es[a])) {
      MarginImpliesUnder(es, j, a, bound);
    }
  }

  lemma {:induction false} NotUnderWithoutNewTweets(es: seq<Element>, j: int, bound: int)
    requires forall a :: 0 <= a < |es| ==> !NewTweet(es[a])
    ensures !UnderNewTweet(es, j, bound)
    decreases j
  {
    if 0 <= j < |es| && 0 <= es[j].parent < j {
      NotUnderWithoutNewTweets(es, es[j].parent, bound);
    }
  }

  /** Element `j` of the result is what the definition says. */
  lemma TransformAt(es: seq<Element>, v: Version, j: int)
    requires 0 <= j < |es|
    ensures |TransformTweets(es, v)| == |es|
    ensures TransformTweets(es, v)[j] == TweetEffect(es, j, |es|, v)
  {
  }

  /** `transformTweets` changes only classes and inline styles, and only adds classes. */
  lemma TweetsOnlyAdd(es: seq<Element>, v: Version)
    ensures SameShape(TransformTweets(es, v), es)
    ensures forall j :: 0 <= j < |es| ==> es[j].classes <= TransformTweets(es, v)[j].classes
  {
  }

  /** On an element that is neither a tweet, a tweet text nor a user name, the
      pass sets at most the screen-name/time styles and keeps every other
      property as it was. */
  lemma TweetsStyleOthers(es: seq<Element>, v: Version, j: int)
    requires 0 <= j < |es| && !IsTweet(es[j]) && !IsTweetText(es[j]) && !IsUserName(es[j])
    ensures var r := TransformTweets(es, v);
            forall q :: q in es[j].style && q !in MetaStyles ==> q in r[j].style && r[j].style[q] == es[j].style[q]
  {
    TransformAt(es, v, j);
    if v == Current && MarginTarget(es, j, |es|) {
      MarginIsText(es, j, j, |es|);
    }
  }

  /** Afterwards every tweet carries `ux-fixer-applied`, and every tweet that
      was processed also carries `ux-fixer-compact`. */
  lemma TweetsAllMarked(es: seq<Element>, v: Version)
    ensures forall a :: 0 <= a < |es| && IsTweet(es[a]) ==> Applied in TransformTweets(es, v)[a].classes
    ensures forall a :: 0 <= a < |es| && NewTweet(es[a]) ==> Compact in TransformTweets(es, v)[a].classes
  {
  }

  /** Every text, user-name, screen-name or time element under a processed
      tweet gets `ux-fixer-mono` and the styles of its role. */
  lemma TweetPartsStyled(es: seq<Element>, v: Version, a: int, j: int)
    requires 0 <= a < |es| && NewTweet(es[a]) && IsDescendant(es, j, a) && IsTweetPart(es[j])
    ensures Mono in TransformTweets(es, v)[j].classes
    ensures forall k :: k in PartStyles(es[j], v) ==>
              k in TransformTweets(es, v)[j].style && TransformTweets(es, v)[j].style[k] == PartStyles(es[j], v)[k]
  {
    UnderFromAncestor(es, j, a, |es|);
    if v == Current && MarginTarget(es, j, |es|) {
      MarginIsText(es, j, j, |es|);
      MarginsApart(es[j], v);
    }
  }

  /** The first tweet text of each processed tweet gets the content margins
      (current copy only). */
  lemma FirstTextGetsMargins(es: seq<Element>, a: int, f: nat)
    requires 0 <= a < |es| && NewTweet(es[a]) && FirstText(es, a) == Some(f)
    ensures f < |es| && IsTweetText(es[f])
    ensures forall k :: k in ContentMargins ==>
              k in TransformTweets(es, Current)[f].style && TransformTweets(es, Current)[f].style[k] == ContentMargins[k]
  {
    MarginFromAncestor(es, f, f, a, |es|);
  }

  /** An element that is not an unprocessed tweet and lies under no
      unprocessed tweet keeps its classes and styles. */
  lemma TweetsLeaveOthers(es: seq<Element>, v: Version, j: int)
    requires 0 <= j < |es| && !NewTweet(es[j])
    requires forall a :: 0 <= a < |es| && NewTweet(es[a]) ==> !IsDescendant(es, j, a)
    ensures TransformTweets(es, v)[j] == es[j]
  {
    if UnderNewTweet(es, j, |es|) {
      var a := NewAncestor(es, j, |es|);
    }
    if MarginTarget(es, j, |es|) {
      MarginImpliesUnder(es, j, j, |es|);
      var a := NewAncestor(es, j, |es|);
    }
  }

  lemma {:induction false} NewAncestor(es: seq<Element>, j: int, bound: int) returns (a: int)
    requires UnderNewTweet(es, j, bound)
    ensures 0 <= a < |es| && a < bound && NewTweet(es[a]) && IsDescendant(es, j, a)
    decreases j
  {
    var p := es[j].parent;
    if p < bound && NewTweet(es[p]) {
      a := p;
    } else {
      a := NewAncestor(es, p, bound);
    }
  }

  /** A page whose tweets are all marked is left as it is: the guard on
      `ux-fixer-applied` skips every tweet. */
  lemma TweetsNothingNew(es: seq<Element>, v: Version)
    requires forall a :: 0 <= a < |es| ==> !NewTweet(es[a])
    ensures TransformTweets(es, v) == es
  {
    forall j | 0 <= j < |es| ensures TransformTweets(es, v)[j] == es[j] {
      NotUnderWithoutNewTweets(es, j, |es|);
      if MarginTarget(es, j, |es|) {
        MarginImpliesUnder(es, j, j, |es|);
      }
    }
  }

  /** The older copy only adds classes: no element's inline style changes. */
  lemma LegacyTweetsKeepStyles(es: seq<Element>)
    ensures forall j :: 0 <= j < |es| ==> TransformTweets(es, Legacy)[j].style == es[j].style
  {
    forall j | 0 <= j < |es|
      ensures TransformTweets(es, Legacy)[j].style == es[j].style
    {
      TransformAt(es, Legacy, j);
    }
  }

  /** Running `transformTweets` twice gives the same page as running it once. */
  lemma TweetsIdempotent(es: seq<Element>, v: Version)
    ensures TransformTweets(TransformTweets(es, v), v) == TransformTweets(es, v)
  {
    var r := TransformTweets(es, v);
    TweetsAllMarked(es, v);
    TweetsOnlyAdd(es, v);
    TweetsNothingNew(r, v);
  }

  // ---------------------------------------------------------------------
  // Facts the loop over tweets relies on

  /** Element `j` while tweet `t` is being processed: the tweet is marked and
      its parts at positions below `k` are styled. */
  function Partial(es: seq<Element>, j: int, t: int, k: int, v: Version): Element
    requires 0 <= j < |es|
  {
    var e1 := if j == t then MarkTweet(TweetEffect(es, j, t, v)) else TweetEffect(es, j, t, v);
    if t < j < k && IsDescendant(es, j, t) then StylePart(e1, v) else e1
  }

  /** Processing tweets changes only classes and styles. */
  lemma EffectShape(es: seq<Element>, j: int, bound: int, v: Version)
    requires 0 <= j < |es|
    ensures var e := TweetEffect(es, j, bound, v);
            e.parent == es[j].parent && e.testId == es[j].testId && e.tag == es[j].tag &&
            e.id == es[j].id && e.text == es[j].text
    ensures Applied in TweetEffect(es, j, bound, v).classes <==> (j < bound && NewTweet(es[j])) || Applied in es[j].classes
  {
  }

  lemma {:induction false} FirstTextFromSame(x: seq<Element>, y: seq<Element>, t: int, k: nat)
    requires SameShape(x, y)
    ensures FirstTextFrom(x, t, k) == FirstTextFrom(y, t, k)
    decreases |x| - k
  {
    if k < |x| {
      DescendantPrefix(x, y, k, t);
      FirstTextFromSame(x, y, t, k + 1);
    }
  }

  /** `tweet.querySelector` for the tweet text reads only the tree and the test ids. */
  lemma FirstTextSame(x: seq<Element>, y: seq<Element>, t: int)
    requires SameShape(x, y)
    ensures FirstText(x, t) == FirstText(y, t)
  {
    FirstTextFromSame(x, y, t, 0);
  }

  lemma {:induction false} NothingUnderAtStart(es: seq<Element>, j: int)
    ensures !UnderNewTweet(es, j, 0)
    decreases j
  {
    if 0 <= j < |es| && 0 <= es[j].parent < j {
      NothingUnderAtStart(es, es[j].parent);
    }
  }

  lemma {:induction false} NoMarginAtStart(es: seq<Element>, j: int, c: int)
    ensures !MarginFrom(es, j, c, 0)
    decreases c
  {
    if 0 <= c < |es| && 0 <= es[c].parent < c {
      NoMarginAtStart(es, j, es[c].parent);
    }
  }

  /** Before the first tweet is processed every element is as it was. */
  lemma EffectAtStart(es: seq<Element>, v: Version)
    ensures forall j :: 0 <= j < |es| ==> TweetEffect(es, j, 0, v) == es[j]
  {
    forall j | 0 <= j < |es| ensures TweetEffect(es, j, 0, v) == es[j] {
      NothingUnderAtStart(es, j);
      NoMarginAtStart(es, j, j);
    }
  }

  function PartialSeq(es: seq<Element>, t: int, k: int, v: Version): seq<Element>
  {
    seq(|es|, j requires 0 <= j < |es| => Partial(es, j, t, k, v))
  }

  /** Styling the part at position `k` moves the partial state from `k` to `k + 1`. */
  lemma PartialStep(es: seq<Element>, t: int, k: int, v: Version)
    requires 0 <= k < |es| && t < k
    ensures var x := PartialSeq(es, t, k, v);
            PartialSeq(es, t, k + 1, v) == if IsDescendant(es, k, t) then x[k := StylePart(x[k], v)] else x
  {
  }

  /** Marking tweet `t` starts its step. */
  lemma PartialStart(es: seq<Element>, t: int, v: Version)
    requires 0 <= t < |es|
    ensures var x := TweetsUpTo(es, t, v);
            PartialSeq(es, t, t + 1, v) == x[t := MarkTweet(x[t])]
  {
  }

  /** Once every position after the tweet has been looked at, the margins
      finish the step. */
  lemma PartialDone(es: seq<Element>, t: int, v: Version)
    requires 0 <= t < |es| && NewTweet(es[t])
    ensures var x := PartialSeq(es, t, |es|, v);
            TweetsUpTo(es, t + 1, v) ==
              match FirstText(es, t)
              case Some(f) => if v == Current then x[f := AddMargins(x[f])] else x
              case None => x
  {
    var x := PartialSeq(es, t, |es|, v);
    forall j | 0 <= j < |es|
      ensures TweetEffect(es, j, t + 1, v) ==
                if v == Current && FirstText(es, t) == Some(j) then AddMargins(x[j]) else x[j]
    {
      TweetStep(es, t, j, v);
      if IsDescendant(es, j, t) {
        DescendantFollows(es, j, t);
      }
    }
  }

  /** A tweet that is already processed leaves the page as it is. */
  lemma TweetsSkip(es: seq<Element>, t: int, v: Version)
    requires 0 <= t < |es| && !NewTweet(es[t])
    ensures TweetsUpTo(es, t + 1, v) == TweetsUpTo(es, t, v)
  {
    forall j | 0 <= j < |es| ensures TweetEffect(es, j, t + 1, v) == TweetEffect(es, j, t, v) {
      TweetStep(es, t, j, v);
    }
  }

  /** Every intermediate page has the shape of the original. */
  lemma PartialShape(es: seq<Element>, t: int, k: int, v: Version)
    ensures SameShape(PartialSeq(es, t, k, v), es)
    ensures SameShape(TweetsUpTo(es, t, v), es)
  {
    forall j | 0 <= j < |es| {
      EffectShape(es, j, t, v);
    }
  }
}

/** What `transformActionButtons` and `addButtonLabels` do to a page. A label
    is a new `<span>` appended as the last child of its button; in the page
    model it goes at the end of the sequence, so every element that was
    there before keeps its position. */
module Buttons {
  import opened Dom
  import opened Rules

  /** The inline styles the current copy gives an action button; the older copy sets none. */
  const ButtonStyles: map<string, string> :=
    map["padding" := "8px 12px", "margin" := "2px", "borderRadius" := "4px",
        "border" := "1px solid transparent", "backgroundColor" := "transparent",
        "cursor" := "pointer", "display" := "inline-flex", "alignItems" := "center",
        "justifyContent" := "center", "minHeight" := "32px", "minWidth" := "32px"]

  const LabelStyles: map<string, string> :=
    map["marginLeft" := "4px", "fontSize" := "12px", "fontFamily" := "monospace", "color" := "inherit"]

  const LegacyLabelStyles: map<string, string> := map["marginLeft" := "4px"]

  function MarkButton(e: Element, v: Version): Element
  {
    var e1 := e.(classes := e.classes + {Applied, Compact});
    if v == Current then e1.(style := e1.style + ButtonStyles) else e1
  }

  /** The `<span>` holding `caption`, as the last child of button `b`. */
  function LabelSpan(b: nat, caption: string, v: Version): Element
  {
    if v == Current then Element("", "", "SPAN", {LabelClass}, LabelStyles, caption, b)
    else Element("", "", "SPAN", {}, LegacyLabelStyles, caption, b)
  }

  /** `button.querySelector('.ux-fixer-button-label')` finds something. */
  predicate HasLabel(es: seq<Element>, b: int)
  {
    exists k | 0 <= k < |es| :: IsDescendant(es, k, b) && LabelClass in es[k].classes
  }

  /** The guard before appending: the current copy looks for a label element
      under the button, the older one for the label text in `textContent`. */
  predicate WantsLabel(es: seq<Element>, b: int, caption: string, v: Version)
  {
    if v == Current then !HasLabel(es, b) else !Contains(TextContent(es, b), caption)
  }

  /** `addButtonLabels(button)` for the button at position `b`. */
  function AddLabel(es: seq<Element>, b: nat, v: Version): (r: seq<Element>)
    requires b < |es|
    ensures es[b].testId !in ButtonIds(v) ==> r == es
    ensures r == es || (LabelFor(es[b].testId, v).Some? && r == es + [LabelSpan(b, LabelFor(es[b].testId, v).value, v)])
    ensures LabelFor(es[b].testId, v).Some? ==> (r != es <==> WantsLabel(es, b, LabelFor(es[b].testId, v).value, v))
  {
    match LabelFor(es[b].testId, v)
    case None => es
    case Some(caption) => if WantsLabel(es, b, caption, v) then es + [LabelSpan(b, caption, v)] else es
  }

  /** The page once the buttons at positions below `i` have been handled.
      Only positions of the original page are buttons: labels have no `data-testid`. */
  function ButtonsUpTo(es: seq<Element>, i: nat, v: Version): (r: seq<Element>)
    requires i <= |es|
    ensures |es| <= |r| <= |es| + i
  {
    if i == 0 then es
    else
      var p := ButtonsUpTo(es, i - 1, v);
      if NewButton(es[i - 1], v) then AddLabel(p[i - 1 := MarkButton(p[i - 1], v)], i - 1, v) else p
  }

  /** The pass leaves the elements it has not reached alone. */
  lemma {:induction false} ButtonsKeepRest(es: seq<Element>, i: nat, v: Version)
    requires i <= |es|
    ensures forall k :: i <= k < |es| ==> ButtonsUpTo(es, i, v)[k] == es[k]
  {
    if i > 0 {
      ButtonsKeepRest(es, i - 1, v);
      var p := ButtonsUpTo(es, i - 1, v);
      if NewButton(es[i - 1], v) {
        var m := p[i - 1 := MarkButton(p[i - 1], v)];
        assert ButtonsUpTo(es, i, v)[..|m|] == AddLabel(m, i - 1, v)[..|m|] == m;
      }
    }
  }

  /** The element the pass is about to visit is still the original one. */
  lemma ButtonsNotYet(es: seq<Element>, i: nat, v: Version)
    requires i < |es|
    ensures ButtonsUpTo(es, i, v)[i] == es[i]
  {
    ButtonsKeepRest(es, i, v);
  }

  /** The pass keeps every original element's place in the tree, test id and text. */
  lemma {:induction false} ButtonsKeepTree(es: seq<Element>, i: nat, v: Version)
    requires i <= |es|
    ensures var r := ButtonsUpTo(es, i, v);
            forall k :: 0 <= k < |es| ==>
              r[k].parent == es[k].parent && r[k].testId == es[k].testId && r[k].text == es[k].text
  {
    if i > 0 {
      ButtonsKeepTree(es, i - 1, v);
      var p := ButtonsUpTo(es, i - 1, v);
      if NewButton(es[i - 1], v) {
        var m := p[i - 1 := MarkButton(p[i - 1], v)];
        var q := ButtonsUpTo(es, i, v);
        assert q[..|m|] == AddLabel(m, i - 1, v)[..|m|] == m;
        forall k | 0 <= k < |es|
          ensures q[k].parent == es[k].parent && q[k].testId == es[k].testId && q[k].text == es[k].text
        {
          assert q[k] == m[k];
        }
      }
    }
  }

  /** The pass leaves the elements it has not reached alone, keeps every
      original element's place in the tree, test id and text, and adds only
      unnamed label spans under elements it has visited. */
  lemma ButtonsShape(es: seq<Element>, i: nat, v: Version)
    requires i <= |es|
    ensures var r := ButtonsUpTo(es, i, v);
            && (forall k :: i <= k < |es| ==> r[k] == es[k])
            && (forall k :: 0 <= k < |es| ==>
                  r[k].parent == es[k].parent && r[k].testId == es[k].testId && r[k].text == es[k].text)
            && (forall k :: |es| <= k < |r| ==> 0 <= r[k].parent < i && r[k].testId == "" && r[k].classes <= {LabelClass})
  {
    ButtonsKeepRest(es, i, v);
    ButtonsKeepTree(es, i, v);
    ButtonsAdded(es, i, v);
  }

  /** The pass keeps the page a tree with parents before children. */
  lemma ButtonsWellFormed(es: seq<Element>, i: nat, v: Version)
    requires i <= |es| && WellFormed(es)
    ensures WellFormed(ButtonsUpTo(es, i, v))
  {
    ButtonsShape(es, i, v);
  }

  /** The page after `transformActionButtons` (`v` says which copy). */
  function TransformButtons(es: seq<Element>, v: Version): seq<Element>
  {
    ButtonsUpTo(es, |es|, v)
  }

  // ---------------------------------------------------------------------
  // addButtonLabels

  /** The number of children of `b` carrying the label class, among positions below `k`. */
  function LabelChildren(es: seq<Element>, b: int, k: nat): nat
    requires k <= |es|
  {
    if k == 0 then 0
    else LabelChildren(es, b, k - 1) + (if es[k - 1].parent == b && LabelClass in es[k - 1].classes then 1 else 0)
  }

  lemma {:induction false} LabelChildrenPrefix(x: seq<Element>, y: seq<Element>, b: int, k: nat)
    requires k <= |x| && k <= |y|
    requires forall i :: 0 <= i < k ==> x[i].parent == y[i].parent && (LabelClass in x[i].classes <==> LabelClass in y[i].classes)
    ensures LabelChildren(x, b, k) == LabelChildren(y, b, k)
  {
    if k > 0 {
      LabelChildrenPrefix(x, y, b, k - 1);
    }
  }

  /** A child with the label class is a label found by the current copy's guard. */
  lemma {:induction false} LabelChildFound(es: seq<Element>, b: nat, k: nat)
    requires WellFormed(es) && k <= |es| && LabelChildren(es, b, k) > 0
    ensures HasLabel(es, b)
  {
    var j := k - 1;
    if es[j].parent == b && LabelClass in es[j].classes {
      assert IsDescendant(es, j, b);
    } else {
      LabelChildFound(es, b, j);
    }
  }

  /** The button at `b` carries the label `caption`, as the copy's own guard sees it. */
  predicate Labelled(es: seq<Element>, b: int, caption: string, v: Version)
  {
    !WantsLabel(es, b, caption, v)
  }

  /** After `addButtonLabels` a known button carries its label. */
  lemma AddLabelLabels(es: seq<Element>, b: nat, v: Version)
    requires b < |es| && es[b].testId in ButtonIds(v)
    ensures Labelled(AddLabel(es, b, v), b, LabelFor(es[b].testId, v).value, v)
  {
    var caption := LabelFor(es[b].testId, v).value;
    if WantsLabel(es, b, caption, v) {
      var r := es + [LabelSpan(b, caption, v)];
      if v == Current {
        assert IsDescendant(r, |es|, b);
      } else {
        TextContentAppendChild(es, b, LabelSpan(b, caption, v));
        ContainsAppended(TextContent(es, b), caption);
      }
    }
  }

  /** A second `addButtonLabels` on the same button changes nothing. */
  lemma AddLabelTwice(es: seq<Element>, b: nat, v: Version)
    requires b < |es|
    ensures AddLabel(AddLabel(es, b, v), b, v) == AddLabel(es, b, v)
  {
    if es[b].testId in ButtonIds(v) {
      AddLabelLabels(es, b, v);
    }
  }

  /** The current copy never gives a button a second label child: it appends
      one only when the button has no label under it at all. */
  lemma AddLabelAtMostOne(es: seq<Element>, b: nat)
    requires WellFormed(es) && b < |es|
    ensures var r := AddLabel(es, b, Current);
            || LabelChildren(r, b, |r|) == LabelChildren(es, b, |es|)
            || (LabelChildren(es, b, |es|) == 0 && LabelChildren(r, b, |r|) == 1)
    ensures HasLabel(es, b) ==> AddLabel(es, b, Current) == es
  {
    if LabelChildren(es, b, |es|) > 0 {
      LabelChildFound(es, b, |es|);
    }
    var r := AddLabel(es, b, Current);
    if r != es {
      LabelChildrenPrefix(es, r, b, |es|);
    }
  }

  // ---------------------------------------------------------------------
  // The whole pass

  /** Every position of the original page ends up marked if it was an
      unprocessed button and untouched otherwise. */
  lemma {:induction false} ButtonsRecords(es: seq<Element>, i: nat, v: Version)
    requires i <= |es|
    ensures forall k :: 0 <= k < i ==>
              ButtonsUpTo(es, i, v)[k] == if NewButton(es[k], v) then MarkButton(es[k], v) else es[k]
  {
    if i > 0 {
      ButtonsRecords(es, i - 1, v);
      ButtonsNotYet(es, i - 1, v);
      var p := ButtonsUpTo(es, i - 1, v);
      var q := ButtonsUpTo(es, i, v);
      if NewButton(es[i - 1], v) {
        var m := p[i - 1 := MarkButton(p[i - 1], v)];
        assert q == AddLabel(m, i - 1, v);
        assert q[..|m|] == m;
        forall k | 0 <= k < i
          ensures q[k] == if NewButton(es[k], v) then MarkButton(es[k], v) else es[k]
        {
          assert q[k] == m[k];
        }
      }
    }
  }

  /** `e` is the label the pass gave one of the buttons below position `i`. */
  predicate AddedLabel(es: seq<Element>, e: Element, i: nat, v: Version)
  {
    && 0 <= e.parent < i && e.parent < |es|
    && NewButton(es[e.parent], v)
    && e == LabelSpan(e.parent, e.text, v)
  }

  /** Every element the pass adds is the label of a button it processed. */
  lemma {:induction false} ButtonsAdded(es: seq<Element>, i: nat, v: Version)
    requires i <= |es|
    ensures forall k :: |es| <= k < |ButtonsUpTo(es, i, v)| ==> AddedLabel(es, ButtonsUpTo(es, i, v)[k], i, v)
  {
    if i > 0 {
      ButtonsAdded(es, i - 1, v);
      ButtonsNotYet(es, i - 1, v);
      var p := ButtonsUpTo(es, i - 1, v);
      if NewButton(es[i - 1], v) {
        var m := p[i - 1 := MarkButton(p[i - 1], v)];
        var q := AddLabel(m, i - 1, v);
        assert q == ButtonsUpTo(es, i, v);
        forall k | |es| <= k < |q| ensures AddedLabel(es, q[k], i, v) {
          if k < |m| {
            assert q[k] == p[k];
            assert AddedLabel(es, p[k], i - 1, v);
          } else {
            assert q[k] == LabelSpan(i - 1, LabelFor(es[i - 1].testId, v).value, v);
          }
        }
      }
    }
  }

  /** A page without unprocessed buttons is left as it is. */
  lemma {:induction false} ButtonsNothingNew(es: seq<Element>, i: nat, v: Version)
    requires i <= |es|
    requires forall k :: 0 <= k < |es| ==> !NewButton(es[k], v)
    ensures ButtonsUpTo(es, i, v) == es
  {
    if i > 0 {
      ButtonsNothingNew(es, i - 1, v);
    }
  }

  /** Every action button ends up with `ux-fixer-applied` and every one that
      was processed with `ux-fixer-compact` too. */
  lemma ButtonsAllMarked(es: seq<Element>, v: Version)
    ensures forall k :: 0 <= k < |es| && es[k].testId in ButtonIds(v) ==> Applied in TransformButtons(es, v)[k].classes
    ensures forall k :: 0 <= k < |es| && NewButton(es[k], v) ==> Compact in TransformButtons(es, v)[k].classes
    ensures forall k :: 0 <= k < |TransformButtons(es, v)| ==> !NewButton(TransformButtons(es, v)[k], v)
  {
    ButtonsRecords(es, |es|, v);
    ButtonsAdded(es, |es|, v);
  }

  /** The older copy sets no style on the buttons themselves. */
  lemma LegacyButtonsKeepStyles(es: seq<Element>)
    ensures forall k :: 0 <= k < |es| ==> TransformButtons(es, Legacy)[k].style == es[k].style
  {
    ButtonsRecords(es, |es|, Legacy);
  }

  /** Running `transformActionButtons` twice gives the same page as running it once. */
  lemma ButtonsIdempotent(es: seq<Element>, v: Version)
    ensures TransformButtons(TransformButtons(es, v), v) == TransformButtons(es, v)
  {
    var r := TransformButtons(es, v);
    ButtonsAllMarked(es, v);
    ButtonsNothingNew(r, |r|, v);
  }

  lemma ContainsExtended(s: string, t: string, u: string)
    requires Contains(s, t)
    ensures Contains(s + u, t)
    decreases |s|
  {
    if !(t <= s) {
      assert (s + u)[1..] == s[1..] + u;
      ContainsExtended(s[1..], t, u);
    }
  }

  /** Marking a button or appending a label elsewhere keeps button `b` labelled. */
  lemma {:induction false} LabelledKept(p: seq<Element>, q: seq<Element>, b: nat, caption: string, v: Version)
    requires b < |p| <= |q| && WellFormed(p) && WellFormed(q)
    requires forall k :: 0 <= k < |p| ==>
               q[k].parent == p[k].parent && q[k].text == p[k].text && p[k].classes <= q[k].classes
    requires |q| <= |p| + 1
    requires Labelled(p, b, caption, v)
    ensures Labelled(q, b, caption, v)
  {
    if v == Current {
      var k :| 0 <= k < |p| && IsDescendant(p, k, b) && LabelClass in p[k].classes;
      DescendantPrefix(p, q, k, b);
    } else {
      TextUpToPrefix(p, q, b, |p|);
      if |q| == |p| + 1 {
        assert q == q[..|p|] + [q[|p|]];
        TextUpToPrefix(q[..|p|], q, b, |p|);
        assert TextContent(q, b) == TextContent(p, b) + (if |p| == b || IsDescendant(q, |p|, b) then q[|p|].text else "");
        ContainsExtended(TextContent(p, b), caption, if |p| == b || IsDescendant(q, |p|, b) then q[|p|].text else "");
      } else {
        assert q == q[..|p|];
      }
    }
  }

  /** After `transformActionButtons` every button it processed carries its label. */
  lemma ButtonsLabelled(es: seq<Element>, i: nat, v: Version)
    requires i <= |es| && WellFormed(es)
    ensures forall b :: 0 <= b < i && NewButton(es[b], v) ==>
              Labelled(ButtonsUpTo(es, i, v), b, LabelFor(es[b].testId, v).value, v)
  {
    forall b | 0 <= b < i && NewButton(es[b], v)
      ensures Labelled(ButtonsUpTo(es, i, v), b, LabelFor(es[b].testId, v).value, v)
    {
      ButtonLabelled(es, i, b, v);
    }
  }

  lemma {:induction false} ButtonLabelled(es: seq<Element>, i: nat, b: nat, v: Version)
    requires b < i <= |es| && WellFormed(es) && NewButton(es[b], v)
    ensures Labelled(ButtonsUpTo(es, i, v), b, LabelFor(es[b].testId, v).value, v)
  {
    if b == i - 1 {
      LabelledVisited(es, i, v);
    } else {
      ButtonLabelled(es, i - 1, b, v);
      LabelledStep(es, i, b, LabelFor(es[b].testId, v).value, v);
    }
  }

  /** The step that visits a button labels it. */
  lemma LabelledVisited(es: seq<Element>, i: nat, v: Version)
    requires 0 < i <= |es| && NewButton(es[i - 1], v)
    ensures Labelled(ButtonsUpTo(es, i, v), i - 1, LabelFor(es[i - 1].testId, v).value, v)
  {
    ButtonsNotYet(es, i - 1, v);
    var p := ButtonsUpTo(es, i - 1, v);
    var m := p[i - 1 := MarkButton(p[i - 1], v)];
    assert ButtonsUpTo(es, i, v) == AddLabel(m, i - 1, v);
    AddLabelLabels(m, i - 1, v);
  }

  /** A step of the pass keeps every label it finds. */
  lemma LabelledStep(es: seq<Element>, i: nat, b: nat, caption: string, v: Version)
    requires 0 < i <= |es| && b < |es| && WellFormed(es)
    requires Labelled(ButtonsUpTo(es, i - 1, v), b, caption, v)
    ensures Labelled(ButtonsUpTo(es, i, v), b, caption, v)
  {
    ButtonStep(es, i, v);
    LabelledKept(ButtonsUpTo(es, i - 1, v), ButtonsUpTo(es, i, v), b, caption, v);
  }

  /** One step of the pass only marks the button it visits and may append one
      element: the facts `LabelledKept` needs. */
  lemma ButtonStep(es: seq<Element>, i: nat, v: Version)
    requires 0 < i <= |es| && WellFormed(es)
    ensures var p := ButtonsUpTo(es, i - 1, v);
            var q := ButtonsUpTo(es, i, v);
            && WellFormed(p) && WellFormed(q) && |p| <= |q| <= |p| + 1
            && forall k :: 0 <= k < |p| ==>
                 q[k].parent == p[k].parent && q[k].text == p[k].text && p[k].classes <= q[k].classes
  {
    ButtonsWellFormed(es, i - 1, v);
    ButtonsWellFormed(es, i, v);
    var p := ButtonsUpTo(es, i - 1, v);
    var q := ButtonsUpTo(es, i, v);
    if NewButton(es[i - 1], v) {
      var m := p[i - 1 := MarkButton(p[i - 1], v)];
      assert q == AddLabel(m, i - 1, v);
      assert q == m || q == m + [q[|m|]];
    }
  }

  /** Appending a label under button `i` adds no label child to any other element. */
  lemma AddLabelOthers(m: seq<Element>, i: nat, b: nat)
    requires i < |m| && b != i
    ensures var q := AddLabel(m, i, Current);
            LabelChildren(q, b, |q|) == LabelChildren(m, b, |m|)
  {
    var q := AddLabel(m, i, Current);
    if q != m {
      assert q[..|m|] == m;
      LabelChildrenPrefix(q[..|m|], q, b, |m|);
      assert q[|m|].parent == i;
    }
  }

  /** Marking a button changes no element's parent or label class. */
  lemma MarkKeepsLabelChildren(p: seq<Element>, j: nat, b: nat, v: Version)
    requires j < |p|
    ensures LabelChildren(p[j := MarkButton(p[j], v)], b, |p|) == LabelChildren(p, b, |p|)
  {
    LabelChildrenPrefix(p, p[j := MarkButton(p[j], v)], b, |p|);
  }

  /** One step of the pass leaves the label children of every other button alone. */
  lemma LabelChildrenStep(es: seq<Element>, i: nat, b: nat)
    requires 0 < i <= |es| && b < |es| && WellFormed(es)
    ensures var p := ButtonsUpTo(es, i - 1, Current);
            var q := ButtonsUpTo(es, i, Current);
            || LabelChildren(q, b, |q|) == LabelChildren(p, b, |p|)
            || (b == i - 1 && NewButton(es[b], Current) && LabelChildren(p, b, |p|) == 0 && LabelChildren(q, b, |q|) == 1)
  {
    ButtonsWellFormed(es, i - 1, Current);
    ButtonsNotYet(es, i - 1, Current);
    var p := ButtonsUpTo(es, i - 1, Current);
    var q := ButtonsUpTo(es, i, Current);
    if NewButton(es[i - 1], Current) {
      var m := p[i - 1 := MarkButton(p[i - 1], Current)];
      assert q == AddLabel(m, i - 1, Current);
      MarkKeepsLabelChildren(p, i - 1, b, Current);
      if b == i - 1 {
        AddLabelAtMostOne(m, b);
      } else {
        AddLabelOthers(m, i - 1, b);
      }
    }
  }

  /** The current copy leaves every button with at most one label child if it
      had at most one before, and adds one only to a button it processed. */
  lemma {:induction false} ButtonsAtMostOneLabel(es: seq<Element>, i: nat, b: nat)
    requires i <= |es| && b < |es| && WellFormed(es)
    ensures var r := ButtonsUpTo(es, i, Current);
            || LabelChildren(r, b, |r|) == LabelChildren(es, b, |es|)
            || (NewButton(es[b], Current) && LabelChildren(es, b, |es|) == 0 && LabelChildren(r, b, |r|) == 1)
  {
    if i > 0 {
      ButtonsAtMostOneLabel(es, i - 1, b);
      LabelChildrenStep(es, i, b);
      var p := ButtonsUpTo(es, i - 1, Current);
      var q := ButtonsUpTo(es, i, Current);
      if LabelChildren(q, b, |q|) != LabelChildren(p, b, |p|) {
        assert LabelChildren(p, b, |p|) == 0 && LabelChildren(q, b, |q|) == 1;
        assert LabelChildren(es, b, |es|) == 0;
      }
    }
  }

  /** `addButtonLabels` never looks at the button's own classes or styles, so
      setting the styles after it (as the source does) gives the same page as
      setting them before. */
  lemma AddLabelIgnoresOwnLook(p: seq<Element>, b: nat, e1: Element, e2: Element, v: Version)
    requires b < |p|
    requires e1.parent == e2.parent == p[b].parent && e1.testId == e2.testId && e1.text == e2.text
    ensures AddLabel(p[b := e2], b, v) == AddLabel(p[b := e1], b, v)[b := e2]
  {
    var x := p[b := e1];
    var y := p[b := e2];
    forall k | 0 <= k < |x| ensures IsDescendant(x, k, b) == IsDescendant(y, k, b) {
      DescendantPrefix(x, y, k, b);
    }
    assert HasLabel(x, b) == HasLabel(y, b) by {
      if HasLabel(x, b) {
        var k :| 0 <= k < |x| && IsDescendant(x, k, b) && LabelClass in x[k].classes;
        DescendantFollows(x, k, b);
      }
      if HasLabel(y, b) {
        var k :| 0 <= k < |y| && IsDescendant(y, k, b) && LabelClass in y[k].classes;
        DescendantFollows(y, k, b);
      }
    }
    TextUpToPrefix(x, y, b, |x|);
  }
}

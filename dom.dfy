/** The abstract page both content scripts and the diagnostics work on.

    A page is a sequence of element records. The position of a record is
    the element's identity and also its place in document order; `parent`
    is the position of the parent element (always smaller than the
    element's own), or -1 for the root. Position 0 is `document.body`.
    The children of an element are the records whose `parent` is its
    position, in position order. */
module Dom {

  datatype Option<T> = None | Some(value: T)

  datatype Element = Element(
    id: string,                  // the `id` attribute, "" when absent
    testId: string,              // the `data-testid` attribute, "" when absent
    tag: string,                 // `tagName` as the DOM reports it (upper case for HTML)
    classes: set<string>,        // `classList`
    style: map<string, string>,  // inline style, keyed by the camelCase property name
    text: string,                // the element's own text nodes
    parent: int)

  const Body := 0

  /** Parents come before their children and every element sits inside the body. */
  predicate WellFormed(es: seq<Element>)
  {
    && |es| >= 1
    && es[Body].parent == -1
    && forall i :: 1 <= i < |es| ==> 0 <= es[i].parent < i
  }

  /** `a.contains(es[j])` with `a != es[j]`: the chain of parents from `j` reaches `a`. */
  predicate IsDescendant(es: seq<Element>, j: int, a: int)
    decreases j
  {
    && 0 <= j < |es|
    && 0 <= es[j].parent < j
    && (es[j].parent == a || IsDescendant(es, es[j].parent, a))
  }

  lemma {:induction false} DescendantFollows(es: seq<Element>, j: int, a: int)
    requires IsDescendant(es, j, a)
    ensures 0 <= a < j
  {
    var p := es[j].parent;
    if p != a {
      DescendantFollows(es, p, a);
    }
  }

  /** Only the parent links of positions up to `j` decide whether `j` lies under `a`. */
  lemma {:induction false} DescendantPrefix(x: seq<Element>, y: seq<Element>, j: int, a: int)
    requires 0 <= j < |x| && j < |y|
    requires forall k :: 0 <= k <= j ==> x[k].parent == y[k].parent
    ensures IsDescendant(x, j, a) == IsDescendant(y, j, a)
  {
    var p := x[j].parent;
    if 0 <= p < j && p != a {
      DescendantPrefix(x, y, p, a);
    }
  }

  /** Two pages with the same elements in the same tree, differing at most in
      classes and inline styles. */
  predicate SameShape(x: seq<Element>, y: seq<Element>)
  {
    && |x| == |y|
    && forall k :: 0 <= k < |x| ==>
         && x[k].parent == y[k].parent
         && x[k].testId == y[k].testId
         && x[k].tag == y[k].tag
         && x[k].id == y[k].id
         && x[k].text == y[k].text
  }

  lemma ShapeDescendants(x: seq<Element>, y: seq<Element>)
    requires SameShape(x, y)
    ensures forall j, a :: IsDescendant(x, j, a) == IsDescendant(y, j, a)
  {
    forall j, a ensures IsDescendant(x, j, a) == IsDescendant(y, j, a) {
      if 0 <= j < |x| {
        DescendantPrefix(x, y, j, a);
      }
    }
  }

  /** `document.querySelector('[data-testid="t"]')` restricted to positions from `k` on. */
  function FirstWithTestId(es: seq<Element>, t: string, k: nat): (r: Option<nat>)
    decreases |es| - k
    ensures r.Some? ==> k <= r.value < |es| && es[r.value].testId == t
    ensures r.Some? ==> forall i :: k <= i < r.value ==> es[i].testId != t
    ensures r.None? ==> forall i :: k <= i < |es| ==> es[i].testId != t
  {
    if k >= |es| then None
    else if es[k].testId == t then Some(k)
    else FirstWithTestId(es, t, k + 1)
  }

  /** Whether some element carries class `c` (`document.querySelector('.c')`). */
  predicate HasClassSomewhere(es: seq<Element>, c: string)
  {
    exists j | 0 <= j < |es| :: c in es[j].classes
  }

  // ---------------------------------------------------------------------
  // Text

  /** `textContent` of `b`: the own text of `b` and of every element under it,
      in document order. Accumulated over the positions below `k`. */
  function TextUpTo(es: seq<Element>, b: int, k: nat): string
    requires k <= |es|
  {
    if k == 0 then ""
    else TextUpTo(es, b, k - 1) + (if k - 1 == b || IsDescendant(es, k - 1, b) then es[k - 1].text else "")
  }

  function TextContent(es: seq<Element>, b: int): string
  {
    TextUpTo(es, b, |es|)
  }

  /** Appending a child of `b` at the end of the page appends its text to the
      `textContent` of `b`. */
  lemma {:induction false} TextContentAppendChild(es: seq<Element>, b: nat, s: Element)
    requires b < |es| && s.parent == b
    ensures TextContent(es + [s], b) == TextContent(es, b) + s.text
  {
    var es' := es + [s];
    TextUpToPrefix(es, es', b, |es|);
    assert IsDescendant(es', |es|, b);
  }

  /** The text accumulated over positions below `k` only depends on those positions. */
  lemma {:induction false} TextUpToPrefix(x: seq<Element>, y: seq<Element>, b: int, k: nat)
    requires k <= |x| && k <= |y|
    requires forall i :: 0 <= i < k ==> x[i].parent == y[i].parent && x[i].text == y[i].text
    ensures TextUpTo(x, b, k) == TextUpTo(y, b, k)
  {
    if k > 0 {
      TextUpToPrefix(x, y, b, k - 1);
      DescendantPrefix(x, y, k - 1, b);
    }
  }

  /** `s.includes(t)`. */
  predicate Contains(s: string, t: string)
    decreases |s|
  {
    t <= s || (|s| > 0 && Contains(s[1..], t))
  }

  lemma {:induction false} ContainsAppended(s: string, t: string)
    ensures Contains(s + t, t)
  {
    if s == [] {
      assert s + t == t;
    } else {
      assert (s + t)[1..] == s[1..] + t;
      ContainsAppended(s[1..], t);
    }
  }

  /** Whether `t` occurs in `s` at some offset: the reference meaning of `Contains`. */
  ghost predicate OccursAt(s: string, t: string, i: int)
  {
    0 <= i && i + |t| <= |s| && s[i..i + |t|] == t
  }

  lemma {:induction false} ContainsMeansOccurs(s: string, t: string)
    ensures Contains(s, t) <==> exists i :: OccursAt(s, t, i)
  {
    if Contains(s, t) {
      var i := ContainsWitness(s, t);
    }
    forall i | OccursAt(s, t, i) ensures Contains(s, t) {
      OccursContains(s, t, i);
    }
  }

  lemma {:induction false} ContainsWitness(s: string, t: string) returns (i: int)
    requires Contains(s, t)
    ensures OccursAt(s, t, i)
  {
    if t <= s {
      i := 0;
      assert s[0..|t|] == t;
    } else {
      var k := ContainsWitness(s[1..], t);
      i := k + 1;
      assert s[i..i + |t|] == s[1..][k..k + |t|];
    }
  }

  lemma {:induction false} OccursContains(s: string, t: string, i: int)
    requires OccursAt(s, t, i)
    ensures Contains(s, t)
    decreases i
  {
    if i == 0 {
      assert s[..|t|] == t;
    } else {
      assert s[1..][i - 1..i - 1 + |t|] == s[i..i + |t|];
      OccursContains(s[1..], t, i - 1);
    }
  }

  /** `String.prototype.toLowerCase` on the ASCII letters that tag names use. */
  function Lower(s: string): (r: string)
    ensures |r| == |s|
    ensures forall i :: 0 <= i < |s| ==> r[i] == LowerChar(s[i])
  {
    if s == [] then [] else [LowerChar(s[0])] + Lower(s[1..])
  }

  function LowerChar(c: char): char
  {
    if 'A' <= c <= 'Z' then (c as int - 'A' as int + 'a' as int) as char else c
  }

  /** The decimal form JavaScript prints for an integral number. */
  function IntToString(n: int): string
  {
    if n < 0 then "-" + NatToString(-n) else NatToString(n)
  }

  function NatToString(n: nat): string
    decreases n
  {
    if n < 10 then [Digit(n)] else NatToString(n / 10) + [Digit(n % 10)]
  }

  function Digit(d: nat): char
    requires d < 10
  {
    "0123456789"[d]
  }
}

/** The abstract screen snapshot the harness queries: an element tree and the selectors it uses. */
module Ui {
  import opened Wrappers
  import opened Strings

  const EditTextClass := "android.widget.EditText"
  const ButtonClass := "android.widget.Button"

  /** One node of the UI tree as the automation layer reports it. `rect` is the bounds dictionary
      (keys "x", "y", "width", "height", any of which may be missing), `enabledAttr` the value of the
      "enabled" attribute, `enabled` what `is_enabled()` answers. */
  datatype Element = Element(
    id: nat,
    text: string,
    desc: string,
    className: string,
    clickable: bool,
    rect: map<string, int>,
    enabledAttr: Option<string>,
    enabled: bool,
    children: seq<Element>)

  /** The queries the pages issue, one constructor per locator form they build. */
  datatype Selector =
    | TextContains(text: string)            // UiSelector().textContains("…")
    | TextExact(text: string)               // UiSelector().text("…")
    | DescContains(desc: string)            // UiSelector().descriptionContains("…")
    | ClassInstance(name: string, index: nat)  // UiSelector().className("…").instance(n)
    | Clickable                             // UiSelector().clickable(true)
    | IosValueContains(value: string)       // iOS predicate: value CONTAINS "…"
    | ClassName(name: string)               // the CLASS_NAME strategy
    | AccessibilityId(desc: string)         // the ACCESSIBILITY_ID strategy

  /** Whether one element satisfies a selector; `ClassInstance` matches on the class here and picks
      its instance in `Select`. On iOS the element's value is its `text`. */
  predicate Matches(sel: Selector, e: Element) {
    match sel
    case TextContains(t) => Contains(e.text, t)
    case TextExact(t) => e.text == t
    case DescContains(s) => Contains(e.desc, s)
    case ClassInstance(n, _) => e.className == n
    case Clickable => e.clickable
    case IosValueContains(s) => Contains(e.text, s)
    case ClassName(n) => e.className == n
    case AccessibilityId(s) => e.desc == s
  }

  /** All nodes of a forest in document order: each node before its descendants. */
  function Flatten(forest: seq<Element>): seq<Element>
    decreases forest
  {
    if forest == [] then []
    else [forest[0]] + Flatten(forest[0].children) + Flatten(forest[1..])
  }

  /** The elements of `es` that satisfy `sel`, in order. */
  function Filter(es: seq<Element>, sel: Selector): seq<Element> {
    if es == [] then []
    else (if Matches(sel, es[0]) then [es[0]] else []) + Filter(es[1..], sel)
  }

  /** Filtering keeps exactly the matching elements. */
  lemma {:induction false} FilterMembership(es: seq<Element>, sel: Selector, e: Element)
    ensures e in Filter(es, sel) <==> e in es && Matches(sel, e)
    decreases |es|
  {
    if es != [] {
      FilterMembership(es[1..], sel, e);
      assert e in es <==> e == es[0] || e in es[1..];
    }
  }

  /** What a query for `sel` over the tree `screen` returns, in document order. */
  function Select(screen: seq<Element>, sel: Selector): seq<Element> {
    var hits := Filter(Flatten(screen), sel);
    match sel
    case ClassInstance(_, k) => if k < |hits| then [hits[k]] else []
    case _ => hits
  }

  /** A query returns only nodes of the tree that satisfy it, and every such node unless it asks for
      one instance. */
  lemma SelectIsFilter(screen: seq<Element>, sel: Selector, e: Element)
    ensures e in Select(screen, sel) ==> e in Flatten(screen) && Matches(sel, e)
    ensures !sel.ClassInstance? ==> (e in Select(screen, sel) <==> e in Flatten(screen) && Matches(sel, e))
  {
    FilterMembership(Flatten(screen), sel, e);
  }
}

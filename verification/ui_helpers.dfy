/** Element-level helpers the tests call directly: clearing input fields, reading the enabled
    state, and finding the clickable container of a text label by hit-testing. */
module UiHelpers {
  import opened Wrappers
  import opened Strings
  import opened Ui
  import opened Driver

  // ---------------------------------------------------------------- clear_inputs

  /** Requests `clear_inputs` issues for one field: its clear, and its blanking when the clear went
      through. */
  function ClearOneRequests(d: Device, e: Element): seq<Request> {
    if d.Raises(ClearField(e.id)) then [ClearField(e.id)] else [ClearField(e.id), AssignValue(e.id, "")]
  }

  /** Field contents after `clear_inputs` handles the field `e`, starting from `v`. */
  function ClearOneValues(d: Device, v: map<nat, string>, e: Element): map<nat, string> {
    if d.Raises(ClearField(e.id)) then v else v[e.id := ""]
  }

  /** Requests `clear_inputs` issues for the fields `els`, one field after another. */
  function ClearRequests(d: Device, els: seq<Element>): seq<Request>
    decreases |els|
  {
    if els == [] then [] else ClearRequests(d, els[..|els| - 1]) + ClearOneRequests(d, els[|els| - 1])
  }

  /** Field contents after `clear_inputs` over `els`, starting from `v`. */
  function Cleared(d: Device, v: map<nat, string>, els: seq<Element>): map<nat, string>
    decreases |els|
  {
    if els == [] then v else ClearOneValues(d, Cleared(d, v, els[..|els| - 1]), els[|els| - 1])
  }

  /** The inner `try` of `clear_inputs` for one field: a rejected clear skips the field, and a
      rejected `set_value("")` leaves it as the clear left it. */
  method ClearOne(d: Device, e: Element)
    modifies d
    ensures d.clock == old(d.clock)
    ensures d.log == old(d.log) + ClearOneRequests(d, e) && d.values == ClearOneValues(d, old(d.values), e)
  {
    var cleared := d.Clear(e);
    if cleared {
      var _ := d.SetValue(e, "");
    }
  }

  /** `clear_inputs(driver, class_name)`: every field of the class is cleared and then set to "";
      a failing field is skipped, and a failing query does nothing. */
  method ClearInputs(d: Device, className: string)
    modifies d
    ensures d.clock == old(d.clock)
    ensures var found := d.ElementsAt(ClassName(className), old(d.clock));
      if found.Err? then d.log == old(d.log) && d.values == old(d.values)
      else d.log == old(d.log) + ClearRequests(d, found.value) && d.values == Cleared(d, old(d.values), found.value)
  {
    var found := d.ElementsAt(ClassName(className), d.clock);
    if found.Err? {
      return;
    }
    var els := found.value;
    for i := 0 to |els|
      invariant d.clock == old(d.clock)
      invariant d.log == old(d.log) + ClearRequests(d, els[..i])
      invariant d.values == Cleared(d, old(d.values), els[..i])
    {
      assert els[..i + 1][..i] == els[..i];
      ClearOne(d, els[i]);
      Regroup(old(d.log), ClearRequests(d, els[..i]), ClearOneRequests(d, els[i]));
    }
    assert els[..|els|] == els;
  }

  /** A field whose clear goes through ends up empty, whatever the other fields do. */
  lemma {:induction false} ClearedEmpties(d: Device, v: map<nat, string>, els: seq<Element>, k: nat)
    requires k < |els| && !d.Raises(ClearField(els[k].id))
    ensures els[k].id in Cleared(d, v, els) && Cleared(d, v, els)[els[k].id] == ""
    decreases |els|
  {
    if k < |els| - 1 {
      ClearedEmpties(d, v, els[..|els| - 1], k);
    }
  }

  /** A field that is not among `els`, or whose clear is rejected, keeps its contents. */
  lemma {:induction false} ClearedKeeps(d: Device, v: map<nat, string>, els: seq<Element>, id: nat)
    requires forall k :: 0 <= k < |els| ==> els[k].id != id || d.Raises(ClearField(id))
    ensures id in Cleared(d, v, els) <==> id in v
    ensures id in v ==> Cleared(d, v, els)[id] == v[id]
    decreases |els|
  {
    if els != [] {
      ClearedKeeps(d, v, els[..|els| - 1], id);
    }
  }

  /** Every field is asked to clear, whether or not an earlier field failed. */
  lemma {:induction false} EveryFieldCleared(d: Device, els: seq<Element>, k: nat)
    requires k < |els|
    ensures ClearField(els[k].id) in ClearRequests(d, els)
    decreases |els|
  {
    if k < |els| - 1 {
      EveryFieldCleared(d, els[..|els| - 1], k);
    }
  }

  // ---------------------------------------------------------------- attr_enabled

  const EnabledSpellings := ["true", "True", "1"]

  /** `attr_enabled(el)`. */
  function AttrEnabled(d: Device, e: Element): bool {
    match d.AttributeOf(e, "enabled")
    case Ok(Some(a)) => a in EnabledSpellings
    case _ =>
      match d.EnabledOf(e)
      case Ok(b) => b
      case Err(_) => false
  }

  /** A readable, non-None "enabled" attribute decides alone: true exactly for "true", "True" and "1".
      Otherwise `is_enabled()` decides, and an element whose `is_enabled()` raises counts as disabled. */
  lemma AttrEnabledCases(d: Device, e: Element)
    ensures d.AttributeOf(e, "enabled").Ok? && d.AttributeOf(e, "enabled").value.Some? ==>
      (AttrEnabled(d, e) <==> d.AttributeOf(e, "enabled").value.value in {"true", "True", "1"})
    ensures d.AttributeOf(e, "enabled").Err? || d.AttributeOf(e, "enabled").value.None? ==>
      (AttrEnabled(d, e) <==> d.EnabledOf(e) == Ok(true))
  {
  }

  // ---------------------------------------------------------------- find_clickable_container_for_text

  /** `rect.get(key, 0)`. */
  function Get(rect: map<string, int>, key: string): int {
    if key in rect then rect[key] else 0
  }

  /** The centre of a rectangle with both coordinates doubled, so that `x + width / 2` stays exact. */
  function DoubledCentre(rect: map<string, int>): (int, int) {
    (2 * Get(rect, "x") + Get(rect, "width"), 2 * Get(rect, "y") + Get(rect, "height"))
  }

  /** `x <= cx <= x + w and y <= cy <= y + h` for a doubled point: bounds included. */
  predicate Encloses(rect: map<string, int>, p: (int, int)) {
    var x, y := Get(rect, "x"), Get(rect, "y");
    2 * x <= p.0 <= 2 * (x + Get(rect, "width")) && 2 * y <= p.1 <= 2 * (y + Get(rect, "height"))
  }

  /** The element's bounds can be read and enclose the doubled point. */
  predicate HoldsPoint(d: Device, e: Element, p: (int, int)) {
    d.RectOf(e).Ok? && Encloses(d.RectOf(e).value, p)
  }

  /** The element has a descendant whose text is exactly `text`. */
  predicate HasLabel(d: Device, e: Element, text: string) {
    d.ElementsWithin(e, TextExact(text)).Ok? && d.ElementsWithin(e, TextExact(text)).value != []
  }

  /** Index of the first clickable holding the point, or |cs|. */
  function FirstHolding(d: Device, cs: seq<Element>, p: (int, int)): (i: nat)
    ensures i <= |cs| && (i < |cs| ==> HoldsPoint(d, cs[i], p))
    ensures forall j :: 0 <= j < i ==> !HoldsPoint(d, cs[j], p)
  {
    if cs == [] || HoldsPoint(d, cs[0], p) then 0 else 1 + FirstHolding(d, cs[1..], p)
  }

  /** Index of the first clickable with the label below it, or |cs|. */
  function FirstLabelled(d: Device, cs: seq<Element>, text: string): (i: nat)
    ensures i <= |cs| && (i < |cs| ==> HasLabel(d, cs[i], text))
    ensures forall j :: 0 <= j < i ==> !HasLabel(d, cs[j], text)
  {
    if cs == [] || HasLabel(d, cs[0], text) then 0 else 1 + FirstLabelled(d, cs[1..], text)
  }

  /** The clickables on screen at tick `t`; none when the query raises. */
  function ClickablesAt(d: Device, t: int): seq<Element> {
    match d.ElementsAt(Clickable, t)
    case Ok(cs) => cs
    case Err(_) => []
  }

  /** The doubled centre of the label, when its bounds can be read. */
  function CentreOf(d: Device, caption: Element): Option<(int, int)> {
    match d.RectOf(caption)
    case Ok(r) => Some(DoubledCentre(r))
    case Err(_) => None
  }

  /** The first loop of `find_clickable_container_for_text`: the index of the first clickable whose
      readable bounds contain the point, or |cs|. */
  method HoldingIndex(d: Device, cs: seq<Element>, p: (int, int)) returns (i: nat)
    ensures i == FirstHolding(d, cs, p)
  {
    i := 0;
    while i < |cs|
      invariant 0 <= i <= |cs|
      invariant forall j :: 0 <= j < i ==> !HoldsPoint(d, cs[j], p)
    {
      var rect := d.RectOf(cs[i]);
      if rect.Ok? && Encloses(rect.value, p) {
        return;
      }
      i := i + 1;
    }
  }

  /** The second loop: the index of the first clickable with a descendant reading exactly `text`,
      or |cs|. */
  method LabelledIndex(d: Device, cs: seq<Element>, text: string) returns (i: nat)
    ensures i == FirstLabelled(d, cs, text)
  {
    i := 0;
    while i < |cs|
      invariant 0 <= i <= |cs|
      invariant forall j :: 0 <= j < i ==> !HasLabel(d, cs[j], text)
    {
      var below := d.ElementsWithin(cs[i], TextExact(text));
      if below.Ok? && below.value != [] {
        return;
      }
      i := i + 1;
    }
  }

  /** `find_clickable_container_for_text(driver, text)`: None when no element has exactly `text`;
      otherwise the first clickable (in query order) whose bounds contain the label's centre, else
      the first clickable with the label as a descendant, else None. Clickables whose bounds or
      descendants cannot be read are passed over. */
  method FindClickableContainerForText(d: Device, text: string) returns (r: Option<Element>)
    ensures d.ElementAt(TextExact(text), d.clock).Err? ==> r == None
    ensures d.ElementAt(TextExact(text), d.clock).Ok? ==>
      var cs := ClickablesAt(d, d.clock);
      var centre := CentreOf(d, d.ElementAt(TextExact(text), d.clock).value);
      var i := if centre.Some? then FirstHolding(d, cs, centre.value) else |cs|;
      var j := FirstLabelled(d, cs, text);
      r == if i < |cs| then Some(cs[i]) else if j < |cs| then Some(cs[j]) else None
  {
    var found0 := d.ElementAt(TextExact(text), d.clock);
    if found0.Err? {
      return None;
    }
    var centre: Option<(int, int)> := None;
    var bounds := d.RectOf(found0.value);
    if bounds.Ok? {
      centre := Some(DoubledCentre(bounds.value));
    }
    var cs: seq<Element> := [];
    var found := d.ElementsAt(Clickable, d.clock);
    if found.Ok? {
      cs := found.value;
    }
    if centre.Some? {
      var i := HoldingIndex(d, cs, centre.value);
      if i < |cs| {
        return Some(cs[i]);
      }
    }
    var j := LabelledIndex(d, cs, text);
    if j < |cs| {
      return Some(cs[j]);
    }
    return None;
  }

  /** The layout of a label inside a button: a label at (10, 10, 100, 20) has its centre (60, 20)
      inside a clickable at (0, 0, 200, 50) and not inside one at (300, 300, 10, 10), so the first
      is chosen. */
  lemma ButtonAroundLabel(d: Device, caption: Element, button: Element, other: Element)
    requires d.RectOf(caption) == Ok(map["x" := 10, "y" := 10, "width" := 100, "height" := 20])
    requires d.RectOf(button) == Ok(map["x" := 0, "y" := 0, "width" := 200, "height" := 50])
    requires d.RectOf(other) == Ok(map["x" := 300, "y" := 300, "width" := 10, "height" := 10])
    ensures CentreOf(d, caption) == Some((120, 40))
    ensures FirstHolding(d, [button, other], (120, 40)) == 0
    ensures FirstHolding(d, [other, button], (120, 40)) == 1
  {
    assert HoldsPoint(d, button, (120, 40));
    assert !HoldsPoint(d, other, (120, 40));
    assert [other, button][1..] == [button];
  }
}

/** The chat screen: opening it, entering and sending a message, waiting for a message, and the
    suggestion and report affordances. */
module Chat {
  import opened Wrappers
  import opened Ui
  import opened Driver
  import opened Base

  /** The chat icon on the home screen: the third button. */
  const HomeChatButton := ClassInstance(ButtonClass, 2)
  const TypeSomething := TextContains("Type Something")
  const IosTypeSomething := IosValueContains("Type Something")
  const InputFields := ClassName(EditTextClass)
  const SendButton := DescContains("send")
  /** Android's key code for Enter. */
  const EnterKey := 66
  const SuggestionButtons := [DescContains("+"), AccessibilityId("+")]
  const SuggestionText := TextContains("Suggestion")
  const ReportButtons := [DescContains("report"), DescContains("!")]
  const ReportTitle := TextContains("Report")
  const ReasonText := TextContains("Reason")

  // ---------------------------------------------------------------- open_from_home

  function OpenFromHomeEffect(d: Device, t: int, v: map<nat, string>): Effect<Option<Element>> {
    match d.ElementAt(HomeChatButton, t)
    case Err(_) => Effect(None, [], 0, v)
    case Ok(el) => Effect(Some(el), [Tap(el.id)] + (if d.Raises(Tap(el.id)) then [Gesture(el.id)] else []), 0, v)
  }

  /** The third button on screen is returned whether or not tapping it works; the gesture is sent
      exactly when the plain tap fails, and its own failure changes nothing. */
  lemma OpenFromHomeOutcome(d: Device, t: int, v: map<nat, string>)
    ensures var buttons := Filter(Flatten(d.timeline(t)), ClassName(ButtonClass));
      var e := OpenFromHomeEffect(d, t, v);
      (e.result.Some? <==> !d.Raises(Query(HomeChatButton)) && |buttons| > 2)
      && (e.result.Some? ==>
            e.result.value == buttons[2] && e.requests[0] == Tap(buttons[2].id)
            && (Gesture(buttons[2].id) in e.requests <==> d.Raises(Tap(buttons[2].id))))
  {
    var buttons := Filter(Flatten(d.timeline(t)), ClassName(ButtonClass));
    assert Filter(Flatten(d.timeline(t)), HomeChatButton) == buttons by {
      FilterSameMatches(Flatten(d.timeline(t)), HomeChatButton, ClassName(ButtonClass));
    }
  }

  lemma {:induction false} FilterSameMatches(es: seq<Element>, a: Selector, b: Selector)
    requires forall e :: Matches(a, e) == Matches(b, e)
    ensures Filter(es, a) == Filter(es, b)
    decreases |es|
  {
    if es != [] {
      FilterSameMatches(es[1..], a, b);
    }
  }

  // ---------------------------------------------------------------- find_input

  /** What `find_input()` returns at tick `t`. */
  function InputAt(d: Device, t: int): Option<Element> {
    match d.ElementAt(TypeSomething, t)
    case Ok(e) => Some(e)
    case Err(_) =>
      match d.ElementAt(IosTypeSomething, t)
      case Ok(e) => Some(e)
      case Err(_) =>
        match d.ElementsAt(InputFields, t)
        case Ok(els) => if els == [] then None else Some(els[0])
        case Err(_) => None
  }

  /** The three lookups are tried in order and the first that finds something wins; None means all
      three came back empty or raised. */
  lemma InputTiers(d: Device, t: int)
    ensures d.ElementAt(TypeSomething, t).Ok? ==> InputAt(d, t) == Some(d.ElementAt(TypeSomething, t).value)
    ensures d.ElementAt(TypeSomething, t).Err? && d.ElementAt(IosTypeSomething, t).Ok? ==>
      InputAt(d, t) == Some(d.ElementAt(IosTypeSomething, t).value)
    ensures InputAt(d, t).None? <==>
      !d.Shows(TypeSomething, t) && !d.Shows(IosTypeSomething, t) && !d.Shows(InputFields, t)
  {
  }

  // ---------------------------------------------------------------- send_message

  /** Tapping, clearing and typing into the input, with `set_value` when typing fails: true when
      the text went in one way or the other. Tap and clear failures are ignored. */
  function EntryEffect(d: Device, inp: Element, text: string, v: map<nat, string>): Effect<bool> {
    var cleared := if d.Raises(ClearField(inp.id)) then v else v[inp.id := ""];
    var tried := [Tap(inp.id), ClearField(inp.id), TypeKeys(inp.id, text)];
    if !d.Raises(TypeKeys(inp.id, text)) then
      Effect(true, tried, 0, cleared[inp.id := FieldValue(cleared, inp) + text])
    else if !d.Raises(AssignValue(inp.id, text)) then
      Effect(true, tried + [AssignValue(inp.id, text)], 0, cleared[inp.id := text])
    else
      Effect(false, tried + [AssignValue(inp.id, text)], 0, cleared)
  }

  /** Pressing Enter, or when that fails tapping a send button: true when either went through. */
  function SubmitTextEffect(d: Device, t: int, v: map<nat, string>): Effect<bool> {
    if !d.Raises(KeyEvent(EnterKey)) then Effect(true, [KeyEvent(EnterKey)], 0, v)
    else
      var send := TapFirstEffect(d, SendButton, t, v);
      Effect(send.result.Some?, [KeyEvent(EnterKey)] + send.requests, 0, v)
  }

  function SendMessageEffect(d: Device, text: string, t: int, v: map<nat, string>): Effect<bool> {
    match InputAt(d, t)
    case None => Effect(false, [], 0, v)
    case Some(inp) =>
      var entry := EntryEffect(d, inp, text, v);
      if !entry.result then entry else After(entry.requests, 0, SubmitTextEffect(d, t, entry.values))
  }

  /** `send_message` reports true exactly when there is an input, the text went in, and Enter or the
      send button went through; with no input it does nothing at all. */
  lemma SendMessageOutcome(d: Device, text: string, t: int, v: map<nat, string>)
    ensures InputAt(d, t).None? ==> SendMessageEffect(d, text, t, v) == Effect(false, [], 0, v)
    ensures InputAt(d, t).Some? ==>
      var id := InputAt(d, t).value.id;
      (SendMessageEffect(d, text, t, v).result <==>
        (!d.Raises(TypeKeys(id, text)) || !d.Raises(AssignValue(id, text)))
        && (!d.Raises(KeyEvent(EnterKey)) || TapFirstEffect(d, SendButton, t, v).result.Some?))
  {
  }

  /** A clear that goes through makes the field hold exactly the message; a rejected clear leaves
      the old contents in front of it when typing works. */
  lemma SendMessageFieldContents(d: Device, text: string, t: int, v: map<nat, string>)
    requires InputAt(d, t).Some?
    ensures var inp := InputAt(d, t).value;
      var e := SendMessageEffect(d, text, t, v);
      (!d.Raises(TypeKeys(inp.id, text)) || !d.Raises(AssignValue(inp.id, text))) ==>
        inp.id in e.values &&
        e.values[inp.id] == if d.Raises(ClearField(inp.id)) && !d.Raises(TypeKeys(inp.id, text)) then FieldValue(v, inp) + text else text
  {
  }

  /** Enter comes first: when it goes through, nothing follows it and the send button is never
      touched. */
  lemma SendButtonOnlyAfterEnter(d: Device, text: string, t: int, v: map<nat, string>)
    requires InputAt(d, t).Some? && !d.Raises(KeyEvent(EnterKey))
    ensures var e := SendMessageEffect(d, text, t, v);
      var entry := EntryEffect(d, InputAt(d, t).value, text, v);
      e.result ==> e.requests == entry.requests + [KeyEvent(EnterKey)]
  {
  }

  // ---------------------------------------------------------------- the page

  class ChatPage {
    const base: BasePage

    constructor (base: BasePage)
      ensures this.base == base
    {
      this.base := base;
    }

    /** `open_from_home()`. */
    method OpenFromHome() returns (r: Option<Element>)
      modifies base.driver
      ensures base.driver.Performed(OpenFromHomeEffect(base.driver, old(base.driver.clock), old(base.driver.values)), r)
    {
      var d := base.driver;
      var found := d.ElementAt(HomeChatButton, d.clock);
      if found.Err? {
        return None;
      }
      var el := found.value;
      var ok := d.Click(el);
      if !ok {
        var _ := d.ClickGesture(el);
      }
      return Some(el);
    }

    /** `find_input()`. */
    method FindInput() returns (r: Option<Element>)
      ensures r == InputAt(base.driver, base.driver.clock)
    {
      var d := base.driver;
      var first := d.ElementAt(TypeSomething, d.clock);
      if first.Ok? {
        return Some(first.value);
      }
      var second := d.ElementAt(IosTypeSomething, d.clock);
      if second.Ok? {
        return Some(second.value);
      }
      var fields := d.ElementsAt(InputFields, d.clock);
      if fields.Ok? && fields.value != [] {
        return Some(fields.value[0]);
      }
      return None;
    }

    /** `send_message(text)`. */
    method SendMessage(text: string) returns (sent: bool)
      modifies base.driver
      ensures base.driver.Performed(SendMessageEffect(base.driver, text, old(base.driver.clock), old(base.driver.values)), sent)
    {
      var d := base.driver;
      ghost var t, v := d.clock, d.values;
      var inp := FindInput();
      if inp.None? {
        return false;
      }
      var entered := Enter(d, inp.value, text);
      if !entered {
        return false;
      }
      ghost var entry := EntryEffect(d, inp.value, text, v);
      sent := SubmitText(d);
      AfterAfter(old(d.log), 0, entry.requests, 0, SubmitTextEffect(d, t, entry.values));
    }

    /** `is_message_present(text_fragment, timeout)`: polls until the fragment shows or `timeout`
        seconds have passed. */
    method IsMessagePresent(fragment: string, timeout: int) returns (found: bool)
      modifies base.driver
      ensures base.driver.Performed(PollEffect(base.driver, [TextContains(fragment)],
        old(base.driver.clock), old(base.driver.clock) + Ticks(timeout), old(base.driver.values)), found)
    {
      var d := base.driver;
      ghost var sels := [TextContains(fragment)];
      var end := d.clock + Ticks(timeout);
      while d.clock < end
        invariant d.log == old(d.log) && d.values == old(d.values)
        invariant old(d.clock) <= d.clock && (d.clock <= end || d.clock == old(d.clock))
        invariant FirstShowing(d, sels, old(d.clock), end) == FirstShowing(d, sels, d.clock, end)
        decreases end - d.clock
      {
        var probe := d.ElementsAt(TextContains(fragment), d.clock);
        assert ShowsAny(d, sels, d.clock) <==> d.Shows(sels[0], d.clock);
        if probe.Ok? && probe.value != [] {
          PollFoundAt(d, sels, old(d.clock), d.clock, end, old(d.values));
          return true;
        }
        FirstShowingStep(d, sels, d.clock, end);
        d.Sleep(1);
      }
      PollMissedAll(d, sels, old(d.clock), d.clock, end, old(d.values));
      return false;
    }

    /** `open_suggestions()`. */
    method OpenSuggestions() returns (clicked: bool)
      modifies base.driver
      ensures base.driver.Performed(TapAnyEffect(base.driver, SuggestionButtons, old(base.driver.clock), old(base.driver.values)), clicked)
    {
      var d := base.driver;
      ghost var t, v := d.clock, d.values;
      ghost var first := TapFirstEffect(d, SuggestionButtons[0], t, v);
      assert SuggestionButtons[1..] == [SuggestionButtons[1]];
      var hit := ProbeAndTap(d, DescContains("+"));
      if hit.Some? {
        return true;
      }
      hit := FindAndTap(d, AccessibilityId("+"));
      clicked := hit.Some?;
    }

    /** `is_suggestion_shown()`. */
    method IsSuggestionShown() returns (shown: bool)
      ensures shown <==> base.driver.Shows(SuggestionText, base.driver.clock)
    {
      var found := base.driver.ElementsAt(SuggestionText, base.driver.clock);
      shown := found.Ok? && found.value != [];
    }

    /** `open_report()`. */
    method OpenReport() returns (clicked: bool)
      modifies base.driver
      ensures base.driver.Performed(TapAnyEffect(base.driver, ReportButtons, old(base.driver.clock), old(base.driver.values)), clicked)
    {
      var d := base.driver;
      assert ReportButtons[1..] == [ReportButtons[1]];
      var hit := FindAndTap(d, DescContains("report"));
      if hit.Some? {
        return true;
      }
      hit := FindAndTap(d, DescContains("!"));
      clicked := hit.Some?;
    }

    /** `is_report_dialog_shown()`: the "Reason" probe runs only when the "Report" probe came back
        empty, and a probe that raises makes the answer false. */
    method IsReportDialogShown() returns (shown: bool)
      ensures var d := base.driver;
        shown <==> d.Shows(ReportTitle, d.clock) || (d.ElementsAt(ReportTitle, d.clock) == Ok([]) && d.Shows(ReasonText, d.clock))
    {
      var d := base.driver;
      var title := d.ElementsAt(ReportTitle, d.clock);
      if title.Err? {
        return false;
      }
      if title.value != [] {
        return true;
      }
      var reason := d.ElementsAt(ReasonText, d.clock);
      shown := reason.Ok? && reason.value != [];
    }
  }

  /** Tap, clear and type into the input, falling back to `set_value`. */
  method Enter(d: Device, inp: Element, text: string) returns (ok: bool)
    modifies d
    ensures d.Performed(EntryEffect(d, inp, text, old(d.values)), ok)
  {
    var _ := d.Click(inp);
    var _ := d.Clear(inp);
    var typed := d.SendKeys(inp, text);
    if typed {
      return true;
    }
    var replaced := d.SetValue(inp, text);
    return replaced;
  }

  /** Press Enter, falling back to a send button. */
  method SubmitText(d: Device) returns (ok: bool)
    modifies d
    ensures d.Performed(SubmitTextEffect(d, old(d.clock), old(d.values)), ok)
  {
    var pressed := d.PressKeycode(EnterKey);
    if pressed {
      return true;
    }
    var send := FindAndTap(d, SendButton);
    return send.Some?;
  }
}

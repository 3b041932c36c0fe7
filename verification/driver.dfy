/** The device session the pages drive, as a state object. The screen the device shows at each tick
    is fixed in advance (`timeline`), and so is which requests raise (`faults`); what changes is the
    clock, the contents typed into fields, and the log of requests that wait or act. One tick is the
    harness's 0.5-second polling step. */
module Driver {
  import opened Wrappers
  import opened Ui

  /** One call the harness makes on the session or on an element handle. */
  datatype Request =
    | Query(sel: Selector)                    // driver.find_element(s): non-blocking
    | QueryWithin(id: nat, sel: Selector)     // element.find_elements: the element's descendants
    | ReadRect(id: nat)                       // element.rect
    | ReadAttribute(id: nat, name: string)    // element.get_attribute(name)
    | ReadEnabled(id: nat)                    // element.is_enabled()
    | ReadText(id: nat)                       // element.text
    | Await(sel: Selector, ticks: nat)        // WebDriverWait(...).until(presence of sel)
    | Tap(id: nat)                            // element.click()
    | ClearField(id: nat)                     // element.clear()
    | TypeKeys(id: nat, keys: string)         // element.send_keys(keys)
    | AssignValue(id: nat, value: string)     // element.set_value(value)
    | KeyEvent(code: int)                     // driver.press_keycode(code)
    | Gesture(id: nat)                        // execute_script("mobile: clickGesture", elementId)

  /** Why a call did not produce its value: the exceptions the harness sees. */
  datatype Error =
    | Raised(request: Request)     // the device rejected the request
    | NoSuchElement(sel: Selector) // find_element found nothing
    | TimedOut(sel: Selector)      // a blocking wait ended without the element
    | NoSelectors                  // find_one_of was given no selector

  /** Seconds to ticks. */
  function Ticks(seconds: int): int {
    2 * seconds
  }

  /** What a field holds under contents `v`: the last value typed or assigned, else the snapshot's text. */
  function FieldValue(v: map<nat, string>, e: Element): string {
    if e.id in v then v[e.id] else e.text
  }

  /** What a run of calls does to the session: the value it returns, the requests it logs, the ticks
      it takes and the field contents it leaves. */
  datatype Effect<T> = Effect(result: T, requests: seq<Request>, ticks: nat, values: map<nat, string>)

  /** `e` preceded by calls that logged `requests` and took `ticks`. */
  function After<T>(requests: seq<Request>, ticks: nat, e: Effect<T>): Effect<T> {
    Effect(e.result, requests + e.requests, ticks + e.ticks, e.values)
  }

  lemma Regroup(x: seq<Request>, y: seq<Request>, z: seq<Request>)
    ensures x + (y + z) == (x + y) + z
  {
  }

  lemma AfterAfter<T>(a: seq<Request>, x: nat, b: seq<Request>, y: nat, e: Effect<T>)
    ensures After(a, x, After(b, y, e)) == After(a + b, x + y, e)
  {
    assert a + (b + e.requests) == (a + b) + e.requests;
  }

  class Device {
    const timeline: int -> seq<Element>
    const faults: set<Request>
    var clock: int
    var values: map<nat, string>
    var log: seq<Request>

    constructor (timeline: int -> seq<Element>, faults: set<Request>, start: int)
      ensures this.timeline == timeline && this.faults == faults
      ensures clock == start && values == map[] && log == []
    {
      this.timeline := timeline;
      this.faults := faults;
      clock := start;
      values := map[];
      log := [];
    }

    predicate Raises(r: Request) {
      r in faults
    }

    /** `find_elements(sel)` at tick `t`. */
    function ElementsAt(sel: Selector, t: int): Result<seq<Element>, Error> {
      if Raises(Query(sel)) then Err(Raised(Query(sel))) else Ok(Select(timeline(t), sel))
    }

    /** `find_element(sel)` at tick `t`: the first match, or NoSuchElement. */
    function ElementAt(sel: Selector, t: int): Result<Element, Error> {
      match ElementsAt(sel, t)
      case Err(e) => Err(e)
      case Ok(els) => if els == [] then Err(NoSuchElement(sel)) else Ok(els[0])
    }

    /** A probe for `sel` at tick `t` returns at least one element. */
    predicate Shows(sel: Selector, t: int) {
      ElementsAt(sel, t).Ok? && ElementsAt(sel, t).value != []
    }

    /** `element.find_elements(sel)`: matches among the element's descendants. */
    function ElementsWithin(e: Element, sel: Selector): Result<seq<Element>, Error> {
      if Raises(QueryWithin(e.id, sel)) then Err(Raised(QueryWithin(e.id, sel))) else Ok(Select(e.children, sel))
    }

    function RectOf(e: Element): Result<map<string, int>, Error> {
      if Raises(ReadRect(e.id)) then Err(Raised(ReadRect(e.id))) else Ok(e.rect)
    }

    /** `get_attribute(name)`; the snapshot carries the "enabled" attribute only. */
    function AttributeOf(e: Element, name: string): Result<Option<string>, Error> {
      if Raises(ReadAttribute(e.id, name)) then Err(Raised(ReadAttribute(e.id, name)))
      else Ok(if name == "enabled" then e.enabledAttr else None)
    }

    function EnabledOf(e: Element): Result<bool, Error> {
      if Raises(ReadEnabled(e.id)) then Err(Raised(ReadEnabled(e.id))) else Ok(e.enabled)
    }

    function TextOf(e: Element): Result<string, Error> {
      if Raises(ReadText(e.id)) then Err(Raised(ReadText(e.id))) else Ok(e.text)
    }

    /** A blocking wait started at tick `t`: the first match present then, or a failure. */
    function AwaitAt(sel: Selector, ticks: nat, t: int): Result<Element, Error> {
      if Raises(Await(sel, ticks)) then Err(Raised(Await(sel, ticks)))
      else
        var found := Select(timeline(t), sel);
        if found == [] then Err(TimedOut(sel)) else Ok(found[0])
    }

    /** Ticks a wait uses up: none when it succeeds at once, its whole budget otherwise. */
    function AwaitCost(sel: Selector, ticks: nat, t: int): nat {
      if AwaitAt(sel, ticks, t).Ok? then 0 else ticks
    }

    /** What the field holds now. */
    function ValueOf(e: Element): string
      reads this
    {
      FieldValue(values, e)
    }

    /** Between the pre-state and now, the session did what `e` describes and the call returned `r`. */
    twostate predicate Performed<T>(new e: Effect<T>, new r: T)
      reads this
    {
      r == e.result && log == old(log) + e.requests && clock == old(clock) + e.ticks && values == e.values
    }

    method WaitPresent(sel: Selector, ticks: nat) returns (r: Result<Element, Error>)
      modifies this`clock, this`log
      ensures r == AwaitAt(sel, ticks, old(clock))
      ensures clock == old(clock) + AwaitCost(sel, ticks, old(clock))
      ensures log == old(log) + [Await(sel, ticks)]
    {
      r := AwaitAt(sel, ticks, clock);
      clock := clock + AwaitCost(sel, ticks, clock);
      log := log + [Await(sel, ticks)];
    }

    method Click(e: Element) returns (ok: bool)
      modifies this`log
      ensures ok == !Raises(Tap(e.id))
      ensures log == old(log) + [Tap(e.id)]
    {
      ok := !Raises(Tap(e.id));
      log := log + [Tap(e.id)];
    }

    method Clear(e: Element) returns (ok: bool)
      modifies this`log, this`values
      ensures ok == !Raises(ClearField(e.id))
      ensures values == if ok then old(values)[e.id := ""] else old(values)
      ensures log == old(log) + [ClearField(e.id)]
    {
      ok := !Raises(ClearField(e.id));
      if ok {
        values := values[e.id := ""];
      }
      log := log + [ClearField(e.id)];
    }

    /** Typing appends to what the field already holds. */
    method SendKeys(e: Element, keys: string) returns (ok: bool)
      modifies this`log, this`values
      ensures ok == !Raises(TypeKeys(e.id, keys))
      ensures values == if ok then old(values)[e.id := old(ValueOf(e)) + keys] else old(values)
      ensures log == old(log) + [TypeKeys(e.id, keys)]
    {
      ok := !Raises(TypeKeys(e.id, keys));
      if ok {
        values := values[e.id := ValueOf(e) + keys];
      }
      log := log + [TypeKeys(e.id, keys)];
    }

    /** Assigning replaces what the field holds. */
    method SetValue(e: Element, value: string) returns (ok: bool)
      modifies this`log, this`values
      ensures ok == !Raises(AssignValue(e.id, value))
      ensures values == if ok then old(values)[e.id := value] else old(values)
      ensures log == old(log) + [AssignValue(e.id, value)]
    {
      ok := !Raises(AssignValue(e.id, value));
      if ok {
        values := values[e.id := value];
      }
      log := log + [AssignValue(e.id, value)];
    }

    method PressKeycode(code: int) returns (ok: bool)
      modifies this`log
      ensures ok == !Raises(KeyEvent(code))
      ensures log == old(log) + [KeyEvent(code)]
    {
      ok := !Raises(KeyEvent(code));
      log := log + [KeyEvent(code)];
    }

    method ClickGesture(e: Element) returns (ok: bool)
      modifies this`log
      ensures ok == !Raises(Gesture(e.id))
      ensures log == old(log) + [Gesture(e.id)]
    {
      ok := !Raises(Gesture(e.id));
      log := log + [Gesture(e.id)];
    }

    /** `time.sleep`: only the clock moves. */
    method Sleep(ticks: nat)
      modifies this`clock
      ensures clock == old(clock) + ticks
    {
      clock := clock + ticks;
    }
  }

  /** Some selector of `sels` shows at tick `t`. */
  predicate ShowsAny(d: Device, sels: seq<Selector>, t: int) {
    exists i :: 0 <= i < |sels| && d.Shows(sels[i], t)
  }

  /** Some selector of a concatenation shows exactly when one of either part does. */
  lemma ShowsAnyConcat(d: Device, a: seq<Selector>, b: seq<Selector>, t: int)
    ensures ShowsAny(d, a + b, t) <==> ShowsAny(d, a, t) || ShowsAny(d, b, t)
  {
    if ShowsAny(d, a + b, t) {
      var i :| 0 <= i < |a + b| && d.Shows((a + b)[i], t);
      if i >= |a| {
        assert (a + b)[i] == b[i - |a|];
      }
    }
    if ShowsAny(d, a, t) {
      var i :| 0 <= i < |a| && d.Shows(a[i], t);
      assert (a + b)[i] == a[i];
    }
    if ShowsAny(d, b, t) {
      var i :| 0 <= i < |b| && d.Shows(b[i], t);
      assert (a + b)[|a| + i] == b[i];
    }
  }

  /** The first tick in [from, end) at which some selector of `sels` shows: what a poller that probes
      every tick from `from` while the clock is below `end` finds. */
  function FirstShowing(d: Device, sels: seq<Selector>, from: int, end: int): Option<int>
    decreases end - from
  {
    if from >= end then None
    else if ShowsAny(d, sels, from) then Some(from)
    else FirstShowing(d, sels, from + 1, end)
  }

  /** The tick found lies in the window and shows something, and nothing shows before it; when no
      tick is found, nothing shows anywhere in the window. */
  lemma {:induction false} FirstShowingSpec(d: Device, sels: seq<Selector>, from: int, end: int)
    ensures var r := FirstShowing(d, sels, from, end);
      (r.Some? ==> from <= r.value < end && ShowsAny(d, sels, r.value)) &&
      (r.Some? ==> forall k :: from <= k < r.value ==> !ShowsAny(d, sels, k)) &&
      (r.None? ==> forall k :: from <= k < end ==> !ShowsAny(d, sels, k))
    decreases end - from
  {
    if from < end && !ShowsAny(d, sels, from) {
      FirstShowingSpec(d, sels, from + 1, end);
    }
  }

  /** A poller stops at the first tick where the screen shows a match, never later and never earlier. */
  lemma {:induction false} FirstShowingIsFirst(d: Device, sels: seq<Selector>, from: int, end: int, k: int)
    requires from <= k < end && ShowsAny(d, sels, k)
    requires forall j :: from <= j < k ==> !ShowsAny(d, sels, j)
    ensures FirstShowing(d, sels, from, end) == Some(k)
    decreases k - from
  {
    if from < k {
      assert !ShowsAny(d, sels, from);
      FirstShowingIsFirst(d, sels, from + 1, end, k);
    }
  }

  /** A tick with nothing showing passes the search on to the next tick. */
  lemma FirstShowingStep(d: Device, sels: seq<Selector>, from: int, end: int)
    requires from < end && !ShowsAny(d, sels, from)
    ensures FirstShowing(d, sels, from, end) == FirstShowing(d, sels, from + 1, end)
  {
  }

  /** A poller that probes every tick from `t` while the clock is below `end`, and sleeps one tick
      after each full miss: true at the first tick something shows, false once the clock reaches
      `end`. Probes neither log nor change fields. */
  function PollEffect(d: Device, sels: seq<Selector>, t: int, end: int, v: map<nat, string>): Effect<bool> {
    FirstShowingSpec(d, sels, t, end);
    match FirstShowing(d, sels, t, end)
    case Some(k) => Effect(true, [], k - t, v)
    case None => Effect(false, [], if end > t then end - t else 0, v)
  }

  /** A poller that sees a match at tick `now`, having found nothing before it, returns true after
      `now - t` ticks. */
  lemma PollFoundAt(d: Device, sels: seq<Selector>, t: int, now: int, end: int, v: map<nat, string>)
    requires t <= now < end && ShowsAny(d, sels, now)
    requires FirstShowing(d, sels, t, end) == FirstShowing(d, sels, now, end)
    ensures PollEffect(d, sels, t, end, v) == Effect(true, [], now - t, v)
  {
    FirstShowingIsFirst(d, sels, now, end, now);
  }

  /** A poller whose clock has reached the end of its window without a match returns false after
      `now - t` ticks. */
  lemma PollMissedAll(d: Device, sels: seq<Selector>, t: int, now: int, end: int, v: map<nat, string>)
    requires t <= now && end <= now && (now <= end || now == t)
    requires FirstShowing(d, sels, t, end) == FirstShowing(d, sels, now, end)
    ensures PollEffect(d, sels, t, end, v) == Effect(false, [], now - t, v)
  {
  }

  /** A poller answers true exactly when something shows at some tick of its window; it returns at
      the first such tick, and otherwise it spends the whole window. */
  lemma PollOutcome(d: Device, sels: seq<Selector>, t: int, end: int, v: map<nat, string>)
    ensures PollEffect(d, sels, t, end, v).result <==> exists k :: t <= k < end && ShowsAny(d, sels, k)
    ensures PollEffect(d, sels, t, end, v).result ==>
      var k := t + PollEffect(d, sels, t, end, v).ticks;
      k < end && ShowsAny(d, sels, k) && forall j :: t <= j < k ==> !ShowsAny(d, sels, j)
    ensures !PollEffect(d, sels, t, end, v).result ==> PollEffect(d, sels, t, end, v).ticks == if end > t then end - t else 0
  {
    FirstShowingSpec(d, sels, t, end);
    var r := FirstShowing(d, sels, t, end);
    if r.None? {
      assert forall k :: t <= k < end ==> !ShowsAny(d, sels, k);
    }
  }

  /** Something on screen when the poller starts is seen without any sleep. */
  lemma PollHitAtOnce(d: Device, sels: seq<Selector>, t: int, end: int, v: map<nat, string>)
    requires t < end && ShowsAny(d, sels, t)
    ensures PollEffect(d, sels, t, end, v) == Effect(true, [], 0, v)
  {
  }
}

/** The page-object base: blocking lookups under a default wait, click and type helpers, and the
    first-of-several lookup every page builds on. */
module Base {
  import opened Wrappers
  import opened Ui
  import opened Driver

  // ---------------------------------------------------------------- what the helpers do

  /** A blocking lookup with a wait of `ticks`, started at tick `t`. */
  function FindEffect(d: Device, sel: Selector, ticks: nat, t: int, v: map<nat, string>): Effect<Result<Element, Error>> {
    Effect(d.AwaitAt(sel, ticks, t), [Await(sel, ticks)], d.AwaitCost(sel, ticks, t), v)
  }

  /** A blocking lookup followed by a tap on what it found. */
  function ClickEffect(d: Device, sel: Selector, ticks: nat, t: int, v: map<nat, string>): Effect<Result<Element, Error>> {
    match d.AwaitAt(sel, ticks, t)
    case Err(e) => Effect(Err(e), [Await(sel, ticks)], ticks, v)
    case Ok(el) =>
      Effect(if d.Raises(Tap(el.id)) then Err(Raised(Tap(el.id))) else Ok(el), [Await(sel, ticks), Tap(el.id)], 0, v)
  }

  /** Clearing a found field and typing into it; the first call that raises ends the run. */
  function TypeIntoEffect(d: Device, el: Element, keys: string, v: map<nat, string>): Effect<Result<Element, Error>> {
    if d.Raises(ClearField(el.id)) then
      Effect(Err(Raised(ClearField(el.id))), [ClearField(el.id)], 0, v)
    else if d.Raises(TypeKeys(el.id, keys)) then
      Effect(Err(Raised(TypeKeys(el.id, keys))), [ClearField(el.id), TypeKeys(el.id, keys)], 0, v[el.id := ""])
    else
      Effect(Ok(el), [ClearField(el.id), TypeKeys(el.id, keys)], 0, v[el.id := keys])
  }

  /** A blocking lookup, then clearing the field and typing into it. */
  function SendKeysEffect(d: Device, sel: Selector, keys: string, ticks: nat, t: int, v: map<nat, string>): Effect<Result<Element, Error>> {
    match d.AwaitAt(sel, ticks, t)
    case Err(e) => Effect(Err(e), [Await(sel, ticks)], ticks, v)
    case Ok(el) => After([Await(sel, ticks)], 0, TypeIntoEffect(d, el, keys, v))
  }

  /** Blocking lookups of `sels` in turn until one succeeds; `last` is the failure of the lookup
      before them, if any. */
  function FindOneOfEffect(d: Device, sels: seq<Selector>, ticks: nat, t: int, v: map<nat, string>, last: Option<Error>): Effect<Result<Element, Error>>
    decreases |sels|
  {
    if sels == [] then Effect(Err(if last.Some? then last.value else NoSelectors), [], 0, v)
    else
      match d.AwaitAt(sels[0], ticks, t)
      case Ok(el) => Effect(Ok(el), [Await(sels[0], ticks)], 0, v)
      case Err(e) => After([Await(sels[0], ticks)], ticks, FindOneOfEffect(d, sels[1..], ticks, t + ticks, v, Some(e)))
  }

  /** A quick, non-blocking probe and a tap on its first hit. A probe that raises or finds nothing,
      and a tap that raises, are misses. */
  function TapFirstEffect(d: Device, sel: Selector, t: int, v: map<nat, string>): Effect<Option<Element>> {
    match d.ElementsAt(sel, t)
    case Err(_) => Effect(None, [], 0, v)
    case Ok(els) =>
      if els == [] then Effect(None, [], 0, v)
      else Effect(if d.Raises(Tap(els[0].id)) then None else Some(els[0]), [Tap(els[0].id)], 0, v)
  }

  /** Quick tiers over `sels` in turn until one taps. */
  function TapAnyEffect(d: Device, sels: seq<Selector>, t: int, v: map<nat, string>): Effect<bool>
    decreases |sels|
  {
    if sels == [] then Effect(false, [], 0, v)
    else
      var a := TapFirstEffect(d, sels[0], t, v);
      if a.result.Some? then Effect(true, a.requests, 0, v) else After(a.requests, 0, TapAnyEffect(d, sels[1..], t, v))
  }

  /** Some candidate taps exactly when one of them finds an element whose tap goes through; a
      candidate whose tap fails hands over to the next. */
  lemma {:induction false} TapAnyOutcome(d: Device, sels: seq<Selector>, t: int, v: map<nat, string>)
    ensures TapAnyEffect(d, sels, t, v).result <==> exists k :: 0 <= k < |sels| && TapFirstEffect(d, sels[k], t, v).result.Some?
    ensures TapAnyEffect(d, sels, t, v).ticks == 0 && TapAnyEffect(d, sels, t, v).values == v
    decreases |sels|
  {
    if sels != [] {
      TapAnyOutcome(d, sels[1..], t, v);
      if exists k :: 0 <= k < |sels| && TapFirstEffect(d, sels[k], t, v).result.Some? {
        var k :| 0 <= k < |sels| && TapFirstEffect(d, sels[k], t, v).result.Some?;
        if k > 0 {
          assert sels[1..][k - 1] == sels[k];
        }
      }
      if TapAnyEffect(d, sels[1..], t, v).result {
        var k :| 0 <= k < |sels[1..]| && TapFirstEffect(d, sels[1..][k], t, v).result.Some?;
        assert sels[k + 1] == sels[1..][k];
      }
    }
  }

  /** What the tiers of `sels` send when each is tried in turn: their requests, concatenated. */
  function TierRequests(d: Device, sels: seq<Selector>, t: int, v: map<nat, string>): seq<Request>
    decreases |sels|
  {
    if sels == [] then [] else TapFirstEffect(d, sels[0], t, v).requests + TierRequests(d, sels[1..], t, v)
  }

  /** The first tier whose tap goes through is the one that ends the cascade: the run succeeds,
      and it sends exactly what the tiers up to that one send, so no later tier is tried. */
  lemma {:induction false} TapAnyFirstHit(d: Device, sels: seq<Selector>, t: int, v: map<nat, string>, k: nat)
    requires k < |sels| && TapFirstEffect(d, sels[k], t, v).result.Some?
    requires forall j :: 0 <= j < k ==> TapFirstEffect(d, sels[j], t, v).result.None?
    ensures var e := TapAnyEffect(d, sels, t, v);
      e.result && e.requests == TierRequests(d, sels[..k + 1], t, v)
    decreases k
  {
    var a := TapFirstEffect(d, sels[0], t, v);
    assert sels[..k + 1][0] == sels[0];
    if k == 0 {
      assert sels[..1][1..] == [];
      EmptyRequests(a.requests);
    } else {
      assert sels[..k + 1][1..] == sels[1..][..k];
      forall j | 0 <= j < k - 1
        ensures TapFirstEffect(d, sels[1..][j], t, v).result.None?
      {
        assert sels[1..][j] == sels[j + 1];
      }
      assert sels[1..][k - 1] == sels[k];
      TapAnyFirstHit(d, sels[1..], t, v, k - 1);
    }
  }

  /** With no tier able to tap, the cascade fails after every tier has been tried, in order. */
  lemma {:induction false} TapAnyAllMiss(d: Device, sels: seq<Selector>, t: int, v: map<nat, string>)
    requires forall j :: 0 <= j < |sels| ==> TapFirstEffect(d, sels[j], t, v).result.None?
    ensures var e := TapAnyEffect(d, sels, t, v);
      !e.result && e.requests == TierRequests(d, sels, t, v)
    decreases |sels|
  {
    if sels != [] {
      forall j | 0 <= j < |sels| - 1
        ensures TapFirstEffect(d, sels[1..][j], t, v).result.None?
      {
        assert sels[1..][j] == sels[j + 1];
      }
      TapAnyAllMiss(d, sels[1..], t, v);
    }
  }

  /** Tier i of a cascade, after the misses before it logged `done`: a tap ends the cascade, a miss
      hands over to the tiers after it. */
  lemma TapAnyTurn(d: Device, sels: seq<Selector>, i: nat, t: int, v: map<nat, string>, done: seq<Request>)
    requires i < |sels|
    ensures var a := TapFirstEffect(d, sels[i], t, v);
      After(done, 0, TapAnyEffect(d, sels[i..], t, v)) ==
        if a.result.Some? then Effect(true, done + a.requests, 0, v)
        else After(done + a.requests, 0, TapAnyEffect(d, sels[i + 1..], t, v))
  {
    assert sels[i..][0] == sels[i] && sels[i..][1..] == sels[i + 1..];
    var a := TapFirstEffect(d, sels[i], t, v);
    if a.result.None? {
      AfterAfter(done, 0, a.requests, 0, TapAnyEffect(d, sels[i + 1..], t, v));
    }
  }

  /** A cascade with every tier missed adds nothing to what the misses logged. */
  lemma TapAnyEnd(d: Device, sels: seq<Selector>, t: int, v: map<nat, string>, done: seq<Request>)
    ensures After(done, 0, TapAnyEffect(d, sels[|sels|..], t, v)) == Effect(false, done, 0, v)
  {
    assert sels[|sels|..] == [];
    assert done + [] == done;
  }

  /** The waits for `sels`, in order. */
  function Waits(sels: seq<Selector>, ticks: nat): seq<Request> {
    if sels == [] then [] else [Await(sels[0], ticks)] + Waits(sels[1..], ticks)
  }

  /** The tick at which the j-th of several blocking lookups started at `t` begins when every
      lookup before it used up its whole wait of `ticks`. */
  function Turn(t: int, ticks: nat, j: nat): int {
    if j == 0 then t else Turn(t, ticks, j - 1) + ticks
  }

  /** Lookup j begins at `t + j * ticks`. */
  lemma {:induction false} TurnIsProduct(t: int, ticks: nat, j: nat)
    ensures Turn(t, ticks, j) == t + j * ticks
  {
    if j > 0 {
      TurnIsProduct(t, ticks, j - 1);
    }
  }

  /** Starting one wait later moves every turn by one. */
  lemma {:induction false} TurnShift(t: int, ticks: nat, j: nat)
    ensures Turn(t + ticks, ticks, j) == Turn(t, ticks, j + 1)
  {
    if j > 0 {
      TurnShift(t, ticks, j - 1);
    }
  }

  lemma MissesShift(d: Device, sels: seq<Selector>, ticks: nat, t: int, n: nat)
    requires 0 < n <= |sels|
    requires forall j :: 0 <= j < n ==> d.AwaitAt(sels[j], ticks, Turn(t, ticks, j)).Err?
    ensures forall j :: 0 <= j < n - 1 ==> d.AwaitAt(sels[1..][j], ticks, Turn(t + ticks, ticks, j)).Err?
  {
    forall j | 0 <= j < n - 1
      ensures d.AwaitAt(sels[1..][j], ticks, Turn(t + ticks, ticks, j)).Err?
    {
      TurnShift(t, ticks, j);
      assert sels[1..][j] == sels[j + 1];
    }
  }

  /** Turn i of the lookups when selector i is present: the run ends with it, after the turns before. */
  lemma FindOneOfTurnHit(d: Device, sels: seq<Selector>, i: nat, ticks: nat, t0: int, t: int, v: map<nat, string>,
                         last: Option<Error>, done: seq<Request>)
    requires i < |sels| && t0 <= t && d.AwaitAt(sels[i], ticks, t).Ok?
    ensures After(done, t - t0, FindOneOfEffect(d, sels[i..], ticks, t, v, last)) ==
      Effect(d.AwaitAt(sels[i], ticks, t), done + [Await(sels[i], ticks)], t - t0, v)
  {
    assert sels[i..][0] == sels[i];
  }

  /** Turn i of the lookups when selector i is missing: its wait joins the turns before and the
      selectors after it take over. */
  lemma FindOneOfTurnMiss(d: Device, sels: seq<Selector>, i: nat, ticks: nat, t0: int, t: int, v: map<nat, string>,
                          last: Option<Error>, done: seq<Request>)
    requires i < |sels| && t0 <= t && d.AwaitAt(sels[i], ticks, t).Err?
    ensures After(done, t - t0, FindOneOfEffect(d, sels[i..], ticks, t, v, last)) ==
      After(done + [Await(sels[i], ticks)], t + ticks - t0,
        FindOneOfEffect(d, sels[i + 1..], ticks, t + ticks, v, Some(d.AwaitAt(sels[i], ticks, t).error)))
  {
    assert sels[i..][0] == sels[i] && sels[i..][1..] == sels[i + 1..];
    var rest := FindOneOfEffect(d, sels[i + 1..], ticks, t + ticks, v, Some(d.AwaitAt(sels[i], ticks, t).error));
    AfterAfter(done, t - t0, [Await(sels[i], ticks)], ticks, rest);
  }

  lemma FindOneOfEnd(d: Device, sels: seq<Selector>, ticks: nat, t: int, v: map<nat, string>, last: Option<Error>)
    ensures FindOneOfEffect(d, sels[|sels|..], ticks, t, v, last) ==
      Effect(Err(if last.Some? then last.value else NoSelectors), [], 0, v)
  {
    assert sels[|sels|..] == [];
  }

  lemma EmptyRequests(done: seq<Request>)
    ensures done + [] == done
  {
  }

  /** A miss on the first selector costs its whole wait and hands over to the rest. */
  lemma FindOneOfMiss(d: Device, sels: seq<Selector>, ticks: nat, t: int, v: map<nat, string>, last: Option<Error>)
    requires sels != [] && d.AwaitAt(sels[0], ticks, t).Err?
    ensures FindOneOfEffect(d, sels, ticks, t, v, last) ==
      After([Await(sels[0], ticks)], ticks, FindOneOfEffect(d, sels[1..], ticks, t + ticks, v, Some(d.AwaitAt(sels[0], ticks, t).error)))
  {
  }

  /** `find_one_of` returns what the first selector that is present when its turn comes finds.
      Each earlier selector uses up its whole wait, so selector k is tried at `Turn(t, ticks, k)`,
      that is `t + k * ticks`, and the run takes `k * ticks`. */
  lemma {:induction false} FindOneOfFirstHit(d: Device, sels: seq<Selector>, ticks: nat, t: int, v: map<nat, string>, last: Option<Error>, k: nat)
    requires k < |sels| && d.AwaitAt(sels[k], ticks, Turn(t, ticks, k)).Ok?
    requires forall j :: 0 <= j < k ==> d.AwaitAt(sels[j], ticks, Turn(t, ticks, j)).Err?
    ensures var e := FindOneOfEffect(d, sels, ticks, t, v, last);
      e.result == d.AwaitAt(sels[k], ticks, Turn(t, ticks, k)) && e.requests == Waits(sels[..k + 1], ticks) &&
      e.ticks == k * ticks && e.values == v
    decreases k
  {
    if k > 0 {
      assert d.AwaitAt(sels[0], ticks, Turn(t, ticks, 0)).Err?;
      var e := d.AwaitAt(sels[0], ticks, t).error;
      FindOneOfMiss(d, sels, ticks, t, v, last);
      MissesShift(d, sels, ticks, t, k);
      TurnShift(t, ticks, k - 1);
      assert sels[1..][k - 1] == sels[k];
      FindOneOfFirstHit(d, sels[1..], ticks, t + ticks, v, Some(e), k - 1);
      var rest := FindOneOfEffect(d, sels[1..], ticks, t + ticks, v, Some(e));
      assert rest.result == d.AwaitAt(sels[k], ticks, Turn(t, ticks, k));
      assert rest.requests == Waits(sels[1..][..k], ticks);
      WaitsCons(sels, ticks, k);
      Steps(ticks, k);
    } else {
      assert Waits(sels[..1], ticks) == [Await(sels[0], ticks)];
    }
  }

  lemma Steps(ticks: nat, k: nat)
    requires k > 0
    ensures ticks + (k - 1) * ticks == k * ticks
  {
  }

  lemma WaitsCons(sels: seq<Selector>, ticks: nat, k: nat)
    requires 0 < k < |sels|
    ensures Waits(sels[..k + 1], ticks) == [Await(sels[0], ticks)] + Waits(sels[1..][..k], ticks)
  {
    assert sels[..k + 1][1..] == sels[1..][..k];
  }

  /** When no selector is present in its turn, `find_one_of` re-raises the last selector's failure,
      after waiting for every selector in full. */
  lemma {:induction false} FindOneOfAllMiss(d: Device, sels: seq<Selector>, ticks: nat, t: int, v: map<nat, string>, last: Option<Error>)
    requires sels != []
    requires forall j :: 0 <= j < |sels| ==> d.AwaitAt(sels[j], ticks, Turn(t, ticks, j)).Err?
    ensures var e := FindOneOfEffect(d, sels, ticks, t, v, last);
      e.result == Err(d.AwaitAt(sels[|sels| - 1], ticks, Turn(t, ticks, |sels| - 1)).error) &&
      e.requests == Waits(sels, ticks) && e.ticks == |sels| * ticks && e.values == v
    decreases |sels|
  {
    assert d.AwaitAt(sels[0], ticks, Turn(t, ticks, 0)).Err?;
    var e := d.AwaitAt(sels[0], ticks, t).error;
    FindOneOfMiss(d, sels, ticks, t, v, last);
    var rest := FindOneOfEffect(d, sels[1..], ticks, t + ticks, v, Some(e));
    WaitsHead(sels, ticks);
    Steps(ticks, |sels|);
    if |sels| == 1 {
      assert sels[1..] == [];
      assert rest == Effect(Err(e), [], 0, v);
    } else {
      MissesShift(d, sels, ticks, t, |sels|);
      TurnShift(t, ticks, |sels| - 2);
      assert sels[1..][|sels[1..]| - 1] == sels[|sels| - 1];
      FindOneOfAllMiss(d, sels[1..], ticks, t + ticks, v, Some(e));
      assert rest.result == Err(d.AwaitAt(sels[|sels| - 1], ticks, Turn(t, ticks, |sels| - 1)).error);
      assert rest.requests == Waits(sels[1..], ticks) && rest.ticks == (|sels| - 1) * ticks;
    }
  }

  lemma WaitsHead(sels: seq<Selector>, ticks: nat)
    requires sels != []
    ensures Waits(sels, ticks) == [Await(sels[0], ticks)] + Waits(sels[1..], ticks)
  {
  }

  /** The wait `wait_for` uses: the page's default when no timeout is given, otherwise the given
      one — a timeout of 0 included. */
  function WaitTimeout(defaultTicks: nat, timeout: Option<nat>): (ticks: nat)
    ensures timeout.None? ==> ticks == defaultTicks
    ensures timeout.Some? ==> ticks == Ticks(timeout.value)
  {
    if timeout.None? then defaultTicks else 2 * timeout.value
  }

  // ---------------------------------------------------------------- quick-probe helpers

  /** `els = find_elements(sel); if els: els[0].click()`, with failures caught. */
  method ProbeAndTap(d: Device, sel: Selector) returns (hit: Option<Element>)
    modifies d
    ensures d.Performed(TapFirstEffect(d, sel, old(d.clock), old(d.values)), hit)
  {
    var found := d.ElementsAt(sel, d.clock);
    if found.Err? || found.value == [] {
      return None;
    }
    var ok := d.Click(found.value[0]);
    hit := if ok then Some(found.value[0]) else None;
  }

  /** `el = find_element(sel); el.click()`, with failures caught: the same run as a probe and a tap on
      its first hit. */
  method FindAndTap(d: Device, sel: Selector) returns (hit: Option<Element>)
    modifies d
    ensures d.Performed(TapFirstEffect(d, sel, old(d.clock), old(d.values)), hit)
  {
    var found := d.ElementAt(sel, d.clock);
    if found.Err? {
      return None;
    }
    var ok := d.Click(found.value);
    hit := if ok then Some(found.value) else None;
  }

  /** `for sel in sels: try: els = find_elements(sel); if els: els[0].click(); return True`, with
      failures caught: quick tiers in turn until one taps. */
  method TapAny(d: Device, sels: seq<Selector>) returns (tapped: bool)
    modifies d
    ensures d.Performed(TapAnyEffect(d, sels, old(d.clock), old(d.values)), tapped)
  {
    ghost var whole := TapAnyEffect(d, sels, d.clock, d.values);
    ghost var done: seq<Request> := [];
    for i := 0 to |sels|
      invariant d.clock == old(d.clock) && d.values == old(d.values) && d.log == old(d.log) + done
      invariant whole == After(done, 0, TapAnyEffect(d, sels[i..], d.clock, d.values))
    {
      ghost var a := TapFirstEffect(d, sels[i], d.clock, d.values);
      TapAnyTurn(d, sels, i, d.clock, d.values, done);
      var hit := ProbeAndTap(d, sels[i]);
      Regroup(old(d.log), done, a.requests);
      if hit.Some? {
        return true;
      }
      done := done + a.requests;
    }
    TapAnyEnd(d, sels, d.clock, d.values, done);
    return false;
  }

  // ---------------------------------------------------------------- the page

  class BasePage {
    const driver: Device
    /** The default wait, in seconds. */
    const wait: nat

    constructor (driver: Device, timeout: nat)
      ensures this.driver == driver && wait == timeout
    {
      this.driver := driver;
      wait := timeout;
    }

    function WaitTicks(): nat {
      2 * wait
    }

    /** `find(by, locator)`: present at once, or a failure after the whole default wait. */
    method Find(sel: Selector) returns (r: Result<Element, Error>)
      modifies driver
      ensures driver.Performed(FindEffect(driver, sel, WaitTicks(), old(driver.clock), old(driver.values)), r)
    {
      r := driver.WaitPresent(sel, WaitTicks());
    }

    /** `click(by, locator)`. */
    method Click(sel: Selector) returns (r: Result<Element, Error>)
      modifies driver
      ensures driver.Performed(ClickEffect(driver, sel, WaitTicks(), old(driver.clock), old(driver.values)), r)
    {
      r := driver.WaitPresent(sel, WaitTicks());
      if r.Err? {
        return;
      }
      var ok := driver.Click(r.value);
      if !ok {
        return Err(Raised(Tap(r.value.id)));
      }
    }

    /** `send_keys(by, locator, text)`. */
    method SendKeys(sel: Selector, text: string) returns (r: Result<Element, Error>)
      modifies driver
      ensures driver.Performed(SendKeysEffect(driver, sel, text, WaitTicks(), old(driver.clock), old(driver.values)), r)
    {
      r := driver.WaitPresent(sel, WaitTicks());
      if r.Err? {
        return;
      }
      r := TypeInto(driver, r.value, text);
    }

    /** `find_one_of(selectors)`. */
    method FindOneOf(sels: seq<Selector>) returns (r: Result<Element, Error>)
      modifies driver
      ensures driver.Performed(FindOneOfEffect(driver, sels, WaitTicks(), old(driver.clock), old(driver.values), None), r)
    {
      ghost var whole := FindOneOfEffect(driver, sels, WaitTicks(), driver.clock, driver.values, None);
      ghost var done: seq<Request> := [];
      var lastEx: Option<Error> := None;
      var i := 0;
      while i < |sels|
        invariant 0 <= i <= |sels| && old(driver.clock) <= driver.clock
        invariant driver.values == old(driver.values) && driver.log == old(driver.log) + done
        invariant whole == After(done, driver.clock - old(driver.clock),
          FindOneOfEffect(driver, sels[i..], WaitTicks(), driver.clock, old(driver.values), lastEx))
      {
        ghost var t := driver.clock;
        r := Find(sels[i]);
        Regroup(old(driver.log), done, [Await(sels[i], WaitTicks())]);
        if r.Ok? {
          FindOneOfTurnHit(driver, sels, i, WaitTicks(), old(driver.clock), t, old(driver.values), lastEx, done);
          return;
        }
        FindOneOfTurnMiss(driver, sels, i, WaitTicks(), old(driver.clock), t, old(driver.values), lastEx, done);
        lastEx := Some(r.error);
        done := done + [Await(sels[i], WaitTicks())];
        i := i + 1;
      }
      FindOneOfEnd(driver, sels, WaitTicks(), driver.clock, old(driver.values), lastEx);
      EmptyRequests(done);
      if lastEx.Some? {
        return Err(lastEx.value);
      }
      return Err(NoSelectors);
    }

    /** `find_by_text_contains(text)`. */
    method FindByTextContains(text: string) returns (r: Result<Element, Error>)
      modifies driver
      ensures driver.Performed(FindEffect(driver, TextContains(text), WaitTicks(), old(driver.clock), old(driver.values)), r)
    {
      r := Find(TextContains(text));
    }

    /** `find_by_desc_contains(desc)`. */
    method FindByDescContains(desc: string) returns (r: Result<Element, Error>)
      modifies driver
      ensures driver.Performed(FindEffect(driver, DescContains(desc), WaitTicks(), old(driver.clock), old(driver.values)), r)
    {
      r := Find(DescContains(desc));
    }

    /** `wait_for(by, locator, timeout)`. */
    method WaitFor(sel: Selector, timeout: Option<nat>) returns (r: Result<Element, Error>)
      modifies driver
      ensures driver.Performed(FindEffect(driver, sel, WaitTimeout(WaitTicks(), timeout), old(driver.clock), old(driver.values)), r)
    {
      var ticks := if timeout.None? then WaitTicks() else 2 * timeout.value;
      r := driver.WaitPresent(sel, ticks);
    }
  }

  /** `el.clear(); el.send_keys(keys)` on a found element, letting the first failure through. */
  method TypeInto(d: Device, el: Element, keys: string) returns (r: Result<Element, Error>)
    modifies d
    ensures d.Performed(TypeIntoEffect(d, el, keys, old(d.values)), r)
  {
    var cleared := d.Clear(el);
    if !cleared {
      return Err(Raised(ClearField(el.id)));
    }
    var typed := d.SendKeys(el, keys);
    if !typed {
      return Err(Raised(TypeKeys(el.id, keys)));
    }
    assert "" + keys == keys;
    return Ok(el);
  }

  /** `click` hands back the very element its lookup found, after tapping it; a tap that raises
      makes the call fail. */
  lemma ClickReturnsFound(d: Device, sel: Selector, ticks: nat, t: int, v: map<nat, string>)
    ensures var e := ClickEffect(d, sel, ticks, t, v);
      (e.result.Ok? <==> d.AwaitAt(sel, ticks, t).Ok? && !d.Raises(Tap(d.AwaitAt(sel, ticks, t).value.id)))
      && (e.result.Ok? ==>
            e.result.value == d.AwaitAt(sel, ticks, t).value && e.requests == [Await(sel, ticks), Tap(e.result.value.id)])
  {
  }

  /** `find_one_of([])` fails with "No selectors provided" without waiting. */
  lemma FindOneOfNoSelectors(d: Device, ticks: nat, t: int, v: map<nat, string>)
    ensures FindOneOfEffect(d, [], ticks, t, v, None) == Effect(Err(NoSelectors), [], 0, v)
  {
  }

  /** A quick tier hits exactly when its probe finds something and the tap on the first hit goes
      through; a probe that raises is a miss that sends nothing. */
  lemma TapFirstOutcome(d: Device, sel: Selector, t: int, v: map<nat, string>)
    ensures var e := TapFirstEffect(d, sel, t, v);
      (e.result.Some? <==> d.Shows(sel, t) && !d.Raises(Tap(d.ElementsAt(sel, t).value[0].id)))
      && (e.result.Some? ==> e.result.value == d.ElementsAt(sel, t).value[0])
      && (!d.Shows(sel, t) ==> e.requests == [])
  {
  }

  /** After `send_keys` succeeds the field holds exactly the typed text, whatever it held before:
      the clear runs first. */
  lemma SendKeysReplaces(d: Device, sel: Selector, keys: string, ticks: nat, t: int, v: map<nat, string>)
    ensures var e := SendKeysEffect(d, sel, keys, ticks, t, v);
      e.result.Ok? ==>
        e.values == v[e.result.value.id := keys] && e.result.value == d.AwaitAt(sel, ticks, t).value
        && e.requests == [Await(sel, ticks), ClearField(e.result.value.id), TypeKeys(e.result.value.id, keys)]
  {
  }
}

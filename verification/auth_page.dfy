/** The sign-in screens: opening the email form, filling and submitting it, and reading the result. */
module Auth {
  import opened Wrappers
  import opened Strings
  import opened Ui
  import opened Driver
  import opened Base

  const SignInWithEmail := TextContains("Sign in with email")
  const SignInContains := TextContains("Sign In")
  const SignInExact := TextExact("Sign In")
  const EmailPlaceholder := TextContains("Enter Your Email")
  const PasswordPlaceholder := TextContains("Enter Your Password")
  const HomeMarker := DescContains("home")
  const GoogleButton := TextContains("Continue with Google")
  const GoogleText := TextContains("Google")
  const DefaultErrorKeywords: seq<string> := ["incorrect", "invalid", "error", "please enter", "required"]
  const BiometricCandidates: seq<Selector> :=
    [DescContains("finger"), DescContains("biometric"), TextContains("finger"), TextContains("biometric")]

  /** A quick tier takes no time and changes no field. */
  lemma TapFirstQuick(d: Device, sel: Selector, t: int, v: map<nat, string>)
    ensures TapFirstEffect(d, sel, t, v).ticks == 0 && TapFirstEffect(d, sel, t, v).values == v
  {
  }

  /** A quick tier only ever taps, takes no time and changes no field. */
  lemma TapFirstOnlyTaps(d: Device, sel: Selector, t: int, v: map<nat, string>)
    ensures forall r :: r in TapFirstEffect(d, sel, t, v).requests ==> r.Tap?
    ensures TapFirstEffect(d, sel, t, v).ticks == 0 && TapFirstEffect(d, sel, t, v).values == v
  {
  }

  // ---------------------------------------------------------------- open_email_signin

  function OpenEmailSigninEffect(d: Device, ticks: nat, t: int, v: map<nat, string>): Effect<Result<Element, Error>> {
    var a := TapFirstEffect(d, SignInWithEmail, t, v);
    var b := TapFirstEffect(d, SignInContains, t, v);
    if a.result.Some? then Effect(Ok(a.result.value), a.requests, 0, v)
    else if b.result.Some? then Effect(Ok(b.result.value), a.requests + b.requests, 0, v)
    else After(a.requests + b.requests, 0, ClickEffect(d, SignInContains, ticks, t, v))
  }

  /** The blocking "Sign In" lookup happens exactly when both quick tiers miss; a hit in the first
      tier is returned without consulting the others, and a hit in the second after the first's
      probe, without the blocking lookup. */
  lemma OpenEmailSigninTiers(d: Device, ticks: nat, t: int, v: map<nat, string>)
    ensures var e := OpenEmailSigninEffect(d, ticks, t, v);
      Await(SignInContains, ticks) in e.requests <==>
        TapFirstEffect(d, SignInWithEmail, t, v).result.None? && TapFirstEffect(d, SignInContains, t, v).result.None?
    ensures var a := TapFirstEffect(d, SignInWithEmail, t, v);
      a.result.Some? ==> OpenEmailSigninEffect(d, ticks, t, v) == Effect(Ok(a.result.value), a.requests, 0, v)
    ensures var a := TapFirstEffect(d, SignInWithEmail, t, v);
      var b := TapFirstEffect(d, SignInContains, t, v);
      a.result.None? && b.result.Some? ==>
        OpenEmailSigninEffect(d, ticks, t, v) == Effect(Ok(b.result.value), a.requests + b.requests, 0, v)
  {
    TapFirstOnlyTaps(d, SignInWithEmail, t, v);
    TapFirstOnlyTaps(d, SignInContains, t, v);
    var a := TapFirstEffect(d, SignInWithEmail, t, v);
    var b := TapFirstEffect(d, SignInContains, t, v);
    if a.result.None? && b.result.None? {
      assert (a.requests + b.requests + ClickEffect(d, SignInContains, ticks, t, v).requests)[|a.requests + b.requests|]
        == Await(SignInContains, ticks);
    }
  }

  // ---------------------------------------------------------------- fill_credentials

  /** Clearing and typing into the first field, then the second; the first call that raises ends the
      run. */
  function TypePairEffect(d: Device, first: Element, second: Element, email: string, password: string,
                          v: map<nat, string>): Effect<Result<(), Error>> {
    var a := TypeIntoEffect(d, first, email, v);
    if a.result.Err? then Effect(Err(a.result.error), a.requests, 0, a.values)
    else
      var b := TypeIntoEffect(d, second, password, a.values);
      Effect(if b.result.Err? then Err(b.result.error) else Ok(()), a.requests + b.requests, 0, b.values)
  }

  /** Typing through both placeholders in turn, each failure swallowed. */
  function PlaceholdersEffect(d: Device, email: string, password: string, ticks: nat, t: int, v: map<nat, string>): Effect<Result<(), Error>> {
    var e1 := SendKeysEffect(d, EmailPlaceholder, email, ticks, t, v);
    var e2 := SendKeysEffect(d, PasswordPlaceholder, password, ticks, t + e1.ticks, e1.values);
    Effect(Ok(()), e1.requests + e2.requests, e1.ticks + e2.ticks, e2.values)
  }

  function FillCredentialsEffect(d: Device, email: string, password: string, ticks: nat, t: int, v: map<nat, string>): Effect<Result<(), Error>> {
    match d.ElementsAt(ClassName(EditTextClass), t)
    case Err(e) => Effect(Err(e), [], 0, v)
    case Ok(els) =>
      if |els| >= 2 then TypePairEffect(d, els[0], els[1], email, password, v)
      else PlaceholdersEffect(d, email, password, ticks, t, v)
  }

  /** With two or more input fields on screen and no failing call, the first field holds the email
      and the second the password (the password wins should both be one field), without any wait. */
  lemma FillTwoFields(d: Device, email: string, password: string, ticks: nat, t: int, v: map<nat, string>, els: seq<Element>)
    requires d.ElementsAt(ClassName(EditTextClass), t) == Ok(els) && |els| >= 2
    requires !d.Raises(ClearField(els[0].id)) && !d.Raises(TypeKeys(els[0].id, email))
    requires !d.Raises(ClearField(els[1].id)) && !d.Raises(TypeKeys(els[1].id, password))
    ensures var e := FillCredentialsEffect(d, email, password, ticks, t, v);
      e.result == Ok(()) && e.ticks == 0 && e.values == v[els[0].id := email][els[1].id := password]
      && e.requests == [ClearField(els[0].id), TypeKeys(els[0].id, email), ClearField(els[1].id), TypeKeys(els[1].id, password)]
  {
  }

  /** With fewer than two input fields, both placeholders are tried, whatever happens to the first,
      and the call never fails. */
  lemma FillFallbackTriesBoth(d: Device, email: string, password: string, ticks: nat, t: int, v: map<nat, string>)
    requires d.ElementsAt(ClassName(EditTextClass), t).Ok? && |d.ElementsAt(ClassName(EditTextClass), t).value| < 2
    ensures var e := FillCredentialsEffect(d, email, password, ticks, t, v);
      e.result == Ok(()) && e.requests[0] == Await(EmailPlaceholder, ticks)
      && Await(PasswordPlaceholder, ticks) in e.requests
  {
    var e1 := SendKeysEffect(d, EmailPlaceholder, email, ticks, t, v);
    var e2 := SendKeysEffect(d, PasswordPlaceholder, password, ticks, t + e1.ticks, e1.values);
    assert e2.requests[0] == Await(PasswordPlaceholder, ticks);
    assert (e1.requests + e2.requests)[|e1.requests|] == e2.requests[0];
  }

  // ---------------------------------------------------------------- submit

  /** `e.text or ''`, with a failing read counting as ''. */
  function ShownText(d: Device, e: Element): string {
    match d.TextOf(e)
    case Ok(s) => s
    case Err(_) => ""
  }

  /** The element's text mentions "sign", ignoring ASCII case. */
  predicate MentionsSign(d: Device, e: Element) {
    Contains(Lower(ShownText(d, e)), "sign")
  }

  function FirstMentioningSign(d: Device, els: seq<Element>): (k: nat)
    ensures k <= |els| && (k < |els| ==> MentionsSign(d, els[k]))
    ensures forall j :: 0 <= j < k ==> !MentionsSign(d, els[j])
  {
    if els == [] || MentionsSign(d, els[0]) then 0 else 1 + FirstMentioningSign(d, els[1..])
  }

  /** The clickable scan of `submit`: Some(answer) when it ends the call, None when it falls through. */
  function ScanEffect(d: Device, t: int, v: map<nat, string>): Effect<Option<Option<Element>>> {
    match d.ElementsAt(Clickable, t)
    case Err(_) => Effect(None, [], 0, v)
    case Ok(els) =>
      var k := FirstMentioningSign(d, els);
      if k < |els| then
        Effect(if d.Raises(Tap(els[k].id)) then None else Some(None), [Tap(els[k].id)], 0, v)
      else if els == [] then Effect(None, [], 0, v)
      else Effect(if d.Raises(Tap(els[0].id)) then None else Some(Some(els[0])), [Tap(els[0].id)], 0, v)
  }

  lemma ScanOnlyTaps(d: Device, t: int, v: map<nat, string>)
    ensures ScanEffect(d, t, v).ticks == 0 && ScanEffect(d, t, v).values == v
  {
  }

  /** The loop of the scan: the index of the first element whose text, read with a failing read
      counting as empty and lowered, contains "sign"; |els| when there is none. */
  method FirstSignIndex(d: Device, els: seq<Element>) returns (i: nat)
    ensures i == FirstMentioningSign(d, els)
  {
    i := 0;
    while i < |els|
      invariant 0 <= i <= |els|
      invariant forall j :: 0 <= j < i ==> !MentionsSign(d, els[j])
    {
      var txt := "";
      var read := d.TextOf(els[i]);
      if read.Ok? {
        txt := read.value;
      }
      if Contains(Lower(txt), "sign") {
        return;
      }
      i := i + 1;
    }
  }

  /** The clickable scan of `submit`: tap the first clickable whose text mentions "sign" and end
      the call with None, else tap the first clickable and end it with that element; a failing
      query or tap falls through. */
  method Scan(d: Device) returns (answer: Option<Option<Element>>)
    modifies d
    ensures d.Performed(ScanEffect(d, old(d.clock), old(d.values)), answer)
  {
    var found := d.ElementsAt(Clickable, d.clock);
    if found.Err? {
      return None;
    }
    var els := found.value;
    var i := FirstSignIndex(d, els);
    if i < |els| {
      var ok := d.Click(els[i]);
      return if ok then Some(None) else None;
    }
    if els == [] {
      return None;
    }
    var ok := d.Click(els[0]);
    return if ok then Some(Some(els[0])) else None;
  }

  /** The tiers of `submit` after the exact-text probe: the scan of clickables, then the blocking
      exact-text click. */
  function SubmitFallbackEffect(d: Device, ticks: nat, t: int, v: map<nat, string>): Effect<Option<Element>> {
    var b := ScanEffect(d, t, v);
    var c := ClickEffect(d, SignInExact, ticks, t, v);
    if b.result.Some? then Effect(b.result.value, b.requests, 0, v)
    else Effect(if c.result.Ok? then Some(c.result.value) else None, b.requests + c.requests, c.ticks, v)
  }

  function SubmitEffect(d: Device, ticks: nat, t: int, v: map<nat, string>): Effect<Option<Element>> {
    var a := TapFirstEffect(d, SignInExact, t, v);
    if a.result.Some? then a else After(a.requests, 0, SubmitFallbackEffect(d, ticks, t, v))
  }

  /** When the exact "Sign In" probe misses and the scan taps a clickable mentioning "sign", submit
      returns None, not the tapped element; the first such clickable in query order is the one tapped. */
  lemma SubmitKeywordTap(d: Device, ticks: nat, t: int, v: map<nat, string>, els: seq<Element>, k: nat)
    requires TapFirstEffect(d, SignInExact, t, v).result.None?
    requires d.ElementsAt(Clickable, t) == Ok(els) && k < |els| && MentionsSign(d, els[k])
    requires forall j :: 0 <= j < k ==> !MentionsSign(d, els[j])
    requires !d.Raises(Tap(els[k].id))
    ensures var e := SubmitEffect(d, ticks, t, v);
      e.result == None && e.requests == TapFirstEffect(d, SignInExact, t, v).requests + [Tap(els[k].id)] && e.ticks == 0
  {
    assert FirstMentioningSign(d, els) == k;
  }

  /** With no clickable mentioning "sign", the scan taps the first clickable and submit returns it. */
  lemma SubmitFirstClickable(d: Device, ticks: nat, t: int, v: map<nat, string>, els: seq<Element>)
    requires TapFirstEffect(d, SignInExact, t, v).result.None?
    requires d.ElementsAt(Clickable, t) == Ok(els) && els != [] && !d.Raises(Tap(els[0].id))
    requires forall j :: 0 <= j < |els| ==> !MentionsSign(d, els[j])
    ensures SubmitEffect(d, ticks, t, v).result == Some(els[0])
  {
    assert FirstMentioningSign(d, els) == |els|;
  }

  /** The blocking "Sign In" click runs exactly when both quick tiers fall through, and then submit
      returns the element it clicked, or None when the wait or the tap fails. */
  lemma SubmitWaitsLast(d: Device, ticks: nat, t: int, v: map<nat, string>)
    ensures var e := SubmitEffect(d, ticks, t, v);
      var c := ClickEffect(d, SignInExact, ticks, t, v);
      var fallThrough := TapFirstEffect(d, SignInExact, t, v).result.None? && ScanEffect(d, t, v).result.None?;
      (Await(SignInExact, ticks) in e.requests <==> fallThrough)
      && (fallThrough ==> e.result == if c.result.Ok? then Some(c.result.value) else None)
  {
    var a := TapFirstEffect(d, SignInExact, t, v);
    var b := ScanEffect(d, t, v);
    var c := ClickEffect(d, SignInExact, ticks, t, v);
    TapFirstOnlyTaps(d, SignInExact, t, v);
    assert forall r :: r in b.requests ==> r.Tap?;
    if a.result.None? && b.result.None? {
      assert (b.requests + c.requests)[|b.requests|] == Await(SignInExact, ticks);
      assert (a.requests + (b.requests + c.requests))[|a.requests| + |b.requests|] == Await(SignInExact, ticks);
    }
  }

  /** Matching ignores ASCII case: two elements whose texts differ only in case both mention "sign"
      or neither does. */
  lemma MentionsSignIgnoresCase(d: Device, e1: Element, e2: Element)
    requires SameUpToCase(ShownText(d, e1), ShownText(d, e2))
    ensures MentionsSign(d, e1) <==> MentionsSign(d, e2)
  {
    LowerIgnoresCase(ShownText(d, e1), ShownText(d, e2));
  }

  /** Matching is case-insensitive: a button reading "SIGN UP" mentions "sign". */
  lemma SignMatchIgnoresCase(d: Device, e: Element)
    requires d.TextOf(e) == Ok("SIGN UP")
    ensures MentionsSign(d, e)
  {
    LowerSignUp();
  }

  // ---------------------------------------------------------------- expect_error

  /** `[text] if text else [...]`. */
  function ErrorKeywords(text: Option<string>): (kws: seq<string>)
    ensures text.Some? && text.value != "" ==> kws == [text.value]
    ensures text.None? || text.value == "" ==> kws == DefaultErrorKeywords
    ensures forall j :: 0 <= j < |kws| ==> kws[j] != ""
  {
    if text.Some? && text.value != "" then [text.value] else DefaultErrorKeywords
  }

  /** The probes one round makes: one per non-empty keyword, in order. */
  function KeywordSelectors(kws: seq<string>): seq<Selector> {
    if kws == [] then []
    else (if kws[0] == "" then [] else [TextContains(kws[0])]) + KeywordSelectors(kws[1..])
  }

  /** A round sees something exactly when some non-empty keyword's probe finds an element. */
  lemma {:induction false} KeywordSelectorsShow(d: Device, kws: seq<string>, t: int)
    ensures ShowsAny(d, KeywordSelectors(kws), t) <==>
      exists j :: 0 <= j < |kws| && kws[j] != "" && d.Shows(TextContains(kws[j]), t)
    decreases |kws|
  {
    if kws != [] {
      KeywordSelectorsShow(d, kws[1..], t);
      var head := if kws[0] == "" then [] else [TextContains(kws[0])];
      assert KeywordSelectors(kws) == head + KeywordSelectors(kws[1..]);
      ShowsAnyConcat(d, head, KeywordSelectors(kws[1..]), t);
      assert ShowsAny(d, head, t) <==> kws[0] != "" && d.Shows(TextContains(kws[0]), t) by {
        if head != [] { assert head[0] == TextContains(kws[0]); }
      }
      KeywordsHeadTail(d, kws, t);
    }
  }

  /** Splitting the keyword list at its head splits the existential over it. */
  lemma KeywordsHeadTail(d: Device, kws: seq<string>, t: int)
    requires kws != []
    ensures (exists j :: 0 <= j < |kws| && kws[j] != "" && d.Shows(TextContains(kws[j]), t)) <==>
      (kws[0] != "" && d.Shows(TextContains(kws[0]), t)) ||
      (exists j :: 0 <= j < |kws[1..]| && kws[1..][j] != "" && d.Shows(TextContains(kws[1..][j]), t))
  {
    if exists j :: 0 <= j < |kws| && kws[j] != "" && d.Shows(TextContains(kws[j]), t) {
      var j :| 0 <= j < |kws| && kws[j] != "" && d.Shows(TextContains(kws[j]), t);
      if j > 0 {
        assert kws[1..][j - 1] == kws[j];
      }
    }
    if exists j :: 0 <= j < |kws[1..]| && kws[1..][j] != "" && d.Shows(TextContains(kws[1..][j]), t) {
      var j :| 0 <= j < |kws[1..]| && kws[1..][j] != "" && d.Shows(TextContains(kws[1..][j]), t);
      assert kws[j + 1] == kws[1..][j];
    }
  }

  // ---------------------------------------------------------------- click_google

  function ClickGoogleEffect(d: Device, ticks: nat, t: int, v: map<nat, string>): Effect<bool> {
    var a := ClickEffect(d, GoogleButton, ticks, t, v);
    var b := ClickEffect(d, GoogleText, ticks, t + a.ticks, v);
    if a.result.Ok? then Effect(true, a.requests, a.ticks, v)
    else Effect(b.result.Ok?, a.requests + b.requests, a.ticks + b.ticks, v)
  }

  /** True exactly when one of the two clicks goes through; the plain "Google" lookup is made only
      after the full label failed, and the two waits together last at most twice the default wait. */
  lemma ClickGoogleOutcome(d: Device, ticks: nat, t: int, v: map<nat, string>)
    ensures var a := ClickEffect(d, GoogleButton, ticks, t, v);
      var b := ClickEffect(d, GoogleText, ticks, t + a.ticks, v);
      var e := ClickGoogleEffect(d, ticks, t, v);
      (e.result <==> a.result.Ok? || b.result.Ok?)
      && (Await(GoogleText, ticks) in e.requests ==> a.result.Err?)
      && e.ticks <= 2 * ticks
  {
    var a := ClickEffect(d, GoogleButton, ticks, t, v);
    assert Await(GoogleText, ticks) != Await(GoogleButton, ticks);
  }

  /** Whether a blocking lookup found something, as a flag. */
  function PresentEffect(d: Device, sel: Selector, ticks: nat, t: int, v: map<nat, string>): Effect<bool> {
    var f := FindEffect(d, sel, ticks, t, v);
    Effect(f.result.Ok?, f.requests, f.ticks, f.values)
  }

  // ---------------------------------------------------------------- the page

  /** One round of `expect_error`: a probe for each non-empty keyword at the current tick, stopping
      at the first that finds an element. */
  method ProbeKeywords(d: Device, keywords: seq<string>) returns (hit: bool)
    ensures hit <==> ShowsAny(d, KeywordSelectors(keywords), d.clock)
  {
    for i := 0 to |keywords|
      invariant forall j :: 0 <= j < i && keywords[j] != "" ==> !d.Shows(TextContains(keywords[j]), d.clock)
    {
      var kw := keywords[i];
      if kw == "" {
        continue;
      }
      var probe := d.ElementsAt(TextContains(kw), d.clock);
      if probe.Ok? && probe.value != [] {
        KeywordSelectorsShow(d, keywords, d.clock);
        return true;
      }
    }
    KeywordSelectorsShow(d, keywords, d.clock);
    return false;
  }

  /** `els[0].clear(); els[0].send_keys(email); els[1].clear(); els[1].send_keys(password)`. */
  method TypePair(d: Device, first: Element, second: Element, email: string, password: string) returns (r: Result<(), Error>)
    modifies d
    ensures d.Performed(TypePairEffect(d, first, second, email, password, old(d.values)), r)
  {
    var a := TypeInto(d, first, email);
    if a.Err? {
      return Err(a.error);
    }
    var b := TypeInto(d, second, password);
    Regroup(old(d.log), TypeIntoEffect(d, first, email, old(d.values)).requests,
      TypeIntoEffect(d, second, password, TypeIntoEffect(d, first, email, old(d.values)).values).requests);
    if b.Err? {
      return Err(b.error);
    }
    return Ok(());
  }

  class AuthPage {
    const base: BasePage

    constructor (base: BasePage)
      ensures this.base == base
    {
      this.base := base;
    }

    /** `open_email_signin()`. */
    method OpenEmailSignin() returns (r: Result<Element, Error>)
      modifies base.driver
      ensures base.driver.Performed(OpenEmailSigninEffect(base.driver, base.WaitTicks(), old(base.driver.clock), old(base.driver.values)), r)
    {
      var d := base.driver;
      ghost var t, v := d.clock, d.values;
      TapFirstOnlyTaps(d, SignInWithEmail, t, v);
      TapFirstOnlyTaps(d, SignInContains, t, v);
      ghost var e := OpenEmailSigninEffect(d, base.WaitTicks(), t, v);
      ghost var a := TapFirstEffect(d, SignInWithEmail, t, v);
      ghost var b := TapFirstEffect(d, SignInContains, t, v);
      var hit := ProbeAndTap(d, SignInWithEmail);
      if hit.Some? {
        return Ok(hit.value);
      }
      assert d.log == old(d.log) + a.requests && d.clock == t && d.values == v;
      hit := ProbeAndTap(d, SignInContains);
      if hit.Some? {
        return Ok(hit.value);
      }
      assert d.log == old(d.log) + a.requests + b.requests && d.clock == t && d.values == v;
      r := base.Click(SignInContains);
      assert e == After(a.requests + b.requests, 0, ClickEffect(d, SignInContains, base.WaitTicks(), t, v));
    }

    /** `fill_credentials(email, password)`. */
    method FillCredentials(email: string, password: string) returns (r: Result<(), Error>)
      modifies base.driver
      ensures base.driver.Performed(FillCredentialsEffect(base.driver, email, password, base.WaitTicks(), old(base.driver.clock), old(base.driver.values)), r)
    {
      var found := base.driver.ElementsAt(ClassName(EditTextClass), base.driver.clock);
      if found.Err? {
        return Err(found.error);
      }
      var els := found.value;
      if |els| >= 2 {
        r := TypePair(base.driver, els[0], els[1], email, password);
        return;
      }
      r := FillPlaceholders(email, password);
    }

    /** The placeholder fallback of `fill_credentials`: both lookups are made whatever the first does. */
    method FillPlaceholders(email: string, password: string) returns (r: Result<(), Error>)
      modifies base.driver
      ensures base.driver.Performed(PlaceholdersEffect(base.driver, email, password, base.WaitTicks(), old(base.driver.clock), old(base.driver.values)), r)
    {
      var d := base.driver;
      ghost var t, v := d.clock, d.values;
      ghost var e1 := SendKeysEffect(d, EmailPlaceholder, email, base.WaitTicks(), t, v);
      var _ := base.SendKeys(EmailPlaceholder, email);
      ghost var e2 := SendKeysEffect(d, PasswordPlaceholder, password, base.WaitTicks(), d.clock, d.values);
      var _ := base.SendKeys(PasswordPlaceholder, password);
      Regroup(old(d.log), e1.requests, e2.requests);
      r := Ok(());
    }

    /** `submit()`. */
    method Submit() returns (r: Option<Element>)
      modifies base.driver
      ensures base.driver.Performed(SubmitEffect(base.driver, base.WaitTicks(), old(base.driver.clock), old(base.driver.values)), r)
    {
      var d := base.driver;
      ghost var t, v := d.clock, d.values;
      TapFirstQuick(d, SignInExact, t, v);
      var hit := ProbeAndTap(d, SignInExact);
      if hit.Some? {
        return hit;
      }
      ghost var a := TapFirstEffect(d, SignInExact, t, v);
      assert d.clock == t && d.values == v;
      r := SubmitFallback();
      ghost var b := SubmitFallbackEffect(d, base.WaitTicks(), t, v);
      Regroup(old(d.log), a.requests, b.requests);
      assert SubmitEffect(d, base.WaitTicks(), t, v) == After(a.requests, 0, b);
    }

    /** The scan and the blocking click of `submit`, once the exact-text probe has missed. */
    method SubmitFallback() returns (r: Option<Element>)
      modifies base.driver
      ensures base.driver.Performed(SubmitFallbackEffect(base.driver, base.WaitTicks(), old(base.driver.clock), old(base.driver.values)), r)
    {
      var d := base.driver;
      ScanOnlyTaps(d, d.clock, d.values);
      var answer := Scan(d);
      if answer.Some? {
        return answer.value;
      }
      var c := base.Click(SignInExact);
      Regroup(old(d.log), ScanEffect(d, old(d.clock), old(d.values)).requests,
        ClickEffect(d, SignInExact, base.WaitTicks(), old(d.clock), old(d.values)).requests);
      r := if c.Ok? then Some(c.value) else None;
    }

    /** `is_signin_affordance_present(timeout)`: the timeout argument is not used; the page's
        default wait applies. */
    method IsSigninAffordancePresent(timeout: int) returns (present: bool)
      modifies base.driver
      ensures base.driver.Performed(PresentEffect(base.driver, SignInWithEmail, base.WaitTicks(), old(base.driver.clock), old(base.driver.values)), present)
    {
      var r := base.Find(SignInWithEmail);
      present := r.Ok?;
    }

    /** `is_logged_in(timeout)`: the timeout argument is not used; the page's default wait applies. */
    method IsLoggedIn(timeout: int) returns (loggedIn: bool)
      modifies base.driver
      ensures base.driver.Performed(PresentEffect(base.driver, HomeMarker, base.WaitTicks(), old(base.driver.clock), old(base.driver.values)), loggedIn)
    {
      var r := base.Find(HomeMarker);
      loggedIn := r.Ok?;
    }

    /** `expect_error(text, timeout)`: polls every keyword each round until one shows or `timeout`
        seconds have passed. */
    method ExpectError(text: Option<string>, timeout: int) returns (found: bool)
      modifies base.driver
      ensures base.driver.Performed(PollEffect(base.driver, KeywordSelectors(ErrorKeywords(text)),
        old(base.driver.clock), old(base.driver.clock) + Ticks(timeout), old(base.driver.values)), found)
    {
      var d := base.driver;
      var keywords := if text.Some? && text.value != "" then [text.value] else DefaultErrorKeywords;
      ghost var sels := KeywordSelectors(keywords);
      var end := d.clock + Ticks(timeout);
      while d.clock < end
        invariant d.log == old(d.log) && d.values == old(d.values)
        invariant old(d.clock) <= d.clock && (d.clock <= end || d.clock == old(d.clock))
        invariant FirstShowing(d, sels, old(d.clock), end) == FirstShowing(d, sels, d.clock, end)
        decreases end - d.clock
      {
        var now := d.clock;
        var hit := ProbeKeywords(d, keywords);
        if hit {
          PollFoundAt(d, sels, old(d.clock), now, end, old(d.values));
          return true;
        }
        FirstShowingStep(d, sels, now, end);
        d.Sleep(1);
      }
      PollMissedAll(d, sels, old(d.clock), d.clock, end, old(d.values));
      return false;
    }

    /** `click_biometric()`. */
    method ClickBiometric() returns (clicked: bool)
      modifies base.driver
      ensures base.driver.Performed(TapAnyEffect(base.driver, BiometricCandidates, old(base.driver.clock), old(base.driver.values)), clicked)
    {
      clicked := TapAny(base.driver, BiometricCandidates);
    }

    /** `click_google()`. */
    method ClickGoogle() returns (clicked: bool)
      modifies base.driver
      ensures base.driver.Performed(ClickGoogleEffect(base.driver, base.WaitTicks(), old(base.driver.clock), old(base.driver.values)), clicked)
    {
      var r := base.Click(GoogleButton);
      if r.Ok? {
        return true;
      }
      r := base.Click(GoogleText);
      clicked := r.Ok?;
    }
  }
}

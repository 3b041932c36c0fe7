/** How the pages spell each selector for Appium: a locator strategy and a selector string, with the
    text interpolated verbatim. `Parse` reads the strings back, which shows that no two selectors the
    pages can build share a spelling. */
module Locators {
  import opened Wrappers
  import opened Strings
  import opened Ui

  datatype Strategy = AndroidUiAutomator | IosPredicate | ClassNameStrategy | AccessibilityIdStrategy

  const TextContainsPrefix := "new UiSelector().textContains(\""
  const TextPrefix := "new UiSelector().text(\""
  const DescContainsPrefix := "new UiSelector().descriptionContains(\""
  const ClassNamePrefix := "new UiSelector().className(\""
  const InstanceInfix := "\").instance("
  const ClickableLocator := "new UiSelector().clickable(true)"
  const IosValuePrefix := "value CONTAINS \""
  const Quoted := "\")"

  function DigitChar(d: nat): char
    requires d < 10
  {
    "0123456789"[d]
  }

  predicate IsDigit(c: char) {
    '0' <= c <= '9'
  }

  /** Decimal spelling of a natural number, as an f-string writes it. */
  function NatToString(n: nat): (s: string)
    ensures s != [] && forall i :: 0 <= i < |s| ==> IsDigit(s[i])
  {
    if n < 10 then [DigitChar(n)] else NatToString(n / 10) + [DigitChar(n % 10)]
  }

  function ParseDigits(s: string): nat
    requires forall i :: 0 <= i < |s| ==> IsDigit(s[i])
  {
    if s == [] then 0
    else
      assert IsDigit(s[|s| - 1]);
      10 * ParseDigits(s[..|s| - 1]) + (s[|s| - 1] as int - '0' as int)
  }

  lemma {:induction false} DigitsRoundTrip(n: nat)
    ensures ParseDigits(NatToString(n)) == n
  {
    var s := NatToString(n);
    if n >= 10 {
      DigitsRoundTrip(n / 10);
      assert s[..|s| - 1] == NatToString(n / 10);
    }
  }

  /** Number of decimal digits at the end of `s`. */
  function TrailingDigits(s: string): (k: nat)
    ensures k <= |s| && forall i :: |s| - k <= i < |s| ==> IsDigit(s[i])
    ensures k < |s| ==> !IsDigit(s[|s| - 1 - k])
  {
    if s != [] && IsDigit(s[|s| - 1]) then 1 + TrailingDigits(s[..|s| - 1]) else 0
  }

  lemma {:induction false} TrailingDigitsOf(a: string, digits: string)
    requires a != [] && !IsDigit(a[|a| - 1])
    requires forall i :: 0 <= i < |digits| ==> IsDigit(digits[i])
    ensures TrailingDigits(a + digits) == |digits|
    decreases |digits|
  {
    if digits == [] {
      assert a + digits == a;
    } else {
      assert (a + digits)[..|a + digits| - 1] == a + digits[..|digits| - 1];
      TrailingDigitsOf(a, digits[..|digits| - 1]);
    }
  }

  /** `s` is `prefix + middle + suffix` for some `middle`. */
  predicate Wraps(s: string, prefix: string, suffix: string) {
    |prefix| + |suffix| <= |s| && s[..|prefix|] == prefix && s[|s| - |suffix|..] == suffix
  }

  function Inner(s: string, prefix: string, suffix: string): string
    requires Wraps(s, prefix, suffix)
  {
    s[|prefix|..|s| - |suffix|]
  }

  /** The (strategy, string) pair the pages pass to `find_element(s)` for a selector. */
  function Locator(sel: Selector): (Strategy, string) {
    match sel
    case TextContains(t) => (AndroidUiAutomator, TextContainsPrefix + t + Quoted)
    case TextExact(t) => (AndroidUiAutomator, TextPrefix + t + Quoted)
    case DescContains(s) => (AndroidUiAutomator, DescContainsPrefix + s + Quoted)
    case ClassInstance(n, k) => (AndroidUiAutomator, ClassNamePrefix + n + InstanceInfix + NatToString(k) + ")")
    case Clickable => (AndroidUiAutomator, ClickableLocator)
    case IosValueContains(v) => (IosPredicate, IosValuePrefix + v + "\"")
    case ClassName(n) => (ClassNameStrategy, n)
    case AccessibilityId(s) => (AccessibilityIdStrategy, s)
  }

  /** `className("…").instance(n)`: the class name and the index, read from the right. */
  function ParseInstance(s: string): Option<Selector> {
    if !Wraps(s, ClassNamePrefix, ")") then None
    else
      var body := Inner(s, ClassNamePrefix, ")");
      var k := TrailingDigits(body);
      var head := body[..|body| - k];
      if k == 0 || !Wraps(head, "", InstanceInfix) then None
      else Some(ClassInstance(Inner(head, "", InstanceInfix), ParseDigits(body[|body| - k..])))
  }

  /** Reads a locator back into the selector it spells, if it spells one. */
  function Parse(strategy: Strategy, s: string): Option<Selector> {
    match strategy
    case ClassNameStrategy => Some(ClassName(s))
    case AccessibilityIdStrategy => Some(AccessibilityId(s))
    case IosPredicate =>
      if Wraps(s, IosValuePrefix, "\"") then Some(IosValueContains(Inner(s, IosValuePrefix, "\""))) else None
    case AndroidUiAutomator =>
      if s == ClickableLocator then Some(Clickable)
      else if Wraps(s, TextContainsPrefix, Quoted) then Some(TextContains(Inner(s, TextContainsPrefix, Quoted)))
      else if Wraps(s, TextPrefix, Quoted) then Some(TextExact(Inner(s, TextPrefix, Quoted)))
      else if Wraps(s, DescContainsPrefix, Quoted) then Some(DescContains(Inner(s, DescContainsPrefix, Quoted)))
      else ParseInstance(s)
  }

  lemma WrapsConcat(prefix: string, middle: string, suffix: string)
    ensures Wraps(prefix + middle + suffix, prefix, suffix)
    ensures Inner(prefix + middle + suffix, prefix, suffix) == middle
  {
    var s := prefix + middle + suffix;
    assert s[..|prefix|] == prefix;
    assert s[|s| - |suffix|..] == suffix;
    assert s[|prefix|..|s| - |suffix|] == middle;
  }

  lemma InstanceRoundTrip(n: string, k: nat)
    ensures ParseInstance(Locator(ClassInstance(n, k)).1) == Some(ClassInstance(n, k))
  {
    var s := Locator(ClassInstance(n, k)).1;
    var digits := NatToString(k);
    var body := n + InstanceInfix + digits;
    WrapsConcat(ClassNamePrefix, body, ")");
    assert ClassNamePrefix + n + InstanceInfix + digits + ")" == ClassNamePrefix + body + ")";
    TrailingDigitsOf(n + InstanceInfix, digits);
    assert body[..|body| - |digits|] == n + InstanceInfix;
    assert body[|body| - |digits|..] == digits;
    WrapsConcat("", n, InstanceInfix);
    assert "" + n + InstanceInfix == n + InstanceInfix;
    DigitsRoundTrip(k);
  }

  /** A locator that starts with the class-name prefix is none of the other UiAutomator forms. */
  lemma InstanceIsNoOtherForm(s: string)
    requires |s| > |ClassNamePrefix| && s[..|ClassNamePrefix|] == ClassNamePrefix
    ensures s != ClickableLocator
    ensures !Wraps(s, TextContainsPrefix, Quoted) && !Wraps(s, TextPrefix, Quoted)
    ensures !Wraps(s, DescContainsPrefix, Quoted)
  {
    assert s[17] == 'c' && s[19] == 'a';
  }

  lemma TextContainsRoundTrip(t: string)
    ensures Parse(AndroidUiAutomator, TextContainsPrefix + t + Quoted) == Some(TextContains(t))
  {
    var s := TextContainsPrefix + t + Quoted;
    WrapsConcat(TextContainsPrefix, t, Quoted);
    assert s[17] == 't' && s != ClickableLocator;
  }

  lemma TextRoundTrip(t: string)
    ensures Parse(AndroidUiAutomator, TextPrefix + t + Quoted) == Some(TextExact(t))
  {
    var s := TextPrefix + t + Quoted;
    WrapsConcat(TextPrefix, t, Quoted);
    assert s[17] == 't' && s != ClickableLocator;
    assert s[21] == '(' && TextContainsPrefix[21] == 'C';
    assert !Wraps(s, TextContainsPrefix, Quoted);
  }

  lemma DescContainsRoundTrip(t: string)
    ensures Parse(AndroidUiAutomator, DescContainsPrefix + t + Quoted) == Some(DescContains(t))
  {
    var s := DescContainsPrefix + t + Quoted;
    WrapsConcat(DescContainsPrefix, t, Quoted);
    assert s[17] == 'd' && s != ClickableLocator;
    assert !Wraps(s, TextContainsPrefix, Quoted);
    assert !Wraps(s, TextPrefix, Quoted);
  }

  /** Every selector's locator string reads back as that selector: the builders lose nothing, and
      `find_by_text_contains(t)` and `find_by_desc_contains(t)` build exactly
      `new UiSelector().textContains("t")` and `new UiSelector().descriptionContains("t")`. */
  lemma LocatorRoundTrip(sel: Selector)
    ensures Parse(Locator(sel).0, Locator(sel).1) == Some(sel)
  {
    match sel
    case TextContains(t) => TextContainsRoundTrip(t);
    case TextExact(t) => TextRoundTrip(t);
    case DescContains(t) => DescContainsRoundTrip(t);
    case ClassInstance(n, k) =>
      var s := Locator(sel).1;
      assert s == ClassNamePrefix + (n + InstanceInfix + NatToString(k) + ")");
      assert s[..|ClassNamePrefix|] == ClassNamePrefix;
      InstanceIsNoOtherForm(s);
      InstanceRoundTrip(n, k);
    case Clickable =>
    case IosValueContains(v) => WrapsConcat(IosValuePrefix, v, "\"");
    case ClassName(_) =>
    case AccessibilityId(_) =>
  }
}

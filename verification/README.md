# Appium UI-test harness: element resolution, fallbacks and polling

This project models the decision layer of a mobile UI-test harness written in Python. The
harness drives an app through Appium and adb. On top of that sit page objects and helpers that
resolve on-screen elements through ordered cascades of locators. They fall back from a quick
probe to a blocking wait, from a direct tap to a gesture, and from typing to value assignment.
They also poll the screen against a deadline and parse adb's text output.

The model has these parts:

- **`Ui`**: the screen as a forest of `Element` records, with text, description, class,
  clickable flag, bounds, the "enabled" attribute, children and an id. `Selector` is the locator
  forms the harness uses. A query walks the tree in document order and keeps the matching nodes.
- **`Locators`**: the UiAutomator, iOS-predicate, class-name and accessibility-id strings each
  selector is sent as. A parser recovers every selector from its string.
- **`Driver`**: the session as a class `Device`.
  - What the screen shows at each tick is fixed (`timeline`), and so is the set of calls that raise (`faults`).
  - What changes: the clock (one tick = 0.5 s, the harness's polling step), field contents by element id, and the log of calls that wait or act.
  - Probes and element reads are pure functions of the tick.
  - A blocking wait succeeds at once when its element is present and otherwise uses up its whole budget.
  - `Effect` records what a run of calls does: result, logged calls, ticks used and final field contents. `Performed` ties a method's run to one.
- **`UiHelpers`, `Adb`, `Base`, `Auth`, `Chat`**: the five source files.
  - Each page method changes the device in place and is proved against an effect function.
  - Lemmas state the ordering and fallback rules about those functions.
  - The adb wrapper takes the process runner as a parameter `run`.
- **`Strings`**: the Python string operations the harness relies on: `strip`, `split`,
  `splitlines`, `lower` and `in`, with Python's whitespace and line-break sets.

Behaviours of the code worth knowing, which the model keeps:

- `submit` returns None after tapping a clickable whose text mentions "sign". Every other tier that taps or clicks returns the element.
- `fill_credentials` takes the two-field path for two or more EditText fields.
- `BasePage.send_keys` has no `set_value` fallback. Only `send_message` has one.
- `is_signin_affordance_present` and `is_logged_in` ignore their `timeout` argument and wait with the page's default.

## Model

| member | source | states |
|---|---|---|
| UiHelpers.ClearInputs | python/src/utils/ui_helpers.py:6-18 | a failing query changes nothing; otherwise every field of the class is cleared then set to "", in order, each failure skipping only that field, and the log and field contents are exactly those of that run |
| UiHelpers.ClearOne | python/src/utils/ui_helpers.py:9-16 | one field: its clear, then `set_value("")` only when the clear went through; a rejected `set_value` leaves the field as the clear left it |
| UiHelpers.ClearedEmpties | python/src/utils/ui_helpers.py:8-16 | every field whose clear goes through ends up empty, whatever happens to the other fields |
| UiHelpers.ClearedKeeps | python/src/utils/ui_helpers.py:8-16 | a field not in the list, or whose clear is rejected, keeps its contents |
| UiHelpers.EveryFieldCleared | python/src/utils/ui_helpers.py:8-16 | every matched field is asked to clear, even after earlier fields failed |
| UiHelpers.AttrEnabledCases | python/src/utils/ui_helpers.py:21-31 | a readable non-None "enabled" attribute decides alone, true exactly for "true", "True", "1"; otherwise `is_enabled()` decides, and a failing `is_enabled()` means false |
| UiHelpers.FirstHolding | python/src/utils/ui_helpers.py:59-67 | the index of the first clickable whose readable bounds contain the centre, inclusive; no earlier clickable holds it, and unreadable bounds are passed over |
| UiHelpers.FirstLabelled | python/src/utils/ui_helpers.py:69-75 | the index of the first clickable with an exact-text descendant; no earlier one has it, and a failing descendant query is passed over |
| UiHelpers.HoldingIndex | python/src/utils/ui_helpers.py:59-67 | the centre loop stops at exactly the first clickable holding the centre, or runs off the end |
| UiHelpers.LabelledIndex | python/src/utils/ui_helpers.py:70-75 | the descendant loop stops at exactly the first clickable with the text below it, or runs off the end |
| UiHelpers.FindClickableContainerForText | python/src/utils/ui_helpers.py:34-77 | None when the exact-text element is missing; else the first clickable holding its doubled centre (missing keys read as 0), else the first with the text below it, else None; a failing clickable query means no clickables |
| UiHelpers.ButtonAroundLabel | python/src/utils/ui_helpers.py:48-50 | a label at (10,10,100,20) has doubled centre (120,40), inside (0,0,200,50) and outside (300,300,10,10), so the enclosing button is chosen in either order |
| Adb.Argv | python/src/utils/adb.py:6-9 | the command starts with "adb", has "-s device" next exactly when the device is given and non-empty, and ends with the arguments |
| Adb.RunAdbCmd | python/src/utils/adb.py:5-13 | success exactly for exit status 0, yielding stripped stdout; otherwise an error carrying "adb failed: " with stdout and stderr |
| Adb.ListedMembership | python/src/utils/adb.py:18 | keeps exactly the lines that are not blank and do not start with "List of devices", in order |
| Adb.ListedAppend | python/src/utils/adb.py:18 | filtering a concatenation of lines is filtering each part and concatenating, so the kept lines stay in output order |
| Adb.ListDevices | python/src/utils/adb.py:16-20 | the serials parsed from the stripped output of `adb devices`, or the command's error |
| Adb.DevicesMembership | python/src/utils/adb.py:18-19 | a serial is reported iff some output line is listed, names a device ("device" in it or two tokens) and starts with that serial |
| Adb.SerialsAppend | python/src/utils/adb.py:19 | the serials keep the order of the lines |
| Adb.SerialsAreWords | python/src/utils/adb.py:19 | every reported serial is a single whitespace-free token |
| Adb.DevicesAreWords | python/src/utils/adb.py:18-19 | every serial `list_devices` parses from any output is a single whitespace-free token |
| Adb.RowIsNotHeader | python/src/utils/adb.py:18 | a "serial TAB state" row never counts as the header |
| Adb.RowYieldsSerial | python/src/utils/adb.py:18-19 | a "serial TAB state" row is kept and yields its serial |
| Adb.RowsListed | python/src/utils/adb.py:18 | a run of "serial TAB state" rows passes the line filter whole |
| Adb.RowsYieldSerials | python/src/utils/adb.py:19 | a run of rows yields exactly its serials, in order |
| Adb.TypicalListing | python/src/utils/adb.py:13-20 | adb's usual listing (header, one row per device, trailing blank lines) yields exactly the serials, in order |
| Adb.GetFirstDevice | python/src/utils/adb.py:23-25 | the first reported serial, None iff no serial is reported, or the command's error |
| Adb.GetWifiState | python/src/utils/adb.py:28-36 | reads the wifi_on setting on the given device: true for "1", false for "0", None otherwise, or the command's error |
| Adb.StrippedWifiState | python/src/utils/adb.py:31 | stripping the output a second time does not change the reading |
| Adb.WifiStateReadings | python/src/utils/adb.py:31-36 | whitespace around "1" or "0" does not matter; only those two give a reading |
| Adb.WifiSwitch | python/src/utils/adb.py:40-41 | the switch command is "shell svc wifi" followed by "enable" iff enabling, else "disable" |
| Adb.ToggleWifi | python/src/utils/adb.py:39-41 | succeeds exactly when that switch command exits with 0 |
| Adb.OpenWifiSettings | python/src/utils/adb.py:44-45 | succeeds exactly when starting the Wi-Fi settings activity exits with 0 |
| Strings.TrimStartSpec | python/src/utils/adb.py:13 | the left half of `strip()` drops exactly a whitespace-only prefix and leaves a non-whitespace first character |
| Strings.TrimEndSpec | python/src/utils/adb.py:13 | the right half of `strip()` drops exactly a whitespace-only suffix and leaves a non-whitespace last character |
| Strings.StripSlice | python/src/utils/adb.py:13 | `strip()` is a slice of its input with whitespace-only text cut on both sides and non-whitespace ends |
| Strings.StripIdempotent | python/src/utils/adb.py:31 | stripping twice is stripping once |
| Strings.StripPadded | python/src/utils/adb.py:13 | whitespace padding around a core with non-whitespace ends strips to the core |
| Strings.SplitWords | python/src/utils/adb.py:19 | every token of `split()` is non-empty and whitespace-free |
| Strings.SplitEmptyIffBlank | python/src/utils/adb.py:18-19 | `split()` is empty exactly for whitespace-only text, so a kept line has a first token |
| Strings.FirstToken | python/src/utils/adb.py:19 | a word followed by whitespace is the first token |
| Strings.TwoTokens | python/src/utils/adb.py:19 | two words separated by whitespace give at least two tokens |
| Strings.SplitLines | python/src/utils/adb.py:18 | no line of `splitlines()` holds a line break |
| Strings.SplitJoinLines | python/src/utils/adb.py:18 | `splitlines()` recovers lines joined with "\n" when none holds a break and the last is non-empty |
| Strings.LowerSpec | python/src/pages/auth_page.py:71 | `lower()` keeps the length, maps each ASCII capital to its small letter and changes no other character |
| Strings.LowerIgnoresCase | python/src/pages/auth_page.py:71 | texts that differ only in ASCII case lower to the same text |
| Strings.ContainsAt | python/src/pages/auth_page.py:71 | a substring occurring at some index makes `in` true |
| Ui.SelectIsFilter | python/src/utils/ui_helpers.py:55 | a query returns only matching nodes of the screen, and every one of them unless it asks for a single instance |
| Ui.FilterMembership | python/src/utils/ui_helpers.py:55 | filtering keeps exactly the nodes that match |
| Locators.LocatorRoundTrip | python/src/pages/base_page.py:44-50 | every selector is recovered from the locator string it is sent as |
| Locators.TextContainsRoundTrip | python/src/pages/base_page.py:45 | `textContains("t")` is read back as TextContains(t), whatever t holds |
| Locators.DescContainsRoundTrip | python/src/pages/base_page.py:49 | `descriptionContains("t")` is read back as DescContains(t) |
| Locators.TextRoundTrip | python/src/utils/ui_helpers.py:42 | `text("t")` is read back as TextExact(t) |
| Locators.InstanceRoundTrip | python/src/pages/chat_page.py:19 | `className("c").instance(k)` is read back as ClassInstance(c, k) |
| Locators.DigitsRoundTrip | python/src/pages/chat_page.py:19 | a non-negative instance number is read back from its decimal digits |
| Driver.Device.WaitPresent | python/src/pages/base_page.py:14 | a blocking presence wait returns the first match present at its start, else fails after using its whole budget, and is logged |
| Driver.Device.Click | python/src/pages/auth_page.py:18 | a tap goes through unless it is a faulty request, and is logged either way |
| Driver.Device.Clear | python/src/utils/ui_helpers.py:10 | a clear that goes through empties the field; a rejected one changes nothing |
| Driver.Device.SendKeys | python/src/pages/base_page.py:24 | typing appends to what the field holds; a rejected one changes nothing |
| Driver.Device.SetValue | python/src/utils/ui_helpers.py:12 | assigning replaces what the field holds; a rejected one changes nothing |
| Driver.Device.PressKeycode | python/src/pages/chat_page.py:76 | a key press goes through unless faulty, and is logged |
| Driver.Device.ClickGesture | python/src/pages/chat_page.py:25 | a gesture goes through unless faulty, and is logged |
| Driver.Device.Sleep | python/src/pages/auth_page.py:118 | sleeping moves only the clock |
| Driver.FirstShowingSpec | python/src/pages/auth_page.py:106-119 | the first tick of the window at which something shows, with nothing before it; None only when nothing shows in the whole window |
| Driver.FirstShowingIsFirst | python/src/pages/auth_page.py:106-115 | a tick that shows with nothing showing before it is the one the poller stops at |
| Driver.PollOutcome | python/src/pages/chat_page.py:91-100 | a poller is true iff something shows within its window; it stops at the first such tick, else it spends the whole window |
| Driver.PollHitAtOnce | python/src/pages/auth_page.py:107-115 | something on screen at the start is seen with no sleep and no time passing |
| Driver.PollFoundAt | python/src/pages/auth_page.py:107-115 | a poller that first sees a match at tick k returns true after k - start ticks |
| Driver.PollMissedAll | python/src/pages/auth_page.py:106-119 | a poller whose clock reached the end of the window with no match returns false after the ticks it slept |
| Base.BasePage.constructor | python/src/pages/base_page.py:9-11 | the page keeps its driver and default wait |
| Base.BasePage.Find | python/src/pages/base_page.py:13-14 | a blocking lookup under the default wait |
| Base.BasePage.Click | python/src/pages/base_page.py:16-19 | a blocking lookup, then a tap on what it found |
| Base.ClickReturnsFound | python/src/pages/base_page.py:16-19 | `click` succeeds iff the lookup finds an element and tapping it goes through, and then returns that same element |
| Base.BasePage.SendKeys | python/src/pages/base_page.py:21-25 | a blocking lookup, then clear and typing, the first failure ending the call |
| Base.TypeInto | python/src/pages/base_page.py:22-24 | clear and type into a found field, letting the first failure through |
| Base.SendKeysReplaces | python/src/pages/base_page.py:21-25 | on success the clear came before the typing, the field holds exactly the text, and the found element is returned |
| Base.BasePage.FindOneOf | python/src/pages/base_page.py:27-42 | the loop with `last_ex` does what the first-of-several lookup describes |
| Base.FindOneOfFirstHit | python/src/pages/base_page.py:32-35 | the result is what the first selector present in its turn finds; selector k is tried at start + k waits, and no later selector is tried |
| Base.FindOneOfAllMiss | python/src/pages/base_page.py:36-41 | when every selector misses, the last selector's failure is re-raised after every wait ran in full |
| Base.TurnIsProduct | python/src/pages/base_page.py:33-38 | selector j starts j whole waits after the call, since every earlier lookup timed out |
| Base.FindOneOfNoSelectors | python/src/pages/base_page.py:42 | an empty list fails with "no selectors" at once |
| Base.BasePage.FindByTextContains | python/src/pages/base_page.py:44-46 | a blocking lookup for a text-contains selector |
| Base.BasePage.FindByDescContains | python/src/pages/base_page.py:48-50 | a blocking lookup for a description-contains selector |
| Base.WaitTimeout | python/src/pages/base_page.py:61 | the default wait when no timeout is given, otherwise the given one, a timeout of 0 included |
| Base.BasePage.WaitFor | python/src/pages/base_page.py:60-62 | a blocking lookup under that wait |
| Base.ProbeAndTap | python/src/pages/auth_page.py:15-21 | a quick probe and a tap on its first hit, failures caught |
| Base.FindAndTap | python/src/pages/chat_page.py:126-137 | `find_element` and a tap, failures caught, act as a probe and a tap on its first hit |
| Base.TapFirstOutcome | python/src/pages/auth_page.py:15-21 | a quick tier hits iff its probe finds something and the tap goes through, returning the first hit; a probe that raises or finds nothing sends nothing |
| Base.TapAnyOutcome | python/src/pages/auth_page.py:133-141 | a cascade of quick tiers succeeds iff some tier can tap, takes no time, and leaves field contents alone |
| Base.TapAnyFirstHit | python/src/pages/auth_page.py:133-141 | when tier k is the first whose tap goes through, the cascade succeeds having sent exactly the requests of tiers 0..k, so no later tier is tried |
| Base.TapAnyAllMiss | python/src/pages/chat_page.py:102-117 | when no tier can tap, the cascade fails having tried every tier in order |
| Base.TapAny | python/src/pages/auth_page.py:133-141 | the candidate loop does what the cascade of quick tiers describes |
| Auth.TapFirstOnlyTaps | python/src/pages/auth_page.py:15-29 | a quick tier only taps, takes no time and changes no field |
| Auth.AuthPage.OpenEmailSignin | python/src/pages/auth_page.py:13-32 | the two quick tiers, then the blocking "Sign In" click |
| Auth.OpenEmailSigninTiers | python/src/pages/auth_page.py:15-32 | the blocking "Sign In" lookup runs iff both quick tiers miss; a first-tier hit is returned as is, and a second-tier hit after only the first tier's probe |
| Auth.AuthPage.FillCredentials | python/src/pages/auth_page.py:34-50 | the field-pair path or the placeholder path, with the query's failure and the pair path's failures propagating |
| Auth.TypePair | python/src/pages/auth_page.py:36-39 | clear and type into the first field, then the second; the first failure ends the run |
| Auth.AuthPage.FillPlaceholders | python/src/pages/auth_page.py:41-50 | both placeholder lookups run, each failure swallowed |
| Auth.FillTwoFields | python/src/pages/auth_page.py:36-40 | with two or more fields and no failures, field 0 holds the email, field 1 the password, with no waiting and no placeholder lookup |
| Auth.FillFallbackTriesBoth | python/src/pages/auth_page.py:43-50 | with fewer than two fields both placeholders are tried, whatever happens to the first, and nothing fails |
| Auth.FirstMentioningSign | python/src/pages/auth_page.py:65-71 | the first clickable whose lowered text (empty if unreadable) contains "sign", with none before it |
| Auth.FirstSignIndex | python/src/pages/auth_page.py:65-73 | the scan loop finds exactly that index |
| Auth.Scan | python/src/pages/auth_page.py:63-78 | the clickable scan taps the first "sign" match and ends with None, else taps the first clickable and ends with it |
| Auth.AuthPage.Submit | python/src/pages/auth_page.py:52-84 | the exact-text tier, the scan, then the blocking exact-text click |
| Auth.AuthPage.SubmitFallback | python/src/pages/auth_page.py:63-84 | the clickable scan, then the blocking exact-text click when the scan taps nothing |
| Auth.SubmitKeywordTap | python/src/pages/auth_page.py:64-73 | the first clickable mentioning "sign" is the one tapped, and submit then returns None |
| Auth.SubmitFirstClickable | python/src/pages/auth_page.py:74-76 | with no clickable mentioning "sign", the first clickable is tapped and returned |
| Auth.SubmitWaitsLast | python/src/pages/auth_page.py:80-84 | the blocking click runs iff both quick tiers fall through, and its failure yields None |
| Auth.SignMatchIgnoresCase | python/src/pages/auth_page.py:71 | "SIGN UP" mentions "sign" |
| Auth.MentionsSignIgnoresCase | python/src/pages/auth_page.py:66-71 | whether an element mentions "sign" does not depend on the ASCII case of its text |
| Auth.AuthPage.IsSigninAffordancePresent | python/src/pages/auth_page.py:86-90 | whether "Sign in with email" appears within the page's default wait |
| Auth.AuthPage.IsLoggedIn | python/src/pages/auth_page.py:92-98 | whether the "home" marker appears within the page's default wait |
| Auth.ErrorKeywords | python/src/pages/auth_page.py:105 | [text] when text is given and non-empty, else the five default keywords; none is empty |
| Auth.KeywordSelectorsShow | python/src/pages/auth_page.py:108-117 | a round sees something iff some non-empty keyword's probe finds an element |
| Auth.ProbeKeywords | python/src/pages/auth_page.py:108-117 | one round is true iff some non-empty keyword's probe finds an element at the current tick |
| Auth.AuthPage.ExpectError | python/src/pages/auth_page.py:100-119 | polls the keywords every half second from the call until start + timeout, true at the first tick one shows |
| Auth.AuthPage.ClickBiometric | python/src/pages/auth_page.py:121-141 | the four candidates as quick tiers in order |
| Auth.ClickGoogleOutcome | python/src/pages/auth_page.py:143-154 | true iff one of the two clicks goes through; "Google" is tried only after "Continue with Google" failed; at most two full waits |
| Auth.AuthPage.ClickGoogle | python/src/pages/auth_page.py:143-154 | the two blocking clicks in turn |
| Chat.ChatPage.OpenFromHome | python/src/pages/chat_page.py:13-30 | finds the third button, taps it, and sends the gesture only when the tap fails |
| Chat.OpenFromHomeOutcome | python/src/pages/chat_page.py:18-30 | None iff the third-button lookup fails; otherwise that button is returned whatever the taps do, and the gesture is sent iff the tap raised |
| Chat.FilterSameMatches | python/src/pages/chat_page.py:19 | the class-and-instance lookup ranks exactly the elements of that class |
| Chat.ChatPage.FindInput | python/src/pages/chat_page.py:32-48 | the three lookups at the current tick |
| Chat.InputTiers | python/src/pages/chat_page.py:34-48 | the first lookup that finds something wins, in order; None iff all three show nothing |
| Chat.ChatPage.SendMessage | python/src/pages/chat_page.py:50-89 | find the input, enter the text, submit it |
| Chat.Enter | python/src/pages/chat_page.py:56-72 | tap, clear, type, falling back to `set_value` |
| Chat.SubmitText | python/src/pages/chat_page.py:74-89 | Enter, falling back to the send button |
| Chat.SendMessageOutcome | python/src/pages/chat_page.py:52-89 | no input means false and no call at all; otherwise true iff the text went in (typed or assigned) and Enter or the send button went through |
| Chat.SendMessageFieldContents | python/src/pages/chat_page.py:61-72 | once the text went in, the field holds exactly it, or the old contents followed by it when the clear was rejected and typing worked |
| Chat.SendButtonOnlyAfterEnter | python/src/pages/chat_page.py:74-89 | when Enter goes through it is the last call, and the send button is never touched |
| Chat.ChatPage.IsMessagePresent | python/src/pages/chat_page.py:91-100 | polls the fragment every half second from the call until start + timeout |
| Chat.ChatPage.OpenSuggestions | python/src/pages/chat_page.py:102-117 | the "+" description tier, then the "+" accessibility-id tier |
| Chat.ChatPage.IsSuggestionShown | python/src/pages/chat_page.py:119-123 | true iff the "Suggestion" probe finds something |
| Chat.ChatPage.OpenReport | python/src/pages/chat_page.py:125-139 | the "report" tier, then the "!" tier |
| Chat.ChatPage.IsReportDialogShown | python/src/pages/chat_page.py:141-145 | true iff the "Report" probe finds something, or it comes back empty and the "Reason" probe finds something; a raising probe means false |

## Left out

- `simulate_fingerprint` is not part of this model: it runs emulator commands and adb through `subprocess`.
- Session creation, configuration reading and the tests (python/src/drivers/driver.py, python/src/utils/config.py, python/tests/) are not part of this model.
- `scroll_into_view_by_text`: scrolling is a UiScrollable behaviour of the device. Only plain lookups are modelled.
- The process runner is a parameter. The actual `subprocess.run` is left out.
- Waits:
  - A blocking wait is decided at the tick it starts, and otherwise spends its whole budget.
  - An element appearing part-way through a wait is not modelled.
  - The wait's own polling is not modelled.
- Time:
  - Probes, reads, taps and typing take no time.
  - Time is whole half-second ticks, not floating-point seconds.
  - Timeouts are whole seconds.
- The screen at each tick is fixed in advance. Typing is tracked in the field contents and does not change later snapshots.
- Element handles are values identified by an id. Stale references are not modelled.
- Appium's own query semantics are not modelled:
  - Selectors are abstract matches over the tree, in document order.
  - Quotes inside interpolated text are not escaped or parsed the way UiAutomator would.
- Exceptions are the `Error` datatype. Only the adb error's message is kept.
- Strings.LowerSpec: lowercases ASCII capitals only, because Python's full Unicode case mapping is not modelled.
- Base.BasePage.constructor: takes a non-negative timeout only. Negative `WebDriverWait` timeouts are not modelled.
- Base.WaitTimeout: takes a non-negative timeout only, as `Option<nat>`. A negative timeout passed to `wait_for` is not modelled.
- Base.BasePage.WaitFor: takes a non-negative timeout only, for the same reason.
- Faults are a fixed set of requests. A request that raises once raises at every tick. So the model cannot express a transient failure, such as a probe that raises once and then succeeds. The `except Exception: pass` in the polling loops of `expect_error` and `is_message_present` exists to absorb such failures. In the model a raising probe counts as a miss in every round.

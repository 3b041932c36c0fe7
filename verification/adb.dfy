/** The adb wrapper: argument vectors, the return-code check, the device listing parser and the
    Wi-Fi commands. Running a process is a parameter `run`, standing for `subprocess.run` with
    captured text output. */
module Adb {
  import opened Wrappers
  import opened Strings

  /** What a finished process hands back. */
  datatype Completed = Completed(returncode: int, stdout: string, stderr: string)

  /** The `RuntimeError` raised for a non-zero exit, with its message. */
  datatype AdbError = AdbFailed(message: string)

  /** `if device:` holds for a serial that is given and not empty. */
  predicate Selects(device: Option<string>) {
    device.Some? && device.value != ""
  }

  /** The command line for `args` on `device`. */
  function Argv(args: seq<string>, device: Option<string>): (argv: seq<string>)
    ensures |argv| == |args| + (if Selects(device) then 3 else 1)
    ensures argv[0] == "adb"
    ensures Selects(device) ==> argv[1] == "-s" && argv[2] == device.value
    ensures argv[|argv| - |args|..] == args
  {
    ["adb"] + (if Selects(device) then ["-s", device.value] else []) + args
  }

  function Failure(c: Completed): AdbError {
    AdbFailed("adb failed: " + c.stdout + "\n" + c.stderr)
  }

  /** `_run_adb_cmd(args, device)`: runs `adb [-s device] args`; a non-zero exit status is an error
      carrying both output streams, and success yields standard output with surrounding whitespace
      removed. */
  method RunAdbCmd(run: seq<string> -> Completed, args: seq<string>, device: Option<string>)
    returns (r: Result<string, AdbError>)
    ensures var c := run(Argv(args, device));
      (r.Ok? <==> c.returncode == 0) && (r.Ok? ==> r.value == Strip(c.stdout)) && (r.Err? ==> r.error == Failure(c))
  {
    var base := ["adb"];
    if device.Some? && device.value != "" {
      base := base + ["-s", device.value];
    }
    base := base + args;
    assert base == Argv(args, device);
    var res := run(base);
    if res.returncode != 0 {
      return Err(AdbFailed("adb failed: " + res.stdout + "\n" + res.stderr));
    }
    return Ok(Strip(res.stdout));
  }

  // ---------------------------------------------------------------- list_devices

  const HeaderPrefix := "List of devices"

  /** A line that survives the first filter: not blank and not the listing's header. */
  predicate Listed(l: string) {
    !Blank(l) && !StartsWith(l, HeaderPrefix)
  }

  /** A listed line that names a device: it mentions "device" or has at least two tokens. */
  predicate Names(l: string) {
    Contains(l, "device") || |Split(l)| >= 2
  }

  /** `l.split()[0]`. A listed line is not blank, so it has a first token (`SplitEmptyIffBlank`)
      and the empty case is never reached through `DevicesIn`. */
  function Serial(l: string): string {
    var tokens := Split(l);
    if tokens == [] then "" else tokens[0]
  }

  /** The lines the listing keeps, in order. */
  function ListedLines(lines: seq<string>): seq<string> {
    if lines == [] then []
    else (if Listed(lines[0]) then [lines[0]] else []) + ListedLines(lines[1..])
  }

  /** The listing keeps exactly the listed lines. */
  lemma {:induction false} ListedMembership(lines: seq<string>, l: string)
    ensures l in ListedLines(lines) <==> l in lines && Listed(l)
    decreases |lines|
  {
    if lines != [] {
      ListedMembership(lines[1..], l);
      assert l in lines <==> l == lines[0] || l in lines[1..];
    }
  }

  /** The line filter keeps the order of the output: filtering a concatenation filters each part. */
  lemma {:induction false} ListedAppend(a: seq<string>, b: seq<string>)
    ensures ListedLines(a + b) == ListedLines(a) + ListedLines(b)
    decreases |a|
  {
    if a == [] {
      EmptyLeft(b);
      EmptyLeft(ListedLines(b));
    } else {
      ListedFront(a, b);
      ListedAppend(a[1..], b);
      Assoc(if Listed(a[0]) then [a[0]] else [], ListedLines(a[1..]), ListedLines(b));
    }
  }

  lemma ListedFront(a: seq<string>, b: seq<string>)
    requires a != []
    ensures ListedLines(a + b) == (if Listed(a[0]) then [a[0]] else []) + ListedLines(a[1..] + b)
  {
    DropHead(a, b);
    assert (a + b)[0] == a[0];
  }

  /** The serial a single line contributes: none, or one. */
  function Entry(l: string): seq<string> {
    if Names(l) then [Serial(l)] else []
  }

  function Serials(lines: seq<string>): seq<string> {
    if lines == [] then []
    else Entry(lines[0]) + Serials(lines[1..])
  }

  /** The serials `list_devices` reports for the stripped output `out`. */
  function DevicesIn(out: string): seq<string> {
    Serials(ListedLines(SplitLines(out)))
  }

  /** `list_devices()`: the serials of the listing, or the command's error. */
  method ListDevices(run: seq<string> -> Completed) returns (r: Result<seq<string>, AdbError>)
    ensures var c := run(Argv(["devices"], None));
      (r.Ok? <==> c.returncode == 0) && (r.Ok? ==> r.value == DevicesIn(Strip(c.stdout))) && (r.Err? ==> r.error == Failure(c))
  {
    var out := RunAdbCmd(run, ["devices"], None);
    if out.Err? {
      return Err(out.error);
    }
    var lines := ListedLines(SplitLines(out.value));
    return Ok(Serials(lines));
  }

  lemma {:induction false} SerialsMembership(lines: seq<string>, s: string)
    ensures s in Serials(lines) <==> exists l :: l in lines && Names(l) && Serial(l) == s
    decreases |lines|
  {
    if lines != [] {
      SerialsMembership(lines[1..], s);
      assert Serials(lines) == Entry(lines[0]) + Serials(lines[1..]);
      assert forall l :: l in lines <==> l == lines[0] || l in lines[1..];
    }
  }

  /** A serial is reported exactly when some line of the output is neither blank nor the header,
      names a device, and starts with that serial. */
  lemma DevicesMembership(out: string, s: string)
    ensures s in DevicesIn(out) <==>
      exists l :: l in SplitLines(out) && Listed(l) && Names(l) && Serial(l) == s
  {
    SerialsMembership(ListedLines(SplitLines(out)), s);
    forall l | l in SplitLines(out) && Listed(l)
      ensures l in ListedLines(SplitLines(out))
    {
      ListedMembership(SplitLines(out), l);
    }
    forall l | l in ListedLines(SplitLines(out))
      ensures l in SplitLines(out) && Listed(l)
    {
      ListedMembership(SplitLines(out), l);
    }
  }

  /** The listing keeps the order of the output's lines. */
  lemma {:induction false} SerialsAppend(a: seq<string>, b: seq<string>)
    ensures Serials(a + b) == Serials(a) + Serials(b)
    decreases |a|
  {
    if a == [] {
      EmptyLeft(b);
      EmptyLeft(Serials(b));
    } else {
      SerialsFront(a, b);
      SerialsAppend(a[1..], b);
      Assoc(Entry(a[0]), Serials(a[1..]), Serials(b));
    }
  }

  lemma SerialsFront(a: seq<string>, b: seq<string>)
    requires a != []
    ensures Serials(a + b) == Entry(a[0]) + Serials(a[1..] + b)
  {
    DropHead(a, b);
    assert (a + b)[0] == a[0];
  }

  lemma SerialIsWord(l: string)
    requires !Blank(l)
    ensures Word(Serial(l))
  {
    SplitEmptyIffBlank(l);
    SplitWords(l);
  }

  /** Every serial taken from non-blank lines is a single whitespace-free token. */
  lemma {:induction false} SerialsAreWords(lines: seq<string>)
    requires forall k :: 0 <= k < |lines| ==> !Blank(lines[k])
    ensures forall k :: 0 <= k < |Serials(lines)| ==> Word(Serials(lines)[k])
    decreases |lines|
  {
    if lines != [] {
      var head := Entry(lines[0]);
      var tail := Serials(lines[1..]);
      SerialIsWord(lines[0]);
      SerialsAreWords(lines[1..]);
      WordsConcat(head, tail);
    }
  }

  lemma WordsConcat(head: seq<string>, tail: seq<string>)
    requires forall k :: 0 <= k < |head| ==> Word(head[k])
    requires forall k :: 0 <= k < |tail| ==> Word(tail[k])
    ensures forall k :: 0 <= k < |head + tail| ==> Word((head + tail)[k])
  {
  }

  /** Every serial `list_devices` reports is a single whitespace-free token. */
  lemma DevicesAreWords(out: string)
    ensures forall k :: 0 <= k < |DevicesIn(out)| ==> Word(DevicesIn(out)[k])
  {
    var lines := ListedLines(SplitLines(out));
    forall k | 0 <= k < |lines|
      ensures !Blank(lines[k])
    {
      assert lines[k] in lines;
      ListedMembership(SplitLines(out), lines[k]);
    }
    SerialsAreWords(lines);
  }

  const ListingHeader := "List of devices attached"

  /** A row of the listing: serial, tab, state. */
  function Row(serial: string, state: string): string {
    serial + "\t" + state
  }

  function Rows(serials: seq<string>, states: seq<string>): (rows: seq<string>)
    requires |serials| == |states|
    ensures |rows| == |serials|
    ensures forall k :: 0 <= k < |rows| ==> rows[k] == Row(serials[k], states[k])
  {
    if serials == [] then [] else [Row(serials[0], states[0])] + Rows(serials[1..], states[1..])
  }

  /** A row never passes for the header: the header has a space where a row has a token
      character or the tab. */
  lemma RowIsNotHeader(serial: string, state: string)
    requires Word(serial)
    ensures !StartsWith(Row(serial, state), HeaderPrefix)
  {
    var row := Row(serial, state);
    if |serial| > 4 {
      assert row[4] == serial[4];
      assert IsSpace(HeaderPrefix[4]);
    } else {
      assert row[|serial|] == '\t';
      assert HeaderPrefix[|serial|] != '\t';
    }
  }

  /** A row is kept and yields its serial. */
  lemma RowYieldsSerial(serial: string, state: string)
    requires Word(serial) && Word(state)
    ensures Listed(Row(serial, state)) && Names(Row(serial, state))
    ensures Serial(Row(serial, state)) == serial
  {
    var row := Row(serial, state);
    assert IsSpace('\t');
    assert row == serial + ['\t'] + state;
    TwoTokens(serial, '\t', state);
    FirstToken(serial, '\t', state);
    assert !IsSpace(row[0]);
    RowIsNotHeader(serial, state);
  }

  /** No row is filtered out. */
  lemma {:induction false} RowsListed(serials: seq<string>, states: seq<string>)
    requires |serials| == |states|
    requires forall k :: 0 <= k < |serials| ==> Word(serials[k]) && Word(states[k])
    ensures ListedLines(Rows(serials, states)) == Rows(serials, states)
    decreases |serials|
  {
    if serials != [] {
      RowYieldsSerial(serials[0], states[0]);
      RowsListed(serials[1..], states[1..]);
      RowsCons(serials, states);
      ListedCons(Row(serials[0], states[0]), Rows(serials[1..], states[1..]));
    }
  }

  lemma RowEntry(serial: string, state: string)
    requires Word(serial) && Word(state)
    ensures Entry(Row(serial, state)) == [serial]
  {
    RowYieldsSerial(serial, state);
  }

  lemma RowsCons(serials: seq<string>, states: seq<string>)
    requires |serials| == |states| && serials != []
    ensures Rows(serials, states) == [Row(serials[0], states[0])] + Rows(serials[1..], states[1..])
  {
  }

  lemma ListedCons(l: string, rest: seq<string>)
    ensures ListedLines([l] + rest) == (if Listed(l) then [l] else []) + ListedLines(rest)
  {
    assert ([l] + rest)[0] == l && ([l] + rest)[1..] == rest;
  }

  lemma RowsStep(serials: seq<string>, states: seq<string>)
    requires |serials| == |states| && serials != []
    ensures Serials(Rows(serials, states)) == Entry(Row(serials[0], states[0])) + Serials(Rows(serials[1..], states[1..]))
  {
    var rows := Rows(serials, states);
    assert rows[0] == Row(serials[0], states[0]) && rows[1..] == Rows(serials[1..], states[1..]);
  }

  /** The rows yield their serials, in order. */
  lemma {:induction false} RowsYieldSerials(serials: seq<string>, states: seq<string>)
    requires |serials| == |states|
    requires forall k :: 0 <= k < |serials| ==> Word(serials[k]) && Word(states[k])
    ensures Serials(Rows(serials, states)) == serials
    decreases |serials|
  {
    if serials != [] {
      RowEntry(serials[0], states[0]);
      RowsYieldSerials(serials[1..], states[1..]);
      RowsStep(serials, states);
      HeadTail(serials);
    }
  }

  lemma JoinLinesTail(lines: seq<string>)
    requires lines != [] && lines[|lines| - 1] != []
    ensures JoinLines(lines) != [] && JoinLines(lines)[|JoinLines(lines)| - 1] == lines[|lines| - 1][|lines[|lines| - 1]| - 1]
    decreases |lines|
  {
    if |lines| > 1 {
      JoinLinesTail(lines[1..]);
    }
  }

  lemma ListingHasNoBreaks(serials: seq<string>, states: seq<string>)
    requires |serials| == |states|
    requires forall k :: 0 <= k < |serials| ==> Word(serials[k]) && Word(states[k])
    ensures forall k :: 0 <= k < |[ListingHeader] + Rows(serials, states)| ==>
      NoBreak(([ListingHeader] + Rows(serials, states))[k])
  {
    var rows := Rows(serials, states);
    var lines := [ListingHeader] + rows;
    forall k | 0 <= k < |lines|
      ensures NoBreak(lines[k])
    {
      if k == 0 {
        assert forall i :: 0 <= i < |ListingHeader| ==> !IsLineBreak(ListingHeader[i]);
      } else {
        RowHasNoBreak(serials[k - 1], states[k - 1]);
      }
    }
  }

  lemma RowHasNoBreak(serial: string, state: string)
    requires Word(serial) && Word(state)
    ensures NoBreak(Row(serial, state))
  {
    var row := Row(serial, state);
    WordNoBreak(serial);
    WordNoBreak(state);
    forall i | 0 <= i < |row|
      ensures !IsLineBreak(row[i])
    {
      if i < |serial| {
        assert row[i] == serial[i];
      } else if i > |serial| {
        assert row[i] == state[i - |serial| - 1];
      }
    }
  }

  lemma ListingEnds(serials: seq<string>, states: seq<string>)
    requires |serials| == |states|
    requires forall k :: 0 <= k < |serials| ==> Word(serials[k]) && Word(states[k])
    ensures var text := JoinLines([ListingHeader] + Rows(serials, states));
      text != [] && !IsSpace(text[0]) && !IsSpace(text[|text| - 1])
  {
    var rows := Rows(serials, states);
    var lines := [ListingHeader] + rows;
    var text := JoinLines(lines);
    JoinLinesTail(lines);
    if rows == [] {
      assert text == ListingHeader;
    } else {
      var last := Row(serials[|serials| - 1], states[|states| - 1]);
      assert lines[|lines| - 1] == last;
      assert last[|last| - 1] == states[|states| - 1][|states[|states| - 1]| - 1];
      assert text == ListingHeader + "\n" + JoinLines(lines[1..]);
    }
    assert text[0] == 'L';
  }

  /** Stripping adb's listing removes exactly the trailing blank lines. */
  lemma ListingStrips(serials: seq<string>, states: seq<string>, trailer: string)
    requires |serials| == |states|
    requires forall k :: 0 <= k < |serials| ==> Word(serials[k]) && Word(states[k])
    requires Blank(trailer)
    ensures var text := JoinLines([ListingHeader] + Rows(serials, states));
      Strip(text + trailer) == text
  {
    var text := JoinLines([ListingHeader] + Rows(serials, states));
    ListingEnds(serials, states);
    StripPadded("", text, trailer);
    EmptyLeft(text);
  }

  /** Splitting the listing gives back the header and the rows. */
  lemma ListingLines(serials: seq<string>, states: seq<string>)
    requires |serials| == |states|
    requires forall k :: 0 <= k < |serials| ==> Word(serials[k]) && Word(states[k])
    ensures var lines := [ListingHeader] + Rows(serials, states);
      SplitLines(JoinLines(lines)) == lines
  {
    ListingHasNoBreaks(serials, states);
    SplitJoinLines([ListingHeader] + Rows(serials, states));
  }

  /** The line filter drops the header and keeps every row. */
  lemma ListingKeepsRows(serials: seq<string>, states: seq<string>)
    requires |serials| == |states|
    requires forall k :: 0 <= k < |serials| ==> Word(serials[k]) && Word(states[k])
    ensures ListedLines([ListingHeader] + Rows(serials, states)) == Rows(serials, states)
  {
    var rows := Rows(serials, states);
    assert StartsWith(ListingHeader, HeaderPrefix);
    ListedCons(ListingHeader, rows);
    EmptyLeft(ListedLines(rows));
    RowsListed(serials, states);
  }

  /** The listing adb prints — the header, then a `serial<TAB>state` row per device, then trailing
      blank lines — yields exactly the serials, in order. */
  lemma TypicalListing(serials: seq<string>, states: seq<string>, trailer: string)
    requires |serials| == |states|
    requires forall k :: 0 <= k < |serials| ==> Word(serials[k]) && Word(states[k])
    requires Blank(trailer)
    ensures DevicesIn(Strip(JoinLines([ListingHeader] + Rows(serials, states)) + trailer)) == serials
  {
    var lines := [ListingHeader] + Rows(serials, states);
    var out := Strip(JoinLines(lines) + trailer);
    ListingStrips(serials, states, trailer);
    ListingLines(serials, states);
    ListingKeepsRows(serials, states);
    RowsYieldSerials(serials, states);
    calc {
      DevicesIn(out);
      Serials(ListedLines(SplitLines(out)));
      { assert out == JoinLines(lines); }
      Serials(ListedLines(lines));
      Serials(Rows(serials, states));
    }
  }

  /** `get_first_device()`: the first reported serial, None when there is none. */
  method GetFirstDevice(run: seq<string> -> Completed) returns (r: Result<Option<string>, AdbError>)
    ensures var c := run(Argv(["devices"], None));
      (r.Ok? <==> c.returncode == 0) && (r.Err? ==> r.error == Failure(c))
    ensures r.Ok? ==> var devs := DevicesIn(Strip(run(Argv(["devices"], None)).stdout));
      (r.value.None? <==> devs == []) && (r.value.Some? ==> r.value.value == devs[0])
  {
    var devs := ListDevices(run);
    if devs.Err? {
      return Err(devs.error);
    }
    if devs.value != [] {
      return Ok(Some(devs.value[0]));
    }
    return Ok(None);
  }

  // ---------------------------------------------------------------- Wi-Fi

  const WifiQuery := ["shell", "settings", "get", "global", "wifi_on"]

  /** The reading of the `wifi_on` setting: on for "1", off for "0", unknown otherwise. */
  function WifiState(out: string): Option<bool> {
    var s := Strip(out);
    if s == "1" then Some(true) else if s == "0" then Some(false) else None
  }

  /** `get_wifi_state(device)`: the setting read from standard output, or the command's error. */
  method GetWifiState(run: seq<string> -> Completed, device: Option<string>) returns (r: Result<Option<bool>, AdbError>)
    ensures var c := run(Argv(WifiQuery, device));
      (r.Ok? <==> c.returncode == 0) && (r.Ok? ==> r.value == WifiState(c.stdout)) && (r.Err? ==> r.error == Failure(c))
  {
    var out := RunAdbCmd(run, WifiQuery, device);
    if out.Err? {
      return Err(out.error);
    }
    StrippedWifiState(run(Argv(WifiQuery, device)).stdout);
    var s := Strip(out.value);
    if s == "1" {
      return Ok(Some(true));
    }
    if s == "0" {
      return Ok(Some(false));
    }
    return Ok(None);
  }

  /** Stripping the output a second time, as `get_wifi_state` does, changes nothing. */
  lemma StrippedWifiState(out: string)
    ensures WifiState(Strip(out)) == WifiState(out)
  {
    StripIdempotent(out);
  }

  /** Whitespace around the digit does not matter, and nothing but "1" or "0" gives a reading. */
  lemma WifiStateReadings(p: string, q: string, out: string)
    requires Blank(p) && Blank(q)
    ensures WifiState(p + "1" + q) == Some(true)
    ensures WifiState(p + "0" + q) == Some(false)
    ensures WifiState(out).Some? <==> Strip(out) in {"1", "0"}
  {
    assert !IsSpace('1') && !IsSpace('0');
    StripPadded(p, "1", q);
    StripPadded(p, "0", q);
  }

  /** The command `toggle_wifi` runs. */
  function WifiSwitch(enable: bool): (args: seq<string>)
    ensures |args| == 4 && args[..3] == ["shell", "svc", "wifi"]
    ensures args[3] == "enable" <==> enable
    ensures args[3] == "disable" <==> !enable
  {
    ["shell", "svc", "wifi", if enable then "enable" else "disable"]
  }

  /** `toggle_wifi(device, enable)`: succeeds exactly when the switch command exits with status 0. */
  method ToggleWifi(run: seq<string> -> Completed, device: Option<string>, enable: bool) returns (r: Result<(), AdbError>)
    ensures var c := run(Argv(WifiSwitch(enable), device));
      (r.Ok? <==> c.returncode == 0) && (r.Err? ==> r.error == Failure(c))
  {
    var cmd := if enable then "enable" else "disable";
    var out := RunAdbCmd(run, ["shell", "svc", "wifi", cmd], device);
    if out.Err? {
      return Err(out.error);
    }
    return Ok(());
  }

  const WifiSettingsIntent := ["shell", "am", "start", "-a", "android.settings.WIFI_SETTINGS"]

  /** `open_wifi_settings(device)`: succeeds exactly when starting the settings screen exits with status 0. */
  method OpenWifiSettings(run: seq<string> -> Completed, device: Option<string>) returns (r: Result<(), AdbError>)
    ensures var c := run(Argv(WifiSettingsIntent, device));
      (r.Ok? <==> c.returncode == 0) && (r.Err? ==> r.error == Failure(c))
  {
    var out := RunAdbCmd(run, WifiSettingsIntent, device);
    if out.Err? {
      return Err(out.error);
    }
    return Ok(());
  }
}

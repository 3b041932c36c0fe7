/** The Python `str` operations the harness relies on, over `seq<char>`. */
module Strings {

  /** The characters for which Python's `str.isspace()` holds: what `strip()` and `split()` remove. */
  predicate IsSpace(c: char) {
    c == ' ' || '\t' <= c <= '\r' || '\U{1C}' <= c <= '\U{1F}' || c == '\U{85}' || c == '\U{A0}' ||
    c == '\U{1680}' || '\U{2000}' <= c <= '\U{200A}' || c == '\U{2028}' || c == '\U{2029}' ||
    c == '\U{202F}' || c == '\U{205F}' || c == '\U{3000}'
  }

  /** The characters at which Python's `str.splitlines()` ends a line; each of them is whitespace. */
  predicate IsLineBreak(c: char)
    ensures IsLineBreak(c) ==> IsSpace(c)
  {
    '\n' <= c <= '\r' || '\U{1C}' <= c <= '\U{1E}' || c == '\U{85}' || c == '\U{2028}' || c == '\U{2029}'
  }

  predicate Blank(s: string) {
    forall i :: 0 <= i < |s| ==> IsSpace(s[i])
  }

  /** A token of `split()`: non-empty and free of whitespace. */
  predicate Word(w: string) {
    w != [] && forall i :: 0 <= i < |w| ==> !IsSpace(w[i])
  }

  predicate NoBreak(s: string) {
    forall i :: 0 <= i < |s| ==> !IsLineBreak(s[i])
  }

  lemma WordNoBreak(w: string)
    requires Word(w)
    ensures NoBreak(w)
  {
    forall i | 0 <= i < |w|
      ensures !IsLineBreak(w[i])
    {
      assert !IsSpace(w[i]);
    }
  }

  predicate StartsWith(s: string, prefix: string) {
    |prefix| <= |s| && s[..|prefix|] == prefix
  }

  /** Python's `sub in s`. */
  predicate Contains(s: string, sub: string)
    decreases |s|
  {
    StartsWith(s, sub) || (s != [] && Contains(s[1..], sub))
  }

  lemma {:induction false} ContainsAt(s: string, sub: string, i: nat)
    requires i + |sub| <= |s| && s[i..i + |sub|] == sub
    ensures Contains(s, sub)
    decreases i
  {
    if i > 0 {
      assert s[1..][i - 1..i - 1 + |sub|] == sub;
      ContainsAt(s[1..], sub, i - 1);
    }
  }

  /** One character of `str.lower()`: an ASCII capital becomes its small letter. */
  function LowerChar(c: char): char {
    if 'A' <= c <= 'Z' then c - 'A' + 'a' else c
  }

  /** Python's `str.lower()` on ASCII letters; other characters are left as they are. */
  function Lower(s: string): string {
    if s == [] then [] else [LowerChar(s[0])] + Lower(s[1..])
  }

  /** Two texts of the same length that differ at most in the case of ASCII letters. */
  predicate SameUpToCase(a: string, b: string) {
    |a| == |b| && forall i :: 0 <= i < |a| ==> LowerChar(a[i]) == LowerChar(b[i])
  }

  /** Texts that differ only in ASCII case lower to the same text. */
  lemma LowerIgnoresCase(a: string, b: string)
    requires SameUpToCase(a, b)
    ensures Lower(a) == Lower(b)
  {
    LowerSpec(a);
    LowerSpec(b);
  }

  /** "SIGN UP", lowered, contains "sign". */
  lemma LowerSignUp()
    ensures Contains(Lower("SIGN UP"), "sign")
  {
    var l := Lower("SIGN UP");
    assert l == "sign up";
    assert l[0..4] == "sign";
    ContainsAt(l, "sign", 0);
  }

  /** Lowering keeps the length and maps exactly the ASCII capitals to small letters. */
  lemma {:induction false} LowerSpec(s: string)
    ensures |Lower(s)| == |s|
    ensures forall i :: 0 <= i < |s| ==> Lower(s)[i] == LowerChar(s[i])
    ensures forall i :: 0 <= i < |s| ==> ('A' <= s[i] <= 'Z' <==> 'a' <= Lower(s)[i] <= 'z' && Lower(s)[i] != s[i])
  {
    if s != [] {
      LowerSpec(s[1..]);
      forall i | 1 <= i < |s|
        ensures Lower(s)[i] == Lower(s[1..])[i - 1]
      {
      }
    }
  }

  /** `s.lstrip()`. */
  function TrimStart(s: string): (r: string)
    ensures |r| <= |s|
  {
    if s != [] && IsSpace(s[0]) then TrimStart(s[1..]) else s
  }

  /** `lstrip()` cuts only whitespace from the front and leaves text that starts with something else. */
  lemma {:induction false} TrimStartSpec(s: string)
    ensures var r := TrimStart(s);
      r == s[|s| - |r|..] && (r == [] || !IsSpace(r[0])) && Blank(s[..|s| - |r|])
    decreases |s|
  {
    if s != [] && IsSpace(s[0]) {
      TrimStartSpec(s[1..]);
      var r := TrimStart(s[1..]);
      SuffixSuffix(s, 1, |s| - 1 - |r|);
      forall k | 0 <= k < |s| - |r|
        ensures IsSpace(s[k])
      {
        if k > 0 {
          assert s[k] == s[1..][..|s| - 1 - |r|][k - 1];
        }
      }
    }
  }

  /** `s.rstrip()`. */
  function TrimEnd(s: string): (r: string)
    ensures |r| <= |s|
  {
    if s != [] && IsSpace(s[|s| - 1]) then TrimEnd(s[..|s| - 1]) else s
  }

  /** `rstrip()` cuts only whitespace from the back and leaves text that ends with something else. */
  lemma {:induction false} TrimEndSpec(s: string)
    ensures var r := TrimEnd(s);
      r == s[..|r|] && (r == [] || !IsSpace(r[|r| - 1])) && Blank(s[|r|..])
    decreases |s|
  {
    if s != [] && IsSpace(s[|s| - 1]) {
      TrimEndSpec(s[..|s| - 1]);
      var r := TrimEnd(s[..|s| - 1]);
      PrefixPrefix(s, |s| - 1, |r|);
      forall k | |r| <= k < |s|
        ensures IsSpace(s[k])
      {
        if k < |s| - 1 {
          assert s[k] == s[..|s| - 1][|r|..][k - |r|];
        }
      }
    }
  }

  /** Python's `str.strip()`. */
  function Strip(s: string): (r: string)
  {
    TrimEnd(TrimStart(s))
  }

  /** What `strip()` leaves: a slice of the input with no whitespace at either end, and only
      whitespace cut off on both sides. */
  lemma StripSlice(s: string) returns (i: nat, j: nat)
    ensures i <= j <= |s| && Strip(s) == s[i..j]
    ensures Strip(s) == [] || (!IsSpace(Strip(s)[0]) && !IsSpace(Strip(s)[|Strip(s)| - 1]))
    ensures Blank(s[..i]) && Blank(s[j..])
  {
    var t := TrimStart(s);
    var r := TrimEnd(t);
    TrimStartSpec(s);
    TrimEndSpec(t);
    i, j := |s| - |t|, |s| - |t| + |r|;
    PrefixOfSuffix(s, t, r, i);
    BlankSuffixOfSuffix(s, t, i, |r|);
  }

  lemma PrefixOfSuffix(s: string, t: string, r: string, i: nat)
    requires i <= |s| && t == s[i..] && |r| <= |t| && r == t[..|r|]
    ensures r == s[i..i + |r|]
    ensures r != [] ==> r[0] == t[0]
  {
    SuffixPrefix(s, i, |r|);
  }

  lemma BlankSuffixOfSuffix(s: string, t: string, i: nat, n: nat)
    requires i + n <= |s| && t == s[i..] && Blank(t[n..])
    ensures Blank(s[i + n..])
  {
    SuffixSuffix(s, i, n);
  }

  /** Stripping twice is stripping once (`get_wifi_state` strips output that is already stripped). */
  lemma StripIdempotent(s: string)
    ensures Strip(Strip(s)) == Strip(s)
  {
    var i, j := StripSlice(s);
    var r := Strip(s);
    assert TrimStart(r) == r;
  }

  /** Whitespace padding around a core that starts and ends with non-whitespace is exactly what
      `strip()` removes. */
  lemma {:induction false} StripPadded(p: string, core: string, q: string)
    requires Blank(p) && Blank(q)
    requires core != [] && !IsSpace(core[0]) && !IsSpace(core[|core| - 1])
    ensures Strip(p + core + q) == core
  {
    PadStart(p, core + q);
    Assoc(p, core, q);
    PadEnd(core, q);
  }

  lemma {:induction false} PadStart(p: string, rest: string)
    requires Blank(p) && rest != [] && !IsSpace(rest[0])
    ensures TrimStart(p + rest) == rest
    decreases |p|
  {
    if p != [] {
      DropHead(p, rest);
      PadStart(p[1..], rest);
    } else {
      EmptyLeft(rest);
    }
  }

  lemma {:induction false} PadEnd(core: string, q: string)
    requires Blank(q) && core != [] && !IsSpace(core[|core| - 1])
    ensures TrimEnd(core + q) == core
    decreases |q|
  {
    if q != [] {
      DropLast(core, q);
      PadEnd(core, q[..|q| - 1]);
    } else {
      EmptyRight(core);
    }
  }

  /** Length of the leading run of non-whitespace characters. */
  function TokenEnd(s: string): (n: nat)
    ensures n <= |s| && (n == |s| || IsSpace(s[n]))
    ensures forall i :: 0 <= i < n ==> !IsSpace(s[i])
  {
    if s == [] || IsSpace(s[0]) then 0 else 1 + TokenEnd(s[1..])
  }

  lemma BlankIffTrimmed(s: string)
    ensures Blank(s) <==> TrimStart(s) == []
  {
    var t := TrimStart(s);
    TrimStartSpec(s);
    if t == [] {
      assert s[..|s|] == s;
    } else {
      assert s[|s| - |t|] == t[0];
    }
  }

  lemma LeadingWord(t: string)
    requires t != [] && !IsSpace(t[0])
    ensures TokenEnd(t) != 0 && Word(t[..TokenEnd(t)])
  {
  }

  /** Python's `str.split()` with no separator: the maximal runs of non-whitespace, in order. */
  function Split(s: string): seq<string>
    decreases |s|
  {
    var t := TrimStart(s);
    if t == [] then []
    else
      TrimStartSpec(s);
      LeadingWord(t);
      var n := TokenEnd(t);
      [t[..n]] + Split(t[n..])
  }

  /** Every `split()` token is a word. */
  lemma {:induction false} SplitWords(s: string)
    ensures forall k :: 0 <= k < |Split(s)| ==> Word(Split(s)[k])
    decreases |s|
  {
    var t := TrimStart(s);
    if t != [] {
      TrimStartSpec(s);
      LeadingWord(t);
      var n := TokenEnd(t);
      var rest := Split(t[n..]);
      SplitWords(t[n..]);
      var r := Split(s);
      assert r == [t[..n]] + rest;
      forall k | 0 <= k < |r|
        ensures Word(r[k])
      {
        if k > 0 {
          assert r[k] == rest[k - 1];
        }
      }
    }
  }

  /** `split()` gives no token exactly when the string is blank (`l.strip()` is then empty). */
  lemma SplitEmptyIffBlank(s: string)
    ensures Split(s) == [] <==> Blank(s)
  {
    BlankIffTrimmed(s);
  }

  /** The first `split()` token of a line that starts with a word followed by whitespace is that word. */
  lemma FirstToken(w: string, c: char, rest: string)
    requires Word(w) && IsSpace(c)
    ensures Split(w + [c] + rest) != [] && Split(w + [c] + rest)[0] == w
  {
    var s := w + [c] + rest;
    assert TrimStart(s) == s;
    TokenPrefix(w, [c] + rest);
    assert s == w + ([c] + rest);
  }

  lemma {:induction false} TokenPrefix(w: string, rest: string)
    requires forall i :: 0 <= i < |w| ==> !IsSpace(w[i])
    requires rest != [] && IsSpace(rest[0])
    ensures TokenEnd(w + rest) == |w|
    decreases |w|
  {
    if w != [] {
      DropHead(w, rest);
      TokenPrefix(w[1..], rest);
    } else {
      EmptyLeft(rest);
    }
  }

  /** Two words separated by whitespace give at least two tokens. */
  lemma TwoTokens(w: string, c: char, v: string)
    requires Word(w) && IsSpace(c) && Word(v)
    ensures |Split(w + [c] + v)| >= 2
  {
    var s := w + [c] + v;
    var tail := [c] + v;
    assert s == w + tail;
    assert TrimStart(s) == s;
    TokenPrefix(w, tail);
    assert s[|w|..] == tail;
    assert !Blank(tail) by { assert tail[1] == v[0]; }
    SplitEmptyIffBlank(tail);
    assert Split(s) == [w] + Split(tail);
  }

  /** Length of the leading run of characters that do not end a line. */
  function LineEnd(s: string): (n: nat)
    ensures n <= |s| && (n == |s| || IsLineBreak(s[n]))
    ensures forall i :: 0 <= i < n ==> !IsLineBreak(s[i])
  {
    if s == [] || IsLineBreak(s[0]) then 0 else 1 + LineEnd(s[1..])
  }

  /** Python's `str.splitlines()`: "\r\n" ends one line, and a final line ending adds no empty line. */
  function SplitLines(s: string): (r: seq<string>)
    ensures forall k :: 0 <= k < |r| ==> NoBreak(r[k])
    decreases |s|
  {
    if s == [] then []
    else
      var n := LineEnd(s);
      if n == |s| then [s]
      else
        var next := if s[n] == '\r' && n + 1 < |s| && s[n + 1] == '\n' then n + 2 else n + 1;
        [s[..n]] + SplitLines(s[next..])
  }

  /** `"\n".join(lines)`. */
  function JoinLines(lines: seq<string>): string {
    if lines == [] then ""
    else if |lines| == 1 then lines[0]
    else lines[0] + "\n" + JoinLines(lines[1..])
  }

  lemma {:induction false} LineEndAt(a: string, rest: string)
    requires NoBreak(a) && rest != [] && IsLineBreak(rest[0])
    ensures LineEnd(a + rest) == |a|
    decreases |a|
  {
    if a != [] {
      DropHead(a, rest);
      LineEndAt(a[1..], rest);
    } else {
      EmptyLeft(rest);
    }
  }

  /** `splitlines()` undoes joining with "\n" when no line holds a line break and the last line is not empty. */
  lemma {:induction false} SplitJoinLines(lines: seq<string>)
    requires forall k :: 0 <= k < |lines| ==> NoBreak(lines[k])
    requires lines != [] ==> lines[|lines| - 1] != ""
    ensures SplitLines(JoinLines(lines)) == lines
    decreases |lines|
  {
    if |lines| == 1 {
      var s := lines[0];
      assert LineEnd(s) == |s|;
    } else if |lines| > 1 {
      var tail := JoinLines(lines[1..]);
      var s := lines[0] + "\n" + tail;
      Assoc(lines[0], "\n", tail);
      LineEndAt(lines[0], "\n" + tail);
      Around(lines[0], '\n', tail);
      SplitJoinLines(lines[1..]);
      HeadTail(lines);
    }
  }

  // ---------------------------------------------------------------- sequence identities

  lemma Assoc<T>(a: seq<T>, b: seq<T>, c: seq<T>)
    ensures a + b + c == a + (b + c)
  {
  }

  lemma SuffixPrefix<T>(s: seq<T>, k: nat, n: nat)
    requires k + n <= |s|
    ensures s[k..][..n] == s[k..k + n]
  {
  }

  lemma PrefixPrefix<T>(s: seq<T>, k: nat, n: nat)
    requires n <= k <= |s|
    ensures s[..k][..n] == s[..n]
  {
  }

  lemma SuffixSuffix<T>(s: seq<T>, k: nat, n: nat)
    requires k + n <= |s|
    ensures s[k..][n..] == s[k + n..]
  {
  }

  lemma DropHead<T>(a: seq<T>, b: seq<T>)
    requires a != []
    ensures (a + b)[1..] == a[1..] + b
  {
  }

  lemma DropLast<T>(a: seq<T>, b: seq<T>)
    requires b != []
    ensures (a + b)[..|a + b| - 1] == a + b[..|b| - 1]
  {
  }

  lemma EmptyLeft<T>(b: seq<T>)
    ensures [] + b == b
  {
  }

  lemma EmptyRight<T>(a: seq<T>)
    ensures a + [] == a
  {
  }

  /** The pieces of `a`, `c`, `t` joined, read back by position. */
  lemma Around(a: string, c: char, t: string)
    ensures (a + [c] + t)[|a|] == c
    ensures (a + [c] + t)[..|a|] == a && (a + [c] + t)[|a| + 1..] == t
  {
  }

  lemma HeadTail<T>(s: seq<T>)
    requires s != []
    ensures s == [s[0]] + s[1..]
  {
  }
}

/** Text primitives shared by both outline engines: Python's str.strip(),
    str.split() and " ".join(...), the character classes isspace/isupper/isdigit,
    str.isupper() on whole strings, and the "Page N of M" footer pattern.
    Characters are restricted to ASCII: Python's Unicode-wide character classes
    are not modelled. */
module Text {

  /** str.isspace() on one ASCII character: tab, line feed, vertical tab, form
      feed, carriage return, the four separators 0x1C-0x1F, and space. */
  predicate IsSpace(c: char) {
    c == ' ' || ('\t' <= c <= '\r') || ('\U{1C}' <= c <= '\U{1F}')
  }

  predicate IsUpperChar(c: char) { 'A' <= c <= 'Z' }

  predicate IsLowerChar(c: char) { 'a' <= c <= 'z' }

  predicate IsDigitChar(c: char) { '0' <= c <= '9' }

  /** str.isupper(): at least one cased character, and none of them lower-case. */
  predicate IsUpperString(s: string) {
    (exists i :: 0 <= i < |s| && IsUpperChar(s[i])) &&
    (forall i :: 0 <= i < |s| ==> !IsLowerChar(s[i]))
  }

  predicate AllSpace(s: string) {
    forall i :: 0 <= i < |s| ==> IsSpace(s[i])
  }

  /** A word as str.split() yields it: non-empty, no whitespace inside. */
  predicate IsWord(w: string) {
    w != [] && forall i :: 0 <= i < |w| ==> !IsSpace(w[i])
  }

  // ---------------------------------------------------------------------------
  // str.strip()

  /** str.lstrip(): drops the leading whitespace, keeps the rest. */
  function StripLeft(s: string): (r: string)
    ensures |r| <= |s|
    ensures r == [] || !IsSpace(r[0])
  {
    if s != [] && IsSpace(s[0]) then StripLeft(s[1..]) else s
  }

  /** What lstrip drops is whitespace, and what it keeps is a suffix. */
  lemma {:induction false} StripLeftSuffix(s: string)
    ensures StripLeft(s) == s[|s| - |StripLeft(s)|..]
    ensures AllSpace(s[..|s| - |StripLeft(s)|])
  {
    if s != [] && IsSpace(s[0]) {
      StripLeftSuffix(s[1..]);
      var n := |s| - |StripLeft(s)|;
      assert s[1..][n - 1..] == s[n..];
      assert forall i :: 1 <= i < n ==> s[i] == s[1..][..n - 1][i - 1];
    }
  }

  /** str.rstrip(): drops the trailing whitespace, keeps the rest. */
  function StripRight(s: string): (r: string)
    ensures |r| <= |s|
    ensures r == [] || !IsSpace(r[|r| - 1])
  {
    if s != [] && IsSpace(s[|s| - 1]) then StripRight(s[..|s| - 1]) else s
  }

  /** What rstrip drops is whitespace, and what it keeps is a prefix. */
  lemma {:induction false} StripRightPrefix(s: string)
    ensures StripRight(s) == s[..|StripRight(s)|]
    ensures AllSpace(s[|StripRight(s)|..])
  {
    if s != [] && IsSpace(s[|s| - 1]) {
      StripRightPrefix(s[..|s| - 1]);
      var n := |StripRight(s)|;
      assert s[..|s| - 1][..n] == s[..n];
      assert forall i :: n <= i < |s| - 1 ==> s[i] == s[..|s| - 1][n..][i - n];
    }
  }

  /** str.strip(). */
  function Strip(s: string): (r: string)
    ensures |r| <= |s|
    ensures Trimmed(r)
  {
    var l := StripLeft(s);
    StripRightPrefix(l);
    StripRight(l)
  }

  /** rstrip keeps a text whose first character is not whitespace non-empty. */
  lemma {:induction false} StripRightKeeps(s: string)
    requires s != [] && !IsSpace(s[0])
    ensures StripRight(s) != []
  {
    if IsSpace(s[|s| - 1]) {
      StripRightKeeps(s[..|s| - 1]);
    }
  }

  /** A text is empty after stripping exactly when it is whitespace only. */
  lemma StripEmptyIff(s: string)
    ensures Strip(s) == [] <==> AllSpace(s)
  {
    var l := StripLeft(s);
    StripLeftSuffix(s);
    if l == [] {
      assert s[..|s|] == s;
    } else {
      assert l[0] == s[|s| - |l|];
      StripRightKeeps(l);
    }
  }

  /** No whitespace at either end: what strip returns. */
  predicate Trimmed(s: string) {
    s == [] || (!IsSpace(s[0]) && !IsSpace(s[|s| - 1]))
  }

  /** Text without whitespace at either end is left alone by strip. */
  lemma StripTrimmed(s: string)
    requires Trimmed(s)
    ensures Strip(s) == s
  {
    assert StripLeft(s) == s;
    assert StripRight(s) == s;
  }

  // ---------------------------------------------------------------------------
  // str.split() and " ".join(...)

  /** Length of the leading run of non-whitespace characters. */
  function WordEnd(s: string): (n: nat)
    ensures n <= |s|
    ensures forall i :: 0 <= i < n ==> !IsSpace(s[i])
    ensures n == |s| || IsSpace(s[n])
  {
    if s == [] || IsSpace(s[0]) then 0 else 1 + WordEnd(s[1..])
  }

  /** str.split() with no separator: the maximal whitespace-free runs, in order. */
  function Split(s: string): (ws: seq<string>)
    ensures forall k :: 0 <= k < |ws| ==> IsWord(ws[k])
    decreases |s|
  {
    if s == [] then []
    else if IsSpace(s[0]) then Split(s[1..])
    else
      var n := WordEnd(s);
      [s[..n]] + Split(s[n..])
  }

  /** len(text.split()). */
  function WordCount(s: string): nat {
    |Split(s)|
  }

  /** " ".join(ws). */
  function JoinSp(ws: seq<string>): string {
    if ws == [] then ""
    else if |ws| == 1 then ws[0]
    else ws[0] + " " + JoinSp(ws[1..])
  }

  lemma {:induction false} WordEndOfWord(w: string, rest: string)
    requires IsWord(w)
    requires rest == [] || IsSpace(rest[0])
    ensures WordEnd(w + rest) == |w|
    decreases |w|
  {
    var s := w + rest;
    if |w| == 1 {
      assert s[1..] == rest;
    } else {
      assert s[1..] == w[1..] + rest;
      assert !IsSpace(w[0]);
      WordEndOfWord(w[1..], rest);
    }
  }

  /** A word followed by a whitespace boundary is split off first. */
  lemma SplitWord(w: string, rest: string)
    requires IsWord(w)
    requires rest == [] || IsSpace(rest[0])
    ensures Split(w + rest) == [w] + Split(rest)
  {
    var s := w + rest;
    WordEndOfWord(w, rest);
    assert s[..|w|] == w;
    assert s[|w|..] == rest;
  }

  /** Splitting a space-joined list of words gives the words back. */
  lemma {:induction false} SplitJoin(ws: seq<string>)
    requires forall k :: 0 <= k < |ws| ==> IsWord(ws[k])
    ensures Split(JoinSp(ws)) == ws
  {
    if ws == [] {
    } else if |ws| == 1 {
      SplitWord(ws[0], "");
      assert ws[0] + "" == ws[0];
    } else {
      var tail := JoinSp(ws[1..]);
      SplitWord(ws[0], " " + tail);
      assert ws[0] + " " + tail == ws[0] + (" " + tail);
      assert (" " + tail)[1..] == tail;
      SplitJoin(ws[1..]);
      assert ws == [ws[0]] + ws[1..];
    }
  }

  /** The words of a space-joined list of words are counted one each. */
  lemma WordCountJoin(ws: seq<string>)
    requires forall k :: 0 <= k < |ws| ==> IsWord(ws[k])
    ensures WordCount(JoinSp(ws)) == |ws|
  {
    SplitJoin(ws);
  }

  lemma SpacedTrimmed(a: string, t: string)
    requires a != [] && Trimmed(a) && t != [] && Trimmed(t)
    ensures Trimmed(a + " " + t)
  {
    var j := a + " " + t;
    assert j[0] == a[0];
    assert j[|j| - 1] == t[|t| - 1];
  }

  /** Joining stripped, non-empty texts gives a text strip leaves alone, which is
      why strip after join never changes a body block built from kept lines. */
  lemma {:induction false} JoinTrimmed(ws: seq<string>)
    requires forall k :: 0 <= k < |ws| ==> ws[k] != [] && Trimmed(ws[k])
    ensures ws == [] || JoinSp(ws) != []
    ensures Trimmed(JoinSp(ws)) && Strip(JoinSp(ws)) == JoinSp(ws)
  {
    if |ws| > 1 {
      JoinTrimmed(ws[1..]);
      assert ws[0] != [] && Trimmed(ws[0]);
      SpacedTrimmed(ws[0], JoinSp(ws[1..]));
      StripTrimmed(JoinSp(ws));
    } else if |ws| == 1 {
      StripTrimmed(ws[0]);
    }
  }

  // ---------------------------------------------------------------------------
  // The footer pattern ^Page \d+ of \d+$

  predicate IsDigits(s: string) {
    s != [] && forall i :: 0 <= i < |s| ==> IsDigitChar(s[i])
  }

  /** Length of the leading run of ASCII digits. */
  function DigitRun(s: string): (n: nat)
    ensures n <= |s|
    ensures forall i :: 0 <= i < n ==> IsDigitChar(s[i])
    ensures n == |s| || !IsDigitChar(s[n])
  {
    if s == [] || !IsDigitChar(s[0]) then 0 else 1 + DigitRun(s[1..])
  }

  /** re.match(r'^Page \d+ of \d+$', s) on a stripped text: the first digit run
      must be maximal, since the character after it is a space. */
  predicate IsFooter(s: string) {
    |s| > 5 && s[..5] == "Page " &&
    var t := s[5..];
    var n := DigitRun(t);
    0 < n && n + 4 <= |t| && t[n..n + 4] == " of " && IsDigits(t[n + 4..])
  }

  function FooterText(a: string, b: string): string {
    "Page " + a + " of " + b
  }

  lemma {:induction false} DigitRunOfDigits(a: string, rest: string)
    requires IsDigits(a)
    requires rest == [] || !IsDigitChar(rest[0])
    ensures DigitRun(a + rest) == |a|
    decreases |a|
  {
    var s := a + rest;
    if |a| == 1 {
      assert s[1..] == rest;
    } else {
      assert s[1..] == a[1..] + rest;
      assert IsDigitChar(a[0]);
      DigitRunOfDigits(a[1..], rest);
    }
  }

  /** Every "Page <digits> of <digits>" text is a footer. */
  lemma FooterOf(a: string, b: string)
    requires IsDigits(a) && IsDigits(b)
    ensures IsFooter(FooterText(a, b))
  {
    var s := FooterText(a, b);
    var t := a + " of " + b;
    assert s == "Page " + t;
    assert s[..5] == "Page ";
    assert s[5..] == t;
    assert t == a + (" of " + b);
    DigitRunOfDigits(a, " of " + b);
    assert t[|a|..|a| + 4] == " of ";
    assert t[|a| + 4..] == b;
  }

  /** Every footer is "Page <digits> of <digits>". */
  lemma FooterParts(s: string) returns (a: string, b: string)
    requires IsFooter(s)
    ensures IsDigits(a) && IsDigits(b) && s == FooterText(a, b)
  {
    var t := s[5..];
    var n := DigitRun(t);
    a, b := t[..n], t[n + 4..];
    assert s == s[..5] + t;
    assert t == t[..n] + t[n..n + 4] + t[n + 4..];
  }

  /** The footer predicate matches exactly the texts "Page <digits> of <digits>". */
  lemma FooterShape(s: string)
    ensures IsFooter(s) <==>
      exists a, b :: IsDigits(a) && IsDigits(b) && s == FooterText(a, b)
  {
    if IsFooter(s) {
      var a, b := FooterParts(s);
    }
    forall a, b | IsDigits(a) && IsDigits(b) && s == FooterText(a, b)
      ensures IsFooter(s)
    {
      FooterOf(a, b);
    }
  }

  /** A stripped line text that both engines let through: non-empty and not a
      page footer. */
  predicate Admitted(t: string) {
    t != [] && !IsFooter(t)
  }
}

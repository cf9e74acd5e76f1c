/** Strings as Python compares, joins and strips them. */
module Strings {
  /** Code-point order. */
  predicate StringLe(a: string, b: string) {
    if a == [] then true
    else if b == [] then false
    else a[0] < b[0] || (a[0] == b[0] && StringLe(a[1..], b[1..]))
  }

  lemma {:induction false} StringLeTotal(a: string, b: string)
    ensures StringLe(a, b) || StringLe(b, a)
  {
    if a != [] && b != [] {
      StringLeTotal(a[1..], b[1..]);
    }
  }

  lemma {:induction false} StringLeTransitive(a: string, b: string, c: string)
    requires StringLe(a, b) && StringLe(b, c)
    ensures StringLe(a, c)
  {
    if a != [] && a[0] == b[0] == c[0] {
      StringLeTransitive(a[1..], b[1..], c[1..]);
    }
  }

  lemma {:induction false} StringLeAntisymmetric(a: string, b: string)
    requires StringLe(a, b) && StringLe(b, a)
    ensures a == b
  {
    if a != [] {
      StringLeAntisymmetric(a[1..], b[1..]);
      assert a == [a[0]] + a[1..] && b == [b[0]] + b[1..];
    }
  }

  /** The order is the dictionary's: the first position at which two strings differ decides, and where one
      runs out first it comes first. */
  lemma {:induction false} FirstDifferenceDecides(a: string, b: string, i: nat)
    requires i <= |a| && i <= |b| && a[..i] == b[..i]
    ensures i < |a| && i < |b| && a[i] != b[i] ==> (StringLe(a, b) <==> a[i] < b[i])
    ensures i == |a| ==> StringLe(a, b)
    ensures i == |b| < |a| ==> !StringLe(a, b)
  {
    if i > 0 {
      assert a[0] == a[..i][0] == b[..i][0] == b[0];
      assert a[1..][..i - 1] == a[..i][1..] == b[..i][1..] == b[1..][..i - 1];
      FirstDifferenceDecides(a[1..], b[1..], i - 1);
    }
  }

  // ------------------------------------------------------------------ whitespace

  /** The characters Python's str.strip removes. */
  predicate IsSpace(c: char) {
    || '\t' <= c <= '\r' || '\U{001C}' <= c <= ' ' || c == '\U{0085}' || c == '\U{00A0}' || c == '\U{1680}'
    || '\U{2000}' <= c <= '\U{200A}' || c == '\U{2028}' || c == '\U{2029}' || c == '\U{202F}' || c == '\U{205F}'
    || c == '\U{3000}'
  }

  /** Among the characters up to the tilde these ten are removed: space, the five controls from tab to
      carriage return, and the four information separators. */
  lemma AsciiSpaces(c: char)
    requires c <= '~'
    ensures IsSpace(c) <==> c == ' ' || c in {'\t', '\n', '\U{000B}', '\U{000C}', '\r'}
                            || c in {'\U{001C}', '\U{001D}', '\U{001E}', '\U{001F}'}
  {
  }

  function StripLeft(s: string): string {
    if s != "" && IsSpace(s[0]) then StripLeft(s[1..]) else s
  }

  function StripRight(s: string): string {
    if s != "" && IsSpace(s[|s| - 1]) then StripRight(s[..|s| - 1]) else s
  }

  function Strip(s: string): string {
    StripRight(StripLeft(s))
  }

  /** Has a character that stripping keeps. */
  predicate Inked(s: string) {
    exists i :: 0 <= i < |s| && !IsSpace(s[i])
  }

  /** Starts and ends with such a character. */
  predicate Trimmed(s: string) {
    s != "" && !IsSpace(s[0]) && !IsSpace(s[|s| - 1])
  }

  lemma {:induction false} StripLeftInked(s: string)
    requires Inked(s)
    ensures Inked(StripLeft(s)) && StripLeft(s) != "" && !IsSpace(StripLeft(s)[0])
  {
    hide IsSpace;
    var i :| 0 <= i < |s| && !IsSpace(s[i]);
    if IsSpace(s[0]) {
      assert !IsSpace(s[1..][i - 1]);
      StripLeftInked(s[1..]);
    }
  }

  lemma {:induction false} StripRightInked(s: string)
    requires Inked(s)
    ensures StripRight(s) != "" && !IsSpace(StripRight(s)[|StripRight(s)| - 1])
    ensures StripRight(s) <= s
  {
    hide IsSpace;
    var i :| 0 <= i < |s| && !IsSpace(s[i]);
    if IsSpace(s[|s| - 1]) {
      assert !IsSpace(s[..|s| - 1][i]);
      StripRightInked(s[..|s| - 1]);
    }
  }

  /** Stripping a string with ink leaves it trimmed. */
  lemma StripTrims(s: string)
    requires Inked(s)
    ensures Trimmed(Strip(s))
  {
    hide IsSpace;
    StripLeftInked(s);
    var t := StripLeft(s);
    StripRightInked(t);
    assert StripRight(t)[0] == t[0];
  }

  /** A trimmed string is not changed by stripping. */
  lemma TrimmedStrip(s: string)
    requires Trimmed(s)
    ensures Strip(s) == s
  {
    hide IsSpace;
  }

  lemma {:induction false} BlankStrips(s: string)
    requires !Inked(s)
    ensures Strip(s) == ""
  {
    hide IsSpace;
    if s != "" {
      assert forall i :: 0 <= i < |s| - 1 ==> s[1..][i] == s[i + 1];
      BlankStrips(s[1..]);
    }
  }

  // --------------------------------------------------------------------- joining

  function Join(sep: string, parts: seq<string>): string {
    if parts == [] then ""
    else if |parts| == 1 then parts[0]
    else Join(sep, parts[..|parts| - 1]) + sep + parts[|parts| - 1]
  }

  ghost predicate AllTrimmed(parts: seq<string>) {
    forall i :: 0 <= i < |parts| ==> Trimmed(parts[i])
  }

  lemma {:induction false} JoinTrimmed(sep: string, parts: seq<string>)
    requires parts != [] && AllTrimmed(parts)
    ensures Trimmed(Join(sep, parts))
  {
    hide IsSpace;
    if |parts| > 1 {
      JoinTrimmed(sep, parts[..|parts| - 1]);
      var front, last := Join(sep, parts[..|parts| - 1]), parts[|parts| - 1];
      var whole := front + sep + last;
      assert whole[0] == front[0] && whole[|whole| - 1] == last[|last| - 1];
    }
  }

  lemma {:induction false} JoinInked(sep: string, parts: seq<string>, i: nat)
    requires i < |parts| && Inked(parts[i])
    ensures Inked(Join(sep, parts))
  {
    hide IsSpace;
    if |parts| > 1 {
      var k := |parts| - 1;
      var front := Join(sep, parts[..k]);
      var whole := front + sep + parts[k];
      if i < k {
        JoinInked(sep, parts[..k], i);
        var j :| 0 <= j < |front| && !IsSpace(front[j]);
        assert !IsSpace(whole[j]);
      } else {
        var j :| 0 <= j < |parts[k]| && !IsSpace(parts[k][j]);
        assert !IsSpace(whole[|front| + |sep| + j]);
      }
    }
  }

  /** Every part stands whole inside the joined string. */
  ghost predicate Contains(s: string, part: string) {
    exists i :: StandsAt(s, part, i)
  }

  predicate StandsAt(s: string, part: string, i: int) {
    0 <= i <= |s| - |part| && s[i..i + |part|] == part
  }

  lemma {:induction false} JoinContains(sep: string, parts: seq<string>, i: nat)
    requires i < |parts|
    ensures Contains(Join(sep, parts), parts[i])
  {
    var k := |parts| - 1;
    var whole := Join(sep, parts);
    if |parts| == 1 {
      assert StandsAt(whole, parts[0], 0);
    } else {
      var front := Join(sep, parts[..k]);
      if i < k {
        JoinContains(sep, parts[..k], i);
        assert parts[..k][i] == parts[i];
        var at :| StandsAt(front, parts[i], at);
        assert whole[at..at + |parts[i]|] == front[at..at + |parts[i]|];
        assert StandsAt(whole, parts[i], at);
      } else {
        var at := |front| + |sep|;
        assert StandsAt(whole, parts[k], at);
      }
    }
  }

  // ------------------------------------------------- stripping what was joined

  /** Stripping takes white space off both ends and nothing else. */
  lemma StripParts(s: string) returns (i: nat, j: nat)
    ensures i <= j <= |s| && Strip(s) == s[i..j]
    ensures forall k :: (0 <= k < i || j <= k < |s|) ==> IsSpace(s[k])
  {
    i := LeftPart(s);
    var t := StripLeft(s);
    var n := RightPart(t);
    j := i + n;
    assert t == s[i..];
    forall k | j <= k < |s|
      ensures IsSpace(s[k])
    {
      assert s[k] == t[k - i];
    }
  }

  lemma {:induction false} LeftPart(s: string) returns (i: nat)
    ensures i <= |s| && StripLeft(s) == s[i..] && forall k :: 0 <= k < i ==> IsSpace(s[k])
  {
    hide IsSpace;
    if s != "" && IsSpace(s[0]) {
      i := LeftPart(s[1..]);
      i := i + 1;
      assert forall k :: 0 < k < i ==> s[k] == s[1..][k - 1];
    } else {
      i := 0;
    }
  }

  lemma {:induction false} RightPart(s: string) returns (n: nat)
    ensures n <= |s| && StripRight(s) == s[..n] && forall k :: n <= k < |s| ==> IsSpace(s[k])
  {
    hide IsSpace;
    if s != "" && IsSpace(s[|s| - 1]) {
      n := RightPart(s[..|s| - 1]);
    } else {
      n := |s|;
    }
  }

  lemma {:induction false} StripLeftAppend(a: string, t: string)
    requires Inked(a)
    ensures StripLeft(a + t) == StripLeft(a) + t
  {
    hide IsSpace;
    var i :| 0 <= i < |a| && !IsSpace(a[i]);
    if IsSpace(a[0]) {
      assert !IsSpace(a[1..][i - 1]);
      StripLeftAppend(a[1..], t);
      assert (a + t)[1..] == a[1..] + t;
    }
  }

  lemma {:induction false} StripRightPrepend(t: string, b: string)
    requires Inked(b)
    ensures StripRight(t + b) == t + StripRight(b)
  {
    hide IsSpace;
    var n := |b| - 1;
    var i :| 0 <= i < |b| && !IsSpace(b[i]);
    if IsSpace(b[n]) {
      assert !IsSpace(b[..n][i]);
      StripRightPrepend(t, b[..n]);
      assert (t + b)[..|t + b| - 1] == t + b[..n];
    }
  }

  /** The two ends are stripped independently. */
  lemma {:induction false} StripsCommute(s: string)
    requires Inked(s)
    ensures StripLeft(StripRight(s)) == Strip(s)
  {
    hide IsSpace;
    StripRightInked(s);
    var i :| 0 <= i < |s| && !IsSpace(s[i]);
    if IsSpace(s[0]) {
      assert !IsSpace(s[1..][i - 1]);
      StripsCommute(s[1..]);
      StripRightPrepend([s[0]], s[1..]);
      assert s == [s[0]] + s[1..];
      var r := StripRight(s[1..]);
      assert ([s[0]] + r)[1..] == r;
    } else {
      assert StripRight(s)[0] == s[0];
    }
  }

  lemma {:induction false} StripLeftTwice(s: string)
    ensures StripLeft(StripLeft(s)) == StripLeft(s)
  {
    hide IsSpace;
    if s != "" && IsSpace(s[0]) {
      StripLeftTwice(s[1..]);
    }
  }

  lemma {:induction false} StripRightTwice(s: string)
    ensures StripRight(StripRight(s)) == StripRight(s)
  {
    hide IsSpace;
    if s != "" && IsSpace(s[|s| - 1]) {
      StripRightTwice(s[..|s| - 1]);
    }
  }

  lemma OneEndStrips(s: string)
    requires Inked(s)
    ensures Strip(StripLeft(s)) == Strip(s) && Strip(StripRight(s)) == Strip(s) && Strip(Strip(s)) == Strip(s)
  {
    hide StripLeft, StripRight;
    StripLeftTwice(s);
    StripsCommute(s);
    StripRightTwice(StripLeft(s));
    StripTrims(s);
    TrimmedStrip(Strip(s));
  }

  lemma {:induction false} JoinFirst(sep: string, parts: seq<string>)
    requires |parts| >= 2
    ensures Join(sep, parts) == parts[0] + sep + Join(sep, parts[1..])
  {
    var n := |parts| - 1;
    if n == 1 {
      assert parts[..1] == [parts[0]] && parts[1..] == [parts[1]];
    } else {
      JoinFirst(sep, parts[..n]);
      assert parts[..n][1..] == parts[1..][..n - 1];
    }
  }

  /** The same texts up to white space at their ends. */
  ghost predicate SameInk(a: seq<string>, b: seq<string>) {
    |a| == |b| && forall i :: 0 <= i < |a| ==> Strip(a[i]) == Strip(b[i])
  }

  /** Stripping what was joined from texts with ink leaves those texts joined, each but for white space. */
  lemma StripJoined(sep: string, parts: seq<string>) returns (out: seq<string>)
    requires parts != [] && forall i :: 0 <= i < |parts| ==> Inked(parts[i])
    ensures SameInk(out, parts) && Strip(Join(sep, parts)) == Join(sep, out)
  {
    hide StripLeft, StripRight, Inked;
    var n := |parts| - 1;
    OneEndStrips(parts[0]);
    OneEndStrips(parts[n]);
    if n == 0 {
      out := [Strip(parts[0])];
    } else {
      out := parts[0 := StripLeft(parts[0])][n := StripRight(parts[n])];
      JoinFirst(sep, parts);
      var rest := sep + Join(sep, parts[1..]);
      assert parts[0] + sep + Join(sep, parts[1..]) == parts[0] + rest;
      StripLeftAppend(parts[0], rest);
      var left := parts[0 := StripLeft(parts[0])];
      JoinFirst(sep, left);
      assert left[1..] == parts[1..];
      assert StripLeft(parts[0]) + rest == StripLeft(parts[0]) + sep + Join(sep, parts[1..]);
      assert StripLeft(Join(sep, parts)) == Join(sep, left);
      StripRightPrepend(Join(sep, left[..n]) + sep, parts[n]);
      assert out[..n] == left[..n];
    }
  }

  lemma ContainsTrans(s: string, t: string, u: string)
    requires Contains(s, t) && Contains(t, u)
    ensures Contains(s, u)
  {
    var i :| StandsAt(s, t, i);
    var j :| StandsAt(t, u, j);
    var v, w := t[j..j + |u|], s[i + j..i + j + |u|];
    forall k | 0 <= k < |u|
      ensures v[k] == w[k]
    {
      assert s[i..i + |t|][j + k] == s[i + j + k];
    }
    assert v == w;
    assert StandsAt(s, u, i + j);
  }

  lemma ContainsStripped(s: string)
    ensures Contains(s, Strip(s))
  {
    var i, j := StripParts(s);
    assert StandsAt(s, Strip(s), i);
  }

  // --------------------------------------------------------------------- numbers

  function Digit(d: nat): char
    requires d < 10
  {
    '0' + d as char
  }

  function Decimal(n: nat): (r: string)
    ensures r != ""
  {
    if n < 10 then [Digit(n)] else Decimal(n / 10) + [Digit(n % 10)]
  }

  /** f"{n:03d}" */
  function Pad3(n: nat): string {
    var s := Decimal(n);
    if |s| == 1 then "00" + s else if |s| == 2 then "0" + s else s
  }

  predicate AllDigits(s: string) {
    forall i :: 0 <= i < |s| ==> '0' <= s[i] <= '9'
  }

  /** Reading a digit string back. */
  function Value(s: string): int {
    if s == "" then 0 else 10 * Value(s[..|s| - 1]) + (s[|s| - 1] as int - '0' as int)
  }

  lemma {:induction false} DecimalReadsBack(n: nat)
    ensures AllDigits(Decimal(n)) && Value(Decimal(n)) == n
  {
    if n < 10 {
      assert Value([Digit(n)]) == 10 * Value([Digit(n)][..0]) + n;
    } else {
      DecimalReadsBack(n / 10);
      var front := Decimal(n / 10);
      assert (front + [Digit(n % 10)])[..|front|] == front;
    }
  }

  lemma {:induction false} LeadingZero(s: string)
    ensures Value("0" + s) == Value(s)
  {
    if s == "" {
      assert Value("0") == 10 * Value("0"[..0]) + 0;
      assert "0" + s == "0";
    } else {
      LeadingZero(s[..|s| - 1]);
      assert ("0" + s)[..|s|] == "0" + s[..|s| - 1];
    }
  }

  lemma Pad3ReadsBack(n: nat)
    ensures AllDigits(Pad3(n)) && Value(Pad3(n)) == n
  {
    hide Value, Decimal;
    DecimalReadsBack(n);
    var s := Decimal(n);
    LeadingZero(s);
    LeadingZero("0" + s);
    assert "00" + s == "0" + ("0" + s);
  }

  lemma {:induction false} DecimalWidth(n: nat)
    ensures |Decimal(n)| == if n < 10 then 1 else 1 + |Decimal(n / 10)|
    ensures n < 10 <==> |Decimal(n)| == 1
    ensures n < 100 <==> |Decimal(n)| <= 2
    ensures n < 1000 <==> |Decimal(n)| <= 3
  {
    if n >= 10 {
      DecimalWidth(n / 10);
    }
  }

  /** Three digits, more only for numbers that need them. */
  lemma Pad3Width(n: nat)
    ensures |Pad3(n)| >= 3 && (|Pad3(n)| == 3 <==> n < 1000)
  {
    hide Decimal;
    DecimalWidth(n);
  }

  lemma FirstBeforeDash(a: string, x: string)
    requires AllDigits(a)
    ensures (a + "-" + x)[0] == '-' <==> a == ""
  {
    assert a != "" ==> (a + "-" + x)[0] == a[0];
  }

  lemma {:induction false} SameBeforeDash(a: string, b: string, x: string, y: string)
    requires AllDigits(a) && AllDigits(b) && a + "-" + x == b + "-" + y
    ensures a == b
  {
    var s, t := a + "-" + x, b + "-" + y;
    FirstBeforeDash(a, x);
    FirstBeforeDash(b, y);
    if a != "" && b != "" {
      assert s[0] == a[0] && t[0] == b[0];
      assert s[1..] == a[1..] + "-" + x && t[1..] == b[1..] + "-" + y;
      SameBeforeDash(a[1..], b[1..], x, y);
      assert a == [a[0]] + a[1..] && b == [b[0]] + b[1..];
    }
  }
}

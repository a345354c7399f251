/** Rendering of a countdown as `MM:SS` (app/page.tsx, formatTime): whole
    minutes and the remaining seconds, each written in decimal and left-padded
    with '0' to at least two characters. Padding never truncates, so the
    minutes field grows past two digits for long durations. */
module TimeFormat {

  datatype Option<T> = None | Some(value: T)

  predicate IsDigit(c: char) {
    '0' <= c <= '9'
  }

  predicate AllDigits(s: string) {
    forall i :: 0 <= i < |s| ==> IsDigit(s[i])
  }

  function DigitChar(d: nat): (c: char)
    requires d < 10
    ensures IsDigit(c) && c as int - '0' as int == d
  {
    ('0' as int + d) as char
  }

  /** The number a string of decimal digits denotes (leading zeros allowed). */
  function Value(s: string): nat
    requires AllDigits(s)
  {
    if s == [] then 0 else Value(s[..|s| - 1]) * 10 + (s[|s| - 1] as int - '0' as int)
  }

  /** Decimal representation of a non-negative integer, as `toString()` gives it:
      at least one digit, no leading zero, and denoting exactly `n`. */
  function NatToString(n: nat): (s: string)
    ensures 1 <= |s| && AllDigits(s) && Value(s) == n
    ensures |s| > 1 ==> s[0] != '0'
    ensures n < 10 ==> |s| == 1
    ensures 10 <= n < 100 ==> |s| == 2
    decreases n
  {
    if n < 10 then [DigitChar(n)]
    else
      var prefix := NatToString(n / 10);
      var s := prefix + [DigitChar(n % 10)];
      assert s[..|s| - 1] == prefix;
      s
  }

  /** `k` copies of character `c`. */
  function Repeat(c: char, k: nat): (r: string)
    ensures |r| == k && forall i :: 0 <= i < k ==> r[i] == c
  {
    if k == 0 then [] else [c] + Repeat(c, k - 1)
  }

  /** `s.padStart(width, fill)` for a one-character fill: left-pads up to
      `width` and returns `s` itself when it is already long enough. */
  function PadStart(s: string, width: nat, fill: char): string {
    if |s| >= width then s else Repeat(fill, width - |s|) + s
  }

  /** The value of a digit string is unaffected by leading zeros. */
  lemma {:induction false} ValueLeadingZeros(k: nat, s: string)
    requires AllDigits(s)
    ensures AllDigits(Repeat('0', k) + s)
    ensures Value(Repeat('0', k) + s) == Value(s)
    decreases |s|
  {
    var z := Repeat('0', k);
    var t := z + s;
    assert AllDigits(t) by {
      forall i | 0 <= i < |t| ensures IsDigit(t[i]) {
        if i < k { assert t[i] == z[i]; } else { assert t[i] == s[i - k]; }
      }
    }
    if s == [] {
      assert t == z;
      ZerosValue(k);
    } else {
      var init := s[..|s| - 1];
      assert t[..|t| - 1] == z + init;
      assert t[|t| - 1] == s[|s| - 1];
      ValueLeadingZeros(k, init);
    }
  }

  /** A string of zeros denotes 0. */
  lemma {:induction false} ZerosValue(k: nat)
    ensures AllDigits(Repeat('0', k)) && Value(Repeat('0', k)) == 0
  {
    if k > 0 {
      var z := Repeat('0', k);
      assert z[..k - 1] == Repeat('0', k - 1);
      ZerosValue(k - 1);
    }
  }

  /** Zero-padding a digit string keeps its value, reaches the width, and
      never cuts a character off: the original string is its suffix. */
  lemma PadStartZeros(s: string, width: nat)
    requires AllDigits(s)
    ensures var p := PadStart(s, width, '0');
      AllDigits(p) && Value(p) == Value(s)
      && |p| == (if |s| >= width then |s| else width)
      && p[|p| - |s|..] == s
  {
    if |s| < width {
      ValueLeadingZeros(width - |s|, s);
    }
  }

  /** `MM:SS` for a non-negative number of seconds. */
  function FormatTime(seconds: nat): string {
    var mins := seconds / 60;
    var secs := seconds % 60;
    PadStart(NatToString(mins), 2, '0') + ":" + PadStart(NatToString(secs), 2, '0')
  }

  /** The minutes field of a rendered time: everything before the final `:SS`. */
  function MinutesField(r: string): string
    requires |r| >= 3
  {
    r[..|r| - 3]
  }

  /** The seconds field of a rendered time: its last two characters. */
  function SecondsField(r: string): string
    requires |r| >= 3
  {
    r[|r| - 2..]
  }

  /** Shape of `formatTime(n)`: a minutes field of at least two digits that
      denotes n / 60 (with no upper bound), a colon, and a seconds field of
      exactly two digits that denotes n % 60 < 60; together they give back n
      (by the division identity MinutesAndSeconds). */
  lemma FormatTimeFields(n: nat)
    ensures var r := FormatTime(n);
      |r| >= 5 && r[|r| - 3] == ':'
      && AllDigits(MinutesField(r)) && |MinutesField(r)| >= 2
      && AllDigits(SecondsField(r)) && |SecondsField(r)| == 2
      && Value(MinutesField(r)) == n / 60
      && Value(SecondsField(r)) == n % 60 < 60
      && Value(MinutesField(r)) * 60 + Value(SecondsField(r)) == n
  {
    var m := PadStart(NatToString(n / 60), 2, '0');
    var s := PadStart(NatToString(n % 60), 2, '0');
    PadStartZeros(NatToString(n / 60), 2);
    PadStartZeros(NatToString(n % 60), 2);
    SplitFields(m, s);
    MinutesAndSeconds(n);
  }

  /** The fields of `m:ss` are m and ss. */
  lemma SplitFields(m: string, s: string)
    requires |s| == 2
    ensures var r := m + ":" + s;
      |r| == |m| + 3 && r[|r| - 3] == ':' && MinutesField(r) == m && SecondsField(r) == s
  {
    var r := m + ":" + s;
    assert r[..|r| - 3] == m;
    assert r[|r| - 2..] == s;
  }

  /** Whole minutes and the remaining seconds add back up to the duration. */
  lemma MinutesAndSeconds(n: nat)
    ensures n % 60 < 60 && (n / 60) * 60 + n % 60 == n
  {
  }

  /** Reads back a rendered time: a digit field of at least two characters, a
      colon, and a two-digit seconds field below 60. */
  function ParseTime(r: string): Option<nat> {
    if |r| >= 5 && r[|r| - 3] == ':'
       && AllDigits(MinutesField(r)) && AllDigits(SecondsField(r))
       && Value(SecondsField(r)) < 60
    then Some(Value(MinutesField(r)) * 60 + Value(SecondsField(r)))
    else None
  }

  /** Reading a rendered time back gives the number of seconds rendered. */
  lemma ParseFormatTime(n: nat)
    ensures ParseTime(FormatTime(n)) == Some(n)
  {
    FormatTimeFields(n);
  }

  /** Different durations never render to the same text. */
  lemma FormatTimeInjective(a: nat, b: nat)
    requires FormatTime(a) == FormatTime(b)
    ensures a == b
  {
    ParseFormatTime(a);
    ParseFormatTime(b);
  }

  /** Sample renderings, among them the three initial countdown values and a
      duration of more than an hour. */
  lemma FormatTimeExamples()
    ensures FormatTime(0) == "00:00"
    ensures FormatTime(65) == "01:05"
    ensures FormatTime(300) == "05:00"
    ensures FormatTime(1800) == "30:00"
    ensures FormatTime(3661) == "61:01"
  {
    assert NatToString(61) == "61";
  }
}

/** `fmtMMSS` of script.js: whole seconds as a zero-padded `MM:SS` clock string. */
module TimeFormat {

  predicate IsDigit(c: char) {
    '0' <= c <= '9'
  }

  function DigitChar(d: int): (c: char)
    requires 0 <= d < 10
    ensures IsDigit(c)
  {
    ('0' as int + d) as char
  }

  /** The decimal digits of `n`, without leading zeros (JavaScript's `String(n)`). */
  function NatToString(n: nat): (r: string)
    ensures |r| >= 1 && forall i :: 0 <= i < |r| ==> IsDigit(r[i])
    ensures n < 10 <==> |r| == 1
    ensures 10 <= n < 100 ==> |r| == 2
    ensures n >= 10 ==> r[0] != '0'
    decreases n
  {
    if n < 10 then [DigitChar(n)] else NatToString(n / 10) + [DigitChar(n % 10)]
  }

  /** JavaScript's `String(n)` for an integer. */
  function IntToString(n: int): string {
    if n < 0 then "-" + NatToString(-n) else NatToString(n)
  }

  /** `padStart(2, "0")`. */
  function PadStart2(s: string): string {
    if |s| == 0 then "00" else if |s| == 1 then "0" + s else s
  }

  /** JavaScript's `%`: the remainder takes the sign of the dividend. */
  function JsRem(a: int, b: int): int
    requires b > 0
  {
    if a >= 0 then a % b else -((-a) % b)
  }

  /** `fmtMMSS(sec)`: `Math.floor(sec/60)` and `sec%60`, each padded to two characters. */
  function FmtMMSS(sec: int): string {
    // For a positive divisor Dafny's `/` is floor division, as Math.floor(sec/60) is.
    PadStart2(IntToString(sec / 60)) + ":" + PadStart2(IntToString(JsRem(sec, 60)))
  }

  /** The number a string of decimal digits denotes (leading zeros allowed). */
  function DigitsValue(s: string): nat
    decreases |s|
  {
    if s == [] then 0
    else
      var c := s[|s| - 1];
      DigitsValue(s[..|s| - 1]) * 10 + (if IsDigit(c) then c as int - '0' as int else 0)
  }

  /** Reading back the digits of `String(n)` gives `n`. */
  lemma {:induction false} DigitsValueNatToString(n: nat)
    ensures DigitsValue(NatToString(n)) == n
    decreases n
  {
    var r := NatToString(n);
    if n >= 10 {
      DigitsValueNatToString(n / 10);
      assert r[..|r| - 1] == NatToString(n / 10);
    }
  }

  /** Padding a one- or two-digit string with a leading zero keeps its value and
      makes it exactly two digits. */
  lemma PadStart2Digits(s: string)
    requires 1 <= |s| <= 2 && forall i :: 0 <= i < |s| ==> IsDigit(s[i])
    ensures |PadStart2(s)| == 2 && IsDigit(PadStart2(s)[0]) && IsDigit(PadStart2(s)[1])
    ensures DigitsValue(PadStart2(s)) == DigitsValue(s)
  {
    if |s| == 1 {
      var p := PadStart2(s);
      assert p[..1] == "0" && p[..1][..0] == [];
      assert s[..0] == [];
    }
  }

  /** `padStart(2,"0")` of a digit string is a digit string of at least two
      characters with the same value; exactly two when the input has at most two. */
  lemma PadStart2Number(s: string)
    requires |s| >= 1 && forall i :: 0 <= i < |s| ==> IsDigit(s[i])
    ensures var p := PadStart2(s);
      && |p| >= 2 && (|s| <= 2 ==> |p| == 2)
      && (forall i :: 0 <= i < |p| ==> IsDigit(p[i]))
      && DigitsValue(p) == DigitsValue(s)
  {
    if |s| <= 2 {
      PadStart2Digits(s);
    }
  }

  /** The layout of `minutes + ":" + seconds` with a digit minutes part of at least
      two characters and a two-digit seconds part. */
  lemma ClockLayout(pm: string, ps: string)
    requires |pm| >= 2 && |ps| == 2
    requires forall i :: 0 <= i < |pm| ==> IsDigit(pm[i])
    requires IsDigit(ps[0]) && IsDigit(ps[1])
    ensures var r := pm + ":" + ps;
      && |r| == |pm| + 3 && r[|r| - 3] == ':'
      && (forall i :: 0 <= i < |r| - 3 ==> IsDigit(r[i]))
      && IsDigit(r[|r| - 2]) && IsDigit(r[|r| - 1])
      && r[..|r| - 3] == pm && r[|r| - 2..] == ps
  {
    var r := pm + ":" + ps;
    assert r[..|pm|] == pm;
    assert r[|pm| + 1..] == ps;
    forall i | 0 <= i < |r| - 3 ensures IsDigit(r[i]) {
      assert r[i] == pm[i];
    }
  }

  /** For a non-negative number of seconds the clock string is the minutes digits,
      a colon and exactly two seconds digits (five characters below 6000 seconds);
      the seconds read back below 60, and minutes * 60 + seconds gives back `sec`. */
  lemma FmtMMSSReadsBack(sec: int)
    requires sec >= 0
    ensures var r := FmtMMSS(sec);
      && |r| >= 5 && r[|r| - 3] == ':'
      && (forall i :: 0 <= i < |r| - 3 ==> IsDigit(r[i]))
      && (sec < 6000 ==> |r| == 5)
      && IsDigit(r[|r| - 2]) && IsDigit(r[|r| - 1])
      && DigitsValue(r[|r| - 2..]) == sec % 60 < 60
      && DigitsValue(r[..|r| - 3]) == sec / 60
      && DigitsValue(r[..|r| - 3]) * 60 + DigitsValue(r[|r| - 2..]) == sec
  {
    var mm, ss := NatToString(sec / 60), NatToString(sec % 60);
    DigitsValueNatToString(sec % 60);
    DigitsValueNatToString(sec / 60);
    PadStart2Number(mm);
    PadStart2Number(ss);
    var pm, ps := PadStart2(mm), PadStart2(ss);
    assert FmtMMSS(sec) == pm + ":" + ps;
    ClockLayout(pm, ps);
  }
}

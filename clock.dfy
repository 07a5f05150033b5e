/** Clock times as the scheduler writes them: a string of hour digits, a
    colon and a string of minute digits, read as minutes since midnight by
    splitting at the colon and reading each part as a decimal number. */
module Clock {

  predicate IsDigit(c: char) {
    '0' <= c <= '9'
  }

  predicate AllDigits(s: string) {
    forall i :: 0 <= i < |s| ==> IsDigit(s[i])
  }

  function DigitValue(c: char): nat
    requires IsDigit(c)
  {
    c as int - '0' as int
  }

  /** The decimal value of a digit string (the empty string reads as 0, as
      JavaScript's Number reads ""). */
  function DigitsValue(s: string): nat
    requires AllDigits(s)
  {
    if s == [] then 0 else DigitsValue(s[..|s| - 1]) * 10 + DigitValue(s[|s| - 1])
  }

  /** Index of the first ':' of t, or |t| when t has none. */
  function ColonIndex(t: string): (k: nat)
    ensures k <= |t|
    ensures k < |t| ==> t[k] == ':'
    ensures forall i :: 0 <= i < k ==> t[i] != ':'
  {
    if t == [] || t[0] == ':' then 0 else 1 + ColonIndex(t[1..])
  }

  /** A string that `split(":")` cuts into exactly two digit strings. */
  predicate IsTime(t: string) {
    var k := ColonIndex(t);
    k < |t| && AllDigits(t[..k]) && AllDigits(t[k + 1..])
  }

  type Time = t: string | IsTime(t) witness "00:00"

  /** A preference bound as the client may send it: empty or a time. */
  type TimeOrEmpty = t: string | t == "" || IsTime(t) witness ""

  function HourDigits(t: Time): string {
    t[..ColonIndex(t)]
  }

  function MinuteDigits(t: Time): string {
    t[ColonIndex(t) + 1..]
  }

  /** Minutes since midnight: hours * 60 + minutes. */
  function TimeToMinutes(t: Time): nat {
    DigitsValue(HourDigits(t)) * 60 + DigitsValue(MinuteDigits(t))
  }

  /** A time written from its hour and minute digit strings reads back as
      hours * 60 + minutes. */
  lemma TimeOfParts(hh: string, mm: string)
    requires AllDigits(hh) && AllDigits(mm)
    ensures IsTime(hh + ":" + mm)
    ensures ColonIndex(hh + ":" + mm) == |hh|
    ensures TimeToMinutes(hh + ":" + mm) == DigitsValue(hh) * 60 + DigitsValue(mm)
  {
    var t := hh + ":" + mm;
    var k := ColonIndex(t);
    assert t[|hh|] == ':';
    assert forall i :: 0 <= i < |hh| ==> t[i] == hh[i];
    assert t[..k] == hh;
    assert t[k + 1..] == mm;
  }

  /** The two-digit decimal spelling of n < 100. */
  function TwoDigits(n: nat): (s: string)
    requires n < 100
    ensures |s| == 2 && AllDigits(s)
  {
    [('0' as int + n / 10) as char, ('0' as int + n % 10) as char]
  }

  lemma TwoDigitsValue(n: nat)
    requires n < 100
    ensures DigitsValue(TwoDigits(n)) == n
  {
    var s := TwoDigits(n);
    assert s[..1][..0] == [];
    assert DigitsValue(s[..1]) == n / 10;
  }

  /** The "HH:MM" spelling of a clock time. */
  function ClockTime(h: nat, m: nat): (t: Time)
    requires h < 100 && m < 100
    ensures |t| == 5 && t[2] == ':'
  {
    TimeOfParts(TwoDigits(h), TwoDigits(m));
    TwoDigits(h) + ":" + TwoDigits(m)
  }

  /** "HH:MM" reads as h * 60 + m. */
  lemma ClockTimeMinutes(h: nat, m: nat)
    requires h < 100 && m < 100
    ensures TimeToMinutes(ClockTime(h, m)) == h * 60 + m
  {
    TimeOfParts(TwoDigits(h), TwoDigits(m));
    TwoDigitsValue(h);
    TwoDigitsValue(m);
  }

  /** Times are compared as numbers: for proper clock times, one reads as
      fewer minutes than another exactly when it is earlier on the clock. */
  lemma ClockTimeOrder(h1: nat, m1: nat, h2: nat, m2: nat)
    requires h1 < 100 && m1 < 60 && h2 < 100 && m2 < 60
    ensures TimeToMinutes(ClockTime(h1, m1)) < TimeToMinutes(ClockTime(h2, m2))
            <==> h1 < h2 || (h1 == h2 && m1 < m2)
  {
    ClockTimeMinutes(h1, m1);
    ClockTimeMinutes(h2, m2);
  }

  /** Times with hours of different widths are still compared by their
      minutes: "9:30" is earlier than "10:00", although it comes after it
      character by character. */
  lemma UnpaddedTimeOrder()
    ensures IsTime("9:30") && IsTime("10:00")
    ensures TimeToMinutes("9:30") == 9 * 60 + 30 && TimeToMinutes("10:00") == 10 * 60
    ensures "10:00"[0] < "9:30"[0]
  {
    TimeOfParts("9", "30");
    TimeOfParts("10", "00");
    assert "9" + ":" + "30" == "9:30";
    assert "10" + ":" + "00" == "10:00";
    assert "30"[..1] == "3" && "3"[..0] == [];
    assert "10"[..1] == "1" && "1"[..0] == [];
    assert "00"[..1] == "0" && "0"[..0] == [];
    assert "9"[..0] == [];
  }

  /** A leading zero does not change the value of a digit string. */
  lemma {:induction false} LeadingZero(s: string)
    requires AllDigits(s)
    ensures AllDigits("0" + s) && DigitsValue("0" + s) == DigitsValue(s)
  {
    if s == [] {
      assert ("0" + s)[..0] == [];
    } else {
      var z := "0" + s;
      assert z[..|z| - 1] == "0" + s[..|s| - 1];
      LeadingZero(s[..|s| - 1]);
    }
  }

  /** A time with a leading zero reads as the same number of minutes. */
  lemma LeadingZeroTime(t: Time)
    ensures IsTime("0" + t)
    ensures TimeToMinutes("0" + t) == TimeToMinutes(t)
  {
    var hh, mm := HourDigits(t), MinuteDigits(t);
    assert t == hh + ":" + mm;
    LeadingZero(hh);
    assert "0" + t == ("0" + hh) + ":" + mm;
    TimeOfParts(hh, mm);
    TimeOfParts("0" + hh, mm);
  }
}

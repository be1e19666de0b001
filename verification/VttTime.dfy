/**
  Timestamps: printing milliseconds (transcriptions/formats.py), reading them back as
  transcriptions/service.py does, and collecting them as section 6.1 of the W3C WebVTT
  specification does.
 */
module VttTime {
  import opened Wrappers
  import opened Decimal
  import PlainText
  import opened Rounding
  import opened Sequences

  function Milliseconds(seconds: real): nat {
    var rounded := RoundHalfEven(seconds * 1000.0);
    if rounded < 0 then 0 else rounded
  }

  lemma MillisecondsOfCount(ms: nat)
    ensures Milliseconds(ms as real / 1000.0) == ms
  {
    assert ms as real / 1000.0 * 1000.0 == ms as real;
  }

  /** The nearest number of milliseconds, of two as near the even one; nothing before 0. */
  lemma MillisecondsAreNearest(seconds: real)
    ensures var ms := Milliseconds(seconds);
            && (seconds <= 0.0 ==> ms == 0)
            && (seconds >= 0.0 ==> -0.5 <= ms as real - 1000.0 * seconds <= 0.5)
            && (seconds >= 0.0 && (ms as real - 1000.0 * seconds == 0.5 || ms as real - 1000.0 * seconds == -0.5) ==>
                  ms % 2 == 0)
  {
    RoundHalfEvenIsNearest(seconds * 1000.0);
  }

  // -- Printing ---------------------------------------------------------------------------

  function Clock(ms: nat): (parts: (nat, nat, nat, nat))
    ensures parts.1 < 60 && parts.2 < 60 && parts.3 < 1000
    ensures ms == parts.0 * 3_600_000 + parts.1 * 60_000 + parts.2 * 1000 + parts.3
  {
    var rest := ms % 3_600_000;
    (ms / 3_600_000, rest / 60_000, rest % 60_000 / 1000, rest % 60_000 % 1000)
  }

  /** Hours take as many digits as they need. */
  function Format(ms: nat): string {
    var (hours, minutes, seconds, millis) := Clock(ms);
    Padded(hours, 2) + ":" + Padded(minutes, 2) + ":" + Padded(seconds, 2) + "." + Padded(millis, 3)
  }

  function FormatSeconds(seconds: real): string { Format(Milliseconds(seconds)) }

  lemma Widths(ms: nat)
    ensures var (_, minutes, seconds, millis) := Clock(ms);
            |Padded(minutes, 2)| == 2 && |Padded(seconds, 2)| == 2 && |Padded(millis, 3)| == 3
    ensures var (hours, minutes, seconds, millis) := Clock(ms);
            && AllDigits(Padded(hours, 2)) && AllDigits(Padded(minutes, 2)) && AllDigits(Padded(seconds, 2)) &&
              AllDigits(Padded(millis, 3))
            && Padded(hours, 2) != [] && Read(Padded(hours, 2)) == hours && Read(Padded(minutes, 2)) == minutes
            && Read(Padded(seconds, 2)) == seconds && Read(Padded(millis, 3)) == millis
            && (|Padded(hours, 2)| != 2 ==> hours > 59)
  {
    var (hours, minutes, seconds, millis) := Clock(ms);
    assert Power(2) == 100 && Power(3) == 1000 by { assert Power(1) == 10; }
    PrintLength(minutes, 2);
    PrintLength(seconds, 2);
    PrintLength(millis, 3);
    if hours < 100 {
      PrintLength(hours, 2);
    }
    ReadOfPadded(hours, 2);
    ReadOfPadded(minutes, 2);
    ReadOfPadded(seconds, 2);
    ReadOfPadded(millis, 3);
  }

  // -- Reading as the transcription service does ---------------------------------------------

  function CommaForPoint(s: string): string {
    if s == [] then [] else [if s[0] == '.' then ',' else s[0]] + CommaForPoint(s[1..])
  }

  predicate IsNumeral(s: string) { s != [] && AllDigits(s) }

  /** Numerals only; the source reads any floating-point literal in each place. */
  function ToSeconds(timestamp: string): Option<real> {
    var parts := PlainText.Split(CommaForPoint(timestamp), ':');
    if |parts| != 3 then None
    else
      var last := PlainText.Split(parts[2], ',');
      if |last| != 2 then None
      else if IsNumeral(parts[0]) && IsNumeral(parts[1]) && IsNumeral(last[0]) && IsNumeral(last[1]) then
        Some(Read(parts[0]) as real * 3600.0 + Read(parts[1]) as real * 60.0 + Read(last[0]) as real +
          Read(last[1]) as real / 1000.0)
      else None
  }

  lemma {:induction false} CommaForPointAppend(a: string, b: string)
    ensures CommaForPoint(a + b) == CommaForPoint(a) + CommaForPoint(b)
  {
    if a == [] {
      assert a + b == b;
    } else {
      TailOfAppend(a, b);
      CommaForPointAppend(a[1..], b);
      Assoc([if a[0] == '.' then ',' else a[0]], CommaForPoint(a[1..]), CommaForPoint(b));
    }
  }

  lemma {:induction false} DigitsStay(s: string)
    requires AllDigits(s)
    ensures CommaForPoint(s) == s && ':' !in s && ',' !in s && '.' !in s
  {
    if s != [] {
      assert s[0] in s && s == [s[0]] + s[1..];
      DigitsStay(s[1..]);
    }
  }

  lemma SplitClock(h: string, m: string, s: string, r: string)
    requires ':' !in h && ':' !in m && ':' !in s && ':' !in r && ',' !in s && ',' !in r
    ensures PlainText.Split(h + ":" + m + ":" + s + "," + r, ':') == [h, m, s + "," + r]
    ensures PlainText.Split(s + "," + r, ',') == [s, r]
  {
    hide PlainText.Split;
    var last := s + "," + r;
    PlainText.SplitWithout(last, ':');
    PlainText.SplitAtFirst(m, last, ':');
    PlainText.SplitAtFirst(h, m + [':'] + last, ':');
    assert h + [':'] + (m + [':'] + last) == h + ":" + m + ":" + s + "," + r;
    PlainText.SplitWithout(r, ',');
    PlainText.SplitAtFirst(s, r, ',');
  }

  lemma NormalizedForm(h: string, m: string, s: string, r: string)
    requires AllDigits(h) && AllDigits(m) && AllDigits(s) && AllDigits(r)
    ensures CommaForPoint(h + ":" + m + ":" + s + "." + r) == h + ":" + m + ":" + s + "," + r
  {
    DigitsStay(h); DigitsStay(m); DigitsStay(s); DigitsStay(r);
    CommaForPointAppend(h + ":" + m + ":" + s + ".", r);
    CommaForPointAppend(h + ":" + m + ":" + s, ".");
    CommaForPointAppend(h + ":" + m + ":", s);
    CommaForPointAppend(h + ":" + m, ":");
    CommaForPointAppend(h + ":", m);
    CommaForPointAppend(h, ":");
    assert CommaForPoint(":") == ":" && CommaForPoint(".") == ",";
  }

  // -- Collecting as the specification does ------------------------------------------------------

  /** The digits at the front. */
  function Digits(s: string): (d: string)
    ensures AllDigits(d) && |d| <= |s| && d == s[..|d|]
  {
    if s != [] && IsDigit(s[0]) then [s[0]] + Digits(s[1..]) else []
  }

  function AfterDigits(s: string): string { s[|Digits(s)|..] }

  lemma {:induction false} DigitsInFront(a: string, b: string)
    requires AllDigits(a) && (b == [] || !IsDigit(b[0]))
    ensures Digits(a + b) == a && AfterDigits(a + b) == b
  {
    if a == [] {
      assert a + b == b;
    } else {
      assert a[0] in a;
      DigitsInFront(a[1..], b);
      assert (a + b)[1..] == a[1..] + b;
      assert a == [a[0]] + a[1..];
    }
  }

  predicate StartsWith(s: string, c: char) { s != [] && s[0] == c }

  /** The milliseconds of the timestamp at the front and what follows it. */
  function Collect(s: string): Option<(nat, string)> {
    if s == [] || !IsDigit(s[0]) then None
    else if !StartsWith(AfterDigits(s), ':') then None
    else CollectSecond(Digits(s), AfterDigits(s)[1..])
  }

  /** The first numeral counts hours when it cannot be minutes or two more follow. */
  function CollectSecond(first: string, s: string): Option<(nat, string)>
    requires AllDigits(first)
  {
    var second, rest := Digits(s), AfterDigits(s);
    if |second| != 2 then None
    else if StartsWith(rest, ':') then CollectThird(Read(first), Read(second), rest[1..])
    else if |first| != 2 || Read(first) > 59 then None
    else Fraction(rest, 0, Read(first), Read(second))
  }

  function CollectThird(hours: nat, minutes: nat, s: string): Option<(nat, string)> {
    if |Digits(s)| != 2 then None else Fraction(AfterDigits(s), hours, minutes, Read(Digits(s)))
  }

  function Fraction(s: string, hours: nat, minutes: nat, seconds: nat): Option<(nat, string)> {
    if !StartsWith(s, '.') then None
    else
      var fourth := Digits(s[1..]);
      if |fourth| != 3 || minutes > 59 || seconds > 59 then None
      else Some((hours * 3_600_000 + minutes * 60_000 + seconds * 1000 + Read(fourth), AfterDigits(s[1..])))
  }

  lemma FractionBack(r: string, rest: string, hours: nat, minutes: nat, seconds: nat)
    requires AllDigits(r) && |r| == 3 && minutes <= 59 && seconds <= 59 && (rest == [] || !IsDigit(rest[0]))
    ensures Fraction("." + r + rest, hours, minutes, seconds)
         == Some((hours * 3_600_000 + minutes * 60_000 + seconds * 1000 + Read(r), rest))
  {
    hide Read, Digits, AllDigits;
    assert ("." + r + rest)[1..] == r + rest;
    DigitsInFront(r, rest);
  }

  lemma ThirdBack(s: string, tail: string, hours: nat, minutes: nat)
    requires AllDigits(s) && |s| == 2 && StartsWith(tail, '.')
    ensures CollectThird(hours, minutes, s + tail) == Fraction(tail, hours, minutes, Read(s))
  {
    DigitsInFront(s, tail);
  }

  lemma SecondBack(first: string, m: string, tail: string)
    requires AllDigits(first) && AllDigits(m) && |m| == 2
    ensures CollectSecond(first, m + (":" + tail)) == CollectThird(Read(first), Read(m), tail)
  {
    DigitsInFront(m, ":" + tail);
    assert (":" + tail)[1..] == tail;
  }

  lemma FirstBack(h: string, tail: string)
    requires AllDigits(h) && h != []
    ensures Collect(h + (":" + tail)) == CollectSecond(h, tail)
  {
    DigitsInFront(h, ":" + tail);
    assert h[0] in h;
    assert (":" + tail)[1..] == tail;
  }

  /** The four numerals of a printed timestamp. */
  lemma FormatParts(ms: nat, h: string, m: string, s: string, r: string)
    requires h == Padded(Clock(ms).0, 2) && m == Padded(Clock(ms).1, 2)
    requires s == Padded(Clock(ms).2, 2) && r == Padded(Clock(ms).3, 3)
    ensures Format(ms) == h + ":" + m + ":" + s + "." + r
    ensures AllDigits(h) && AllDigits(m) && AllDigits(s) && AllDigits(r)
    ensures h != [] && |m| == 2 && |s| == 2 && |r| == 3 && Read(m) <= 59 && Read(s) <= 59
    ensures ms == Read(h) * 3_600_000 + Read(m) * 60_000 + Read(s) * 1000 + Read(r)
  {
    Widths(ms);
    hide Padded, Read, Clock;
  }

  /** The stages of collecting a clock, each on the tail of the one before. */
  lemma StagesBack(h: string, m: string, s: string, afterFirst: string, afterSecond: string, afterThird: string)
    requires AllDigits(h) && AllDigits(m) && AllDigits(s) && h != [] && |m| == 2 && |s| == 2
    requires afterFirst == m + (":" + afterSecond) && afterSecond == s + afterThird && StartsWith(afterThird, '.')
    ensures Collect(h + (":" + afterFirst)) == Fraction(afterThird, Read(h), Read(m), Read(s))
  {
    FirstBack(h, afterFirst);
    SecondBack(h, m, afterSecond);
    ThirdBack(s, afterThird, Read(h), Read(m));
    hide *;
  }

  lemma FractionOfText(r: string, rest: string, last: string, hours: nat, minutes: nat, seconds: nat)
    requires AllDigits(r) && |r| == 3 && minutes <= 59 && seconds <= 59 && (rest == [] || !IsDigit(rest[0]))
    requires last == "." + r + rest
    ensures StartsWith(last, '.')
    ensures Fraction(last, hours, minutes, seconds) ==
        Some((hours * 3_600_000 + minutes * 60_000 + seconds * 1000 + Read(r), rest))
  {
    FractionBack(r, rest, hours, minutes, seconds);
  }

  /** A printed timestamp is collected whole, whatever follows it but a digit. */
  lemma CollectBack(ms: nat, rest: string)
    requires rest == [] || !IsDigit(rest[0])
    ensures Collect(Format(ms) + rest) == Some((ms, rest))
  {
    hide *;
    var h, m := Padded(Clock(ms).0, 2), Padded(Clock(ms).1, 2);
    var s, r := Padded(Clock(ms).2, 2), Padded(Clock(ms).3, 3);
    FormatParts(ms, h, m, s, r);
    assert Format(ms) + rest == h + (":" + (m + (":" + (s + ("." + r + rest)))));
    var last := "." + r + rest;
    FractionOfText(r, rest, last, Read(h), Read(m), Read(s));
    StagesBack(h, m, s, m + (":" + (s + last)), s + last, last);
  }

  lemma ToSecondsOfNumerals(text: string, h: string, m: string, last: string, s: string, r: string)
    requires IsNumeral(h) && IsNumeral(m) && IsNumeral(s) && IsNumeral(r)
    requires PlainText.Split(CommaForPoint(text), ':') == [h, m, last] && PlainText.Split(last, ',') == [s, r]
    ensures ToSeconds(text) == Some(Read(h) as real * 3600.0 + Read(m) as real * 60.0 + Read(s) as real +
        Read(r) as real / 1000.0)
  {
    hide Read, AllDigits, CommaForPoint, PlainText.Split;
  }

  lemma ToSecondsOfParts(text: string, h: string, m: string, s: string, r: string)
    requires IsNumeral(h) && IsNumeral(m) && IsNumeral(s) && IsNumeral(r)
    requires text == h + ":" + m + ":" + s + "." + r
    ensures ToSeconds(text) == Some(Read(h) as real * 3600.0 + Read(m) as real * 60.0 + Read(s) as real +
        Read(r) as real / 1000.0)
  {
    hide AllDigits, CommaForPoint, PlainText.Split, ToSeconds, Read;
    DigitsStay(h);
    DigitsStay(m);
    DigitsStay(s);
    DigitsStay(r);
    NormalizedForm(h, m, s, r);
    SplitClock(h, m, s, r);
    ToSecondsOfNumerals(text, h, m, s + "," + r, s, r);
  }

  /** Reading a printed timestamp gives its time back, for every count of milliseconds. */
  lemma ReadBack(ms: nat)
    ensures ToSeconds(Format(ms)) == Some(ms as real / 1000.0)
    ensures FormatSeconds(ms as real / 1000.0) == Format(ms)
  {
    hide Format, ToSeconds, Read, Milliseconds, AllDigits;
    MillisecondsOfCount(ms);
    var h, m := Padded(Clock(ms).0, 2), Padded(Clock(ms).1, 2);
    var s, r := Padded(Clock(ms).2, 2), Padded(Clock(ms).3, 3);
    FormatParts(ms, h, m, s, r);
    ToSecondsOfParts(Format(ms), h, m, s, r);
  }
}

/** Prices are stored as comma-grouped digit strings ("2,500") and read back
    with `parseFloat(price.replace(/,/g, ''))`; amounts are shown with
    `toLocaleString()`. This module models both directions on whole numbers:
    the parse yields NaN for anything that is not a non-empty run of digits once
    the commas are gone, and the display groups digits in threes with commas
    (the en-US convention). */
module Price {
  import opened Values
  import Seqs

  predicate IsDigit(c: char) {
    '0' <= c <= '9'
  }

  predicate AllDigits(s: string) {
    forall i :: 0 <= i < |s| ==> IsDigit(s[i])
  }

  function NotComma(c: char): bool {
    c != ','
  }

  /** `s.replace(/,/g, '')`. */
  function StripCommas(s: string): (r: string)
    ensures ',' !in r
    ensures forall c :: c != ',' ==> (c in r <==> c in s)
  {
    Seqs.Filter(s, NotComma)
  }

  /** The value of a string of decimal digits, most significant first. */
  function DigitsValue(s: string): nat
    requires AllDigits(s)
    decreases |s|
  {
    if |s| == 0 then 0
    else DigitsValue(s[..|s| - 1]) * 10 + (s[|s| - 1] as int - '0' as int)
  }

  /** `parseFloat(price.replace(/,/g, ''))` on whole-number prices. */
  function ParsePrice(price: string): (r: Number)
    ensures r.Finite? <==> |StripCommas(price)| > 0 && AllDigits(StripCommas(price))
    ensures r.Finite? ==> 0 <= r.value
  {
    var digits := StripCommas(price);
    if |digits| > 0 && AllDigits(digits) then Finite(DigitsValue(digits)) else NaN
  }

  function DigitChar(d: nat): char
    requires d < 10
  {
    ('0' as int + d) as char
  }

  /** The shortest decimal spelling of `n`. */
  function Digits(n: nat): (r: string)
    ensures |r| > 0 && AllDigits(r)
    decreases n
  {
    if n < 10 then [DigitChar(n)] else Digits(n / 10) + [DigitChar(n % 10)]
  }

  /** Exactly three digits, with leading zeros: one group after a comma. */
  function Pad3(n: nat): (r: string)
    requires n < 1000
    ensures |r| == 3 && AllDigits(r)
  {
    [DigitChar(n / 100), DigitChar(n / 10 % 10), DigitChar(n % 10)]
  }

  /** `n.toLocaleString()` for a whole number in the en-US convention. */
  function Format(n: nat): (r: string)
    ensures |r| > 0 && forall i :: 0 <= i < |r| ==> IsDigit(r[i]) || r[i] == ','
    ensures ',' in r <==> n >= 1000
    decreases n
  {
    if n < 1000 then Digits(n) else Format(n / 1000) + "," + Pad3(n % 1000)
  }

  /** The leading group of a grouped number: one to three digits, without a
      leading zero unless it is the number 0 itself. */
  predicate IsLeadGroup(s: string) {
    1 <= |s| <= 3 && AllDigits(s) && (s[0] != '0' || |s| == 1)
  }

  /** A comma-grouped whole number: a leading group followed by any number of
      ",ddd" groups. */
  predicate IsGrouped(s: string)
    decreases |s|
  {
    IsLeadGroup(s)
    || (|s| > 4 && s[|s| - 4] == ',' && AllDigits(s[|s| - 3..]) && IsGrouped(s[..|s| - 4]))
  }

  lemma DigitsValueOfDigits(n: nat)
    ensures DigitsValue(Digits(n)) == n
    decreases n
  {
    if n >= 10 {
      var d := Digits(n);
      assert d[..|d| - 1] == Digits(n / 10);
      DigitsValueOfDigits(n / 10);
    }
  }

  function DigitOf(c: char): int {
    c as int - '0' as int
  }

  lemma DigitsValueSnoc(s: string, c: char)
    requires AllDigits(s) && IsDigit(c)
    ensures AllDigits(s + [c])
    ensures DigitsValue(s + [c]) == DigitsValue(s) * 10 + DigitOf(c)
  {
    assert (s + [c])[..|s|] == s;
  }

  lemma DigitsValueAppend3(s: string, t: string)
    requires AllDigits(s) && |t| == 3 && AllDigits(t)
    ensures AllDigits(s + t)
    ensures DigitsValue(s + t) == DigitsValue(s) * 1000 + DigitsValue(t)
  {
    assert IsDigit(t[0]) && IsDigit(t[1]) && IsDigit(t[2]);
    DigitsValueSnoc(s, t[0]);
    DigitsValueSnoc(s + [t[0]], t[1]);
    DigitsValueSnoc(s + [t[0]] + [t[1]], t[2]);
    assert s + t == s + [t[0]] + [t[1]] + [t[2]];
    DigitsValueSnoc([], t[0]);
    DigitsValueSnoc([t[0]], t[1]);
    DigitsValueSnoc([t[0]] + [t[1]], t[2]);
    assert t == [] + [t[0]] + [t[1]] + [t[2]];
  }

  lemma DigitsValue3(t: string)
    requires |t| == 3 && AllDigits(t)
    ensures DigitsValue(t) == DigitOf(t[0]) * 100 + DigitOf(t[1]) * 10 + DigitOf(t[2])
  {
    assert IsDigit(t[0]) && IsDigit(t[1]) && IsDigit(t[2]);
    DigitsValueSnoc([], t[0]);
    DigitsValueSnoc([t[0]], t[1]);
    DigitsValueSnoc([t[0]] + [t[1]], t[2]);
    assert t == [] + [t[0]] + [t[1]] + [t[2]];
  }

  lemma Pad3Value(n: nat)
    requires n < 1000
    ensures DigitsValue(Pad3(n)) == n
  {
    var p := Pad3(n);
    DigitsValue3(p);
    var a, b, c := n / 100, n / 10 % 10, n % 10;
    assert DigitOf(p[0]) == a && DigitOf(p[1]) == b && DigitOf(p[2]) == c;
    assert n / 10 == a * 10 + b;
    assert n == (n / 10) * 10 + c;
  }

  lemma {:induction false} StripCommasAppend(a: string, b: string)
    ensures StripCommas(a + b) == StripCommas(a) + StripCommas(b)
  {
    Seqs.FilterAppend(a, b, NotComma);
  }

  lemma StripCommasNoCommas(s: string)
    requires AllDigits(s)
    ensures StripCommas(s) == s
  {
  }

  /** The digits of a grouped number with its commas removed. */
  lemma {:induction false} GroupedDigits(s: string)
    requires IsGrouped(s)
    ensures |StripCommas(s)| > 0 && AllDigits(StripCommas(s))
    decreases |s|
  {
    if !IsLeadGroup(s) {
      var head, tail := s[..|s| - 4], s[|s| - 3..];
      assert s == head + "," + tail;
      GroupedDigits(head);
      StripCommasAppend(head + ",", tail);
      StripCommasAppend(head, ",");
    }
  }

  lemma LeadGroupFormat(n: nat)
    requires n < 1000
    ensures IsLeadGroup(Format(n))
    ensures ParsePrice(Format(n)) == Finite(n)
  {
    DigitsValueOfDigits(n);
    if n >= 10 {
      assert Digits(n)[0] == Digits(n / 10)[0];
      if n >= 100 {
        assert Digits(n / 10)[0] == Digits(n / 100)[0];
      }
    }
  }

  lemma FormatStepGrouped(n: nat)
    requires n >= 1000
    ensures IsGrouped(Format(n / 1000)) ==> IsGrouped(Format(n))
  {
    var head, tail := Format(n / 1000), Pad3(n % 1000);
    var f := head + "," + tail;
    assert f == Format(n);
    assert f[..|f| - 4] == head;
    assert f[|f| - 3..] == tail;
    assert f[|f| - 4] == ',';
  }

  lemma StripCommasJoin(head: string, tail: string)
    requires AllDigits(tail)
    ensures StripCommas(head + "," + tail) == StripCommas(head) + tail
  {
    StripCommasAppend(head + ",", tail);
    StripCommasAppend(head, ",");
    StripCommasComma();
    StripCommasNoCommas(tail);
  }

  lemma StripCommasComma()
    ensures StripCommas(",") == []
  {
    assert !NotComma(","[0]);
  }

  /** A grouped head, a comma and three digits read as the head's value
      times a thousand plus the digits' value. */
  lemma JoinParse(head: string, tail: string)
    requires IsGrouped(head) && ParsePrice(head).Finite?
    requires |tail| == 3 && AllDigits(tail)
    ensures ParsePrice(head + "," + tail) == Finite(ParsePrice(head).value * 1000 + DigitsValue(tail))
  {
    StripCommasJoin(head, tail);
    var digits := StripCommas(head);
    GroupedDigits(head);
    DigitsValueAppend3(digits, tail);
  }

  lemma {:induction false} FormatStep(n: nat)
    requires n >= 1000
    requires IsGrouped(Format(n / 1000)) && ParsePrice(Format(n / 1000)) == Finite(n / 1000)
    ensures IsGrouped(Format(n))
    ensures ParsePrice(Format(n)) == Finite(n)
  {
    var head, tail := Format(n / 1000), Pad3(n % 1000);
    assert Format(n) == head + "," + tail;
    FormatStepGrouped(n);
    JoinParse(head, tail);
    Pad3Value(n % 1000);
    assert ParsePrice(head).value * 1000 + DigitsValue(tail) == n;
  }

  /** What is displayed for an amount is a grouped number that reads back as
      that amount. */
  lemma {:induction false} ParseFormat(n: nat)
    ensures IsGrouped(Format(n))
    ensures ParsePrice(Format(n)) == Finite(n)
    decreases n
  {
    if n < 1000 {
      LeadGroupFormat(n);
    } else {
      ParseFormat(n / 1000);
      FormatStep(n);
    }
  }

  /** `NaN` or a number that is not negative: what `Show` prints for it
      reads back as it. */
  predicate ReadsBack(n: Number) {
    n.NaN? || n.value >= 0
  }

  /** `toLocaleString()` on a whole JavaScript number: `NaN` prints as "NaN",
      a negative number as a minus sign before its grouped magnitude. What is
      printed for `NaN` or a number that is not negative reads back as that
      number. */
  function Show(n: Number): (r: string)
    ensures ReadsBack(n) ==> ParsePrice(r) == n
    ensures !ReadsBack(n) ==> |r| > 1 && r[0] == '-' && ParsePrice(r[1..]) == Finite(-n.value)
  {
    match n
    case NaN =>
      assert "NaN"[0] == 'N' && !IsDigit('N');
      "NaN"
    case Finite(v) =>
      if v >= 0 then
        ParseFormat(v);
        Format(v)
      else
        ParseFormat(-v);
        assert ("-" + Format(-v))[1..] == Format(-v);
        "-" + Format(-v)
  }

  /** A price written "d,ddd" reads as its four digits. */
  lemma ParseThousands(s: string)
    requires |s| == 5 && s[1] == ','
    requires IsDigit(s[0]) && AllDigits(s[2..])
    ensures ParsePrice(s) == Finite(DigitOf(s[0]) * 1000 + DigitOf(s[2]) * 100 + DigitOf(s[3]) * 10 + DigitOf(s[4]))
  {
    DigitsValue3(s[2..]);
    assert s == [s[0]] + "," + s[2..];
    StripCommasJoin([s[0]], s[2..]);
    StripCommasNoCommas([s[0]]);
    DigitsValueAppend3([s[0]], s[2..]);
    DigitsValueSnoc([], s[0]);
    assert [] + [s[0]] == [s[0]];
  }
}

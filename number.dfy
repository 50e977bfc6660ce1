/** Python's `format(n, ",")` for an `int`: decimal digits with a comma
    between every group of three, counted from the right. */
module NumberText {

  predicate IsDigit(c: char) {
    '0' <= c <= '9'
  }

  predicate AllDigits(s: string) {
    forall i :: 0 <= i < |s| ==> IsDigit(s[i])
  }

  function DigitChar(d: nat): (c: char)
    requires d < 10
    ensures IsDigit(c) && DigitValue(c) == d
  {
    ('0' as int + d) as char
  }

  function DigitValue(c: char): (d: nat)
    requires IsDigit(c)
    ensures d < 10
  {
    c as int - '0' as int
  }

  /** The number a string of decimal digits denotes. */
  function DigitsValue(s: string): nat
    requires AllDigits(s)
  {
    if s == [] then 0 else 10 * DigitsValue(s[..|s| - 1]) + DigitValue(s[|s| - 1])
  }

  function Pow10(k: nat): (p: nat)
    ensures p >= 1
  {
    if k == 0 then 1 else 10 * Pow10(k - 1)
  }

  /** Three digits, with leading zeros: a group after a comma. */
  function Pad3(m: nat): (s: string)
    requires m < 1000
    ensures |s| == 3 && AllDigits(s)
  {
    [DigitChar(m / 100), DigitChar(m / 10 % 10), DigitChar(m % 10)]
  }

  /** `format(n, ",")` for `n >= 0`. */
  function Grouped(n: nat): (s: string)
    ensures s != [] && IsDigit(s[0]) && IsDigit(s[|s| - 1])
  {
    if n < 10 then [DigitChar(n)]
    else if n < 100 then [DigitChar(n / 10), DigitChar(n % 10)]
    else if n < 1000 then Pad3(n)
    else Grouped(n / 1000) + "," + Pad3(n % 1000)
  }

  /** `format(n, ",")` for any `int`: a minus sign in front of a negative one. */
  function WithCommas(n: int): (s: string)
    ensures s != []
  {
    if n < 0 then "-" + Grouped(-n) else Grouped(n)
  }

  /** The string with its commas taken out. */
  function Uncomma(s: string): (r: string)
    ensures |r| <= |s|
  {
    if s == [] then []
    else if s[0] == ',' then Uncomma(s[1..])
    else [s[0]] + Uncomma(s[1..])
  }

  lemma {:induction false} UncommaAppend(a: string, b: string)
    ensures Uncomma(a + b) == Uncomma(a) + Uncomma(b)
    decreases |a|
  {
    if a == [] {
      assert a + b == b;
    } else {
      assert (a + b)[0] == a[0];
      assert (a + b)[1..] == a[1..] + b;
      UncommaAppend(a[1..], b);
    }
  }

  lemma {:induction false} UncommaOfDigits(s: string)
    requires AllDigits(s)
    ensures Uncomma(s) == s
    decreases |s|
  {
    if s != [] {
      UncommaOfDigits(s[1..]);
      assert s == [s[0]] + s[1..];
    }
  }

  lemma AllDigitsConcat(a: string, b: string)
    requires AllDigits(a) && AllDigits(b)
    ensures AllDigits(a + b)
  {
    forall i | 0 <= i < |a + b| ensures IsDigit((a + b)[i]) {
      if i < |a| { assert (a + b)[i] == a[i]; } else { assert (a + b)[i] == b[i - |a|]; }
    }
  }

  lemma ShiftDecimal(x: nat, p: nat, y: nat, d: nat)
    ensures 10 * (x * p + y) + d == x * (10 * p) + (10 * y + d)
  {
  }

  lemma {:induction false} DigitsValueAppend(a: string, b: string)
    requires AllDigits(a) && AllDigits(b)
    ensures AllDigits(a + b)
    ensures DigitsValue(a + b) == DigitsValue(a) * Pow10(|b|) + DigitsValue(b)
    decreases |b|
  {
    AllDigitsConcat(a, b);
    if b == [] {
      assert a + b == a;
    } else {
      var b' := b[..|b| - 1];
      var last := b[|b| - 1];
      assert (a + b)[..|a + b| - 1] == a + b';
      assert (a + b)[|a + b| - 1] == last;
      DigitsValueAppend(a, b');
      var x, p, y, d := DigitsValue(a), Pow10(|b'|), DigitsValue(b'), DigitValue(last);
      assert DigitsValue(a + b) == 10 * (x * p + y) + d;
      ShiftDecimal(x, p, y, d);
      assert DigitsValue(b) == 10 * y + d;
      assert Pow10(|b|) == 10 * p;
    }
  }

  lemma Pad3Value(m: nat)
    requires m < 1000
    ensures DigitsValue(Pad3(m)) == m
  {
    var s := Pad3(m);
    assert s[..2][..1] == [DigitChar(m / 100)];
    assert [DigitChar(m / 100)][..0] == [];
    assert DigitsValue([DigitChar(m / 100)]) == m / 100;
    assert DigitsValue(s[..2]) == 10 * (m / 100) + m / 10 % 10;
    assert m / 10 == 10 * (m / 100) + m / 10 % 10;
    assert DigitsValue(s) == 10 * (m / 10) + m % 10;
  }

  lemma SmallRoundTrip(n: nat)
    requires n < 1000
    ensures AllDigits(Uncomma(Grouped(n)))
    ensures DigitsValue(Uncomma(Grouped(n))) == n
  {
    var s := Grouped(n);
    UncommaOfDigits(s);
    if n < 10 {
      assert s[..0] == [];
    } else if n < 100 {
      assert s[..1][..0] == [];
      assert DigitsValue(s[..1]) == n / 10;
      assert DigitsValue(s) == 10 * (n / 10) + n % 10;
    } else {
      Pad3Value(n);
    }
  }

  lemma UncommaGroup(head: string, tail: string)
    requires AllDigits(tail)
    ensures Uncomma(head + "," + tail) == Uncomma(head) + tail
  {
    UncommaAppend(head + ",", tail);
    UncommaAppend(head, ",");
    assert Uncomma(",") == [];
    assert Uncomma(head) + [] == Uncomma(head);
    UncommaOfDigits(tail);
  }

  /** Taking the commas out of `format(n, ",")` leaves the decimal digits of `n`. */
  lemma {:induction false} GroupedRoundTrip(n: nat)
    ensures AllDigits(Uncomma(Grouped(n)))
    ensures DigitsValue(Uncomma(Grouped(n))) == n
    decreases n
  {
    if n < 1000 {
      SmallRoundTrip(n);
    } else {
      var head := Grouped(n / 1000);
      var tail := Pad3(n % 1000);
      assert Grouped(n) == head + "," + tail;
      GroupedRoundTrip(n / 1000);
      UncommaGroup(head, tail);
      Pad3Value(n % 1000);
      DigitsValueAppend(Uncomma(head), tail);
      assert Pow10(3) == 1000;
      assert DigitsValue(Uncomma(head) + tail) == (n / 1000) * 1000 + n % 1000;
    }
  }

  /** The commas of `format(n, ",")` stand exactly every three digits from
      the right: after each comma come three digits and then a comma or the end. */
  lemma {:induction false} GroupedCommaSpacing(n: nat)
    ensures forall i :: 0 <= i < |Grouped(n)| && Grouped(n)[i] == ',' ==>
              i + 3 < |Grouped(n)| && AllDigits(Grouped(n)[i + 1..i + 4])
              && (i + 4 == |Grouped(n)| || Grouped(n)[i + 4] == ',')
    decreases n
  {
    var s := Grouped(n);
    if n >= 1000 {
      var head := Grouped(n / 1000);
      var tail := Pad3(n % 1000);
      GroupedCommaSpacing(n / 1000);
      assert s == head + "," + tail;
      forall i | 0 <= i < |s| && s[i] == ','
        ensures i + 3 < |s| && AllDigits(s[i + 1..i + 4]) && (i + 4 == |s| || s[i + 4] == ',')
      {
        if i < |head| {
          assert s[i] == head[i];
          assert s[i + 1..i + 4] == head[i + 1..i + 4];
          if i + 4 < |head| {
            assert s[i + 4] == head[i + 4];
          } else {
            assert s[i + 4] == ',';
          }
        } else if i == |head| {
          assert s[i + 1..i + 4] == tail;
        } else {
          assert false;
        }
      }
    } else {
      assert forall i :: 0 <= i < |s| ==> IsDigit(s[i]);
    }
  }

  /** The index of the first comma of `s`, or `|s|` when it has none. */
  function FirstComma(s: string): (f: nat)
    ensures f <= |s| && (f < |s| ==> s[f] == ',')
    ensures forall i :: 0 <= i < f ==> s[i] != ','
  {
    if s == [] || s[0] == ',' then 0 else 1 + FirstComma(s[1..])
  }

  lemma FirstCommaIs(s: string, f: nat)
    requires f <= |s| && (f < |s| ==> s[f] == ',') && forall i :: 0 <= i < f ==> s[i] != ','
    ensures FirstComma(s) == f
  {
  }

  /** The leading group of `format(n, ",")`: one to three digits before the
      first comma (or the end), with no leading zero unless `n` is 0. */
  lemma {:induction false} GroupedLeadingGroup(n: nat)
    ensures 1 <= FirstComma(Grouped(n)) <= 3 && AllDigits(Grouped(n)[..FirstComma(Grouped(n))])
    ensures Grouped(n)[0] != '0' || n == 0
    decreases n
  {
    var s := Grouped(n);
    if n < 1000 {
      assert AllDigits(s);
      FirstCommaIs(s, |s|);
      assert s[..|s|] == s;
      if n >= 100 {
        assert DigitValue(s[0]) == n / 100;
      } else if n >= 10 {
        assert DigitValue(s[0]) == n / 10;
      } else {
        assert DigitValue(s[0]) == n;
      }
    } else {
      var head := Grouped(n / 1000);
      GroupedLeadingGroup(n / 1000);
      var f := FirstComma(head);
      assert s == head + "," + Pad3(n % 1000);
      assert s[..f] == head[..f];
      assert forall i :: 0 <= i < f ==> s[i] == head[i];
      assert f < |s| && s[f] == ',' by {
        if f < |head| { assert s[f] == head[f]; } else { assert s[|head|] == ','; }
      }
      FirstCommaIs(s, f);
      assert s[0] == head[0];
    }
  }

  /** `format(n, ",")` for any `int`: taking out the commas leaves the
      decimal digits of `|n|`, after a minus sign when `n` is negative. */
  lemma WithCommasRoundTrip(n: int)
    ensures var u := Uncomma(WithCommas(n));
            if n < 0 then u != [] && u[0] == '-' && AllDigits(u[1..]) && DigitsValue(u[1..]) == -n
            else AllDigits(u) && DigitsValue(u) == n
  {
    if n < 0 {
      GroupedRoundTrip(-n);
      UncommaAppend("-", Grouped(-n));
      assert Uncomma("-") == "-";
      assert ("-" + Uncomma(Grouped(-n)))[1..] == Uncomma(Grouped(-n));
    } else {
      GroupedRoundTrip(n);
    }
  }
}

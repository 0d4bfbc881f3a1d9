/** The string branch of `parse_rate` (usd.py:15-20): every '.' is deleted,
    every ',' becomes '.', and the result is read by Python's `Decimal`
    constructor; a failed read is caught and `None` is returned. */
module RateParsing {
  import opened Outcomes

  /** A Python `Decimal` as its string constructor builds it from digits and
      at most one point: the coefficient is the integer all the digits spell,
      the scale is the number of digits after the point (the exponent is
      -scale). `Decimal("7.10")` is `Decimal(710, 2)`. */
  datatype Decimal = Decimal(coefficient: nat, scale: nat)

  /** `D()`, the zero the profile adapter returns when it finds no rate. */
  const Zero := Decimal(0, 0)

  function Pow10(n: nat): (r: nat)
    ensures r >= 1
  {
    if n == 0 then 1 else 10 * Pow10(n - 1)
  }

  /** The number a `Decimal` stands for. */
  function Value(d: Decimal): real {
    d.coefficient as real / Pow10(d.scale) as real
  }

  predicate IsDigit(c: char) { '0' <= c <= '9' }

  /** The class `[0-9.,]` the profile regex admits into the rate. */
  predicate IsRateChar(c: char) { IsDigit(c) || c == '.' || c == ',' }

  predicate OverRateChars(s: string) { forall i :: 0 <= i < |s| ==> IsRateChar(s[i]) }

  /** What is left after the cleaning step: digits and '.' only. */
  predicate OverDigitsAndPoints(s: string) { forall i :: 0 <= i < |s| ==> IsDigit(s[i]) || s[i] == '.' }

  predicate AllDigits(s: string) { forall i :: 0 <= i < |s| ==> IsDigit(s[i]) }

  function DigitValue(c: char): nat
    requires IsDigit(c)
  {
    c as int - '0' as int
  }

  /** The number a run of decimal digits spells, leading zeros allowed. */
  function NatOf(s: string): nat
    requires AllDigits(s)
  {
    if s == [] then 0 else 10 * NatOf(s[..|s| - 1]) + DigitValue(s[|s| - 1])
  }

  /** The digits of `s` in order, every other character dropped. */
  function Digits(s: string): (r: string)
    ensures AllDigits(r) && |r| <= |s|
  {
    if s == [] then [] else (if IsDigit(s[0]) then [s[0]] else []) + Digits(s[1..])
  }

  /** How many times `c` occurs in `s`. */
  function Count(s: string, c: char): nat {
    if s == [] then 0 else (if s[0] == c then 1 else 0) + Count(s[1..], c)
  }

  /** The digits that follow the first `sep` in `s` (none when `sep` does not occur). */
  function DigitsAfter(s: string, sep: char): string {
    if s == [] then [] else if s[0] == sep then Digits(s[1..]) else DigitsAfter(s[1..], sep)
  }

  /** `r` keeps every character of `s` other than `c`, in order: the one at
      `k` has moved left by the number of `c`s before it. */
  predicate KeepsOrder(s: string, c: char, r: string) {
    forall k :: 0 <= k < |s| && s[k] != c ==>
      0 <= k - Count(s[..k], c) < |r| && r[k - Count(s[..k], c)] == s[k]
  }

  /** `s.replace(c, '')`: every other character is kept, in order. */
  function Delete(s: string, c: char): (r: string)
    ensures |r| == |s| - Count(s, c)
    ensures forall i :: 0 <= i < |r| ==> r[i] != c && r[i] in s
    ensures KeepsOrder(s, c, r)
  {
    if s == [] then []
    else
      var rest := Delete(s[1..], c);
      KeepsOrderStep(s, c, rest);
      (if s[0] == c then [] else [s[0]]) + rest
  }

  /** One step of `Delete`: putting back the first character (unless it is
      `c`) in front of the rest keeps the order. */
  lemma KeepsOrderStep(s: string, c: char, rest: string)
    requires s != [] && KeepsOrder(s[1..], c, rest)
    ensures KeepsOrder(s, c, (if s[0] == c then [] else [s[0]]) + rest)
  {
    var r := (if s[0] == c then [] else [s[0]]) + rest;
    forall k | 0 <= k < |s| && s[k] != c
      ensures 0 <= k - Count(s[..k], c) < |r| && r[k - Count(s[..k], c)] == s[k]
    {
      if k == 0 {
        assert s[..0] == [];
      } else {
        var t := s[1..];
        assert s[..k][1..] == t[..k - 1];
        assert t[k - 1] == s[k];
      }
    }
  }

  /** `s.replace(c, d)` for one-character `c` and `d` */
  function Replace(s: string, c: char, d: char): (r: string)
    ensures |r| == |s|
    ensures forall i :: 0 <= i < |s| ==> r[i] == if s[i] == c then d else s[i]
  {
    if s == [] then [] else [if s[0] == c then d else s[0]] + Replace(s[1..], c, d)
  }

  /** `text.replace('.', '').replace(',', '.')` (usd.py:17): the point
      becomes the only separator, standing where the first comma stood. */
  function Clean(text: string): (r: string)
    requires OverRateChars(text)
    ensures OverDigitsAndPoints(r)
    ensures Digits(r) == Digits(text)
    ensures Count(r, '.') == Count(text, ',')
    ensures DigitsAfter(r, '.') == DigitsAfter(text, ',')
  {
    var t := Delete(text, '.');
    DeleteKeeps(text);
    CountAbsent(t, '.');
    ReplaceKeeps(t);
    Replace(t, ',', '.')
  }

  /** The number of leading digits of `t`. */
  function LeadingDigits(t: string): (n: nat)
    ensures n <= |t| && AllDigits(t[..n]) && (n == |t| || !IsDigit(t[n]))
  {
    if t == [] || !IsDigit(t[0]) then 0 else 1 + LeadingDigits(t[1..])
  }

  /** `Decimal(t)` for text over digits and '.', following the grammar
      digits '.' [digits] | ['.'] digits; anything else raises
      InvalidOperation, which `None` stands for here. */
  function DecimalLiteral(t: string): (r: Option<Decimal>)
    requires OverDigitsAndPoints(t)
    ensures r.Some? <==> |Digits(t)| > 0 && Count(t, '.') <= 1
    ensures r.Some? ==> r.value == Decimal(NatOf(Digits(t)), |DigitsAfter(t, '.')|)
  {
    LiteralMeaning(t);
    var p := LeadingDigits(t);
    if p == |t| then
      if p == 0 then None else Some(Decimal(NatOf(t), 0))
    else if t[p] != '.' then None
    else
      var frac := t[p + 1..];
      var q := LeadingDigits(frac);
      if q < |frac| || p + q == 0 then None
      else
        assert frac[..q] == frac;
        Some(Decimal(NatOf(t[..p] + frac), q))
  }

  /** `parse_rate(text)` for a string `text` over `[0-9.,]`. It never raises:
      it returns a value exactly when the text holds a digit and at most one
      comma, and that value is (digits before the comma).(digits after it),
      every '.' discarded. */
  function ParseRate(text: string): (r: Option<Decimal>)
    requires OverRateChars(text)
    ensures r.Some? <==> |Digits(text)| > 0 && Count(text, ',') <= 1
    ensures r.Some? ==> r.value == Decimal(NatOf(Digits(text)), |DigitsAfter(text, ',')|)
  {
    DecimalLiteral(Clean(text))
  }

  // ---------------------------------------------------------------------
  // Facts about the character-level helpers

  lemma {:induction false} DigitsConcat(a: string, b: string)
    ensures Digits(a + b) == Digits(a) + Digits(b)
  {
    if a != [] {
      assert (a + b)[0] == a[0] && (a + b)[1..] == a[1..] + b;
      DigitsConcat(a[1..], b);
    } else {
      assert a + b == b;
    }
  }

  lemma {:induction false} CountConcat(a: string, b: string, c: char)
    ensures Count(a + b, c) == Count(a, c) + Count(b, c)
  {
    if a != [] {
      assert (a + b)[0] == a[0] && (a + b)[1..] == a[1..] + b;
      CountConcat(a[1..], b, c);
    } else {
      assert a + b == b;
    }
  }

  lemma {:induction false} DigitsAfterConcat(a: string, b: string, sep: char)
    requires Count(a, sep) == 0
    ensures DigitsAfter(a + b, sep) == DigitsAfter(b, sep)
  {
    if a != [] {
      assert (a + b)[0] == a[0] && (a + b)[1..] == a[1..] + b;
      DigitsAfterConcat(a[1..], b, sep);
    } else {
      assert a + b == b;
    }
  }

  lemma {:induction false} AllDigitsFacts(a: string, c: char)
    requires AllDigits(a) && !IsDigit(c)
    ensures Digits(a) == a && Count(a, c) == 0 && DigitsAfter(a, c) == []
  {
    if a != [] {
      AllDigitsFacts(a[1..], c);
    }
  }

  lemma {:induction false} CountAbsent(s: string, c: char)
    requires forall i :: 0 <= i < |s| ==> s[i] != c
    ensures Count(s, c) == 0
  {
    if s != [] {
      CountAbsent(s[1..], c);
    }
  }

  lemma {:induction false} CountAt(s: string, i: nat, c: char)
    requires i < |s| && s[i] == c
    ensures Count(s, c) >= 1
  {
    if i > 0 {
      CountAt(s[1..], i - 1, c);
    }
  }

  /** Deleting '.' keeps the digits, the commas and the digits after the first comma. */
  lemma {:induction false} DeleteKeeps(s: string)
    ensures Digits(Delete(s, '.')) == Digits(s)
    ensures Count(Delete(s, '.'), ',') == Count(s, ',')
    ensures DigitsAfter(Delete(s, '.'), ',') == DigitsAfter(s, ',')
  {
    if s != [] {
      var head := if s[0] == '.' then [] else [s[0]];
      DeleteKeeps(s[1..]);
      DigitsConcat(head, Delete(s[1..], '.'));
      CountConcat(head, Delete(s[1..], '.'), ',');
      if s[0] == ',' {
        assert Delete(s, '.') == [','] + Delete(s[1..], '.');
      } else {
        DigitsAfterConcat(head, Delete(s[1..], '.'), ',');
      }
    }
  }

  /** Turning ',' into '.' in text without '.' moves the separator role over. */
  lemma {:induction false} ReplaceKeeps(t: string)
    requires Count(t, '.') == 0
    ensures Digits(Replace(t, ',', '.')) == Digits(t)
    ensures Count(Replace(t, ',', '.'), '.') == Count(t, ',')
    ensures DigitsAfter(Replace(t, ',', '.'), '.') == DigitsAfter(t, ',')
  {
    if t != [] {
      var r := Replace(t, ',', '.');
      ReplaceKeeps(t[1..]);
      assert r[0] == (if t[0] == ',' then '.' else t[0]);
      assert r[1..] == Replace(t[1..], ',', '.');
    }
  }

  /** The grammar of `DecimalLiteral` accepts exactly the text with a digit
      and at most one point, and reads all its digits. */
  lemma LiteralMeaning(t: string)
    requires OverDigitsAndPoints(t)
    ensures var p := LeadingDigits(t);
      && (p == |t| ==> Digits(t) == t && Count(t, '.') == 0 && DigitsAfter(t, '.') == [])
      && (p < |t| ==>
            var frac := t[p + 1..];
            var q := LeadingDigits(frac);
            && t[p] == '.'
            && Digits(t) == t[..p] + Digits(frac)
            && Count(t, '.') == 1 + Count(frac, '.')
            && DigitsAfter(t, '.') == Digits(frac)
            && (q == |frac| ==> Digits(frac) == frac && Count(frac, '.') == 0)
            && (q < |frac| ==> Count(frac, '.') >= 1))
  {
    var p := LeadingDigits(t);
    if p == |t| {
      assert t[..p] == t;
      AllDigitsFacts(t, '.');
    } else {
      var a := t[..p];
      var frac := t[p + 1..];
      assert t == a + (['.'] + frac);
      AllDigitsFacts(a, '.');
      DigitsConcat(a, ['.'] + frac);
      CountConcat(a, ['.'] + frac, '.');
      DigitsAfterConcat(a, ['.'] + frac, '.');
      assert (['.'] + frac)[1..] == frac;
      var q := LeadingDigits(frac);
      if q == |frac| {
        assert frac[..q] == frac;
        AllDigitsFacts(frac, '.');
      } else {
        CountAt(frac, q, '.');
      }
    }
  }

  // ---------------------------------------------------------------------
  // The partner of ParseRate: writing a Decimal the way the profile page does

  function DigitChar(n: nat): (c: char)
    requires n < 10
    ensures IsDigit(c) && DigitValue(c) == n
  {
    ('0' as int + n) as char
  }

  /** The decimal digits of `n`, most significant first ("0" for zero). */
  function DigitsOf(n: nat): (r: string)
    ensures AllDigits(r) && |r| >= 1
  {
    if n < 10 then [DigitChar(n)] else DigitsOf(n / 10) + [DigitChar(n % 10)]
  }

  function Zeros(k: nat): (r: string)
    ensures |r| == k && AllDigits(r)
  {
    seq(k, _ => '0')
  }

  /** The digits of `d.coefficient`, padded with leading zeros to at least
      `d.scale + 1` of them. */
  function PaddedDigits(d: Decimal): (p: string)
    ensures AllDigits(p) && |p| > d.scale && NatOf(p) == d.coefficient
  {
    var ds := DigitsOf(d.coefficient);
    NatOfDigitsOf(d.coefficient);
    if |ds| <= d.scale then
      NatOfPadded(d.scale + 1 - |ds|, ds);
      Zeros(d.scale + 1 - |ds|) + ds
    else ds
  }

  /** Writes `d` with a ',' before its last `scale` digits, padding with
      leading zeros so that at least one digit stands before the comma:
      `Decimal(22712345, 2)` is written "227123,45", `Decimal(5, 2)` "0,05". */
  function Render(d: Decimal): (r: string)
    ensures OverRateChars(r)
  {
    var p := PaddedDigits(d);
    if d.scale == 0 then p else p[..|p| - d.scale] + [','] + p[|p| - d.scale..]
  }

  lemma {:induction false} NatOfDigitsOf(n: nat)
    ensures NatOf(DigitsOf(n)) == n
  {
    if n >= 10 {
      var r := DigitsOf(n);
      assert r[..|r| - 1] == DigitsOf(n / 10);
      NatOfDigitsOf(n / 10);
    }
  }

  lemma {:induction false} NatOfZeros(k: nat)
    ensures NatOf(Zeros(k)) == 0
  {
    if k > 0 {
      assert Zeros(k)[..k - 1] == Zeros(k - 1);
      NatOfZeros(k - 1);
    }
  }

  /** Leading zeros do not change the number a digit run spells. */
  lemma {:induction false} NatOfPadded(k: nat, s: string)
    requires AllDigits(s)
    ensures NatOf(Zeros(k) + s) == NatOf(s)
  {
    var z := Zeros(k) + s;
    if s == [] {
      assert z == Zeros(k);
      NatOfZeros(k);
    } else {
      assert z[..|z| - 1] == Zeros(k) + s[..|s| - 1];
      NatOfPadded(k, s[..|s| - 1]);
    }
  }

  /** Two digit runs around one comma: all digits are kept, the comma is
      counted once and the run after it is the fraction. */
  lemma OneComma(a: string, b: string)
    requires AllDigits(a) && AllDigits(b)
    ensures Digits(a + [','] + b) == a + b
    ensures Count(a + [','] + b, ',') == 1
    ensures DigitsAfter(a + [','] + b, ',') == b
  {
    var cb := [','] + b;
    assert a + [','] + b == a + cb;
    assert cb[0] == ',' && cb[1..] == b;
    AllDigitsFacts(a, ',');
    AllDigitsFacts(b, ',');
    assert Digits(cb) == Digits(b);
    assert Count(cb, ',') == 1;
    assert DigitsAfter(cb, ',') == b;
    DigitsConcat(a, cb);
    CountConcat(a, cb, ',');
    DigitsAfterConcat(a, cb, ',');
  }

  /** Reading back what Render writes gives the same Decimal, digits and
      scale alike. */
  lemma RenderRoundTrip(d: Decimal)
    ensures ParseRate(Render(d)) == Some(d)
  {
    var p := PaddedDigits(d);
    var r := Render(d);
    if d.scale == 0 {
      assert r == p;
      AllDigitsFacts(p, ',');
    } else {
      var n := |p|;
      var a, b := p[..n - d.scale], p[n - d.scale..];
      assert r == a + [','] + b;
      assert a + b == p;
      OneComma(a, b);
      assert Digits(r) == p && |DigitsAfter(r, ',')| == d.scale;
    }
  }

  // ---------------------------------------------------------------------
  // What the cleaning rule does to thousands separators

  lemma {:induction false} DeleteConcat(a: string, b: string, c: char)
    ensures Delete(a + b, c) == Delete(a, c) + Delete(b, c)
  {
    if a != [] {
      assert (a + b)[0] == a[0] && (a + b)[1..] == a[1..] + b;
      DeleteConcat(a[1..], b, c);
    } else {
      assert a + b == b;
    }
  }

  /** A '.' anywhere in the text is dropped without trace: inserting one
      never changes the result, whatever the digits around it. */
  lemma DotsIgnored(a: string, b: string)
    requires OverRateChars(a + b)
    ensures OverRateChars(a + "." + b)
    ensures ParseRate(a + "." + b) == ParseRate(a + b)
  {
    var x, y := a + "." + b, a + b;
    assert x == a + ("." + b);
    forall i | 0 <= i < |x|
      ensures IsRateChar(x[i])
    {
      if i < |a| {
        assert x[i] == y[i];
      } else if i > |a| {
        assert x[i] == y[i - 1];
      }
    }
    assert Delete(".", '.') == [];
    DeleteConcat(a, "." + b, '.');
    DeleteConcat(".", b, '.');
    assert [] + Delete(b, '.') == Delete(b, '.');
    DeleteConcat(a, b, '.');
    assert Delete(x, '.') == Delete(y, '.');
    assert Clean(x) == Clean(y);
  }

  /** "6,43", the widget's style, is 6.43. */
  lemma CommaDecimalExample()
    ensures ParseRate("6,43") == Some(Decimal(643, 2))
  {
    OneComma("6", "43");
    assert "6" + [','] + "43" == "6,43";
    assert "643"[..2] == "64" && "64"[..1] == "6" && "6"[..0] == "";
    assert NatOf("643") == 643;
    assert Digits("6,43") == "643";
    assert DigitsAfter("6,43", ',') == "43";
  }

  lemma NatOf22712345()
    ensures NatOf("22712345") == 22712345
  {
    assert "2"[..0] == "";
    assert NatOf("2") == 2;
    assert "22"[..1] == "2";
    assert NatOf("22") == 22;
    assert "227"[..2] == "22";
    assert NatOf("227") == 227;
    assert "2271"[..3] == "227";
    assert NatOf("2271") == 2271;
    assert "22712"[..4] == "2271";
    assert NatOf("22712") == 22712;
    assert "227123"[..5] == "22712";
    assert NatOf("227123") == 227123;
    assert "2271234"[..6] == "227123";
    assert NatOf("2271234") == 2271234;
    assert "22712345"[..7] == "2271234";
    assert NatOf("22712345") == 22712345;
  }

  lemma CommaOnlyExample()
    ensures ParseRate("227123,45") == Some(Decimal(22712345, 2))
  {
    OneComma("227123", "45");
    assert "227123" + [','] + "45" == "227123,45";
    assert "227123" + "45" == "22712345";
    NatOf22712345();
  }

  /** "227.123,45", a thousands dot and a decimal comma, is 227123.45. */
  lemma ThousandsDotExample()
    ensures ParseRate("227.123,45") == Some(Decimal(22712345, 2))
  {
    assert "227" + "." + "123,45" == "227.123,45";
    assert "227" + "123,45" == "227123,45";
    DotsIgnored("227", "123,45");
    CommaOnlyExample();
  }

  lemma NatOf123456()
    ensures NatOf("123456") == 123456
  {
    assert "1"[..0] == "";
    assert NatOf("1") == 1;
    assert "12"[..1] == "1";
    assert NatOf("12") == 12;
    assert "123"[..2] == "12";
    assert NatOf("123") == 123;
    assert "1234"[..3] == "123";
    assert NatOf("1234") == 1234;
    assert "12345"[..4] == "1234";
    assert NatOf("12345") == 12345;
    assert "123456"[..5] == "12345";
    assert NatOf("123456") == 123456;
  }

  lemma DigitsOnlyExample()
    ensures ParseRate("123456") == Some(Decimal(123456, 0))
  {
    AllDigitsFacts("123456", ',');
    NatOf123456();
  }

  lemma LastDotDroppedExample()
    ensures ParseRate("1234.56") == Some(Decimal(123456, 0))
  {
    assert "1234" + "." + "56" == "1234.56";
    assert "1234" + "56" == "123456";
    DotsIgnored("1234", "56");
    DigitsOnlyExample();
  }

  /** Every dot is dropped, not only the ones before the last: "1.234.56"
      is 123456, not 1234.56. */
  lemma EveryDotDroppedExample()
    ensures ParseRate("1.234.56") == Some(Decimal(123456, 0))
  {
    assert "1" + "." + "234.56" == "1.234.56";
    assert "1" + "234.56" == "1234.56";
    DotsIgnored("1", "234.56");
    LastDotDroppedExample();
  }

  /** A comma keeps every decimal after it: "1,234" is 1.234, with three
      decimals. */
  lemma ScaleKeptExample()
    ensures ParseRate("1,234") == Some(Decimal(1234, 3))
  {
    OneComma("1", "234");
    assert "1" + [','] + "234" == "1,234";
    assert "1234"[..3] == "123" && "123"[..2] == "12" && "12"[..1] == "1" && "1"[..0] == "";
    assert NatOf("1234") == 1234;
    assert Digits("1,234") == "1234";
    assert DigitsAfter("1,234", ',') == "234";
  }

  /** Two commas: "1,2,3" has two decimal points once cleaned. */
  lemma TwoCommas()
    ensures Count("1,2,3", ',') >= 2
  {
    var t := "1,2,3";
    assert t[1..] == ",2,3" && t[1..][1..] == "2,3" && t[1..][1..][1..] == ",3";
    CountAt(",3", 0, ',');
  }

  /** Text with no digit is not a number: `None`. */
  lemma NoDigitExamples()
    ensures ParseRate("") == None
    ensures ParseRate(",") == None
  {
    assert Digits(",") == Digits("") == "";
  }

  /** Text with two commas is not a number: `None`. */
  lemma TwoCommasExample()
    ensures ParseRate("1,2,3") == None
  {
    TwoCommas();
    TooManyCommas("1,2,3");
  }

  /** A second comma makes the text no number. */
  lemma TooManyCommas(text: string)
    requires OverRateChars(text) && Count(text, ',') >= 2
    ensures ParseRate(text) == None
  {
  }
}

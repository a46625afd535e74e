/** Printing and parsing of numbers as the C++ streams and `strtoul` do it. */
module Text {
  import opened Numbers

  predicate IsDigit(c: char) {
    '0' <= c <= '9'
  }

  function DigitChar(d: nat): char
    requires d < 10
  {
    '0' + d as char
  }

  function Decimal(n: nat): (s: string)
    ensures s != [] && forall i :: 0 <= i < |s| ==> IsDigit(s[i])
  {
    if n < 10 then [DigitChar(n)] else Decimal(n / 10) + [DigitChar(n % 10)]
  }

  // ----- strtoul with base 0 -----

  predicate IsSpace(c: char) {
    c == ' ' || '\t' <= c <= '\r'
  }

  /** The value of a letter or digit, at least 36 for any other character. */
  function DigitValue(c: char): nat {
    if IsDigit(c) then c as nat - '0' as nat
    else if 'a' <= c <= 'z' then c as nat - 'a' as nat + 10
    else if 'A' <= c <= 'Z' then c as nat - 'A' as nat + 10
    else 36
  }

  /** Reads the digits of the base at the front of the text onto `value`. */
  function ReadDigits(s: string, base: nat, value: nat): nat {
    if s == [] || DigitValue(s[0]) >= base then value
    else ReadDigits(s[1..], base, value * base + DigitValue(s[0]))
  }

  function SkipSpace(s: string): string {
    if s != [] && IsSpace(s[0]) then SkipSpace(s[1..]) else s
  }

  function Magnitude(s: string): nat {
    if |s| >= 3 && s[0] == '0' && (s[1] == 'x' || s[1] == 'X') && DigitValue(s[2]) < 16 then ReadDigits(s[2..], 16, 0)
    else if s != [] && s[0] == '0' then ReadDigits(s, 8, 0)
    else ReadDigits(s, 10, 0)
  }

  /** Too large a magnitude saturates; a minus sign negates modulo 2^64. */
  function Strtoul(text: string): uint64 {
    var s := SkipSpace(text);
    var negative := s != [] && s[0] == '-';
    var value: int := Magnitude(if s != [] && (s[0] == '-' || s[0] == '+') then s[1..] else s);
    if value >= TWO64 then TWO64 - 1 else if negative then ToU64(-value) else value
  }

  // ----- Decimal texts are read back -----

  lemma {:induction false} ReadsScaled(n: nat, tail: string, value: nat) returns (scale: nat)
    ensures scale > 0 && ReadDigits(Decimal(n) + tail, 10, value) == ReadDigits(tail, 10, value * scale + n)
    decreases n
  {
    if n < 10 {
      assert (Decimal(n) + tail)[1..] == tail;
      scale := 10;
    } else {
      assert Decimal(n) + tail == Decimal(n / 10) + ([DigitChar(n % 10)] + tail);
      var s := ReadsScaled(n / 10, [DigitChar(n % 10)] + tail, value);
      assert ([DigitChar(n % 10)] + tail)[1..] == tail;
      assert (value * s + n / 10) * 10 + n % 10 == value * (s * 10) + n;
      scale := s * 10;
    }
  }

  lemma {:induction false} NoLeadingZero(n: nat)
    ensures Decimal(n)[0] == '0' <==> n == 0
  {
    if n < 10 {
    } else {
      NoLeadingZero(n / 10);
    }
  }

  lemma StrtoulDigits(s: string)
    requires s != [] && IsDigit(s[0])
    ensures Strtoul(s) == if Magnitude(s) >= TWO64 then TWO64 - 1 else Magnitude(s)
  {
  }

  /** Base 0 would read a leading zero as octal, but a decimal text never has one, save for zero itself. */
  lemma StrtoulDecimal(n: nat)
    ensures Strtoul(Decimal(n)) == if n < TWO64 then n else TWO64 - 1
  {
    var s := Decimal(n);
    NoLeadingZero(n);
    StrtoulDigits(s);
    if n == 0 {
      assert s == "0" && s[1..] == [];
      assert ReadDigits(s[1..], 8, 0) == 0;
    } else {
      var scale := ReadsScaled(n, [], 0);
      assert s + [] == s;
    }
  }

  // ----- Doubles with a whole value -----

  function Power10(e: nat): (p: nat)
    ensures p > 0
  {
    if e == 0 then 1 else 10 * Power10(e - 1)
  }

  lemma {:induction false} DecimalLength(n: nat, k: nat)
    ensures |Decimal(n)| > k <==> k == 0 || n >= Power10(k)
    decreases k
  {
    if k == 0 {
    } else if n < 10 {
    } else {
      DecimalLength(n / 10, k - 1);
    }
  }

  /** n / d rounded to the nearest whole number, ties to even. */
  function RoundHalfEven(n: nat, d: nat): nat
    requires d > 0
  {
    var q, r := n / d, n % d;
    if 2 * r > d || (2 * r == d && q % 2 == 1) then q + 1 else q
  }

  function StripZeros(s: string): string {
    if s != [] && s[|s| - 1] == '0' then StripZeros(s[..|s| - 1]) else s
  }

  /** One digit before the point, the others after it without trailing zeros, and the exponent. */
  function ScientificText(digits: string, exponent: nat): string
    requires digits != []
  {
    var fraction := StripZeros(digits[1..]);
    digits[..1] + (if fraction == [] then [] else "." + fraction)
    + "e+" + (if exponent < 10 then "0" else "") + Decimal(exponent)
  }

  /** What a stream prints for a double of whole value n under the default precision of six digits. */
  function WholeText(n: nat): string {
    if n < 1000000 then Decimal(n)
    else
      var exponent := |Decimal(n)| - 1;
      var mantissa := RoundHalfEven(n, Power10(if exponent >= 5 then exponent - 5 else 0));
      if mantissa >= 1000000 then ScientificText(Decimal(mantissa / 10), exponent + 1)
      else ScientificText(Decimal(mantissa), exponent)
  }

  lemma ScientificReads(digits: string, exponent: nat)
    requires digits != [] && IsDigit(digits[0])
    ensures Strtoul(ScientificText(digits, exponent)) < 10
  {
    var s := ScientificText(digits, exponent);
    assert s[0] == digits[0] && (s[1] == '.' || s[1] == 'e');
    StrtoulDigits(s);
    assert ReadDigits(s, 10, 0) < 10 by { ReadsOne(s, 10); }
    assert ReadDigits(s, 8, 0) < 10 by { ReadsOne(s, 8); }
  }

  lemma ReadsOne(s: string, base: nat)
    requires |s| >= 2 && IsDigit(s[0]) && (s[1] == '.' || s[1] == 'e') && base <= 10
    ensures ReadDigits(s, base, 0) < 10
  {
  }

  /** A whole double is read back exactly when it is printed in plain digits, below one million;
      from there on only the first digit of the scientific notation is read. */
  lemma WholeTextReadsBack(n: nat)
    ensures Strtoul(WholeText(n)) == n <==> n < 1000000
    ensures n >= 1000000 ==> Strtoul(WholeText(n)) < 10
  {
    if n < 1000000 {
      StrtoulDecimal(n);
    } else {
      var exponent := |Decimal(n)| - 1;
      var mantissa := RoundHalfEven(n, Power10(if exponent >= 5 then exponent - 5 else 0));
      if mantissa >= 1000000 {
        ScientificReads(Decimal(mantissa / 10), exponent + 1);
      } else {
        ScientificReads(Decimal(mantissa), exponent);
      }
    }
  }

  /** `nan` and `-nan`, the texts of a mean that is not a number, are read as zero. */
  lemma NanReadsZero()
    ensures Strtoul("nan") == 0 && Strtoul("-nan") == 0
  {
  }

  lemma {:induction false} DecimalInjective(m: nat, n: nat)
    requires Decimal(m) == Decimal(n)
    ensures m == n
  {
    var a := ReadsScaled(m, [], 0);
    var b := ReadsScaled(n, [], 0);
    assert Decimal(m) + [] == Decimal(n) + [];
  }

  /** A nearest multiple, and the even one between two. */
  lemma RoundsHalfEven(n: nat, d: nat)
    requires d > 0
    ensures var q := RoundHalfEven(n, d);
            && 2 * (q * d) <= 2 * n + d && 2 * n <= 2 * (q * d) + d
            && (2 * (q * d) == 2 * n + d || 2 * n == 2 * (q * d) + d ==> q % 2 == 0)
  {
    var q := n / d;
    assert n == q * d + n % d;
    assert (q + 1) * d == q * d + d;
  }

  /** Six digits and an exponent that come as near to the number as six digits can. */
  ghost predicate SixDigits(m: nat, e: nat, n: nat) {
    && 100000 <= m < 1000000 && e >= 6
    && 2 * (m * Power10(e - 5)) <= 2 * n + Power10(e - 5)
    && 2 * n <= 2 * (m * Power10(e - 5)) + Power10(e - 5)
  }

  lemma TenTimes(e: nat)
    ensures Power10(e + 1) == 10 * Power10(e)
    ensures e >= 5 ==> Power10(e) == 100000 * Power10(e - 5)
  {
    if e >= 5 {
      assert Power10(e) == 10 * Power10(e - 1) == 100 * Power10(e - 2) == 1000 * Power10(e - 3);
      assert Power10(e - 3) == 10 * Power10(e - 4) == 100 * Power10(e - 5);
    }
  }

  lemma QuotientRange(n: nat, d: nat)
    requires d > 0 && 100000 * d <= n < 1000000 * d
    ensures 100000 <= RoundHalfEven(n, d) <= 1000000
  {
    assert n == (n / d) * d + n % d;
    DivLess(n, d, 100000);
    DivLess(n, d, 1000000);
  }

  /** From one million on a number is printed as its six leading digits, correctly rounded, with its exponent. */
  lemma ScientificInFull(n: nat)
    requires n >= 1000000
    ensures exists m: nat, e: nat :: SixDigits(m, e, n) && WholeText(n) == ScientificText(Decimal(m), e)
  {
    hide Decimal, ScientificText, RoundHalfEven, Power10;
    var e := |Decimal(n)| - 1;
    DecimalLength(n, 6);
    assert e >= 6 by {
      Million();
    }
    DecimalLength(n, e);
    DecimalLength(n, e + 1);
    TenTimes(e);
    var d := Power10(e - 5);
    QuotientRange(n, d);
    RoundsHalfEven(n, d);
    var m := RoundHalfEven(n, d);
    if m < 1000000 {
      assert SixDigits(m, e, n);
    } else {
      TenTimes(e - 5);
      assert m / 10 == 100000;
      assert SixDigits(100000, e + 1, n);
    }
  }

  lemma Million()
    ensures Power10(6) == 1000000
  {
    assert Power10(3) == 1000;
  }

  /** How digits and exponent are put together. */
  lemma ScientificTexts()
    ensures ScientificText("123450", 6) == "1.2345e+06" && ScientificText("100000", 12) == "1e+12"
  {
    assert "123450"[1..] == "23450" && "23450"[..4] == "2345";
    assert "100000"[1..] == "00000" && "00000"[..4] == "0000" && "0000"[..3] == "000" && "000"[..2] == "00";
    assert "00"[..1] == "0" && "0"[..0] == [];
    assert "123450"[..1] == "1" && "100000"[..1] == "1";
    assert Decimal(6) == "6" && Decimal(1) == "1" && Decimal(12) == "12";
    assert StripZeros("2345") == "2345" && StripZeros("23450") == "2345";
    assert StripZeros("000") == [] && StripZeros("00000") == [];
    hide StripZeros, Decimal;
  }

  lemma DigitsRead(s: string, base: nat, value: nat)
    requires s != []
    ensures ReadDigits(s, base, value)
         == if DigitValue(s[0]) >= base then value else ReadDigits(s[1..], base, value * base + DigitValue(s[0]))
    ensures ReadDigits([], base, value) == value
  {
  }

  /** A sign in front: minus negates modulo 2^64. Leading blanks are skipped. */
  lemma StrtoulSigns()
    ensures Strtoul("+5") == 5 && Strtoul("-1") == 18446744073709551615 && Strtoul(" \t7") == 7 && Strtoul("") == 0
  {
    DigitsRead("5", 10, 0);
    DigitsRead("1", 10, 0);
    DigitsRead("7", 10, 0);
    assert "+5"[1..] == "5" && "-1"[1..] == "1" && "5"[1..] == "1"[1..] == "7"[1..] == [];
    assert " \t7"[1..] == "\t7" && "\t7"[1..] == "7";
    hide ReadDigits;
  }

  /** A leading zero is read as octal, and reading ends at the first character that is no digit of the base. */
  lemma StrtoulOctal()
    ensures Strtoul("017") == 15 && Strtoul("08") == 0 && Strtoul("12ab") == 12
  {
    DigitsRead("017", 8, 0);
    DigitsRead("17", 8, 0);
    DigitsRead("7", 8, 1);
    DigitsRead("08", 8, 0);
    DigitsRead("8", 8, 0);
    DigitsRead("12ab", 10, 0);
    DigitsRead("2ab", 10, 1);
    DigitsRead("ab", 10, 12);
    assert "017"[1..] == "17" && "17"[1..] == "7" && "7"[1..] == [] && "08"[1..] == "8";
    assert "12ab"[1..] == "2ab" && "2ab"[1..] == "ab";
    hide ReadDigits;
  }

  /** Hexadecimal after 0x, in either case; without a digit behind it the zero alone is read. */
  lemma StrtoulHexadecimal()
    ensures Strtoul("0x1f") == 31 && Strtoul("0XA0") == 160 && Strtoul("0xg") == 0
  {
    DigitsRead("1f", 16, 0);
    DigitsRead("f", 16, 1);
    DigitsRead("A0", 16, 0);
    DigitsRead("0", 16, 10);
    DigitsRead("0xg", 8, 0);
    DigitsRead("xg", 8, 0);
    assert "0x1f"[2..] == "1f" && "1f"[1..] == "f" && "f"[1..] == [];
    assert "0XA0"[2..] == "A0" && "A0"[1..] == "0" && "0"[1..] == [] && "0xg"[1..] == "xg";
    hide ReadDigits;
  }

  // ----- Splitting lines -----

  predicate Free(s: string, c: char) {
    c !in s
  }

  /** Position of the first `c`, or the length of the text when there is none. */
  function Find(s: string, c: char): (i: nat)
    ensures i <= |s|
    ensures i < |s| ==> s[i] == c
    ensures forall j :: 0 <= j < i ==> s[j] != c
  {
    if s == [] || s[0] == c then 0 else 1 + Find(s[1..], c)
  }

  function SkipAll(s: string, c: char): string {
    if s != [] && s[0] == c then SkipAll(s[1..], c) else s
  }

  lemma {:induction false} SkipRun(run: string, rest: string, c: char)
    requires forall i :: 0 <= i < |run| ==> run[i] == c
    requires rest == [] || rest[0] != c
    ensures SkipAll(run + rest, c) == rest
  {
    if run == [] {
      assert run + rest == rest;
    } else {
      assert (run + rest)[1..] == run[1..] + rest;
      SkipRun(run[1..], rest, c);
    }
  }

  lemma FindAfter(s: string, rest: string, c: char)
    requires Free(s, c) && rest != [] && rest[0] == c
    ensures Find(s + rest, c) == |s|
  {
    assert (s + rest)[|s|] == c;
  }
}

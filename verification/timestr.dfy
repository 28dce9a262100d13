/** Times as text, like 1d2h3m4s (timestr.c:12-77). */
module TimeStr {
  import opened Wrappers

  const INT_BITS: int := 0x1_0000_0000

  // ----- C arithmetic

  /** Division and remainder as in C: towards zero. */
  function Quot(a: int, b: int): int
    requires b > 0
  {
    if a >= 0 then a / b else -(-a / b)
  }

  function Rem(a: int, b: int): int
    requires b > 0
  {
    a - Quot(a, b) * b
  }

  /** Conversion to a 32-bit int. */
  function ToInt(x: int): int {
    (x + INT_BITS / 2) % INT_BITS - INT_BITS / 2
  }

  // ----- numbers

  function Decimal(n: nat): string {
    if n < 10 then [('0' as int + n) as char] else Decimal(n / 10) + [('0' as int + n % 10) as char]
  }

  /** printf's %d. */
  function Printed(n: int): string {
    if n < 0 then "-" + Decimal(-n) else Decimal(n)
  }

  function DigitValue(c: char): int {
    if '0' <= c <= '9' then c as int - '0' as int
    else if 'a' <= c <= 'z' then c as int - 'a' as int + 10
    else if 'A' <= c <= 'Z' then c as int - 'A' as int + 10
    else 99
  }

  function Digits(s: string, base: int, acc: int): int {
    if s == "" || DigitValue(s[0]) >= base then acc else Digits(s[1..], base, acc * base + DigitValue(s[0]))
  }

  function Unsigned(s: string): int {
    if |s| > 2 && s[0] == '0' && (s[1] == 'x' || s[1] == 'X') && DigitValue(s[2]) < 16 then Digits(s[2..], 16, 0)
    else if s != "" && s[0] == '0' then Digits(s, 8, 0)
    else Digits(s, 10, 0)
  }

  /** strtol with base 0, but for the limits of long: it stops at what is not part of the number. */
  function Strtol(s: string): int {
    if s != "" && (s[0] == ' ' || '\t' <= s[0] <= '\r') then Strtol(s[1..])
    else if s != "" && s[0] == '-' then -Unsigned(s[1..])
    else if s != "" && s[0] == '+' then Unsigned(s[1..])
    else Unsigned(s)
  }

  lemma {:induction false} DigitsOfDecimal(n: nat, rest: string)
    ensures Digits(Decimal(n) + rest, 10, 0) == Digits(rest, 10, n)
    ensures n > 0 ==> Decimal(n)[0] != '0'
    ensures forall k :: 0 <= k < |Decimal(n)| ==> '0' <= Decimal(n)[k] <= '9'
  {
    var c := ('0' as int + n % 10) as char;
    if n < 10 {
      assert Decimal(n) + rest == [c] + rest && ([c] + rest)[1..] == rest;
    } else {
      DigitsOfDecimal(n / 10, [c] + rest);
      assert Decimal(n) + rest == Decimal(n / 10) + ([c] + rest) && ([c] + rest)[1..] == rest;
    }
  }

  lemma ReadDecimal(n: nat, rest: string)
    requires n > 0 && (rest == "" || DigitValue(rest[0]) >= 10)
    ensures Strtol(Decimal(n) + rest) == Unsigned(Decimal(n) + rest) == n
  {
    DigitsOfDecimal(n, rest);
    var s := Decimal(n) + rest;
    assert s[0] == Decimal(n)[0] && '1' <= s[0] <= '9';
    hide Decimal, DigitValue;
    assert Digits(rest, 10, n) == n;
  }

  lemma PrintedChars(n: int)
    ensures forall k :: 0 <= k < |Printed(n)| ==> Printed(n)[k] == '-' || '0' <= Printed(n)[k] <= '9'
  {
    DigitsOfDecimal(if n < 0 then -n else n, "");
    hide Decimal, Digits;
  }

  /** What is printed is read back, whatever follows that is not a digit. */
  lemma ReadPrinted(n: int, rest: string)
    requires n != 0 && (rest == "" || DigitValue(rest[0]) >= 10)
    ensures Strtol(Printed(n) + rest) == n
  {
    hide Strtol, Unsigned, Decimal, DigitValue;
    ReadDecimal(if n < 0 then -n else n, rest);
    if n < 0 {
      var number := Decimal(-n);
      Negative(number + rest);
      assert "-" + number + rest == "-" + (number + rest);
    }
  }

  lemma Negative(s: string)
    ensures Strtol("-" + s) == -Unsigned(s)
  {}

  // ----- units

  function PartOf(n: int, unit: char): string {
    if n == 0 then "" else Printed(n) + [unit]
  }

  function TextOf(d: int, h: int, m: int, s: int): string {
    if d == 0 && h == 0 && m == 0 && s == 0 then "0s"
    else PartOf(d, 'd') + (PartOf(h, 'h') + (PartOf(m, 'm') + PartOf(s, 's')))
  }

  /** The text of a time. */
  function Text(t: int): string {
    TextOf(ToInt(Quot(t, 86400)), Quot(Rem(t, 86400), 3600), Quot(Rem(Rem(t, 86400), 3600), 60),
        Rem(Rem(Rem(t, 86400), 3600), 60))
  }

  /** nn2_time_to_timestr. */
  method TimeToTimestr(time: int) returns (text: string)
    ensures text == Text(time) && |text| < 64
  {
    TextFits(time);
    hide Quot, Rem, ToInt, Printed;
    var itime := time;
    var d := ToInt(Quot(itime, 86400));
    itime := Rem(itime, 86400);
    var h := Quot(itime, 3600);
    itime := Rem(itime, 3600);
    var m := Quot(itime, 60);
    itime := Rem(itime, 60);
    var s := itime;
    text := "";
    if d != 0 { text := text + (Printed(d) + "d"); }
    assert text == PartOf(d, 'd');
    if h != 0 { text := text + (Printed(h) + "h"); }
    assert text == PartOf(d, 'd') + PartOf(h, 'h');
    if m != 0 { text := text + (Printed(m) + "m"); }
    assert text == PartOf(d, 'd') + PartOf(h, 'h') + PartOf(m, 'm');
    if s != 0 { text := text + (Printed(s) + "s"); }
    Parts(PartOf(d, 'd'), PartOf(h, 'h'), PartOf(m, 'm'), PartOf(s, 's'));
    PartEmpty(d, 'd');
    PartEmpty(h, 'h');
    PartEmpty(m, 'm');
    PartEmpty(s, 's');
    hide PartOf;
    if text == "" {
      text := "0s";
    }
  }

  function Pow10(k: nat): nat {
    if k == 0 then 1 else 10 * Pow10(k - 1)
  }

  lemma {:induction false} DecimalLength(n: nat, k: nat)
    requires k > 0 && n < Pow10(k)
    ensures |Decimal(n)| <= k
  {
    if n >= 10 {
      assert k > 1;
      DecimalLength(n / 10, k - 1);
    }
  }

  lemma PartLength(n: int, unit: char, k: nat)
    requires k > 0 && n < Pow10(k) && -n < Pow10(k)
    ensures |PartOf(n, unit)| <= k + 2
  {
    DecimalLength(if n < 0 then -n else n, k);
  }

  /** The text fits the static buffer. */
  lemma TextFits(t: int)
    ensures |Text(t)| < 64
  {
    var d := ToInt(Quot(t, 86400));
    var h, m, s := Quot(Rem(t, 86400), 3600), Quot(Rem(Rem(t, 86400), 3600), 60), Rem(Rem(Rem(t, 86400), 3600), 60);
    assert Pow10(10) == 10000000000 && Pow10(2) == 100;
    PartLength(d, 'd', 10);
    PartLength(h, 'h', 2);
    PartLength(m, 'm', 2);
    PartLength(s, 's', 2);
  }

  lemma Parts(a: string, b: string, c: string, d: string)
    ensures a + b + c + d == a + (b + (c + d)) && |a + b + c + d| == |a| + |b| + |c| + |d|
  {}

  lemma PartEmpty(n: int, unit: char)
    ensures |PartOf(n, unit)| == 0 <==> n == 0
  {}

  function IndexIn(s: string, c: char): (k: nat)
    requires c in s
    ensures k < |s| && s[k] == c && c !in s[..k]
  {
    if s[0] == c then 0 else 1 + IndexIn(s[1..], c)
  }

  lemma {:induction false} FirstAt(s: string, c: char, k: nat)
    requires k < |s| && s[k] == c && c !in s[..k]
    ensures IndexIn(s, c) == k
  {}

  /** What is in front of the unit, and what is behind it. */
  function Before(s: string, unit: char): int {
    if unit in s then Strtol(s[..IndexIn(s, unit)]) else 0
  }

  function After(s: string, unit: char): string {
    if unit in s then s[IndexIn(s, unit) + 1..] else s
  }

  function TimeOf(s: string): int {
    var s1 := After(s, 'd');
    var s2 := After(s1, 'h');
    Before(s, 'd') * 86400 + Before(s1, 'h') * 3600 + Before(s2, 'm') * 60 + Strtol(After(s2, 'm'))
  }

  function ToLower(c: char): char {
    if 'A' <= c <= 'Z' then (c as int + 32) as char else c
  }

  function Lower(s: string): string {
    seq(|s|, i requires 0 <= i < |s| => ToLower(s[i]))
  }

  /** nn2_timestr_to_time, which works on a copy of the text. */
  method TimestrToTime(str: Option<string>, def: int) returns (ret: int)
    ensures ret == if str == None then def else TimeOf(Lower(str.value))
  {
    if str == None { return def; }
    var copy := new char[|str.value|](i requires 0 <= i < |str.value| => str.value[i]);
    for i := 0 to copy.Length
      invariant forall j :: 0 <= j < copy.Length ==> copy[j] == if j < i then ToLower(str.value[j]) else str.value[j]
    {
      copy[i] := ToLower(copy[i]);
    }
    var s := copy[..];
    assert s == Lower(str.value);
    hide Strtol, IndexIn;
    ret := 0;
    var n: int;
    n, s := CutUnit(s, 'd');
    ret := ret + n * 86400;
    n, s := CutUnit(s, 'h');
    ret := ret + n * 3600;
    n, s := CutUnit(s, 'm');
    ret := ret + n * 60;
    ret := ret + Strtol(s);
  }

  /** strchr, and the number in front of the unit if it is there. */
  method CutUnit(s: string, unit: char) returns (n: int, rest: string)
    ensures n == Before(s, unit) && rest == After(s, unit)
  {
    hide Strtol;
    n, rest := 0, s;
    if unit in s {
      n := Strtol(s[..IndexIn(s, unit)]);
      rest := s[IndexIn(s, unit) + 1..];
    }
  }

  lemma CutPart(n: int, unit: char, rest: string)
    requires 'a' <= unit <= 'z' && unit !in rest
    ensures Before(PartOf(n, unit) + rest, unit) == n && After(PartOf(n, unit) + rest, unit) == rest
  {
    var s := PartOf(n, unit) + rest;
    if n == 0 {
      assert s == rest;
    } else {
      ReadPrinted(n, "");
      PrintedChars(n);
      var p := Printed(n);
      assert p + "" == p && s == p + [unit] + rest && s[|p|] == unit;
      assert forall k :: 0 <= k < |p| ==> s[k] == p[k] != unit;
      var k := IndexIn(s, unit);
      FirstAt(s, unit, |p|);
      assert s[..k] == p && s[k + 1..] == rest;
    }
  }

  lemma OtherUnits(n: int, unit: char, other: char)
    requires 'a' <= other <= 'z' && unit != other
    ensures other !in PartOf(n, unit)
  {
    if n != 0 { PrintedChars(n); }
  }

  lemma ReadText(d: int, h: int, m: int, s: int)
    ensures TimeOf(TextOf(d, h, m, s)) == d * 86400 + h * 3600 + m * 60 + s
  {
    var ms := PartOf(m, 'm') + PartOf(s, 's');
    var hms := PartOf(h, 'h') + ms;
    OtherUnits(h, 'h', 'd');
    OtherUnits(m, 'm', 'd');
    OtherUnits(s, 's', 'd');
    OtherUnits(m, 'm', 'h');
    OtherUnits(s, 's', 'h');
    OtherUnits(s, 's', 'm');
    if d == 0 && h == 0 && m == 0 && s == 0 {
      ReadZero();
    } else {
      ReadSeconds(s);
      CutPart(d, 'd', hms);
      CutPart(h, 'h', ms);
      CutPart(m, 'm', PartOf(s, 's'));
      hide Strtol, PartOf, Before, After;
    }
  }

  lemma ReadZero()
    ensures TimeOf("0s") == 0
  {}

  lemma ReadSeconds(s: int)
    ensures Strtol(PartOf(s, 's')) == s
  {
    if s != 0 { ReadPrinted(s, "s"); }
  }

  lemma LowerText(d: int, h: int, m: int, s: int)
    ensures Lower(TextOf(d, h, m, s)) == TextOf(d, h, m, s)
  {
    LowerPart(d, 'd');
    LowerPart(h, 'h');
    LowerPart(m, 'm');
    LowerPart(s, 's');
    var t := TextOf(d, h, m, s);
    forall k | 0 <= k < |t| ensures ToLower(t[k]) == t[k] {}
  }

  lemma LowerPart(n: int, unit: char)
    requires 'a' <= unit <= 'z'
    ensures forall k :: 0 <= k < |PartOf(n, unit)| ==> ToLower(PartOf(n, unit)[k]) == PartOf(n, unit)[k]
  {
    if n != 0 { PrintedChars(n); }
  }

  predicate SameButCase(c: char, e: char) {
    c == e || ('a' <= c <= 'z' && e as int == c as int - 32) || ('a' <= e <= 'z' && c as int == e as int - 32)
  }

  /** The case of the letters does not matter. */
  lemma AnyCase(s: string, u: string)
    requires |s| == |u| && forall k :: 0 <= k < |s| ==> SameButCase(s[k], u[k])
    ensures Lower(s) == Lower(u) && TimeOf(Lower(s)) == TimeOf(Lower(u))
  {
    assert Lower(s) == Lower(u);
  }

  /** The text of a time says how many days, hours, minutes and seconds it is. */
  lemma TextSays(d: int, h: int, m: int, s: int)
    requires -INT_BITS / 2 <= d < INT_BITS / 2
    requires if d > 0 || h > 0 || m > 0 || s > 0 then d >= 0 && 0 <= h < 24 && 0 <= m < 60 && 0 <= s < 60
             else -24 < h && -60 < m && -60 < s
    ensures Text(d * 86400 + h * 3600 + m * 60 + s) == TextOf(d, h, m, s)
  {
    hide Quot, Rem, ToInt, TextOf;
    ToIntFits(d);
    QuotIs(d, h * 3600 + m * 60 + s, 86400);
    QuotIs(h, m * 60 + s, 3600);
    QuotIs(m, s, 60);
    assert d * 86400 + h * 3600 + m * 60 + s == d * 86400 + (h * 3600 + m * 60 + s);
    assert h * 3600 + m * 60 + s == h * 3600 + (m * 60 + s);
  }

  lemma QuotIs(q: int, r: int, b: int)
    requires (b == 86400 || b == 3600 || b == 60) && ((q >= 0 && 0 <= r < b) || (q <= 0 && -b < r <= 0))
    ensures Quot(q * b + r, b) == q && Rem(q * b + r, b) == r
  {
    if b == 86400 {
      assert Quot(q * 86400 + r, 86400) == q;
    } else if b == 3600 {
      assert Quot(q * 3600 + r, 3600) == q;
    } else {
      assert Quot(q * 60 + r, 60) == q;
    }
  }

  /** Numbers and units, by example. */
  lemma TextExamples()
    ensures TextOf(1, 2, 3, 4) == "1d2h3m4s" && TextOf(0, -5, 0, 30) == "-5h30s" && TextOf(0, 0, 0, 0) == "0s"
  {
    assert Printed(1) == "1" && Printed(2) == "2" && Printed(3) == "3" && Printed(4) == "4" && Printed(-5) == "-5";
    assert Decimal(30) == "30";
    hide Printed, Decimal;
    assert PartOf(1, 'd') + (PartOf(2, 'h') + (PartOf(3, 'm') + PartOf(4, 's'))) == "1d2h3m4s";
  }

  lemma NumberExamples()
    ensures Strtol("90") == 90 && Strtol("0x1F") == 31 && Strtol("010") == 8 && Strtol(" -7m") == -7
  {
    assert Digits("90", 10, 0) == Digits("0", 10, 9) == 90;
    assert "0x1F"[2..] == "1F" && Digits("1F", 16, 0) == Digits("F", 16, 1) == 31;
    assert Digits("010", 8, 0) == Digits("10", 8, 0) == Digits("0", 8, 1) == 8;
    assert " -7m"[1..] == "-7m" && "-7m"[1..] == "7m" && Digits("7m", 10, 0) == Digits("m", 10, 7) == 7;
  }

  /** A time is read back from its text just when its days fit an int; then it may be negative, too. */
  lemma RoundTrip(t: int)
    ensures TimeOf(Lower(Text(t))) == t <==> -INT_BITS / 2 <= Quot(t, 86400) < INT_BITS / 2
  {
    var d := Quot(t, 86400);
    var h, m, s := Quot(Rem(t, 86400), 3600), Quot(Rem(Rem(t, 86400), 3600), 60), Rem(Rem(Rem(t, 86400), 3600), 60);
    LowerText(ToInt(d), h, m, s);
    ReadText(ToInt(d), h, m, s);
    ToIntFits(d);
    hide ToInt, Quot, TimeOf, Lower, TextOf;
    assert t == d * 86400 + h * 3600 + m * 60 + s;
  }

  lemma ToIntFits(x: int)
    ensures ToInt(x) == x <==> -INT_BITS / 2 <= x < INT_BITS / 2
  {}
}

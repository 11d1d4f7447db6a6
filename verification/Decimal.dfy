/** Decimal numbers as printf writes and sscanf reads them, and the int they end up in. */
module Decimal {
  import opened Wrappers

  function Digit(d: nat): char
    requires d < 10
  {
    '0' + d as char
  }

  predicate IsDigit(c: char) { '0' <= c <= '9' }

  predicate IsSpace(c: char) { c == ' ' || '\t' <= c <= '\r' }

  function PrintNat(n: nat): string {
    if n < 10 then [Digit(n)] else PrintNat(n / 10) + [Digit(n % 10)]
  }

  /** "%d" of printf. */
  function Print(n: int): string {
    if n < 0 then "-" + PrintNat(-n) else PrintNat(n)
  }

  function SkipSpace(s: string): string {
    if s != [] && IsSpace(s[0]) then SkipSpace(s[1..]) else s
  }

  /** The longest prefix of digits. */
  function Digits(s: string): (ds: string)
    ensures forall c :: c in ds ==> IsDigit(c)
  {
    if s != [] && IsDigit(s[0]) then [s[0]] + Digits(s[1..]) else []
  }

  function Value(ds: string): nat
    requires forall c :: c in ds ==> IsDigit(c)
  {
    if ds == [] then 0
    else
      var c := ds[|ds| - 1];
      assert IsDigit(c) by { assert c in ds; }
      10 * Value(ds[..|ds| - 1]) + (c as int - '0' as int)
  }

  /** "%d" of sscanf: white space, a sign, digits; what follows is not looked at. */
  function Scan(s: string): Option<int> {
    var t := SkipSpace(s);
    var signed := t != [] && (t[0] == '-' || t[0] == '+');
    var ds := Digits(if signed then t[1..] else t);
    var n: int := Value(ds);
    if ds == [] then None else Some(if signed && t[0] == '-' then -n else n)
  }

  // ----- int -----

  const INT_MIN: int := -0x8000_0000
  const INT_MAX: int := 0x7fff_ffff

  predicate IsInt(x: int) { INT_MIN <= x <= INT_MAX }

  /** Two's complement wrap-around to 32 bits. */
  function Wrap(x: int): int {
    (x - INT_MIN) % 0x1_0000_0000 + INT_MIN
  }

  function Clamp(x: int): int {
    if x < -0x8000_0000_0000_0000 then -0x8000_0000_0000_0000
    else if x > 0x7fff_ffff_ffff_ffff then 0x7fff_ffff_ffff_ffff
    else x
  }

  /** The int a scanned number is stored as. */
  function ToInt(x: int): int { Wrap(Clamp(x)) }

  lemma {:induction false} ToIntKeeps(x: int)
    ensures IsInt(ToInt(x))
    ensures IsInt(x) ==> ToInt(x) == x
  {
  }

  lemma {:induction false} WrapAdd(x: int, y: int)
    ensures Wrap(Wrap(x) + y) == Wrap(x + y)
  {
  }

  // ----- reading back what was printed -----

  lemma {:induction false} PrintNatReads(n: nat)
    ensures PrintNat(n) != []
    ensures forall c :: c in PrintNat(n) ==> IsDigit(c)
    ensures Value(PrintNat(n)) == n
  {
    if n < 10 {
    } else {
      PrintNatReads(n / 10);
      var s := PrintNat(n);
      assert s[..|s| - 1] == PrintNat(n / 10);
    }
  }

  lemma {:induction false} AllDigits(s: string)
    requires forall c :: c in s ==> IsDigit(c)
    ensures Digits(s) == s
  {
    if s == [] {
    } else {
      assert s[0] in s;
      AllDigits(s[1..]);
    }
  }

  lemma {:induction false} ScanDigits(ds: string)
    requires ds != [] && forall c :: c in ds ==> IsDigit(c)
    ensures SkipSpace(ds) == ds && Scan(ds) == Some(Value(ds))
    ensures Scan("-" + ds) == Some(-(Value(ds) as int))
  {
    AllDigits(ds);
    assert ds[0] in ds;
    var s := "-" + ds;
    assert s[1..] == ds && SkipSpace(s) == s;
  }

  /** Every number printed is read back. */
  lemma {:induction false} ScanPrinted(n: int)
    ensures Scan(Print(n)) == Some(n)
  {
    hide Scan, PrintNat;
    var m := if n < 0 then -n else n;
    PrintNatReads(m);
    ScanDigits(PrintNat(m));
  }

  /** A printed number is never taken for an option. */
  lemma {:induction false} PrintedIsNoOption(n: int)
    ensures !("--" <= Print(n))
  {
    hide PrintNat;
    var m := if n < 0 then -n else n;
    PrintNatReads(m);
    var digits := PrintNat(m);
    assert digits[0] in digits;
    var first := Print(n)[if n < 0 then 1 else 0];
    assert first == digits[0];
    assert "--"[0] == '-' && "--"[1] == '-';
  }

  // ----- what is read as a number -----

  /** Decimal notation: digits one by one, a sign in front. */
  lemma {:induction false} PrintedNotation(n: int)
    ensures n < 0 ==> Print(n) == "-" + Print(-n)
    ensures 0 <= n < 10 ==> Print(n) == ["0123456789"[n]]
    ensures n >= 10 ==> Print(n) == Print(n / 10) + Print(n % 10)
  {
    if 0 <= n < 10 {
      assert "0123456789"[n] == '0' + n as char;
    }
  }

  /** `s` is white space, a sign or none, zeros, the number `n` and something that
      does not go on with a digit. */
  ghost predicate Numeral(s: string, space: string, sign: string, zeros: string, n: nat, rest: string) {
    && s == space + sign + zeros + Print(n) + rest
    && (forall c :: c in space ==> c in " \t\n" || c as int in {11, 12, 13})
    && (sign == "" || sign == "+" || sign == "-")
    && (forall c :: c in zeros ==> c == '0')
    && (rest == "" || rest[0] !in "0123456789")
  }

  lemma {:induction false} CharsAre(s: string)
    ensures (forall c :: c in s ==> c in " \t\n" || c as int in {11, 12, 13}) <==> (forall c :: c in s ==> IsSpace(c))
    ensures s != "" ==> (IsDigit(s[0]) <==> s[0] in "0123456789")
  {
    if s != "" && IsDigit(s[0]) {
      assert "0123456789"[s[0] as int - '0' as int] == s[0];
    }
  }

  lemma {:induction false} SkipsSpace(space: string, t: string)
    requires forall c :: c in space ==> IsSpace(c)
    requires t == "" || !IsSpace(t[0])
    ensures SkipSpace(space + t) == t
  {
    if space == "" {
      assert space + t == t;
    } else {
      assert space[0] in space;
      assert (space + t)[1..] == space[1..] + t;
      SkipsSpace(space[1..], t);
    }
  }

  lemma {:induction false} StopsAtRest(ds: string, rest: string)
    requires forall c :: c in ds ==> IsDigit(c)
    requires rest == "" || !IsDigit(rest[0])
    ensures Digits(ds + rest) == ds
  {
    if ds == "" {
      assert ds + rest == rest;
    } else {
      assert ds[0] in ds;
      assert (ds + rest)[1..] == ds[1..] + rest;
      StopsAtRest(ds[1..], rest);
    }
  }

  lemma {:induction false} ZerosInFront(zeros: string, ds: string)
    requires forall c :: c in zeros ==> c == '0'
    requires forall c :: c in ds ==> IsDigit(c)
    ensures forall c :: c in zeros + ds ==> IsDigit(c)
    ensures Value(zeros + ds) == Value(ds)
    decreases |ds| + |zeros|
  {
    if ds == "" {
      assert zeros + ds == zeros;
      if zeros != "" {
        var init := zeros[..|zeros| - 1];
        assert zeros[|zeros| - 1] in zeros && forall c :: c in init ==> c in zeros;
        ZerosInFront(init, "");
        assert init + "" == init;
      }
    } else {
      var init := ds[..|ds| - 1];
      ZerosInFront(zeros, init);
      assert (zeros + ds)[..|zeros + ds| - 1] == zeros + init;
    }
  }

  /** A numeral is read as its number, whatever follows. */
  lemma {:induction false} ScanNumeral(s: string, space: string, sign: string, zeros: string, n: nat, rest: string)
    requires Numeral(s, space, sign, zeros, n, rest)
    ensures Scan(s) == Some(if sign == "-" then -(n as int) else n)
  {
    hide PrintNat, Scan, Value;
    PrintNatReads(n);
    ZerosInFront(zeros, PrintNat(n));
    CharsAre(space);
    CharsAre(rest);
    var ds := zeros + PrintNat(n);
    assert s == space + (sign + (ds + rest));
    ScanParts(space, sign, ds, rest);
  }

  lemma {:induction false} ScanParts(space: string, sign: string, ds: string, rest: string)
    requires forall c :: c in space ==> IsSpace(c)
    requires sign == "" || sign == "+" || sign == "-"
    requires ds != "" && forall c :: c in ds ==> IsDigit(c)
    requires rest == "" || !IsDigit(rest[0])
    ensures Scan(space + (sign + (ds + rest))) == Some(if sign == "-" then -(Value(ds) as int) else Value(ds))
  {
    hide Value, SkipSpace, Digits;
    var t := sign + (ds + rest);
    assert ds[0] in ds;
    assert t[0] == if sign == "" then ds[0] else sign[0];
    SkipsSpace(space, t);
    StopsAtRest(ds, rest);
    assert (if sign == "" then t else t[1..]) == ds + rest;
  }

  /** Any digits are zeros and the notation of their value. */
  lemma {:induction false} DigitsArePrinted(ds: string) returns (zeros: string)
    requires ds != "" && forall c :: c in ds ==> IsDigit(c)
    ensures (forall c :: c in zeros ==> c == '0') && ds == zeros + Print(Value(ds))
    decreases |ds|
  {
    hide Print;
    var init, c := ds[..|ds| - 1], ds[|ds| - 1];
    assert c in ds && ds == init + [c];
    PrintedDigit(c);
    if init == "" {
      zeros := "";
    } else {
      zeros := DigitsArePrinted(init);
      if Value(init) == 0 {
        PrintedDigit('0');
        zeros := zeros + "0";
      } else {
        PrintedNotation(Value(ds));
      }
    }
  }

  lemma {:induction false} PrintedDigit(c: char)
    requires IsDigit(c)
    ensures Print(c as int - '0' as int) == [c]
  {
  }

  lemma {:induction false} SplitSpace(s: string) returns (space: string)
    ensures s == space + SkipSpace(s) && forall c :: c in space ==> IsSpace(c)
    ensures SkipSpace(s) == "" || !IsSpace(SkipSpace(s)[0])
  {
    if s == "" || !IsSpace(s[0]) {
      space := "";
    } else {
      var rest := SplitSpace(s[1..]);
      space := [s[0]] + rest;
    }
  }

  lemma {:induction false} SplitDigits(s: string) returns (rest: string)
    ensures s == Digits(s) + rest && (rest == "" || !IsDigit(rest[0]))
  {
    if s == "" || !IsDigit(s[0]) {
      rest := s;
    } else {
      rest := SplitDigits(s[1..]);
    }
  }

  /** Exactly the numerals are read. */
  lemma {:induction false} ScanIff(s: string, v: int)
    ensures Scan(s) == Some(v) <==>
            exists space, sign, zeros, n, rest ::
              Numeral(s, space, sign, zeros, n, rest) && v == if sign == "-" then -(n as int) else n
  {
    hide Print, Numeral;
    forall space, sign, zeros, n, rest | Numeral(s, space, sign, zeros, n, rest)
      ensures Scan(s) == Some(if sign == "-" then -(n as int) else n)
    {
      ScanNumeral(s, space, sign, zeros, n, rest);
    }
    if Scan(s) == Some(v) {
      var space, sign, zeros, n, rest := NumeralOf(s);
    }
  }

  lemma {:induction false} NumeralOf(s: string)
    returns (space: string, sign: string, zeros: string, n: nat, rest: string)
    requires Scan(s).Some?
    ensures Numeral(s, space, sign, zeros, n, rest)
    ensures Scan(s) == Some(if sign == "-" then -(n as int) else n)
  {
    hide Print, Value, SkipSpace, Digits, Numeral;
    var t := SkipSpace(s);
    space := SplitSpace(s);
    var signed := t != [] && (t[0] == '-' || t[0] == '+');
    sign := if signed then [t[0]] else "";
    var u := if signed then t[1..] else t;
    rest := SplitDigits(u);
    n := Value(Digits(u));
    zeros := DigitsArePrinted(Digits(u));
    CharsAre(space);
    CharsAre(rest);
    IsNumeral(s, space, sign, zeros, n, rest);
  }

  lemma {:induction false} IsNumeral(s: string, space: string, sign: string, zeros: string, n: nat, rest: string)
    requires s == space + (sign + ((zeros + Print(n)) + rest))
    requires forall c :: c in space ==> c in " \t\n" || c as int in {11, 12, 13}
    requires sign == "" || sign == "+" || sign == "-"
    requires forall c :: c in zeros ==> c == '0'
    requires rest == "" || rest[0] !in "0123456789"
    ensures Numeral(s, space, sign, zeros, n, rest)
  {
    hide Print;
    assert space + (sign + ((zeros + Print(n)) + rest)) == space + sign + zeros + Print(n) + rest;
  }

  /** A number printed into a text is read where it begins. */
  lemma {:induction false} ScanPrintedThen(n: int, rest: string)
    requires rest == "" || rest[0] !in "0123456789"
    ensures Scan(Print(n) + rest) == Some(n)
  {
    hide PrintNat, Scan;
    var m := if n < 0 then -n else n;
    var sign := if n < 0 then "-" else "";
    assert Print(n) + rest == "" + sign + "" + Print(m) + rest;
    ScanNumeral(Print(n) + rest, "", sign, "", m, rest);
  }

  // ----- 32 bits -----

  /** What is stored is an int of 32 bits, and differs from the number by a multiple
      of two to the 32; for the sum of counters always, for a scanned number while
      that has 64 bits. */
  lemma {:induction false} LowBits(x: int)
    ensures IsInt(x) <==> -2147483648 <= x <= 2147483647
    ensures IsInt(Wrap(x)) && (Wrap(x) - x) % 4294967296 == 0
    ensures -0x8000_0000_0000_0000 <= x <= 0x7fff_ffff_ffff_ffff ==> ToInt(x) == Wrap(x)
  {
  }
}

/** Printing numbers: printnum of software/dhrystone/dhry_printf.c and putxval of
    software/kozos/lib.c.  An unsigned long has 32 bits. */
module Numbers {
  import opened Arith

  // ---------------------------------------------------------------- digits

  /** The digits of n, most significant first. */
  function Digits(n: nat, base: nat): (d: seq<nat>)
    requires base >= 2
    ensures d != []
  {
    if n < base then [n] else QuotientFacts(n, base); Digits(n / base, base) + [n % base]
  }

  function Decode(d: seq<nat>, base: nat): nat {
    if d == [] then 0 else Decode(d[..|d| - 1], base) * base + d[|d| - 1]
  }

  /** Digits and positional decoding undo each other; no digit is wasted. */
  lemma {:induction false} DigitsDecode(n: nat, base: nat)
    requires base >= 2
    ensures Decode(Digits(n, base), base) == n
    ensures forall i :: 0 <= i < |Digits(n, base)| ==> Digits(n, base)[i] < base
    ensures n > 0 ==> Digits(n, base)[0] > 0
  {
    hide Decode;
    if n < base {
      assert [] + [n] == [n];
      assert Decode([n], base) == n by { DecodeSnoc([], n, base); DecodeNone(base); }
    } else {
      QuotientFacts(n, base);
      var q, x := n / base, n % base;
      DigitsDecode(q, base);
      DecodeSnoc(Digits(q, base), x, base);
      assert Digits(n, base) == Digits(q, base) + [x];
    }
  }

  lemma QuotientFacts(n: nat, base: nat)
    requires 2 <= base <= n
    ensures 0 < n / base < n && 0 <= n % base < base && n / base * base + n % base == n
  {
  }

  lemma DecodeNone(base: nat)
    ensures Decode([], base) == 0
  {
  }

  lemma DecodeSnoc(d: seq<nat>, x: nat, base: nat)
    ensures Decode(d + [x], base) == Decode(d, base) * base + x
  {
  }

  function Pow(b: nat, e: nat): nat { if e == 0 then 1 else b * Pow(b, e - 1) }

  // ---------------------------------------------------------------- characters

  function DigitChar(d: nat): char requires d < 36 {
    if d >= 10 then ('a' as int - 10 + d) as char else ('0' as int + d) as char
  }

  function Chars(d: seq<nat>): (s: string)
    requires forall i :: 0 <= i < |d| ==> d[i] < 36
    ensures |s| == |d|
  {
    seq(|d|, i requires 0 <= i < |d| => DigitChar(d[i]))
  }

  function Fill(c: char, n: int): string { seq(if n > 0 then n else 0, _ => c) }

  /** The value of a character as a digit; a space counts as nothing. */
  function DigitOf(c: char): nat {
    if '0' <= c <= '9' then c as int - '0' as int
    else if 'a' <= c <= 'z' then c as int - 'a' as int + 10
    else 0
  }

  /** Reading a numeral back, leading blanks and zeros included. */
  function ReadBack(s: string, base: nat): nat {
    if s == "" then 0 else ReadBack(s[..|s| - 1], base) * base + DigitOf(s[|s| - 1])
  }

  lemma {:induction false} ReadBackChars(pad: string, d: seq<nat>, base: nat)
    requires forall i :: 0 <= i < |pad| ==> DigitOf(pad[i]) == 0
    requires forall i :: 0 <= i < |d| ==> d[i] < 36
    ensures ReadBack(pad + Chars(d), base) == Decode(d, base)
    decreases |d|, |pad|
  {
    if d != [] {
      var e := d[..|d| - 1];
      assert Chars(d) == Chars(e) + [DigitChar(d[|d| - 1])];
      assert (pad + Chars(d))[..|pad + Chars(d)| - 1] == pad + Chars(e);
      ReadBackChars(pad, e, base);
    } else if pad != "" {
      assert pad + Chars(d) == pad;
      var p := pad[..|pad| - 1];
      assert p + Chars([]) == p;
      ReadBackChars(p, [], base);
    } else {
      assert pad + Chars(d) == "";
    }
  }

  function Max(a: int, b: int): int { if a > b then a else b }

  // ---------------------------------------------------------------- printnum

  /** What printnum emits: padding up to the width, then the digits. */
  function Numeral(num: nat, base: nat, width: int, padc: char): string
    requires 2 <= base <= 36
  {
    DigitsDecode(num, base);
    Fill(padc, width - |Digits(num, base)|) + Chars(Digits(num, base))
  }

  /** The numeral has max(width, digit count) characters, and reads back as the number. */
  lemma NumeralReadsBack(num: nat, base: nat, width: int, padc: char)
    requires 2 <= base <= 36 && DigitOf(padc) == 0
    ensures |Numeral(num, base, width, padc)| == Max(width, |Digits(num, base)|)
    ensures ReadBack(Numeral(num, base, width, padc), base) == num
  {
    DigitsDecode(num, base);
    ReadBackChars(Fill(padc, width - |Digits(num, base)|), Digits(num, base), base);
  }

  lemma DigitCharIs(d: nat)
    requires d < 36
    ensures DigitChar(d) == "0123456789abcdefghijklmnopqrstuvwxyz"[d]
  {
  }

  lemma {:induction false} PowPositive(b: nat, e: nat)
    requires b > 0
    ensures Pow(b, e) > 0
  {
    if e > 0 { PowPositive(b, e - 1); MulMono(1, Pow(b, e - 1), b); }
  }

  /** The k-th digit from the right. */
  lemma {:induction false} DigitsAre(n: nat, base: nat, k: nat)
    requires base >= 2 && k < |Digits(n, base)|
    ensures Pow(base, k) > 0
    ensures Digits(n, base)[|Digits(n, base)| - 1 - k] == n / Pow(base, k) % base
    decreases k
  {
    PowPositive(base, k);
    if k > 0 {
      QuotientFacts(n, base);
      DigitsAre(n / base, base, k - 1);
      DivDiv(n, base, Pow(base, k - 1));
    } else {
      LastDigit(n, base);
    }
  }

  lemma LastDigit(n: nat, base: nat)
    requires base >= 2
    ensures Digits(n, base)[|Digits(n, base)| - 1] == n / Pow(base, 0) % base
  {
    assert Pow(base, 0) == 1;
    if n < base { SmallDigit(n, base); }
  }

  lemma SmallDigit(n: nat, base: nat)
    requires n < base
    ensures n % base == n
  {
  }

  /** How many digits there are. */
  lemma {:induction false} DigitCount(n: nat, base: nat)
    requires base >= 2
    ensures n < Pow(base, |Digits(n, base)|)
    ensures n > 0 ==> Pow(base, |Digits(n, base)| - 1) <= n
  {
    assert Pow(base, 0) == 1 && Pow(base, 1) == base * Pow(base, 0);
    if n >= base {
      QuotientFacts(n, base);
      DigitCount(n / base, base);
      var c := |Digits(n / base, base)|;
      TimesBase(n, base, Pow(base, c), Pow(base, c - 1));
    }
  }

  lemma TimesBase(n: nat, base: nat, p: nat, q: nat)
    requires 2 <= base <= n && n / base < p && q <= n / base
    ensures n < base * p && base * q <= n
  {
    QuotientFacts(n, base);
    MulMono(n / base + 1, p, base);
    MulMono(q, n / base, base);
  }

  /** The numeral, character by character: the digits of the number in its base, least significant last,
      and the padding character in front of them. */
  lemma NumeralIs(num: nat, base: nat, width: int, padc: char, k: nat)
    requires 2 <= base <= 36
    ensures Pow(base, k) > 0 && num / Pow(base, k) % base < 36
    ensures var r, n := Numeral(num, base, width, padc), |Digits(num, base)|;
      && |r| == Max(width, n)
      && (k < n ==> r[|r| - 1 - k] == "0123456789abcdefghijklmnopqrstuvwxyz"[num / Pow(base, k) % base])
      && (n <= k < |r| ==> r[|r| - 1 - k] == padc)
  {
    hide Pow, Digits, DigitChar, Numeral;
    PowPositive(base, k);
    DigitsDecode(num, base);
    Symbol(num / Pow(base, k), base);
    NumeralAt(num, base, width, padc, k);
    if k < |Digits(num, base)| { DigitsAre(num, base, k); }
  }

  lemma Symbol(q: nat, base: nat)
    requires 2 <= base <= 36
    ensures 0 <= q % base < 36 && DigitChar(q % base) == "0123456789abcdefghijklmnopqrstuvwxyz"[q % base]
  {
    hide DigitChar;
    DigitCharIs(q % base);
  }

  lemma NumeralAt(num: nat, base: nat, width: int, padc: char, k: nat)
    requires 2 <= base <= 36
    ensures forall i :: 0 <= i < |Digits(num, base)| ==> Digits(num, base)[i] < base
    ensures var r, d := Numeral(num, base, width, padc), Digits(num, base);
      && |r| == Max(width, |d|)
      && (k < |d| ==> r[|r| - 1 - k] == DigitChar(d[|d| - 1 - k]))
      && (|d| <= k < |r| ==> r[|r| - 1 - k] == padc)
  {
    DigitsDecode(num, base);
    hide Digits, DigitChar;
  }

  /** printnum; digs has sizeof(num) * 8 entries and that is enough for every base. */
  method Printnum(num: nat, base: nat, width: int, padc: char) returns (out: string)
    requires num < WORD && 2 <= base <= 36
    ensures out == Numeral(num, base, width, padc)
  {
    hide Digits, Chars;
    var digs := new nat[32];
    var pos := Collect(num, base, digs);
    ghost var d := Digits(num, base);
    DigitsDecode(num, base);
    var w := width;
    out := "";
    while w > pos
      invariant out == Fill(padc, width - w) && w <= width && (w >= pos || w == width)
      decreases w - pos
    {
      out := out + [padc];
      w := w - 1;
    }
    ghost var pad := out;
    assert pad == Fill(padc, width - |d|);
    while pos > 0
      invariant 0 <= pos <= |d| && out == pad + Chars(d[..|d| - pos])
      invariant forall i :: 0 <= i < pos ==> digs[i] == d[|d| - 1 - i]
    {
      pos := pos - 1;
      CharsSnoc(d, |d| - 1 - pos);
      out := out + [DigitChar(digs[pos])];
    }
    assert d[..|d|] == d;
  }

  lemma CharsSnoc(d: seq<nat>, k: nat)
    requires k < |d| && forall i :: 0 <= i < |d| ==> d[i] < 36
    ensures Chars(d[..k + 1]) == Chars(d[..k]) + [DigitChar(d[k])]
  {
  }

  /** The first loop: the digits, least significant first. */
  method Collect(num: nat, base: nat, digs: array<nat>) returns (pos: nat)
    requires num < WORD && 2 <= base <= 36 && digs.Length == 32
    modifies digs
    ensures pos == |Digits(num, base)| <= 32
    ensures forall i :: 0 <= i < pos ==> digs[i] == Digits(num, base)[pos - 1 - i]
  {
    hide Digits, Pow;
    var n: nat := num;
    pos := 0;
    PowWord();
    while true
      invariant 0 <= pos < 32 && n < Pow(2, 32 - pos)
      invariant Digits(num, base) == Digits(n, base) + Reversed(digs[..pos])
      decreases n
    {
      ghost var before := digs[..pos];
      digs[pos] := n % base;
      pos := pos + 1;
      assert digs[..pos] == before + [n % base];
      DigitsStep(n, base, before);
      if n < base {
        break;
      }
      ShrinkTwice(n, base, pos);
      QuotientFacts(n, base);
      n := n / base;
    }
    ghost var r := Reversed(digs[..pos]);
    assert Digits(num, base) == r;
  }

  lemma DigitsStep(n: nat, base: nat, low: seq<nat>)
    requires base >= 2
    ensures Digits(n, base) + Reversed(low) ==
            (if n < base then [] else Digits(n / base, base)) + Reversed(low + [n % base])
  {
  }

  function Reversed(s: seq<nat>): (r: seq<nat>)
    ensures |r| == |s| && forall i :: 0 <= i < |s| ==> r[i] == s[|s| - 1 - i]
  {
    seq(|s|, i requires 0 <= i < |s| => s[|s| - 1 - i])
  }

  lemma PowWord()
    ensures Pow(2, 32) == WORD
  {
    assert Pow(2, 8) == 256;
    assert Pow(2, 16) == 0x1_0000 by { PowAdd(8, 8); }
    PowAdd(16, 16);
  }

  lemma {:induction false} PowAdd(a: nat, b: nat)
    ensures Pow(2, a + b) == Pow(2, a) * Pow(2, b)
  {
    if a > 0 {
      PowAdd(a - 1, b);
      assert Pow(2, a + b) == 2 * Pow(2, a - 1 + b);
    }
  }

  /** A digit more means room for a bit less. */
  lemma ShrinkTwice(n: nat, base: nat, pos: nat)
    requires 0 < pos <= 32 && n < Pow(2, 33 - pos) && 2 <= base <= n
    ensures pos < 32 && n / base < Pow(2, 32 - pos)
  {
    assert Pow(2, 33 - pos) == 2 * Pow(2, 32 - pos);
    assert Pow(2, 0) == 1;
    MulMono(2, base, Pow(2, 32 - pos));
    QuotientBelow(n, base, Pow(2, 32 - pos));
  }

  // ---------------------------------------------------------------- putxval

  /** What putxval prints: at least `column` hex digits, at least one. */
  function HexDigits(value: nat, column: nat): string {
    if value == 0 && column == 0 then ""
    else HexDigits(value / 16, if column > 0 then column - 1 else 0) + [DigitChar(value % 16)]
  }

  lemma {:induction false} HexLength(value: nat, column: nat, n: nat)
    requires value < Pow(16, n) && column <= n
    ensures |HexDigits(value, column)| <= n
  {
    assert Pow(16, 0) == 1;
    if n > 0 && (value != 0 || column != 0) {
      QuotientBelow(value, 16, Pow(16, n - 1));
      HexLength(value / 16, if column > 0 then column - 1 else 0, n - 1);
    }
  }

  lemma {:induction false} HexAtLeast(value: nat, column: nat)
    ensures |HexDigits(value, column)| >= column && (value > 0 ==> |HexDigits(value, column)| >= |Digits(value, 16)|)
    ensures value > 0 || column > 0 ==>
      |HexDigits(value, column)| == Max(column, |Digits(value, 16)|)
  {
    if value != 0 || column != 0 { HexAtLeast(value / 16, if column > 0 then column - 1 else 0); }
  }

  lemma HexStep(value: nat, column: nat)
    requires value != 0 || column != 0
    ensures HexDigits(value, column) ==
      HexDigits(value / 16, if column > 0 then column - 1 else 0) + [DigitChar(value % 16)]
  {
  }

  lemma HexNone()
    ensures HexDigits(0, 0) == ""
  {
  }

  /** putxval prints the numeral printnum prints in base 16, padded with zeros. */
  lemma {:induction false} HexIsNumeral(value: nat, column: nat)
    requires value > 0 || column > 0
    ensures HexDigits(value, column) == Numeral(value, 16, column, '0')
  {
    hide ReadBack, Decode;
    DigitsDecode(value, 16);
    var d := Digits(value, 16);
    if value < 16 {
      ZerosThenDigit(column, value);
    } else {
      QuotientFacts(value, 16);
      var v, c := value / 16, if column > 0 then column - 1 else 0;
      HexIsNumeral(v, c);
      DigitsDecode(v, 16);
      assert Chars(Digits(v, 16)) + [DigitChar(value % 16)] == Chars(d);
    }
  }

  lemma {:induction false} ZerosThenDigit(column: nat, value: nat)
    requires value < 16 && (value > 0 || column > 0)
    ensures HexDigits(value, column) == Fill('0', column - 1) + [DigitChar(value)]
    ensures Numeral(value, 16, column, '0') == Fill('0', column - 1) + [DigitChar(value)]
  {
    DigitsDecode(value, 16);
    assert Chars([value]) == [DigitChar(value)];
    SmallDigit(value, 16);
    var c := if column > 0 then column - 1 else 0;
    assert value / 16 == 0;
    Zeros(c);
  }

  lemma {:induction false} Zeros(column: nat)
    ensures HexDigits(0, column) == Fill('0', column)
  {
    if column > 0 {
      Zeros(column - 1);
      assert DigitChar(0) == '0';
    }
  }

  /** The column with the default of one digit. */
  function Columns(value: nat, column: int): int { if value == 0 && column == 0 then 1 else column }

  /** What putxval's loop makes of value and column in k rounds; it ends when both are 0, and a round
      writes a byte. */
  function Rounds(value: nat, column: int, k: nat): (nat, int)
    decreases k
  {
    if k == 0 then (value, column) else Rounds(value / 16, if column != 0 then column - 1 else 0, k - 1)
  }

  lemma {:induction false} RoundsEnd(value: nat, column: nat, k: nat)
    ensures Rounds(value, column, k) == (0, 0) <==> |HexDigits(value, column)| <= k
    decreases k
  {
    if k > 0 { RoundsEnd(value / 16, if column > 0 then column - 1 else 0, k - 1); }
  }

  lemma {:induction false} NegativeRuns(value: nat, column: int, k: nat)
    requires column < 0
    ensures Rounds(value, column, k).1 < 0
    decreases k
  {
    if k > 0 { NegativeRuns(value / 16, column - 1, k - 1); }
  }

  /** The loop is over within the 8 bytes before the terminator if and only if the column is neither
      above 8 nor negative. */
  lemma FitsExactly(value: nat, column: int)
    requires value < WORD
    ensures Rounds(value, Columns(value, column), 8) == (0, 0) <==> 0 <= column <= 8
    ensures 0 <= column <= 8 ==> |HexDigits(value, Columns(value, column))| <= 8
  {
    hide HexDigits, Rounds;
    if column < 0 {
      NegativeRuns(value, column, 8);
    } else {
      var c := Columns(value, column);
      RoundsEnd(value, c, 8);
      HexAtLeast(value, c);
      if column <= 8 {
        assert Pow(16, 8) == WORD by { assert Pow(16, 4) == 0x1_0000; }
        HexLength(value, c, 8);
      }
    }
  }

  /** putxval: fills a 9-byte buffer from the end and prints what it filled, which is the numeral of the
      value in base 16, padded with zeros. */
  method Putxval(value: nat, column: int) returns (out: string)
    requires value < WORD && 0 <= column <= 8
    ensures out == Numeral(value, 16, column, '0')
    ensures ReadBack(out, 16) == value && |out| == Max(column, |Digits(value, 16)|)
  {
    hide HexDigits, Digits, ReadBack, Numeral;
    var buf := new char[9];
    buf[8] := '\0';
    var col := column;
    if value == 0 && col == 0 {
      col := col + 1;
    }
    FitsExactly(value, column);
    var p := FillBack(buf, value, col);
    out := buf[p + 1..8];
    assert col == Columns(value, column);
    HexIsNumeral(value, col);
    OneDigit(value, column);
    NumeralReadsBack(value, 16, column, '0');
  }

  /** A column of 1 is what no column means for 0. */
  lemma OneDigit(value: nat, column: nat)
    ensures Numeral(value, 16, Columns(value, column), '0') == Numeral(value, 16, column, '0')
  {
  }

  /** The loop: digits from the end of the buffer towards its start. */
  method FillBack(buf: array<char>, value: nat, column: nat) returns (p: int)
    requires buf.Length == 9 && |HexDigits(value, column)| <= 8
    modifies buf
    ensures -1 <= p <= 7 && buf[p + 1..8] == HexDigits(value, column) && buf[8] == old(buf[8])
  {
    hide HexDigits;
    var v, col := value, column;
    p := 7;
    ghost var done := "";
    while v != 0 || col != 0
      invariant -1 <= p <= 7 && |done| == 7 - p && buf[p + 1..8] == done && buf[8] == old(buf[8])
      invariant HexDigits(value, column) == HexDigits(v, col) + done
      decreases v + col
    {
      HexStep(v, col);
      done := [DigitChar(v % 16)] + done;
      buf[p] := DigitChar(v % 16);
      assert buf[p..8] == [buf[p]] + buf[p + 1..8];
      p := p - 1;
      v := v / 16;
      if col != 0 {
        col := col - 1;
      }
    }
    HexNone();
  }
}

/**
 * The parcel tracking number: "PKG", the creation date as %Y%m%d, and six
 * symbols drawn from the upper-case ASCII letters followed by the digits.
 * The clock reading and the random draw are the inputs of `Generate`;
 * `Parse` reads them back from a tracking number.
 */
module Tracking {
  import opened Common

  const Prefix := "PKG"

  /** `string.ascii_uppercase + string.digits`. */
  const Alphabet := "ABCDEFGHIJKLMNOPQRSTUVWXYZ0123456789"

  const SuffixLength := 6

  /** An index into the alphabet: what one `random.choices` pick yields. */
  type Pick = i: nat | i < 36

  /** The symbol at position i of the alphabet. */
  function Symbol(i: Pick): (c: char)
    ensures c == Alphabet[i]
  {
    if i < 26 then ('A' as int + i) as char else ('0' as int + i - 26) as char
  }

  predicate IsSymbol(c: char)
  {
    'A' <= c <= 'Z' || '0' <= c <= '9'
  }

  /** The position of a symbol in the alphabet. */
  function SymbolIndex(c: char): (i: Pick)
    requires IsSymbol(c)
    ensures Symbol(i) == c
  {
    if 'A' <= c <= 'Z' then c as int - 'A' as int else c as int - '0' as int + 26
  }

  lemma SymbolIndexOfSymbol(i: Pick)
    ensures IsSymbol(Symbol(i)) && SymbolIndex(Symbol(i)) == i
  {
  }

  /** A calendar date that %Y prints as four digits. */
  datatype Date = Date(year: int, month: int, day: int)

  predicate Leap(year: int)
  {
    year % 4 == 0 && (year % 100 != 0 || year % 400 == 0)
  }

  function DaysIn(year: int, month: int): int
  {
    if month == 2 then (if Leap(year) then 29 else 28)
    else if month == 4 || month == 6 || month == 9 || month == 11 then 30
    else 31
  }

  predicate ValidDate(d: Date)
  {
    1000 <= d.year <= 9999 && 1 <= d.month <= 12 && 1 <= d.day <= DaysIn(d.year, d.month)
  }

  /** What generate_tracking_number consumes: today's date and six picks. */
  datatype Draw = Draw(date: Date, suffix: seq<Pick>)

  predicate ValidDraw(dr: Draw)
  {
    ValidDate(dr.date) && |dr.suffix| == SuffixLength
  }

  predicate IsDigit(c: char)
  {
    '0' <= c <= '9'
  }

  function DigitChar(n: nat): (c: char)
    requires n < 10
    ensures IsDigit(c)
  {
    ('0' as int + n) as char
  }

  function DigitValue(c: char): (n: nat)
    requires IsDigit(c)
    ensures n < 10 && DigitChar(n) == c
  {
    c as int - '0' as int
  }

  predicate Digits(s: string)
  {
    forall i :: 0 <= i < |s| ==> IsDigit(s[i])
  }

  /** n printed with exactly two digits, zero padded (%m, %d). */
  function Pad2(n: nat): (s: string)
    requires n < 100
    ensures |s| == 2 && Digits(s)
  {
    [DigitChar(n / 10), DigitChar(n % 10)]
  }

  /** n printed with exactly four digits (%Y for years 1000 to 9999). */
  function Pad4(n: nat): (s: string)
    requires n < 10000
    ensures |s| == 4 && Digits(s)
  {
    [DigitChar(n / 1000), DigitChar(n / 100 % 10), DigitChar(n / 10 % 10), DigitChar(n % 10)]
  }

  /** The value of two decimal digits. */
  function Number2(s: string): nat
    requires |s| == 2 && Digits(s)
  {
    DigitValue(s[0]) * 10 + DigitValue(s[1])
  }

  /** The value of four decimal digits. */
  function Number4(s: string): nat
    requires |s| == 4 && Digits(s)
  {
    DigitValue(s[0]) * 1000 + DigitValue(s[1]) * 100 + DigitValue(s[2]) * 10 + DigitValue(s[3])
  }

  lemma Pad2Number(n: nat)
    requires n < 100
    ensures Number2(Pad2(n)) == n
  {
  }

  lemma Pad4Number(n: nat)
    requires n < 10000
    ensures Number4(Pad4(n)) == n
  {
    var a, b, c, d := n / 1000, n / 100 % 10, n / 10 % 10, n % 10;
    assert n / 100 == a * 10 + b;
    assert n / 10 == (n / 100) * 10 + c;
  }

  lemma NumberPad2(s: string)
    requires |s| == 2 && Digits(s)
    ensures Number2(s) < 100 && Pad2(Number2(s)) == s
  {
  }

  lemma NumberPad4(s: string)
    requires |s| == 4 && Digits(s)
    ensures Number4(s) < 10000 && Pad4(Number4(s)) == s
  {
    var a, b, c, d := DigitValue(s[0]), DigitValue(s[1]), DigitValue(s[2]), DigitValue(s[3]);
    var n := Number4(s);
    assert n / 10 == (a * 10 + b) * 10 + c;
    assert n / 100 == a * 10 + b;
    assert n / 1000 == a;
  }

  /** `strftime("%Y%m%d")` of a date. */
  function DateStamp(d: Date): (s: string)
    requires ValidDate(d)
    ensures |s| == 8 && Digits(s)
  {
    Pad4(d.year) + Pad2(d.month) + Pad2(d.day)
  }

  /** The symbols of the picks, in order. */
  function Spell(picks: seq<Pick>): (s: string)
    ensures |s| == |picks| && forall i :: 0 <= i < |s| ==> s[i] == Symbol(picks[i]) && IsSymbol(s[i])
  {
    seq(|picks|, i requires 0 <= i < |picks| => Symbol(picks[i]))
  }

  /** The picks that spell a string of symbols. */
  function Unspell(s: string): (picks: seq<Pick>)
    requires forall i :: 0 <= i < |s| ==> IsSymbol(s[i])
    ensures |picks| == |s| && forall i :: 0 <= i < |s| ==> Symbol(picks[i]) == s[i]
  {
    seq(|s|, i requires 0 <= i < |s| && IsSymbol(s[i]) => SymbolIndex(s[i]))
  }

  /** What every tracking number this service issues looks like. */
  predicate Shaped(tn: string)
  {
    && |tn| == |Prefix| + 8 + SuffixLength
    && tn[..3] == Prefix
    && Digits(tn[3..11])
    && (forall i :: 11 <= i < |tn| ==> IsSymbol(tn[i]))
  }

  /** generate_tracking_number with its clock reading and random picks given. */
  function Generate(dr: Draw): (tn: string)
    requires ValidDraw(dr)
    ensures |tn| == 17 && Shaped(tn)
    ensures tn[..3] == Prefix && tn[3..11] == DateStamp(dr.date) && tn[11..] == Spell(dr.suffix)
  {
    var tn := Prefix + DateStamp(dr.date) + Spell(dr.suffix);
    assert tn[..3] == Prefix;
    assert tn[3..11] == DateStamp(dr.date);
    assert tn[11..] == Spell(dr.suffix);
    tn
  }

  /** The draw a tracking number was generated from, when it is one. */
  function Parse(tn: string): (r: Option<Draw>)
    ensures r.Some? ==> ValidDraw(r.value)
  {
    if !Shaped(tn) then None
    else
      var stamp := tn[3..11];
      assert Digits(stamp[..4]) && Digits(stamp[4..6]) && Digits(stamp[6..]);
      var date := Date(Number4(stamp[..4]), Number2(stamp[4..6]), Number2(stamp[6..]));
      if ValidDate(date) then Some(Draw(date, Unspell(tn[11..]))) else None
  }

  /** Every generated number parses back to its draw. */
  lemma ParseGenerate(dr: Draw)
    requires ValidDraw(dr)
    ensures Parse(Generate(dr)) == Some(dr)
  {
    var tn := Generate(dr);
    var stamp := tn[3..11];
    assert stamp[..4] == Pad4(dr.date.year);
    assert stamp[4..6] == Pad2(dr.date.month);
    assert stamp[6..] == Pad2(dr.date.day);
    Pad4Number(dr.date.year);
    Pad2Number(dr.date.month);
    Pad2Number(dr.date.day);
    assert Date(Number4(stamp[..4]), Number2(stamp[4..6]), Number2(stamp[6..])) == dr.date;
    var picks := Unspell(tn[11..]);
    forall i | 0 <= i < |picks|
      ensures picks[i] == dr.suffix[i]
    {
      SymbolIndexOfSymbol(dr.suffix[i]);
    }
    assert picks == dr.suffix;
  }

  /** Every number that parses is the one its draw generates. */
  lemma GenerateParse(tn: string)
    requires Parse(tn).Some?
    ensures Generate(Parse(tn).value) == tn
  {
    var dr := Parse(tn).value;
    var stamp := tn[3..11];
    assert Digits(stamp[..4]) && Digits(stamp[4..6]) && Digits(stamp[6..]);
    NumberPad4(stamp[..4]);
    NumberPad2(stamp[4..6]);
    NumberPad2(stamp[6..]);
    assert DateStamp(dr.date) == stamp[..4] + stamp[4..6] + stamp[6..];
    assert Spell(dr.suffix) == tn[11..];
    assert tn == tn[..3] + stamp + tn[11..];
  }

  /** Two draws give the same number exactly when they are the same draw. */
  lemma GenerateInjective(a: Draw, b: Draw)
    requires ValidDraw(a) && ValidDraw(b)
    ensures Generate(a) == Generate(b) <==> a == b
  {
    if Generate(a) == Generate(b) {
      ParseGenerate(a);
      ParseGenerate(b);
    }
  }
}

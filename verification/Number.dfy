/** number and skip_atoi of kernel/vsprintf.c. */
module Number {
  import opened Basics

  const WORD := 0x1_0000_0000
  const HALF := 0x8000_0000

  /** A 32-bit int. */
  newtype int32 = x: int | -0x8000_0000 <= x < 0x8000_0000

  /** The type argument of number, bit by bit. */
  datatype Flags = Flags(zeropad: bool, signed: bool, plus: bool, space: bool, left: bool, special: bool, small: bool)

  // ----- digits ---------------------------------------------------------------------

  // digits[d]
  function DigitChar(d: nat, small: bool): char
    requires d < 36
  {
    if d < 10 then '0' + d as char else (if small then 'a' else 'A') + (d - 10) as char
  }

  function DigitValue(c: char): int {
    if '0' <= c <= '9' then c as int - '0' as int
    else if 'A' <= c <= 'Z' then c as int - 'A' as int + 10
    else if 'a' <= c <= 'z' then c as int - 'a' as int + 10
    else -1
  }

  // the digits of n, none for 0
  function Raw(n: nat, base: nat, small: bool): string
    requires 2 <= base <= 36
    decreases n
  {
    if n == 0 then [] else
      DivSmaller(n, base);
      Raw(n / base, base, small) + [DigitChar(n % base, small)]
  }

  function Digits(n: nat, base: nat, small: bool): string
    requires 2 <= base <= 36
  {
    if n == 0 then "0" else Raw(n, base, small)
  }

  // the number a string of digits denotes
  function Denotes(s: string, base: nat): int
    decreases |s|
  {
    if s == [] then 0 else Denotes(s[..|s| - 1], base) * base + DigitValue(s[|s| - 1])
  }

  lemma Times(a: int, b: int, c: int)
    requires a <= b && 0 <= c
    ensures a * c <= b * c
  {}

  lemma QuotientSmaller(n: nat, q: int, r: int, base: nat)
    requires n > 0 && base >= 2 && n == q * base + r && 0 <= r < base
    ensures 0 <= q < n && q <= n / 2
  {
    if q < 0 {
      Times(q, -1, base);
    } else {
      Times(2, base, q);
    }
  }

  lemma DivSmaller(n: nat, base: nat)
    requires n > 0 && base >= 2
    ensures 0 <= n / base < n && n / base <= n / 2 && n == n / base * base + n % base && 0 <= n % base < base
  {
    QuotientSmaller(n, n / base, n % base, base);
  }

  lemma DigitCharValue(d: nat, small: bool)
    requires d < 36
    ensures DigitValue(DigitChar(d, small)) == d
  {}

  lemma DenotesStep(s: string, c: char, base: nat)
    ensures Denotes(s + [c], base) == Denotes(s, base) * base + DigitValue(c)
  {
    assert (s + [c])[..|s|] == s;
  }

  // every character is a digit of the base, and the first is not zero
  ghost predicate Proper(s: string, base: nat) {
    (forall i :: 0 <= i < |s| ==> 0 <= DigitValue(s[i]) < base) && (s != [] ==> DigitValue(s[0]) > 0)
  }

  /** Digits denote their number, are all digits of the base, and none is superfluous. */
  lemma {:induction false} DigitsDenote(n: nat, base: nat, small: bool)
    requires 2 <= base <= 36
    ensures Denotes(Raw(n, base, small), base) == n && Proper(Raw(n, base, small), base)
    ensures n > 0 ==> Raw(n, base, small) != []
    decreases n
  {
    if n > 0 {
      DivSmaller(n, base);
      DigitsDenote(n / base, base, small);
      OneMoreDigit(n, n / base, n % base, base, Raw(n / base, base, small), small);
    }
  }

  lemma OneMoreDigit(n: nat, q: nat, r: nat, base: nat, s: string, small: bool)
    requires n > 0 && n == q * base + r && r < base <= 36 && Denotes(s, base) == q && Proper(s, base)
    requires q > 0 ==> s != []
    ensures Denotes(s + [DigitChar(r, small)], base) == n && Proper(s + [DigitChar(r, small)], base)
  {
    DigitCharValue(r, small);
    DenotesStep(s, DigitChar(r, small), base);
    if s == [] { NoQuotient(n, q, r, base); }
  }

  lemma NoQuotient(n: nat, q: nat, r: nat, base: nat)
    requires q == 0 && n == q * base + r
    ensures n == r
  {}

  function Pow2(k: nat): nat { if k == 0 then 1 else 2 * Pow2(k - 1) }

  lemma {:induction false} DigitCount(n: nat, base: nat, small: bool, k: nat)
    requires 2 <= base <= 36 && n < Pow2(k)
    ensures |Raw(n, base, small)| <= k
    decreases k
  {
    if n > 0 {
      DivSmaller(n, base);
      var q := n / base;
      assert q < Pow2(k - 1);
      DigitCount(q, base, small, k - 1);
    }
  }

  // ----- the format -----------------------------------------------------------------

  function Repeat(c: char, n: int): (s: string)
    ensures |s| == (if n > 0 then n else 0) && forall i :: 0 <= i < |s| ==> s[i] == c
  {
    if n <= 0 then [] else seq(n, _ => c)
  }

  // the value shown: the amount of a negative number under SIGN, the word as it is otherwise
  function Magnitude(num: int32, f: Flags): (m: nat)
    ensures m < WORD
  {
    if num >= 0 then num as int else if f.signed then -(num as int) else num as int + WORD
  }

  function SignOf(num: int32, f: Flags): string {
    if f.signed && num < 0 then "-" else if f.plus then "+" else if f.space then " " else ""
  }

  function Prefix(base: nat, f: Flags): string {
    if !f.special then "" else if base == 8 then "0" else if base == 16 then ['0', DigitChar(33, f.small)] else ""
  }

  // sign, prefix and digits, without any padding to the field width
  function Width(num: int32, base: nat, precision: int, f: Flags): nat
    requires 2 <= base <= 36
  {
    |SignOf(num, f)| + |Prefix(base, f)| + Max(|Digits(Magnitude(num, f), base, f.small)|, precision)
  }

  // the text in front of zeros and digits
  function Front(num: int32, base: nat, size: int, precision: int, f: Flags): string
    requires 2 <= base <= 36
  {
    Repeat(' ', if f.left || f.zeropad then 0 else size - Width(num, base, precision, f)) +
    SignOf(num, f) + Prefix(base, f)
  }

  // the zeros up to the field width and up to the precision
  function Zeros(num: int32, base: nat, size: int, precision: int, f: Flags): nat
    requires 2 <= base <= 36
  {
    Max(if !f.left && f.zeropad then size - Width(num, base, precision, f) else 0, 0)
    + Max(precision - |Digits(Magnitude(num, f), base, f.small)|, 0)
  }

  function Shown(num: int32, base: nat, size: int, precision: int, f: Flags): string
    requires 2 <= base <= 36
  {
    Repeat('0', Zeros(num, base, size, precision, f)) + Digits(Magnitude(num, f), base, f.small)
  }

  // the blanks behind
  function Back(num: int32, base: nat, size: int, precision: int, f: Flags): string
    requires 2 <= base <= 36
  {
    Repeat(' ', if f.left then size - Width(num, base, precision, f) else 0)
  }

  /** The text number writes: whatever the flags, as long as the wider of the field and its
      contents. */
  function Formatted(num: int32, base: nat, size: int, precision: int, f: Flags): (s: string)
    requires 2 <= base <= 36
    ensures |s| == Max(size, Width(num, base, precision, f))
  {
    Front(num, base, size, precision, f) + Shown(num, base, size, precision, f) + Back(num, base, size, precision, f)
  }

  // zeros in front do not change what a text denotes
  lemma {:induction false} ZerosDenote(n: nat, s: string, base: nat)
    requires base >= 2
    ensures Denotes(Repeat('0', n) + s, base) == Denotes(s, base)
    decreases |s|, n
  {
    var t := Repeat('0', n) + s;
    if s == [] {
      if n > 0 {
        assert t[..n - 1] == Repeat('0', n - 1) + s;
        ZerosDenote(n - 1, s, base);
      } else {
        assert t == [];
      }
    } else {
      assert t[..|t| - 1] == Repeat('0', n) + s[..|s| - 1];
      ZerosDenote(n, s[..|s| - 1], base);
    }
  }

  lemma DigitsAre(n: nat, base: nat, small: bool)
    requires 2 <= base <= 36
    ensures var d := Digits(n, base, small);
            d != [] && Denotes(d, base) == n && forall i :: 0 <= i < |d| ==> 0 <= DigitValue(d[i]) < base
  {
    DigitsDenote(n, base, small);
    DenotesStep([], '0', base);
    assert [] + ['0'] == "0";
  }

  lemma MagnitudeIs(num: int32, f: Flags)
    ensures f.signed && num < 0 ==> num as int == -(Magnitude(num, f) as int)
    ensures !(f.signed && num < 0) ==>
      Magnitude(num, f) == num as int % WORD && (num >= 0 ==> Magnitude(num, f) == num as int)
  {}

  lemma ZeroedDigits(n: nat, m: nat, base: nat, small: bool)
    requires 2 <= base <= 36
    ensures var s := Repeat('0', n) + Digits(m, base, small);
            s != [] && Denotes(s, base) == m && forall i :: 0 <= i < |s| ==> 0 <= DigitValue(s[i]) < base
  {
    DigitsAre(m, base, small);
    ZerosDenote(n, Digits(m, base, small), base);
  }

  lemma ShownDenotes(num: int32, base: nat, size: int, precision: int, f: Flags)
    requires 2 <= base <= 36
    ensures var s := Shown(num, base, size, precision, f);
            s != [] && Denotes(s, base) == Magnitude(num, f) && forall i :: 0 <= i < |s| ==>
              0 <= DigitValue(s[i]) < base
  {
    ZeroedDigits(Zeros(num, base, size, precision, f), Magnitude(num, f), base, f.small);
  }

  /** What stands between the sign and the last blanks denotes the value, for every 32-bit
      number, the most negative one included: its amount under SIGN, the word as unsigned without. */
  lemma FormattedDenotes(num: int32, base: nat, size: int, precision: int, f: Flags)
    requires 2 <= base <= 36
    ensures var v := Denotes(Shown(num, base, size, precision, f), base);
            if f.signed then num as int == if SignOf(num, f) == "-" then -v else v
            else v == num as int % WORD
  {
    ShownDenotes(num, base, size, precision, f);
    MagnitudeIs(num, f);
  }

  // ----- the text outright ----------------------------------------------------------

  // letters are small ones, or none are
  predicate Lettered(s: string, small: bool) {
    forall i :: 0 <= i < |s| ==> if small then !('A' <= s[i] <= 'Z') else !('a' <= s[i] <= 'z')
  }

  /** The numeral of n: digits of the base that denote n, without a zero in front. */
  predicate IsNumeral(s: string, n: int, base: nat, small: bool) {
    && s != [] && (|s| > 1 ==> s[0] != '0') && Lettered(s, small)
    && (forall i :: 0 <= i < |s| ==> 0 <= DigitValue(s[i]) < base) && Denotes(s, base) == n
  }

  lemma {:induction false} RawLettered(n: nat, base: nat, small: bool)
    requires 2 <= base <= 36
    ensures Lettered(Raw(n, base, small), small)
    decreases n
  {
    if n > 0 {
      DivSmaller(n, base);
      RawLettered(n / base, base, small);
    }
  }

  lemma DigitsAreNumeral(n: nat, base: nat, small: bool)
    requires 2 <= base <= 36
    ensures IsNumeral(Digits(n, base, small), n, base, small)
  {
    DigitsAre(n, base, small);
    DigitsDenote(n, base, small);
    RawLettered(n, base, small);
  }

  lemma DigitOnce(c: char, small: bool)
    requires 0 <= DigitValue(c) < 36 && Lettered([c], small)
    ensures c == DigitChar(DigitValue(c), small)
  {
    assert [c][0] == c;
  }

  lemma LastDigit(q: nat, r: nat, base: nat)
    requires 0 <= r < base && base >= 2
    ensures (q * base + r) / base == q && (q * base + r) % base == r && (q > 0 ==> q * base + r > 0)
  {
    var n := q * base + r;
    var d := n / base - q;
    assert n == (q + d) * base + n % base;
    Distribute(q, d, base);
    if d > 0 { Times(1, d, base); } else if d < 0 { Times(d, -1, base); }
  }

  lemma Distribute(q: int, d: int, base: int)
    ensures (q + d) * base == q * base + d * base
  {}

  lemma {:induction false} ValueNatural(s: string, base: nat)
    requires forall i :: 0 <= i < |s| ==> 0 <= DigitValue(s[i]) < base
    ensures Denotes(s, base) >= 0
    decreases |s|
  {
    if s != [] {
      ValueNatural(s[..|s| - 1], base);
      Times(0, Denotes(s[..|s| - 1], base), base);
    }
  }

  lemma DigitsStep(t: string, c: char, q: nat, n: nat, base: nat, small: bool)
    requires 2 <= base <= 36 && q > 0 && t == Digits(q, base, small)
    requires 0 <= DigitValue(c) < base && c == DigitChar(DigitValue(c), small) && n == q * base + DigitValue(c)
    ensures Digits(n, base, small) == t + [c]
  {
    LastDigit(q, DigitValue(c), base);
  }

  // a numeral of several digits without its last one
  lemma NumeralFront(s: string, n: nat, base: nat, small: bool, t: string, c: char)
    requires 2 <= base <= 36 && IsNumeral(s, n, base, small) && s == t + [c] && t != []
    ensures Denotes(t, base) >= 0 && IsNumeral(t, Denotes(t, base), base, small) && t != "0"
    ensures 0 <= DigitValue(c) < base && Lettered([c], small) && n == Denotes(t, base) * base + DigitValue(c)
  {
    assert forall i :: 0 <= i < |t| ==> t[i] == s[i];
    assert s[|t|] == c;
    ValueNatural(t, base);
    DenotesStep(t, c, base);
  }

  // numerals are unique
  lemma {:induction false} NumeralOnce(s: string, n: nat, base: nat, small: bool)
    requires 2 <= base <= 36 && IsNumeral(s, n, base, small)
    ensures s == Digits(n, base, small)
    decreases |s|
  {
    var t, c := s[..|s| - 1], s[|s| - 1];
    assert s == t + [c];
    if t == [] {
      DenotesStep([], c, base);
      DigitOnce(c, small);
      OneDigit(n, base, small);
    } else {
      NumeralFront(s, n, base, small, t, c);
      NumeralOnce(t, Denotes(t, base), base, small);
      DigitOnce(c, small);
      DigitsStep(t, c, Denotes(t, base), n, base, small);
    }
  }

  lemma OneDigit(n: nat, base: nat, small: bool)
    requires 2 <= base <= 36 && n < base
    ensures Digits(n, base, small) == [DigitChar(n, small)]
  {
    if n > 0 {
      LastDigit(0, n, base);
      assert Raw(0, base, small) == [];
    }
  }

  /** How the text is laid out: blanks, then sign, prefix, zeros and digits, and blanks again. */
  datatype Layout = Layout(before: nat, zeros: nat, digits: string, behind: nat)

  /** What number promises of the text: a minus for a negative number under SIGN, or else plus
      before blank; 0 in front for base 8 and 0x or 0X for base 16 under SPECIAL; the numeral with
      zeros up to the precision; and up to the field width blanks behind for LEFT, or else zeros for
      ZEROPAD, or else blanks in front. */
  predicate LaidOut(s: string, num: int32, base: nat, size: int, precision: int, f: Flags, l: Layout) {
    && s == Repeat(' ', l.before)
            + (if f.signed && num < 0 then "-" else if f.plus then "+" else if f.space then " " else "")
            + (if f.special && base == 8 then "0"
               else if f.special && base == 16 then if f.small then "0x" else "0X"
               else "")
            + Repeat('0', l.zeros) + l.digits + Repeat(' ', l.behind)
    && IsNumeral(l.digits, if f.signed && num < 0 then -(num as int) else num as int % WORD, base, f.small)
    && l.zeros + |l.digits| >= precision && |s| >= size
    && (l.before > 0 ==> !f.left && !f.zeropad && |s| == size)
    && (l.behind > 0 ==> f.left && |s| == size)
    && (l.zeros > 0 && l.zeros + |l.digits| > precision ==> !f.left && f.zeropad && |s| == size)
  }

  function TheLayout(num: int32, base: nat, size: int, precision: int, f: Flags): Layout
    requires 2 <= base <= 36
  {
    var pad := size - Width(num, base, precision, f);
    Layout(Max(if f.left || f.zeropad then 0 else pad, 0), Zeros(num, base, size, precision, f),
           Digits(Magnitude(num, f), base, f.small), Max(if f.left then pad else 0, 0))
  }

  lemma Fronts(num: int32, base: nat, f: Flags)
    ensures SignOf(num, f) == if f.signed && num < 0 then "-" else if f.plus then "+" else if f.space then " " else ""
    ensures Prefix(base, f) == if f.special && base == 8 then "0"
                               else if f.special && base == 16 then if f.small then "0x" else "0X"
                               else ""
  {}

  lemma FormattedLaidOut(num: int32, base: nat, size: int, precision: int, f: Flags)
    requires 2 <= base <= 36
    ensures LaidOut(Formatted(num, base, size, precision, f), num, base, size, precision, f,
                    TheLayout(num, base, size, precision, f))
  {
    var l := TheLayout(num, base, size, precision, f);
    FormattedParts(num, base, size, precision, f, l);
    Fronts(num, base, f);
    MagnitudeIs(num, f);
    DigitsAreNumeral(Magnitude(num, f), base, f.small);
  }

  lemma FormattedParts(num: int32, base: nat, size: int, precision: int, f: Flags, l: Layout)
    requires 2 <= base <= 36 && l == TheLayout(num, base, size, precision, f)
    ensures Formatted(num, base, size, precision, f) ==
            Repeat(' ', l.before) + SignOf(num, f) + Prefix(base, f) + Repeat('0', l.zeros) + l.digits
            + Repeat(' ', l.behind)
  {
    var pad := size - Width(num, base, precision, f);
    RepeatSame(' ', if f.left || f.zeropad then 0 else pad, l.before);
    RepeatSame(' ', if f.left then pad else 0, l.behind);
    PartsJoin(Front(num, base, size, precision, f), Repeat('0', l.zeros), l.digits, Repeat(' ', l.behind));
  }

  lemma PartsJoin(a: string, b: string, c: string, d: string)
    ensures a + (b + c) + d == a + b + c + d
  {}

  // the sizes of the parts follow from those of the field and of the digits
  lemma SizesOnce(length: int, front: int, before: nat, zeros: nat, n: int, behind: nat, size: int, precision: int,
        f: Flags)
    requires length == before + front + zeros + n + behind && zeros + n >= precision && length >= size && n >= 0
    requires before > 0 ==> !f.left && !f.zeropad && length == size
    requires behind > 0 ==> f.left && length == size
    requires zeros > 0 && zeros + n > precision ==> !f.left && f.zeropad && length == size
    ensures var pad := size - (front + Max(n, precision));
            && before == Max(if f.left || f.zeropad then 0 else pad, 0)
            && zeros == Max(if !f.left && f.zeropad then pad else 0, 0) + Max(precision - n, 0)
            && behind == Max(if f.left then pad else 0, 0)
  {}

  lemma LaidOutSizes(s: string, num: int32, base: nat, size: int, precision: int, f: Flags, l: Layout)
    requires 2 <= base <= 36 && LaidOut(s, num, base, size, precision, f, l)
    ensures |s| == l.before + (|SignOf(num, f)| + |Prefix(base, f)|) + l.zeros + |l.digits| + l.behind
    ensures l.digits == Digits(Magnitude(num, f), base, f.small)
  {
    Fronts(num, base, f);
    MagnitudeIs(num, f);
    NumeralOnce(l.digits, Magnitude(num, f), base, f.small);
  }

  lemma LayoutOnce(s: string, num: int32, base: nat, size: int, precision: int, f: Flags, l: Layout)
    requires 2 <= base <= 36 && LaidOut(s, num, base, size, precision, f, l)
    ensures l == TheLayout(num, base, size, precision, f)
  {
    LaidOutSizes(s, num, base, size, precision, f, l);
    SizesOnce(|s|, |SignOf(num, f)| + |Prefix(base, f)|, l.before, l.zeros, |l.digits|, l.behind, size, precision, f);
  }

  /** The text number writes is the only one that is laid out as it promises. */
  lemma FormattedIff(s: string, num: int32, base: nat, size: int, precision: int, f: Flags)
    requires 2 <= base <= 36
    ensures s == Formatted(num, base, size, precision, f) <==> exists l :: LaidOut(s, num, base, size, precision, f, l)
  {
    FormattedLaidOut(num, base, size, precision, f);
    if l :| LaidOut(s, num, base, size, precision, f, l) {
      LayoutOnce(s, num, base, size, precision, f, l);
    }
  }

  /** Its letters are small under SMALL and capital otherwise, the x of the prefix included. */
  lemma FormattedLettered(num: int32, base: nat, size: int, precision: int, f: Flags)
    requires 2 <= base <= 36
    ensures Lettered(Formatted(num, base, size, precision, f), f.small)
  {
    var front, shown := Front(num, base, size, precision, f), Shown(num, base, size, precision, f);
    FrontLettered(num, base, size, precision, f);
    DigitsAreNumeral(Magnitude(num, f), base, f.small);
    LetteredJoin(Repeat('0', Zeros(num, base, size, precision, f)), Digits(Magnitude(num, f), base, f.small), f.small);
    LetteredJoin(front, shown, f.small);
    LetteredJoin(front + shown, Back(num, base, size, precision, f), f.small);
  }

  lemma FrontLettered(num: int32, base: nat, size: int, precision: int, f: Flags)
    requires 2 <= base <= 36
    ensures Lettered(Front(num, base, size, precision, f), f.small)
  {
    var blanks := Repeat(' ', if f.left || f.zeropad then 0 else size - Width(num, base, precision, f));
    Fronts(num, base, f);
    LetteredJoin(blanks, SignOf(num, f), f.small);
    LetteredJoin(blanks + SignOf(num, f), Prefix(base, f), f.small);
  }

  lemma LetteredJoin(s: string, t: string, small: bool)
    requires Lettered(s, small) && Lettered(t, small)
    ensures Lettered(s + t, small)
  {}

  // ----- number ---------------------------------------------------------------------

  lemma RepeatJoin(c: char, m: int, n: int)
    requires m >= 0 && n >= 0
    ensures Repeat(c, m) + Repeat(c, n) == Repeat(c, m + n)
  {}

  // the first digits of tmp, last to first
  function Reversed(tmp: seq<char>): string { seq(|tmp|, i requires 0 <= i < |tmp| => tmp[|tmp| - 1 - i]) }

  // nothing is written from a place on
  ghost predicate Unchanged(after: seq<char>, before: seq<char>, from: int) {
    |after| == |before| && forall x :: 0 <= x < |after| && from <= x ==> after[x] == before[x]
  }

  // a run of one character; none when n is negative
  method Fill(buf: array<char>, str: nat, n: int, c: char) returns (end: nat)
    requires str + (if n > 0 then n else 0) <= buf.Length
    modifies buf
    ensures end == str + |Repeat(c, n)| && buf[..end] == old(buf[..str]) + Repeat(c, n)
    ensures Unchanged(buf[..], old(buf[..]), end)
  {
    end := str;
    var left := n;
    while left > 0
      invariant end + (if left > 0 then left else 0) == str + (if n > 0 then n else 0)
      invariant str <= end && forall i :: 0 <= i < buf.Length ==> buf[i] == if str <= i < end then c else old(buf[i])
    {
      buf[end] := c;
      end, left := end + 1, left - 1;
    }
  }

  // one division: its remainder is the next digit from the right
  method Divide(n: nat, base: nat, small: bool, ghost done: string) returns (q: nat, c: char)
    requires n > 0 && 2 <= base <= 36
    ensures q < n && |Raw(n, base, small)| > 0
    ensures Raw(n, base, small) + Reversed(done) == Raw(q, base, small) + Reversed(done + [c])
  {
    DivSmaller(n, base);
    q, c := n / base, DigitChar(n % base, small);
    ReversedStep(done, c);
    assert Raw(n, base, small) == Raw(q, base, small) + [c];
  }

  // the digits of a word, into tmp from its start
  method PutDigits(tmp: array<char>, num: nat, base: nat, small: bool) returns (i: nat)
    requires tmp.Length == 36 && 2 <= base <= 36 && num < WORD
    modifies tmp
    ensures 0 < i <= 32 && Reversed(tmp[..i]) == Digits(num, base, small)
  {
    i := 0;
    if num == 0 {
      tmp[0] := '0';
      assert Reversed(tmp[..1]) == "0";
      return 1;
    }
    var n: nat := num;
    WordIsPow2();
    DigitCount(num, base, small, 32);
    assert Raw(num, base, small) + Reversed(tmp[..0]) == Raw(num, base, small);
    while n != 0
      invariant i <= 32 && Raw(num, base, small) == Raw(n, base, small) + Reversed(tmp[..i])
    {
      ghost var before := tmp[..i];
      var c;
      n, c := Divide(n, base, small, before);
      tmp[i] := c;
      assert tmp[..i + 1] == before + [c];
      i := i + 1;
    }
    assert Raw(0, base, small) + Reversed(tmp[..i]) == Reversed(tmp[..i]);
    DigitsAre(num, base, small);
  }

  lemma ReversedStep(s: seq<char>, c: char)
    ensures Reversed(s + [c]) == [c] + Reversed(s)
  {}

  lemma WordIsPow2()
    ensures Pow2(32) == WORD
  {
    assert Pow2(8) == 0x100 && Pow2(16) == 0x1_0000 && Pow2(24) == 0x100_0000;
  }

  // the first count characters of tmp, the last one first
  method PutReversed(buf: array<char>, str: nat, tmp: array<char>, count: nat) returns (end: nat)
    requires buf != tmp && count <= tmp.Length && str + count <= buf.Length
    modifies buf
    ensures end == str + count && buf[..end] == old(buf[..str]) + Reversed(tmp[..count])
    ensures Unchanged(buf[..], old(buf[..]), end)
  {
    end := str;
    var i := count;
    while i > 0
      invariant 0 <= i <= count && end == str + (count - i)
      invariant forall x :: 0 <= x < buf.Length ==>
        buf[x] == if str <= x < end then tmp[count - 1 - (x - str)] else old(buf[x])
    {
      i := i - 1;
      buf[end] := tmp[i];
      end := end + 1;
    }
  }

  // the characters of a short text, one after the other
  method Put(buf: array<char>, str: nat, text: string) returns (end: nat)
    requires str + |text| <= buf.Length
    modifies buf
    ensures end == str + |text| && buf[..end] == old(buf[..str]) + text && Unchanged(buf[..], old(buf[..]), end)
  {
    end := str;
    while end < str + |text|
      invariant str <= end <= str + |text|
      invariant forall x :: 0 <= x < buf.Length ==> buf[x] == if str <= x < end then text[x - str] else old(buf[x])
    {
      buf[end] := text[end - str];
      end := end + 1;
    }
  }

  datatype Option<T> = None | Some(value: T)

  // the word do_div works on; negating the most negative number leaves it as it is
  method Word(num: int32, signed: bool) returns (word: nat)
    ensures forall f: Flags :: f.signed == signed ==> word == Magnitude(num, f)
  {
    word := (if signed && num < 0 then -(num as int) else num as int) % WORD;
  }

  // what the loop that counts size down leaves of it
  function After(size: int): int { if size > 0 then -1 else size - 1 }

  // the pieces number writes one after the other
  function Pieces(a: int, sign: string, prefix: string, c: char, b: int, zeros: int, digits: string, d: int): string {
    Repeat(' ', a) + sign + prefix + Repeat(c, b) + Repeat('0', zeros) + digits + Repeat(' ', d)
  }

  lemma PiecesAppend(start: string, a: int, sign: string, prefix: string, c: char, b: int, zeros: int,
        digits: string, d: int)
    ensures start + Repeat(' ', a) + sign + prefix + Repeat(c, b) + Repeat('0', zeros) + digits + Repeat(' ', d)
         == start + Pieces(a, sign, prefix, c, b, zeros, digits, d)
  {}

  lemma PiecesShape(a: int, sign: string, prefix: string, c: char, b: int, zeros: int, digits: string, d: int)
    requires (c == '0' || b <= 0) && zeros >= 0
    ensures Pieces(a, sign, prefix, c, b, zeros, digits, d)
         == Repeat(' ', a) + sign + prefix + (Repeat('0', Max(b, 0) + zeros) + digits) + Repeat(' ', d)
  {
    RepeatJoin('0', Max(b, 0), zeros);
    assert Repeat(c, b) == Repeat('0', Max(b, 0));
  }

  // what the three loops over size write, from the field size that is left
  function Before(size: int, f: Flags): int { if !f.zeropad && !f.left then size else 0 }

  function Size1(size: int, f: Flags): int { if !f.zeropad && !f.left then After(size) else size }

  function Inside(size: int, f: Flags): int { if !f.left then Size1(size, f) else 0 }

  function Behind(size: int, f: Flags): int { if !f.left then After(Size1(size, f)) else size }

  function PadChar(f: Flags): char { if f.zeropad then '0' else ' ' }

  function Effective(f: Flags): Flags { if f.left then f.(zeropad := false) else f }

  function Written(size: int, f: Flags, sign: string, prefix: string, zeros: int, digits: string): string {
    Pieces(Before(size, f), sign, prefix, PadChar(f), Inside(size, f), zeros, digits, Behind(size, f))
  }

  lemma FormattedPieces(num: int32, base: nat, size: int, precision: int, f: Flags, blanks: int, left: int)
    requires 2 <= base <= 36
    requires Max(blanks, 0) == Max(if f.left || f.zeropad then 0 else size - Width(num, base, precision, f), 0)
    requires Max(left, 0) == Max(if f.left then size - Width(num, base, precision, f) else 0, 0)
    ensures Formatted(num, base, size, precision, f)
         == Repeat(' ', blanks) + SignOf(num, f) + Prefix(base, f)
            + (Repeat('0', Zeros(num, base, size, precision, f)) + Digits(Magnitude(num, f), base, f.small))
            + Repeat(' ', left)
  {
    RepeatSame(' ', blanks, if f.left || f.zeropad then 0 else size - Width(num, base, precision, f));
    RepeatSame(' ', left, if f.left then size - Width(num, base, precision, f) else 0);
  }

  lemma RepeatSame(c: char, m: int, n: int)
    requires Max(m, 0) == Max(n, 0)
    ensures Repeat(c, m) == Repeat(c, n)
  {}

  // the zeros of the field and those of the precision side by side
  lemma PiecesMeet(a: int, sign: string, prefix: string, c: char, b: int, zeros: int, digits: string, d: int, n: nat)
    requires (c == '0' || b <= 0) && zeros >= 0 && Max(b, 0) + zeros == n
    ensures Pieces(a, sign, prefix, c, b, zeros, digits, d)
         == Repeat(' ', a) + sign + prefix + (Repeat('0', n) + digits) + Repeat(' ', d)
  {
    PiecesShape(a, sign, prefix, c, b, zeros, digits, d);
  }

  lemma ZerosAre(num: int32, base: nat, size: int, precision: int, f: Flags)
    requires 2 <= base <= 36
    ensures var n := |Digits(Magnitude(num, f), base, f.small)|;
            var pad, g := size - Width(num, base, precision, f), Effective(f);
            && Max(Inside(pad, g), 0) + (Max(n, precision) - n) == Zeros(num, base, size, precision, f)
            && (PadChar(g) == '0' || Inside(pad, g) <= 0)
            && Max(Before(pad, g), 0) == Max(if f.left || f.zeropad then 0 else pad, 0)
            && Max(Behind(pad, g), 0) == Max(if f.left then pad else 0, 0)
  {}

  lemma WrittenIsFormatted(num: int32, base: nat, size: int, precision: int, f: Flags)
    requires 2 <= base <= 36
    ensures var digits := Digits(Magnitude(num, f), base, f.small);
            var pad, zeros := size - Width(num, base, precision, f), Max(|digits|, precision) - |digits|;
            Written(pad, Effective(f), SignOf(num, f), Prefix(base, f), zeros, digits)
            == Formatted(num, base, size, precision, f)
  {
    var digits, g := Digits(Magnitude(num, f), base, f.small), Effective(f);
    var pad, zeros := size - Width(num, base, precision, f), Max(|digits|, precision) - |digits|;
    ZerosAre(num, base, size, precision, f);
    PiecesMeet(Before(pad, g), SignOf(num, f), Prefix(base, f), PadChar(g), Inside(pad, g), zeros, digits,
               Behind(pad, g), Zeros(num, base, size, precision, f));
    FormattedPieces(num, base, size, precision, f, Before(pad, g), Behind(pad, g));
  }

  // the writing part of number up to the padding in front of the digits
  method WriteFront(buf: array<char>, str: nat, size0: int, f: Flags, sign: string, prefix: string)
    returns (end: nat, size: int)
    requires str + |Repeat(' ', Before(size0, f))| + |sign| + |prefix| +
             |Repeat(PadChar(f), Inside(size0, f))| <= buf.Length
    modifies buf
    ensures end == str + |Repeat(' ', Before(size0, f))| + |sign| + |prefix| + |Repeat(PadChar(f), Inside(size0, f))|
    ensures buf[..end] ==
            old(buf[..str]) + Repeat(' ', Before(size0, f)) + sign + prefix + Repeat(PadChar(f), Inside(size0, f))
    ensures Unchanged(buf[..], old(buf[..]), end) && size == Behind(size0, f)
  {
    size, end := size0, str;
    if !f.zeropad && !f.left {
      end := Fill(buf, end, size, ' ');
      size := After(size);
    } else {
      assert old(buf[..str]) + Repeat(' ', 0) == old(buf[..str]);
    }
    end := Put(buf, end, sign);
    end := Put(buf, end, prefix);
    if !f.left {
      end := Fill(buf, end, size, PadChar(f));
      size := After(size);
    }
  }

  /** The writing part of number: its loops in their order write the text. */
  method Write(buf: array<char>, str: nat, tmp: array<char>, i: nat, size0: int, f: Flags, sign: string,
        prefix: string, zeros: int, ghost text: string)
    returns (end: nat)
    requires buf != tmp && i <= tmp.Length && zeros >= 0
    requires text == Written(size0, f, sign, prefix, zeros, Reversed(tmp[..i])) && str + |text| <= buf.Length
    modifies buf
    ensures end == str + |text| && buf[..end] == old(buf[..str]) + text && Unchanged(buf[..], old(buf[..]), end)
  {
    PiecesAppend(buf[..str], Before(size0, f), sign, prefix, PadChar(f), Inside(size0, f),
                 zeros, Reversed(tmp[..i]), Behind(size0, f));
    var size;
    end, size := WriteFront(buf, str, size0, f, sign, prefix);
    end := Fill(buf, end, zeros, '0');
    end := PutReversed(buf, end, tmp, i);
    end := Fill(buf, end, size, ' ');
  }

  // the digits, and what the field has left when everything else is taken off
  method Prepare(tmp: array<char>, num: int32, base: nat, size0: int, precision0: int, f: Flags)
    returns (size: int, i: nat, precision: int)
    requires tmp.Length == 36 && 2 <= base <= 36
    modifies tmp
    ensures i <= 36 && Reversed(tmp[..i]) == Digits(Magnitude(num, f), base, f.small)
    ensures precision == Max(i, precision0) && size == size0 - Width(num, base, precision0, f)
  {
    size := size0;
    if SignOf(num, f) != "" { size := size - 1; }
    if f.special {
      if base == 16 { size := size - 2; } else if base == 8 { size := size - 1; }
    }
    var word := Word(num, f.signed);
    i := PutDigits(tmp, word, base, f.small);
    assert |Digits(Magnitude(num, f), base, f.small)| == |Reversed(tmp[..i])| == i;
    precision := precision0;
    if i > precision { precision := i; }
    size := size - precision;
  }

  lemma EffectiveSame(num: int32, base: nat, precision: int, f: Flags)
    requires 2 <= base <= 36
    ensures SignOf(num, Effective(f)) == SignOf(num, f) && Prefix(base, Effective(f)) == Prefix(base, f)
    ensures Magnitude(num, Effective(f)) == Magnitude(num, f)
    ensures Width(num, base, precision, Effective(f)) == Width(num, base, precision, f)
  {}

  // with what Prepare has worked out
  lemma PreparedIsFormatted(num: int32, base: nat, size0: int, precision0: int, f: Flags, digits: string, size: int,
        precision: int)
    requires 2 <= base <= 36 && digits == Digits(Magnitude(num, Effective(f)), base, Effective(f).small)
    requires precision == Max(|digits|, precision0) && size == size0 - Width(num, base, precision0, Effective(f))
    ensures var g := Effective(f);
            Written(size, g, SignOf(num, g), Prefix(base, g), precision - |digits|, digits) ==
            Formatted(num, base, size0, precision0, f)
  {
    EffectiveSame(num, base, precision0, f);
    WrittenIsFormatted(num, base, size0, precision0, f);
  }

  // the same, as what the loops of Write make a text of
  method PrepareText(tmp: array<char>, num: int32, base: nat, size0: int, precision0: int, type0: Flags)
    returns (size: int, i: nat, zeros: int)
    requires tmp.Length == 36 && 2 <= base <= 36
    modifies tmp
    ensures i <= 36 && zeros >= 0
    ensures var f := Effective(type0);
            Formatted(num, base, size0, precision0, type0) ==
            Written(size, f, SignOf(num, f), Prefix(base, f), zeros, Reversed(tmp[..i]))
  {
    var precision;
    size, i, precision := Prepare(tmp, num, base, size0, precision0, Effective(type0));
    zeros := precision - i;
    ghost var digits := Reversed(tmp[..i]);
    PreparedIsFormatted(num, base, size0, precision0, type0, digits, size, precision);
  }

  method FormatInBase(buf: array<char>, str: nat, num: int32, base: nat, size0: int, precision0: int, type0: Flags)
    returns (end: nat)
    requires 2 <= base <= 36 && str + |Formatted(num, base, size0, precision0, type0)| <= buf.Length
    modifies buf
    ensures end == str + |Formatted(num, base, size0, precision0, type0)| && Unchanged(buf[..], old(buf[..]), end)
    ensures buf[..end] == old(buf[..str]) + Formatted(num, base, size0, precision0, type0)
  {
    var f := Effective(type0);
    ghost var text := Formatted(num, base, size0, precision0, type0);
    var tmp := new char[36](_ => ' ');
    var size, i, zeros := PrepareText(tmp, num, base, size0, precision0, type0);
    end := Write(buf, str, tmp, i, size, f, SignOf(num, f), Prefix(base, f), zeros, text);
  }

  /** number writes its text behind what is in the buffer, and gives the place behind it; a base
      it does not know it refuses. */
  method FormatNumber(buf: array<char>, str: nat, num: int32, base: int, size0: int, precision0: int,
        type0: Flags) returns (r: Option<nat>)
    requires 2 <= base <= 36 ==> str + |Formatted(num, base, size0, precision0, type0)| <= buf.Length
    modifies buf
    ensures r.None? <==> base < 2 || base > 36
    ensures r.None? ==> buf[..] == old(buf[..])
    ensures r.Some? ==> r.value == str + |Formatted(num, base, size0, precision0, type0)|
                        && Unchanged(buf[..], old(buf[..]), r.value)
                        && buf[..r.value] == old(buf[..str]) + Formatted(num, base, size0, precision0, type0)
    ensures r.Some? ==> str <= r.value <= buf.Length && Lettered(buf[str..r.value], type0.small)
                        && exists l :: LaidOut(buf[str..r.value], num, base, size0, precision0, type0, l)
  {
    if base < 2 || base > 36 { return None; }
    var end := FormatInBase(buf, str, num, base, size0, precision0, type0);
    FormattedIff(Formatted(num, base, size0, precision0, type0), num, base, size0, precision0, type0);
    FormattedLettered(num, base, size0, precision0, type0);
    assert buf[str..end] == buf[..end][str..];
    return Some(end);
  }

  // ----- skip_atoi ------------------------------------------------------------------

  // an int after an overflow
  function Wrap(x: int): (r: int)
    ensures -HALF <= r < HALF
  {
    (x + HALF) % WORD - HALF
  }

  lemma WrapExact(n: nat)
    ensures Wrap(n) == n <==> n < HALF
  {}

  lemma WrapStep(x: int, d: int)
    ensures Wrap(Wrap(x) * 10 + d) == Wrap(x * 10 + d)
  {
    var k := (x + HALF) / WORD;
    assert Wrap(x) == x - k * WORD;
    assert (Wrap(x) * 10 + d + HALF) % WORD == (x * 10 + d + HALF) % WORD by {
      ModShift(x * 10 + d + HALF, -k * 10);
    }
  }

  lemma ModShift(x: int, k: int)
    ensures (x + k * WORD) % WORD == x % WORD
  {}

  predicate IsDigit(c: char) { '0' <= c <= '9' }

  // how many digits a text starts with
  function Leading(s: string): (n: nat)
    ensures n <= |s| && (forall i :: 0 <= i < n ==> IsDigit(s[i])) && (n < |s| ==> !IsDigit(s[n]))
    decreases |s|
  {
    if s == [] || !IsDigit(s[0]) then 0 else
      assert forall i :: 0 <= i < |s| - 1 ==> s[1..][i] == s[i + 1];
      1 + Leading(s[1..])
  }

  /** skip_atoi: the digits the text starts with are read, and where they end; the value is an
      int that may have overflowed. */
  method SkipAtoi(s: string) returns (i: int, rest: nat)
    ensures rest == Leading(s) && i == Wrap(Denotes(s[..rest], 10))
  {
    i, rest := 0, 0;
    while rest < |s| && IsDigit(s[rest])
      invariant rest <= Leading(s) && i == Wrap(Denotes(s[..rest], 10))
      decreases |s| - rest
    {
      assert s[..rest + 1] == s[..rest] + [s[rest]];
      DenotesStep(s[..rest], s[rest], 10);
      WrapStep(Denotes(s[..rest], 10), s[rest] as int - '0' as int);
      i := Wrap(i * 10 + (s[rest] as int - '0' as int));
      rest := rest + 1;
    }
  }

  lemma DecimalDigits(s: string)
    requires forall i :: 0 <= i < |s| ==> 0 <= DigitValue(s[i]) < 10
    ensures forall i :: 0 <= i < |s| ==> IsDigit(s[i])
  {}

  lemma LeadingDigits(d: string, tail: string)
    requires forall i :: 0 <= i < |d| ==> IsDigit(d[i])
    requires tail == [] || !IsDigit(tail[0])
    ensures Leading(d + tail) == |d| && (d + tail)[..|d|] == d
  {
    var s := d + tail;
    assert forall i :: 0 <= i < |d| ==> IsDigit(s[i]);
    assert |d| < |s| ==> s[|d|] == tail[0];
  }

  /** skip_atoi undoes plain base-10 output, whatever follows it, exactly for the values below
      2 to the 31st. */
  lemma AtoiUndoesDigits(n: nat, tail: string)
    requires tail == [] || !IsDigit(tail[0])
    ensures var s := Digits(n, 10, false) + tail;
            && Leading(s) == |Digits(n, 10, false)|
            && (Wrap(Denotes(s[..Leading(s)], 10)) == n <==> n < HALF)
  {
    var d := Digits(n, 10, false);
    DigitsAre(n, 10, false);
    DecimalDigits(d);
    LeadingDigits(d, tail);
    WrapExact(n);
  }

  /** Plain output of number in base 10 is such a text. */
  lemma PlainIsDigits(num: int32, f: Flags)
    requires !f.plus && !f.space && !f.special && (f.signed ==> num >= 0)
    ensures Formatted(num, 10, 0, -1, f) == Digits(Magnitude(num, f), 10, f.small)
    ensures Digits(Magnitude(num, f), 10, f.small) == Digits(Magnitude(num, f), 10, false)
  {
    SmallDecimal(Magnitude(num, f), f.small);
  }

  lemma {:induction false} SmallDecimal(n: nat, small: bool)
    ensures Raw(n, 10, small) == Raw(n, 10, false)
    decreases n
  {
    if n > 0 {
      DivSmaller(n, 10);
      SmallDecimal(n / 10, small);
    }
  }

  /** number and skip_atoi after each other: plain base-10 output is read back as the value
      shown, exactly when that is below 2 to the 31st. */
  method FormatThenRead(buf: array<char>, num: int32, f: Flags) returns (i: int)
    requires !f.plus && !f.space && !f.special && (f.signed ==> num >= 0) && buf.Length >= 32
    modifies buf
    ensures i == Magnitude(num, f) <==> Magnitude(num, f) < HALF
  {
    var m := Magnitude(num, f);
    PlainIsDigits(num, f);
    WordIsPow2();
    DigitCount(m, 10, false, 32);
    AtoiUndoesDigits(m, []);
    assert Digits(m, 10, false) + [] == Digits(m, 10, false);
    var end := FormatNumber(buf, 0, num, 10, 0, -1, f);
    assert buf[..end.value] == Digits(m, 10, false);
    var rest;
    i, rest := SkipAtoi(buf[..end.value]);
  }
}

/** Printing and parsing of numbers: itoa (kprintf.c) and strtoul (string.c). */
module Numbers {
  import opened Bits

  const NUL: char := '\0'

  function DigitChar(d: nat): char
    requires d < 36
  {
    if d < 10 then '0' + d as char else 'a' + (d - 10) as char
  }

  /** The digit a character stands for, or -1. */
  function DigitValue(c: char): int {
    if '0' <= c <= '9' then c as int - '0' as int
    else if 'a' <= c <= 'f' then c as int - 'a' as int + 10
    else if 'A' <= c <= 'F' then c as int - 'A' as int + 10
    else -1
  }

  /** The digits that itoa writes. */
  lemma DigitChars(d: nat)
    requires d < 16
    ensures DigitChar(d) == "0123456789abcdef"[d]
  {
  }

  /** Character `c` is this digit, in lower or upper case. */
  ghost predicate IsDigit(c: char, v: int) {
    0 <= v < 16 && (c == "0123456789abcdef"[v] || c == "0123456789ABCDEF"[v])
  }

  /** The digits that strtoul reads. */
  lemma DigitValues(c: char, v: int)
    ensures IsDigit(c, v) <==> DigitValue(c) == v >= 0
    ensures DigitValue(c) == -1 <==> forall v: int :: !IsDigit(c, v)
  {
    if DigitValue(c) >= 0 {
      assert IsDigit(c, DigitValue(c));
    }
  }

  lemma DigitRoundTrip(d: nat)
    requires d < 16
    ensures DigitValue(DigitChar(d)) == d && DigitChar(d) != NUL && DigitChar(d) != 'x' && DigitChar(d) != 'X'
    ensures DigitChar(d) == '0' <==> d == 0
  {
  }

  /** The numeral of `num`, most significant digit first. */
  function Numeral(num: nat, base: nat): (s: seq<char>)
    requires 2 <= base <= 36
    ensures |s| > 0
    decreases num
  {
    if num < base then [DigitChar(num)] else Numeral(num / base, base) + [DigitChar(num % base)]
  }

  /** The same digits in the order in which itoa finds them. */
  function Digits(num: nat, base: nat): (s: seq<char>)
    requires 2 <= base <= 36
    ensures |s| > 0
    decreases num
  {
    if num < base then [DigitChar(num)] else [DigitChar(num % base)] + Digits(num / base, base)
  }

  function Reversed(s: seq<char>): (r: seq<char>)
    ensures |r| == |s| && forall k: nat :: k < |s| ==> r[k] == s[|s| - 1 - k]
  {
    seq(|s|, k requires 0 <= k < |s| => s[|s| - 1 - k])
  }

  lemma ReversedCons(c: char, s: seq<char>)
    ensures Reversed([c] + s) == Reversed(s) + [c]
  {
  }

  lemma {:induction false} NumeralReversed(num: nat, base: nat)
    requires 2 <= base <= 36
    ensures Reversed(Digits(num, base)) == Numeral(num, base)
    decreases num
  {
    hide Reversed, DigitChar;
    if num >= base {
      NumeralReversed(num / base, base);
      ReversedCons(DigitChar(num % base), Digits(num / base, base));
    } else {
      ReversedCons(DigitChar(num), []);
      assert [DigitChar(num)] + [] == [DigitChar(num)] && Reversed([]) == [];
    }
  }

  function Power(base: nat, k: nat): (p: nat)
    ensures base > 0 ==> p > 0
  {
    if k == 0 then 1 else base * Power(base, k - 1)
  }

  /** A number below `base ^ k` takes at most `k` digits. */
  lemma {:induction false} NumeralLength(num: nat, base: nat, k: nat)
    requires 2 <= base <= 36 && k > 0 && num < Power(base, k)
    ensures |Numeral(num, base)| <= k
    decreases k
  {
    if num >= base {
      assert Power(base, 1) == base * Power(base, 0);
      assert num / base < Power(base, k - 1) by {
        assert base * (num / base) <= num < base * Power(base, k - 1);
        MulMono(Power(base, k - 1), num / base, base);
      }
      NumeralLength(num / base, base, k - 1);
    }
  }

  /** Where a number's digits stand: as many as its size takes, the one of weight `base ^ k` at the `k`th place from the
    end, written as 0 to 9 and then a to z. */
  ghost predicate Written(num: nat, base: nat, s: seq<char>) {
    && base > 0 && |s| > 0 && num < Power(base, |s|) && (|s| > 1 ==> Power(base, |s| - 1) <= num)
    && forall k: nat :: k < |s| ==>
                     var d := num / Power(base, |s| - 1 - k) % base;
                     s[k] as int == if d < 10 then 48 + d else 87 + d
  }

  lemma DigitCode(d: nat)
    requires d < 36
    ensures DigitChar(d) as int == if d < 10 then 48 + d else 87 + d
  {
  }

  /** The numeral is the number written. */
  lemma {:induction false} NumeralWritten(num: nat, base: nat)
    requires 2 <= base <= 36
    ensures Written(num, base, Numeral(num, base))
    decreases num
  {
    hide DigitChar;
    var s := Numeral(num, base);
    Quotients(num, base);
    if num < base {
      DigitCode(num);
      assert Power(base, 1) == base * Power(base, 0) == base;
      DivModUnique(num, base, 0, num);
    } else {
      var front := Numeral(num / base, base);
      NumeralWritten(num / base, base);
      DigitCode(num % base);
      WrittenMore(num, base, front);
    }
  }

  /** One digit more takes the number to the next power. */
  lemma SizeMore(num: nat, base: nat, n: nat)
    requires 2 <= base && n > 0 && num >= base
    requires num / base < Power(base, n) && (n > 1 ==> Power(base, n - 1) <= num / base)
    ensures num < Power(base, n + 1) && Power(base, n) <= num
  {
    PowerMore(base, n);
    PowerMore(base, n - 1);
    PowerZero(base);
    hide Power;
    Quotients(num, base);
    Between(num, base, num / base, Power(base, n), Power(base, n - 1));
  }

  lemma PowerMore(base: nat, k: nat)
    ensures Power(base, k + 1) == base * Power(base, k)
  {
  }

  lemma Between(num: nat, base: nat, q: nat, p: nat, p': nat)
    requires base > 0 && q * base <= num < q * base + base && p' <= q < p
    ensures base * p' <= num < base * p
  {
    MulMono(q + 1, p, base);
    MulMono(p', q, base);
    assert (q + 1) * base == q * base + base;
  }

  lemma PowerZero(base: nat)
    ensures Power(base, 0) == 1
  {
  }

  /** The digit at place `k` of the quotient is the one at place `k + 1` of the number. */
  lemma PlaceMore(num: nat, base: nat, k: nat)
    requires base >= 2
    ensures num / base / Power(base, k) == num / Power(base, k + 1)
  {
    PowerMore(base, k);
    hide Power;
    DivDiv(num, base, Power(base, k));
  }

  lemma WrittenMore(num: nat, base: nat, front: seq<char>)
    requires 2 <= base <= 36 && num >= base && Written(num / base, base, front)
    ensures Written(num, base, front + [DigitChar(num % base)])
  {
    hide DigitChar, Power;
    var s, n := front + [DigitChar(num % base)], |front|;
    DigitCode(num % base);
    SizeMore(num, base, n);
    forall k: nat | k < |s|
      ensures var d := num / Power(base, |s| - 1 - k) % base; s[k] as int == if d < 10 then 48 + d else 87 + d
    {
      if k < n {
        assert s[k] == front[k];
        PlaceMore(num, base, n - 1 - k);
      } else {
        PowerZero(base);
        assert num / 1 == num;
      }
    }
  }

  lemma Powers()
    ensures Power(10, 20) == 100_000_000_000_000_000_000 && Power(16, 16) == WORD_VALUES
  {
    assert Power(10, 10) == 10_000_000_000;
    assert Power(16, 8) == 0x1_0000_0000;
  }

  /** 64-bit numbers in base 10 or 16 fit a buffer of 21 bytes, terminator included. */
  lemma FitsBuffer(num: nat, base: nat)
    requires num < WORD_VALUES && (base == 10 || base == 16)
    ensures |Numeral(num, base)| + 1 <= 21
  {
    Powers();
    NumeralLength(num, base, if base == 10 then 20 else 16);
  }

  // ---- what a numeral means

  ghost predicate AllDigits(s: seq<char>, base: int) {
    forall i: nat :: i < |s| ==> 0 <= DigitValue(s[i]) < base
  }

  function ValueOf(s: seq<char>, base: int): int {
    if s == [] then 0 else ValueOf(s[..|s| - 1], base) * base + DigitValue(s[|s| - 1])
  }

  /** Canonical: lower case, and no zero in front of another digit. */
  ghost predicate Canonical(s: seq<char>) {
    && |s| > 0 && (|s| > 1 ==> s[0] != '0')
    && forall i: nat :: i < |s| ==> !('A' <= s[i] <= 'F')
  }

  lemma ValueAppend(front: seq<char>, c: char, base: int)
    ensures ValueOf(front + [c], base) == ValueOf(front, base) * base + DigitValue(c)
  {
    assert (front + [c])[..|front|] == front;
  }

  lemma OneDigit(num: nat, base: nat)
    requires num < base <= 16
    ensures AllDigits([DigitChar(num)], base) && Canonical([DigitChar(num)]) && ValueOf([DigitChar(num)], base) == num
  {
    DigitRoundTrip(num);
    assert [] + [DigitChar(num)] == [DigitChar(num)];
    ValueAppend([], DigitChar(num), base);
  }

  lemma MoreDigits(front: seq<char>, d: nat, base: nat)
    requires d < base <= 16 && AllDigits(front, base) && Canonical(front) && front[0] != '0'
    ensures AllDigits(front + [DigitChar(d)], base) && Canonical(front + [DigitChar(d)])
            && (front + [DigitChar(d)])[0] != '0'
    ensures ValueOf(front + [DigitChar(d)], base) == ValueOf(front, base) * base + d
  {
    DigitRoundTrip(d);
    ValueAppend(front, DigitChar(d), base);
  }

  lemma Quotients(num: nat, base: nat)
    requires base >= 2
    ensures num / base * base + num % base == num && 0 <= num % base < base
    ensures num >= base ==> 0 < num / base < num
  {
    MulMono(num / base, 0, base);
    MulMono(2, base, num / base);
  }

  /** A numeral is canonical, its digits are digits of the base, and its value is the number. */
  lemma {:induction false} NumeralMeans(num: nat, base: nat)
    requires 2 <= base <= 16
    ensures AllDigits(Numeral(num, base), base) && ValueOf(Numeral(num, base), base) == num
            && Canonical(Numeral(num, base))
    ensures num > 0 ==> Numeral(num, base)[0] != '0'
    decreases num
  {
    hide AllDigits, Canonical, ValueOf, DigitChar;
    Quotients(num, base);
    if num < base {
      OneDigit(num, base);
      DigitRoundTrip(num);
    } else {
      NumeralMeans(num / base, base);
      MoreDigits(Numeral(num / base, base), num % base, base);
    }
  }

  lemma CharOfDigit(c: char)
    requires DigitValue(c) >= 0 && !('A' <= c <= 'F')
    ensures DigitValue(c) < 16 && c == DigitChar(DigitValue(c))
  {
  }

  lemma {:induction false} ValuePower(s: seq<char>, base: int)
    requires base >= 2 && AllDigits(s, base)
    ensures ValueOf(s, base) >= 0
    ensures |s| > 0 && s[0] != '0' ==> ValueOf(s, base) > 0
  {
    if |s| > 0 {
      var front, d := s[..|s| - 1], DigitValue(s[|s| - 1]);
      ValuePower(front, base);
      assert d == 0 ==> s[|s| - 1] == '0';
      hide DigitValue;
      MulMono(1, base, ValueOf(front, base));
    }
  }

  lemma FrontCanonical(s: seq<char>, base: int)
    requires AllDigits(s, base) && Canonical(s) && |s| > 1
    ensures AllDigits(s[..|s| - 1], base) && Canonical(s[..|s| - 1]) && s[..|s| - 1][0] != '0'
  {
  }

  lemma NumeralAppend(v: nat, d: nat, base: nat)
    requires 2 <= base <= 16 && v > 0 && d < base
    ensures v * base + d >= 0 && Numeral(v * base + d, base) == Numeral(v, base) + [DigitChar(d)]
  {
    DivModUnique(v * base + d, base, v, d);
    MulMono(1, v, base);
  }

  lemma LoneDigit(s: seq<char>, base: nat)
    requires 2 <= base <= 16 && AllDigits(s, base) && Canonical(s) && |s| == 1
    ensures ValueOf(s, base) >= 0 && Numeral(ValueOf(s, base), base) == s
  {
    hide DigitValue, DigitChar, ValueOf;
    CharOfDigit(s[0]);
    assert [] + [s[0]] == s;
    NoValue(base);
    ValueAppend([], s[0], base);
  }

  lemma NoValue(base: int)
    ensures ValueOf([], base) == 0
  {
  }

  /** A canonical string is the numeral of its value, so numerals are unique. */
  lemma {:induction false} NumeralUnique(s: seq<char>, base: nat)
    requires 2 <= base <= 16 && AllDigits(s, base) && Canonical(s)
    ensures ValueOf(s, base) >= 0 && Numeral(ValueOf(s, base), base) == s
  {
    hide DigitValue, DigitChar, ValueOf, Numeral;
    if |s| == 1 {
      LoneDigit(s, base);
    } else {
      var n := |s| - 1;
      var front := s[..n];
      assert s == front + [s[n]];
      CharOfDigit(s[n]);
      ValueAppend(front, s[n], base);
      FrontCanonical(s, base);
      ValuePower(front, base);
      NumeralUnique(front, base);
      NumeralAppend(ValueOf(front, base), DigitValue(s[n]), base);
    }
  }

  // ---- itoa

  lemma DigitsNext(n: nat, base: nat)
    requires 2 <= base <= 36
    ensures Digits(n, base) == [DigitChar(n % base)] + if n / base > 0 then Digits(n / base, base) else []
  {
    if n < base {
      DivModUnique(n, base, 0, n);
    } else {
      DivModUnique(n, base, n / base, n % base);
      MulMono(n / base, 0, base);
    }
  }

  /** `done` are the first digits, those of `rest` are still to come if there are `more`. */
  ghost predicate Underway(num: nat, base: nat, done: seq<char>, rest: nat, more: bool) {
    2 <= base <= 36 && Digits(num, base) == done + if more then Digits(rest, base) else []
  }

  lemma DigitStep(num: nat, base: nat, done: seq<char>, rest: nat)
    requires Underway(num, base, done, rest, true)
    ensures 0 <= rest % base < 36 && rest / base >= 0
    ensures Underway(num, base, done + [DigitChar(rest % base)], rest / base, rest / base > 0)
    ensures |done| < |Digits(num, base)| && (rest / base > 0 ==> rest / base < rest)
  {
    hide DigitChar, Digits;
    DigitsNext(rest, base);
    DivModUnique(rest, base, rest / base, rest % base);
    MulMono(2, base, rest / base);
  }

  /** The first loop of itoa: digits, least significant first. Returns how many. */
  method WriteDigits(num: nat, base: nat, buf: array<char>) returns (n: nat)
    requires 2 <= base <= 36 && |Digits(num, base)| < buf.Length
    modifies buf
    ensures n == |Digits(num, base)| && buf[..n] == Digits(num, base)
    ensures forall k: nat :: n <= k < buf.Length ==> buf[k] == old(buf[k])
  {
    hide Digits, DigitChar, Underway;
    var rest: nat := num;
    var more := true;
    n := 0;
    assert Underway(num, base, buf[..n], rest, more) by { Start(num, base, buf[..n]); }
    while more
      invariant n < buf.Length && Underway(num, base, buf[..n], rest, more)
      invariant forall k: nat :: n <= k < buf.Length ==> buf[k] == old(buf[k])
      decreases rest, more
    {
      ghost var before := buf[..n];
      DigitStep(num, base, before, rest);
      buf[n] := DigitChar(rest % base);
      n := n + 1;
      assert buf[..n] == before + [DigitChar(rest % base)];
      rest, more := rest / base, rest / base > 0;
    }
    Finish(num, base, buf[..n], rest);
  }

  lemma Start(num: nat, base: nat, done: seq<char>)
    requires 2 <= base <= 36 && done == []
    ensures Underway(num, base, done, num, true)
  {
  }

  lemma Finish(num: nat, base: nat, done: seq<char>, rest: nat)
    requires Underway(num, base, done, rest, false)
    ensures done == Digits(num, base)
  {
  }

  /** The second loop of itoa: the first `n` characters change ends. */
  method ReverseInPlace(buf: array<char>, n: nat)
    requires 0 < n <= buf.Length
    modifies buf
    ensures buf[..n] == Reversed(old(buf[..n]))
    ensures forall k: nat :: n <= k < buf.Length ==> buf[k] == old(buf[k])
  {
    var i, j := 0, n - 1;
    while i < j
      invariant 0 <= i <= n && -1 <= j < n && i + j == n - 1
      invariant forall k: nat :: k < i || j < k < n ==> buf[k] == old(buf[n - 1 - k])
      invariant forall k: nat :: i <= k <= j ==> buf[k] == old(buf[k])
      invariant forall k: nat :: n <= k < buf.Length ==> buf[k] == old(buf[k])
    {
      var tmp := buf[i];
      buf[i] := buf[j];
      buf[j] := tmp;
      i, j := i + 1, j - 1;
    }
    assert forall k: nat :: k < n ==> buf[k] == old(buf[n - 1 - k]);
  }

  /** itoa: the numeral and its terminator, and no other byte of the buffer. */
  method Itoa(num: nat, base: nat, buf: array<char>)
    requires 2 <= base <= 36 && |Numeral(num, base)| < buf.Length
    modifies buf
    ensures buf[..|Numeral(num, base)|] == Numeral(num, base) && buf[|Numeral(num, base)|] == NUL
    ensures Written(num, base, buf[..|Numeral(num, base)|])
    ensures forall k: nat :: |Numeral(num, base)| < k < buf.Length ==> buf[k] == old(buf[k])
  {
    NumeralWritten(num, base);
    hide Written;
    NumeralReversed(num, base);
    var n := WriteDigits(num, base, buf);
    buf[n] := NUL;
    assert buf[..n] == Digits(num, base);
    ReverseInPlace(buf, n);
  }

  // ---- strtoul

  /** The digits that strtoul reads from index `i` on end at `e`, at the first character that is no digit. */
  ghost predicate Scan(s: seq<char>, base: int, i: nat, e: nat) {
    && i <= e < |s| && AllDigits(s[i..e], base)
    && !(0 <= DigitValue(s[e]) < base)
  }

  /** `0x` or `0X` in front, where it counts. */
  predicate Prefixed(s: seq<char>, base: int) {
    |s| > 1 && (base == 0 || base == 16) && s[0] == '0' && (s[1] == 'x' || s[1] == 'X')
  }

  function ActualBase(s: seq<char>, base: int): int {
    if Prefixed(s, base) then 16 else if base == 0 then 10 else base
  }

  function FirstDigit(s: seq<char>, base: int): nat {
    if Prefixed(s, base) then 2 else 0
  }

  lemma ModStep(v: int, base: int, d: int)
    ensures (v % WORD_VALUES * base + d) % WORD_VALUES == (v * base + d) % WORD_VALUES
  {
    var q, r := v / WORD_VALUES, v % WORD_VALUES;
    assert v * base + d == q * base * WORD_VALUES + (r * base + d);
    SameMod(q * base, r * base + d);
  }

  lemma SameMod(q: int, x: int)
    ensures (q * WORD_VALUES + x) % WORD_VALUES == x % WORD_VALUES
  {
  }

  /** `res` is what the digits from `start` to `i` amount to. */
  ghost predicate ReadSoFar(s: seq<char>, base: int, start: nat, i: nat, res: nat) {
    start <= i <= |s| && AllDigits(s[start..i], base) && res == ValueOf(s[start..i], base) % WORD_VALUES
  }

  lemma ReadNothing(s: seq<char>, base: int, start: nat)
    requires start <= |s|
    ensures ReadSoFar(s, base, start, start, 0)
  {
    assert s[start..start] == [];
  }

  lemma ReadDigit(s: seq<char>, base: int, start: nat, i: nat, res: nat)
    requires ReadSoFar(s, base, start, i, res) && i < |s| && 0 <= DigitValue(s[i]) < base
    ensures ReadSoFar(s, base, start, i + 1, (res * base + DigitValue(s[i])) % WORD_VALUES)
  {
    hide ValueOf;
    ModStep(ValueOf(s[start..i], base), base, DigitValue(s[i]));
    ValueAppend(s[start..i], s[i], base);
    assert s[start..i + 1] == s[start..i] + [s[i]];
  }

  /** The value of these digits, most significant first. */
  function Total(digits: seq<nat>, base: int): int {
    if digits == [] then 0 else Total(digits[..|digits| - 1], base) * base + digits[|digits| - 1]
  }

  /** The characters are digits of the base, these. */
  ghost predicate Spells(s: seq<char>, base: int, digits: seq<nat>) {
    |s| == |digits| && forall k: nat :: k < |s| ==> IsDigit(s[k], digits[k]) && digits[k] < base
  }

  lemma {:induction false} SpelledValue(s: seq<char>, base: int) returns (digits: seq<nat>)
    requires AllDigits(s, base)
    ensures Spells(s, base, digits) && ValueOf(s, base) == Total(digits, base)
  {
    hide DigitValue, IsDigit;
    if s == [] {
      digits := [];
    } else {
      var n := |s| - 1;
      var front := SpelledValue(s[..n], base);
      DigitValues(s[n], DigitValue(s[n]));
      var d: nat := DigitValue(s[n]);
      digits := front + [d];
      assert digits[..n] == front;
      assert forall k: nat :: k < n ==> s[..n][k] == s[k];
    }
  }

  /** What strtoul reads from `start` to `end` in this base: all the digits there, and no digit follows. */
  ghost predicate Reads(s: seq<char>, base: int, start: nat, end: nat, res: nat) {
    && start <= end < |s|
    && (exists digits :: Spells(s[start..end], base, digits) && res == Total(digits, base) % 0x1_0000_0000_0000_0000)
    && forall v: int :: IsDigit(s[end], v) ==> v >= base
  }

  lemma ScanReads(s: seq<char>, base: int, start: nat, end: nat, res: nat)
    requires Scan(s, base, start, end) && res == ValueOf(s[start..end], base) % WORD_VALUES
    ensures Reads(s, base, start, end, res)
  {
    hide DigitValue, IsDigit, Spells, ValueOf;
    var digits := SpelledValue(s[start..end], base);
    forall v: int | IsDigit(s[end], v)
      ensures v >= base
    {
      DigitValues(s[end], v);
    }
  }

  /** strtoul on a terminated string: the digits of the base from the start on, past any prefix, as a
    64-bit number that wraps. `end` is where it stopped. */
  method Strtoul(s: seq<char>, base: int) returns (res: nat, end: nat)
    requires NUL in s
    ensures Scan(s, ActualBase(s, base), FirstDigit(s, base), end)
    ensures res == ValueOf(s[FirstDigit(s, base)..end], ActualBase(s, base)) % WORD_VALUES
    ensures if |s| > 1 && (base == 0 || base == 16) && s[0] == '0' && (s[1] == 'x' || s[1] == 'X')
            then Reads(s, 16, 2, end, res)
            else Reads(s, if base == 0 then 10 else base, 0, end, res)
  {
    hide ReadSoFar, DigitValue, Reads;
    ghost var t: nat :| t < |s| && s[t] == NUL;
    var b, i := base, 0;
    if (base == 0 || base == 16) && s[0] == '0' && (s[1] == 'x' || s[1] == 'X') {
      b, i := 16, 2;
    } else if base == 0 {
      b := 10;
    }
    ghost var start := i;
    res := 0;
    ReadNothing(s, b, start);
    while s[i] != NUL
      invariant start <= i <= t && ReadSoFar(s, b, start, i, res)
      decreases t - i
    {
      var value := DigitValue(s[i]);
      DigitRange(s[i]);
      if value == -1 {
        break;
      }
      if value >= b {
        break;
      }
      ReadDigit(s, b, start, i, res);
      res := (res * b + value) % WORD_VALUES;
      i := i + 1;
    }
    end := i;
    DigitRange(s[i]);
    ReadAll(s, b, start, end, res);
    ScanReads(s, b, start, end, res);
  }

  lemma DigitRange(c: char)
    ensures -1 <= DigitValue(c) < 16 && DigitValue(NUL) == -1
  {
  }

  lemma ReadAll(s: seq<char>, base: int, start: nat, e: nat, res: nat)
    requires ReadSoFar(s, base, start, e, res) && e < |s| && !(0 <= DigitValue(s[e]) < base)
    ensures Scan(s, base, start, e) && res == ValueOf(s[start..e], base) % WORD_VALUES
  {
  }

  /** Reading stops in one place only. */
  lemma ScanUnique(s: seq<char>, base: int, i: nat, e: nat, e': nat)
    requires Scan(s, base, i, e) && Scan(s, base, i, e')
    ensures e == e'
  {
    forall k: nat | i <= k < e
      ensures 0 <= DigitValue(s[k]) < base
    {
      assert s[i..e][k - i] == s[k];
    }
    forall k: nat | i <= k < e'
      ensures 0 <= DigitValue(s[k]) < base
    {
      assert s[i..e'][k - i] == s[k];
    }
  }

  /** A numeral followed by its terminator is read back whole, in its own base; without a prefix. */
  lemma NumeralScans(s: seq<char>, num: nat, base: nat)
    requires 2 <= base <= 16 && |Numeral(num, base)| < |s|
    requires s[..|Numeral(num, base)|] == Numeral(num, base) && s[|Numeral(num, base)|] == NUL
    ensures !Prefixed(s, base) && Scan(s, base, 0, |Numeral(num, base)|)
  {
    NumeralMeans(num, base);
    var n := |Numeral(num, base)|;
    assert s[0..n] == Numeral(num, base);
    assert n > 1 ==> s[1] == s[..n][1];
    if n > 1 {
      assert 0 <= DigitValue(Numeral(num, base)[1]);
    }
  }

  /** With `0x` in front, the hexadecimal numeral is read back whether base 16 is given or left open. */
  lemma PrefixedScans(s: seq<char>, num: nat, base: int)
    requires (base == 0 || base == 16) && |Numeral(num, 16)| + 2 < |s|
    requires s[..2] == ['0', 'x'] && s[2..|Numeral(num, 16)| + 2] == Numeral(num, 16)
             && s[|Numeral(num, 16)| + 2] == NUL
    ensures FirstDigit(s, base) == 2 && Scan(s, ActualBase(s, base), 2, |Numeral(num, 16)| + 2)
    ensures ValueOf(s[2..|Numeral(num, 16)| + 2], 16) == num
  {
    NumeralMeans(num, 16);
    assert s[0] == s[..2][0] && s[1] == s[..2][1];
  }

  /** Printing a number and parsing the buffer gives the number back, with the end at the terminator. */
  method PrintAndParse(num: nat, base: nat, size: nat) returns (res: nat, end: nat, text: seq<char>)
    requires num < WORD_VALUES && 2 <= base <= 16 && |Numeral(num, base)| < size
    ensures res == num && end < |text| && text[end] == NUL
    ensures text[..end] == Numeral(num, base)
  {
    hide Reads, Written;
    var buf := new char[size];
    Itoa(num, base, buf);
    text := buf[..];
    assert text[|Numeral(num, base)|] == NUL;
    assert text[..|Numeral(num, base)|] == buf[..|Numeral(num, base)|];
    NumeralScans(text, num, base);
    NumeralMeans(num, base);
    res, end := Strtoul(text, base);
    ScanUnique(text, base, 0, end, |Numeral(num, base)|);
    assert text[0..end] == Numeral(num, base);
  }
}

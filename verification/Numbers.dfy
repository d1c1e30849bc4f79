/** Printing and parsing of numbers, with 32-bit longs. */
module Numbers {
  import opened Mmu

  const LONG_MIN := -0x8000_0000
  const LONG_MAX := 0x7FFF_FFFF
  const NUL := '\0'

  /** The value a 32-bit long keeps. */
  function Wrap(x: int): int { (x - LONG_MIN) % WORD_LIMIT + LONG_MIN }

  function TruncMod(n: int, d: int): int
    requires d > 0
  {
    n - TruncDiv(n, d) * d
  }

  // ----- parsing -----

  /** A string ends at its terminator, which is not part of `s`. */
  function At(s: string, i: nat): char { if i < |s| then s[i] else NUL }

  function DigitValue(c: char): int {
    if '0' <= c <= '9' then c as int - '0' as int
    else if 'a' <= c <= 'z' then c as int - 'a' as int + 10
    else if 'A' <= c <= 'Z' then c as int - 'A' as int + 10
    else -1
  }

  function SkipBlanks(s: string, i: nat): nat
    decreases |s| - i
  {
    if At(s, i) == ' ' || At(s, i) == '\t' then SkipBlanks(s, i + 1) else i
  }

  function SkipSign(s: string, i: nat): nat { if At(s, i) == '+' || At(s, i) == '-' then i + 1 else i }

  function SkipPrefix(s: string, i: nat, base: int): nat {
    if (base == 0 || base == 16) && At(s, i) == '0' && At(s, i + 1) == 'x' then i + 2
    else if base == 0 && At(s, i) == '0' then i + 1
    else i
  }

  function RealBase(s: string, i: nat, base: int): int {
    if (base == 0 || base == 16) && At(s, i) == '0' && At(s, i + 1) == 'x' then 16
    else if base == 0 && At(s, i) == '0' then 8
    else if base == 0 then 10 else base
  }

  /** The value after the digits from `i` on, and the place behind them. */
  function DigitsFrom(s: string, i: nat, base: int, value: int): (int, nat)
    decreases |s| - i
  {
    var d := DigitValue(At(s, i));
    if d < 0 || d >= base then (value, i) else DigitsFrom(s, i + 1, base, Wrap(value * base + d))
  }

  function Parse(s: string, base: int): (int, nat) {
    var blanks := SkipBlanks(s, 0);
    var sign := SkipSign(s, blanks);
    var (value, end) := DigitsFrom(s, SkipPrefix(s, sign, base), RealBase(s, sign, base), 0);
    (if At(s, blanks) == '-' then Wrap(-value) else value, end)
  }

  lemma DigitsStep(s: string, i: nat, base: int, value: int)
    ensures var d := DigitValue(At(s, i));
            DigitsFrom(s, i, base, value) == if d < 0 || d >= base then (value, i)
              else DigitsFrom(s, i + 1, base, Wrap(value * base + d))
    ensures i >= |s| ==> DigitValue(At(s, i)) < 0
  {
  }

  method Strtol(s: string, base: int) returns (value: int, end: nat)
    ensures (value, end) == Parse(s, base)
  {
    hide DigitsFrom, Wrap;
    var i, neg, radix := 0, false, base;
    value := 0;
    while At(s, i) == ' ' || At(s, i) == '\t'
      invariant i <= |s| && SkipBlanks(s, i) == SkipBlanks(s, 0)
      decreases |s| - i
    {
      i := i + 1;
    }
    if At(s, i) == '+' {
      i := i + 1;
    } else if At(s, i) == '-' {
      i, neg := i + 1, true;
    }
    if (base == 0 || base == 16) && At(s, i) == '0' && At(s, i + 1) == 'x' {
      i, radix := i + 2, 16;
    } else if base == 0 && At(s, i) == '0' {
      i, radix := i + 1, 8;
    } else if base == 0 {
      radix := 10;
    }
    ghost var from := i;
    while true
      invariant DigitsFrom(s, i, radix, value) == DigitsFrom(s, from, radix, 0)
      decreases |s| - i
    {
      DigitsStep(s, i, radix, value);
      var digit;
      if '0' <= At(s, i) <= '9' {
        digit := At(s, i) as int - '0' as int;
      } else if 'a' <= At(s, i) <= 'z' {
        digit := At(s, i) as int - 'a' as int + 10;
      } else if 'A' <= At(s, i) <= 'Z' {
        digit := At(s, i) as int - 'A' as int + 10;
      } else {
        break;
      }
      if digit >= radix {
        break;
      }
      i, value := i + 1, Wrap(value * radix + digit);
    }
    end := i;
    value := if neg then Wrap(-value) else value;
  }

  // ----- printing -----

  const DIGITS := "0123456789abcdef"

  /** The digits of a number, most significant first. */
  function Digits(n: nat, base: int): string
    requires 2 <= base <= 16
  {
    (if n >= base then Digits(n / base, base) else "") + [DIGITS[n % base]]
  }

  lemma DigitsUnfold(num: nat, base: int)
    requires 2 <= base <= 16
    ensures 0 <= num % base < 16 && (num >= base ==> 0 <= num / base < num)
    ensures Digits(num, base) == (if num >= base then Digits(num / base, base) else "") + [DIGITS[num % base]]
  {
    assert Digits(num, base) == (if num >= base then Digits(num / base, base) else "") + [DIGITS[num % base]];
    hide Digits;
    QuotientParts(num, base);
  }

  function Fill(n: int, c: char): string
    decreases n
  {
    if n <= 0 then "" else Fill(n - 1, c) + [c]
  }

  /** The digits, with padding in front up to the width. */
  method PrintNum(num: nat, base: int, width: int, pad: char) returns (out: string)
    requires 2 <= base <= 16
    ensures out == Fill(width - |Digits(num, base)|, pad) + Digits(num, base)
    decreases num
  {
    DigitsUnfold(num, base);
    hide Digits;
    if num >= base {
      out := PrintNum(num / base, base, width - 1, pad);
    } else {
      out := "";
      var left := width - 1;
      while left > 0
        invariant out == Fill(width - 1 - (if left > 0 then left else if width > 0 then 0 else width - 1), pad)
        decreases left
      {
        out := out + [pad];
        left := left - 1;
      }
    }
    out := out + [DIGITS[num % base]];
  }

  /** The character for a digit; for the negative remainders of the least long it lies below '0'. */
  function DigitChar(d: int): char
    requires -10 < d < 10
  {
    (d + '0' as int) as char
  }

  function Backward(v: int): string
    decreases if v < 0 then -v else v
  {
    [DigitChar(TruncMod(v, 10))] + if TruncDiv(v, 10) == 0 then "" else Backward(TruncDiv(v, 10))
  }

  function Reversed(s: string): (r: string)
    ensures |r| == |s| && forall k | 0 <= k < |s| :: r[k] == s[|s| - 1 - k]
  {
    if s == "" then "" else Reversed(s[1..]) + [s[0]]
  }

  function ReversedIn(s: string, from: int, to: int): (r: string)
    requires 0 <= from <= to <= |s|
    ensures |r| == |s|
  {
    s[..from] + Reversed(s[from..to]) + s[to..]
  }

  /** What ltostr writes: the least long stays negative when its sign is turned. */
  function Text(v: int): string {
    if v < 0 then "-" + Reversed(Backward(Wrap(-v))) else Reversed(Backward(v))
  }

  /** The loop of ltostr: the digits of `value` from `from` on, least significant first. */
  method WriteDigits(value: int, str: array<char>, from: nat) returns (s: nat)
    requires from + |Backward(value)| <= str.Length
    modifies str
    ensures s == from + |Backward(value)| && str[..] == Written(old(str[..]), from, Backward(value))
  {
    hide Backward, Written;
    ghost var was, done := str[..], "";
    s := from;
    var v := value;
    assert str[..] == Written(was, from, done) by { NothingWritten(was, from); }
    while true
      invariant done + Backward(v) == Backward(value) && s == from + |done|
      invariant |done| + |Backward(v)| == |Backward(value)| && str[..] == Written(was, from, done)
      decreases str.Length - s
    {
      BackwardStep(v);
      var mod := TruncMod(v, 10);
      assert TruncDiv(v, 10) == 0 ==> done + [DigitChar(mod)] == Backward(value);
      assert done + Backward(v) == (done + [DigitChar(mod)]) + Backward(v)[1..];
      WrittenStep(was, from, done, DigitChar(mod));
      str[s] := DigitChar(mod);
      done := done + [DigitChar(mod)];
      s := s + 1;
      v := TruncDiv(v, 10);
      if v == 0 { break; }
    }
  }

  /** `s` with `w` written over it from `at` on. */
  function Written(s: string, at: nat, w: string): string
    requires at + |w| <= |s|
  {
    s[..at] + w + s[at + |w|..]
  }

  lemma NothingWritten(s: string, at: nat)
    requires at <= |s|
    ensures Written(s, at, "") == s
  {
  }

  lemma WrittenStep(s: string, at: nat, w: string, c: char)
    requires at + |w| < |s|
    ensures |Written(s, at, w)| == |s| && Written(s, at, w)[at + |w| := c] == Written(s, at, w + [c])
  {
  }

  /** The string and its terminator at the front of the buffer; what lies behind is not touched. */
  method Ltostr(value: int, str: array<char>)
    requires LONG_MIN <= value <= LONG_MAX && |Text(value)| < str.Length
    modifies str
    ensures str[..] == Written(old(str[..]), 0, Text(value) + [NUL])
  {
    hide Backward, Reversed, Wrap, Written, ReversedIn;
    ghost var was := str[..];
    var start, v := 0, value;
    if v < 0 {
      str[0] := '-';
      v := Wrap(v * -1);
      start := 1;
    }
    ghost var sign := if value < 0 then "-" else "";
    assert str[..] == Written(was, 0, sign) by { SignWritten(was, sign); }
    var s := WriteDigits(v, str, start);
    assert str[..] == Written(was, 0, sign + Backward(v)) by { WrittenTwice(was, sign, Backward(v)); }
    ghost var written := str[..];
    ReverseBetween(str, start, s);
    WrittenReversed(was, sign, Backward(v));
    str[s] := NUL;
    assert str[..] == ReversedIn(written, start, s)[s := NUL];
    assert sign + Reversed(Backward(v)) == Text(value);
  }

  lemma SignWritten(s: string, sign: string)
    requires |sign| <= 1 && |sign| <= |s|
    ensures Written(s, 0, sign) == if sign == "" then s else s[0 := sign[0]]
  {
  }

  lemma WrittenTwice(s: string, a: string, b: string)
    requires |a| + |b| <= |s|
    ensures Written(Written(s, 0, a), |a|, b) == Written(s, 0, a + b)
  {
  }

  lemma WrittenReversed(s: string, a: string, b: string)
    requires |a| + |b| < |s|
    ensures var t := Written(s, 0, a + b);
            && |t| == |s|
            && ReversedIn(t, |a|, |a| + |b|)[|a| + |b| := NUL] == Written(s, 0, a + Reversed(b) + [NUL])
  {
    var n := |a| + |b|;
    var t, tail := Written(s, 0, a + b), s[n..];
    WrittenParts(s, a, b);
    assert ReversedIn(t, |a|, n) == a + Reversed(b) + tail;
    hide Reversed, ReversedIn, Written;
    HeadSet(a + Reversed(b), tail, NUL);
    WrittenFront(s, a + Reversed(b) + [NUL]);
    DropOne(s, n);
  }

  lemma WrittenParts(s: string, a: string, b: string)
    requires |a| + |b| <= |s|
    ensures var t := Written(s, 0, a + b);
            |t| == |s| && t[..|a|] == a && t[|a|..|a| + |b|] == b && t[|a| + |b|..] == s[|a| + |b|..]
  {
  }

  lemma DropOne(s: string, n: nat)
    requires n < |s|
    ensures s[n..][1..] == s[n + 1..]
  {
  }

  lemma HeadSet(p: string, tail: string, c: char)
    requires tail != ""
    ensures (p + tail)[|p| := c] == p + [c] + tail[1..]
  {
  }

  lemma WrittenFront(s: string, w: string)
    requires |w| <= |s|
    ensures Written(s, 0, w) == w + s[|w|..]
  {
  }

  lemma BackwardStep(v: int)
    ensures -10 < TruncMod(v, 10) < 10
    ensures Backward(v) == [DigitChar(TruncMod(v, 10))] + if TruncDiv(v, 10) == 0 then "" else Backward(TruncDiv(v, 10))
    ensures |Backward(v)| >= 1
  {
  }

  /** The swapping loop: reverses [from, to) in place. */
  method ReverseBetween(str: array<char>, from: int, to: int)
    requires 0 <= from <= to <= str.Length
    modifies str
    ensures str[..] == ReversedIn(old(str[..]), from, to)
  {
    hide ReversedIn;
    ghost var was := str[..];
    var start, end := from, to - 1;
    while start < end
      invariant from <= start <= to && start + end == from + to - 1 && end >= start - 1
      invariant forall k | from <= k < start :: str[k] == was[from + to - 1 - k]
      invariant forall k | end < k < to :: str[k] == was[from + to - 1 - k]
      invariant forall k | 0 <= k < str.Length && (k < from || start <= k <= end || to <= k) :: str[k] == was[k]
    {
      var tmp := str[start];
      str[start] := str[end];
      str[end] := tmp;
      start := start + 1;
      end := end - 1;
    }
    ReversedInIs(was, str[..], from, to);
  }

  lemma ReversedInIs(was: string, now: string, from: int, to: int)
    requires 0 <= from <= to <= |was| == |now|
    requires forall k | from <= k < to :: now[k] == was[from + to - 1 - k]
    requires forall k | 0 <= k < |was| && (k < from || to <= k) :: now[k] == was[k]
    ensures now == ReversedIn(was, from, to)
  {
    var r := ReversedIn(was, from, to);
    forall k | 0 <= k < |was| ensures now[k] == r[k] {
      if from <= k < to {
        assert r[k] == was[from..to][to - 1 - k];
      }
    }
  }

  // ----- printing and parsing undo each other -----

  lemma DigitBack(d: int)
    requires 0 <= d < 16
    ensures DigitValue(DIGITS[d]) == d && (d < 10 ==> DIGITS[d] == DigitChar(d))
    ensures DIGITS[d] != ' ' && DIGITS[d] != '\t' && DIGITS[d] != '+' && DIGITS[d] != '-' && DIGITS[d] != 'x'
  {
  }

  lemma {:induction false} ReversedDigits(n: nat)
    ensures Reversed(Backward(n)) == Digits(n, 10)
  {
    DigitBack(n % 10);
    if n >= 10 {
      ReversedDigits(n / 10);
      assert Backward(n)[1..] == Backward(n / 10);
    } else {
      assert Backward(n) == [DigitChar(n)];
      assert Reversed(Backward(n)[1..]) == "";
    }
  }

  /** The digits of a number read back as the number, if a long can hold it. */
  lemma {:induction false} DigitsRead(s: string, i: nat, n: nat, base: int)
    requires 2 <= base <= 16 && n <= LONG_MAX && i + |Digits(n, base)| <= |s|
    requires forall k | 0 <= k < |Digits(n, base)| :: Digits(n, base)[k] == s[i + k]
    ensures DigitsFrom(s, i, base, 0) == DigitsFrom(s, i + |Digits(n, base)|, base, n)
    decreases n
  {
    hide Digits, DigitsFrom;
    var m, d := DigitsParts(n, base);
    var all := Digits(n, base);
    var last := |all| - 1;
    assert s[i + last] == all[last] == DIGITS[d];
    if n >= base {
      var front := Digits(m, base);
      assert |front| == last && forall k | 0 <= k < |front| :: front[k] == all[k];
      DigitsRead(s, i, m, base);
    }
    LastDigit(s, i + last, m, d, base, n);
  }

  lemma LastDigit(s: string, i: nat, m: nat, d: nat, base: int, n: nat)
    requires i < |s| && d < base <= 16 && s[i] == DIGITS[d] && m * base + d == n <= LONG_MAX
    ensures DigitsFrom(s, i, base, m) == DigitsFrom(s, i + 1, base, n)
  {
    DigitBack(d);
    WrapSame(n);
    hide DigitsFrom, Wrap, DigitValue;
    DigitsStep(s, i, base, m);
  }

  /** The last digit and the number the others stand for. */
  lemma DigitsParts(n: nat, base: int) returns (m: nat, d: nat)
    requires 2 <= base <= 16
    ensures m * base + d == n && d < base && (n >= base ==> m < n) && (n < base ==> m == 0)
    ensures Digits(n, base) == (if n >= base then Digits(m, base) else "") + [DIGITS[d]]
  {
    m, d := n / base, n % base;
    assert Digits(n, base) == (if n >= base then Digits(m, base) else "") + [DIGITS[d]];
    hide Digits;
    QuotientParts(n, base);
  }

  lemma QuotientParts(n: nat, base: int)
    requires 2 <= base
    ensures n / base * base + n % base == n && (n >= base ==> n / base < n) && (n < base ==> n / base == 0)
  {
    if n < base {
      assert n / base == 0;
    } else {
      assert n / base * 2 <= n / base * base;
    }
  }

  lemma WrapSame(n: int)
    requires LONG_MIN <= n <= LONG_MAX
    ensures Wrap(n) == n
  {
  }

  lemma {:induction false} FirstDigit(n: nat, base: int)
    requires 2 <= base <= 16
    ensures |Digits(n, base)| >= 1
    ensures forall k | 0 <= k < |Digits(n, base)| :: exists d | 0 <= d < base :: Digits(n, base)[k] == DIGITS[d]
  {
    if n >= base {
      FirstDigit(n / base, base);
    }
  }

  /** Only digits of the base follow: blanks, signs and prefixes are not found among them. */
  lemma PlainDigits(n: nat, base: int)
    requires 2 <= base <= 16
    ensures forall k | 0 <= k < |Digits(n, base)| ::
              var c := Digits(n, base)[k]; c != ' ' && c != '\t' && c != '+' && c != '-' && c != 'x'
  {
    FirstDigit(n, base);
    forall d | 0 <= d < base
      ensures DIGITS[d] != ' ' && DIGITS[d] != '\t' && DIGITS[d] != '+' && DIGITS[d] != '-' && DIGITS[d] != 'x'
    {
      DigitBack(d);
    }
  }

  lemma {:induction false} FillIs(n: int, c: char)
    ensures |Fill(n, c)| == (if n > 0 then n else 0) && forall k | 0 <= k < |Fill(n, c)| :: Fill(n, c)[k] == c
  {
    if n > 0 { FillIs(n - 1, c); }
  }

  lemma {:induction false} BlanksSkipped(s: string, i: nat, n: nat)
    requires i <= n <= |s| && (forall k | i <= k < n :: s[k] == ' ') && At(s, n) != ' ' && At(s, n) != '\t'
    ensures SkipBlanks(s, i) == n
    decreases n - i
  {
    if i < n { BlanksSkipped(s, i + 1, n); }
  }

  lemma {:induction false} ZerosRead(s: string, i: nat, n: nat, base: int)
    requires i <= n <= |s| && 2 <= base && forall k | i <= k < n :: s[k] == '0'
    ensures DigitsFrom(s, i, base, 0) == DigitsFrom(s, n, base, 0)
    decreases n - i
  {
    if i < n {
      DigitsStep(s, i, base, 0);
      assert Wrap(0) == 0;
      ZerosRead(s, i + 1, n, base);
    }
  }

  lemma DigitsBounded(s: string, i: nat, base: int, value: int)
    requires LONG_MIN <= value <= LONG_MAX
    ensures LONG_MIN <= DigitsFrom(s, i, base, value).0 <= LONG_MAX
    decreases |s| - i
  {
    var d := DigitValue(At(s, i));
    if 0 <= d < base {
      DigitsBounded(s, i + 1, base, Wrap(value * base + d));
    }
  }

  /** Reading back what printnum wrote: padded with blanks or zeros, to any width, in any base. */
  lemma PrintThenParse(n: nat, base: int, width: int, pad: char)
    requires 2 <= base <= 16 && (pad == ' ' || pad == '0')
    ensures var s := Fill(width - |Digits(n, base)|, pad) + Digits(n, base); Parse(s, base).0 == n <==> n <= LONG_MAX
    ensures n <= LONG_MAX ==> var s := Fill(width - |Digits(n, base)|, pad) + Digits(n, base); Parse(s, base).1 == |s|
  {
    var fill, digits := Fill(width - |Digits(n, base)|, pad), Digits(n, base);
    hide Digits, Fill, DigitsFrom, DigitValue, Parse, Wrap;
    FillIs(width - |digits|, pad);
    NotEmpty(n, base);
    PlainDigits(n, base);
    PaddedParse(fill, digits, base, pad);
    if n <= LONG_MAX {
      DigitsReadBehind(fill, n, base);
    } else {
      DigitsBounded(fill + digits, |fill|, base, 0);
    }
  }

  lemma NotEmpty(n: nat, base: int)
    requires 2 <= base <= 16
    ensures Digits(n, base) != ""
  {
  }

  lemma DigitsReadBehind(front: string, n: nat, base: int)
    requires 2 <= base <= 16 && n <= LONG_MAX
    ensures var s := front + Digits(n, base); DigitsFrom(s, |front|, base, 0) == (n, |s|)
  {
    var digits := Digits(n, base);
    var s, i := front + digits, |front|;
    hide Digits, DigitsFrom, DigitValue, Wrap;
    assert forall k | 0 <= k < |digits| :: digits[k] == s[i + k];
    DigitsRead(s, i, n, base);
    DigitsStep(s, |s|, base, n);
  }

  /** Padding is skipped, or read as leading zeros. */
  lemma PaddedParse(fill: string, digits: string, base: int, pad: char)
    requires 2 <= base <= 16 && (pad == ' ' || pad == '0') && digits != ""
             && forall k | 0 <= k < |fill| :: fill[k] == pad
    requires forall k | 0 <= k < |digits| :: var c := digits[k];
             c != ' ' && c != '\t' && c != '+' && c != '-' && c != 'x'
    ensures Parse(fill + digits, base) == DigitsFrom(fill + digits, |fill|, base, 0)
  {
    var s := fill + digits;
    var from := if pad == ' ' then |fill| else 0;
    assert forall k | 0 <= k < |s| :: s[k] == if k < |fill| then pad else digits[k - |fill|];
    hide DigitsFrom, DigitValue;
    BlanksSkipped(s, 0, from);
    assert SkipSign(s, from) == from;
    assert At(s, from + 1) != 'x';
    ZerosRead(s, from, |fill|, base);
  }

  /** The leading digit of a negative number is written below '0'. */
  lemma {:induction false} NegativeDigit(v: int)
    requires v < 0
    ensures var b := Backward(v); |b| > 0 && b[|b| - 1] < '0'
    decreases -v
  {
    BackwardStep(v);
    if TruncDiv(v, 10) != 0 {
      NegativeDigit(TruncDiv(v, 10));
    }
  }

  /** A minus sign and something that is no digit read as 0. */
  lemma NoDigits(r: string)
    requires r != "" && r[0] < '0'
    ensures Parse("-" + r, 10).0 == 0
  {
    var s := "-" + r;
    assert At(s, 0) == '-' && At(s, 1) == r[0];
    DigitsStep(s, 1, 10, 0);
    assert Wrap(0) == 0;
  }

  lemma LeastParsesToZero()
    ensures Parse(Text(LONG_MIN), 10).0 == 0
  {
    assert Wrap(-LONG_MIN) == LONG_MIN;
    hide Backward, Parse, Wrap, Reversed;
    NegativeDigit(LONG_MIN);
    NoDigits(Reversed(Backward(LONG_MIN)));
  }

  lemma TextIsDigits(v: int)
    requires LONG_MIN < v <= LONG_MAX
    ensures Text(v) == if v < 0 then "-" + Digits(-v, 10) else Digits(v, 10)
  {
    hide Backward, Reversed, Digits, Wrap;
    if v < 0 {
      WrapSame(-v);
      ReversedDigits(-v);
    } else {
      ReversedDigits(v);
    }
  }

  lemma SignedParse(s: string, v: int)
    requires LONG_MIN < v <= LONG_MAX && s == if v < 0 then "-" + Digits(-v, 10) else Digits(v, 10)
    ensures Parse(s, 10) == (v, |s|)
  {
    var n, sign := if v < 0 then -v else v, if v < 0 then "-" else "";
    NotEmpty(n, 10);
    PlainDigits(n, 10);
    DigitsReadBehind(sign, n, 10);
    hide Digits, DigitsFrom, DigitValue;
    assert s == sign + Digits(n, 10) && s[|sign|] == Digits(n, 10)[0];
    assert SkipBlanks(s, 0) == 0 && SkipSign(s, 0) == |sign|;
    WrapSame(v);
  }

  /** Reading back what ltostr wrote gives every long but the least one, which reads back as 0. */
  lemma TextThenParse(v: int)
    requires LONG_MIN <= v <= LONG_MAX
    ensures Parse(Text(v), 10).0 == v <==> v != LONG_MIN
    ensures v != LONG_MIN ==> Parse(Text(v), 10).1 == |Text(v)|
  {
    hide Text, Parse;
    if v == LONG_MIN {
      LeastParsesToZero();
    } else {
      TextIsDigits(v);
      SignedParse(Text(v), v);
    }
  }

  /** A wrapped value fits a long and differs from the value by a multiple of 2^32. */
  lemma WrapIs(x: int)
    ensures -0x8000_0000 <= Wrap(x) <= 0x7FFF_FFFF && exists k :: Wrap(x) == x + k * 0x1_0000_0000
  {
    var q := (x - LONG_MIN) / WORD_LIMIT;
    assert Wrap(x) == x + -q * 0x1_0000_0000;
  }

  // ----- what strtol reads, said without its digit table -----

  /** `c` is written for the digit `d`: a decimal digit, or a letter of either case. */
  predicate Spells(c: char, d: int) {
    || (0 <= d < 10 && c as int == '0' as int + d)
    || (10 <= d < 36 && (c as int == 'a' as int + d - 10 || c as int == 'A' as int + d - 10))
  }

  predicate NoDigit(c: char, radix: int) { forall d | 0 <= d < radix :: !Spells(c, d) }

  /** `s` from `i` on begins with the digits `ds`, and then no digit of the radix follows. */
  predicate Spelled(s: string, i: nat, ds: seq<nat>, radix: int) {
    && i + |ds| <= |s|
    && (forall k | 0 <= k < |ds| :: ds[k] < radix && Spells(s[i + k], ds[k]))
    && (i + |ds| < |s| ==> NoDigit(s[i + |ds|], radix))
  }

  /** What the digits are worth, most significant first. */
  function Worth(ds: seq<nat>, radix: nat): nat {
    if ds == [] then 0 else Worth(ds[..|ds| - 1], radix) * radix + ds[|ds| - 1]
  }

  predicate BlankOrSign(c: char) { c == ' ' || c == '\t' || c == '+' || c == '-' }

  predicate StartsWith(s: string, c: char) { s != "" && s[0] == c }

  predicate StartsWithHex(s: string) { |s| >= 2 && s[0] == '0' && s[1] == 'x' }

  /** The prefix that strtol takes in front of `digits` for the base asked for, and the radix it reads them in. */
  predicate Prefixed(prefix: string, digits: string, base: int, radix: int) {
    || (prefix == "0x" && (base == 0 || base == 16) && radix == 16)
    || (prefix == "0" && base == 0 && radix == 8 && !StartsWith(digits, 'x'))
    || (prefix == "" && base == 0 && radix == 10 && !StartsWith(digits, '0'))
    || (prefix == "" && base == 16 && radix == 16 && !StartsWithHex(digits))
    || (prefix == "" && base == radix && base != 0 && base != 16)
  }

  lemma SpellsValue(c: char, d: int)
    ensures Spells(c, d) ==> DigitValue(c) == d
    ensures DigitValue(c) >= 0 ==> DigitValue(c) < 36 && Spells(c, DigitValue(c))
  {
  }

  lemma {:induction false} WorthRead(s: string, i: nat, ds: seq<nat>, radix: nat)
    requires 2 <= radix <= 36 && i + |ds| <= |s| && forall k | 0 <= k < |ds| :: ds[k] < radix && Spells(s[i + k], ds[k])
    ensures DigitsFrom(s, i, radix, 0) == DigitsFrom(s, i + |ds|, radix, Wrap(Worth(ds, radix)))
    decreases |ds|
  {
    hide DigitsFrom, Wrap, DigitValue, Spells;
    if ds == [] {
      WrapSame(0);
    } else {
      var last := |ds| - 1;
      WorthRead(s, i, ds[..last], radix);
      SpellsValue(s[i + last], ds[last]);
      DigitsStep(s, i + last, radix, Wrap(Worth(ds[..last], radix)));
      WrapInside(Worth(ds[..last], radix), radix, ds[last]);
    }
  }

  lemma SpelledRead(s: string, i: nat, ds: seq<nat>, radix: nat)
    requires 2 <= radix <= 36 && Spelled(s, i, ds, radix)
    ensures DigitsFrom(s, i, radix, 0) == (Wrap(Worth(ds, radix)), i + |ds|)
  {
    hide DigitsFrom, DigitValue, Spells, Wrap, Worth;
    WorthRead(s, i, ds, radix);
    var j := i + |ds|;
    DigitsStep(s, j, radix, Wrap(Worth(ds, radix)));
    if j < |s| { SpellsValue(s[j], DigitValue(s[j])); }
  }

  /** Wrapping on the way changes nothing once the result is wrapped. */
  lemma WrapInside(x: int, radix: int, d: int)
    ensures Wrap(Wrap(x) * radix + d) == Wrap(x * radix + d)
  {
    var q := (x - LONG_MIN) / WORD_LIMIT;
    assert Wrap(x) == x - q * WORD_LIMIT;
    assert Wrap(x) * radix + d == x * radix + d - (q * radix) * WORD_LIMIT;
    hide Wrap;
    WrapShift(x * radix + d, -(q * radix));
  }

  lemma WrapShift(x: int, k: int)
    ensures Wrap(x + k * WORD_LIMIT) == Wrap(x)
  {
    ModShift(x - LONG_MIN, k);
    assert x + k * WORD_LIMIT - LONG_MIN == x - LONG_MIN + k * WORD_LIMIT;
  }

  lemma ModShift(x: int, k: int)
    ensures (x + k * WORD_LIMIT) % WORD_LIMIT == x % WORD_LIMIT
  {
    var q, r := x / WORD_LIMIT, x % WORD_LIMIT;
    assert x + k * WORD_LIMIT == (q + k) * WORD_LIMIT + r;
  }

  lemma WrapNegated(x: int)
    ensures Wrap(-Wrap(x)) == Wrap(-x)
  {
    var q := (x - LONG_MIN) / WORD_LIMIT;
    assert -Wrap(x) == -x + q * WORD_LIMIT;
    hide Wrap;
    WrapShift(-x, q);
  }

  lemma {:induction false} AnyBlanksSkipped(s: string, i: nat, n: nat)
    requires i <= n <= |s| && forall k | i <= k < n :: s[k] == ' ' || s[k] == '\t'
    requires At(s, n) != ' ' && At(s, n) != '\t'
    ensures SkipBlanks(s, i) == n
    decreases n - i
  {
    if i < n { AnyBlanksSkipped(s, i + 1, n); }
  }

  /** Where the digits begin, and in which radix they are read. */
  lemma FrontRead(s: string, n: nat, m: nat, i: nat, base: int, radix: int)
    requires n <= m <= i <= |s| && (forall k | 0 <= k < n :: s[k] == ' ' || s[k] == '\t')
    requires s[n..m] in {"", "+", "-"} && Prefixed(s[m..i], s[i..], base, radix)
    requires n == m && m < |s| ==> !BlankOrSign(s[m])
    ensures SkipBlanks(s, 0) == n && SkipSign(s, n) == m && SkipPrefix(s, m, base) == i && RealBase(s, m, base) == radix
    ensures At(s, n) == '-' <==> s[n..m] == "-"
  {
    SignRead(s, n, m);
    AnyBlanksSkipped(s, 0, n);
    PrefixRead(s, m, i, base, radix);
  }

  lemma SignRead(s: string, n: nat, m: nat)
    requires n <= m <= |s| && s[n..m] in {"", "+", "-"} && (n == m && m < |s| ==> !BlankOrSign(s[m]))
    ensures At(s, n) != ' ' && At(s, n) != '\t' && SkipSign(s, n) == m && (At(s, n) == '-' <==> s[n..m] == "-")
  {
    if n < m {
      assert s[n] == s[n..m][0];
    }
  }

  lemma PrefixRead(s: string, m: nat, i: nat, base: int, radix: int)
    requires m <= i <= |s| && Prefixed(s[m..i], s[i..], base, radix)
    ensures SkipPrefix(s, m, base) == i && RealBase(s, m, base) == radix
  {
    var prefix, digits := s[m..i], s[i..];
    assert forall k | 0 <= k < |prefix| :: s[m + k] == prefix[k];
    assert forall k | 0 <= k < |digits| :: s[i + k] == digits[k];
    assert |prefix| == i - m && |digits| == |s| - i;
  }

  /**
   * All that strtol reads: blanks up to `n`, a sign up to `m`, the prefix that goes with the base up to `i`, digits of
   * either case, and then anything that is no digit. It stops there, with the value of the digits, negated for a minus
   * sign, in 32 bits.
   */
  lemma StrtolReads(s: string, n: nat, m: nat, i: nat, ds: seq<nat>, base: int, radix: int)
    requires n <= m <= i <= |s| && (forall k | 0 <= k < n :: s[k] == ' ' || s[k] == '\t')
    requires s[n..m] in {"", "+", "-"} && Prefixed(s[m..i], s[i..], base, radix)
    requires n == m && m < |s| ==> !BlankOrSign(s[m])
    requires 2 <= radix <= 36 && Spelled(s, i, ds, radix)
    ensures var worth: int := Worth(ds, radix);
            Parse(s, base) == (Wrap(if s[n..m] == "-" then -worth else worth), i + |ds|)
  {
    hide Prefixed, SkipBlanks, SkipSign, SkipPrefix, RealBase, DigitsFrom, Wrap, Worth, Spelled, BlankOrSign, At;
    FrontRead(s, n, m, i, base, radix);
    SpelledRead(s, i, ds, radix);
    WrapNegated(Worth(ds, radix));
  }

  lemma {:induction false} SpelledOf(s: string, i: nat, radix: int) returns (ds: seq<nat>)
    requires 2 <= radix <= 36 && i <= |s|
    ensures Spelled(s, i, ds, radix)
    decreases |s| - i
  {
    ds := [];
    if i < |s| {
      var d := DigitValue(s[i]);
      SpellsValue(s[i], d);
      hide Spells, DigitValue;
      if 0 <= d < radix {
        var rest := SpelledOf(s, i + 1, radix);
        ds := [d] + rest;
      } else {
        forall x | 0 <= x < radix ensures !Spells(s[i], x) { SpellsValue(s[i], x); }
      }
    }
  }

  lemma {:induction false} BlanksOf(s: string, i: nat)
    requires i <= |s|
    ensures var n := SkipBlanks(s, i);
            && i <= n <= |s| && (forall k | i <= k < n :: s[k] == ' ' || s[k] == '\t')
            && (n < |s| ==> s[n] != ' ' && s[n] != '\t')
    decreases |s| - i
  {
    if At(s, i) == ' ' || At(s, i) == '\t' {
      BlanksOf(s, i + 1);
    }
  }

  lemma SignOf(s: string, n: nat)
    requires n <= |s|
    ensures var m := SkipSign(s, n); n <= m <= |s| && s[n..m] in {"", "+", "-"}
    ensures var m := SkipSign(s, n); n == m && m < |s| ==> s[m] != '+' && s[m] != '-'
  {
    var m := SkipSign(s, n);
    if m == n {
      assert s[n..m] == "";
    } else {
      assert m == n + 1 <= |s|;
      assert s[n..m] == [s[n]];
    }
  }

  lemma PrefixOf(s: string, m: nat, base: int)
    requires m <= |s| && (base == 0 || 2 <= base <= 36)
    ensures var i, radix := SkipPrefix(s, m, base), RealBase(s, m, base);
            m <= i <= |s| && 2 <= radix <= 36 && Prefixed(s[m..i], s[i..], base, radix)
  {
    var i := SkipPrefix(s, m, base);
    assert i <= |s|;
    if i == m + 2 {
      assert s[m..i] == [s[m], s[m + 1]];
    } else if i == m + 1 {
      assert s[m..i] == [s[m]];
      assert s[i..] != "" ==> s[i..][0] == s[m + 1];
    } else {
      assert s[m..i] == "";
      assert forall k | 0 <= k < |s[i..]| :: s[i..][k] == s[m + k];
    }
  }

  /** Every string is of that form, for every base that has digits. */
  lemma StrtolReadsAll(s: string, base: int) returns (n: nat, m: nat, i: nat, ds: seq<nat>, radix: int)
    requires base == 0 || 2 <= base <= 36
    ensures n <= m <= i <= |s| && (forall k | 0 <= k < n :: s[k] == ' ' || s[k] == '\t')
    ensures s[n..m] in {"", "+", "-"} && Prefixed(s[m..i], s[i..], base, radix)
    ensures n == m && m < |s| ==> !BlankOrSign(s[m])
    ensures 2 <= radix <= 36 && Spelled(s, i, ds, radix)
  {
    hide Spelled, SkipBlanks;
    BlanksOf(s, 0);
    n := SkipBlanks(s, 0);
    m := SkipSign(s, n);
    i := SkipPrefix(s, m, base);
    radix := RealBase(s, m, base);
    SignOf(s, n);
    PrefixOf(s, m, base);
    hide Prefixed, SkipPrefix, RealBase, SkipSign;
    ds := SpelledOf(s, i, radix);
  }

  /** What printnum and ltostr print: the digits of the number in lower case, without leading zeros. */
  lemma {:induction false} DigitsSpelled(n: nat, base: int) returns (ds: seq<nat>)
    requires 2 <= base <= 16
    ensures |ds| == |Digits(n, base)| >= 1 && Worth(ds, base) == n && (n > 0 ==> ds[0] > 0)
    ensures forall k | 0 <= k < |ds| ::
              ds[k] < base && Digits(n, base)[k] as int == (if ds[k] < 10 then '0' as int else 'a' as int - 10) + ds[k]
    decreases n
  {
    var m, d := DigitsParts(n, base);
    assert DIGITS[d] as int == (if d < 10 then '0' as int else 'a' as int - 10) + d;
    hide Digits;
    if n >= base {
      var front := DigitsSpelled(m, base);
      ds := front + [d];
      assert ds[..|ds| - 1] == front;
      LeadPositive(m, base, d, n);
    } else {
      ds := [d];
      assert ds[..0] == [];
    }
  }

  lemma LeadPositive(m: nat, base: int, d: nat, n: nat)
    requires 2 <= base && m * base + d == n && d < base <= n
    ensures m > 0
  {
  }

  /** An upper-case rendering reads back like a lower-case one. */
  lemma UpperThenParse(n: nat, base: int, t: string, ds: seq<nat>)
    requires 2 <= base <= 36 && n <= LONG_MAX && |t| == |ds| >= 1 && Worth(ds, base) == n
    requires forall k | 0 <= k < |t| ::
               ds[k] < base && t[k] as int == (if ds[k] < 10 then '0' as int else 'A' as int - 10) + ds[k]
    ensures Parse(t, base) == (n, |t|)
  {
    assert forall k | 0 <= k < |t| :: Spells(t[k], ds[k]);
    assert t[0] != ' ' && t[0] != '\t' && t[0] != '+' && t[0] != '-';
    assert |t| >= 2 ==> t[1] != 'x';
    assert t[0..0] == "" && t[0..] == t;
    WrapSame(n);
    hide Parse, Worth, Wrap, Spells;
    StrtolReads(t, 0, 0, 0, ds, base, base);
  }
}

/** `printd` (src/stdio.c) and `atoi` (src/stdlib.c) for 32-bit integers whose arithmetic wraps around. */
module Decimal {
  const INT_MIN: int := -0x8000_0000

  predicate IsInt(x: int) {
    INT_MIN <= x < 0x8000_0000
  }

  /** Two's complement wrap-around to 32 bits: what the model takes for overflow, which C leaves undefined. */
  function Wrap32(x: int): (r: int)
    ensures IsInt(r) && (IsInt(x) ==> r == x)
  {
    (x + 0x8000_0000) % 0x1_0000_0000 - 0x8000_0000
  }

  predicate IsDigit(c: char) {
    '0' <= c <= '9'
  }

  function Digit(d: nat): (c: char)
    requires d < 10
    ensures IsDigit(c) && c as int - '0' as int == d
  {
    '0' + d as char
  }

  /** The decimal digits of a positive number, the most significant first; none for 0. */
  function Digits(n: nat): string {
    if n == 0 then "" else Digits(n / 10) + [Digit(n % 10)]
  }

  /** What `printd` writes: for the smallest integer, whose negation wraps to itself, only the sign. */
  function Printed(num: int): string
    requires IsInt(num)
  {
    if num == 0 then "0"
    else if num == INT_MIN then "-"
    else if num < 0 then "-" + Digits(-num)
    else Digits(num)
  }

  lemma {:induction false} DigitsFacts(n: nat, k: nat)
    requires k <= 10 && n < Pow10(k)
    ensures |Digits(n)| <= k && (n > 0 ==> |Digits(n)| > 0) && forall i :: 0 <= i < |Digits(n)| ==> IsDigit(Digits(n)[i])
  {
    if n > 0 { DigitsFacts(n / 10, k - 1); }
  }

  function Pow10(k: nat): nat {
    if k == 0 then 1 else 10 * Pow10(k - 1)
  }

  function Reversed(s: seq<char>): seq<char> {
    if s == [] then [] else Reversed(s[1..]) + [s[0]]
  }

  lemma {:induction false} ReversedPush(s: seq<char>, c: char)
    ensures Reversed(s + [c]) == [c] + Reversed(s)
  {
    if s != [] {
      assert (s + [c])[1..] == s[1..] + [c];
      ReversedPush(s[1..], c);
    }
  }

  lemma NoDigits(n: nat)
    requires n == 0
    ensures Digits(n) == ""
  {
  }

  lemma EmptyReversed(s: seq<char>)
    requires s == []
    ensures Reversed(s) == []
  {
  }

  class Console {
    /** Everything written so far. */
    var out: string

    constructor ()
      ensures out == ""
    {
      out := "";
    }

    method Putchar(c: char)
      modifies this
      ensures out == old(out) + [c]
    {
      out := out + [c];
    }

    /** `printd`: the digits fit the buffer of 12, and the count is the length of what was written. */
    method Printd(num: int) returns (ret: nat)
      requires IsInt(num)
      modifies this
      ensures out == old(out) + Printed(num) && ret == |Printed(num)|
    {
      hide Reversed, Digits;
      NoDigits(0);
      if num == 0 {
        Putchar('0');
        return 1;
      }
      ret := 0;
      var buffer := new char[12];
      var i := 0;
      var n := num;
      if n < 0 {
        Putchar('-');
        ret := ret + 1;
        n := Wrap32(-n);
      }
      i := FillBuffer(buffer, n);
      ret := ret + i;
      EmitBackwards(buffer, i);
    }

    /** The digit loop of `printd`: least significant digit first; nothing for a value that is not positive. */
    method FillBuffer(buffer: array<char>, num: int) returns (i: nat)
      requires IsInt(num) && buffer.Length == 12
      modifies buffer
      ensures i <= 10 && Reversed(buffer[..i]) == Digits(if num < 0 then 0 else num) && i == |Digits(if num < 0 then 0 else num)|
    {
      hide Reversed;
      ghost var value := if num < 0 then 0 else num;
      TenDigits(value);
      EmptyReversed(buffer[..0]);
      i := 0;
      var n := num;
      while n > 0
        invariant 0 <= n <= value || (n < 0 && i == 0 && value == 0)
        invariant i == |Digits(value)| - |Digits(if n < 0 then 0 else n)|
        invariant Digits(value) == Digits(if n < 0 then 0 else n) + Reversed(buffer[..i])
        decreases n
      {
        ReversedPush(buffer[..i], Digit(n % 10));
        ghost var was := buffer[..i];
        buffer[i] := Digit(n % 10);
        i := i + 1;
        assert buffer[..i] == was + [Digit(n % 10)];
        assert Digits(n) + Reversed(was) == Digits(n / 10) + ([Digit(n % 10)] + Reversed(was));
        n := n / 10;
      }
    }

    /** The last loop of `printd`. */
    method EmitBackwards(buffer: array<char>, n: nat)
      requires n <= buffer.Length
      modifies this
      ensures out == old(out) + Reversed(buffer[..n])
    {
      var i := n;
      while i > 0
        invariant 0 <= i <= n && out + Reversed(buffer[..i]) == old(out) + Reversed(buffer[..n])
      {
        i := i - 1;
        ReversedPush(buffer[..i], buffer[i]);
        assert buffer[..i + 1] == buffer[..i] + [buffer[i]];
        Putchar(buffer[i]);
      }
    }
  }

  lemma TenDigits(n: nat)
    requires n < 0x8000_0000
    ensures |Digits(n)| <= 10
  {
    assert Pow10(5) == 100_000;
    assert Pow10(10) == 10_000_000_000;
    DigitsFacts(n, 10);
  }

  // ---------------------------------------------------------------- atoi

  /** The character at `i`; the string ends with a NUL. */
  function At(s: string, i: nat): char {
    if i < |s| then s[i] else '\0'
  }

  /** The digits from position `i` on, appended to `acc`. */
  function ParseDigits(s: string, i: nat, acc: int): int
    decreases |s| - i
  {
    if i < |s| && IsDigit(s[i]) then ParseDigits(s, i + 1, Wrap32(Wrap32(acc * 10) + (s[i] as int - '0' as int))) else acc
  }

  function SkipBlanks(s: string, i: nat): (j: nat)
    decreases |s| - i
  {
    if i < |s| && (s[i] == ' ' || s[i] == '\t') then SkipBlanks(s, i + 1) else i
  }

  /** What `atoi` makes of a string: blanks, a minus sign, digits. */
  function Parsed(s: string): int {
    var i := SkipBlanks(s, 0);
    if At(s, i) == '-' then Wrap32(ParseDigits(s, i + 1, 0) * -1) else ParseDigits(s, i, 0)
  }

  /** `atoi` */
  method Atoi(s: string) returns (r: int)
    ensures r == Parsed(s)
    ensures forall blanks: string, minus: bool, ds: string, rest: string ::
              Numeral(s, blanks, minus, ds, rest) ==> r == Wrap32(if minus then -Value(ds) else Value(ds))
  {
    ReadsAny(s);
    var i := 0;
    while At(s, i) == ' ' || At(s, i) == '\t'
      invariant 0 <= i <= |s| && SkipBlanks(s, i) == SkipBlanks(s, 0)
      decreases |s| - i
    {
      i := i + 1;
    }
    var isNegative := false;
    if At(s, i) == '-' {
      isNegative := true;
      i := i + 1;
    }
    if At(s, i) < '0' || At(s, i) > '9' { return 0; }
    var ret := 0;
    ghost var start := i;
    while '0' <= At(s, i) <= '9'
      invariant start <= i <= |s| && ParseDigits(s, i, ret) == ParseDigits(s, start, 0)
      decreases |s| - i
    {
      ret := Wrap32(ret * 10);
      ret := Wrap32(ret + (At(s, i) as int - '0' as int));
      i := i + 1;
    }
    if isNegative { return Wrap32(ret * -1); } else { return ret; }
  }

  // ---------------------------------------------------------------- what atoi means

  predicate AllDigits(s: string) {
    forall i :: 0 <= i < |s| ==> IsDigit(s[i])
  }

  /** The number that a string of digits denotes. */
  function Value(ds: string): int
    requires AllDigits(ds)
  {
    if ds == "" then 0 else 10 * Value(ds[..|ds| - 1]) + (ds[|ds| - 1] as int - '0' as int)
  }

  predicate IsBlank(c: char) {
    c == ' ' || c == '\t'
  }

  function Sign(minus: bool): string {
    if minus then "-" else ""
  }

  /**
   * `s` is blanks, an optional minus sign, as many digits as there are, and the rest. With neither
   * sign nor digits the rest starts with no blank and no sign.
   */
  predicate Numeral(s: string, blanks: string, minus: bool, ds: string, rest: string) {
    && s == blanks + (Sign(minus) + (ds + rest))
    && (forall i :: 0 <= i < |blanks| ==> IsBlank(blanks[i]))
    && AllDigits(ds)
    && (rest != "" ==> !IsDigit(rest[0]))
    && (rest != "" && !minus && ds == "" ==> !IsBlank(rest[0]) && rest[0] != '-')
  }

  lemma WrapTurns(x: int, k: int)
    ensures Wrap32(x + k * 0x1_0000_0000) == Wrap32(x)
  {
    var y := x + 0x8000_0000;
    var q := y / 0x1_0000_0000;
    assert y == q * 0x1_0000_0000 + y % 0x1_0000_0000;
    Remainder(y + k * 0x1_0000_0000, q + k, y % 0x1_0000_0000);
  }

  lemma Remainder(n: int, q: int, r: int)
    requires 0 <= r < 0x1_0000_0000 && n == q * 0x1_0000_0000 + r
    ensures n % 0x1_0000_0000 == r
  {
  }

  /** Wrapping before a multiplication and an addition makes no difference after them. */
  lemma WrapLate(x: int, f: int, d: int)
    ensures Wrap32(Wrap32(Wrap32(x) * f) + d) == Wrap32(x * f + d)
  {
    var k := (x + 0x8000_0000) / 0x1_0000_0000;
    assert Wrap32(x) == x - k * 0x1_0000_0000;
    var y := Wrap32(x) * f;
    var l := (y + 0x8000_0000) / 0x1_0000_0000;
    assert Wrap32(y) == y - l * 0x1_0000_0000;
    assert y == x * f - k * f * 0x1_0000_0000;
    var turns := -(k * f) - l;
    assert Wrap32(y) + d == x * f + d + turns * 0x1_0000_0000;
    WrapTurns(x * f + d, turns);
  }

  lemma {:induction false} SkipsBlanks(s: string, i: nat, j: nat)
    requires i <= j <= |s| && (forall l :: i <= l < j ==> IsBlank(s[l])) && (j < |s| ==> !IsBlank(s[j]))
    ensures SkipBlanks(s, i) == j
    decreases j - i
  {
    if i < j { SkipsBlanks(s, i + 1, j); }
  }

  /** From position `i` the digit loop reaches the value of all digits from `start` to `j`. */
  lemma {:induction false} ParsesRun(s: string, start: nat, i: nat, j: nat)
    requires start <= i <= j <= |s| && AllDigits(s[start..j]) && (j < |s| ==> !IsDigit(s[j]))
    ensures AllDigits(s[start..i])
    ensures ParseDigits(s, i, Wrap32(Value(s[start..i]))) == Wrap32(Value(s[start..j]))
    decreases j - i
  {
    hide Wrap32;
    assert s[start..i] == s[start..j][..i - start];
    if i < j {
      assert s[start..j][i - start] == s[i];
      assert s[start..i + 1] == s[start..j][..i + 1 - start];
      assert s[start..i + 1][..i - start] == s[start..i];
      WrapLate(Value(s[start..i]), 10, s[i] as int - '0' as int);
      ParsesRun(s, start, i + 1, j);
    }
  }

  lemma ParsesAll(s: string, pre: string, ds: string, rest: string)
    requires s == pre + (ds + rest) && AllDigits(ds) && (rest != "" ==> !IsDigit(rest[0]))
    ensures ParseDigits(s, |pre|, 0) == Wrap32(Value(ds))
  {
    hide ParseDigits;
    var j := |pre| + |ds|;
    assert s[|pre|..|pre|] == "" && s[|pre|..j] == ds;
    assert j < |s| ==> s[j] == rest[0];
    ParsesRun(s, |pre|, |pre|, j);
  }

  /** `atoi` gives the number, negated behind a minus sign, wrapped to an `int`; without digits 0. */
  lemma ParsedIs(s: string, blanks: string, minus: bool, ds: string, rest: string)
    requires Numeral(s, blanks, minus, ds, rest)
    ensures Parsed(s) == Wrap32(if minus then -Value(ds) else Value(ds))
  {
    hide Wrap32, ParseDigits, SkipBlanks, Value;
    var i := |blanks|;
    var tail := Sign(minus) + (ds + rest);
    assert tail != "" ==> !IsBlank(tail[0]) && (tail[0] == '-' <==> minus) by {
      assert tail != "" ==> tail[0] == if minus then '-' else if ds != "" then ds[0] else rest[0];
    }
    assert forall l :: 0 <= l < i ==> s[l] == blanks[l];
    assert i < |s| ==> s[i] == tail[0];
    SkipsBlanks(s, 0, i);
    if minus {
      assert s == (blanks + "-") + (ds + rest);
      ParsesAll(s, blanks + "-", ds, rest);
      WrapLate(Value(ds), -1, 0);
      assert Wrap32(Wrap32(Wrap32(Value(ds)) * -1) + 0) == Wrap32(Wrap32(Value(ds)) * -1);
    } else {
      assert Sign(minus) + (ds + rest) == ds + rest;
      ParsesAll(s, blanks, ds, rest);
    }
  }

  lemma ReadsAny(s: string)
    ensures forall blanks: string, minus: bool, ds: string, rest: string ::
              Numeral(s, blanks, minus, ds, rest) ==> Parsed(s) == Wrap32(if minus then -Value(ds) else Value(ds))
  {
    forall blanks: string, minus: bool, ds: string, rest: string | Numeral(s, blanks, minus, ds, rest)
      ensures Parsed(s) == Wrap32(if minus then -Value(ds) else Value(ds))
    {
      ParsedIs(s, blanks, minus, ds, rest);
    }
  }

  /** Where the blanks end. */
  lemma {:induction false} BlankEnd(s: string, i: nat) returns (j: nat)
    requires i <= |s|
    ensures i <= j <= |s| && (forall l :: i <= l < j ==> IsBlank(s[l])) && (j < |s| ==> !IsBlank(s[j]))
    decreases |s| - i
  {
    if i < |s| && IsBlank(s[i]) { j := BlankEnd(s, i + 1); } else { j := i; }
  }

  /** Where the digits end. */
  lemma {:induction false} DigitEnd(s: string, i: nat) returns (j: nat)
    requires i <= |s|
    ensures i <= j <= |s| && (forall l :: i <= l < j ==> IsDigit(s[l])) && (j < |s| ==> !IsDigit(s[j]))
    decreases |s| - i
  {
    if i < |s| && IsDigit(s[i]) { j := DigitEnd(s, i + 1); } else { j := i; }
  }

  /** Every string has such a reading. */
  lemma EveryNumeral(s: string)
    ensures exists blanks: string, minus: bool, ds: string, rest: string :: Numeral(s, blanks, minus, ds, rest)
  {
    var i := BlankEnd(s, 0);
    var minus := i < |s| && s[i] == '-';
    var start := if minus then i + 1 else i;
    var j := DigitEnd(s, start);
    assert s == s[..i] + (Sign(minus) + (s[start..j] + s[j..])) by { Cut3(s, i, start, j); }
    assert Numeral(s, s[..i], minus, s[start..j], s[j..]);
  }

  lemma Cut3(s: string, i: nat, start: nat, j: nat)
    requires i <= start <= j <= |s| && start <= i + 1
    ensures s == s[..i] + (s[i..start] + (s[start..j] + s[j..]))
    ensures start == i ==> s[i..start] == Sign(false)
    ensures start == i + 1 && s[i] == '-' ==> s[i..start] == Sign(true)
  {
  }

  /** Leading spaces and tabs are skipped. */
  lemma LeadingBlank(s: string)
    ensures Parsed(" " + s) == Parsed(s) && Parsed("\t" + s) == Parsed(s)
  {
    hide Parsed, Value, Wrap32;
    EveryNumeral(s);
    var blanks: string, minus: bool, ds: string, rest: string :| Numeral(s, blanks, minus, ds, rest);
    ParsedIs(s, blanks, minus, ds, rest);
    OneBlank(' ', s, blanks, minus, ds, rest);
    OneBlank('\t', s, blanks, minus, ds, rest);
  }

  lemma OneBlank(c: char, s: string, blanks: string, minus: bool, ds: string, rest: string)
    requires Numeral(s, blanks, minus, ds, rest) && IsBlank(c)
    ensures Parsed([c] + s) == Wrap32(if minus then -Value(ds) else Value(ds))
  {
    hide Parsed, Value, Wrap32;
    var t := Sign(minus) + (ds + rest);
    assert [c] + (blanks + t) == ([c] + blanks) + t;
    ParsedIs([c] + s, [c] + blanks, minus, ds, rest);
  }

  /** A string that begins with anything else than a blank, a sign or a digit gives 0, and so does a sign without a digit. */
  lemma OtherStart(c: char, s: string)
    requires !('0' <= c <= '9')
    ensures c != ' ' && c != '\t' && c != '-' ==> Parsed([c] + s) == 0
    ensures Parsed("-" + ([c] + s)) == 0
  {
    var t := [c] + s;
    assert t == "" + ("" + ("" + t)) && "-" + t == "" + ("-" + ("" + t));
    if !IsBlank(c) && c != '-' { ParsedIs(t, "", false, "", t); }
    ParsedIs("-" + t, "", true, "", t);
  }

  // ---------------------------------------------------------------- round trip

  /** The digits of a number denote it, and none of them is a leading zero. */
  lemma {:induction false} DigitsValue(n: nat)
    ensures AllDigits(Digits(n))
    ensures Value(Digits(n)) == n && (n > 0 ==> Digits(n) != "" && Digits(n)[0] != '0')
  {
    if n > 0 {
      DigitsValue(n / 10);
      assert Digits(n)[..|Digits(n)| - 1] == Digits(n / 10);
    }
  }

  /** `atoi` gives back what `printd` wrote, for every integer but the smallest. */
  lemma RoundTripIff(num: int)
    requires IsInt(num)
    ensures Parsed(Printed(num)) == num <==> num != -0x8000_0000
  {
    hide Wrap32, Digits, Parsed, Value;
    var n := if num == INT_MIN then 0 else if num < 0 then -num else num;
    var ds := if num == 0 then "0" else Digits(n);
    DigitsValue(n);
    ZeroDenotes();
    NoDigits(0);
    assert ds + "" == ds && Sign(num < 0) + ds == Printed(num) && "" + Printed(num) == Printed(num);
    ParsedIs(Printed(num), "", num < 0, ds, "");
  }

  /** What `printd` writes: `0`, or a minus sign for negative numbers and the digits, with no leading zero. */
  lemma PrintedIs(num: int)
    requires IsInt(num)
    ensures Printed(0) == "0" && Printed(-0x8000_0000) == "-"
    ensures num > 0 ==>
              var ds := Printed(num);
              ds != "" && AllDigits(ds) && Value(ds) == num && ds[0] != '0'
    ensures -0x8000_0000 < num < 0 ==>
              && Printed(num) != "" && Printed(num)[0] == '-'
              && var ds := Printed(num)[1..];
                 ds != "" && AllDigits(ds) && Value(ds) == -num && ds[0] != '0'
  {
    if num > 0 {
      DigitsValue(num);
    } else if -0x8000_0000 < num < 0 {
      DigitsValue(-num);
      assert Printed(num)[1..] == Digits(-num);
    }
  }

  lemma ZeroDenotes()
    ensures IsDigit("0"[0]) && Value("0") == 0
  {
    assert Value("0"[..0]) == 0;
  }
}

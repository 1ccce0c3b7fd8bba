/** How integers are spelt: every text that Python's `int(s, base)` reads, and what it reads it as. */
module Numerals {
  import opened Bytes
  import opened Ascii

  const LOWER_DIGITS: string := "0123456789abcdef"
  const UPPER_DIGITS: string := "0123456789ABCDEF"

  /** A digit as written, and whether an underscore stands before it. */
  datatype Digit = Digit(c: char, value: nat, gap: bool)

  /** White space, a sign, a base prefix, digits and white space. */
  datatype Numeral = Numeral(before: bytes, sign: bytes, prefix: bytes, digits: seq<Digit>, after: bytes)

  predicate ValidDigit(d: Digit, base: nat) {
    d.value < base <= 16 && (d.c == LOWER_DIGITS[d.value] || d.c == UPPER_DIGITS[d.value])
  }

  predicate ValidDigits(ds: seq<Digit>, base: nat) {
    ds != [] && !ds[0].gap && forall i :: 0 <= i < |ds| ==> ValidDigit(ds[i], base)
  }

  predicate ValidNumeral(n: Numeral, base: nat) {
    && Blank(n.before) && Blank(n.after) && (n.sign == "" || n.sign == "+" || n.sign == "-")
    && (n.prefix == "" || (base == 16
        && (n.prefix == "0x" || n.prefix == "0X" || n.prefix == "0x_" || n.prefix == "0X_")))
    && ValidDigits(n.digits, base)
  }

  function DigitsText(ds: seq<Digit>): bytes {
    if ds == [] then "" else
      var d := ds[|ds| - 1];
      DigitsText(ds[..|ds| - 1]) + (if d.gap then "_" else "") + [d.c]
  }

  /** The positional value of the digits. */
  function Positional(ds: seq<Digit>, base: nat): nat {
    if ds == [] then 0 else Positional(ds[..|ds| - 1], base) * base + ds[|ds| - 1].value
  }

  function NumeralText(n: Numeral): bytes { n.before + (n.sign + (n.prefix + DigitsText(n.digits))) + n.after }

  function NumeralValue(n: Numeral, base: nat): int {
    if n.sign == "-" then 0 - Positional(n.digits, base) else Positional(n.digits, base)
  }

  // ------------------------------------------------------------------- digits

  lemma DigitOf(c: char)
    ensures var v := DigitVal(c); 0 <= v < 16 ==> c == LOWER_DIGITS[v] || c == UPPER_DIGITS[v]
  {}

  lemma DigitRead(d: Digit, base: nat)
    requires ValidDigit(d, base)
    ensures DigitVal(d.c) == d.value && d.c != '_' && !IsSpace(d.c) && d.c != 'x' && d.c != 'X' && d.c != '+'
        && d.c != '-'
  {}

  lemma {:induction false} DigitsEnds(ds: seq<Digit>, base: nat)
    requires ValidDigits(ds, base)
    ensures var s := DigitsText(ds); s != [] && s[0] == ds[0].c && s[|s| - 1] == ds[|ds| - 1].c
    ensures |DigitsText(ds)| >= 2 ==> DigitsText(ds)[1] != 'x' && DigitsText(ds)[1] != 'X'
  {
    DigitRead(ds[|ds| - 1], base);
    if |ds| > 1 {
      var front := ds[..|ds| - 1];
      assert ValidDigits(front, base) by { hide ValidDigit; }
      DigitsEnds(front, base);
      assert front[0] == ds[0];
    }
  }

  /** The digits read as their positional value. */
  lemma {:induction false} DigitsRead(ds: seq<Digit>, base: nat)
    requires ValidDigits(ds, base) && 2 <= base <= 16
    ensures DigitsValue(DigitsText(ds), base) == Some(Positional(ds, base))
  {
    var last := ds[|ds| - 1];
    DigitRead(last, base);
    hide ValidDigit, DigitVal;
    if |ds| == 1 { OneDigit(ds); }
    else {
      var front := ds[..|ds| - 1];
      assert ValidDigits(front, base);
      DigitsRead(front, base);
      DigitsEnds(front, base);
      DigitRead(front[|front| - 1], base);
      hide DigitsValue, DigitsText, DigitVal, ValidDigits;
      DigitsText1(ds);
      DigitsStep(DigitsText(front), last.gap, last.c, base);
    }
  }

  lemma OneDigit(ds: seq<Digit>)
    requires |ds| == 1 && !ds[0].gap
    ensures DigitsText(ds) == [ds[0].c] && forall base :: Positional(ds, base) == ds[0].value
  {
    assert ds[..0] == [];
  }

  lemma DigitsText1(ds: seq<Digit>)
    requires ds != []
    ensures DigitsText(ds) == DigitsText(ds[..|ds| - 1]) + (if ds[|ds| - 1].gap then "_" else "") + [ds[|ds| - 1].c]
  {}

  lemma DigitsStep(front: bytes, gap: bool, c: char, base: nat)
    requires 2 <= base <= 16 && front != [] && front[|front| - 1] != '_' && DigitsValue(front, base).Some?
    requires 0 <= DigitVal(c) < base
    ensures DigitsValue(front + (if gap then "_" else "") + [c], base)
         == Some(DigitsValue(front, base).value * base + DigitVal(c))
  {
    var s := front + (if gap then "_" else "") + [c];
    assert s[|s| - 1] == c && s[..|s| - (if gap then 2 else 1)] == front;
    hide DigitVal;
  }

  /** The last digit of a text the digits reader accepts, and what stands before it. */
  lemma DigitsLast(s: bytes, base: nat)
    requires 2 <= base <= 16 && DigitsValue(s, base).Some?
    ensures s != [] && var c := s[|s| - 1];
        DigitVal(c) >= 0 && forall gap :: ValidDigit(Digit(c, DigitVal(c), gap), base)
    ensures |s| > 1 ==> DigitsValue(if s[|s| - 2] == '_' then s[..|s| - 2] else s[..|s| - 1], base).Some?
  {
    DigitOf(s[|s| - 1]);
    hide DigitVal;
  }

  /** Every text the digits reader accepts is spelt by some digits. */
  lemma {:induction false} DigitsSpelt(s: bytes, base: nat) returns (ds: seq<Digit>)
    requires 2 <= base <= 16 && DigitsValue(s, base).Some?
    ensures ValidDigits(ds, base) && DigitsText(ds) == s
    decreases |s|
  {
    DigitsLast(s, base);
    hide ValidDigit, DigitVal, DigitsValue, DigitsText;
    var c := s[|s| - 1];
    var gap := |s| > 1 && s[|s| - 2] == '_';
    var d := Digit(c, DigitVal(c), gap);
    if |s| == 1 {
      ds := [d];
      OneDigit(ds);
    } else {
      var front := if gap then s[..|s| - 2] else s[..|s| - 1];
      var head := DigitsSpelt(front, base);
      ds := head + [d];
      assert s == front + (if gap then "_" else "") + [c];
      SpeltNext(head, d, base);
    }
  }

  lemma SpeltNext(head: seq<Digit>, d: Digit, base: nat)
    requires ValidDigits(head, base) && ValidDigit(d, base)
    ensures ValidDigits(head + [d], base)
    ensures DigitsText(head + [d]) == DigitsText(head) + (if d.gap then "_" else "") + [d.c]
  {
    hide ValidDigit;
    assert (head + [d])[..|head|] == head;
  }

  lemma {:induction false} DigitsChars(ds: seq<Digit>, base: nat, c: char)
    requires (forall i :: 0 <= i < |ds| ==> ValidDigit(ds[i], base)) && (c == ';' || c == ',')
    ensures c !in DigitsText(ds)
  {
    if ds != [] {
      DigitsChars(ds[..|ds| - 1], base, c);
      var d := ds[|ds| - 1];
      assert d.c != c by { DigitCharPlain(d, base); }
      hide ValidDigit;
    }
  }

  lemma DigitCharPlain(d: Digit, base: nat)
    requires ValidDigit(d, base)
    ensures d.c != ';' && d.c != ','
  {}

  /** A numeral holds neither the semicolon nor the comma that ends it. */
  lemma NumeralChars(n: Numeral, base: nat, c: char)
    requires ValidNumeral(n, base) && (c == ';' || c == ',')
    ensures c !in NumeralText(n)
  {
    DigitsChars(n.digits, base, c);
    hide DigitsText, ValidDigit;
    assert c !in n.before && c !in n.after;
  }

  // ------------------------------------------------------------------ integers

  /** What is left of an unsigned text without its base prefix. */
  function Unprefixed(u: bytes, base: nat): bytes {
    if base == 16 && |u| >= 2 && u[0] == '0' && (u[1] == 'x' || u[1] == 'X') then
      if |u| > 2 && u[2] == '_' then u[3..] else u[2..]
    else u
  }

  lemma PyIntParts(s: bytes, sign: bytes, u: bytes, base: nat)
    requires base == 10 || base == 16
    requires Strip(s) == sign + u && (sign == "" || sign == "+" || sign == "-")
    requires sign == "" ==> u == [] || (u[0] != '+' && u[0] != '-')
    ensures PyInt(s, base) == match DigitsValue(Unprefixed(u, base), base)
      case None => None
      case Some(n) => Some(if sign == "-" then 0 - n else n)
  {
    var t := Strip(s);
    hide Strip, DigitsValue;
    if sign == "" { assert t == u; } else { assert t[0] == sign[0] && t[1..] == u; }
  }

  /** The integer reader reads a numeral as its value. */
  lemma NumeralRead(n: Numeral, base: nat)
    requires ValidNumeral(n, base) && (base == 10 || base == 16)
    ensures PyInt(NumeralText(n), base) == Some(NumeralValue(n, base))
  {
    var digits := DigitsText(n.digits);
    hide DigitVal, IsSpace, ValidDigit, DigitsText, Positional, DigitsValue, PyInt;
    DigitsEnds(n.digits, base);
    DigitRead(n.digits[0], base);
    DigitRead(n.digits[|n.digits| - 1], base);
    DigitsRead(n.digits, base);
    NumeralParts(n.before, n.sign, n.prefix, digits, n.after, base);
    hide DigitsValue, DigitsText, Positional, ValidDigits, PyInt, Blank;
  }

  lemma NumeralParts(before: bytes, sign: bytes, prefix: bytes, digits: bytes, after: bytes, base: nat)
    requires base == 10 || base == 16
    requires Blank(before) && Blank(after) && (sign == "" || sign == "+" || sign == "-")
    requires prefix == "" || (base == 16 && (prefix == "0x" || prefix == "0X" || prefix == "0x_" || prefix == "0X_"))
    requires digits != [] && !IsSpace(digits[0]) && !IsSpace(digits[|digits| - 1])
    requires digits[0] != '+' && digits[0] != '-' && digits[0] != '_'
    requires |digits| >= 2 ==> digits[1] != 'x' && digits[1] != 'X'
    ensures PyInt(before + (sign + (prefix + digits)) + after, base) == match DigitsValue(digits, base)
      case None => None
      case Some(n) => Some(if sign == "-" then 0 - n else n)
  {
    hide DigitsValue, Strip, PyInt, Blank, IsSpace;
    CoreEnds(sign, prefix, digits);
    StripAround(before, sign + (prefix + digits), after);
    PrefixCut(prefix, digits, base);
    hide Unprefixed;
    PyIntParts(before + (sign + (prefix + digits)) + after, sign, prefix + digits, base);
  }

  lemma CoreEnds(sign: bytes, prefix: bytes, digits: bytes)
    requires sign == "" || sign == "+" || sign == "-"
    requires prefix == "" || prefix == "0x" || prefix == "0X" || prefix == "0x_" || prefix == "0X_"
    requires digits != [] && !IsSpace(digits[0]) && !IsSpace(digits[|digits| - 1]) && digits[0] != '+'
        && digits[0] != '-'
    ensures var u := prefix + digits; var core := sign + u;
      core != [] && !IsSpace(core[0]) && !IsSpace(core[|core| - 1]) && u[0] != '+' && u[0] != '-'
  {}

  lemma PrefixCut(prefix: bytes, digits: bytes, base: nat)
    requires prefix == "" || (base == 16 && (prefix == "0x" || prefix == "0X" || prefix == "0x_" || prefix == "0X_"))
    requires digits != [] && digits[0] != '_'
    requires |digits| >= 2 ==> digits[1] != 'x' && digits[1] != 'X'
    ensures Unprefixed(prefix + digits, base) == digits
  {
    assert "" + digits == digits;
  }

  lemma StripAround(before: bytes, core: bytes, after: bytes)
    requires Blank(before) && Blank(after) && core != [] && !IsSpace(core[0]) && !IsSpace(core[|core| - 1])
    ensures Strip(before + core + after) == core
  {
    StripAfterCut(before + core, after);
    StripLeading(before, core);
    StripTrimmed(core);
  }

  /** Every text the integer reader accepts is a numeral with that value. */
  lemma NumeralSpelt(s: bytes, base: nat) returns (n: Numeral)
    requires (base == 10 || base == 16) && PyInt(s, base).Some?
    ensures ValidNumeral(n, base) && NumeralText(n) == s && NumeralValue(n, base) == PyInt(s, base).value
  {
    var before, after := StripParts(s);
    var t := Strip(s);
    var sign := if t != [] && (t[0] == '+' || t[0] == '-') then [t[0]] else "";
    var u := t[|sign|..];
    hide DigitsValue, DigitsText, Positional, ValidDigits, Strip, PyInt, Blank;
    assert t == sign + u;
    PyIntParts(s, sign, u, base);
    var prefix := CutPrefix(u, base);
    var ds := DigitsSpelt(Unprefixed(u, base), base);
    DigitsRead(ds, base);
    n := Numeral(before, sign, prefix, ds, after);
  }

  lemma CutPrefix(u: bytes, base: nat) returns (prefix: bytes)
    ensures u == prefix + Unprefixed(u, base)
    ensures prefix == "" || (base == 16 && (prefix == "0x" || prefix == "0X" || prefix == "0x_" || prefix == "0X_"))
  {
    prefix := u[..|u| - |Unprefixed(u, base)|];
  }
}

/**
 Numbers as text: utoa of the user library and uitoa of the kernel.
 */
module NumText {
  import opened Machine

  // ----- Positional notation

  function DigitChar(d: nat): (c: u8)
    requires d < 36
  {
    if d > 9 then (d - 10) + 97 else d + 48
  }

  function DigitValue(c: u8): (d: nat) {
    if 48 <= c <= 57 then c - 48 else if 97 <= c <= 122 then c - 87 else if 65 <= c <= 90 then c - 55 else 0
  }

  /** Most significant digit first. */
  function Digits(v: nat, b: nat): (ds: seq<u8>)
    requires 2 <= b <= 36
    ensures |ds| >= 1
    decreases v
  {
    if v < b then [DigitChar(v)] else Smaller(v, b); Digits(v / b, b) + [DigitChar(v % b)]
  }

  function Value(ds: seq<u8>, b: nat): (v: nat) {
    if ds == [] then 0 else Value(ds[..|ds| - 1], b) * b + DigitValue(ds[|ds| - 1])
  }

  lemma AtLeastDouble(q: nat, b: nat)
    requires 2 <= b
    ensures q * b >= 2 * q
  {
    assert q * b == q * 2 + q * (b - 2);
  }

  /** Division by the base shrinks a number, to nothing exactly when it is below the base. */
  lemma Smaller(v: nat, b: nat)
    requires 2 <= b && v > 0
    ensures 0 <= v / b < v && v / b <= v / 2 && v == v / b * b + v % b && 0 <= v % b < b
    ensures v < b ==> v / b == 0 && v % b == v
    ensures v >= b ==> v / b >= 1
  {
    AtLeastDouble(v / b, b);
  }

  /** The digits of a number evaluate to it, in every base. */
  lemma {:induction false} DigitsValue(v: nat, b: nat)
    requires 2 <= b <= 36
    ensures Value(Digits(v, b), b) == v
    decreases v
  {
    var ds := Digits(v, b);
    if v < b {
      assert ds[..0] == [];
      assert Value([], b) * b == 0;
    } else {
      Smaller(v, b);
      DigitsValue(v / b, b);
      assert ds[..|ds| - 1] == Digits(v / b, b);
    }
  }

  /** No leading zero, except for zero itself. */
  lemma {:induction false} NoLeadingZero(v: nat, b: nat)
    requires 2 <= b <= 36
    ensures Digits(v, b)[0] == 48 <==> v == 0
    decreases v
  {
    if v >= b {
      Smaller(v, b);
      NoLeadingZero(v / b, b);
    }
  }

  function Pow2(n: nat): (p: nat)
    ensures p >= 1
  {
    if n == 0 then 1 else 2 * Pow2(n - 1)
  }

  /** A number below 2^n has at most n digits. */
  lemma {:induction false} DigitCount(v: nat, b: nat, n: nat)
    requires 2 <= b <= 36 && n >= 1 && v < Pow2(n)
    ensures |Digits(v, b)| <= n
    decreases n
  {
    assert Pow2(n) == 2 * Pow2(n - 1);
    if v >= b {
      Smaller(v, b);
      DigitCount(v / b, b, n - 1);
    }
  }

  lemma AtMost32(v: u32, b: nat)
    requires 2 <= b <= 36
    ensures |Digits(v, b)| <= 32
  {
    assert Pow2(8) == 0x100;
    assert Pow2(16) == 0x1_0000 by { assert Pow2(12) == 0x1000; }
    assert Pow2(24) == 0x100_0000 by { assert Pow2(20) == 0x10_0000; }
    assert Pow2(32) == 0x1_0000_0000 by { assert Pow2(28) == 0x1000_0000; }
    DigitCount(v, b, 32);
  }

  /** Only digits and lower-case letters occur, so never a NUL. */
  lemma {:induction false} DigitsPrintable(v: nat, b: nat)
    requires 2 <= b <= 36
    ensures forall i :: 0 <= i < |Digits(v, b)| ==> 48 <= Digits(v, b)[i] <= 57 || 97 <= Digits(v, b)[i] <= 122
    decreases v
  {
    if v >= b {
      Smaller(v, b);
      DigitsPrintable(v / b, b);
    }
  }

  // ----- The order in which the loops produce digits

  /** Least significant digit first. */
  function LowFirst(v: nat, b: nat): (ds: seq<u8>)
    requires 2 <= b <= 36
    decreases v
  {
    if v == 0 then [] else Smaller(v, b); [DigitChar(v % b)] + LowFirst(v / b, b)
  }

  lemma LowFirstEnds(b: nat)
    requires 2 <= b <= 36
    ensures LowFirst(0, b) == []
  {
  }

  lemma LowFirstStep(v: nat, b: nat)
    requires 2 <= b <= 36 && v > 0
    ensures v % b < b && 0 <= v / b < v && LowFirst(v, b) == [DigitChar(v % b)] + LowFirst(v / b, b)
  {
    Smaller(v, b);
  }

  function Reversed(s: seq<u8>): (r: seq<u8>)
    ensures |r| == |s| && forall i :: 0 <= i < |s| ==> r[i] == s[|s| - 1 - i]
  {
    seq(|s|, i requires 0 <= i < |s| => s[|s| - 1 - i])
  }

  lemma {:induction false} ReversedLowFirst(v: nat, b: nat)
    requires 2 <= b <= 36 && v > 0
    ensures |LowFirst(v, b)| == |Digits(v, b)| && Reversed(LowFirst(v, b)) == Digits(v, b)
    decreases v
  {
    Smaller(v, b);
    var low := LowFirst(v, b);
    if v < b {
      assert LowFirst(v / b, b) == [];
    } else {
      ReversedLowFirst(v / b, b);
      assert Reversed(low) == Reversed(LowFirst(v / b, b)) + [low[0]];
    }
  }

  // ----- The library routines

  /** The text of `s` with its NUL, at the start of the buffer. */
  ghost predicate HoldsText(str: array<u8>, s: seq<u8>)
    reads str
  {
    |s| < str.Length && str[..|s|] == s && str[|s|] == 0
  }

  /** Swaps from both ends towards the middle. */
  method Reverse(str: array<u8>, len: nat)
    requires len <= str.Length
    modifies str
    ensures str[..len] == Reversed(old(str[..len]))
    ensures forall i :: len <= i < str.Length ==> str[i] == old(str[i])
  {
    var start, end := 0, len - 1;
    while start < end
      invariant 0 <= start && start + end == len - 1 && end >= -1
      invariant start <= end + 2
      invariant forall i :: 0 <= i < start || end < i < len ==> str[i] == old(str[len - 1 - i])
      invariant forall i :: start <= i <= end ==> str[i] == old(str[i])
      invariant forall i :: len <= i < str.Length ==> str[i] == old(str[i])
    {
      var tmp := str[start];
      str[start] := str[end];
      str[end] := tmp;
      start := start + 1;
      end := end - 1;
    }
    assert forall i :: 0 <= i < len ==> str[i] == old(str[len - 1 - i]);
  }

  method Utoa(value: u32, str: array<u8>, base: nat)
    requires 2 <= base <= 36 && str.Length > |Digits(value, base)|
    modifies str
    ensures HoldsText(str, Digits(value, base))
    ensures forall i :: |Digits(value, base)| < i < str.Length ==> str[i] == old(str[i])
  {
    if value == 0 {
      str[0] := 48;
      str[1] := 0;
      assert str[..1] == [48];
      return;
    }
    ReversedLowFirst(value, base);
    var i := EmitDigits(value, str, base);
    str[i] := 0;
    Reverse(str, i);
  }

  /** The digit loop: least significant digit first. */
  method EmitDigits(value: u32, str: array<u8>, base: nat) returns (i: nat)
    requires 2 <= base <= 36 && str.Length > |LowFirst(value, base)|
    modifies str
    ensures i == |LowFirst(value, base)| && str[..i] == LowFirst(value, base)
    ensures forall k :: i <= k < str.Length ==> str[k] == old(str[k])
  {
    hide LowFirst;
    i := 0;
    var v: nat := value;
    while v != 0
      invariant 0 <= i <= str.Length && LowFirst(value, base) == str[..i] + LowFirst(v, base)
      invariant forall k :: i <= k < str.Length ==> str[k] == old(str[k])
      decreases v
    {
      LowFirstStep(v, base);
      var rem := v % base;
      ghost var done, rest := str[..i], LowFirst(v / base, base);
      str[i] := if rem > 9 then (rem - 10) + 97 else rem + 48;
      assert str[..i + 1] == done + [DigitChar(rem)];
      assert done + ([DigitChar(rem)] + rest) == done + [DigitChar(rem)] + rest;
      i := i + 1;
      v := v / base;
    }
    LowFirstEnds(base);
  }

  /** The digit characters uitoa looks up. */
  const TABLE: seq<u8> := [48, 49, 50, 51, 52, 53, 54, 55, 56, 57, 97, 98, 99, 100, 101, 102]

  /** The kernel's version: the remainder from a product, the character from a table; the text is the same as utoa's. */
  method Uitoa(value: u32, str: array<u8>, base: nat)
    requires 2 <= base <= 16 && str.Length > |Digits(value, base)|
    modifies str
    ensures HoldsText(str, Digits(value, base))
    ensures forall i :: |Digits(value, base)| < i < str.Length ==> str[i] == old(str[i])
  {
    if value == 0 {
      str[0] := 48;
      str[1] := 0;
      assert str[..1] == [48];
      return;
    }
    ReversedLowFirst(value, base);
    var ptr := LookUpDigits(value, str, base);
    str[ptr] := 0;
    Reverse(str, ptr);
  }

  method LookUpDigits(value: u32, str: array<u8>, base: nat) returns (ptr: nat)
    requires 2 <= base <= 16 && value > 0 && str.Length > |LowFirst(value, base)|
    modifies str
    ensures ptr == |LowFirst(value, base)| && str[..ptr] == LowFirst(value, base)
    ensures forall k :: ptr <= k < str.Length ==> str[k] == old(str[k])
  {
    hide LowFirst;
    ptr := 0;
    var v: nat := value;
    while true
      invariant v > 0 && 0 <= ptr <= str.Length && LowFirst(value, base) == str[..ptr] + LowFirst(v, base)
      invariant forall k :: ptr <= k < str.Length ==> str[k] == old(str[k])
      decreases v
    {
      LowFirstStep(v, base);
      Smaller(v, base);
      var tmp := v;
      v := v / base;
      ghost var done, rest := str[..ptr], LowFirst(v, base);
      str[ptr] := TABLE[tmp - v * base];
      assert str[..ptr + 1] == done + [DigitChar(tmp % base)];
      assert done + ([DigitChar(tmp % base)] + rest) == done + [DigitChar(tmp % base)] + rest;
      ptr := ptr + 1;
      if v == 0 {
        break;
      }
    }
    LowFirstEnds(base);
  }
}

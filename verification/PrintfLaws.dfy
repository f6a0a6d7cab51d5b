/**
 Laws of rendering that do not mention how a format is scanned: formats put one
 after the other, and directives written out from their parts.
 */
module PrintfLaws {
  import opened Machine
  import opened NumText
  import opened PrintfSpec

  // ----- Formats in sequence

  /** How many arguments the text from `i` on calls for: its conversions d i u x X o c s p. */
  function Conversions(f: seq<u8>, i: nat): (n: nat)
    decreases |f| - i
  {
    if i >= |f| then 0
    else if f[i] != 37 then Conversions(f, i + 1)
    else if i + 1 >= |f| then 0
    else
      (if At(f, SpecAt(f, i + 1)) in {100, 105, 117, 120, 88, 111, 99, 115, 112} then 1 else 0) + Conversions(f, SpecAt(f, i + 1) + 1)
  }

  /** Every % starts a directive that ends within the format. */
  predicate Whole(f: seq<u8>, i: nat)
    decreases |f| - i
  {
    if i >= |f| then true
    else if f[i] != 37 then Whole(f, i + 1)
    else SpecAt(f, i + 1) < |f| && Whole(f, SpecAt(f, i + 1) + 1)
  }

  function Take(args: seq<Arg>, n: nat): (r: seq<Arg>) {
    if n <= |args| then args[..n] else args
  }

  function Drop(args: seq<Arg>, n: nat): (r: seq<Arg>) {
    if n <= |args| then args[n..] else []
  }

  /**
   Two formats in sequence render one after the other, and the second starts with
   the argument after those the first has called for.
   */
  lemma RenderInSequence(f1: seq<u8>, f2: seq<u8>, args: seq<Arg>)
    requires Whole(f1, 0)
    ensures var n := Conversions(f1, 0);
            Render(f1 + f2, 0, args, 0) == Render(f1, 0, Take(args, n), 0) + Render(f2, 0, Drop(args, n), 0)
  {
    hide Render, Conversions, Whole;
    var n := Conversions(f1, 0);
    FirstThenRest(f1, f2, 0, args, 0);
    RenderShifted(f1, f2, 0, args, n);
    ReadsOnly(f1, 0, args, n, 0);
    ArgumentsDropped(f2, 0, args, n, 0);
  }

  lemma RenderStep(f: seq<u8>, i: nat, args: seq<Arg>, k: nat)
    requires i < |f| && Whole(f, i)
    ensures f[i] != 37 ==>
              && Render(f, i, args, k) == [f[i]] + Render(f, i + 1, args, k)
              && Whole(f, i + 1) && Conversions(f, i) == Conversions(f, i + 1)
    ensures f[i] == 37 ==>
              && SpecAt(f, i + 1) < |f| && Whole(f, SpecAt(f, i + 1) + 1)
              && Render(f, i, args, k) == Output(f, i + 1, ArgAt(args, k)) + Render(f, SpecAt(f, i + 1) + 1, args, k + Taken(f, i + 1))
              && Conversions(f, i) == Conversions(f, SpecAt(f, i + 1) + 1)
                                      + if At(f, SpecAt(f, i + 1)) in {100, 105, 117, 120, 88, 111, 99, 115, 112} then 1 else 0
  {
    hide SpecAt, Output, Taken;
  }

  lemma RenderLonger(f: seq<u8>, g: seq<u8>, i: nat, args: seq<Arg>, k: nat)
    requires f <= g && i < |f| && Whole(f, i)
    ensures f[i] != 37 ==> Render(g, i, args, k) == [f[i]] + Render(g, i + 1, args, k)
    ensures f[i] == 37 ==>
              && SpecAt(f, i + 1) < |f|
              && Render(g, i, args, k) == Output(f, i + 1, ArgAt(args, k)) + Render(g, SpecAt(f, i + 1) + 1, args, k + Taken(f, i + 1))
  {
    hide SpecAt, Output, Taken;
    if f[i] == 37 {
      SameOutput(f, g, i + 1, ArgAt(args, k));
    }
  }

  lemma {:induction false} FirstThenRest(f1: seq<u8>, f2: seq<u8>, i: nat, args: seq<Arg>, k: nat)
    requires i <= |f1| && Whole(f1, i)
    ensures Render(f1 + f2, i, args, k) == Render(f1, i, args, k) + Render(f1 + f2, |f1|, args, k + Conversions(f1, i))
    decreases |f1| - i
  {
    hide SpecAt, Output, Taken, Render, Conversions, Whole;
    if i == |f1| {
      RenderEnd(f1, args, k);
    } else {
      var g := f1 + f2;
      RenderStep(f1, i, args, k);
      RenderLonger(f1, g, i, args, k);
      var rest := Render(g, |f1|, args, k + Conversions(f1, i));
      if f1[i] != 37 {
        FirstThenRest(f1, f2, i + 1, args, k);
        Associate([f1[i]], Render(f1, i + 1, args, k), rest);
      } else {
        var j, l := SpecAt(f1, i + 1) + 1, k + Taken(f1, i + 1);
        SameOutput(f1, g, i + 1, ArgAt(args, k));
        FirstThenRest(f1, f2, j, args, l);
        Associate(Output(f1, i + 1, ArgAt(args, k)), Render(f1, j, args, l), rest);
      }
    }
  }

  lemma RenderEnd(f: seq<u8>, args: seq<Arg>, k: nat)
    ensures Render(f, |f|, args, k) == [] && Conversions(f, |f|) == 0
  {
  }

  lemma Associate(a: seq<u8>, b: seq<u8>, c: seq<u8>)
    ensures a + (b + c) == (a + b) + c
  {
  }

  /** Only the arguments called for are read. */
  lemma {:induction false} ReadsOnly(f: seq<u8>, i: nat, args: seq<Arg>, n: nat, k: nat)
    requires k + Conversions(f, i) <= n
    ensures Render(f, i, args, k) == Render(f, i, Take(args, n), k)
    decreases |f| - i
  {
    hide SpecAt, Field, Convert;
    if i < |f| {
      if f[i] != 37 {
        ReadsOnly(f, i + 1, args, n, k);
      } else if i + 1 < |f| {
        ReadsOnly(f, SpecAt(f, i + 1) + 1, args, n, k + Taken(f, i + 1));
      }
    }
  }

  lemma {:induction false} ArgumentsDropped(f: seq<u8>, i: nat, args: seq<Arg>, n: nat, k: nat)
    ensures Render(f, i, args, n + k) == Render(f, i, Drop(args, n), k)
    decreases |f| - i
  {
    hide SpecAt, Output, Taken;
    assert ArgAt(args, n + k) == ArgAt(Drop(args, n), k);
    if i < |f| {
      if f[i] != 37 {
        ArgumentsDropped(f, i + 1, args, n, k);
      } else if i + 1 < |f| {
        ArgumentsDropped(f, SpecAt(f, i + 1) + 1, args, n, k + Taken(f, i + 1));
      }
    }
  }

  // ----- A directive depends on its own text

  lemma {:induction false} SameFlags(f: seq<u8>, g: seq<u8>, i: nat)
    requires f <= g && FlagsEnd(f, i) < |f|
    ensures FlagsEnd(g, i) == FlagsEnd(f, i)
    decreases |f| - i
  {
    if i < |f| && (f[i] == MINUS || f[i] == ZERO) {
      SameFlags(f, g, i + 1);
    }
  }

  lemma {:induction false} SameDigits(f: seq<u8>, g: seq<u8>, i: nat)
    requires f <= g && NumberEnd(f, i) < |f|
    ensures NumberEnd(g, i) == NumberEnd(f, i)
    decreases |f| - i
  {
    if i < |f| && IsDigit(f[i]) {
      SameDigits(f, g, i + 1);
    }
  }

  lemma {:induction false} SameNumber(f: seq<u8>, g: seq<u8>, i: nat, e: nat)
    requires f <= g && e <= |f|
    ensures Number(g, i, e) == Number(f, i, e)
    decreases e
  {
    if i < e {
      SameNumber(f, g, i, e - 1);
    }
  }

  lemma SameDirective(f: seq<u8>, g: seq<u8>, i: nat)
    requires f <= g && SpecAt(f, i) < |f|
    ensures SpecAt(g, i) == SpecAt(f, i) && Parse(g, i) == Parse(f, i)
  {
    hide FlagsEnd, NumberEnd, Number;
    var a := FlagsEnd(f, i);
    var w := NumberEnd(f, a);
    SameFlags(f, g, i);
    SameDigits(f, g, a);
    SameNumber(f, g, a, w);
    assert forall c: u8 :: HasFlag(g, i, a, c) <==> HasFlag(f, i, a, c);
    if At(f, w) == DOT {
      SameDigits(f, g, w + 1);
      SameNumber(f, g, w + 1, NumberEnd(f, w + 1));
    }
  }

  lemma SameOutput(f: seq<u8>, g: seq<u8>, i: nat, a: Arg)
    requires f <= g && SpecAt(f, i) < |f|
    ensures SpecAt(g, i) == SpecAt(f, i) && Output(g, i, a) == Output(f, i, a)
    ensures Taken(g, i) == Taken(f, i) == if At(f, SpecAt(f, i)) in {100, 105, 117, 120, 88, 111, 99, 115, 112} then 1 else 0
  {
    hide Field, Convert;
    SameDirective(f, g, i);
  }

  lemma {:induction false} FlagsShifted(p: seq<u8>, f: seq<u8>, i: nat)
    ensures FlagsEnd(p + f, |p| + i) == |p| + FlagsEnd(f, i)
    decreases |f| - i
  {
    if i < |f| {
      FlagsShifted(p, f, i + 1);
    }
  }

  lemma {:induction false} DigitsShifted(p: seq<u8>, f: seq<u8>, i: nat)
    ensures NumberEnd(p + f, |p| + i) == |p| + NumberEnd(f, i)
    decreases |f| - i
  {
    if i < |f| {
      DigitsShifted(p, f, i + 1);
    }
  }

  lemma {:induction false} NumberShifted(p: seq<u8>, f: seq<u8>, i: nat, e: nat)
    ensures Number(p + f, |p| + i, |p| + e) == Number(f, i, e)
    decreases e
  {
    if i < e <= |f| {
      NumberShifted(p, f, i, e - 1);
    }
  }

  lemma FlagShifted(p: seq<u8>, f: seq<u8>, i: nat, e: nat, c: u8)
    ensures HasFlag(p + f, |p| + i, |p| + e, c) <==> HasFlag(f, i, e, c)
  {
    if HasFlag(f, i, e, c) {
      var j :| i <= j < e && j < |f| && f[j] == c;
      assert (p + f)[|p| + j] == c;
    }
    if HasFlag(p + f, |p| + i, |p| + e, c) {
      var j :| |p| + i <= j < |p| + e && j < |p + f| && (p + f)[j] == c;
      assert f[j - |p|] == c;
    }
  }

  lemma DirectiveShifted(p: seq<u8>, f: seq<u8>, i: nat)
    ensures SpecAt(p + f, |p| + i) == |p| + SpecAt(f, i) && Parse(p + f, |p| + i) == Parse(f, i)
  {
    hide FlagsEnd, NumberEnd, Number, HasFlag;
    var a := FlagsEnd(f, i);
    var w := NumberEnd(f, a);
    FlagsShifted(p, f, i);
    DigitsShifted(p, f, a);
    NumberShifted(p, f, a, w);
    FlagShifted(p, f, i, a, MINUS);
    FlagShifted(p, f, i, a, ZERO);
    DigitsShifted(p, f, w + 1);
    NumberShifted(p, f, w + 1, NumberEnd(f, w + 1));
  }

  lemma OutputShifted(p: seq<u8>, f: seq<u8>, i: nat, a: Arg)
    ensures SpecAt(p + f, |p| + i) == |p| + SpecAt(f, i) && Taken(p + f, |p| + i) == Taken(f, i)
    ensures Output(p + f, |p| + i, a) == Output(f, i, a)
  {
    hide Field, Convert;
    DirectiveShifted(p, f, i);
  }

  lemma {:induction false} RenderShifted(p: seq<u8>, f: seq<u8>, i: nat, args: seq<Arg>, k: nat)
    ensures Render(p + f, |p| + i, args, k) == Render(f, i, args, k)
    decreases |f| - i
  {
    hide SpecAt, Output, Taken;
    if i < |f| {
      if f[i] != 37 {
        RenderShifted(p, f, i + 1, args, k);
      } else if i + 1 < |f| {
        OutputShifted(p, f, i + 1, ArgAt(args, k));
        RenderShifted(p, f, SpecAt(f, i + 1) + 1, args, k + Taken(f, i + 1));
      }
    }
  }

  // ----- Directives written out

  function Decimal(n: nat): (ds: seq<u8>) {
    Digits(n, 10)
  }

  function Flags(left: bool, zero: bool): (s: seq<u8>) {
    (if left then [45] else []) + (if zero then [48] else [])
  }

  function WidthText(width: nat): (s: seq<u8>) {
    if width == 0 then [] else Decimal(width)
  }

  /** A negative precision stands for none. */
  function PrecisionText(prec: int): (s: seq<u8>) {
    if prec < 0 then [] else [46] + Decimal(prec)
  }

  /** The directive with these flags, this width and precision, the modifier l or not, and this conversion. */
  function DirectiveText(left: bool, zero: bool, width: nat, prec: int, long: bool, spec: u8): (f: seq<u8>) {
    [37] + Flags(left, zero) + WidthText(width) + PrecisionText(prec) + (if long then [108] else []) + [spec]
  }

  /** A character that can only be a conversion: no flag, digit, dot or l. */
  predicate OnlySpec(c: u8) {
    c != 45 && c != 46 && c != 108 && !(48 <= c <= 57)
  }

  lemma {:induction false} DecimalDigits(n: nat)
    ensures forall i :: 0 <= i < |Decimal(n)| ==> 48 <= Decimal(n)[i] <= 57
    decreases n
  {
    if n >= 10 {
      Smaller(n, 10);
      DecimalDigits(n / 10);
      assert Decimal(n) == Decimal(n / 10) + [DigitChar(n % 10)];
    }
  }

  lemma {:induction false} FlagRun(f: seq<u8>, i: nat, n: nat)
    requires i + n < |f| && (forall j :: i <= j < i + n ==> f[j] == 45 || f[j] == 48) && f[i + n] != 45 && f[i + n] != 48
    ensures FlagsEnd(f, i) == i + n
    decreases n
  {
    if n > 0 {
      FlagRun(f, i + 1, n - 1);
    }
  }

  lemma {:induction false} DigitRun(f: seq<u8>, i: nat, n: nat)
    requires i + n < |f| && (forall j :: i <= j < i + n ==> 48 <= f[j] <= 57) && !(48 <= f[i + n] <= 57)
    ensures NumberEnd(f, i) == i + n
    decreases n
  {
    if n > 0 {
      DigitRun(f, i + 1, n - 1);
    }
  }

  /** A run of decimal digits reads as their value. */
  lemma {:induction false} NumberIsValue(f: seq<u8>, i: nat, e: nat)
    requires i <= e <= |f| && forall j :: i <= j < e ==> 48 <= f[j] <= 57
    ensures Number(f, i, e) == Value(f[i..e], 10)
    decreases e
  {
    if i < e {
      NumberIsValue(f, i, e - 1);
      assert f[i..e][..e - i - 1] == f[i..e - 1];
    }
  }

  /** The number written in decimal at `i` is read back, up to the character that follows it. */
  lemma ReadsDecimal(f: seq<u8>, i: nat, n: nat)
    requires i + |Decimal(n)| < |f| && f[i..i + |Decimal(n)|] == Decimal(n) && !(48 <= f[i + |Decimal(n)|] <= 57)
    ensures NumberEnd(f, i) == i + |Decimal(n)| && Number(f, i, i + |Decimal(n)|) == n
  {
    hide Digits, NumberEnd, Number, Value;
    var e := i + |Decimal(n)|;
    DecimalDigits(n);
    forall j | i <= j < e ensures 48 <= f[j] <= 57 {
      assert f[j] == f[i..e][j - i];
    }
    DigitRun(f, i, e - i);
    NumberIsValue(f, i, e);
    DigitsValue(n, 10);
  }

  /** Where the parts of a directive lie. */
  lemma Parts(left: bool, zero: bool, width: nat, prec: int, long: bool, spec: u8)
    ensures var f := DirectiveText(left, zero, width, prec, long, spec);
            var a := 1 + |Flags(left, zero)|;
            var w := a + |WidthText(width)|;
            var p := w + |PrecisionText(prec)|;
            var q := if long then p + 1 else p;
            && |f| == q + 1 && f[0] == 37 && f[q] == spec && (long ==> f[p] == 108)
            && f[1..a] == Flags(left, zero) && f[a..w] == WidthText(width) && f[w..p] == PrecisionText(prec)
  {
    hide Flags, WidthText, PrecisionText;
    var x, y, z := Flags(left, zero), WidthText(width), PrecisionText(prec);
    var end := (if long then [108] else []) + [spec];
    var f := DirectiveText(left, zero, width, prec, long, spec);
    assert f == [37] + x + y + z + end;
    assert ([37] + x + y + z + end)[1..1 + |x|] == x;
  }

  /** Width and what follows it are read back. */
  lemma WidthRead(f: seq<u8>, a: nat, w: nat, width: nat)
    requires a <= w < |f| && f[a..w] == WidthText(width) && !(48 <= f[w] <= 57)
    ensures NumberEnd(f, a) == w && Number(f, a, w) == width && (width > 0 ==> 49 <= f[a] <= 57)
  {
    if width > 0 {
      ReadsDecimal(f, a, width);
      DecimalDigits(width);
      NoLeadingZero(width, 10);
      assert f[a] == f[a..w][0];
    }
  }

  lemma FlagsRead(f: seq<u8>, a: nat, left: bool, zero: bool)
    requires 1 <= a < |f| && f[1..a] == Flags(left, zero) && f[a] != 45 && f[a] != 48
    ensures FlagsEnd(f, 1) == a && (HasFlag(f, 1, a, 45) <==> left) && (HasFlag(f, 1, a, 48) <==> zero)
  {
    forall j | 1 <= j < a ensures f[j] == Flags(left, zero)[j - 1] {
      assert f[j] == f[1..a][j - 1];
    }
    FlagRun(f, 1, a - 1);
    if left {
      assert f[1] == 45;
    }
    if zero {
      assert f[a - 1] == 48;
    }
  }

  lemma PrecisionRead(f: seq<u8>, w: nat, p: nat, prec: int)
    requires w <= p < |f| && f[w..p] == PrecisionText(prec) && f[p] != 46 && !(48 <= f[p] <= 57)
    ensures (At(f, w) == 46 <==> prec >= 0) && PrecisionEnd(f, w) == p
    ensures prec >= 0 ==> NumberEnd(f, w + 1) == p && Number(f, w + 1, p) == prec
    ensures !(48 <= f[w] <= 57) && f[w] != 45
    requires f[p] != 45
  {
    if prec >= 0 {
      assert f[w] == f[w..p][0];
      assert f[w + 1..p] == f[w..p][1..] == Decimal(prec);
      ReadsDecimal(f, w + 1, prec);
    }
  }

  /** A directive is read as it was written. */
  lemma ParsesDirective(left: bool, zero: bool, width: nat, prec: int, long: bool, spec: u8)
    requires OnlySpec(spec)
    ensures var f := DirectiveText(left, zero, width, prec, long, spec);
            && SpecAt(f, 1) == |f| - 1
            && Parse(f, 1) == Directive(left, zero && !left, width, prec >= 0, if prec >= 0 then prec else 0, spec)
  {
    hide DirectiveText, Flags, WidthText, PrecisionText, FlagsEnd, NumberEnd, Number, HasFlag;
    var f := DirectiveText(left, zero, width, prec, long, spec);
    var a := 1 + |Flags(left, zero)|;
    var w := a + |WidthText(width)|;
    var p := w + |PrecisionText(prec)|;
    Parts(left, zero, width, prec, long, spec);
    PrecisionRead(f, w, p, prec);
    WidthRead(f, a, w, width);
    assert width == 0 ==> a == w by { NoWidth(width); }
    FlagsRead(f, a, left, zero);
  }

  lemma NoWidth(width: nat)
    ensures width == 0 ==> WidthText(width) == []
  {
  }

  /** A directive by itself renders to its field. */
  lemma RendersField(left: bool, zero: bool, width: nat, prec: int, long: bool, spec: u8, a: Arg)
    requires OnlySpec(spec) && spec in {100, 105, 117, 120, 88, 111, 99, 115, 112}
    ensures var d := Directive(left, zero && !left, width, prec >= 0, if prec >= 0 then prec else 0, spec);
            && Whole(DirectiveText(left, zero, width, prec, long, spec), 0)
            && Render(DirectiveText(left, zero, width, prec, long, spec), 0, [a], 0) == Field(d, Convert(d, a))
  {
    hide Field, Convert, Parse, SpecAt, Flags, WidthText, PrecisionText;
    var f := DirectiveText(left, zero, width, prec, long, spec);
    ParsesDirective(left, zero, width, prec, long, spec);
    assert f[0] == 37 && |f| >= 2;
    assert Render(f, |f|, [a], 1) == [];
  }

  /** The text `core` moved to the right by blanks, or to the left, in a field of `width`. */
  function Aligned(core: seq<u8>, width: nat, left: bool): (s: seq<u8>)
    ensures |s| == if width > |core| then width else |core|
    ensures forall i :: 0 <= i < |s| ==>
              s[i] == if left then (if i < |core| then core[i] else 32)
                      else if i < |s| - |core| then 32 else core[i - (|s| - |core|)]
  {
    var pad := Repeat(32, if width > |core| then width - |core| else 0);
    if left then core + pad else pad + core
  }

  /** A string conversion: the string, cut to the precision if there is one, in its field. */
  lemma StringDirective(s: seq<u8>, width: nat, prec: int, left: bool, long: bool)
    ensures Render(DirectiveText(left, false, width, prec, long, 115), 0, [Text(s)], 0) ==
              Aligned(if 0 <= prec < |s| then s[..prec] else s, width, left)
  {
    RendersField(left, false, width, prec, long, 115, Text(s));
    var d := Directive(left, false, width, prec >= 0, if prec >= 0 then prec else 0, 115);
    FieldPlain(d, Convert(d, Text(s)));
  }

  lemma FieldPlain(d: Directive, c: Conversion)
    requires !c.negative && ZeroPrefix(d, c) == 0 && (d.left || !d.zero)
    ensures Field(d, c) == Aligned(c.payload, d.width, d.left)
  {
    assert Core(d, c) == c.payload;
  }

  lemma ShortText(spec: u8)
    ensures DirectiveText(false, false, 0, -1, false, spec) == [37, spec]
  {
  }

  /** "%s" puts out its string, and "(null)" for a null pointer. */
  lemma PlainString(s: seq<u8>)
    ensures Render([37, 115], 0, [Text(s)], 0) == s
    ensures Render([37, 115], 0, [NullText], 0) == [40, 110, 117, 108, 108, 41]
  {
    hide Render, DirectiveText;
    ShortText(115);
    StringDirective(s, 0, -1, false, false);
    assert Aligned(s, 0, false) == s;
    RendersField(false, false, 0, -1, false, 115, NullText);
    var d := Directive(false, false, 0, false, 0, 115);
    FieldPlain(d, Convert(d, NullText));
    assert Aligned(TextOf(NullText), 0, false) == TextOf(NullText);
  }

  /** "%c" puts out the low byte of its argument. */
  lemma PlainChar(v: u32)
    ensures Render([37, 99], 0, [Num(v)], 0) == [v % 256]
  {
    hide Render, DirectiveText;
    ShortText(99);
    RendersField(false, false, 0, -1, false, 99, Num(v));
    var d := Directive(false, false, 0, false, 0, 99);
    FieldPlain(d, Convert(d, Num(v)));
    assert Aligned([v % 256], 0, false) == [v % 256];
  }

  /** Any other directive puts out a % and its conversion character. */
  lemma OtherDirective(left: bool, zero: bool, width: nat, prec: int, long: bool, spec: u8, args: seq<Arg>)
    requires OnlySpec(spec) && spec !in {100, 105, 117, 120, 88, 111, 99, 115, 112} && spec != 37
    ensures Render(DirectiveText(left, zero, width, prec, long, spec), 0, args, 0) == [37, spec]
  {
    hide Parse, SpecAt, Flags, WidthText, PrecisionText;
    var f := DirectiveText(left, zero, width, prec, long, spec);
    ParsesDirective(left, zero, width, prec, long, spec);
    assert f[0] == 37 && |f| >= 2;
    assert Render(f, |f|, args, 0) == [];
  }

  /** "%%" puts out one %. */
  lemma PlainPercent(args: seq<Arg>)
    ensures Render([37, 37], 0, args, 0) == [37]
  {
    var f: seq<u8> := [37, 37];
    assert FlagsEnd(f, 1) == 1 && NumberEnd(f, 1) == 1 && SpecAt(f, 1) == 1;
    assert Render(f, 2, args, 0) == [];
  }

  /**
   A signed conversion: sign and decimal digits, moved to the right by blanks, to
   the left, or filled with zeros between sign and digits.
   */
  lemma SignedDirective(v: u32, width: nat, zero: bool, left: bool, long: bool, spec: u8)
    requires spec in {100, 105}
    ensures var x := if v >= 0x8000_0000 then v - 0x1_0000_0000 else v;
            var sign := if x < 0 then [45] else [];
            var ds := Decimal(if x < 0 then -x else x);
            var n := |sign| + |ds|;
            Render(DirectiveText(left, zero, width, -1, long, spec), 0, [Num(v)], 0) ==
              if zero && !left then sign + Repeat(48, if width > n then width - n else 0) + ds else Aligned(sign + ds, width, left)
  {
    hide Digits, Render, DirectiveText, Field, Decimal, Aligned;
    RendersField(left, zero, width, -1, long, spec, Num(v));
    SignedField(Directive(left, zero && !left, width, false, 0, spec), v);
  }

  lemma SignedField(d: Directive, v: u32)
    requires d.spec in {100, 105} && !d.hasPrec && (d.left ==> !d.zero)
    ensures var x := if v >= 0x8000_0000 then v - 0x1_0000_0000 else v;
            var sign := if x < 0 then [45] else [];
            var ds := Decimal(if x < 0 then -x else x);
            var n := |sign| + |ds|;
            Field(d, Convert(d, Num(v))) ==
              if d.zero then sign + Repeat(48, if d.width > n then d.width - n else 0) + ds else Aligned(sign + ds, d.width, d.left)
  {
    hide Digits;
    var c := Convert(d, Num(v));
    assert Repeat(ZERO, 0) == [];
    assert Core(d, c) == Sign(c) + c.payload;
  }

  /** An unsigned conversion by itself: the number in its base, without leading zeros, upper case for X. */
  lemma UnsignedDirective(v: u32, long: bool, spec: u8)
    requires spec in {117, 120, 88, 111}
    ensures var b := if spec == 117 then 10 else if spec == 111 then 8 else 16;
            var r := Render(DirectiveText(false, false, 0, -1, long, spec), 0, [Num(v)], 0);
            && r != [] && Value(r, b) == v && (r[0] == 48 <==> v == 0)
            && forall i :: 0 <= i < |r| ==> 48 <= r[i] <= 57 || (spec == 88 && 65 <= r[i] <= 70) || (spec == 120 && 97 <= r[i] <= 102)
  {
    hide Value, Render, DirectiveText, Field, Convert;
    RendersField(false, false, 0, -1, long, spec, Num(v));
    UnsignedField(Directive(false, false, 0, false, 0, spec), v);
  }

  lemma UnsignedField(d: Directive, v: u32)
    requires d.spec in {117, 120, 88, 111} && !d.hasPrec && d.width == 0 && !d.left && !d.zero
    ensures var b := if d.spec == 117 then 10 else if d.spec == 111 then 8 else 16;
            var r := Field(d, Convert(d, Num(v)));
            && r != [] && Value(r, b) == v && (r[0] == 48 <==> v == 0)
            && forall i :: 0 <= i < |r| ==> 48 <= r[i] <= 57 || (d.spec == 88 && 65 <= r[i] <= 70) || (d.spec == 120 && 97 <= r[i] <= 102)
  {
    hide Digits, Value, Field, Convert;
    var b := if d.spec == 117 then 10 else if d.spec == 111 then 8 else 16;
    UnsignedPayload(d, v);
    DigitsValue(v, b);
    NoLeadingZero(v, b);
    DigitRange(v, b);
    if d.spec == 88 {
      UpperValue(Digits(v, 16), 16);
    }
  }

  lemma UnsignedPayload(d: Directive, v: u32)
    requires d.spec in {117, 120, 88, 111} && !d.hasPrec && d.width == 0 && !d.left && !d.zero
    ensures var b := if d.spec == 117 then 10 else if d.spec == 111 then 8 else 16;
            Field(d, Convert(d, Num(v))) == if d.spec == 88 then Upper(Digits(v, 16)) else Digits(v, b)
  {
    hide Digits, Upper;
    var c := Convert(d, Num(v));
    FieldPlain(d, c);
    assert Aligned(c.payload, 0, false) == c.payload;
  }

  lemma {:induction false} DigitRange(v: nat, b: nat)
    requires b == 8 || b == 10 || b == 16
    ensures forall i :: 0 <= i < |Digits(v, b)| ==>
              48 <= Digits(v, b)[i] <= 57 || (b == 16 && 97 <= Digits(v, b)[i] <= 102)
    decreases v
  {
    if v >= b {
      Smaller(v, b);
      DigitRange(v / b, b);
      assert Digits(v, b) == Digits(v / b, b) + [DigitChar(v % b)];
    }
  }

  /** A pointer: 0x and the hexadecimal digits. */
  lemma PointerDirective(v: u32)
    ensures Render([37, 112], 0, [Num(v)], 0) == [48, 120] + Digits(v, 16)
  {
    hide Digits, Render, DirectiveText;
    ShortText(112);
    RendersField(false, false, 0, -1, false, 112, Num(v));
    var d := Directive(false, false, 0, false, 0, 112);
    var c := Convert(d, Num(v));
    FieldPlain(d, c);
    assert Aligned(c.payload, 0, false) == c.payload;
  }

  /** Zeros in front of a number up to its precision. */
  lemma PrecisionZeros(v: u32, prec: nat, long: bool, spec: u8)
    requires spec in {100, 105}
    ensures var x := if v >= 0x8000_0000 then v - 0x1_0000_0000 else v;
            var ds := Decimal(if x < 0 then -x else x);
            Render(DirectiveText(false, false, 0, prec, long, spec), 0, [Num(v)], 0) ==
              (if x < 0 then [45] else []) + Repeat(48, if prec > |ds| then prec - |ds| else 0) + ds
  {
    hide Digits, Render, DirectiveText, Field, Decimal;
    RendersField(false, false, 0, prec, long, spec, Num(v));
    PrecisionField(Directive(false, false, 0, true, prec, spec), v);
  }

  lemma PrecisionField(d: Directive, v: u32)
    requires d.spec in {100, 105} && d.hasPrec && d.width == 0 && !d.left && !d.zero
    ensures var x := if v >= 0x8000_0000 then v - 0x1_0000_0000 else v;
            var ds := Decimal(if x < 0 then -x else x);
            Field(d, Convert(d, Num(v))) == (if x < 0 then [45] else []) + Repeat(48, if d.prec > |ds| then d.prec - |ds| else 0) + ds
  {
    hide Digits;
    var c := Convert(d, Num(v));
    assert Repeat(BLANK, 0) + Core(d, c) == Core(d, c);
  }

  lemma LiteralFirst(c: u8, f: seq<u8>, args: seq<Arg>)
    requires c != 37
    ensures Render([c] + f, 0, args, 0) == [c] + Render(f, 0, args, 0)
  {
    hide SpecAt, Output;
    RenderShifted([c], f, 0, args, 0);
  }

  /** "%d %d" of 1 and 2 is "1 2". */
  lemma OneTwo()
    ensures Render([37, 100, 32, 37, 100], 0, [Num(1), Num(2)], 0) == [49, 32, 50]
  {
    hide *;
    var f: seq<u8> := [37, 100];
    var rest: seq<u8> := [32] + f;
    DigitByItself(1);
    DigitByItself(2);
    LiteralFirst(32, f, [Num(2)]);
    assert [37, 100, 32, 37, 100] == f + rest;
    RenderInSequence(f, rest, [Num(1), Num(2)]);
    FirstOfTwo(Num(1), Num(2));
  }

  lemma FirstOfTwo(a: Arg, b: Arg)
    ensures Take([a, b], 1) == [a] && Drop([a, b], 1) == [b]
  {
  }

  /** "%d" of a digit. */
  lemma DigitByItself(v: u32)
    requires v < 10
    ensures Render([37, 100], 0, [Num(v)], 0) == [v + 48] && Whole([37, 100], 0) && Conversions([37, 100], 0) == 1
  {
    var f: seq<u8> := [37, 100];
    ShortText(100);
    SignedDirective(v, 0, false, false, false, 100);
    assert Aligned([v + 48], 0, false) == [v + 48];
    hide Render;
    ParsesDirective(false, false, 0, -1, false, 100);
    hide SpecAt, Parse;
    assert Conversions(f, 2) == 0;
  }
}

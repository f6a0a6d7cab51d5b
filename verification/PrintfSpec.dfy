/**
 What a format string and its arguments render to, without any buffer.
 */
module PrintfSpec {
  import opened Machine
  import opened NumText

  const PERCENT: u8 := 37
  const MINUS: u8 := 45
  const DOT: u8 := 46
  const ZERO: u8 := 48
  const BLANK: u8 := 32

  /** The arguments: 32-bit words, and pointers to strings. */
  datatype Arg = Num(value: u32) | Text(s: seq<u8>) | NullText

  /** Past the last argument a zero is read. */
  function ArgAt(args: seq<Arg>, k: nat): (a: Arg) {
    if k < |args| then args[k] else Num(0)
  }

  function NumOf(a: Arg): (v: u32) {
    if a.Num? then a.value else 0
  }

  function TextOf(a: Arg): (s: seq<u8>) {
    match a
    case Num(_) => []
    case Text(s) => s
    case NullText => [40, 110, 117, 108, 108, 41]
  }

  /** The format character at `i`, its NUL at the end. */
  function At(f: seq<u8>, i: nat): (c: u8) {
    if i < |f| then f[i] else 0
  }

  // ----- Parsing

  predicate IsDigit(c: u8) {
    48 <= c <= 57
  }

  /** Where the run of flags from `i` on ends. */
  function FlagsEnd(f: seq<u8>, i: nat): (e: nat)
    ensures i <= e && (i <= |f| ==> e <= |f|)
    decreases |f| - i
  {
    if i < |f| && (f[i] == MINUS || f[i] == ZERO) then FlagsEnd(f, i + 1) else i
  }

  predicate HasFlag(f: seq<u8>, i: nat, e: nat, c: u8) {
    exists j :: i <= j < e && j < |f| && f[j] == c
  }

  function NumberEnd(f: seq<u8>, i: nat): (e: nat)
    ensures i <= e && (i <= |f| ==> e <= |f|)
    decreases |f| - i
  {
    if i < |f| && IsDigit(f[i]) then NumberEnd(f, i + 1) else i
  }

  /** The decimal number in `f[i..e]`. */
  function Number(f: seq<u8>, i: nat, e: nat): (n: nat)
    decreases e
  {
    if i < e <= |f| && IsDigit(f[e - 1]) then 10 * Number(f, i, e - 1) + (f[e - 1] - 48) else 0
  }

  datatype Directive = Directive(left: bool, zero: bool, width: nat, hasPrec: bool, prec: nat, spec: u8)

  function PrecisionEnd(f: seq<u8>, w: nat): (e: nat)
    ensures w <= e && (w <= |f| ==> e <= |f|)
  {
    if At(f, w) == DOT then NumberEnd(f, w + 1) else w
  }

  /** The position of the conversion character of the directive that starts at `i`. */
  function SpecAt(f: seq<u8>, i: nat): (e: nat)
    ensures i <= e && (i <= |f| ==> e <= |f|)
  {
    var p := PrecisionEnd(f, NumberEnd(f, FlagsEnd(f, i)));
    if At(f, p) == 108 then p + 1 else p
  }

  function Parse(f: seq<u8>, i: nat): (d: Directive) {
    var a := FlagsEnd(f, i);
    var w := NumberEnd(f, a);
    var left := HasFlag(f, i, a, MINUS);
    Directive(left, HasFlag(f, i, a, ZERO) && !left, Number(f, a, w), At(f, w) == DOT,
              if At(f, w) == DOT then Number(f, w + 1, NumberEnd(f, w + 1)) else 0, At(f, SpecAt(f, i)))
  }

  // ----- Conversion

  datatype Conversion = Conversion(negative: bool, number: bool, payload: seq<u8>)

  /** The conversions that take an argument: d i u x X o c s p. */
  predicate Converts(spec: u8) {
    spec in {100, 105, 117, 120, 88, 111, 99, 115, 112}
  }

  function Upper(s: seq<u8>): (r: seq<u8>)
    ensures |r| == |s| && forall i :: 0 <= i < |s| ==> r[i] == if 97 <= s[i] <= 102 then s[i] - 32 else s[i]
  {
    seq<u8>(|s|, i requires 0 <= i < |s| => if 97 <= s[i] <= 102 then s[i] - 32 else s[i])
  }

  function Base(spec: u8): (b: nat) {
    if spec == 120 || spec == 88 || spec == 112 then 16 else if spec == 111 then 8 else 10
  }

  function Clipped(s: seq<u8>, d: Directive): (r: seq<u8>) {
    if d.hasPrec && d.prec < |s| then s[..d.prec] else s
  }

  function Convert(d: Directive, a: Arg): (c: Conversion) {
    var v := NumOf(a);
    if d.spec == 100 || d.spec == 105 then
      Conversion(v >= 0x8000_0000, true, Digits(if v >= 0x8000_0000 then 0x1_0000_0000 - v else v, 10))
    else if d.spec == 88 then Conversion(false, true, Upper(Digits(v, 16)))
    else if d.spec == 99 then Conversion(false, false, [v % 256])
    else if d.spec == 115 then Conversion(false, false, Clipped(TextOf(a), d))
    else if d.spec == 112 then Conversion(false, false, [48, 120] + Digits(v, 16))
    else Conversion(false, true, Digits(v, Base(d.spec)))
  }

  function Signed(v: u32): (x: int) {
    if v >= 0x8000_0000 then v - 0x1_0000_0000 else v
  }

  /** Upper-case digits have the value of lower-case ones. */
  lemma {:induction false} UpperValue(ds: seq<u8>, b: nat)
    requires forall i :: 0 <= i < |ds| ==> 48 <= ds[i] <= 57 || 97 <= ds[i] <= 122
    ensures Value(Upper(ds), b) == Value(ds, b)
  {
    if ds != [] {
      var n := |ds| - 1;
      UpperValue(ds[..n], b);
      assert Upper(ds)[..n] == Upper(ds[..n]);
    }
  }

  /** The digits of a numeric conversion: all of the payload, but for the 0x of a pointer. */
  function NumberPart(d: Directive, c: Conversion): (ds: seq<u8>)
    requires d.spec == 112 ==> |c.payload| >= 2
  {
    if d.spec == 112 then c.payload[2..] else c.payload
  }

  /** The digits of a numeric conversion evaluate to the argument: signed for d and i, in base 8, 10 or 16 otherwise. */
  lemma ConvertValue(d: Directive, v: u32)
    requires d.spec in {100, 105, 117, 120, 88, 111, 112}
    ensures var c := Convert(d, Num(v));
            && (c.number <==> d.spec != 112) && (d.spec == 112 ==> |c.payload| >= 2 && c.payload[..2] == [48, 120])
            && |NumberPart(d, c)| <= 32
            && var x := Value(NumberPart(d, c), Base(d.spec)) as int;
            (if c.negative then 0 - x else x) == if d.spec in {100, 105} then Signed(v) else v
  {
    hide Value, Digits;
    var w: u32 := if d.spec in {100, 105} && v >= 0x8000_0000 then 0x1_0000_0000 - v else v;
    var ds := Digits(w, Base(d.spec));
    DigitsValue(w, Base(d.spec));
    AtMost32(w, Base(d.spec));
    if d.spec == 88 {
      DigitsPrintable(w, 16);
      UpperValue(ds, 16);
    } else if d.spec == 112 {
      assert ([48, 120] + ds)[2..] == ds && ([48, 120] + ds)[..2] == [48, 120];
    }
  }

  // ----- Fields

  function Repeat(c: u8, n: nat): (s: seq<u8>)
    ensures |s| == n && forall i :: 0 <= i < n ==> s[i] == c
  {
    seq<u8>(n, _ => c)
  }

  function Sign(c: Conversion): (s: seq<u8>) {
    if c.negative then [MINUS] else []
  }

  /** Zeros in front of a number to reach the precision. */
  function ZeroPrefix(d: Directive, c: Conversion): (n: nat) {
    if c.number && d.hasPrec && d.prec > |c.payload| then d.prec - |c.payload| else 0
  }

  /** Sign, zeros and payload. */
  function Core(d: Directive, c: Conversion): (s: seq<u8>) {
    Sign(c) + Repeat(ZERO, ZeroPrefix(d, c)) + c.payload
  }

  function Pad(d: Directive, c: Conversion): (n: nat) {
    if d.width > |Core(d, c)| then d.width - |Core(d, c)| else 0
  }

  /** The field padded on the left with spaces, between sign and digits with zeros, or on the right with spaces. */
  function Field(d: Directive, c: Conversion): (s: seq<u8>) {
    var n := Pad(d, c);
    if d.left then Core(d, c) + Repeat(BLANK, n)
    else if d.zero && ZeroPrefix(d, c) == 0 then Sign(c) + Repeat(ZERO, n) + c.payload
    else Repeat(BLANK, n) + Core(d, c)
  }

  /** A field is as wide as its directive asks, or as its sign, zeros and payload need. */
  lemma FieldWidth(d: Directive, c: Conversion)
    ensures var need := (if c.negative then 1 else 0) + ZeroPrefix(d, c) + |c.payload|;
            |Field(d, c)| == if d.width > need then d.width else need
  {
  }

  /** Padding surrounds the payload and changes nothing else: the field without it is sign, zeros and payload. */
  lemma FieldContents(d: Directive, c: Conversion)
    ensures d.left ==> Field(d, c)[..|Core(d, c)|] == Core(d, c)
    ensures !d.left && !(d.zero && ZeroPrefix(d, c) == 0) ==> Field(d, c)[Pad(d, c)..] == Core(d, c)
    ensures d.zero && !d.left && ZeroPrefix(d, c) == 0 ==>
              |Sign(c)| + Pad(d, c) <= |Field(d, c)| && Sign(c) + Field(d, c)[|Sign(c)| + Pad(d, c)..] == Core(d, c)
  {
    var n := Pad(d, c);
    if d.left {
      assert (Core(d, c) + Repeat(BLANK, n))[..|Core(d, c)|] == Core(d, c);
    } else if d.zero && ZeroPrefix(d, c) == 0 {
      var s := Sign(c) + Repeat(ZERO, n) + c.payload;
      assert s[|Sign(c)| + n..] == c.payload;
      assert Repeat(ZERO, 0) == [];
    } else {
      assert (Repeat(BLANK, n) + Core(d, c))[n..] == Core(d, c);
    }
  }

  // ----- The whole string

  /** What one directive at `i` (just after the %) puts out. */
  function Output(f: seq<u8>, i: nat, a: Arg): (s: seq<u8>) {
    var d := Parse(f, i);
    if Converts(d.spec) then Field(d, Convert(d, a))
    else if d.spec == PERCENT then [PERCENT]
    else [PERCENT, d.spec]
  }

  function Taken(f: seq<u8>, i: nat): (n: nat) {
    if Converts(At(f, SpecAt(f, i))) then 1 else 0
  }

  /** The rendering of the format from `i` on, with the arguments from `k` on; a lone % at the end is dropped. */
  function Render(f: seq<u8>, i: nat, args: seq<Arg>, k: nat): (s: seq<u8>)
    decreases |f| - i
  {
    if i >= |f| then []
    else if f[i] != PERCENT then [f[i]] + Render(f, i + 1, args, k)
    else if i + 1 >= |f| then []
    else Output(f, i + 1, ArgAt(args, k)) + Render(f, SpecAt(f, i + 1) + 1, args, k + Taken(f, i + 1))
  }

  /** No directive is cut short by the end of the format. */
  predicate Complete(f: seq<u8>, i: nat)
    decreases |f| - i
  {
    if i >= |f| then true
    else if f[i] != PERCENT then Complete(f, i + 1)
    else if i + 1 >= |f| then true
    else SpecAt(f, i + 1) < |f| && Complete(f, SpecAt(f, i + 1) + 1)
  }

  /** A format without directives renders to itself. */
  lemma {:induction false} LiteralRender(f: seq<u8>, i: nat, args: seq<Arg>, k: nat)
    requires i <= |f| && PERCENT !in f[i..]
    ensures Render(f, i, args, k) == f[i..] && Complete(f, i)
    decreases |f| - i
  {
    if i < |f| {
      assert f[i] in f[i..];
      assert f[i..] == [f[i]] + f[i + 1..];
      LiteralRender(f, i + 1, args, k);
    }
  }

  // ----- Where the source's integers and pointers hold out

  /** Widths, precisions and lengths are C ints. */
  const INT_LIMIT: nat := 0x8000_0000

  /** Every width and precision fits an int. */
  predicate Countable(f: seq<u8>, i: nat)
    decreases |f| - i
  {
    if i >= |f| then true
    else if f[i] != PERCENT then Countable(f, i + 1)
    else if i + 1 >= |f| then true
    else
      var d := Parse(f, i + 1);
      d.width < INT_LIMIT && d.prec < INT_LIMIT && Countable(f, SpecAt(f, i + 1) + 1)
  }

  /** "%9999999999d" is complete, but its width does not fit. */
  lemma WidthOverflows()
    ensures var f := [37, 57, 57, 57, 57, 57, 57, 57, 57, 57, 57, 100];
            Complete(f, 0) && !Countable(f, 0)
  {
    var f := [37, 57, 57, 57, 57, 57, 57, 57, 57, 57, 57, 100];
    assert FlagsEnd(f, 1) == 1;
    assert NumberEnd(f, 11) == 11;
    assert NumberEnd(f, 9) == NumberEnd(f, 10) == 11;
    assert NumberEnd(f, 7) == NumberEnd(f, 8) == 11;
    assert NumberEnd(f, 5) == NumberEnd(f, 6) == 11;
    assert NumberEnd(f, 3) == NumberEnd(f, 4) == 11;
    assert NumberEnd(f, 1) == NumberEnd(f, 2) == 11;
    assert Number(f, 1, 3) == 99;
    assert Number(f, 1, 5) == 9999;
    assert Number(f, 1, 7) == 999999;
    assert Number(f, 1, 9) == 99999999;
    assert Number(f, 1, 11) == 9999999999;
  }

  /** The test of out_char, with the unsigned subtraction of the source. */
  predicate HasRoom(size: nat, pos: nat) {
    pos < Wrap32(size - 1)
  }

  /** The offsets a call stores to when it puts out `n` characters: those with room, and the NUL. */
  function StoredAt(size: u32, n: nat): (offsets: set<nat>) {
    (set p: nat | p < n && HasRoom(size, p)) + if size == 0 then {} else if n < size then {n} else {size - 1}
  }

  /** Every store stays inside the buffer if and only if it has a byte or nothing is put out. */
  lemma StoresInside(size: u32, n: nat)
    ensures (forall p :: p in StoredAt(size, n) ==> p < size) <==> size >= 1 || n == 0
  {
    if size == 0 && n > 0 {
      assert 0 in StoredAt(size, n);
    }
  }

  /** One character into a buffer of size 0 is stored beyond it. */
  lemma SizeZeroStores()
    ensures 0 in StoredAt(0, 1)
  {
    assert HasRoom(0, 0);
  }

  /** A format in memory: its text and the NUL after it. */
  ghost predicate IsFormat(fmt: seq<u8>, f: seq<u8>) {
    |f| < |fmt| && f == fmt[..|f|] && fmt[|f|] == 0 && 0 !in f
  }

  /** Whether the loop index, moving through memory as the source moves it, passes the NUL at `n`. */
  predicate PassesNul(fmt: seq<u8>, n: nat, i: nat)
    requires n < |fmt|
    decreases |fmt| - i
  {
    if i > n then true
    else if fmt[i] == 0 then false
    else if fmt[i] != PERCENT then PassesNul(fmt, n, i + 1)
    else if At(fmt, i + 1) == 0 then false
    else PassesNul(fmt, n, SpecAt(fmt, i + 1) + 1)
  }

  lemma {:induction false} FlagsInText(fmt: seq<u8>, f: seq<u8>, i: nat)
    requires IsFormat(fmt, f) && i <= |f|
    ensures FlagsEnd(fmt, i) == FlagsEnd(f, i)
    decreases |f| - i
  {
    if i < |f| {
      assert fmt[i] == f[i];
      FlagsInText(fmt, f, i + 1);
    }
  }

  lemma {:induction false} NumberInText(fmt: seq<u8>, f: seq<u8>, i: nat)
    requires IsFormat(fmt, f) && i <= |f|
    ensures NumberEnd(fmt, i) == NumberEnd(f, i)
    decreases |f| - i
  {
    if i < |f| {
      assert fmt[i] == f[i];
      NumberInText(fmt, f, i + 1);
    }
  }

  /** Parsing a directive never looks beyond the NUL. */
  lemma SpecInText(fmt: seq<u8>, f: seq<u8>, i: nat)
    requires IsFormat(fmt, f) && i <= |f|
    ensures SpecAt(fmt, i) == SpecAt(f, i) <= |f|
  {
    hide FlagsEnd, NumberEnd;
    FlagsInText(fmt, f, i);
    var a := FlagsEnd(f, i);
    NumberInText(fmt, f, a);
    var w := NumberEnd(f, a);
    assert At(fmt, w) == At(f, w);
    if w < |f| {
      NumberInText(fmt, f, w + 1);
    }
    var p := PrecisionEnd(f, w);
    assert At(fmt, p) == At(f, p);
  }

  /** The scan stays within the NUL if and only if no directive is cut short. */
  lemma {:induction false} ScanExact(fmt: seq<u8>, f: seq<u8>, i: nat)
    requires IsFormat(fmt, f)
    ensures i <= |f| ==> (PassesNul(fmt, |f|, i) <==> !Complete(f, i))
    ensures i > |f| ==> PassesNul(fmt, |f|, i)
    decreases |f| - i
  {
    hide SpecAt;
    if i < |f| {
      assert fmt[i] == f[i] && f[i] in f;
      if f[i] != PERCENT {
        ScanExact(fmt, f, i + 1);
      } else if i + 1 < |f| {
        assert fmt[i + 1] == f[i + 1] && f[i + 1] in f;
        SpecInText(fmt, f, i + 1);
        ScanExact(fmt, f, SpecAt(f, i + 1) + 1);
      }
    }
  }

  /** "%5": the NUL is taken for the conversion character and stepped over. */
  lemma CutShort(fmt: seq<u8>)
    requires IsFormat(fmt, [37, 53])
    ensures PassesNul(fmt, 2, 0)
  {
    var f: seq<u8> := [37, 53];
    ScanExact(fmt, f, 0);
    assert FlagsEnd(f, 1) == 1 && NumberEnd(f, 2) == 2 && NumberEnd(f, 1) == 2;
  }
}

/**
 vsnprintf: the same rendering, through a buffer of a given size.
 */
module Stdio {
  import opened Machine
  import opened CString
  import opened NumText
  import opened PrintfSpec

  /** How much of `out` a buffer of `size` bytes holds. */
  function Kept(out: seq<u8>, size: nat): (n: nat)
    ensures n <= |out| && (size >= 1 ==> n < size)
  {
    if size == 0 then 0 else if |out| < size - 1 then |out| else size - 1
  }

  /** The buffer holds the first size - 1 characters of `out` and is otherwise as it was; with size 0 nothing was put out. */
  ghost predicate Buffered(buf: array<u8>, size: nat, out: seq<u8>, before: seq<u8>)
    reads buf
  {
    && size <= buf.Length == |before| && (size == 0 ==> out == [])
    && (forall i :: 0 <= i < Kept(out, size) ==> buf[i] == out[i])
    && (forall i :: Kept(out, size) <= i < buf.Length ==> buf[i] == before[i])
  }

  /** Stores the character if there is room, and counts it in any case. */
  method OutChar(buf: array<u8>, size: nat, pos: nat, c: u8, ghost out: seq<u8>, ghost before: seq<u8>) returns (pos': nat)
    requires 1 <= size < TWO_32 && Buffered(buf, size, out, before) && pos == |out|
    modifies buf
    ensures Buffered(buf, size, out + [c], before) && pos' == pos + 1
  {
    if HasRoom(size, pos) {
      buf[pos] := c;
    }
    pos' := pos + 1;
  }

  method OutRepeat(buf: array<u8>, size: nat, pos: nat, c: u8, n: nat, ghost out: seq<u8>, ghost before: seq<u8>)
    returns (pos': nat)
    requires Buffered(buf, size, out, before) && pos == |out| && size < TWO_32 && (size >= 1 || n == 0)
    modifies buf
    ensures Buffered(buf, size, out + Repeat(c, n), before) && pos' == pos + n
  {
    hide Buffered, HasRoom;
    pos' := pos;
    var p := 0;
    assert out + Repeat(c, 0) == out;
    while p < n
      invariant 0 <= p <= n && pos' == pos + p && Buffered(buf, size, out + Repeat(c, p), before)
    {
      pos' := OutChar(buf, size, pos', c, out + Repeat(c, p), before);
      assert out + Repeat(c, p) + [c] == out + Repeat(c, p + 1);
      p := p + 1;
    }
  }

  method OutText(buf: array<u8>, size: nat, pos: nat, s: seq<u8>, ghost out: seq<u8>, ghost before: seq<u8>) returns (pos': nat)
    requires Buffered(buf, size, out, before) && pos == |out| && size < TWO_32 && (size >= 1 || s == [])
    modifies buf
    ensures Buffered(buf, size, out + s, before) && pos' == pos + |s|
  {
    hide Buffered, HasRoom;
    pos' := pos;
    var j := 0;
    assert out + s[..0] == out;
    while j < |s|
      invariant 0 <= j <= |s| && pos' == pos + j && Buffered(buf, size, out + s[..j], before)
    {
      pos' := OutChar(buf, size, pos', s[j], out + s[..j], before);
      assert out + s[..j] + [s[j]] == out + s[..j + 1];
      j := j + 1;
    }
    assert s[..j] == s;
  }

  // ----- Parsing

  lemma FormatAt(fmt: seq<u8>, f: seq<u8>, i: nat)
    requires IsFormat(fmt, f) && i <= |f|
    ensures i < |fmt| && fmt[i] == At(f, i) && (fmt[i] == 0 <==> i == |f|)
  {
    if i < |f| {
      assert fmt[i] == f[i] && f[i] in f;
    }
  }

  method ParseFlags(fmt: seq<u8>, start: nat, ghost f: seq<u8>) returns (i: nat, left: bool, zero: bool)
    requires IsFormat(fmt, f) && start <= |f|
    ensures i == FlagsEnd(f, start) && i <= |f| && left == HasFlag(f, start, i, MINUS)
    ensures zero == (HasFlag(f, start, i, ZERO) && !left)
  {
    i, left, zero := start, false, false;
    FormatAt(fmt, f, i);
    while fmt[i] == MINUS || fmt[i] == ZERO
      invariant start <= i <= |f| && FlagsEnd(f, start) == FlagsEnd(f, i) && i < |fmt| && fmt[i] == At(f, i)
      invariant left == HasFlag(f, start, i, MINUS) && zero == HasFlag(f, start, i, ZERO)
      decreases |f| - i
    {
      if fmt[i] == MINUS {
        left := true;
      }
      if fmt[i] == ZERO {
        zero := true;
      }
      assert f[i] == fmt[i];
      i := i + 1;
      FormatAt(fmt, f, i);
    }
    if left {
      zero := false;
    }
  }

  method ParseNumber(fmt: seq<u8>, start: nat, ghost f: seq<u8>) returns (i: nat, n: nat)
    requires IsFormat(fmt, f) && start <= |f|
    ensures i == NumberEnd(f, start) && i <= |f| && n == Number(f, start, i)
  {
    i, n := start, 0;
    FormatAt(fmt, f, i);
    while 48 <= fmt[i] <= 57
      invariant start <= i <= |f| && NumberEnd(f, start) == NumberEnd(f, i) && n == Number(f, start, i)
      invariant i < |fmt| && fmt[i] == At(f, i)
      decreases |f| - i
    {
      n := n * 10 + (fmt[i] - 48);
      i := i + 1;
      FormatAt(fmt, f, i);
    }
  }

  /** Flags, width, precision and length modifier. */
  method ParseDirective(fmt: seq<u8>, start: nat, ghost f: seq<u8>) returns (i: nat, d: Directive)
    requires IsFormat(fmt, f) && start <= |f|
    ensures i == SpecAt(f, start) && i <= |f| && d == Parse(f, start)
  {
    hide IsFormat, HasFlag, FlagsEnd, NumberEnd, Number;
    var left, zero, width;
    i, left, zero := ParseFlags(fmt, start, f);
    i, width := ParseNumber(fmt, i, f);
    var hasPrec, prec := false, 0;
    FormatAt(fmt, f, i);
    if fmt[i] == DOT {
      hasPrec := true;
      i, prec := ParseNumber(fmt, i + 1, f);
    }
    FormatAt(fmt, f, i);
    if fmt[i] == 108 {
      i := i + 1;
    }
    FormatAt(fmt, f, i);
    d := Directive(left, zero, width, hasPrec, prec, fmt[i]);
  }

  // ----- Conversion

  /** The text of a number in the conversion buffer of 34 bytes. */
  method NumberText(value: u32, base: nat) returns (s: seq<u8>)
    requires 2 <= base <= 36
    ensures s == Digits(value, base)
  {
    var tmp := new u8[34];
    AtMost32(value, base);
    Utoa(value, tmp, base);
    DigitsPrintable(value, base);
    StrAt(tmp[..], |Digits(value, base)|);
    var len := Strlen(tmp[..]);
    s := tmp[..len];
  }

  method UpperText(s: seq<u8>) returns (r: seq<u8>)
    ensures r == Upper(s)
  {
    r := s;
    var j := 0;
    while j < |s|
      invariant 0 <= j <= |s| == |r|
      invariant forall k :: 0 <= k < j ==> r[k] == Upper(s)[k]
      invariant forall k :: j <= k < |s| ==> r[k] == s[k]
    {
      if 97 <= r[j] <= 102 {
        r := r[j := r[j] - 32];
      }
      j := j + 1;
    }
  }

  method ConvertArg(d: Directive, a: Arg) returns (c: Conversion)
    requires Converts(d.spec)
    ensures c == Convert(d, a)
  {
    hide Digits;
    var v := NumOf(a);
    var payload;
    if d.spec == 100 || d.spec == 105 {
      if v >= 0x8000_0000 {
        payload := NumberText(Wrap32(0x1_0000_0000 - v), 10);
        return Conversion(true, true, payload);
      }
      payload := NumberText(v, 10);
      return Conversion(false, true, payload);
    } else if d.spec == 88 {
      payload := NumberText(v, 16);
      payload := UpperText(payload);
      return Conversion(false, true, payload);
    } else if d.spec == 99 {
      return Conversion(false, false, [v % 256]);
    } else if d.spec == 115 {
      return Conversion(false, false, Clipped(TextOf(a), d));
    } else if d.spec == 112 {
      payload := NumberText(v, 16);
      return Conversion(false, false, [48, 120] + payload);
    } else {
      payload := NumberText(v, Base(d.spec));
      return Conversion(false, true, payload);
    }
  }

  /** A field is its six parts in the order they are put out; each padding has length 0 where it does not apply. */
  lemma FieldParts(out: seq<u8>, d: Directive, c: Conversion, l: nat, z: nat, r: nat)
    requires d.left ==> !d.zero
    requires l == (if !d.left && !(d.zero && ZeroPrefix(d, c) == 0) then Pad(d, c) else 0)
    requires z == (if d.zero && ZeroPrefix(d, c) == 0 then Pad(d, c) else 0) && r == (if d.left then Pad(d, c) else 0)
    ensures out + Repeat(BLANK, l) + Sign(c) + Repeat(ZERO, z) + Repeat(ZERO, ZeroPrefix(d, c)) + c.payload + Repeat(BLANK, r)
            == out + Field(d, c)
  {
    hide Pad;
    var p := Repeat(ZERO, ZeroPrefix(d, c));
    if d.left {
      PartsLeft(out, Sign(c), p, c.payload, Repeat(BLANK, r));
    } else if d.zero && ZeroPrefix(d, c) == 0 {
      PartsZero(out, Sign(c), Repeat(ZERO, z), c.payload);
    } else {
      PartsRight(out, Repeat(BLANK, l), Sign(c), p, c.payload);
    }
  }

  lemma PartsLeft(out: seq<u8>, sign: seq<u8>, p: seq<u8>, s: seq<u8>, pad: seq<u8>)
    ensures out + Repeat(BLANK, 0) + sign + Repeat(ZERO, 0) + p + s + pad == out + (sign + p + s + pad)
  {
    assert out + Repeat(BLANK, 0) == out;
    assert out + sign + Repeat(ZERO, 0) == out + sign;
  }

  lemma PartsZero(out: seq<u8>, sign: seq<u8>, pad: seq<u8>, s: seq<u8>)
    ensures out + Repeat(BLANK, 0) + sign + pad + Repeat(ZERO, 0) + s + Repeat(BLANK, 0) == out + (sign + pad + s)
  {
    assert out + Repeat(BLANK, 0) == out;
    assert out + sign + pad + Repeat(ZERO, 0) == out + sign + pad;
  }

  lemma PartsRight(out: seq<u8>, pad: seq<u8>, sign: seq<u8>, p: seq<u8>, s: seq<u8>)
    ensures out + pad + sign + Repeat(ZERO, 0) + p + s + Repeat(BLANK, 0) == out + (pad + (sign + p + s))
  {
    assert out + pad + sign + Repeat(ZERO, 0) == out + pad + sign;
  }

  /** Left padding, sign, zero padding, precision zeros, payload, right padding. */
  method OutField(buf: array<u8>, size: nat, pos: nat, d: Directive, c: Conversion, ghost out: seq<u8>, ghost before: seq<u8>)
    returns (pos': nat)
    requires Buffered(buf, size, out, before) && pos == |out| && (d.left ==> !d.zero)
    requires size < TWO_32 && (size >= 1 || Field(d, c) == [])
    modifies buf
    ensures Buffered(buf, size, out + Field(d, c), before) && pos' == pos + |Field(d, c)|
  {
    hide Buffered, Field;
    FieldWidth(d, c);
    var prefix := ZeroPrefix(d, c);
    var zero := d.zero && prefix == 0;
    var len := |c.payload| + prefix + if c.negative then 1 else 0;
    var pad := if d.width > len then d.width - len else 0;
    var l, z, r := if !d.left && !zero then pad else 0, if zero then pad else 0, if d.left then pad else 0;
    FieldParts(out, d, c, l, z, r);
    ghost var o := out + Repeat(BLANK, l);
    pos' := OutRepeat(buf, size, pos, BLANK, l, out, before);
    pos' := OutText(buf, size, pos', Sign(c), o, before);
    o := o + Sign(c);
    pos' := OutRepeat(buf, size, pos', ZERO, z, o, before);
    o := o + Repeat(ZERO, z);
    pos' := OutRepeat(buf, size, pos', ZERO, prefix, o, before);
    o := o + Repeat(ZERO, prefix);
    pos' := OutText(buf, size, pos', c.payload, o, before);
    o := o + c.payload;
    pos' := OutRepeat(buf, size, pos', BLANK, r, o, before);
    assert |out + Field(d, c)| == |out| + |Field(d, c)|;
  }

  // ----- The formatter

  lemma ParsedFlags(f: seq<u8>, i: nat)
    ensures Parse(f, i).left ==> !Parse(f, i).zero
  {
  }

  /** One directive: parse, convert, put out. */
  method OutDirective(buf: array<u8>, size: nat, pos: nat, fmt: seq<u8>, start: nat, args: seq<Arg>, k: nat,
                      ghost f: seq<u8>, ghost out: seq<u8>, ghost before: seq<u8>)
    returns (pos': nat, i: nat, k': nat)
    requires Buffered(buf, size, out, before) && pos == |out| && IsFormat(fmt, f) && start <= |f|
    requires size < TWO_32 && (size >= 1 || Output(f, start, ArgAt(args, k)) == [])
    modifies buf
    ensures Buffered(buf, size, out + Output(f, start, ArgAt(args, k)), before)
    ensures pos' == pos + |Output(f, start, ArgAt(args, k))| && i == SpecAt(f, start) <= |f| && k' == k + Taken(f, start)
  {
    hide Buffered, IsFormat, Field, Convert, Parse, SpecAt;
    ParsedFlags(f, start);
    var d;
    i, d := ParseDirective(fmt, start, f);
    SpecIs(f, start);
    k' := k;
    if Converts(d.spec) {
      var c := ConvertArg(d, ArgAt(args, k));
      k' := k + 1;
      pos' := OutField(buf, size, pos, d, c, out, before);
    } else if d.spec == PERCENT {
      pos' := OutChar(buf, size, pos, PERCENT, out, before);
    } else {
      pos' := OutChar(buf, size, pos, PERCENT, out, before);
      pos' := OutChar(buf, size, pos', d.spec, out + [PERCENT], before);
      assert out + [PERCENT] + [d.spec] == out + [PERCENT, d.spec];
    }
  }

  lemma SpecIs(f: seq<u8>, i: nat)
    ensures Parse(f, i).spec == At(f, SpecAt(f, i))
  {
  }

  /** The rendering put out so far and the rest of it. */
  ghost predicate Progress(f: seq<u8>, i: nat, args: seq<Arg>, k: nat, out: seq<u8>) {
    out + Render(f, i, args, k) == Render(f, 0, args, 0) && Complete(f, i)
  }

  lemma ProgressLiteral(f: seq<u8>, i: nat, args: seq<Arg>, k: nat, out: seq<u8>)
    requires Progress(f, i, args, k, out) && i < |f| && f[i] != PERCENT
    ensures Progress(f, i + 1, args, k, out + [f[i]])
  {
    assert out + [f[i]] + Render(f, i + 1, args, k) == out + ([f[i]] + Render(f, i + 1, args, k));
  }

  lemma ProgressDirective(f: seq<u8>, i: nat, args: seq<Arg>, k: nat, out: seq<u8>)
    requires Progress(f, i, args, k, out) && i + 1 < |f| && f[i] == PERCENT
    ensures SpecAt(f, i + 1) < |f|
    ensures Progress(f, SpecAt(f, i + 1) + 1, args, k + Taken(f, i + 1), out + Output(f, i + 1, ArgAt(args, k)))
  {
    hide Output, SpecAt, Taken;
    var s, rest := Output(f, i + 1, ArgAt(args, k)), Render(f, SpecAt(f, i + 1) + 1, args, k + Taken(f, i + 1));
    assert out + s + rest == out + (s + rest);
  }

  lemma ProgressEnds(f: seq<u8>, i: nat, args: seq<Arg>, k: nat, out: seq<u8>)
    requires Progress(f, i, args, k, out) && (i >= |f| || (i + 1 == |f| && f[i] == PERCENT))
    ensures out == Render(f, 0, args, 0)
  {
    assert Render(f, i, args, k) == [];
  }

  /** What is still to come is empty if the whole rendering is. */
  lemma NothingToCome(f: seq<u8>, i: nat, args: seq<Arg>, k: nat, out: seq<u8>, size: nat)
    requires Progress(f, i, args, k, out) && i < |f| && (size >= 1 || Render(f, 0, args, 0) == [])
    ensures f[i] != PERCENT ==> size >= 1
    ensures f[i] == PERCENT && i + 1 < |f| ==> size >= 1 || Output(f, i + 1, ArgAt(args, k)) == []
  {
    hide Output;
  }

  /**
   Formats into a buffer of `size` bytes. The result is the length of the whole
   rendering, whatever the size; the buffer holds as much of it as fits, and a NUL.
   */
  method Vsnprintf(buf: array<u8>, size: nat, fmt: seq<u8>, args: seq<Arg>) returns (n: nat)
    requires size <= buf.Length && size < TWO_32 && Terminated(fmt) && Complete(Str(fmt), 0) && Countable(Str(fmt), 0)
    requires size >= 1 || Render(Str(fmt), 0, args, 0) == []
    requires |Render(Str(fmt), 0, args, 0)| < INT_LIMIT
    modifies buf
    ensures n == |Render(Str(fmt), 0, args, 0)|
    ensures var out := Render(Str(fmt), 0, args, 0);
            && Kept(out, size) <= buf.Length && buf[..Kept(out, size)] == out[..Kept(out, size)]
            && (size >= 1 ==> buf[Kept(out, size)] == 0)
            && forall i :: (if size >= 1 then Kept(out, size) + 1 else 0) <= i < buf.Length ==> buf[i] == old(buf[i])
  {
    hide Buffered, Render, Complete, IsFormat, Progress, Output, Countable, Kept, Str, ArgAt, Terminated;
    BufferEmpty(buf, size);
    ghost var f, before, out := Str(fmt), buf[..], [];
    FormatStarts(fmt, args);
    var pos, i, k := 0, 0, 0;
    FormatAt(fmt, f, 0);
    while fmt[i] != 0
      invariant 0 <= i <= |f| && i < |fmt| && fmt[i] == At(f, i) && (fmt[i] == 0 <==> i == |f|)
      invariant Buffered(buf, size, out, before) && pos == |out| && Progress(f, i, args, k, out)
      decreases |f| - i
    {
      NothingToCome(f, i, args, k, out, size);
      if fmt[i] != PERCENT {
        ProgressLiteral(f, i, args, k, out);
        pos := OutChar(buf, size, pos, fmt[i], out, before);
        out := out + [f[i]];
      } else {
        FormatAt(fmt, f, i + 1);
        if fmt[i + 1] == 0 {
          break;
        }
        ProgressDirective(f, i, args, k, out);
        ghost var s := Output(f, i + 1, ArgAt(args, k));
        pos, i, k := OutDirective(buf, size, pos, fmt, i + 1, args, k, f, out, before);
        out := out + s;
      }
      i := i + 1;
      FormatAt(fmt, f, i);
    }
    ProgressEnds(f, i, args, k, out);
    Terminate(buf, size, pos, out, before);
    n := pos;
  }

  /** The NUL, after the text or in the last byte. */
  method Terminate(buf: array<u8>, size: nat, pos: nat, ghost out: seq<u8>, ghost before: seq<u8>)
    requires Buffered(buf, size, out, before) && pos == |out|
    modifies buf
    ensures Kept(out, size) <= buf.Length && buf[..Kept(out, size)] == out[..Kept(out, size)]
    ensures size >= 1 ==> buf[Kept(out, size)] == 0
    ensures forall i :: (if size >= 1 then Kept(out, size) + 1 else 0) <= i < buf.Length ==> buf[i] == before[i]
  {
    if size > 0 {
      buf[if pos < size then pos else size - 1] := 0;
    }
  }

  lemma BufferEmpty(buf: array<u8>, size: nat)
    requires size <= buf.Length
    ensures Buffered(buf, size, [], buf[..])
  {
  }

  lemma FormatStarts(fmt: seq<u8>, args: seq<Arg>)
    requires Terminated(fmt) && Complete(Str(fmt), 0)
    ensures IsFormat(fmt, Str(fmt)) && Progress(Str(fmt), 0, args, 0, [])
  {
    TerminatedLength(fmt);
    assert [] + Render(Str(fmt), 0, args, 0) == Render(Str(fmt), 0, args, 0);
  }
}

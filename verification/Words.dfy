/**
 32-bit words in byte-addressed pages.
 */
module Words {
  import opened Machine

  /** The words in memory order. */
  function LeBytes(ws: seq<u32>): (b: seq<u8>)
    ensures |b| == 4 * |ws|
  {
    if ws == [] then [] else Le32(ws[0]) + LeBytes(ws[1..])
  }

  function WordAt(b: seq<u8>, off: nat): (w: u32)
    requires off + 4 <= |b|
  {
    FromLe32(b[off..off + 4])
  }

  /** Stores one word. */
  function PutWord(b: seq<u8>, off: nat, w: u32): (r: seq<u8>)
    requires off + 4 <= |b|
    ensures |r| == |b| && forall o :: 0 <= o < |b| && !(off <= o < off + 4) ==> r[o] == b[o]
  {
    b[..off] + Le32(w) + b[off + 4..]
  }

  /** `b` with the words `ws` at its end. */
  function TopWords(b: seq<u8>, ws: seq<u32>): (r: seq<u8>)
    requires 4 * |ws| <= |b|
    ensures |r| == |b|
  {
    b[..|b| - 4 * |ws|] + LeBytes(ws)
  }

  lemma PushTop(b: seq<u8>, ws: seq<u32>, w: u32)
    requires 4 * |ws| + 4 <= |b|
    ensures PutWord(TopWords(b, ws), |b| - 4 * |ws| - 4, w) == TopWords(b, [w] + ws)
  {
    var n := |b| - 4 * |ws| - 4;
    assert ([w] + ws)[1..] == ws;
    assert LeBytes([w] + ws) == Le32(w) + LeBytes(ws);
    var t := TopWords(b, ws);
    assert t[..n] == b[..n];
    assert t[n + 4..] == LeBytes(ws);
    assert b[..n] + Le32(w) + LeBytes(ws) == b[..n] + (Le32(w) + LeBytes(ws));
  }

  lemma {:induction false} LeBytesAt(ws: seq<u32>, i: nat)
    requires i < |ws|
    ensures LeBytes(ws)[4 * i..4 * i + 4] == Le32(ws[i])
  {
    if i == 0 {
      assert LeBytes(ws)[0..4] == Le32(ws[0]);
    } else {
      LeBytesAt(ws[1..], i - 1);
      assert LeBytes(ws)[4 * i..4 * i + 4] == LeBytes(ws[1..])[4 * (i - 1)..4 * (i - 1) + 4];
    }
  }

  /** Each word reads back. */
  lemma TopWordsAt(b: seq<u8>, ws: seq<u32>, i: nat)
    requires 4 * |ws| <= |b| && i < |ws|
    ensures WordAt(TopWords(b, ws), |b| - 4 * |ws| + 4 * i) == ws[i]
  {
    LeBytesAt(ws, i);
    var n := |b| - 4 * |ws|;
    assert TopWords(b, ws)[n + 4 * i..n + 4 * i + 4] == LeBytes(ws)[4 * i..4 * i + 4];
    Le32RoundTrip(ws[i]);
  }

  /** A stored word reads back, and words that do not overlap it are unchanged. */
  lemma PutWordAt(b: seq<u8>, off: nat, w: u32, at: nat)
    requires off + 4 <= |b| && at + 4 <= |b| && (at == off || at + 4 <= off || off + 4 <= at)
    ensures WordAt(PutWord(b, off, w), at) == if at == off then w else WordAt(b, at)
  {
    var r := PutWord(b, off, w);
    if at == off {
      assert r[off..off + 4] == Le32(w);
      Le32RoundTrip(w);
    } else {
      assert r[at..at + 4] == b[at..at + 4];
    }
  }
}

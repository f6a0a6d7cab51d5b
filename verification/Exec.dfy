/**
 The argument splitter of the shell's exec command.
 */
module Exec {
  import opened Machine
  import opened CString

  const MAX_ARGS: nat := 16
  const SPACE: u8 := 32

  // ----- Words of a line

  /** The end of the word that starts at `p`. */
  function WordEnd(s: seq<u8>, p: nat): (e: nat)
    requires p <= |s|
    ensures p <= e <= |s| && (forall i :: p <= i < e ==> s[i] != SPACE) && (e < |s| ==> s[e] == SPACE)
    decreases |s| - p
  {
    if p == |s| || s[p] == SPACE then p else WordEnd(s, p + 1)
  }

  /** The maximal runs of characters other than the space, from `p` on. */
  function TokensFrom(s: seq<u8>, p: nat): (ts: seq<seq<u8>>)
    requires p <= |s|
    decreases |s| - p
  {
    if p == |s| then []
    else if s[p] == SPACE then TokensFrom(s, p + 1)
    else [s[p..WordEnd(s, p)]] + TokensFrom(s, WordEnd(s, p))
  }

  function Tokens(s: seq<u8>): (ts: seq<seq<u8>>) {
    TokensFrom(s, 0)
  }

  /** A word: not empty, without spaces. */
  predicate IsWord(t: seq<u8>) {
    t != [] && 32 !in t
  }

  function Join(ts: seq<seq<u8>>): (s: seq<u8>) {
    if ts == [] then [] else if |ts| == 1 then ts[0] else ts[0] + ([32] + Join(ts[1..]))
  }

  lemma {:induction false} TokenIsWord(s: seq<u8>, p: nat, k: nat)
    requires p <= |s| && k < |TokensFrom(s, p)|
    ensures IsWord(TokensFrom(s, p)[k]) && (0 !in s ==> 0 !in TokensFrom(s, p)[k])
    decreases |s| - p
  {
    if s[p] == SPACE {
      TokenIsWord(s, p + 1, k);
    } else if k > 0 {
      TokenIsWord(s, WordEnd(s, p), k - 1);
    } else {
      var t := s[p..WordEnd(s, p)];
      assert forall x :: x in t ==> x in s && x != SPACE;
      assert t[0] == s[p];
    }
  }

  lemma {:induction false} WordEndIs(s: seq<u8>, p: nat, e: nat)
    requires p <= e <= |s| && (forall i :: p <= i < e ==> s[i] != SPACE) && (e < |s| ==> s[e] == SPACE)
    ensures WordEnd(s, p) == e
    decreases e - p
  {
    if p < e {
      WordEndIs(s, p + 1, e);
    }
  }

  /** A word that ends at `e`, and the words after it. */
  lemma TokensAfterWord(s: seq<u8>, p: nat, e: nat)
    requires p < e <= |s| && (forall i :: p <= i < e ==> s[i] != SPACE) && (e < |s| ==> s[e] == SPACE)
    ensures TokensFrom(s, p) == [s[p..e]] + TokensFrom(s, if e < |s| then e + 1 else e)
  {
    WordEndIs(s, p, e);
  }

  lemma {:induction false} TokensShift(a: seq<u8>, s: seq<u8>, p: nat)
    requires p <= |s|
    ensures TokensFrom(a + s, |a| + p) == TokensFrom(s, p)
    decreases |s| - p
  {
    hide WordEnd;
    var t := a + s;
    if p < |s| {
      assert t[|a| + p] == s[p];
      if s[p] == SPACE {
        TokensShift(a, s, p + 1);
      } else {
        var e := WordEnd(s, p);
        WordEndIs(t, |a| + p, |a| + e);
        assert t[|a| + p..|a| + e] == s[p..e];
        TokensShift(a, s, e);
      }
    }
  }

  /** Words joined by single spaces come back as they were. */
  lemma {:induction false} JoinTokens(ts: seq<seq<u8>>)
    requires forall i :: 0 <= i < |ts| ==> IsWord(ts[i])
    ensures Tokens(Join(ts)) == ts
  {
    if |ts| == 1 {
      TokensAfterWord(ts[0], 0, |ts[0]|);
      assert ts[0][0..|ts[0]|] == ts[0];
      assert ts == [ts[0]];
    } else if ts != [] {
      JoinTokens(ts[1..]);
      JoinStep(ts[0], Join(ts[1..]));
      assert ts == [ts[0]] + ts[1..];
    }
  }

  lemma JoinStep(t: seq<u8>, rest: seq<u8>)
    requires IsWord(t)
    ensures Tokens(t + ([SPACE] + rest)) == [t] + Tokens(rest)
  {
    var s := t + ([SPACE] + rest);
    TokensAfterWord(s, 0, |t|);
    assert s[0..|t|] == t;
    TokensShift(t + [SPACE], rest, 0);
    assert t + [SPACE] + rest == s;
  }

  // ----- Splitting in place

  /** The command line the buffer has room for. */
  function Command(line: seq<u8>): (c: seq<u8>)
    ensures |c| <= 255 && 0 !in c
  {
    if |Str(line)| <= 255 then Str(line) else Str(line)[..255]
  }

  /** The words exec passes on. */
  function Arguments(c: seq<u8>): (ts: seq<seq<u8>>) {
    if |Tokens(c)| <= MAX_ARGS then Tokens(c) else Tokens(c)[..MAX_ARGS]
  }

  lemma {:induction false} JoinNoNul(ts: seq<seq<u8>>)
    requires forall i :: 0 <= i < |ts| ==> 0 !in ts[i]
    ensures 0 !in Join(ts)
  {
    if |ts| > 1 {
      JoinNoNul(ts[1..]);
    }
  }

  /** Words typed with a space between them, 255 characters at most, are passed on as typed, up to sixteen of them. */
  lemma TypedWords(ts: seq<seq<u8>>)
    requires (forall i :: 0 <= i < |ts| ==> IsWord(ts[i]) && 0 !in ts[i]) && |Join(ts)| <= 255
    ensures Arguments(Command(Join(ts) + [0])) == if |ts| <= 16 then ts else ts[..16]
  {
    JoinNoNul(ts);
    JoinTokens(ts);
    StrAt(Join(ts) + [0], |Join(ts)|);
    assert (Join(ts) + [0])[..|Join(ts)|] == Join(ts);
  }

  predicate TokenAt(b: seq<u8>, a: nat, t: seq<u8>) {
    a + |t| < |b| && b[a..a + |t|] == t && b[a + |t|] == 0
  }

  lemma TokenReads(b: seq<u8>, a: nat, t: seq<u8>)
    requires TokenAt(b, a, t) && 0 !in t
    ensures Terminated(b[a..]) && Str(b[a..]) == t
  {
    var p := b[a..];
    assert p[|t|] == 0;
    forall i | 0 <= i < |t| ensures p[i] != 0 {
      assert p[i] == b[a..a + |t|][i] == t[i];
    }
    StrAt(p, |t|);
    assert p[..|t|] == b[a..a + |t|];
  }

  /** The line from `p` on is untouched. */
  predicate Rest(b: seq<u8>, c: seq<u8>, p: nat) {
    |b| == 256 && p <= |c| <= 255 && b[|c|] == 0 && 0 !in c && forall i :: p <= i < |c| ==> b[i] == c[i]
  }

  /** The words found so far, each NUL-terminated before `p` (or at the end). */
  predicate Found(b: seq<u8>, c: seq<u8>, p: nat, argv: seq<nat>, done: seq<seq<u8>>) {
    && |argv| == |done|
    && forall k :: 0 <= k < |argv| ==> TokenAt(b, argv[k], done[k]) && (argv[k] + |done[k]| < p || p == |c|)
  }

  /** Ending a word at `e`: the space after it, if any, becomes a NUL. */
  lemma FoundMore(b: seq<u8>, c: seq<u8>, p: nat, e: nat, argv: seq<nat>, done: seq<seq<u8>>, b': seq<u8>, q: nat)
    requires Rest(b, c, p) && Found(b, c, p, argv, done) && p < e <= |c|
    requires if e < |c| then b' == b[e := 0] && q == e + 1 else b' == b && q == e
    ensures Rest(b', c, q) && Found(b', c, q, argv + [p], done + [c[p..e]])
  {
    assert b'[p..e] == c[p..e];
    forall k | 0 <= k < |argv| ensures TokenAt(b', argv[k], done[k]) {
      assert b'[argv[k]..argv[k] + |done[k]|] == b[argv[k]..argv[k] + |done[k]|];
    }
  }

  method CopyLine(buf: array<u8>, line: seq<u8>) returns (len: nat)
    requires buf.Length == 256 && Terminated(line)
    modifies buf
    ensures len == |Command(line)| && Rest(buf[..], Command(line), 0)
  {
    TerminatedLength(line);
    ghost var s := Str(line);
    len := 0;
    while line[len] != 0 && len < 255
      invariant 0 <= len <= |s| < |line| && len <= 255
      invariant forall i :: 0 <= i < len ==> buf[i] == s[i]
      decreases 255 - len
    {
      buf[len] := line[len];
      len := len + 1;
    }
    buf[len] := 0;
  }

  /** One word: where it starts, and where the scan goes on. */
  method TakeWord(buf: array<u8>, start: nat, ghost c: seq<u8>, ghost argv: seq<nat>, ghost done: seq<seq<u8>>)
    returns (p: nat, ghost word: seq<u8>)
    requires buf.Length == 256 && Rest(buf[..], c, start) && start < |c| && c[start] != SPACE
    requires Found(buf[..], c, start, argv, done)
    modifies buf
    ensures start < p <= |c| && Rest(buf[..], c, p) && Found(buf[..], c, p, argv + [start], done + [word])
    ensures TokensFrom(c, start) == [word] + TokensFrom(c, p)
  {
    hide TokenAt, Found;
    p := start;
    while buf[p] != 0 && buf[p] != SPACE
      invariant start <= p <= |c|
      invariant forall i :: start <= i < p ==> c[i] != SPACE
      decreases |c| - p
    {
      assert p < |c| ==> buf[..][p] == c[p];
      p := p + 1;
    }
    assert p < |c| ==> buf[..][p] == c[p];
    TokensAfterWord(c, start, p);
    word := c[start..p];
    ghost var b, e := buf[..], p;
    if buf[p] != 0 {
      buf[p] := 0;
      assert buf[..] == b[p := 0];
      p := p + 1;
    }
    FoundMore(b, c, start, e, argv, done, buf[..], p);
  }

  /** Splits the line in place: the first sixteen words of its first 255 characters. */
  method Tokenize(buf: array<u8>, line: seq<u8>) returns (argv: seq<nat>)
    requires buf.Length == 256 && Terminated(line)
    modifies buf
    ensures |argv| == |Arguments(Command(line))|
    ensures forall k :: 0 <= k < |argv| ==>
              argv[k] < 256 && Terminated(buf[argv[k]..]) && Str(buf[argv[k]..]) == Arguments(Command(line))[k]
  {
    hide Found, Terminated, Str;
    ghost var c := Command(line);
    var len := CopyLine(buf, line);
    argv := [];
    ghost var done := [];
    var p := 0;
    FoundNone(buf[..], c);
    while buf[p] != 0 && |argv| < MAX_ARGS
      invariant p <= len == |c| && |argv| == |done| <= MAX_ARGS
      invariant Rest(buf[..], c, p) && Found(buf[..], c, p, argv, done) && Tokens(c) == done + TokensFrom(c, p)
      decreases len - p
    {
      ghost var p0 := p;
      while buf[p] == SPACE
        invariant p0 <= p <= len && TokensFrom(c, p0) == TokensFrom(c, p) && Rest(buf[..], c, p)
        decreases len - p
      {
        assert p < |c| && buf[..][p] == c[p];
        p := p + 1;
      }
      FoundLater(buf[..], c, p0, p, argv, done);
      assert p < |c| ==> buf[..][p] == c[p];
      if buf[p] == 0 {
        break;
      }
      var start := p;
      ghost var word;
      p, word := TakeWord(buf, start, c, argv, done);
      assert done + [word] + TokensFrom(c, p) == done + ([word] + TokensFrom(c, p));
      argv, done := argv + [start], done + [word];
    }
    assert p < |c| ==> buf[..][p] == c[p];
    FoundAll(buf[..], c, p, argv, done);
    forall k | 0 <= k < |argv| ensures Terminated(buf[argv[k]..]) && Str(buf[argv[k]..]) == Arguments(c)[k] {
      assert buf[..][argv[k]..] == buf[argv[k]..];
    }
  }

  lemma FoundNone(b: seq<u8>, c: seq<u8>)
    ensures Found(b, c, 0, [], [])
  {
  }

  lemma FoundLater(b: seq<u8>, c: seq<u8>, p: nat, q: nat, argv: seq<nat>, done: seq<seq<u8>>)
    requires Found(b, c, p, argv, done) && p <= q <= |c|
    ensures Found(b, c, q, argv, done)
  {
  }

  lemma FoundAll(b: seq<u8>, c: seq<u8>, p: nat, argv: seq<nat>, done: seq<seq<u8>>)
    requires Found(b, c, p, argv, done) && |b| == 256 && p <= |c| && 0 !in c && Tokens(c) == done + TokensFrom(c, p)
    requires |argv| == |done| <= MAX_ARGS && (p == |c| || |argv| == MAX_ARGS)
    ensures |argv| == |Arguments(c)|
    ensures forall k :: 0 <= k < |argv| ==> argv[k] < 256 && Terminated(b[argv[k]..]) && Str(b[argv[k]..]) == Arguments(c)[k]
  {
    forall k | 0 <= k < |argv| ensures argv[k] < 256 && Terminated(b[argv[k]..]) && Str(b[argv[k]..]) == Arguments(c)[k] {
      assert Tokens(c)[k] == done[k];
      TokenIsWord(c, 0, k);
      TokenReads(b, argv[k], done[k]);
    }
  }
}

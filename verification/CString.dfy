/**
 NUL-terminated strings and the klibc routines SimpleFS uses on them.
 A pointer to a string is modelled by the bytes from that address onward;
 `Terminated` says that a NUL is reached inside them.
 */
module CString {
  import opened Machine

  predicate Terminated(p: seq<u8>) {
    exists i :: 0 <= i < |p| && p[i] == 0
  }

  /** The bytes before the first NUL. */
  function Str(p: seq<u8>): (s: seq<u8>)
    ensures |s| <= |p| && s == p[..|s|]
    ensures 0 !in s
    ensures |s| < |p| ==> p[|s|] == 0
  {
    if p == [] || p[0] == 0 then [] else [p[0]] + Str(p[1..])
  }

  lemma TerminatedLength(p: seq<u8>)
    ensures Terminated(p) <==> |Str(p)| < |p|
  {
    if |Str(p)| == |p| {
      assert p == Str(p);
    }
  }

  /** Where the first NUL is determines the string. */
  lemma {:induction false} StrAt(p: seq<u8>, n: nat)
    requires n < |p| && p[n] == 0
    requires forall i :: 0 <= i < n ==> p[i] != 0
    ensures Str(p) == p[..n]
  {
    if n > 0 {
      StrAt(p[1..], n - 1);
      assert p[..n] == [p[0]] + p[1..][..n - 1];
    }
  }

  method Strlen(p: seq<u8>) returns (len: nat)
    requires Terminated(p)
    ensures len == |Str(p)|
  {
    TerminatedLength(p);
    len := 0;
    while p[len] != 0
      invariant len <= |Str(p)| < |p|
      decreases |p| - len
    {
      len := len + 1;
    }
  }

  /** The position where the comparison of two strings ends: the first difference, or the common end. */
  predicate FirstDifference(a: seq<u8>, b: seq<u8>, i: nat) {
    && i < |a| && i < |b| && (a[i] != b[i] || a[i] == 0)
    && forall j :: 0 <= j < i ==> a[j] == b[j] && a[j] != 0
  }

  /** The difference of the first bytes that differ, as unsigned characters; zero exactly for equal strings. */
  method Strcmp(a: seq<u8>, b: seq<u8>) returns (r: int)
    requires Terminated(b) && (Terminated(a) || |Str(b)| < |a|)
    ensures r == 0 <==> Str(a) == Str(b)
    ensures exists i: nat :: FirstDifference(a, b, i) && r == (a[i] as int) - (b[i] as int)
  {
    TerminatedLength(a);
    TerminatedLength(b);
    ghost var s, t := Str(a), Str(b);
    var i := 0;
    while a[i] != 0 && a[i] == b[i]
      invariant i <= |s| && i < |a| && i <= |t| < |b|
      invariant forall j :: 0 <= j < i ==> a[j] == b[j] && a[j] != 0
      decreases |a| - i
    {
      assert s[i] == a[i] && t[i] == b[i];
      i := i + 1;
    }
    r := (a[i] as int) - (b[i] as int);
    assert FirstDifference(a, b, i);
    if r == 0 {
      StrAt(a, i);
      StrAt(b, i);
      assert a[..i] == b[..i];
    }
    else if i < |s| && i < |t| {
      assert s[i] == a[i] && t[i] == b[i];
    }
  }

  /** At most the first `n` characters. */
  function Clip(s: seq<u8>, n: nat): (r: seq<u8>) {
    if |s| <= n then s else s[..n]
  }

  lemma ClipPrefix(s: seq<u8>, t: seq<u8>)
    ensures Clip(s, |t|) == Clip(t, |t|) <==> t <= s
  {
  }

  /** Strings that agree up to `i` agree in their first `n` characters if both end there or `i` is `n`, and not if they differ there. */
  lemma ClipAt(s: seq<u8>, t: seq<u8>, n: nat, i: nat)
    requires i <= n && i <= |s| && i <= |t| && s[..i] == t[..i]
    ensures i == n || (i == |s| && i == |t|) ==> Clip(s, n) == Clip(t, n)
    ensures i < n && (i < |s| || i < |t|) && (i < |s| && i < |t| ==> s[i] != t[i]) ==> Clip(s, n) != Clip(t, n)
  {
    if i < n && i < |s| && i < |t| {
      assert Clip(s, n)[i] == s[i] && Clip(t, n)[i] == t[i];
    }
  }

  /** Zero exactly when the first `n` characters agree, else the difference of the first bytes that differ. */
  method Strncmp(a: seq<u8>, b: seq<u8>, n: nat) returns (r: int)
    requires Terminated(b) && (Terminated(a) || |Str(b)| < |a| || n <= |a|)
    ensures r == 0 <==> Clip(Str(a), n) == Clip(Str(b), n)
    ensures r != 0 ==> exists i: nat :: i < n && FirstDifference(a, b, i) && r == (a[i] as int) - (b[i] as int)
  {
    hide Clip;
    TerminatedLength(a);
    TerminatedLength(b);
    ghost var s, t := Str(a), Str(b);
    var i := 0;
    while i < n && a[i] != 0 && a[i] == b[i]
      invariant i <= n && i <= |s| && (i < n ==> i < |a|) && i <= |t| < |b|
      invariant forall j :: 0 <= j < i ==> s[j] == t[j] && a[j] == b[j] && a[j] != 0
    {
      assert s[i] == a[i] && t[i] == b[i];
      i := i + 1;
    }
    assert s[..i] == t[..i];
    ClipAt(s, t, n, i);
    if i == n {
      return 0;
    }
    r := (a[i] as int) - (b[i] as int);
    assert FirstDifference(a, b, i);
    assert i < |s| ==> s[i] == a[i];
    assert i < |t| ==> t[i] == b[i];
  }

  /** `strncpy(dest, src, n)`: at most `n` characters, the rest NUL. */
  method Strncpy(dest: array<u8>, src: seq<u8>, n: nat)
    requires Terminated(src) && n <= dest.Length
    modifies dest
    ensures dest[..n] == (Str(src) + Zeros(n))[..n]
    ensures forall i :: n <= i < dest.Length ==> dest[i] == old(dest[i])
  {
    TerminatedLength(src);
    ghost var s := Str(src);
    var i := 0;
    while i < n && src[i] != 0
      invariant i <= n && i <= |s| < |src|
      invariant forall j :: 0 <= j < i ==> dest[j] == s[j]
      invariant forall j :: n <= j < dest.Length ==> dest[j] == old(dest[j])
    {
      dest[i] := src[i];
      i := i + 1;
    }
    ghost var k := i;
    assert k == n || k == |s|;
    while i < n
      invariant k <= i <= n
      invariant forall j :: 0 <= j < k ==> dest[j] == s[j]
      invariant forall j :: k <= j < i ==> dest[j] == 0
      invariant forall j :: n <= j < dest.Length ==> dest[j] == old(dest[j])
    {
      dest[i] := 0;
      i := i + 1;
    }
  }
}

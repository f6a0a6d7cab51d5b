/**
 Program arguments on the user stack page, as the loader writes them and as
 the process start-up code reads them.
 */
module Argv {
  import opened Machine
  import opened Words
  import opened CString
  import opened PagingSpec

  const ARGV_MAX_TOTAL: nat := 3840
  const MAX_POINTERS: nat := 64

  type StackBytes = b: seq<u8> | |b| == 4096 witness Zeros(4096)

  predicate InStack(v: nat, n: nat) {
    USER_STACK_VIRT <= v && v + n <= USER_STACK_TOP
  }

  // ----- What user code reads through the stack mapping

  function UserWord(b: StackBytes, v: nat): (w: u32)
    requires InStack(v, 4)
  {
    WordAt(b, v - USER_STACK_VIRT)
  }

  /** The C string at `v`. */
  function UserString(b: StackBytes, v: nat): (s: seq<u8>)
    requires InStack(v, 0)
  {
    Str(b[v - USER_STACK_VIRT..])
  }

  /** [esp] is argc and [esp + 4] is argv, a NULL-terminated array of the strings. */
  predicate Receives(b: StackBytes, esp: nat, args: seq<seq<u8>>) {
    && esp % 4 == 0 && InStack(esp, 8) && UserWord(b, esp) == |args|
    && var argv := UserWord(b, esp + 4);
    && argv == esp + 8 && InStack(argv, 4 * |args| + 4) && UserWord(b, argv + 4 * |args|) == 0
    && forall i :: 0 <= i < |args| ==> InStack(UserWord(b, argv + 4 * i), 1) && UserString(b, UserWord(b, argv + 4 * i)) == args[i]
  }

  // ----- Sizes

  function Strs(argv: seq<seq<u8>>): (args: seq<seq<u8>>)
    ensures |args| == |argv| && forall i :: 0 <= i < |argv| ==> args[i] == Str(argv[i])
  {
    seq(|argv|, i requires 0 <= i < |argv| => Str(argv[i]))
  }

  /** Bytes the strings from `i` on take, with their NULs. */
  function Size(args: seq<seq<u8>>, i: nat): (n: nat)
    ensures i <= |args| ==> n >= |args| - i
    decreases |args| - i
  {
    if i >= |args| then 0 else |args[i]| + 1 + Size(args, i + 1)
  }

  lemma {:induction false} SizeShrinks(args: seq<seq<u8>>, i: nat, j: nat)
    requires i <= j
    ensures Size(args, j) <= Size(args, i)
    decreases j - i
  {
    if i < j {
      SizeShrinks(args, i + 1, j);
    }
  }

  predicate TooLarge(args: seq<seq<u8>>) {
    Size(args, 0) + 4 * (|args| + 3) > ARGV_MAX_TOTAL
  }

  /** The loader notes the place of each string in an array of 64, unless the size check turns the arguments away first. */
  predicate Placeable(args: seq<seq<u8>>) {
    TooLarge(args) || |args| <= MAX_POINTERS
  }

  /** The size check alone does not keep the array from overflowing: 65 empty arguments pass it. */
  lemma ManyEmptyArguments()
    ensures var args := seq(65, _ => []); !TooLarge(args) && !Placeable(args)
  {
    var args: seq<seq<u8>> := seq(65, _ => []);
    EmptySizes(args, 0);
  }

  lemma {:induction false} EmptySizes(args: seq<seq<u8>>, i: nat)
    requires i <= |args| && forall k :: 0 <= k < |args| ==> args[k] == []
    ensures Size(args, i) == |args| - i
    decreases |args| - i
  {
    if i < |args| {
      EmptySizes(args, i + 1);
    }
  }

  // ----- Strings

  /** A NUL-terminated copy of `s` at offset `o`. */
  predicate StringAt(b: StackBytes, o: nat, s: seq<u8>) {
    o + |s| + 1 <= 4096 && b[o..o + |s|] == s && b[o + |s|] == 0
  }

  lemma StringReads(b: StackBytes, o: nat, s: seq<u8>)
    requires StringAt(b, o, s) && 0 !in s
    ensures UserString(b, USER_STACK_VIRT + o) == s
  {
    var p := b[o..];
    forall i | 0 <= i < |s| ensures p[i] != 0 {
      assert p[i] == b[o..o + |s|][i] == s[i];
    }
    StrAt(p, |s|);
    assert p[..|s|] == b[o..o + |s|];
  }

  lemma StringKept(b: StackBytes, b': StackBytes, o: nat, s: seq<u8>)
    requires StringAt(b, o, s) && forall i :: o <= i < 4096 ==> b'[i] == b[i]
    ensures StringAt(b', o, s)
  {
    assert b'[o..o + |s|] == b[o..o + |s|];
  }

  method TotalSize(argv: seq<seq<u8>>) returns (n: nat)
    requires forall i :: 0 <= i < |argv| ==> Terminated(argv[i])
    ensures n == Size(Strs(argv), 0)
  {
    n := 0;
    ghost var args := Strs(argv);
    var i := 0;
    while i < |argv|
      invariant 0 <= i <= |argv| && n + Size(args, i) == Size(args, 0)
    {
      var len := Strlen(argv[i]);
      n := n + len + 1;
      i := i + 1;
    }
  }

  /** memcpy of one string with its NUL to offset `o`. */
  method CopyString(b: StackBytes, o: nat, p: seq<u8>, len: nat) returns (r: StackBytes)
    requires Terminated(p) && len == |Str(p)| && o + len + 1 <= 4096
    ensures StringAt(r, o, Str(p)) && forall i :: 0 <= i < 4096 && !(o <= i <= o + len) ==> r[i] == b[i]
  {
    TerminatedLength(p);
    r := b[..o] + p[..len + 1] + b[o + len + 1..];
    assert r[o..o + len] == p[..len];
  }

  /** Copies the strings to the top of the page, last argument first. */
  method CopyStrings(b: StackBytes, argv: seq<seq<u8>>) returns (r: StackBytes, cursor: nat, virt: seq<u32>)
    requires forall i :: 0 <= i < |argv| ==> Terminated(argv[i])
    requires Size(Strs(argv), 0) <= 4096
    ensures cursor == 4096 - Size(Strs(argv), 0) && |virt| == |argv|
    ensures forall i :: 0 <= i < |argv| ==> virt[i] >= USER_STACK_VIRT + cursor && StringAt(r, virt[i] - USER_STACK_VIRT, Str(argv[i]))
    ensures forall o :: 0 <= o < cursor ==> r[o] == b[o]
  {
    hide StringAt, Str, Terminated, Copied;
    r, cursor, virt := b, 4096, [];
    ghost var args := Strs(argv);
    CopiedNone(b, args);
    var i := |argv|;
    while i > 0
      invariant 0 <= i <= |argv| && cursor == 4096 - Size(args, i) && Size(args, i) <= Size(args, 0)
      invariant Copied(r, args, i, cursor, virt)
      invariant forall o :: 0 <= o < cursor ==> r[o] == b[o]
    {
      SizeShrinks(args, 0, i - 1);
      i := i - 1;
      var len := Strlen(argv[i]);
      ghost var r0, end := r, cursor;
      cursor := cursor - (len + 1);
      r := CopyString(r, cursor, argv[i], len);
      CopiedMore(r0, r, args, i, end, cursor, virt);
      virt := [USER_STACK_TOP - (4096 - cursor)] + virt;
    }
    CopiedAll(r, args, cursor, virt);
  }

  /** The strings from `i` on lie at or above offset `cursor`, where `virt` points. */
  predicate Copied(r: StackBytes, args: seq<seq<u8>>, i: nat, cursor: nat, virt: seq<u32>) {
    && i <= |args| && |virt| == |args| - i
    && forall k :: 0 <= k < |virt| ==> virt[k] >= USER_STACK_VIRT + cursor && StringAt(r, virt[k] - USER_STACK_VIRT, args[i + k])
  }

  lemma CopiedNone(r: StackBytes, args: seq<seq<u8>>)
    ensures Copied(r, args, |args|, 4096, [])
  {
  }

  lemma CopiedMore(r: StackBytes, r': StackBytes, args: seq<seq<u8>>, i: nat, end: nat, cursor: nat, virt: seq<u32>)
    requires Copied(r, args, i + 1, end, virt) && cursor <= end <= 4096 && i < |args| && StringAt(r', cursor, args[i])
    requires forall o :: end <= o < 4096 ==> r'[o] == r[o]
    ensures Copied(r', args, i, cursor, [USER_STACK_VIRT + cursor] + virt)
  {
    var v := [USER_STACK_VIRT + cursor] + virt;
    forall k | 0 <= k < |v| ensures v[k] >= USER_STACK_VIRT + cursor && StringAt(r', v[k] - USER_STACK_VIRT, args[i + k]) {
      if k > 0 {
        assert v[k] == virt[k - 1];
        StringKept(r, r', v[k] - USER_STACK_VIRT, args[i + 1 + (k - 1)]);
      }
    }
  }

  lemma CopiedAll(r: StackBytes, args: seq<seq<u8>>, cursor: nat, virt: seq<u32>)
    requires Copied(r, args, 0, cursor, virt)
    ensures |virt| == |args|
    ensures forall k :: 0 <= k < |virt| ==> virt[k] >= USER_STACK_VIRT + cursor && StringAt(r, virt[k] - USER_STACK_VIRT, args[k])
  {
  }

  // ----- Pointers

  /** Writes NULL and the string pointers below offset `s`, last pointer first. */
  method PushPointers(b: StackBytes, s: nat, virt: seq<u32>) returns (r: StackBytes, slot: nat)
    requires 4 * |virt| + 12 <= s <= 4096
    ensures slot == s - 4 * |virt| - 4
    ensures forall i :: 0 <= i < |virt| ==> WordAt(r, slot + 4 * i) == virt[i]
    ensures WordAt(r, slot + 4 * |virt|) == 0
    ensures forall o :: 0 <= o < 4096 && !(slot <= o < s) ==> r[o] == b[o]
  {
    hide WordAt, PutWord;
    slot := s - 4;
    r := PutWord(b, slot, 0);
    PutWordAt(b, slot, 0, slot);
    var i := |virt|;
    while i > 0
      invariant 0 <= i <= |virt| && slot == s - 4 - 4 * (|virt| - i)
      invariant forall k :: i <= k < |virt| ==> WordAt(r, s - 4 - 4 * (|virt| - k)) == virt[k]
      invariant WordAt(r, s - 4) == 0
      invariant forall o :: 0 <= o < 4096 && !(slot <= o < s) ==> r[o] == b[o]
    {
      i := i - 1;
      slot := slot - 4;
      ghost var r0 := r;
      r := PutWord(r, slot, virt[i]);
      forall k | i <= k < |virt| ensures WordAt(r, s - 4 - 4 * (|virt| - k)) == virt[k] {
        PutWordAt(r0, slot, virt[i], s - 4 - 4 * (|virt| - k));
      }
      PutWordAt(r0, slot, virt[i], s - 4);
    }
    forall k | 0 <= k < |virt| ensures WordAt(r, slot + 4 * k) == virt[k] {
      assert slot + 4 * k == s - 4 - 4 * (|virt| - k);
    }
  }

  /** Writes argc and argv so that the new process receives the arguments; without any, or with too many bytes, nothing. */
  method SetupArgs(b: StackBytes, argv: seq<seq<u8>>) returns (r: StackBytes, esp: u32)
    requires Placeable(Strs(argv)) && forall i :: 0 <= i < |argv| ==> Terminated(argv[i])
    ensures |argv| == 0 || TooLarge(Strs(argv)) ==> r == b && esp == USER_STACK_TOP
    ensures |argv| > 0 && !TooLarge(Strs(argv)) ==>
              Receives(r, esp, Strs(argv)) && forall o :: 0 <= o < esp - USER_STACK_VIRT ==> r[o] == b[o]
    ensures 0 < |argv| <= 64 && Size(Strs(argv), 0) + 4 * |argv| <= 3828 ==> Receives(r, esp, Strs(argv))
  {
    if |argv| == 0 {
      return b, USER_STACK_TOP;
    }
    var total := TotalSize(argv);
    if total + 4 * (|argv| + 3) > ARGV_MAX_TOTAL {
      return b, USER_STACK_TOP;
    }
    r, esp := PlaceArgs(b, argv);
  }

  method PlaceArgs(b: StackBytes, argv: seq<seq<u8>>) returns (r: StackBytes, esp: u32)
    requires 0 < |argv| <= MAX_POINTERS && forall i :: 0 <= i < |argv| ==> Terminated(argv[i])
    requires !TooLarge(Strs(argv))
    ensures Receives(r, esp, Strs(argv)) && forall o :: 0 <= o < esp - USER_STACK_VIRT ==> r[o] == b[o]
  {
    hide WordAt, PutWord, StringAt, Str, Terminated, Size, Receives;
    var cursor, virt;
    r, cursor, virt := CopyStrings(b, argv);
    ghost var r1 := r;
    var top := cursor - cursor % 4;
    var slot;
    r, slot := PushTable(r, top, virt);
    esp := USER_STACK_TOP - (4096 - (slot - 8));
    forall i | 0 <= i < |argv| ensures StringAt(r, virt[i] - USER_STACK_VIRT, Str(argv[i])) {
      StringKept(r1, r, virt[i] - USER_STACK_VIRT, Str(argv[i]));
    }
    Assembled(r, slot, Strs(argv), virt);
  }

  /** The pointer table, then argv and argc below it. */
  method PushTable(b: StackBytes, s: nat, virt: seq<u32>) returns (r: StackBytes, slot: nat)
    requires 4 * |virt| + 12 <= s <= 4096
    ensures slot == s - 4 * |virt| - 4 && 8 <= slot
    ensures WordAt(r, slot - 8) == |virt| && WordAt(r, slot - 4) == USER_STACK_VIRT + slot
    ensures forall i :: 0 <= i < |virt| ==> WordAt(r, slot + 4 * i) == virt[i]
    ensures WordAt(r, slot + 4 * |virt|) == 0
    ensures forall o :: 0 <= o < 4096 && !(slot - 8 <= o < s) ==> r[o] == b[o]
  {
    hide WordAt, PutWord;
    r, slot := PushPointers(b, s, virt);
    HeadWords(r, slot, USER_STACK_VIRT + slot, |virt|);
    r := PutWord(r, slot - 4, USER_STACK_TOP - (4096 - slot));
    r := PutWord(r, slot - 8, |virt|);
  }

  /** Argc, argv, the pointers and the strings together are what the process receives. */
  lemma Assembled(r: StackBytes, slot: nat, args: seq<seq<u8>>, virt: seq<u32>)
    requires slot % 4 == 0 && 8 <= slot && slot + 4 * |args| + 4 <= 4096 && |virt| == |args|
    requires WordAt(r, slot - 8) == |args| && WordAt(r, slot - 4) == USER_STACK_VIRT + slot
    requires WordAt(r, slot + 4 * |args|) == 0
    requires forall i :: 0 <= i < |args| ==> WordAt(r, slot + 4 * i) == virt[i]
    requires forall i :: 0 <= i < |args| ==>
               virt[i] >= USER_STACK_VIRT && StringAt(r, virt[i] - USER_STACK_VIRT, args[i]) && 0 !in args[i]
    ensures Receives(r, USER_STACK_VIRT + slot - 8, args)
  {
    hide WordAt;
    var argv := USER_STACK_VIRT + slot;
    forall i | 0 <= i < |args|
      ensures InStack(UserWord(r, argv + 4 * i), 1) && UserString(r, UserWord(r, argv + 4 * i)) == args[i]
    {
      assert argv + 4 * i - USER_STACK_VIRT == slot + 4 * i;
      assert UserWord(r, argv + 4 * i) == virt[i];
      StringReads(r, virt[i] - USER_STACK_VIRT, args[i]);
    }
  }

  /** Storing the two words below `slot` changes no word from `slot` on. */
  lemma HeadWords(b: StackBytes, slot: nat, av: u32, ac: u32)
    requires 8 <= slot <= 4096
    ensures var r := PutWord(PutWord(b, slot - 4, av), slot - 8, ac);
            && WordAt(r, slot - 4) == av && WordAt(r, slot - 8) == ac
            && (forall o: nat :: slot <= o <= 4092 ==> WordAt(r, o) == WordAt(b, o))
            && (forall o: nat :: o < 4096 && !(slot - 8 <= o < slot) ==> r[o] == b[o])
  {
    var m := PutWord(b, slot - 4, av);
    PutWordAt(b, slot - 4, av, slot - 4);
    PutWordAt(m, slot - 8, ac, slot - 4);
    PutWordAt(m, slot - 8, ac, slot - 8);
    forall o: nat | slot <= o <= 4092 ensures WordAt(PutWord(m, slot - 8, ac), o) == WordAt(b, o) {
      PutWordAt(b, slot - 4, av, o);
      PutWordAt(m, slot - 8, ac, o);
    }
  }
}

/** The shared heap behind the C API and the copies made on it (library/alloc.nim). Memory is bytes; a fresh
    block holds anything; freeing a block that is not live is counted as a misfree. */
module SharedHeap {
  import opened Wrappers

  type Addr = nat
  const NUL: Byte := 0

  //// C strings

  // Length up to the first NUL, or the whole length.
  function CLen(mem: Bytes): (n: nat)
    ensures n <= |mem|
    ensures forall i :: 0 <= i < n ==> mem[i] != NUL
    ensures n < |mem| ==> mem[n] == NUL
  {
    if |mem| == 0 || mem[0] == NUL then 0 else 1 + CLen(mem[1..])
  }

  // What reading a block as a C string gives.
  function CString(mem: Bytes): Bytes { mem[..CLen(mem)] }

  predicate Terminated(mem: Bytes) { NUL in mem }

  lemma {:induction false} CLenOfConcat(s: Bytes, rest: Bytes)
    requires NUL !in s
    ensures CLen(s + [NUL] + rest) == |s| && CString(s + [NUL] + rest) == s
  {
    if |s| > 0 {
      assert (s + [NUL] + rest)[1..] == s[1..] + [NUL] + rest;
      CLenOfConcat(s[1..], rest);
    } else {
      assert (s + [NUL] + rest)[0] == NUL;
    }
  }

  lemma {:induction false} CLenIsFirstNul(mem: Bytes, n: nat)
    requires n < |mem| && mem[n] == NUL && forall i :: 0 <= i < n ==> mem[i] != NUL
    ensures CLen(mem) == n
  {
    if n > 0 {
      CLenIsFirstNul(mem[1..], n - 1);
    }
  }

  lemma TerminatedLength(mem: Bytes)
    requires Terminated(mem)
    ensures CLen(mem) < |mem|
  {
    var k :| 0 <= k < |mem| && mem[k] == NUL;
  }

  // A copied string with its terminator reads back as the string up to its first NUL.
  lemma CopyReadsBack(s: Bytes)
    ensures CString(s + [NUL]) == CString(s)
  {
    var n := CLen(s);
    if n == |s| {
      CLenOfConcat(s, []);
      assert s + [NUL] + [] == s + [NUL];
    } else {
      CLenIsFirstNul(s + [NUL], n);
      assert (s + [NUL])[..n] == s[..n];
    }
  }

  function Put(mem: Bytes, i: nat, b: Byte): Bytes
    requires i < |mem|
  {
    mem[..i] + [b] + mem[i + 1..]
  }

  //// The heap

  class Heap {
    var blocks: map<Addr, Bytes>
    var next: Addr
    var misfrees: nat

    predicate Valid()
      reads this
    {
      next > 0 && forall a :: a in blocks ==> 0 < a < next
    }

    constructor ()
      ensures Valid() && blocks == map[] && misfrees == 0
    {
      blocks, next, misfrees := map[], 1, 0;
    }

    // allocShared: the new block's contents are whatever was there.
    method AllocShared(size: nat) returns (p: Addr)
      requires Valid()
      modifies this
      ensures Valid() && p == old(next) && next == p + 1 && misfrees == old(misfrees)
      ensures p !in old(blocks) && p in blocks && |blocks[p]| == size && blocks == old(blocks)[p := blocks[p]]
    {
      var content: Bytes := *;
      if |content| < size {
        content := content + seq(size - |content|, i => 0);
      }
      p := next;
      blocks := blocks[p := content[..size]];
      next := next + 1;
    }

    method DeallocShared(p: Addr)
      requires Valid()
      modifies this
      ensures Valid() && next == old(next) && blocks == old(blocks) - {p}
      ensures misfrees == old(misfrees) + (if p in old(blocks) then 0 else 1)
    {
      if p in blocks {
        blocks := blocks - {p};
      } else {
        misfrees := misfrees + 1;
      }
    }

    method Store(p: Addr, i: nat, b: Byte)
      requires Valid() && p in blocks && i < |blocks[p]|
      modifies this
      ensures Valid() && next == old(next) && misfrees == old(misfrees)
      ensures blocks == old(blocks)[p := Put(old(blocks)[p], i, b)]
    {
      blocks := blocks[p := Put(blocks[p], i, b)];
    }

    // copyMem to the start of a block.
    method CopyMem(p: Addr, source: Bytes, n: nat)
      requires Valid() && p in blocks && n <= |blocks[p]| && n <= |source|
      modifies this
      ensures Valid() && next == old(next) && misfrees == old(misfrees)
      ensures blocks == old(blocks)[p := source[..n] + old(blocks)[p][n..]]
    {
      blocks := blocks[p := source[..n] + blocks[p][n..]];
    }

    // alloc(cstring): the argument is caller memory that a NUL terminates.
    method AllocCString(str: Bytes) returns (p: Addr)
      requires Valid() && Terminated(str)
      modifies this
      ensures Valid() && p == old(next) && next == p + 1 && misfrees == old(misfrees)
      ensures p !in old(blocks) && blocks == old(blocks)[p := CString(str) + [NUL]]
    {
      TerminatedLength(str);
      var n := CLen(str);
      p := AllocShared(n + 1);
      CopyMem(p, str, n + 1);
      assert str[..n + 1] == str[..n] + [NUL];
      assert blocks[p] == str[..n + 1];
    }

    // alloc(string): byte by byte, then the terminator.
    method AllocString(str: Bytes) returns (p: Addr)
      requires Valid()
      modifies this
      ensures Valid() && p == old(next) && next == p + 1 && misfrees == old(misfrees)
      ensures p !in old(blocks) && blocks == old(blocks)[p := str + [NUL]]
    {
      p := AllocShared(|str| + 1);
      var i := 0;
      while i < |str|
        invariant 0 <= i <= |str|
        invariant Valid() && next == p + 1 && misfrees == old(misfrees)
        invariant p in blocks && |blocks[p]| == |str| + 1 && blocks == old(blocks)[p := blocks[p]]
        invariant blocks[p][..i] == str[..i]
      {
        Store(p, i, str[i]);
        assert blocks[p][..i + 1] == blocks[p][..i] + [str[i]];
        i := i + 1;
      }
      Store(p, |str|, NUL);
      assert blocks[p] == str + [NUL];
    }
  }

  //// Shared sequences of elements of k bytes each

  predicate Elements(s: seq<Bytes>, k: nat) { forall e :: e in s ==> |e| == k }

  function Flat(s: seq<Bytes>): Bytes { if |s| == 0 then [] else s[0] + Flat(s[1..]) }

  // The elements that a block of memory holds.
  function Chunks(mem: Bytes, k: nat, n: nat): (s: seq<Bytes>)
    ensures |s| == n
    decreases n
  {
    if n == 0 then []
    else if k <= |mem| then [mem[..k]] + Chunks(mem[k..], k, n - 1)
    else [mem] + Chunks([], k, n - 1)
  }

  // allocSharedSeq copies as many bytes as the sequence has elements; what the rest of the block
  // holds is anything.
  function CopiedSeq(s: seq<Bytes>, garbage: Bytes): Bytes
    requires |s| <= |Flat(s)| == |garbage|
  {
    Flat(s)[..|s|] + garbage[|s|..]
  }

  lemma OneMoreElement(k: nat, n: nat)
    requires n > 0
    ensures k * n == k + k * (n - 1)
  {}

  lemma {:induction false} FlatLength(s: seq<Bytes>, k: nat)
    requires Elements(s, k)
    ensures |Flat(s)| == k * |s|
  {
    if |s| > 0 {
      assert s[0] in s;
      assert forall e :: e in s[1..] ==> e in s;
      FlatLength(s[1..], k);
      OneMoreElement(k, |s|);
    }
  }

  lemma {:induction false} ChunksOfFlat(s: seq<Bytes>, k: nat)
    requires Elements(s, k)
    ensures Chunks(Flat(s), k, |s|) == s
  {
    if |s| > 0 {
      assert s[0] in s;
      assert forall e :: e in s[1..] ==> e in s;
      ChunksOfFlat(s[1..], k);
      assert Flat(s)[..k] == s[0] && Flat(s)[k..] == Flat(s[1..]);
    }
  }

  lemma {:induction false} FlatOfChunks(mem: Bytes, k: nat, n: nat)
    requires |mem| == k * n
    ensures Flat(Chunks(mem, k, n)) == mem
  {
    if n > 0 {
      OneMoreElement(k, n);
      FlatOfChunks(mem[k..], k, n - 1);
      assert Chunks(mem, k, n)[1..] == Chunks(mem[k..], k, n - 1);
    }
  }

  lemma SeqFits(s: seq<Bytes>, k: nat)
    requires k >= 1 && Elements(s, k)
    ensures |s| <= |Flat(s)| == k * |s|
    ensures |s| == |Flat(s)| <==> k == 1 || s == []
  {
    FlatLength(s, k);
    assert k * |s| == |s| + (k - 1) * |s|;
    assert k > 1 && |s| > 0 ==> (k - 1) * |s| > 0;
  }

  // Memory that differs from the one to be stored in the first byte that is not copied.
  function Spoiled(flat: Bytes, n: nat): (garbage: Bytes)
    requires n < |flat|
    ensures |garbage| == |flat| && garbage[..n] == flat[..n] && garbage != flat
  {
    var garbage := Put(flat, n, if flat[n] == 0 then 1 else 0);
    assert garbage[n] != flat[n];
    garbage
  }

  // The copy of a sequence is the sequence, whatever the fresh block held before, exactly when its
  // elements are single bytes or there are none.
  lemma SharedSeqRoundTrip(s: seq<Bytes>, k: nat)
    requires k >= 1 && Elements(s, k)
    ensures |s| <= |Flat(s)|
    ensures (forall garbage: Bytes :: |garbage| == |Flat(s)| ==> Chunks(CopiedSeq(s, garbage), k, |s|) == s)
            <==> k == 1 || s == []
  {
    hide Chunks, Put;
    SeqFits(s, k);
    ChunksOfFlat(s, k);
    var flat := Flat(s);
    hide Flat;
    if |s| == |flat| {
      forall garbage: Bytes | |garbage| == |flat| ensures CopiedSeq(s, garbage) == flat {}
    } else {
      var garbage := Spoiled(flat, |s|);
      assert CopiedSeq(s, garbage) == garbage;
      FlatOfChunks(garbage, k, |s|);
    }
  }

  // Bytes as elements of one byte each.
  function Singles(b: Bytes): seq<Bytes> { seq(|b|, i requires 0 <= i < |b| => [b[i]]) }

  lemma {:induction false} SinglesAreFlat(b: Bytes)
    ensures |Singles(b)| == |b| && Elements(Singles(b), 1) && Flat(Singles(b)) == b
  {
    if |b| > 0 {
      SinglesAreFlat(b[1..]);
      assert Singles(b)[1..] == Singles(b[1..]);
      assert b == [b[0]] + b[1..];
    }
  }

  class SharedSeq {
    var data: Addr
    var len: nat
    const elementSize: nat

    // The elements that are read back from the heap.
    ghost function Held(heap: Heap): seq<Bytes>
      requires len > 0 ==> data in heap.blocks
      reads this, heap
    {
      if len == 0 then [] else Chunks(heap.blocks[data], elementSize, len)
    }

    // allocSharedSeq
    constructor (heap: Heap, s: seq<Bytes>, k: nat)
      requires heap.Valid() && k >= 1 && Elements(s, k)
      modifies heap
      ensures heap.Valid() && data == old(heap.next) && len == |s| && elementSize == k
      ensures heap.next == old(heap.next) + 1 && heap.misfrees == old(heap.misfrees)
      ensures data !in old(heap.blocks) && data in heap.blocks
              && heap.blocks == old(heap.blocks)[data := heap.blocks[data]]
      ensures exists garbage: Bytes :: |s| <= |Flat(s)| == |garbage| && heap.blocks[data] == CopiedSeq(s, garbage)
      ensures |heap.blocks[data]| == k * |s|
      ensures k == 1 || s == [] ==> Held(heap) == s
    {
      SeqFits(s, k);
      var p := heap.AllocShared(k * |s|);
      ghost var garbage := heap.blocks[p];
      if |s| != 0 {
        heap.CopyMem(p, Flat(s), |s|);
      }
      assert heap.blocks[p] == CopiedSeq(s, garbage);
      data, len, elementSize := p, |s|, k;
      SharedSeqRoundTrip(s, k);
    }

    // toSeq
    method ToSeq(heap: Heap) returns (ret: seq<Bytes>)
      requires len > 0 ==> data in heap.blocks && |heap.blocks[data]| == elementSize * len
      ensures ret == Held(heap)
    {
      ret := [];
      if len > 0 {
        var rest := heap.blocks[data];
        var i := 0;
        while i < len
          invariant 0 <= i <= len && |ret| == i && |rest| == elementSize * (len - i)
          invariant ret + Chunks(rest, elementSize, len - i) == Chunks(heap.blocks[data], elementSize, len)
        {
          OneMoreElement(elementSize, len - i);
          ret := ret + [rest[..elementSize]];
          rest := rest[elementSize..];
          i := i + 1;
        }
        assert Chunks(rest, elementSize, 0) == [];
      }
    }

    // deallocSharedSeq
    method Dealloc(heap: Heap)
      requires heap.Valid()
      modifies this, heap
      ensures heap.Valid() && heap.next == old(heap.next) && heap.blocks == old(heap.blocks) - {data}
      ensures len == 0 && Held(heap) == []
      ensures heap.misfrees == old(heap.misfrees) + (if data in old(heap.blocks) then 0 else 1)
      ensures data == old(data)
    {
      heap.DeallocShared(data);
      len := 0;
    }
  }
}

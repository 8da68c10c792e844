/** BTstack's ring buffer: a bounded byte queue in a circular array. */
module RingBuffers {
  import opened Machine

  // ---- The circular view ----

  function Wrap(i: nat, n: nat): int {
    if i < n then i else i - n
  }

  function QueueLength(rd: nat, wr: nat, full: bool, n: nat): int {
    if full then n else if wr >= rd then wr - rd else wr + n - rd
  }

  /** The queued bytes, oldest first: from the read index on, around the end of the storage. */
  ghost function Queue(st: seq<uint8>, rd: nat, wr: nat, full: bool): (q: seq<uint8>)
    requires rd < |st| && wr < |st| && (full ==> rd == wr)
    ensures |q| == QueueLength(rd, wr, full, |st|) <= |st|
    ensures forall k :: 0 <= k < |q| ==> q[k] == st[Wrap(rd + k, |st|)]
  {
    seq(QueueLength(rd, wr, full, |st|), k requires 0 <= k < QueueLength(rd, wr, full, |st|) => st[Wrap(rd + k, |st|)])
  }

  /** Storing `data` circularly from the write index on, where there is room, appends it. */
  lemma StoredAppends(before: seq<uint8>, after: seq<uint8>, rd: nat, wr: nat, full: bool, data: seq<uint8>)
    requires rd < |before| == |after| && wr < |before| && (full ==> rd == wr)
    requires 0 < |data| && |Queue(before, rd, wr, full)| + |data| <= |before|
    requires forall i :: 0 <= i < |after| ==>
      after[i] == if wr <= i < wr + |data| then data[i - wr]
                  else if i < wr + |data| - |after| then data[i + |after| - wr]
                  else before[i]
    ensures var wr' := Wrap(wr + |data|, |after|);
            Queue(after, rd, wr', wr' == rd) == Queue(before, rd, wr, full) + data
  {
    var n, wr' := |after|, Wrap(wr + |data|, |after|);
    var q, q' := Queue(before, rd, wr, full), Queue(after, rd, wr', wr' == rd);
    assert |q'| == |q| + |data|;
    forall k | 0 <= k < |q'| ensures q'[k] == (q + data)[k] {
      if k >= |q| {
        assert Wrap(rd + k, n) == Wrap(wr + (k - |q|), n);
      }
    }
  }

  /** Moving the read index forward drops the oldest bytes. */
  lemma SkippedDrops(st: seq<uint8>, rd: nat, wr: nat, full: bool, k: nat)
    requires rd < |st| && wr < |st| && (full ==> rd == wr)
    requires 0 < k <= |Queue(st, rd, wr, full)|
    ensures Queue(st, Wrap(rd + k, |st|), wr, false) == Queue(st, rd, wr, full)[k..]
  {
  }

  /** `memcpy` into an array. */
  method CopyInto(dst: array<uint8>, at: nat, src: seq<uint8>)
    requires at + |src| <= dst.Length
    modifies dst
    ensures forall i :: 0 <= i < dst.Length ==> dst[i] == if at <= i < at + |src| then src[i - at] else old(dst[i])
  {
    for k := 0 to |src|
      invariant forall i :: 0 <= i < dst.Length ==> dst[i] == if at <= i < at + k then src[i - at] else old(dst[i])
    {
      dst[at + k] := src[k];
    }
  }

  /** The two `memcpy` calls of a write: `data` goes to the storage from index wr on, around its end. */
  method CopyIn(storage: array<uint8>, wr: nat, data: seq<uint8>) returns (wr': nat)
    requires wr < storage.Length && 0 < |data| <= storage.Length
    modifies storage
    ensures wr' == Wrap(wr + |data|, storage.Length)
    ensures forall i :: 0 <= i < storage.Length ==>
      storage[i] == if wr <= i < wr + |data| then data[i - wr]
                    else if i < wr + |data| - storage.Length then data[i + storage.Length - wr]
                    else old(storage[i])
  {
    var bytesUntilEnd := storage.Length - wr;
    var bytesToCopy := Min(bytesUntilEnd, |data|);
    CopyInto(storage, wr, data[..bytesToCopy]);
    var remaining := data[bytesToCopy..];
    wr' := wr + bytesToCopy;
    if wr' == storage.Length {
      wr' := 0;
    }
    if |remaining| != 0 {
      CopyInto(storage, 0, remaining);
      wr' := wr' + |remaining|;
    }
  }

  /** The two `memcpy` calls of a read: n bytes of the storage from index rd on, around its end. */
  method CopyOut(storage: array<uint8>, rd: nat, n: nat, data: array<uint8>, at: nat) returns (rd': nat)
    requires storage != data && rd < storage.Length && 0 < n <= storage.Length && at + n <= data.Length
    modifies data
    ensures rd' == Wrap(rd + n, storage.Length)
    ensures forall i :: 0 <= i < data.Length ==>
      data[i] == if at <= i < at + n then storage[Wrap(rd + (i - at), storage.Length)] else old(data[i])
  {
    var bytesUntilEnd := storage.Length - rd;
    var bytesToCopy := Min(bytesUntilEnd, n);
    CopyInto(data, at, storage[rd..rd + bytesToCopy]);
    var remaining := n - bytesToCopy;
    rd' := rd + bytesToCopy;
    if rd' == storage.Length {
      rd' := 0;
    }
    if remaining != 0 {
      CopyInto(data, at + bytesToCopy, storage[..remaining]);
      rd' := rd' + remaining;
    }
  }

  class RingBuffer {
    const storage: array<uint8>
    var lastReadIndex: nat
    var lastWrittenIndex: nat
    var full: bool
    ghost var contents: seq<uint8>  // the queued bytes, oldest first

    ghost predicate Valid()
      reads this, storage
    {
      && lastReadIndex < storage.Length && lastWrittenIndex < storage.Length
      && (full ==> lastReadIndex == lastWrittenIndex)
      && contents == Queue(storage[..], lastReadIndex, lastWrittenIndex, full)
    }

    constructor (size: nat)
      requires size > 0
      ensures Valid() && fresh(storage) && storage.Length == size && contents == []
    {
      storage := new uint8[size](_ => 0);
      lastReadIndex, lastWrittenIndex, full := 0, 0, false;
      contents := [];
    }

    method BytesAvailable() returns (n: nat)
      requires Valid()
      ensures n == |contents| <= storage.Length
    {
      if full {
        return storage.Length;
      }
      var diff := lastWrittenIndex as int - lastReadIndex;
      if diff >= 0 {
        return diff;
      }
      return diff + storage.Length;
    }

    method BytesFree() returns (n: nat)
      requires Valid()
      ensures n == storage.Length - |contents|
    {
      var available := BytesAvailable();
      n := storage.Length - available;
    }

    /** All or nothing: the data is appended if there is room for all of it. */
    method Write(data: seq<uint8>) returns (ok: bool)
      requires Valid()
      modifies this, storage
      ensures Valid() && ok == (|old(contents)| + |data| <= storage.Length)
      ensures contents == if ok then old(contents) + data else old(contents)
    {
      var free := BytesFree();
      if free < |data| {
        return false;
      }
      if |data| == 0 {
        assert contents + data == contents;
        return true;
      }
      ghost var before, rd, wr, wasFull := storage[..], lastReadIndex, lastWrittenIndex, full;
      lastWrittenIndex := CopyIn(storage, lastWrittenIndex, data);
      StoredAppends(before, storage[..], rd, wr, wasFull, data);
      if lastWrittenIndex == lastReadIndex {
        full := true;
      }
      contents := contents + data;
      ok := true;
    }

    /** Moves up to `length` of the oldest bytes into `data` from `at` on. */
    method Read(data: array<uint8>, at: nat, length: nat) returns (bytesRead: nat)
      requires Valid() && data != storage && at + length <= data.Length
      modifies this, data
      ensures Valid() && bytesRead == Min(length, |old(contents)|)
      ensures contents == old(contents)[bytesRead..]
      ensures forall i :: 0 <= i < data.Length ==>
        data[i] == if at <= i < at + bytesRead then old(contents)[i - at] else old(data[i])
    {
      var available := BytesAvailable();
      bytesRead := Min(length, available);
      if bytesRead == 0 {
        return;
      }
      SkippedDrops(storage[..], lastReadIndex, lastWrittenIndex, full, bytesRead);
      lastReadIndex := CopyOut(storage, lastReadIndex, bytesRead, data, at);
      full := false;
      contents := contents[bytesRead..];
    }
  }
}

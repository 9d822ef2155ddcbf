/** A pool of bytes addressed by offset, that only grows at its end. */
module MixedPool {
  import opened Arena
  import opened Arithmetic
  import opened Bits
  import opened PoolBytes

  /** (size + 15) & (-16): up to a multiple of 16. */
  function RoundUp(size: nat): int {
    AndNot(size + 15, 15)
  }

  lemma Masked15(a: int)
    ensures And(a, 15) == a % 16
  {
    hide And;
    assert Pow2(2) == 4;
    assert Pow2(4) == 16;
    AndMask(a, 4);
  }

  lemma RoundUpIsLeastMultiple(size: nat)
    ensures size <= RoundUp(size) < size + 16 && RoundUp(size) % 16 == 0
  {
    hide And;
    var q := (size + 15) / 16;
    Masked15(size + 15);
    Divided(size + 15, 16);
    Quotient(q, 16, 0, 16 * q);
  }

  function Zeros(n: nat): (z: seq<byte>)
    ensures |z| == n && forall i :: 0 <= i < n ==> z[i] == 0
  {
    seq(n, _ => 0)
  }

  /** (size + a - 1) / a * a. */
  function AlignUp(size: nat, a: nat): nat
    requires a > 0
  {
    NotNegative((size + a - 1) / a, a);
    (size + a - 1) / a * a
  }

  /** The least multiple of a that is not below size. */
  lemma AlignUpIsLeastMultiple(size: nat, a: nat, m: nat)
    requires a > 0
    ensures size <= AlignUp(size, a) && AlignUp(size, a) % a == 0
    ensures size <= m && m % a == 0 ==> AlignUp(size, a) <= m
  {
    var q := (size + a - 1) / a;
    Divided(size + a - 1, a);
    Quotient(q, a, 0, q * a);
    if m % a == 0 && m < q * a { NextMultiple(m, q * a, a); }
  }

  /** The pool's bytes as operations change them. */
  datatype Change =
    | Push(bytes: seq<byte>)
    | PushOwn(at: nat, n: nat)
    | Align(a: nat)
    | Resize(size: nat)
    | Reserve(size: nat)

  ghost predicate Possible(s: seq<byte>, op: Change) {
    (op.Align? ==> op.a > 0) && (op.PushOwn? ==> op.at + op.n <= |s|)
  }

  function After(s: seq<byte>, op: Change): (t: seq<byte>)
    requires Possible(s, op)
  {
    match op
    case Push(bytes) => s + bytes
    case PushOwn(at, n) => s + s[at..at + n]
    case Align(a) =>
      AlignUpIsLeastMultiple(|s|, a, 0);
      s + Zeros(AlignUp(|s|, a) - |s|)
    case Resize(size) => if size <= |s| then s[..size] else s + Zeros(size - |s|)
    case Reserve(size) => if size == 0 then [] else s
  }

  /** An operation that takes nothing out of a pool of these bytes. */
  ghost predicate Keeps(s: seq<byte>, op: Change) {
    match op
    case Push(_) => true
    case PushOwn(_, _) => true
    case Align(_) => true
    case Resize(size) => size >= |s|
    case Reserve(size) => size > 0
  }

  ghost predicate AllPossible(s: seq<byte>, ops: seq<Change>)
    decreases |ops|
  {
    ops != [] ==> Possible(s, ops[0]) && AllPossible(After(s, ops[0]), ops[1..])
  }

  ghost predicate AllKeep(s: seq<byte>, ops: seq<Change>)
    requires AllPossible(s, ops)
    decreases |ops|
  {
    ops != [] ==> Keeps(s, ops[0]) && AllKeep(After(s, ops[0]), ops[1..])
  }

  ghost function AfterAll(s: seq<byte>, ops: seq<Change>): seq<byte>
    requires AllPossible(s, ops)
    decreases |ops|
  {
    if ops == [] then s else AfterAll(After(s, ops[0]), ops[1..])
  }

  lemma {:induction false} PrefixStays(s: seq<byte>, ops: seq<Change>)
    requires AllPossible(s, ops) && AllKeep(s, ops)
    ensures |s| <= |AfterAll(s, ops)| && AfterAll(s, ops)[..|s|] == s
    decreases |ops|
  {
    if ops == [] {
    } else {
      var t := After(s, ops[0]);
      assert |s| <= |t| && t[..|s|] == s;
      PrefixStays(t, ops[1..]);
      assert AfterAll(t, ops[1..])[..|t|][..|s|] == s;
    }
  }

  /** memset to 0. */
  method ZeroBytes(dest: array<byte>, at: nat, n: nat)
    requires at + n <= dest.Length
    modifies dest
    ensures dest[..] == Overwrite(old(dest[..]), at, Zeros(n))
  {
    for k := 0 to n
      invariant forall x :: 0 <= x < dest.Length ==> dest[x] == if at <= x < at + k then 0 else old(dest[x])
    {
      dest[at + k] := 0;
    }
  }

  ghost predicate ZeroFrom(b: seq<byte>, n: nat) {
    forall i :: n <= i < |b| ==> b[i] == 0
  }

  /** Data written where only zeroes are. */
  lemma WriteAtEnd(b: seq<byte>, n: nat, data: seq<byte>)
    requires n + |data| <= |b| && ZeroFrom(b, n)
    ensures ZeroFrom(Overwrite(b, n, data), n + |data|) && Overwrite(b, n, data)[..n + |data|] == b[..n] + data
  {}

  /** Zeroes taken into the data. */
  lemma ZeroesAtEnd(b: seq<byte>, n: nat, m: nat)
    requires n <= m <= |b| && ZeroFrom(b, n)
    ensures ZeroFrom(b, m) && b[..m] == b[..n] + Zeros(m - n)
  {}

  /** Data erased at the end. */
  lemma EraseAtEnd(b: seq<byte>, n: nat, m: nat)
    requires m <= n <= |b| && ZeroFrom(b, n)
    ensures var c := Overwrite(b, m, Zeros(n - m)); ZeroFrom(c, m) && c[..m] == b[..n][..m]
  {}

  /** Copies the bytes at source[at..] behind the data, where zeroes are; these
      stay when there is no source. */
  method PutBytes(dest: array<byte>, n: nat, source: array?<byte>, at: nat, size: nat)
    requires n + size <= dest.Length && ZeroFrom(dest[..], n)
    requires source != null ==> at + size <= source.Length
    requires source == dest ==> at + size <= n || n + size <= at
    modifies dest
    ensures ZeroFrom(dest[..], n + size)
    ensures dest[..n + size]
      == old(dest[..n]) + if source == null then Zeros(size) else old(source[at..at + size])
  {
    hide Overwrite, ZeroFrom;
    if source == null {
      ZeroesAtEnd(dest[..], n, n + size);
    } else {
      WriteAtEnd(dest[..], n, source[at..at + size]);
      CopyBytes(dest, n, source, at, size);
    }
  }

  class MixedPool {
    var buffer: array?<byte>
    var BufferSize: nat
    var DataSize: nat
    var NumEntries: nat
    /** Buffers given back to the heap. */
    ghost var Freed: set<object>

    /** Every byte after the data is 0. */
    ghost predicate Valid()
      reads this, buffer
    {
      && (buffer == null <==> BufferSize == 0) && (buffer != null ==> buffer.Length == BufferSize && buffer !in Freed)
      && DataSize <= BufferSize && (buffer != null ==> ZeroFrom(buffer[..], DataSize))
    }

    ghost function Contents(): seq<byte>
      requires Valid()
      reads this, buffer
    {
      if buffer == null then [] else buffer[..DataSize]
    }

    constructor ()
      ensures Valid() && Contents() == [] && NumEntries == 0
    {
      buffer, BufferSize, DataSize, NumEntries, Freed := null, 0, 0, 0, {};
    }

    /** A larger buffer with the same bytes, the rest 0. The old one is not freed yet. */
    method NewBuffer(size: nat) returns (buffer2: array<byte>)
      requires Valid() && size > BufferSize
      ensures fresh(buffer2) && buffer2.Length == size && buffer2[..DataSize] == Contents()
      ensures ZeroFrom(buffer2[..], DataSize)
    {
      buffer2 := new byte[size];
      ZeroBytes(buffer2, 0, size);
      if buffer != null {
        CopyBytes(buffer2, 0, buffer, 0, BufferSize);
      }
    }

    method ReserveSize(size: nat)
      requires Valid()
      modifies this
      ensures Valid() && Contents() == After(old(Contents()), Change.Reserve(size))
      ensures size > 0 ==> BufferSize >= size && DataSize == old(DataSize) && NumEntries == old(NumEntries)
      ensures size == 0 ==> Contents() == [] && DataSize == NumEntries == 0 && buffer == null
      ensures BufferSize == if size == 0 then 0 else if size <= old(BufferSize) then old(BufferSize) else RoundUp(size)
      ensures buffer == old(buffer) || buffer == null || fresh(buffer)
    {
      if size <= BufferSize {
        if size == 0 {
          if buffer != null { Freed := Freed + {buffer}; }
          buffer, NumEntries, DataSize, BufferSize := null, 0, 0, 0;
        }
        return;
      }
      RoundUpIsLeastMultiple(size);
      var buffer2 := NewBuffer(RoundUp(size));
      if buffer != null { Freed := Freed + {buffer}; }
      buffer, BufferSize := buffer2, RoundUp(size);
    }

    /** Growing pushes zeroes, shrinking erases. */
    method SetDataSize(size: nat)
      requires Valid()
      modifies this, buffer
      ensures Valid() && Contents() == After(old(Contents()), Change.Resize(size)) && NumEntries == old(NumEntries)
      ensures |Contents()| == size
      ensures forall i :: 0 <= i < size ==> Contents()[i] == if i < |old(Contents())| then old(Contents())[i] else 0
      ensures buffer == old(buffer) || fresh(buffer)
    {
      hide Overwrite, ZeroFrom, RoundUp;
      if size > BufferSize {
        RoundUpIsLeastMultiple(size + 1024);
        ReserveSize(RoundUp(size + 1024));
      } else if size < DataSize {
        EraseAtEnd(buffer[..], DataSize, size);
        ZeroBytes(buffer, size, DataSize - size);
      }
      if size >= DataSize && buffer != null { ZeroesAtEnd(buffer[..], DataSize, size); }
      DataSize := size;
    }

    /** Adds the bytes at source[at..], or zeroes when there is no source. They may
        lie in the pool's own buffer, which is freed after they are copied, but
        not where they are copied to. */
    method Push(source: array?<byte>, at: nat, size: nat) returns (offset: nat)
      requires Valid()
      requires source != null ==> at + size <= source.Length && source !in Freed
      requires source != null && source == buffer ==>
        at + size <= DataSize || DataSize + size <= at || DataSize + size > BufferSize
      modifies this, buffer
      ensures Valid() && offset == old(DataSize) && NumEntries == old(NumEntries) + (if size > 0 then 1 else 0)
      ensures Contents() == After(old(Contents()),
                                  Change.Push(if source == null then Zeros(size) else old(source[at..at + size])))
      ensures BufferSize == var end := old(DataSize) + size;
        if end <= old(BufferSize) then old(BufferSize) else RoundUp(end * 2 + 1024)
      ensures buffer == old(buffer) || fresh(buffer)
    {
      hide ZeroFrom, RoundUp, Zeros;
      offset := DataSize;
      var newOffset := DataSize + size;
      assert source != null ==> source !in Freed;
      if newOffset > BufferSize {
        RoundUpIsLeastMultiple(newOffset * 2 + 1024);
        var newSize := RoundUp(newOffset * 2 + 1024);
        var buffer2 := NewBuffer(newSize);
        PutBytes(buffer2, offset, source, at, size);
        BufferSize := newSize;
        if buffer != null { Freed := Freed + {buffer}; }
        buffer := buffer2;
      } else if buffer != null {
        PutBytes(buffer, offset, source, at, size);
      }
      if size > 0 {
        DataSize := newOffset;
        NumEntries := NumEntries + 1;
      }
    }

    /** Moves the end of the data to a multiple of a. */
    method Align(a: nat)
      requires Valid() && a > 0
      modifies this
      ensures Valid() && Contents() == After(old(Contents()), Change.Align(a)) && NumEntries == old(NumEntries)
      ensures buffer == old(buffer) || fresh(buffer)
    {
      var newOffset := AlignUp(DataSize, a);
      AlignUpIsLeastMultiple(DataSize, a, 0);
      if newOffset > BufferSize {
        ReserveSize(newOffset * 2 + 1024);
      }
      DataSize := newOffset;
    }
  }

  /** One call of a client. */
  method Do(p: MixedPool, op: Change)
    requires p.Valid() && Possible(p.Contents(), op)
    modifies p, p.buffer
    ensures p.Valid() && p.Contents() == After(old(p.Contents()), op)
    ensures p.buffer == old(p.buffer) || p.buffer == null || fresh(p.buffer)
  {
    hide ZeroFrom, AlignUp, RoundUp;
    match op {
      case Push(bytes) =>
        var offset := PushBytes(p, bytes);
      case PushOwn(at, n) =>
        OwnBytes(p, at, n);
        var offset := p.Push(p.buffer, at, n);
      case Align(a) =>
        p.Align(a);
      case Resize(size) =>
        p.SetDataSize(size);
      case Reserve(size) =>
        p.ReserveSize(size);
    }
  }

  lemma OwnBytes(p: MixedPool, at: nat, n: nat)
    requires p.Valid() && at + n <= |p.Contents()|
    ensures p.buffer != null ==> p.buffer[at..at + n] == p.Contents()[at..at + n]
    ensures p.buffer == null ==> n == 0 && p.Contents()[at..at + n] == Zeros(n)
  {}

  /** Every run of calls does to the pool what it does to a sequence of bytes. */
  method Run(p: MixedPool, ops: seq<Change>)
    requires p.Valid() && AllPossible(p.Contents(), ops)
    modifies p, p.buffer
    ensures p.Valid() && p.Contents() == AfterAll(old(p.Contents()), ops)
    ensures p.buffer == old(p.buffer) || p.buffer == null || fresh(p.buffer)
  {
    hide Possible, After, ZeroFrom;
    ghost var s := p.Contents();
    for k := 0 to |ops|
      invariant p.Valid() && AllPossible(p.Contents(), ops[k..]) && AfterAll(p.Contents(), ops[k..]) == AfterAll(s, ops)
      invariant p.buffer == old(p.buffer) || p.buffer == null || fresh(p.buffer)
    {
      assert ops[k..][1..] == ops[k + 1..];
      Do(p, ops[k]);
    }
  }

  method PushBytes(p: MixedPool, bytes: seq<byte>) returns (offset: nat)
    requires p.Valid()
    modifies p, p.buffer
    ensures p.Valid() && p.Contents() == old(p.Contents()) + bytes && offset == |old(p.Contents())|
    ensures p.buffer == old(p.buffer) || fresh(p.buffer)
  {
    hide ZeroFrom, RoundUp;
    var source := new byte[|bytes|](k requires 0 <= k < |bytes| => bytes[k]);
    assert source[0..|bytes|] == bytes;
    offset := p.Push(source, 0, |bytes|);
  }

  /** What is pushed reads back at its offset after any run that takes nothing out. */
  method PushRunGet(p: MixedPool, bytes: seq<byte>, ops: seq<Change>) returns (offset: nat, read: seq<byte>)
    requires p.Valid() && bytes != []
    requires AllPossible(p.Contents() + bytes, ops) && AllKeep(p.Contents() + bytes, ops)
    modifies p, p.buffer
    ensures p.Valid() && p.Contents() == AfterAll(old(p.Contents()) + bytes, ops)
    ensures offset == |old(p.Contents())| && read == bytes
  {
    hide ZeroFrom, AfterAll, AllPossible, AllKeep;
    ghost var s := p.Contents();
    offset := PushBytes(p, bytes);
    Run(p, ops);
    PrefixStays(s + bytes, ops);
    read := p.buffer[offset..offset + |bytes|];
    assert read == p.Contents()[..|s + bytes|][|s|..];
  }
}

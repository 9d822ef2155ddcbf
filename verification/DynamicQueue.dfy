/** A first-in-first-out queue in a ring buffer that grows. */
module DynamicQueue {
  function RingIndex(i: int, size: int): int {
    if i >= size then i - size else i
  }

  /** The n elements from tail on, around the end of the ring. */
  function Unrolled<T>(ring: seq<T>, tail: nat, n: nat): (s: seq<T>)
    requires n <= |ring| && (n > 0 ==> tail < |ring|)
    ensures |s| == n && forall i :: 0 <= i < n ==> s[i] == ring[RingIndex(tail + i, |ring|)]
  {
    seq(n, i requires 0 <= i < n => ring[RingIndex(tail + i, |ring|)])
  }

  lemma UnrolledPut<T>(ring: seq<T>, tail: nat, n: nat, x: T)
    requires n < |ring| && tail < |ring|
    ensures Unrolled(ring[RingIndex(tail + n, |ring|) := x], tail, n + 1) == Unrolled(ring, tail, n) + [x]
  {}

  lemma UnrolledGet<T>(ring: seq<T>, tail: nat, n: nat)
    requires 0 < n <= |ring| && tail < |ring|
    ensures Unrolled(ring, RingIndex(tail + 1, |ring|), n - 1) == Unrolled(ring, tail, n)[1..]
  {}

  lemma UnrolledAssign<T>(ring: seq<T>, tail: nat, n: nat, i: nat, x: T)
    requires i < n <= |ring| && tail < |ring|
    ensures Unrolled(ring[RingIndex(tail + i, |ring|) := x], tail, n) == Unrolled(ring, tail, n)[i := x]
  {}

  /** An unbroken trail is one block, a wrapped or full one two. */
  lemma UnrolledBlocks<T>(ring: seq<T>, tail: nat, n: nat)
    requires 0 < n <= |ring| && tail < |ring|
    ensures tail + n < |ring| ==> Unrolled(ring, tail, n) == ring[tail..tail + n]
    ensures tail + n >= |ring| ==> Unrolled(ring, tail, n) == ring[tail..] + ring[..tail + n - |ring|]
  {}

  lemma UnrolledFront<T>(ring: seq<T>, n: nat)
    requires n <= |ring|
    ensures Unrolled(ring, 0, n) == ring[..n]
  {}

  /** memcpy, between separate blocks. */
  method Copy<T>(dest: array<T>, at: nat, source: array<T>, from: nat, n: nat)
    requires dest != source && at + n <= dest.Length && from + n <= source.Length
    modifies dest
    ensures dest[..] == old(dest[..at]) + source[from..from + n] + old(dest[at + n..])
  {
    for i := 0 to n
      invariant forall k :: 0 <= k < dest.Length ==>
        dest[k] == if at <= k < at + i then source[from + k - at] else old(dest[k])
    {
      dest[at + i] := source[from + i];
    }
  }

  method SetElement<T>(a: array<T>, at: nat, x: T)
    requires at < a.Length
    modifies a
    ensures a[..] == old(a[..])[at := x]
  {
    a[at] := x;
  }

  class DynamicQueue<T(0)> {
    /** The size of an object in bytes. */
    const objectSize: nat
    var Buffer: array?<T>
    var OldBuffer: array?<T>
    var head: nat
    var tail: nat
    var MaxNum: nat
    var NumEntries: nat
    /** Buffers given back to the heap. */
    ghost var Freed: set<object>
    /** Elements copied by re-allocation, and objects put. */
    ghost var Copied: nat
    ghost var Puts: nat

    ghost predicate Shape()
      reads this
    {
      && objectSize > 0
      && (Buffer == null <==> MaxNum == 0) && (Buffer != null ==> Buffer.Length == MaxNum && Buffer !in Freed)
      && NumEntries <= MaxNum
      && (if MaxNum == 0 then head == tail == 0 else tail < MaxNum && head == RingIndex(tail + NumEntries, MaxNum))
    }

    ghost predicate Valid()
      reads this
    {
      Shape() && OldBuffer == null
    }

    /** The objects in the queue, the oldest first. */
    ghost function Contents(): (s: seq<T>)
      requires Shape()
      reads this, Buffer
      ensures |s| == NumEntries
    {
      if Buffer == null then [] else Unrolled(Buffer[..], tail, NumEntries)
    }

    /** Re-allocation has cost no more than two copies for every object put. */
    ghost predicate Frugal()
      reads this
    {
      Copied <= 2 * Puts && Copied <= MaxNum && NumEntries <= Puts
    }

    constructor (size: nat)
      requires size > 0
      ensures Valid() && Contents() == [] && MaxNum == 0 && Frugal() && Copied == Puts == 0
    {
      objectSize := size;
      Buffer, OldBuffer := null, null;
      MaxNum, NumEntries, head, tail := 0, 0, 0, 0;
      Freed, Copied, Puts := {}, 0, 0;
    }

    /** Copies the trail to the start of a larger buffer, in one block or in two. */
    method CopyTrail(dest: array<T>)
      requires Shape() && Buffer != null && dest != Buffer && dest.Length > MaxNum
      modifies dest
      ensures Shape() && dest[..NumEntries] == Contents() == old(Contents())
    {
      hide Unrolled;
      if NumEntries > 0 { UnrolledBlocks(Buffer[..], tail, NumEntries); }
      if tail < head {
        Copy(dest, 0, Buffer, tail, NumEntries);
      } else if NumEntries > 0 {
        Copy(dest, 0, Buffer, tail, MaxNum - tail);
        if head > 0 {
          Copy(dest, MaxNum - tail, Buffer, 0, head);
        }
      }
    }

    /** A larger buffer, the queue unrolled to its start. The old one is not freed yet. */
    method ReAllocate(num: nat)
      requires Valid() && num > MaxNum
      modifies this
      ensures Shape() && Contents() == old(Contents()) && MaxNum == num && fresh(Buffer)
      ensures OldBuffer == old(Buffer) && Freed == old(Freed) && NumEntries == old(NumEntries)
      ensures Copied == old(Copied) + NumEntries && Puts == old(Puts) && head == NumEntries
    {
      hide Unrolled;
      var buffer2 := new T[num];
      if Buffer != null {
        CopyTrail(buffer2);
        tail, head := 0, NumEntries;
      }
      UnrolledFront(buffer2[..], NumEntries);
      Copied := Copied + NumEntries;
      OldBuffer := Buffer;
      Buffer := buffer2;
      MaxNum := num;
    }

    /** Grows the buffer, or empties the queue when num is 0. */
    method Reserve(num: nat)
      requires Valid()
      modifies this
      ensures Valid() && Contents() == (if num == 0 then [] else old(Contents()))
      ensures MaxNum == if num == 0 then 0 else if num > old(MaxNum) then num else old(MaxNum)
      ensures Buffer == old(Buffer) || Buffer == null || fresh(Buffer)
    {
      if num <= MaxNum {
        if num == 0 {
          if Buffer != null { Freed := Freed + {Buffer}; }
          Buffer := null;
          MaxNum, NumEntries, head, tail := 0, 0, 0, 0;
        }
        return;
      }
      ReAllocate(num);
      if OldBuffer != null {
        Freed := Freed + {OldBuffer};
        OldBuffer := null;
      }
    }

    /** The second half of Put: there is room, and the old buffer is still there. */
    method Insert(source: array<T>, at: nat)
      requires Shape() && OldBuffer != Buffer && NumEntries < MaxNum && at < source.Length && source !in Freed
      modifies `OldBuffer, `Freed, `head, `NumEntries, `Puts, Buffer
      ensures Valid() && Contents() == old(Contents() + [source[at]])
      ensures NumEntries == old(NumEntries) + 1 && Puts == old(Puts) + 1
    {
      hide Unrolled;
      UnrolledPut(Buffer[..], tail, NumEntries, source[at]);
      assert source !in Freed;
      SetElement(Buffer, head, source[at]);
      if OldBuffer != null {
        Freed := Freed + {OldBuffer};
        OldBuffer := null;
      }
      head := head + 1;
      if head >= MaxNum { head := 0; }
      NumEntries := NumEntries + 1;
      Puts := Puts + 1;
    }

    /** Adds the object that source[at] refers to, which may lie in the queue's
        own buffer: it is read before the old buffer is freed. */
    method Put(source: array<T>, at: nat)
      requires Valid() && at < source.Length && source !in Freed
      modifies this, Buffer
      ensures Valid() && Contents() == old(Contents() + [source[at]])
      ensures Buffer == old(Buffer) || fresh(Buffer)
      ensures MaxNum == if old(NumEntries) < old(MaxNum) then old(MaxNum)
                        else old(MaxNum) * 2 + (1024 + objectSize - 1) / objectSize
      ensures Puts == old(Puts) + 1 && (old(Frugal()) ==> Frugal())
    {
      hide Unrolled;
      if NumEntries >= MaxNum {
        var newSize := MaxNum * 2 + (1024 + objectSize - 1) / objectSize;
        Grows(objectSize);
        ReAllocate(newSize);
      }
      Insert(source, at);
    }

    /** Takes the oldest object out. */
    method Get() returns (x: T)
      requires Valid() && NumEntries > 0
      modifies this
      ensures Valid() && old(Contents()) == [x] + Contents() && Buffer == old(Buffer)
      ensures Puts == old(Puts) && (old(Frugal()) ==> Frugal())
    {
      UnrolledGet(Buffer[..], tail, NumEntries);
      var p := tail;
      tail := tail + 1;
      if tail >= MaxNum { tail := 0; }
      NumEntries := NumEntries - 1;
      x := Buffer[p];
    }

    /** operator[]: a reference to the object at position i from the tail. */
    method Index(i: nat) returns (buffer: array<T>, at: nat)
      requires Valid() && i < NumEntries
      ensures buffer == Buffer && at == RingIndex(tail + i, MaxNum) && at < buffer.Length && buffer[at] == Contents()[i]
    {
      at := i + tail;
      if at >= MaxNum { at := at - MaxNum; }
      buffer := Buffer;
    }
  }

  lemma Grows(objectSize: nat)
    requires objectSize > 0
    ensures (1024 + objectSize - 1) / objectSize >= 1
  {}

  /** What a client does with a queue. */
  datatype Op<T> = PutNew(x: T) | PutOwn(i: nat) | Take | Assign(i: nat, x: T) | Reserve(num: nat)

  ghost predicate Possible<T>(s: seq<T>, op: Op<T>) {
    match op
    case PutNew(_) => true
    case PutOwn(i) => i < |s|
    case Take => s != []
    case Assign(i, _) => i < |s|
    case Reserve(_) => true
  }

  /** The queue as a plain sequence. */
  function Fifo<T>(s: seq<T>, op: Op<T>): seq<T>
    requires Possible(s, op)
  {
    match op
    case PutNew(x) => s + [x]
    case PutOwn(i) => s + [s[i]]
    case Take => s[1..]
    case Assign(i, x) => s[i := x]
    case Reserve(num) => if num == 0 then [] else s
  }

  /** What a run leaves, and what its Takes returned; none if a step is impossible. */
  datatype Outcome<T> = Stuck | Left(s: seq<T>, taken: seq<T>)

  ghost function Outcomes<T>(s: seq<T>, ops: seq<Op<T>>): Outcome<T> {
    if ops == [] then Left(s, [])
    else
      var last := ops[|ops| - 1];
      match Outcomes(s, ops[..|ops| - 1])
      case Stuck => Stuck
      case Left(t, taken) =>
        if !Possible(t, last) then Stuck
        else Left(Fifo(t, last), if last.Take? then taken + [t[0]] else taken)
  }

  ghost predicate NoReserve<T>(ops: seq<Op<T>>) {
    forall k :: 0 <= k < |ops| ==> !ops[k].Reserve?
  }

  lemma {:induction false} PrefixPossible<T>(s: seq<T>, ops: seq<Op<T>>, k: nat)
    requires k <= |ops| && Outcomes(s, ops).Left?
    ensures Outcomes(s, ops[..k]).Left?
    decreases |ops|
  {
    if k == |ops| {
      assert ops[..k] == ops;
    } else {
      PrefixPossible(s, ops[..|ops| - 1], k);
      assert ops[..|ops| - 1][..k] == ops[..k];
    }
  }

  /** One step of a client. */
  method AssignAt<T(0)>(q: DynamicQueue<T>, i: nat, x: T)
    requires q.Valid() && i < q.NumEntries
    modifies q.Buffer
    ensures q.Valid() && q.Contents() == old(q.Contents())[i := x]
    ensures q.Frugal() == old(q.Frugal())
  {
    hide Unrolled;
    UnrolledAssign(q.Buffer[..], q.tail, q.NumEntries, i, x);
    var buffer, at := q.Index(i);
    SetElement(buffer, at, x);
  }

  method Do<T(0)>(q: DynamicQueue<T>, op: Op<T>) returns (taken: seq<T>)
    requires q.Valid() && Possible(q.Contents(), op)
    modifies q, q.Buffer
    ensures q.Valid() && q.Contents() == Fifo(old(q.Contents()), op)
    ensures taken == if op.Take? then [old(q.Contents())[0]] else []
    ensures q.Buffer == old(q.Buffer) || q.Buffer == null || fresh(q.Buffer)
    ensures !op.Reserve? && old(q.Frugal()) ==> q.Frugal()
  {
    hide Unrolled;
    taken := [];
    match op {
      case PutNew(x) =>
        var obj := new T[1](_ => x);
        q.Put(obj, 0);
      case PutOwn(i) =>
        var buffer, at := q.Index(i);
        q.Put(buffer, at);
      case Take =>
        var x := q.Get();
        taken := [x];
      case Assign(i, x) =>
        AssignAt(q, i, x);
      case Reserve(num) =>
        q.Reserve(num);
    }
  }

  /** Every run of the queue is a run of the sequence; without Reserve it copies
      no more than two elements for every object put. */
  method Run<T(0)>(q: DynamicQueue<T>, ops: seq<Op<T>>) returns (taken: seq<T>)
    requires q.Valid() && Outcomes(q.Contents(), ops).Left?
    modifies q, q.Buffer
    ensures q.Valid() && Outcomes(old(q.Contents()), ops) == Left(q.Contents(), taken)
    ensures NoReserve(ops) && old(q.Frugal()) ==> q.Copied <= 2 * q.Puts
  {
    hide Fifo, Possible, Unrolled, RingIndex;
    ghost var s := q.Contents();
    ghost var frugal := NoReserve(ops) && q.Frugal();
    taken := [];
    for k := 0 to |ops|
      invariant q.Valid() && Outcomes(s, ops[..k]) == Left(q.Contents(), taken)
      invariant q.Buffer == old(q.Buffer) || q.Buffer == null || fresh(q.Buffer)
      invariant frugal ==> q.Frugal()
    {
      PrefixPossible(s, ops, k + 1);
      assert ops[..k + 1][..k] == ops[..k];
      var x := Do(q, ops[k]);
      taken := taken + x;
    }
    assert ops[..|ops|] == ops;
  }
}

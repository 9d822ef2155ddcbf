/** The string pools. One class stands for both: with format Sized it is the
    pool that stores the length of each string, with format Terminated the one
    that counts up to the zero. */
module StringPool {
  import opened Arena
  import opened Arithmetic
  import opened PoolBytes
  import opened PoolLayout

  const ALLOCATE_SPACE2 := 1024

  class StringPool {
    const format: Format

    var Buffer: array?<byte>
    var OldBuffer: array?<byte>
    var Offsets: array?<nat>
    var BufferSize: nat
    var OffsetsSize: nat
    var DataSize: nat
    var GarbageSize: nat
    var Top: nat
    var Num: nat

    /** The slots that the buffer holds. */
    ghost var Model: Arena
    /** The buffers that have been released. */
    ghost var Freed: set<array?<byte>>

    ghost function Index(): seq<nat>
      reads `Offsets, Offsets
    {
      if Offsets == null then [] else Offsets[..]
    }

    ghost predicate OffsetsAllocated()
      reads `OffsetsSize, `Offsets, Offsets
    {
      OffsetsSize == |Index()|
    }

    ghost predicate Alive()
      reads `Buffer, `OldBuffer, `Freed
    {
      (Buffer != null ==> Buffer !in Freed) && (OldBuffer != null ==> OldBuffer !in Freed && OldBuffer != Buffer)
    }

    /** The fields are those of the model. */
    ghost predicate Laid()
      reads this, Buffer, Offsets
    {
      && OffsetsAllocated() && Num == |Model.slots| && Indexes(Index(), Model.slots)
      && (if Buffer == null then Bare(format, Model) else Stores(format, Buffer[..], Model))
      && BufferSize == Model.cap && DataSize == Model.used && GarbageSize == Model.garbage && Top == Model.top
      && Model.overhead == Overhead(format) && Model.hasBuffer == (Buffer != null) && Alive()
    }

    /** And the format can store every text. */
    ghost predicate Rep()
      reads this, Buffer, Offsets
    {
      Laid() && Readable(format, Model)
    }

    ghost predicate Valid()
      reads this, Buffer, Offsets
    {
      Rep() && Sound(Model)
    }

    /** The pool has become arena a, well formed, and can be read if this text can. */
    ghost predicate Stored(a: Arena, text: Text)
      reads this, Buffer, Offsets
    {
      Laid() && Model == a && Sound(a) && (Storable(format, text) ==> Valid())
    }

    /** The table and the counters are those of arena a. */
    ghost predicate Matches(a: Arena)
      reads this, Offsets
    {
      && OffsetsAllocated() && Num == |a.slots| && Indexes(Index(), a.slots)
      && BufferSize == a.cap && DataSize == a.used && GarbageSize == a.garbage && Top == a.top
    }

    /** Between these two states no buffer was released but an old one, and a
        replaced buffer became the old one. */
    ghost predicate Handover(buffer: array?<byte>, oldBuffer: array?<byte>, freed: set<array?<byte>>)
      reads `Buffer, `OldBuffer, `Freed
    {
      if Buffer == buffer then OldBuffer == oldBuffer && Freed == freed
      else Freed <= freed + {oldBuffer} && (buffer != null ==> OldBuffer == buffer)
    }

    lemma Unmoved()
      ensures Handover(Buffer, OldBuffer, Freed)
    {}

    /** n bytes at s[at] can be read: they are not in a released buffer, and if
        they are in this pool's buffer, then they are in one of its texts. */
    ghost predicate Source(s: array<byte>, at: nat, n: nat)
      reads this
    {
      s !in Freed && s != OldBuffer && at + n <= s.Length && (s == Buffer ==> InText(Model, at, n))
    }

    constructor (f: Format)
      ensures Valid() && format == f && Model == Empty(Overhead(f)) && Buffer == null && OldBuffer == null
      ensures Freed == {}
    {
      format := f;
      Buffer, OldBuffer, Offsets := null, null, null;
      BufferSize, OffsetsSize, DataSize, GarbageSize, Top, Num := 0, 0, 0, 0, 0, 0;
      Model, Freed := Empty(Overhead(f)), {};
    }

    // ---------- reading ----------

    /** The length found for the text at this offset. */
    method LengthAtOffset(off: nat, ghost text: Text) returns (n: nat)
      requires Buffer != null && EncodedAt(format, Buffer[..], off, text)
      ensures n == ReadLength(format, Encode(format, text), 0)
      ensures Storable(format, text) ==> n == |text|
    {
      ReadSame(format, Buffer[..], off, text);
      ReadLengthExact(format, text);
      match format
      case Sized =>
        n := Buffer[off] as int + 256 * Buffer[off + 1] as int;
      case Terminated =>
        n := StrLen(Buffer, off);
    }

    /** The length found for string i: its own, if the format can store it. */
    method Len(i: nat) returns (n: nat)
      requires Laid() && i < Num && Buffer != null
      ensures n == ReadLength(format, Encode(format, Texts(Model)[i]), 0)
      ensures Storable(format, Texts(Model)[i]) ==> n == |Texts(Model)[i]|
    {
      hide Stores, EncodedAt, Storable, Encode, ReadLength;
      StoredText(format, Buffer[..], Model, i);
      IndexAt(Index(), Model.slots, i);
      n := LengthAtOffset(Offsets[i], Texts(Model)[i]);
    }

    /** Where the bytes of string i begin. */
    method Get(i: nat) returns (s: array?<byte>, p: nat)
      requires Laid() && i < Num
      ensures s == Buffer && (s == null ==> Texts(Model)[i] == [] && p == Overhead(format) - 1)
      ensures s != null ==>
        var text := Texts(Model)[i]; p + |text| < s.Length && s[p..p + |text|] == text && s[p + |text|] == 0
      ensures p == OffsetOf(Model.slots[i]) + Overhead(format) - 1
    {
      hide Stores, EncodedAt, Storable, Encode;
      IndexAt(Index(), Model.slots, i);
      if Buffer != null {
        StoredText(format, Buffer[..], Model, i);
        EncodedBytes(format, Buffer[..], Offsets[i], Texts(Model)[i]);
      }
      s, p := Buffer, Offsets[i] + Overhead(format) - 1;
    }

    // ---------- the offset table ----------

    /** Makes room for more indices; the new ones are empty. */
    method ReserveNum(newsize: nat)
      requires OffsetsAllocated()
      modifies this`Offsets, this`OffsetsSize
      ensures OffsetsAllocated()
      ensures OffsetsSize == if newsize <= old(OffsetsSize) then old(OffsetsSize)
                             else Max(newsize, old(OffsetsSize) * 2 + ALLOCATE_SPACE2)
      ensures Offsets == old(Offsets) || fresh(Offsets)
      ensures Index() == old(Index()) + seq(OffsetsSize - old(OffsetsSize), _ => 0)
      ensures old(Valid()) ==> Valid()
    {
      if newsize <= OffsetsSize { return; }
      var size := newsize;
      if size < OffsetsSize * 2 + ALLOCATE_SPACE2 {
        size := OffsetsSize * 2 + ALLOCATE_SPACE2;
      }
      var offsets, used := Offsets, OffsetsSize;
      var offsets2 := new nat[size];
      for k := 0 to used
        invariant forall x :: 0 <= x < k ==> offsets2[x] == offsets[x]
      {
        offsets2[k] := offsets[k];
      }
      for k := used to size
        invariant forall x :: 0 <= x < k ==> offsets2[x] == if x < used then offsets[x] else 0
      {
        offsets2[k] := 0;
      }
      Offsets, OffsetsSize := offsets2, size;
      assert Index() == old(Index()) + seq(OffsetsSize - old(OffsetsSize), _ => 0);
    }

    /** Makes index i exist. */
    method Reach(i: nat)
      requires Valid()
      modifies `Num, `Offsets, `OffsetsSize, `Model
      ensures Valid() && Model == Grow(old(Model), i + 1) && i < Num
      ensures Offsets == old(Offsets) || fresh(Offsets)
    {
      hide Inv, Stores, Bare, Indexes, Grow;
      ghost var offs := Index();
      if i >= Num {
        Num := i + 1;
        if i >= OffsetsSize {
          ReserveNum(i + 1);
        }
      }
      GrowShape(format, Buffer, Model, offs, i + 1, OffsetsSize - |offs|);
      ReadableGrow(format, Model, i + 1);
      assert Index() == offs + seq(OffsetsSize - |offs|, _ => 0);
      Model := Grow(Model, i + 1);
    }

    /** Gives up the slot of index i. */
    method EraseSlot(i: nat)
      requires Valid() && i < Num
      modifies Offsets, `GarbageSize, `Model
      ensures Valid() && Model == Erase(old(Model), i)
    {
      hide Inv, Stores, Bare, Indexes, Erase;
      SlotAt(Model, i, Index());
      EraseShape(format, Buffer, Model, Index(), i);
      ReadableErase(format, Model, i);
      ghost var offs := Index();
      if Offsets[i] != 0 {
        var len := Len(i);
        GarbageSize := GarbageSize + len + Overhead(format);
        Offsets[i] := 0;
        assert Index() == offs[i := 0];
      }
      Model := Erase(Model, i);
    }

    // ---------- the collector ----------

    /** Moves every text to a new buffer of at least this size. The old buffer
        stays in OldBuffer, as a string that is being copied may lie in it. */
    method ReserveBuf(newsize: nat)
      requires Rep() && GarbageSize <= DataSize
      requires PackedTotal(Model.slots, Overhead(format)) <= Max(newsize, (DataSize - GarbageSize) * 2 + ALLOCATE_SPACE)
      modifies this, Offsets
      ensures Rep() && Model == Compact(old(Model), newsize)
      ensures Buffer != null && fresh(Buffer) && Offsets == old(Offsets) && Num == old(Num)
      ensures OldBuffer == if old(Buffer) != null then old(Buffer) else old(OldBuffer)
      ensures Freed == old(Freed) + if old(Buffer) != null && old(OldBuffer) != null then {old(OldBuffer)} else {}
    {
      hide Inv, Indexes, Stores, Bare, PackedTotal, Compact;
      CompactFields(Model, newsize);
      ReadableCompact(format, Model, newsize);
      var size := newsize;
      if size < (DataSize - GarbageSize) * 2 + ALLOCATE_SPACE {
        size := (DataSize - GarbageSize) * 2 + ALLOCATE_SPACE;
      }
      var buffer2, dataSize2 := NewBuffer(size, newsize);
      Install(buffer2, size + Overhead(format), dataSize2, Compact(Model, newsize));
    }

    /** Puts the new buffer in place; the old one is kept. */
    method Install(buffer2: array<byte>, bufferSize: nat, dataSize2: nat, ghost c: Arena)
      requires OffsetsAllocated() && Num == |c.slots| && Indexes(Index(), c.slots)
      requires Stores(format, buffer2[..], c) && c.overhead == Overhead(format) && c.hasBuffer
      requires Readable(format, c)
      requires bufferSize == c.cap && dataSize2 == c.used && Top == c.top && c.garbage == 0
      requires Alive() && buffer2 != Buffer && buffer2 != OldBuffer && buffer2 !in Freed
      modifies `Buffer, `BufferSize, `DataSize, `GarbageSize, `OldBuffer, `Freed, `Model
      ensures Rep() && Model == c && Buffer == buffer2
      ensures OldBuffer == if old(Buffer) != null then old(Buffer) else old(OldBuffer)
      ensures Freed == old(Freed) + if old(Buffer) != null && old(OldBuffer) != null then {old(OldBuffer)} else {}
    {
      hide Indexes, Stores;
      if Buffer != null {
        ReleaseOldBuffer();
        OldBuffer := Buffer;
      }
      Buffer, BufferSize := buffer2, bufferSize;
      DataSize, GarbageSize := dataSize2, 0;
      Model := c;
    }

    method ReleaseOldBuffer()
      modifies this`OldBuffer, this`Freed
      ensures OldBuffer == null
      ensures Freed == old(Freed) + if old(OldBuffer) != null then {old(OldBuffer)} else {}
    {
      if OldBuffer != null {
        Freed := Freed + {OldBuffer};
        OldBuffer := null;
      }
    }

    /** Allocates the new buffer and fills it. */
    method NewBuffer(size: nat, ghost newsize: nat) returns (buffer2: array<byte>, dataSize2: nat)
      requires Rep() && size + Overhead(format) == Compact(Model, newsize).cap
      requires PackedTotal(Model.slots, Overhead(format)) <= size
      modifies Offsets, this`Top, this`GarbageSize
      ensures fresh(buffer2) && Stores(format, buffer2[..], Compact(Model, newsize))
      ensures Indexes(Index(), Compact(Model, newsize).slots)
      ensures dataSize2 == Compact(Model, newsize).used && Top == Compact(Model, newsize).top
    {
      hide Inv, Indexes, Stores, Bare, PackedTotal, EncodedAt, Compact;
      var h := Overhead(format);
      buffer2 := new byte[size + h];
      if format.Sized? {
        buffer2[0], buffer2[1] := 0, 0;
      }
      buffer2[h - 1] := 0;
      EmptyHeader(format, buffer2[..]);
      dataSize2 := h;
      Top := h;
      if Buffer != null {
        dataSize2 := MoveTexts(buffer2, newsize);
      } else {
        NothingToMove(format, Model, buffer2[..], Index(), newsize);
      }
    }

    /** Copies the texts, in index order, behind the empty string in buffer2. */
    method MoveTexts(buffer2: array<byte>, ghost newsize: nat) returns (dataSize2: nat)
      requires Num == |Model.slots| && Indexes(Index(), Model.slots) && Model.overhead == Overhead(format)
      requires Readable(format, Model)
      requires Buffer != null && buffer2 != Buffer && Stores(format, Buffer[..], Model)
      requires buffer2.Length == Compact(Model, newsize).cap && EncodedAt(format, buffer2[..], 0, [])
      requires Top == Overhead(format)
      requires Overhead(format) + PackedTotal(Model.slots, Overhead(format)) <= buffer2.Length
      modifies buffer2, Offsets, this`Top, this`GarbageSize
      ensures dataSize2 == Compact(Model, newsize).used && Top == Compact(Model, newsize).top
      ensures Indexes(Index(), Compact(Model, newsize).slots)
      ensures Stores(format, buffer2[..], Compact(Model, newsize))
    {
      hide Indexes, Stores, PackedTotal, EncodedAt, Moved, Compact;
      dataSize2 := Overhead(format);
      ghost var m := Model;
      MovedNone(format, m, buffer2[..], Index());
      for i := 0 to Num
        invariant Moved(format, m, i, buffer2[..], Index(), dataSize2, Top)
      {
        dataSize2 := MoveText(i, buffer2, dataSize2);
      }
      MovedAll(format, m, Buffer[..], buffer2[..], Index(), dataSize2, Top, newsize);
    }

    /** Copies the text of index i to the end of the data in buffer2. An index
        whose text is empty loses its slot. */
    method MoveText(i: nat, buffer2: array<byte>, dataSize: nat) returns (dataSize2: nat)
      requires Buffer != null && buffer2 != Buffer && Stores(format, Buffer[..], Model)
      requires Model.overhead == Overhead(format)
      requires Readable(format, Model)
      requires i < |Model.slots| && Moved(format, Model, i, buffer2[..], Index(), dataSize, Top)
      modifies buffer2, Offsets, this`Top, this`GarbageSize
      ensures Moved(format, Model, i + 1, buffer2[..], Index(), dataSize2, Top)
    {
      hide Stores, EncodedAt, Moved, Storable;
      dataSize2 := dataSize;
      MovedSoFar(format, Model, i, buffer2[..], Index(), dataSize, Top);
      StoredText(format, Buffer[..], Model, i);
      ReadableSlot(format, Model, i);
      ghost var offs := Index();
      if Offsets[i] != 0 {
        var strlen := LengthAtOffset(Offsets[i], TextOf(Model.slots[i]));
        if strlen != 0 {
          MoveOne(format, Model, i, buffer2[..], offs, dataSize, Top);
          CopyBytes(buffer2, dataSize, Buffer, Offsets[i], strlen + Overhead(format));
          Offsets[i] := dataSize;
          Top := dataSize;
          dataSize2 := dataSize + strlen + Overhead(format);
          assert Index() == offs[i := dataSize];
        } else {
          MoveNothing(format, Model, i, buffer2[..], offs, dataSize, Top);
          Offsets[i] := 0;
          GarbageSize := GarbageSize + Overhead(format);
          assert Index() == offs[i := 0];
        }
      } else {
        MoveNothing(format, Model, i, buffer2[..], offs, dataSize, Top);
        assert Index() == offs[i := 0];
      }
    }

    // ---------- the allocator ----------

    /** Makes room for a text at index i. Returns the offset of its slot. */
    method Allocate(i: nat, len: nat, ghost text: Text) returns (p: nat)
      requires Valid() && i < Num && len == |text| > 0
      modifies this, Offsets
      ensures p == Dest(old(Model), i, len) && Model == Room(old(Model), i, len)
      ensures Buffer != null && Model.hasBuffer && Stores(format, Buffer[..], Model) && Alive()
      ensures p + Overhead(format) + len <= Buffer.Length <==> !PastEnd(old(Model), i, len)
      ensures Matches(Put(old(Model), i, text))
      ensures Offsets == old(Offsets)
      ensures Buffer == old(Buffer) <==> !Collects(old(Model), i, len)
      ensures Buffer == old(Buffer) ==> InPlace(old(Model), i, len)
      ensures Handover(old(Buffer), old(OldBuffer), old(Freed)) && (Buffer != old(Buffer) ==> fresh(Buffer))
    {
      hide Inv, Blank, Stores, Bare, Indexes, Put, Room, Dest, PastEnd, InPlace, Handover, Readable, Storable;
      ghost var m := Model;
      SlotAt(m, i, Index());
      PutReady(m, i, text);
      RoomFields(format, m, i, len);
      if Offsets[i] != 0 {
        if Offsets[i] == Top {
          p := GrowTop(i, len, text);
          StoresSize(format, Buffer[..], Model);
          return;
        }
        ReadableSlot(format, m, i);
        var oldLen := Len(i);
        if oldLen >= len {
          ReuseShape(format, m, i, text, Index());
          GarbageSize := GarbageSize + oldLen - len;
          Model := Room(m, i, len);
          StoresSize(format, Buffer[..], Model);
          Unmoved();
          return Offsets[i];
        }
        GarbageSize := GarbageSize + oldLen + Overhead(format);
      }
      p := AddBehind(i, len, text);
      StoresSize(format, Buffer[..], Model);
    }

    /** Collects if the buffer is smaller than this. */
    method Need(size: nat)
      requires Rep() && GarbageSize <= DataSize
      requires size > BufferSize ==> PackedTotal(Model.slots, Overhead(format)) <= size
      modifies this, Offsets
      ensures Rep() && Model == (if size > old(BufferSize) then Compact(old(Model), size) else old(Model))
      ensures Offsets == old(Offsets) && Num == old(Num)
      ensures if size <= old(BufferSize) then Buffer == old(Buffer) else Buffer != null && fresh(Buffer)
      ensures Handover(old(Buffer), old(OldBuffer), old(Freed))
    {
      hide Rep, Compact, PackedTotal;
      if size > BufferSize {
        ReserveBuf(size);
      }
    }

    /** The slot at the end of the data grows where it is, or after a collection. */
    method GrowTop(i: nat, len: nat, ghost text: Text) returns (p: nat)
      requires Valid() && i < Num && len == |text| > 0 && AtTop(Model, i)
      modifies this, Offsets
      ensures p == Dest(old(Model), i, len) && Model == Room(old(Model), i, len)
      ensures Buffer != null && Model.hasBuffer && Stores(format, Buffer[..], Model) && Alive()
      ensures Matches(Put(old(Model), i, text))
      ensures Offsets == old(Offsets)
      ensures Buffer == old(Buffer) <==> !Collects(old(Model), i, len)
      ensures Buffer == old(Buffer) ==> InPlace(old(Model), i, len)
      ensures Handover(old(Buffer), old(OldBuffer), old(Freed)) && (Buffer != old(Buffer) ==> fresh(Buffer))
    {
      hide Inv, Stores, Bare, Indexes, Put, Room, Dest, PackedTotal, Compact, InPlace, Handover, Readable;
      SpaceAtEnd(Model, i);
      SlotAt(Model, i, Index());
      BehindZero(Model, i, len);
      GrowTopShape(Model, i, text);
      Need(Top + Overhead(format) + len);
      SameOffsets(Index(), Model.slots, Put(old(Model), i, text).slots);
      DataSize := Top + Overhead(format) + len;
      p := Top;
    }

    /** The text goes behind the data in use; the old slot is garbage. */
    method AddBehind(i: nat, len: nat, ghost text: Text) returns (p: nat)
      requires Sound(Model) && Readable(format, Model) && i < |Model.slots| && len == |text| && !AtTop(Model, i)
      requires !FitsInPlace(Model, i, len)
      requires OffsetsAllocated() && Num == |Model.slots| && Indexes(Index(), Model.slots)
      requires if Buffer == null then Bare(format, Model) else Stores(format, Buffer[..], Model)
      requires BufferSize == Model.cap && DataSize == Model.used && Top == Model.top && Alive()
      requires Model.overhead == Overhead(format) && Model.hasBuffer == (Buffer != null)
      requires GarbageSize == Model.garbage + Size(Model.slots[i], Overhead(format))
      modifies this, Offsets
      ensures p == Dest(old(Model), i, len) && Model == Room(old(Model), i, len)
      ensures Buffer != null && Model.hasBuffer && Stores(format, Buffer[..], Model) && Alive()
      ensures Matches(Put(old(Model), i, text))
      ensures Offsets == old(Offsets)
      ensures Buffer == old(Buffer) <==> !Collects(old(Model), i, len)
      ensures Buffer == old(Buffer) ==> InPlace(old(Model), i, len)
      ensures Handover(old(Buffer), old(OldBuffer), old(Freed)) && (Buffer != old(Buffer) ==> fresh(Buffer))
    {
      hide Stores, Bare, Indexes, Put, Room, Dest, PackedTotal, Sound, InPlace, Handover, Size, AtTop, FitsInPlace,
           Readable;
      ghost var m := Model;
      GarbageOnly(format, Buffer, m, GarbageSize);
      SpaceAtEnd(m, i);
      if m.used == 0 { FreeAtZero(m, i); }
      Model := m.(garbage := GarbageSize);
      p := AddAtEnd(i, len, text, m);
    }

    /** A collection if need be, then the place behind the data in use. */
    method AddAtEnd(i: nat, len: nat, ghost text: Text, ghost m: Arena) returns (p: nat)
      requires Rep() && i < |m.slots| && len == |text| && !AtTop(m, i) && !FitsInPlace(m, i, len)
      requires Model == m.(garbage := m.garbage + Size(m.slots[i], m.overhead))
      requires 1 <= m.overhead && (m.used == 0 ==> m.slots[i].Free?)
      requires PackedTotal(m.slots, m.overhead) <= m.used && GarbageSize <= DataSize
      modifies this, Offsets
      ensures p == Dest(m, i, len) && Model == Room(m, i, len)
      ensures Buffer != null && Model.hasBuffer && Stores(format, Buffer[..], Model) && Alive()
      ensures Matches(Put(m, i, text))
      ensures Offsets == old(Offsets)
      ensures Buffer == old(Buffer) <==> !Collects(m, i, len)
      ensures Buffer == old(Buffer) ==> InPlace(m, i, len)
      ensures Handover(old(Buffer), old(OldBuffer), old(Freed)) && (Buffer != old(Buffer) ==> fresh(Buffer))
    {
      hide Stores, Indexes, Put, Room, Dest, PackedTotal, Compact, InPlace, Handover, Readable;
      AddShape(m, i, text);
      Need(DataSize + Overhead(format) + len);
      p := Seat(i, len, Put(m, i, text));
    }

    /** Gives index i the place behind the data in use. */
    method Seat(i: nat, len: nat, ghost a: Arena) returns (p: nat)
      requires OffsetsAllocated() && Num == |Model.slots| == |a.slots| && Indexes(Index(), Model.slots)
      requires i < |a.slots| && OffsetOf(a.slots[i]) == DataSize
      requires forall k :: 0 <= k < |a.slots| && k != i ==> a.slots[k] == Model.slots[k]
      requires BufferSize == a.cap && GarbageSize == a.garbage && DataSize == a.top
      requires DataSize + Overhead(format) + len == a.used
      modifies Offsets, `Top, `DataSize
      ensures Matches(a) && p == old(DataSize)
    {
      hide Indexes;
      NewOffset(Index(), Model.slots, a.slots, i, DataSize);
      ghost var offs := Index();
      Offsets[i] := DataSize;
      assert Index() == offs[i := DataSize];
      Top := DataSize;
      DataSize := DataSize + Overhead(format) + len;
      p := Top;
    }

    // ---------- storing ----------

    /** Writes what stands before a text of this length, the length cut to 16 bits. */
    method StoreHead(p: nat, len: nat)
      requires Buffer != null && p + Overhead(format) <= Buffer.Length
      modifies Buffer
      ensures Buffer[..] == Overwrite(old(Buffer[..]), p, Head(format, len))
    {
      if format.Sized? {
        Buffer[p], Buffer[p + 1] := (len % 256) as byte, (len / 256 % 256) as byte;
      }
      assert Buffer[..] == Overwrite(old(Buffer[..]), p, Head(format, len));
    }

    method StoreByte(p: nat, x: byte)
      requires Buffer != null && p < Buffer.Length
      modifies Buffer
      ensures Buffer[..] == Overwrite(old(Buffer[..]), p, [x])
    {
      Buffer[p] := x;
      assert Buffer[..] == Overwrite(old(Buffer[..]), p, [x]);
    }

    /** Writes the head, the text and the zero at p. */
    method StoreText(p: nat, s: array<byte>, at: nat, len: nat)
      requires Buffer != null && p + len + Overhead(format) <= Buffer.Length && at + len <= s.Length && s !in Freed
      requires s == Buffer ==> at + len <= p || p + Overhead(format) <= at + 1
      requires s == Buffer ==>
        var q := p + Overhead(format) - 1; at == q || at + len <= q || q + len <= at
      modifies Buffer
      ensures Buffer[..] == Overwrite(old(Buffer[..]), p, Encode(format, old(s[at..at + len])))
    {
      hide Overwrite, Head;
      ghost var text := s[at..at + len];
      ghost var b, h := Buffer[..], Head(format, len);
      StoreHead(p, len);
      OverwriteApart(b, p, h);
      SameSlice(b, Buffer[..], at, len);
      CopyBytes(Buffer, p + Overhead(format) - 1, s, at, len);
      OverwriteAgain(b, p, h, text);
      StoreByte(p + Overhead(format) - 1 + len, 0);
      OverwriteAgain(b, p, h + text, [0]);
    }

    /** Writes the head, len1 bytes of string1, len2 bytes of s and the zero at p. */
    method StoreJoined(p: nat, string1: array<byte>, at1: nat, len1: nat, s: array<byte>, at: nat, len2: nat)
      requires Buffer != null && p + len1 + len2 + Overhead(format) <= Buffer.Length
      requires at1 + len1 <= string1.Length && at + len2 <= s.Length && string1 !in Freed && s !in Freed
      requires string1 == Buffer ==> at1 == p + Overhead(format) - 1 || at1 + len1 <= p
      requires s == Buffer ==>
        || p + len1 + len2 + Overhead(format) <= at || at + len2 <= p
        || (s == string1 && at1 == p + Overhead(format) - 1 <= at && at + len2 <= at1 + len1)
      modifies Buffer
      ensures Buffer[..] == Overwrite(old(Buffer[..]), p,
                                      Encode(format, old(string1[at1..at1 + len1]) + old(s[at..at + len2])))
    {
      hide Overwrite, Head, Encode;
      ghost var text1, text2 := string1[at1..at1 + len1], s[at..at + len2];
      ghost var b, h := Buffer[..], Head(format, len1 + len2);
      var q := p + Overhead(format) - 1;
      StoreFirst(p, len1 + len2, string1, at1, len1);
      if s == Buffer { StillThere(b, p, h, text1, at, len2); }
      CopyBytes(Buffer, q + len1, s, at, len2);
      OverwriteAgain(b, p, h + text1, text2);
      StoreByte(q + len1 + len2, 0);
      OverwriteAgain(b, p, h + text1 + text2, [0]);
      EncodeJoined(format, text1, text2);
    }

    /** Writes the head for a length of `len`, and len1 bytes of string1. */
    method StoreFirst(p: nat, len: nat, string1: array<byte>, at1: nat, len1: nat)
      requires Buffer != null && p + len1 + Overhead(format) <= Buffer.Length && at1 + len1 <= string1.Length
      requires string1 !in Freed
      requires string1 == Buffer ==> at1 == p + Overhead(format) - 1 || at1 + len1 <= p
      modifies Buffer
      ensures Buffer[..] == Overwrite(old(Buffer[..]), p, Head(format, len) + old(string1[at1..at1 + len1]))
    {
      hide Overwrite, Head;
      ghost var b, h, text1 := Buffer[..], Head(format, len), string1[at1..at1 + len1];
      StoreHead(p, len);
      if string1 == Buffer { StillThere(b, p, h, [], at1, len1); }
      assert h + [] == h;
      CopyBytes(Buffer, p + Overhead(format) - 1, string1, at1, len1);
      OverwriteAgain(b, p, h, text1);
    }

    /** The text is in its place: the old buffer, if any, can go. */
    method Conclude(ghost a: Arena, ghost text: Text)
      requires Matches(a) && Buffer != null && Stores(format, Buffer[..], a) && Alive() && Sound(a)
      requires Storable(format, text) ==> Readable(format, a)
      modifies `OldBuffer, `Freed, `Model
      ensures Stored(a, text) && Buffer == old(Buffer)
    {
      hide Indexes, Readable, Storable, EncodedAt, Holds, Sound;
      ReleaseOldBuffer();
      Model := a;
    }

    /** Allocates, and stores `len` bytes from s[at] with `zero` bytes more behind
        them, which are 0 if any. The source stores them in any case; ok is false,
        and the model ends, when that would be past the buffer, or when the bytes
        are copied to a place that overlaps theirs. */
    method Write(i: nat, s: array<byte>, at: nat, len: nat, zero: nat) returns (ok: bool)
      requires Valid() && i < Num && len > 0 && zero <= 1 && Source(s, at, len + zero)
      modifies this, Offsets, Buffer
      ensures ok <==> && !PastEnd(old(Model), i, len)
                      && !(s == old(Buffer) && Clashes(old(Model), i, len, 0, at, len + zero))
      ensures ok ==> Stored(Put(old(Model), i, old(s[at..at + len])), old(s[at..at + len]))
      ensures (Buffer == old(Buffer) || fresh(Buffer)) && Offsets == old(Offsets)
    {
      hide Sound, Stores, Bare, Indexes, Put, Room, Dest, InPlace, PastEnd, Encode, InText, Collects, Readable,
           Storable;
      ghost var m, text := Model, s[at..at + len];
      PutReady(m, i, text);
      var p := Allocate(i, len, text);
      if p + Overhead(format) + len > Buffer.Length {
        return false;
      }
      var q := p + Overhead(format) - 1;
      if s == Buffer && at != q && at < q + len + zero && q < at + len + zero {
        return false;
      }
      if s == Buffer { SourceReady(m, i, len, at, len + zero); }
      PutStored(format, Buffer[..], m, i, text);
      ReadablePutIf(format, m, i, text);
      StoreText(p, s, at, len);
      Conclude(Put(m, i, text), text);
      return true;
    }

    /** Stores `len` bytes from s[at] as string i. */
    method SetLength(i: nat, s: array<byte>, at: nat, len: nat) returns (ok: bool)
      requires Valid() && at + len <= s.Length && (len > 0 ==> Source(s, at, len))
      modifies this, Offsets, Buffer
      ensures var m := Grow(old(Model), i + 1);
        ok <==> len == 0 || (!PastEnd(m, i, len) && !(s == old(Buffer) && Clashes(m, i, len, 0, at, len)))
      ensures ok ==> Stored(SetText(old(Model), i, old(s[at..at + len])), old(s[at..at + len]))
      ensures ok ==> Assigns(old(Model), Model, i, old(s[at..at + len]))
      ensures (Buffer == old(Buffer) || fresh(Buffer)) && (Offsets == old(Offsets) || fresh(Offsets))
    {
      hide Sound, Stores, Bare, Indexes, Put, Grow, Erase, PastEnd, InText, Clashes, Assigns, Readable, Storable;
      ghost var m, text := Model, s[at..at + len];
      AssignsText(m, i, text);
      GrowSource(m, i, at, len);
      Reach(i);
      if len <= 0 {
        EraseSlot(i);
        return true;
      }
      ok := Write(i, s, at, len, 0);
    }

    /** Stores the C string at s[at] as string i. */
    method Set(i: nat, s: array?<byte>, at: nat) returns (ok: bool)
      requires Valid() && (s != null ==> Terminates(s, at)) && (format.Sized? ==> |CText(s, at)| <= MAX_LENGTH)
      requires CText(s, at) != [] ==> Source(s, at, |CText(s, at)| + 1)
      modifies this, Offsets, Buffer
      ensures var m, n := Grow(old(Model), i + 1), |old(CText(s, at))|;
        ok <==> n == 0 || (!PastEnd(m, i, n) && !(s == old(Buffer) && Clashes(m, i, n, 0, at, n + 1)))
      ensures ok ==> Valid() && Model == SetText(old(Model), i, old(CText(s, at)))
      ensures ok ==> Assigns(old(Model), Model, i, old(CText(s, at)))
      ensures (Buffer == old(Buffer) || fresh(Buffer)) && (Offsets == old(Offsets) || fresh(Offsets))
    {
      hide Sound, Stores, Bare, Indexes, PastEnd, Assigns, Grow, InText, Clashes, Put, Erase, Storable, Readable,
           CText;
      ghost var m, text := Model, CText(s, at);
      AssignsText(m, i, text);
      CTextStorable(format, s, at);
      CTextIs(s, at);
      GrowSource(m, i, at, |text| + 1);
      Reach(i);
      var len := 0;
      if s != null {
        len := StrLen(s, at);
      }
      if len == 0 {
        EraseSlot(i);
        ok := true;
      } else {
        ok := Write(i, s, at, len, 1);
      }
    }

    /** Appends the C string at s[at] to string i. */
    method Concatenate(i: nat, s: array?<byte>, at: nat) returns (ok: bool)
      requires Valid() && i < Num && (format.Sized? ==> Buffer != null) && (s != null ==> Terminates(s, at))
      requires format.Sized? ==> |CText(s, at)| <= MAX_LENGTH
      requires CText(s, at) != [] ==> Source(s, at, |CText(s, at)| + 1)
      modifies this, Offsets, Buffer
      ensures var n, len1 := |old(CText(s, at))|, |First(old(Model), i)|;
        ok <==> n == 0 || (!PastEnd(old(Model), i, len1 + n)
                           && !(s == old(Buffer) && Clashes(old(Model), i, len1 + n, len1, at, n + 1)))
      ensures ok ==> Stored(AppendText(old(Model), i, old(CText(s, at))), First(old(Model), i) + old(CText(s, at)))
      ensures ok ==> Appends(old(Model), Model, i, old(CText(s, at)))
      ensures (Buffer == old(Buffer) || fresh(Buffer)) && (Offsets == old(Offsets) || fresh(Offsets))
    {
      hide Sound, Stores, Bare, Indexes, Texts, SetText, AppendText, PastEnd, InText, Clashes, Grow, Appends, First,
           Assigns, ZeroAt, Storable, Readable, CText, Encode, ReadLength, Matches;
      ghost var m, text := Model, CText(s, at);
      AppendsText(m, i, text);
      CTextIs(s, at);
      SlotAt(m, i, Index());
      ReadableSlot(format, m, i);
      FirstIsRead(format, m, i);
      var len1 := 0;
      if format.Sized? {
        len1 := Len(i);
      }
      var len2 := 0;
      if s != null {
        len2 := StrLen(s, at);
      }
      if len2 == 0 {
        AppendNothing(m, i, text);
        return true;
      }
      if (if format.Sized? then len1 == 0 else Offsets[i] == 0) {
        SetAsAppend(m, i, text);
        ok := Set(i, s, at);
        return;
      }
      if format.Terminated? {
        len1 := Len(i);
      }
      ok := Join(i, s, at, len1, len2);
    }

    /** Appends to a string that is not empty. */
    method Join(i: nat, s: array<byte>, at: nat, len1: nat, len2: nat) returns (ok: bool)
      requires Valid() && i < Num && Buffer != null && at + len2 < s.Length
      requires First(Model, i) == Texts(Model)[i] && len1 == |First(Model, i)| > 0
      requires len2 > 0 && Source(s, at, len2 + 1)
      modifies this, Offsets, Buffer
      ensures ok <==> && !PastEnd(old(Model), i, len1 + len2)
                      && !(s == old(Buffer) && Clashes(old(Model), i, len1 + len2, len1, at, len2 + 1))
      ensures ok ==>
        Stored(AppendText(old(Model), i, old(s[at..at + len2])), First(old(Model), i) + old(s[at..at + len2]))
      ensures (Buffer == old(Buffer) || fresh(Buffer)) && (Offsets == old(Offsets) || fresh(Offsets))
    {
      hide Sound, Stores, Bare, Indexes, Put, Room, Dest, InPlace, PastEnd, Encode, InText, Collects, Readable,
           Storable, Misplaced, AppendText, Texts, First, ReadLength, Overwrite, EncodedAt, Holds, Matches;
      ghost var m, text1, text2 := Model, Texts(Model)[i], s[at..at + len2];
      ghost var text := text1 + text2;
      AppendIsPut(m, i, text2);
      var string1, at1 := Get(i);
      PutReady(m, i, text);
      var p := Allocate(i, len1 + len2, text);
      if p + Overhead(format) + len1 + len2 > Buffer.Length {
        return false;
      }
      var q := p + Overhead(format) - 1 + len1;
      if s == Buffer && at != q && at < q + len2 + 1 && q < at + len2 + 1 {
        return false;
      }
      if s == Buffer { JoinReady(m, i, at, len2); }
      if string1 == Buffer { OwnPlace(m, i, len1 + len2); }
      PutStored(format, Buffer[..], m, i, text);
      ReadablePutIf(format, m, i, text);
      StoreJoined(p, string1, at1, len1, s, at, len2);
      Conclude(Put(m, i, text), text);
      return true;
    }

    // ---------- strings of the same pool ----------

    /** Makes string i a copy of string j, which may be the same. */
    method Assign(i: nat, j: nat) returns (ok: bool)
      requires Valid() && j < Num && (format.Sized? ==> Buffer != null)
      modifies this, Offsets, Buffer
      ensures ok <==> old(Texts(Model)[j]) == [] || !PastEnd(Grow(old(Model), i + 1), i, |old(Texts(Model)[j])|)
      ensures ok ==> Valid() && Model == SetText(old(Model), i, old(Texts(Model)[j]))
      ensures ok ==> Assigns(old(Model), Model, i, old(Texts(Model)[j]))
      ensures (Buffer == old(Buffer) || fresh(Buffer)) && (Offsets == old(Offsets) || fresh(Offsets))
    {
      hide Sound, Stores, Bare, Indexes, PastEnd, Assigns, InText, Clashes, ZeroAt, SetText, Readable, Storable,
           ReadLength, Encode, Texts, CText, UpToZero, Grow, OffsetOf;
      ghost var m, text := Model, Texts(Model)[j];
      ReadableSlot(format, m, j);
      WholeInText(m, j);
      WholeGrown(m, i, j);
      var s, p := Get(j);
      if format.Sized? {
        var n := Len(j);
        ok := SetLength(i, s, p, n);
      } else {
        CTextOf(s, p, text);
        NoZeroStored(text);
        ok := Set(i, s, p);
      }
    }

    /** Appends string j, as far as a C string goes, to string i, which may be the same. */
    method AppendString(i: nat, j: nat) returns (ok: bool)
      requires Valid() && i < Num && j < Num && (format.Sized? ==> Buffer != null)
      modifies this, Offsets, Buffer
      ensures var text := UpToZero(old(Texts(Model)[j]));
        ok <==> text == [] || (!PastEnd(old(Model), i, |First(old(Model), i)| + |text|)
                               && !(text == old(Texts(Model)[j]) && Doubles(old(Model), i, j)))
      ensures var text := UpToZero(old(Texts(Model)[j]));
        ok ==> Stored(AppendText(old(Model), i, text), First(old(Model), i) + text)
      ensures ok ==> Appends(old(Model), Model, i, UpToZero(old(Texts(Model)[j])))
      ensures (Buffer == old(Buffer) || fresh(Buffer)) && (Offsets == old(Offsets) || fresh(Offsets))
    {
      hide Sound, Stores, Indexes, PastEnd, Appends, InText, Clashes, Doubles, AppendText, Readable, Storable, Texts,
           First, ZeroAt, CText, UpToZero;
      ghost var m, text := Model, Texts(Model)[j];
      ReadableSlot(format, m, j);
      WholeInText(m, j);
      var s, p := Get(j);
      CTextOf(s, p, text);
      AppendReady(m, i, j, |UpToZero(text)|);
      UpToZeroWhole(text);
      SizedLength(format, text);
      ok := Concatenate(i, s, p);
    }

    /** Erases all strings, if the text at offset 0 is empty; otherwise every index
        reads that one afterwards. The buffer stays. */
    method Clear()
      requires Valid()
      modifies this, Offsets
      ensures Valid() && Model == Cleared(old(Model)) && Buffer == old(Buffer) && Offsets == old(Offsets)
      ensures Texts(Model) == seq(Num, _ => old(Model.zero))
    {
      hide Sound, Stores, Bare, Indexes, Readable, Texts;
      ClearRefines(Model);
      TableSize(Index(), Model.slots);
      ZeroOffsets();
      ClearedShape(format, Buffer, Model, Index());
      DataSize, GarbageSize := 0, 0;
      Model := Cleared(Model);
    }

    /** The memset of the table: behind the indices it is zero already. */
    method ZeroOffsets()
      requires OffsetsAllocated() && Indexes(Index(), Model.slots) && Num == |Model.slots|
      modifies Offsets
      ensures |Index()| == OffsetsSize && forall k :: 0 <= k < OffsetsSize ==> Index()[k] == 0
    {
      if Offsets != null {
        for k := 0 to Num
          invariant forall x :: 0 <= x < OffsetsSize ==> Offsets[x] == if x < k then 0 else old(Offsets[x])
        {
          Offsets[k] := 0;
        }
      }
    }
  }
}

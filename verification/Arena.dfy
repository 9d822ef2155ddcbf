/** The allocator that both string pools share, seen without its bytes.

    Every string of a pool lives in a slot of one buffer. A slot takes the
    text and `overhead` more bytes: 3 for the pool that stores lengths, 1 for
    the pool that only terminates. Offset 0 is kept for the empty string, so
    offset 0 also means that an index has no slot; but after Clear a text is
    put there. */
module Arena {
  import opened Arithmetic

  newtype byte = x: int | 0 <= x < 256

  type Text = seq<byte>

  /** The least room the collector leaves for growth. */
  const ALLOCATE_SPACE := 4096

  datatype Slot = Free | Live(off: nat, text: Text)

  /** slots: one per string index. used: bytes in use, garbage included.
      top: the highest offset given out. cap: size of the buffer. zero: the
      text at offset 0. */
  datatype Arena =
    Arena(overhead: nat, slots: seq<Slot>, used: nat, garbage: nat, top: nat, cap: nat, hasBuffer: bool, zero: Text)

  function Empty(overhead: nat): Arena {
    Arena(overhead, [], 0, 0, 0, 0, false, [])
  }

  function TextOf(s: Slot): Text {
    if s.Live? then s.text else []
  }

  /** What a reader of the pool sees. An index without a slot reads the text at offset 0. */
  function Texts(a: Arena): (t: seq<Text>)
    ensures |t| == |a.slots| && forall k :: 0 <= k < |t| ==>
      t[k] == if a.slots[k].Live? then a.slots[k].text else a.zero
  {
    seq(|a.slots|, k requires 0 <= k < |a.slots| => if a.slots[k].Live? then a.slots[k].text else a.zero)
  }

  /** The strings of a pool: own, the text in the slot of each index, empty if
      there is none, and shared, the text that an index without a slot reads. */
  datatype Strings = Strings(own: seq<Text>, shared: Text)

  function View(a: Arena): (v: Strings)
    ensures |v.own| == |a.slots| && v.shared == a.zero
    ensures forall k :: 0 <= k < |v.own| ==> v.own[k] == TextOf(a.slots[k])
  {
    Strings(seq(|a.slots|, k requires 0 <= k < |a.slots| => TextOf(a.slots[k])), a.zero)
  }

  function Read(v: Strings, k: nat): Text
    requires k < |v.own|
  {
    if v.own[k] != [] then v.own[k] else v.shared
  }

  function Size(s: Slot, h: nat): nat {
    if s.Live? then |s.text| + h else 0
  }

  function Total(slots: seq<Slot>, h: nat): nat {
    if slots == [] then 0 else Total(slots[..|slots| - 1], h) + Size(slots[|slots| - 1], h)
  }

  // ---------- what every reachable pool keeps ----------

  /** The slot holds a text, behind the text at offset 0 and within the data in use. */
  ghost predicate InUse(a: Arena, k: nat)
    requires k < |a.slots|
  {
    a.slots[k].Live? ==>
      && a.slots[k].text != [] && a.overhead + |a.zero| <= a.slots[k].off
      && a.slots[k].off + Size(a.slots[k], a.overhead) <= a.used
  }

  /** The slot at top is the last one; every other slot ends before it. */
  ghost predicate UnderTop(a: Arena, k: nat)
    requires k < |a.slots|
  {
    a.slots[k].Live? ==>
      var end := a.slots[k].off + Size(a.slots[k], a.overhead);
      if a.slots[k].off == a.top then end == a.used else a.slots[k].off < a.top && end <= a.top
  }

  ghost predicate Apart(s: Slot, t: Slot, h: nat) {
    s.Live? && t.Live? ==> s.off + Size(s, h) <= t.off || t.off + Size(t, h) <= s.off
  }

  ghost predicate Disjoint(slots: seq<Slot>, h: nat) {
    forall j, k :: 0 <= j < k < |slots| ==> Apart(slots[j], slots[k], h)
  }

  ghost predicate Geometry(a: Arena) {
    && 1 <= a.overhead
    && (forall k :: 0 <= k < |a.slots| ==> InUse(a, k) && UnderTop(a, k))
    && Disjoint(a.slots, a.overhead)
    && a.top <= a.used <= a.cap
  }

  ghost predicate Inv(a: Arena) {
    && Geometry(a)
    && (if a.hasBuffer then a.overhead + |a.zero| + Total(a.slots, a.overhead) + a.garbage <= a.used
        else a.used == a.garbage == a.cap == 0 && a.zero == [])
  }

  /** A pool that has been cleared and given no text since. */
  ghost predicate Blank(a: Arena) {
    && 1 <= a.overhead && a.hasBuffer && a.used == 0 && a.garbage == 0 && a.overhead + |a.zero| <= a.cap
    && forall k :: 0 <= k < |a.slots| ==> a.slots[k].Free?
  }

  ghost predicate Sound(a: Arena) {
    Inv(a) || Blank(a)
  }

  // ---------- the collector ----------

  function PackedSize(s: Slot, h: nat): nat {
    if TextOf(s) == [] then 0 else Size(s, h)
  }

  function PackedTotal(slots: seq<Slot>, h: nat): nat {
    if slots == [] then 0 else PackedTotal(slots[..|slots| - 1], h) + PackedSize(slots[|slots| - 1], h)
  }

  /** Slot k after the collector has moved slots 0..k-1 to the front. */
  function PackedSlot(slots: seq<Slot>, h: nat, k: nat): Slot
    requires k < |slots|
  {
    if TextOf(slots[k]) == [] then Free else Live(h + PackedTotal(slots[..k], h), slots[k].text)
  }

  function Packed(slots: seq<Slot>, h: nat): (p: seq<Slot>)
    ensures |p| == |slots| && forall k :: 0 <= k < |p| ==> p[k] == PackedSlot(slots, h, k)
  {
    seq(|slots|, k requires 0 <= k < |slots| => PackedSlot(slots, h, k))
  }

  /** The highest index with a text, or -1. */
  function LastLive(slots: seq<Slot>): (k: int)
    ensures -1 <= k < |slots|
    ensures k >= 0 ==> TextOf(slots[k]) != []
    ensures forall j :: k < j < |slots| ==> TextOf(slots[j]) == []
  {
    if slots == [] then -1
    else if TextOf(slots[|slots| - 1]) != [] then |slots| - 1
    else LastLive(slots[..|slots| - 1])
  }

  /** ReserveBuf: every text moves to a new buffer, in index order. */
  function Compact(a: Arena, request: nat): Arena {
    var newsize := Max(request, (a.used - a.garbage) * 2 + ALLOCATE_SPACE);
    var last := LastLive(a.slots);
    Arena(a.overhead, Packed(a.slots, a.overhead), a.overhead + PackedTotal(a.slots, a.overhead), 0,
          if last < 0 then a.overhead else a.overhead + PackedTotal(a.slots[..last], a.overhead),
          newsize + a.overhead, true, [])
  }

  lemma {:induction false} PackedTotalAtMost(slots: seq<Slot>, h: nat)
    ensures PackedTotal(slots, h) <= Total(slots, h)
    decreases |slots|
  {
    if slots == [] {
    } else {
      PackedTotalAtMost(slots[..|slots| - 1], h);
    }
  }

  /** A slot before another ends where, or before, the other begins. */
  lemma {:induction false} PackedOrder(slots: seq<Slot>, h: nat, j: nat, k: nat)
    requires j < k <= |slots|
    ensures PackedTotal(slots[..j], h) + PackedSize(slots[j], h) <= PackedTotal(slots[..k], h)
    decreases k
  {
    assert slots[..k][..k - 1] == slots[..k - 1];
    if j == k - 1 {
    } else {
      PackedOrder(slots, h, j, k - 1);
    }
  }

  /** Indices without a text take no room. */
  lemma {:induction false} PackedTail(slots: seq<Slot>, h: nat, j: nat, k: nat)
    requires j <= k <= |slots|
    requires forall i :: j <= i < k ==> TextOf(slots[i]) == []
    ensures PackedTotal(slots[..k], h) == PackedTotal(slots[..j], h)
    decreases k
  {
    if j == k {
    } else {
      assert slots[..k][..k - 1] == slots[..k - 1];
      PackedTail(slots, h, j, k - 1);
    }
  }

  lemma {:induction false} TotalOfPacked(slots: seq<Slot>, h: nat, k: nat)
    requires k <= |slots|
    ensures Total(Packed(slots, h)[..k], h) == PackedTotal(slots[..k], h)
    decreases k
  {
    if k == 0 {
    } else {
      assert Packed(slots, h)[..k][..k - 1] == Packed(slots, h)[..k - 1] && slots[..k][..k - 1] == slots[..k - 1];
      TotalOfPacked(slots, h, k - 1);
    }
  }

  /** The last text ends where the packed data ends. */
  lemma PackedEnd(slots: seq<Slot>, h: nat)
    ensures var last := LastLive(slots);
      PackedTotal(slots, h) == if last < 0 then 0 else PackedTotal(slots[..last], h) + PackedSize(slots[last], h)
  {
    var last := LastLive(slots);
    assert slots[..|slots|] == slots;
    if last < 0 {
      PackedTail(slots, h, 0, |slots|);
    } else {
      PackedTail(slots, h, last + 1, |slots|);
      assert slots[..last + 1][..last] == slots[..last];
    }
  }

  lemma PackedDisjoint(slots: seq<Slot>, h: nat)
    ensures Disjoint(Packed(slots, h), h)
  {
    var p := Packed(slots, h);
    forall j, k | 0 <= j < k < |p| ensures Apart(p[j], p[k], h) { PackedOrder(slots, h, j, k); }
  }

  /** The collector keeps the text of every slot and drops the one at offset 0. */
  lemma CompactKeepsTexts(a: Arena, request: nat)
    ensures View(Compact(a, request)) == View(a).(shared := [])
    ensures Texts(Compact(a, request)) == View(a).own
    ensures Texts(Compact(a, request)) == Texts(a)
       <==> a.zero == [] || forall k :: 0 <= k < |a.slots| ==> a.slots[k].Live?
  {
    var c := Compact(a, request);
    assert forall k :: 0 <= k < |a.slots| ==> Texts(c)[k] == TextOf(a.slots[k]);
    if k :| 0 <= k < |a.slots| && a.slots[k].Free? && a.zero != [] {
      assert Texts(c)[k] != Texts(a)[k];
    }
  }

  /** The collector leaves the slots one behind the other in index order,
      after the empty string at offset 0, and nothing else in use. */
  lemma CompactIsContiguous(a: Arena, request: nat)
    ensures var c := Compact(a, request);
      c.used == a.overhead + Total(c.slots, a.overhead) &&
      forall k :: 0 <= k < |c.slots| && c.slots[k].Live? ==>
        c.slots[k].off == a.overhead + Total(c.slots[..k], a.overhead)
  {
    var c := Compact(a, request);
    assert c.slots[..|c.slots|] == c.slots && a.slots[..|a.slots|] == a.slots;
    TotalOfPacked(a.slots, a.overhead, |a.slots|);
    forall k | 0 <= k < |c.slots|
      ensures c.slots[k].Live? ==> c.slots[k].off == a.overhead + Total(c.slots[..k], a.overhead)
    {
      TotalOfPacked(a.slots, a.overhead, k);
    }
  }

  lemma CompactGeometry(a: Arena, request: nat, k: nat)
    requires 1 <= a.overhead && k < |a.slots|
    ensures InUse(Compact(a, request), k) && UnderTop(Compact(a, request), k)
  {
    var h, last := a.overhead, LastLive(a.slots);
    PackedEnd(a.slots, h);
    assert a.slots[..|a.slots|] == a.slots;
    if TextOf(a.slots[k]) != [] {
      PackedOrder(a.slots, h, k, |a.slots|);
      if k < last { PackedOrder(a.slots, h, k, last); }
    }
  }

  lemma CompactInv(a: Arena, request: nat)
    requires 1 <= a.overhead
    requires PackedTotal(a.slots, a.overhead) <= Max(request, (a.used - a.garbage) * 2 + ALLOCATE_SPACE)
    ensures Inv(Compact(a, request))
  {
    var c := Compact(a, request);
    CompactIsContiguous(a, request);
    PackedDisjoint(a.slots, a.overhead);
    PackedEnd(a.slots, a.overhead);
    forall k | 0 <= k < |c.slots| ensures InUse(c, k) && UnderTop(c, k) { CompactGeometry(a, request, k); }
  }

  /** A collection of a reachable pool: the invariant holds again, and no more bytes are in use. */
  lemma ReserveKeepsInv(a: Arena, request: nat)
    requires Sound(a)
    ensures Inv(Compact(a, request)) && View(Compact(a, request)) == View(a).(shared := [])
    ensures Inv(a) && a.hasBuffer ==> Compact(a, request).used <= a.used - a.garbage - |a.zero|
  {
    PackedTotalAtMost(a.slots, a.overhead);
    CompactKeepsTexts(a, request);
    if Blank(a) { AllFree(a.slots, a.overhead); }
    else if !a.hasBuffer { NoSlotsWithoutBuffer(a); }
    CompactInv(a, request);
  }

  lemma {:induction false} AllFree(slots: seq<Slot>, h: nat)
    requires forall k :: 0 <= k < |slots| ==> slots[k].Free?
    ensures Total(slots, h) == 0 == PackedTotal(slots, h)
    decreases |slots|
  {
    if slots == [] {
    } else {
      AllFree(slots[..|slots| - 1], h);
    }
  }

  lemma NoSlotsWithoutBuffer(a: Arena)
    requires Inv(a) && !a.hasBuffer
    ensures forall k :: 0 <= k < |a.slots| ==> a.slots[k].Free?
    ensures Total(a.slots, a.overhead) == 0 == PackedTotal(a.slots, a.overhead)
  {
    forall k | 0 <= k < |a.slots| ensures a.slots[k].Free? { assert InUse(a, k); }
    AllFree(a.slots, a.overhead);
  }

  // ---------- making room for a text ----------

  predicate AtTop(a: Arena, i: nat)
    requires i < |a.slots|
  {
    a.slots[i].Live? && a.slots[i].off == a.top
  }

  predicate FitsInPlace(a: Arena, i: nat, len: nat)
    requires i < |a.slots|
  {
    a.slots[i].Live? && len <= |a.slots[i].text|
  }

  /** The pool when Allocate has chosen the place of a text of `len` bytes for
      index i: collected if the buffer was too small, garbage counted. */
  function Room(a: Arena, i: nat, len: nat): Arena
    requires i < |a.slots|
  {
    if AtTop(a, i) then
      if a.top + a.overhead + len > a.cap then Compact(a, a.top + a.overhead + len) else a
    else if FitsInPlace(a, i, len) then
      a.(garbage := a.garbage + |a.slots[i].text| - len)
    else
      var g := a.(garbage := a.garbage + Size(a.slots[i], a.overhead));
      if g.used + g.overhead + len > g.cap then Compact(g, g.used + g.overhead + len) else g
  }

  /** The offset Allocate returns. */
  function Dest(a: Arena, i: nat, len: nat): nat
    requires i < |a.slots|
  {
    if AtTop(a, i) then Room(a, i, len).top
    else if FitsInPlace(a, i, len) then a.slots[i].off
    else Room(a, i, len).used
  }

  /** The index whose slot is at that offset, or -1. When the slot at top has
      to grow beyond the buffer, the collector moves top to the highest index
      with a text, and that index need not be i. */
  function Owner(a: Arena, i: nat, len: nat): (o: int)
    requires i < |a.slots|
    ensures -1 <= o < |a.slots|
  {
    if AtTop(a, i) && a.top + a.overhead + len > a.cap then LastLive(a.slots) else i
  }

  /** The slot at top must grow beyond the buffer and is not that of the
      highest index with a text. */
  predicate Misplaced(a: Arena, i: nat, len: nat)
    requires i < |a.slots|
  {
    AtTop(a, i) && a.top + a.overhead + len > a.cap && LastLive(a.slots) != i
  }

  /** What the packed texts before that of the highest index with a text take. */
  function PackedBefore(a: Arena): nat {
    var last := LastLive(a.slots);
    if last < 0 then 0 else PackedTotal(a.slots[..last], a.overhead)
  }

  /** Making room takes a new buffer. */
  predicate Collects(a: Arena, i: nat, len: nat)
    requires i < |a.slots|
  {
    if AtTop(a, i) then a.top + a.overhead + len > a.cap
    else !FitsInPlace(a, i, len) && a.used + a.overhead + len > a.cap
  }

  /** A misplaced text for which even the new buffer is too small: the
      collector makes room behind the old place of index i, but the text goes
      behind the texts of all other indices. */
  predicate PastEnd(a: Arena, i: nat, len: nat)
    requires i < |a.slots|
  {
    Misplaced(a, i, len) &&
    a.overhead + PackedBefore(a) + len > Max(a.top + a.overhead + len, (a.used - a.garbage) * 2 + ALLOCATE_SPACE)
  }

  /** The first text after Clear, when the kept buffer has room for it. */
  predicate AtZero(a: Arena, len: nat) {
    a.hasBuffer && a.used == 0 && a.overhead + len <= a.cap
  }

  /** The place Allocate returns lies inside the buffer. */
  predicate Fits(a: Arena, i: nat, len: nat)
    requires i < |a.slots|
  {
    Dest(a, i, len) + a.overhead + len <= Room(a, i, len).cap
  }

  /** Allocate for index i, then the text stored at the place it returned. An
      index at offset 0 has no slot: its entry says that it is empty. */
  function Put(a: Arena, i: nat, text: Text): Arena
    requires i < |a.slots|
  {
    var r, d, o := Room(a, i, |text|), Dest(a, i, |text|), Owner(a, i, |text|);
    if d == 0 then
      r.(zero := text, used := a.overhead + |text|, top := 0)
    else
      var s := r.(slots := if o < 0 then r.slots else r.slots[o := Live(d, text)]);
      if AtTop(a, i) then s.(used := d + a.overhead + |text|)
      else if FitsInPlace(a, i, |text|) then s
      else s.(used := d + a.overhead + |text|, top := d)
  }

  lemma {:induction false} TotalUpdate(slots: seq<Slot>, i: nat, s: Slot, h: nat)
    requires i < |slots|
    ensures Total(slots[i := s], h) == Total(slots, h) - Size(slots[i], h) + Size(s, h)
    decreases |slots|
  {
    var n := |slots| - 1;
    if i < n {
      assert slots[i := s][..n] == slots[..n][i := s];
      TotalUpdate(slots[..n], i, s, h);
    } else {
      assert slots[i := s][..n] == slots[..n];
    }
  }

  // ---------- the garbage count ----------

  /** The bytes in use that neither a text nor the garbage count accounts for. */
  function Uncounted(a: Arena): int {
    a.used - a.garbage - a.overhead - |a.zero| - Total(a.slots, a.overhead)
  }

  /** The store changes nothing about these, unless the buffer is replaced. A new
      buffer has none, but for the old text of the index, which the collector has
      moved along before its place is given up. */
  lemma PutCounts(a: Arena, i: nat, text: Text)
    requires Inv(a) && i < |a.slots| && text != []
    ensures Uncounted(Put(a, i, text)) ==
      if !Collects(a, i, |text|) then Uncounted(a)
      else if AtTop(a, i) then 0
      else Size(a.slots[i], a.overhead)
  {
    assert InUse(a, i) && UnderTop(a, i);
    if !a.hasBuffer { NoSlotsWithoutBuffer(a); }
    if AtTop(a, i) {
      PutAtTopCounts(a, i, text);
    } else if FitsInPlace(a, i, |text|) {
      TotalUpdate(a.slots, i, Live(a.slots[i].off, text), a.overhead);
    } else {
      PutAtEndCounts(a, i, text);
    }
  }

  lemma PutAtTopCounts(a: Arena, i: nat, text: Text)
    requires Inv(a) && i < |a.slots| && AtTop(a, i) && text != []
    ensures Uncounted(Put(a, i, text)) == if Collects(a, i, |text|) then 0 else Uncounted(a)
  {
    assert InUse(a, i) && UnderTop(a, i);
    BehindZero(a, i, |text|);
    PutAtTopForm(a, i, text);
    hide Put, Room, Dest;
    var request := a.top + a.overhead + |text|;
    if request > a.cap {
      var c, o := Compact(a, request), LastLive(a.slots);
      LastIsText(a.slots, i);
      CompactIsContiguous(a, request);
      CompactGeometry(a, request, o);
      LastKept(a, request);
      TotalUpdate(c.slots, o, Live(c.top, text), a.overhead);
    } else {
      TotalUpdate(a.slots, i, Live(a.top, text), a.overhead);
    }
  }

  lemma LastIsText(slots: seq<Slot>, i: nat)
    requires i < |slots| && TextOf(slots[i]) != []
    ensures LastLive(slots) >= 0
  {}

  lemma PutAtEndCounts(a: Arena, i: nat, text: Text)
    requires Inv(a) && i < |a.slots| && !AtTop(a, i) && !FitsInPlace(a, i, |text|) && text != []
    ensures Uncounted(Put(a, i, text))
      == if Collects(a, i, |text|) then Size(a.slots[i], a.overhead) else Uncounted(a)
  {
    assert InUse(a, i);
    BehindZero(a, i, |text|);
    PutAtEndForm(a, i, text);
    hide Put, Inv, Compact, Size;
    var g := a.(garbage := a.garbage + Size(a.slots[i], a.overhead));
    var request := g.used + g.overhead + |text|;
    var r := if request > g.cap then Compact(g, request) else g;
    if request > g.cap { CollectedForm(g, i, request); }
    SeatCounts(r, i, text);
  }

  lemma CollectedForm(g: Arena, i: nat, request: nat)
    requires i < |g.slots| && (g.slots[i].Live? ==> g.slots[i].text != [])
    ensures var c := Compact(g, request);
      |c.slots| == |g.slots| && c.overhead == g.overhead && Uncounted(c) == 0 &&
      Size(c.slots[i], c.overhead) == Size(g.slots[i], g.overhead)
  {
    CompactIsContiguous(g, request);
  }

  lemma SeatCounts(r: Arena, i: nat, text: Text)
    requires i < |r.slots|
    ensures Uncounted(r.(slots := r.slots[i := Live(r.used, text)], top := r.used,
                         used := r.used + r.overhead + |text|))
      == Uncounted(r) + Size(r.slots[i], r.overhead)
  {
    TotalUpdate(r.slots, i, Live(r.used, text), r.overhead);
  }

  lemma PutAtEndForm(a: Arena, i: nat, text: Text)
    requires i < |a.slots| && !AtTop(a, i) && !FitsInPlace(a, i, |text|) && Dest(a, i, |text|) > 0
    ensures var g := a.(garbage := a.garbage + Size(a.slots[i], a.overhead));
      var request := g.used + g.overhead + |text|;
      var r := if request > g.cap then Compact(g, request) else g;
      |r.slots| == |a.slots| && Put(a, i, text)
        == r.(slots := r.slots[i := Live(r.used, text)], top := r.used, used := r.used + r.overhead + |text|)
  {}

  /** No other call changes them, but for a collection, after which there are none. */
  lemma OthersCount(a: Arena, i: nat, n: nat, request: nat)
    ensures Uncounted(Grow(a, n)) == Uncounted(a) && Uncounted(Compact(a, request)) == 0
    ensures i < |a.slots| ==> Uncounted(Erase(a, i)) == Uncounted(a)
  {
    if n > |a.slots| { TotalOfFreeTail(a.slots, n - |a.slots|, a.overhead); }
    CompactIsContiguous(a, request);
    if i < |a.slots| { TotalUpdate(a.slots, i, Free, a.overhead); }
  }

  /** Rewriting the slot at top, up to the end of the data in use. */
  lemma SeatAtTop(a: Arena, i: nat, text: Text)
    requires Inv(a) && i < |a.slots| && AtTop(a, i) && a.top + a.overhead + |text| <= a.cap && text != []
    ensures Inv(a.(slots := a.slots[i := Live(a.top, text)], used := a.top + a.overhead + |text|))
  {
    var b := a.(slots := a.slots[i := Live(a.top, text)], used := a.top + a.overhead + |text|);
    assert InUse(a, i) && UnderTop(a, i);
    TotalUpdate(a.slots, i, Live(a.top, text), a.overhead);
    if !a.hasBuffer { NoSlotsWithoutBuffer(a); }
    forall k | 0 <= k < |b.slots| ensures InUse(b, k) && UnderTop(b, k) {
      assert InUse(a, k) && UnderTop(a, k);
      if k < i { assert Apart(a.slots[k], a.slots[i], a.overhead); }
      if i < k { assert Apart(a.slots[i], a.slots[k], a.overhead); }
    }
    forall j, k | 0 <= j < k < |b.slots| ensures Apart(b.slots[j], b.slots[k], b.overhead) {
      assert Apart(a.slots[j], a.slots[k], a.overhead) && UnderTop(a, j) && UnderTop(a, k);
    }
  }

  lemma SeatInPlace(a: Arena, i: nat, text: Text)
    requires Inv(a) && i < |a.slots| && FitsInPlace(a, i, |text|) && !AtTop(a, i) && text != []
    ensures Inv(a.(slots := a.slots[i := Live(a.slots[i].off, text)],
                   garbage := a.garbage + |a.slots[i].text| - |text|))
  {
    var b := a.(slots := a.slots[i := Live(a.slots[i].off, text)], garbage := a.garbage + |a.slots[i].text| - |text|);
    TotalUpdate(a.slots, i, b.slots[i], a.overhead);
    assert InUse(a, i);
    if !a.hasBuffer { NoSlotsWithoutBuffer(a); }
    forall k | 0 <= k < |b.slots| ensures InUse(b, k) && UnderTop(b, k) {
      assert InUse(a, k) && UnderTop(a, k);
    }
    forall j, k | 0 <= j < k < |b.slots| ensures Apart(b.slots[j], b.slots[k], b.overhead) {
      assert Apart(a.slots[j], a.slots[k], a.overhead);
    }
  }

  /** Appending behind the data in use. The old slot of i is given up. */
  lemma SeatAtEnd(a: Arena, i: nat, text: Text)
    requires Geometry(a) && a.hasBuffer && i < |a.slots| && a.used + a.overhead + |text| <= a.cap && text != []
    requires a.overhead + |a.zero| + Total(a.slots, a.overhead) - Size(a.slots[i], a.overhead) + a.garbage <= a.used
    ensures Inv(a.(slots := a.slots[i := Live(a.used, text)], top := a.used, used := a.used + a.overhead + |text|))
  {
    var b := a.(slots := a.slots[i := Live(a.used, text)], top := a.used, used := a.used + a.overhead + |text|);
    TotalUpdate(a.slots, i, b.slots[i], a.overhead);
    TotalAtLeast(a.slots, i, a.overhead);
    assert a.top <= a.used;
    forall k | 0 <= k < |b.slots| ensures InUse(b, k) && UnderTop(b, k) {
      assert InUse(a, k) && UnderTop(a, k);
    }
    BehindIsApart(a, i, text);
  }

  lemma BehindIsApart(a: Arena, i: nat, text: Text)
    requires Geometry(a) && i < |a.slots|
    ensures Disjoint(a.slots[i := Live(a.used, text)], a.overhead)
  {
    var slots := a.slots[i := Live(a.used, text)];
    forall j, k | 0 <= j < k < |slots| ensures Apart(slots[j], slots[k], a.overhead) {
      assert Apart(a.slots[j], a.slots[k], a.overhead) && InUse(a, j) && InUse(a, k);
    }
  }

  lemma {:induction false} TotalAtLeast(slots: seq<Slot>, i: nat, h: nat)
    requires i < |slots|
    ensures Size(slots[i], h) <= Total(slots, h)
    decreases |slots|
  {
    if i == |slots| - 1 {
    } else {
      TotalAtLeast(slots[..|slots| - 1], i, h);
    }
  }

  /** The collector never needs more than was in use, wherever it is called from. */
  lemma CollectedSize(a: Arena)
    requires Inv(a)
    ensures PackedTotal(a.slots, a.overhead) + a.overhead + |a.zero|
      <= if a.hasBuffer then a.used - a.garbage else a.overhead
  {
    PackedTotalAtMost(a.slots, a.overhead);
    if !a.hasBuffer { NoSlotsWithoutBuffer(a); }
  }

  /** The place Allocate returns lies inside the buffer exactly when the text is not past the end. */
  lemma FitsExactly(a: Arena, i: nat, len: nat)
    requires Sound(a) && i < |a.slots|
    ensures Fits(a, i, len) <==> !PastEnd(a, i, len)
  {
    if !Misplaced(a, i, len) { PlacedFits(a, i, len); }
  }

  lemma PlacedFits(a: Arena, i: nat, len: nat)
    requires Sound(a) && i < |a.slots| && !Misplaced(a, i, len)
    ensures Fits(a, i, len)
  {
    if Blank(a) {
      AllFree(a.slots, a.overhead);
    } else if AtTop(a, i) {
      TopFits(a, i, len);
    } else {
      CollectedSize(a);
      assert InUse(a, i);
    }
  }

  lemma TopFits(a: Arena, i: nat, len: nat)
    requires Inv(a) && i < |a.slots| && AtTop(a, i) && !Misplaced(a, i, len)
    ensures Fits(a, i, len)
  {
    PackedEnd(a.slots, a.overhead);
    CollectedSize(a);
    assert InUse(a, i) && UnderTop(a, i);
  }

  lemma BehindZero(a: Arena, i: nat, len: nat)
    requires Inv(a) && i < |a.slots|
    ensures a.overhead <= Dest(a, i, len) && 1 <= a.overhead && !AtZero(a, len)
    ensures !Collects(a, i, len) ==> a.overhead + |a.zero| <= Dest(a, i, len)
  {
    assert InUse(a, i);
    if !a.hasBuffer { NoSlotsWithoutBuffer(a); }
  }

  /** Whichever way Allocate goes, the pool is well formed after the store
      exactly when the text is not past the end. */
  lemma PutKeepsInv(a: Arena, i: nat, text: Text)
    requires Sound(a) && i < |a.slots| && text != []
    ensures Inv(Put(a, i, text)) <==> !PastEnd(a, i, |text|)
    ensures !Blank(Put(a, i, text))
  {
    hide Inv;
    FitsExactly(a, i, |text|);
    if Blank(a) {
      BlankPut(a, i, text);
    } else {
      BehindZero(a, i, |text|);
      if AtTop(a, i) {
        PutAtTopInv(a, i, text);
      } else if FitsInPlace(a, i, |text|) {
        SeatInPlace(a, i, text);
      } else {
        PutAtEndKeepsInv(a, i, text);
      }
    }
  }

  lemma PutAtTopInv(a: Arena, i: nat, text: Text)
    requires Inv(a) && i < |a.slots| && AtTop(a, i) && text != []
    ensures Inv(Put(a, i, text)) <==> Fits(a, i, |text|)
    ensures !Blank(Put(a, i, text))
  {
    BehindZero(a, i, |text|);
    if Fits(a, i, |text|) {
      PutAtTopKeepsInv(a, i, text);
    } else {
      assert Put(a, i, text).used > Put(a, i, text).cap;
    }
  }

  /** The first text after Clear: at offset 0 if there is room, else a new buffer. */
  lemma BlankPut(a: Arena, i: nat, text: Text)
    requires Blank(a) && i < |a.slots| && text != []
    ensures Dest(a, i, |text|) == 0 <==> AtZero(a, |text|)
    ensures !PastEnd(a, i, |text|) && !Misplaced(a, i, |text|) && !Blank(Put(a, i, text))
    ensures AtZero(a, |text|) ==> Put(a, i, text) == a.(zero := text, used := a.overhead + |text|, top := 0)
    ensures Inv(Put(a, i, text))
  {
    if AtZero(a, |text|) {
      AllFree(a.slots, a.overhead);
    } else {
      var request := a.overhead + |text|;
      var c := Compact(a, request);
      ReserveKeepsInv(a, request);
      AllFree(a.slots, a.overhead);
      CompactIsContiguous(a, request);
      assert Packed(a.slots, a.overhead) == a.slots;
      SeatAtEnd(c, i, text);
      assert a.(garbage := a.garbage + Size(a.slots[i], a.overhead)) == a;
      assert Put(a, i, text) == c.(slots := c.slots[i := Live(c.used, text)], top := c.used,
                                   used := c.used + c.overhead + |text|);
    }
  }

  lemma PutAtTopKeepsInv(a: Arena, i: nat, text: Text)
    requires Inv(a) && i < |a.slots| && AtTop(a, i) && Fits(a, i, |text|) && text != []
    ensures Inv(Put(a, i, text))
  {
    hide Inv, Put, Compact;
    BehindZero(a, i, |text|);
    PutAtTopForm(a, i, text);
    var request := a.top + a.overhead + |text|;
    if request > a.cap {
      ReserveKeepsInv(a, request);
      var c, o := Compact(a, request), LastLive(a.slots);
      LastKept(a, request);
      if o >= 0 { SeatAtTop(c, o, text); } else { SpareTop(c, |text|); }
    } else {
      SeatAtTop(a, i, text);
    }
  }

  /** What the collector leaves at Top. */
  lemma LastKept(a: Arena, request: nat)
    ensures var c, o := Compact(a, request), LastLive(a.slots);
      c.overhead == a.overhead && c.hasBuffer && c.garbage == 0 && |c.slots| == |a.slots| && c.zero == [] &&
      if o >= 0 then AtTop(c, o) else c.top == c.overhead && forall k :: 0 <= k < |c.slots| ==> c.slots[k].Free?
  {}

  lemma PutAtTopForm(a: Arena, i: nat, text: Text)
    requires i < |a.slots| && AtTop(a, i) && Dest(a, i, |text|) > 0
    ensures var request := a.top + a.overhead + |text|;
      Room(a, i, |text|) == (if request > a.cap then Compact(a, request) else a) &&
      Dest(a, i, |text|) == Room(a, i, |text|).top
    ensures var r, o := Room(a, i, |text|), Owner(a, i, |text|);
      Put(a, i, text)
        == r.(slots := if o < 0 then r.slots else r.slots[o := Live(r.top, text)], used := r.top + a.overhead + |text|)
  {
    hide Compact;
  }

  lemma PutAtEndKeepsInv(a: Arena, i: nat, text: Text)
    requires Inv(a) && i < |a.slots| && !AtTop(a, i) && !FitsInPlace(a, i, |text|) && text != []
    ensures Inv(Put(a, i, text))
  {
    hide Inv;
    var r := Room(a, i, |text|);
    RoomAtEnd(a, i, |text|);
    SeatAtEnd(r, i, text);
    assert Put(a, i, text) == r.(slots := r.slots[i := Live(r.used, text)], top := r.used,
                                 used := r.used + r.overhead + |text|);
  }

  lemma RoomAtEnd(a: Arena, i: nat, len: nat)
    requires Inv(a) && i < |a.slots| && !AtTop(a, i) && !FitsInPlace(a, i, len)
    ensures var r := Room(a, i, len);
      Geometry(r) && r.hasBuffer && r.used + r.overhead + len <= r.cap &&
      r.overhead + |r.zero| + Total(r.slots, r.overhead) - Size(r.slots[i], r.overhead) + r.garbage <= r.used
  {
    var g := a.(garbage := a.garbage + Size(a.slots[i], a.overhead));
    var request := g.used + g.overhead + len;
    var r := if request > g.cap then Compact(g, request) else g;
    assert Room(a, i, len) == r;
    InvFacts(a);
    hide Room, Inv, Geometry;
    if request > g.cap {
      CollectedAtEnd(a, i, request);
    } else {
      GarbageMovesNothing(a, g.garbage);
    }
  }

  lemma CollectedAtEnd(a: Arena, i: nat, request: nat)
    requires Inv(a) && i < |a.slots| && request >= a.used + a.overhead
    ensures var g := a.(garbage := a.garbage + Size(a.slots[i], a.overhead)); var r := Compact(g, request);
      Geometry(r) && r.zero == [] && r.used + request <= r.cap + a.used &&
      r.overhead + Total(r.slots, r.overhead) - Size(r.slots[i], r.overhead) <= r.used
  {
    var g := a.(garbage := a.garbage + Size(a.slots[i], a.overhead));
    CollectedSize(a);
    InvFacts(a);
    hide Inv, Geometry;
    CompactInv(g, request);
    InvFacts(Compact(g, request));
    CompactIsContiguous(g, request);
  }

  lemma InvFacts(a: Arena)
    requires Inv(a)
    ensures Geometry(a) && 1 <= a.overhead && a.top <= a.used <= a.cap
    ensures if a.hasBuffer then a.overhead + |a.zero| + Total(a.slots, a.overhead) + a.garbage <= a.used
            else a.used == a.garbage == a.cap == 0 == Total(a.slots, a.overhead)
  {
    if !a.hasBuffer { NoSlotsWithoutBuffer(a); }
  }

  lemma GarbageMovesNothing(a: Arena, garbage: nat)
    requires Geometry(a)
    ensures 1 <= a.overhead && a.used <= a.cap
    ensures Geometry(a.(garbage := garbage))
  {
    var g := a.(garbage := garbage);
    forall k | 0 <= k < |g.slots| ensures InUse(g, k) && UnderTop(g, k) { assert InUse(a, k) && UnderTop(a, k); }
  }

  lemma SpareTop(a: Arena, len: nat)
    requires Inv(a) && a.hasBuffer && a.garbage == 0 && a.top == a.overhead && a.zero == []
    requires a.top + a.overhead + len <= a.cap
    requires forall k :: 0 <= k < |a.slots| ==> a.slots[k].Free?
    ensures Inv(a.(used := a.top + a.overhead + len))
  {
    var b := a.(used := a.top + a.overhead + len);
    AllFree(a.slots, a.overhead);
    forall k | 0 <= k < |b.slots| ensures InUse(b, k) && UnderTop(b, k) { assert a.slots[k].Free?; }
  }

  /** Where a text went: to its own slot in the same buffer or in a new one, to
      offset 0, or to the slot of another index, in a new buffer. */
  datatype Fate = Stays | Collected | AtOffset0 | Astray(o: int)

  function FateOf(a: Arena, i: nat, len: nat): Fate
    requires i < |a.slots|
  {
    if Misplaced(a, i, len) then Astray(LastLive(a.slots))
    else if AtZero(a, len) then AtOffset0
    else if Collects(a, i, len) then Collected
    else Stays
  }

  function Placed(v: Strings, i: nat, text: Text, fate: Fate): Strings
    requires i < |v.own|
  {
    match fate
    case Stays => v.(own := v.own[i := text])
    case Collected => Strings(v.own[i := text], [])
    case AtOffset0 => v.(shared := text)
    case Astray(o) => Strings(if 0 <= o < |v.own| then v.own[o := text] else v.own, [])
  }

  /** What becomes of the strings, wherever the text went. */
  lemma PutView(a: Arena, i: nat, text: Text)
    requires Sound(a) && i < |a.slots| && text != []
    ensures View(Put(a, i, text)) == Placed(View(a), i, text, FateOf(a, i, |text|))
  {
    if Blank(a) {
      BlankPut(a, i, text);
      if !AtZero(a, |text|) { SlottedView(a, i, text); }
    } else {
      BehindZero(a, i, |text|);
      SlottedView(a, i, text);
    }
  }

  lemma SlottedView(a: Arena, i: nat, text: Text)
    requires i < |a.slots| && Dest(a, i, |text|) > 0 && !AtZero(a, |text|)
    ensures View(Put(a, i, text)) == Placed(View(a), i, text, FateOf(a, i, |text|))
  {
    hide Room, Dest, Owner;
    RoomView(a, i, |text|);
    OwnerIs(a, i, |text|);
  }

  lemma OwnerIs(a: Arena, i: nat, len: nat)
    requires i < |a.slots|
    ensures Owner(a, i, len) == if Misplaced(a, i, len) then LastLive(a.slots) else i
    ensures Misplaced(a, i, len) ==> Collects(a, i, len)
  {}

  lemma RoomView(a: Arena, i: nat, len: nat)
    requires i < |a.slots|
    ensures View(Room(a, i, len)) == if Collects(a, i, len) then View(a).(shared := []) else View(a)
  {
    if Collects(a, i, len) {
      var g := if AtTop(a, i) then a else a.(garbage := a.garbage + Size(a.slots[i], a.overhead));
      CompactKeepsTexts(g, if AtTop(a, i) then a.top + a.overhead + len else a.used + a.overhead + len);
    }
  }

  /** What the readers of all indices get. */
  function Reads(v: Strings): (t: seq<Text>)
    ensures |t| == |v.own| && forall k :: 0 <= k < |t| ==> t[k] == Read(v, k)
  {
    seq(|v.own|, k requires 0 <= k < |v.own| => Read(v, k))
  }

  ghost predicate Filled(a: Arena) {
    forall k :: 0 <= k < |a.slots| && a.slots[k].Live? ==> a.slots[k].text != []
  }

  lemma SoundFilled(a: Arena)
    requires Sound(a)
    ensures Filled(a)
  {
    forall k | 0 <= k < |a.slots| && a.slots[k].Live? ensures a.slots[k].text != [] {
      assert InUse(a, k);
    }
  }

  lemma PutFilled(a: Arena, i: nat, text: Text)
    requires Filled(a) && i < |a.slots| && text != []
    ensures Filled(Put(a, i, text))
  {}

  lemma TextsAreRead(a: Arena)
    requires Filled(a)
    ensures Texts(a) == Reads(View(a))
    ensures forall k :: 0 <= k < |a.slots| ==> (a.slots[k].Live? <==> View(a).own[k] != [])
  {}

  /** Index i reads the text, and no other index anything new, exactly when the
      text is not misplaced, nor at offset 0 where others read it for the first
      time, nor in a new buffer that lacks the text others have read there. */
  lemma PutTexts(a: Arena, i: nat, text: Text)
    requires Sound(a) && i < |a.slots| && text != []
    ensures Texts(Put(a, i, text)) == Texts(a)[i := text]
       <==> && !Misplaced(a, i, |text|) && (AtZero(a, |text|) ==> a.zero == text || |a.slots| == 1)
            && (Collects(a, i, |text|) ==>
                  a.zero == [] || forall k :: 0 <= k < |a.slots| && k != i ==> a.slots[k].Live?)
    ensures Misplaced(a, i, |text|) ==>
      var own, o := View(a).own, LastLive(a.slots);
      Texts(Put(a, i, text)) == if o < 0 then own else own[o := text]
    ensures AtZero(a, |text|) ==> forall k :: 0 <= k < |a.slots| ==> Texts(Put(a, i, text))[k] == text
  {
    hide Put, Inv, Blank, Misplaced, AtZero, Collects;
    var v, fate := View(a), FateOf(a, i, |text|);
    SoundFilled(a);
    PutFilled(a, i, text);
    TextsAreRead(a);
    TextsAreRead(Put(a, i, text));
    PutView(a, i, text);
    match fate
    case Stays => FateFacts(a, i, text);
    case Collected => FateFacts(a, i, text); CollectedReads(v, i, text);
    case AtOffset0 => FateFacts(a, i, text); SharedReads(v, i, text);
    case Astray(o) => FateFacts(a, i, text); AstrayReads(v, i, text, o);
  }

  lemma FateFacts(a: Arena, i: nat, text: Text)
    requires Sound(a) && i < |a.slots| && text != []
    ensures FateOf(a, i, |text|).Stays? ==> !Misplaced(a, i, |text|) && !AtZero(a, |text|) && !Collects(a, i, |text|)
    ensures FateOf(a, i, |text|).Collected? ==>
      !Misplaced(a, i, |text|) && !AtZero(a, |text|) && Collects(a, i, |text|)
    ensures FateOf(a, i, |text|).AtOffset0? ==>
      && !Misplaced(a, i, |text|) && AtZero(a, |text|) && !Collects(a, i, |text|)
      && forall k :: 0 <= k < |a.slots| ==> View(a).own[k] == []
    ensures FateOf(a, i, |text|).Astray? ==>
      && Misplaced(a, i, |text|) && !AtZero(a, |text|) && FateOf(a, i, |text|).o == LastLive(a.slots) != i
      && |View(a).own[i]| < |text| && View(a).own[i] != []
  {
    if Inv(a) {
      assert InUse(a, i) && UnderTop(a, i);
      BehindZero(a, i, |text|);
    }
  }

  lemma CollectedReads(v: Strings, i: nat, text: Text)
    requires i < |v.own| && text != []
    ensures Reads(Strings(v.own[i := text], [])) == Reads(v)[i := text]
       <==> v.shared == [] || forall k :: 0 <= k < |v.own| && k != i ==> v.own[k] != []
  {
    var w := Strings(v.own[i := text], []);
    if k :| 0 <= k < |v.own| && k != i && v.own[k] == [] && v.shared != [] {
      assert Reads(w)[k] != Reads(v)[i := text][k];
    }
  }

  lemma SharedReads(v: Strings, i: nat, text: Text)
    requires i < |v.own| && text != [] && forall k :: 0 <= k < |v.own| ==> v.own[k] == []
    ensures Reads(v.(shared := text)) == Reads(v)[i := text] <==> v.shared == text || |v.own| == 1
  {
    var w := v.(shared := text);
    if v.shared != text && |v.own| > 1 {
      var k := if i == 0 then 1 else 0;
      assert Reads(w)[k] != Reads(v)[i := text][k];
    }
  }

  lemma AstrayReads(v: Strings, i: nat, text: Text, o: int)
    requires i < |v.own| && o < |v.own| && o != i && v.own[i] != [] && v.own[i] != text && text != []
    ensures Reads(Placed(v, i, text, Astray(o))) != Reads(v)[i := text]
  {
    assert Reads(Placed(v, i, text, Astray(o)))[i] == v.own[i];
  }

  // ---------- whole operations, and runs of them ----------

  /** Indices below n exist; the new ones have no text. */
  function Grow(a: Arena, n: nat): (g: Arena)
    ensures |g.slots| == if n <= |a.slots| then |a.slots| else n
  {
    if n <= |a.slots| then a else a.(slots := a.slots + seq(n - |a.slots|, _ => Free))
  }

  function Erase(a: Arena, i: nat): Arena
    requires i < |a.slots|
  {
    if a.slots[i].Live? then a.(slots := a.slots[i := Free], garbage := a.garbage + Size(a.slots[i], a.overhead)) else a
  }

  function SetText(a: Arena, i: nat, text: Text): Arena {
    var g := Grow(a, i + 1);
    if text == [] then Erase(g, i) else Put(g, i, text)
  }

  /** The first part of a sum. The pool that stores lengths looks for it where
      the index points, the other one only in a slot. */
  function First(a: Arena, i: nat): Text
    requires i < |a.slots|
  {
    if a.slots[i].Live? then a.slots[i].text else if a.overhead > 1 then a.zero else []
  }

  function AppendText(a: Arena, i: nat, text: Text): Arena
    requires i < |a.slots|
  {
    if text == [] then a else Put(a, i, First(a, i) + text)
  }

  /** New indices have no text of their own. */
  function Widened(v: Strings, n: nat): (w: Strings)
    ensures |w.own| == Max(n, |v.own|)
  {
    v.(own := Extended(v.own, n))
  }

  lemma GrowKeepsInv(a: Arena, n: nat)
    requires Sound(a)
    ensures Sound(Grow(a, n)) && View(Grow(a, n)) == Widened(View(a), n)
    ensures Inv(a) ==> Inv(Grow(a, n))
  {
    hide Geometry, Total;
    if n > |a.slots| {
      TotalOfFreeTail(a.slots, n - |a.slots|, a.overhead);
      if Geometry(a) { GrowKeepsGeometry(a, n); }
    }
  }

  lemma GrowKeepsGeometry(a: Arena, n: nat)
    requires Geometry(a)
    ensures Geometry(Grow(a, n))
  {
    var g := Grow(a, n);
    forall k | 0 <= k < |g.slots| ensures InUse(g, k) && UnderTop(g, k) {
      if k < |a.slots| { assert InUse(a, k) && UnderTop(a, k); }
    }
    forall j, k | 0 <= j < k < |g.slots| ensures Apart(g.slots[j], g.slots[k], g.overhead) {
      if k < |a.slots| { assert Apart(a.slots[j], a.slots[k], a.overhead); }
    }
  }

  lemma {:induction false} TotalOfFreeTail(slots: seq<Slot>, n: nat, h: nat)
    ensures Total(slots + seq(n, _ => Free), h) == Total(slots, h)
    decreases n
  {
    if n == 0 {
      assert slots + seq(0, _ => Free) == slots;
    } else {
      assert (slots + seq(n, _ => Free))[..|slots| + n - 1] == slots + seq(n - 1, _ => Free);
      TotalOfFreeTail(slots, n - 1, h);
    }
  }

  lemma EraseKeepsInv(a: Arena, i: nat)
    requires Sound(a) && i < |a.slots|
    ensures Sound(Erase(a, i)) && View(Erase(a, i)) == View(a).(own := View(a).own[i := []])
    ensures Texts(Erase(a, i)) == Texts(a)[i := a.zero]
    ensures Inv(a) ==> Inv(Erase(a, i))
  {
    EraseTexts(a, i);
    if Inv(a) && a.slots[i].Live? { EraseInv(a, i); }
  }

  lemma EraseTexts(a: Arena, i: nat)
    requires Sound(a) && i < |a.slots|
    ensures View(Erase(a, i)) == View(a).(own := View(a).own[i := []])
    ensures Texts(Erase(a, i)) == Texts(a)[i := a.zero]
    ensures (a.slots[i].Free? ==> Erase(a, i) == a) && (a.slots[i].Live? ==> Inv(a))
  {}

  lemma EraseInv(a: Arena, i: nat)
    requires Inv(a) && i < |a.slots| && a.slots[i].Live?
    ensures Inv(Erase(a, i))
  {
    var b := Erase(a, i);
    TotalUpdate(a.slots, i, Free, a.overhead);
    if !a.hasBuffer { NoSlotsWithoutBuffer(a); }
    forall k | 0 <= k < |b.slots| ensures InUse(b, k) && UnderTop(b, k) { assert InUse(a, k) && UnderTop(a, k); }
    forall j, k | 0 <= j < k < |b.slots| ensures Apart(b.slots[j], b.slots[k], b.overhead) {
      assert Apart(a.slots[j], a.slots[k], a.overhead);
    }
  }

  function Extended(t: seq<Text>, n: nat): seq<Text> {
    if n <= |t| then t else t + seq(n - |t|, _ => [])
  }

  /** The calls of a pool. CopyFrom and AppendFrom take the text from another
      string of the same pool. */
  datatype Op =
    | SetTo(i: nat, text: Text)
    | Append(i: nat, text: Text)
    | CopyFrom(i: nat, j: nat)
    | AppendFrom(i: nat, j: nat)
    | Reserve(request: nat)
    | ReserveIndices(n: nat)
    | ClearAll

  predicate InRange(n: nat, op: Op) {
    match op
    case SetTo(_, _) => true
    case Append(i, _) => i < n
    case CopyFrom(_, j) => j < n
    case AppendFrom(i, j) => i < n && j < n
    case Reserve(_) => true
    case ReserveIndices(_) => true
    case ClearAll => true
  }

  /** The text the call brings along. */
  function Argument(t: seq<Text>, op: Op): Text
    requires InRange(|t|, op)
  {
    match op
    case SetTo(_, text) => text
    case Append(_, text) => text
    case CopyFrom(_, j) => t[j]
    case AppendFrom(_, j) => t[j]
    case Reserve(_) => []
    case ReserveIndices(_) => []
    case ClearAll => []
  }

  function Step(a: Arena, op: Op): Arena
    requires InRange(|a.slots|, op)
  {
    var text := Argument(Texts(a), op);
    match op
    case SetTo(i, _) => SetText(a, i, text)
    case Append(i, _) => AppendText(a, i, text)
    case CopyFrom(i, _) => SetText(a, i, text)
    case AppendFrom(i, _) => AppendText(a, i, text)
    case Reserve(request) => Compact(a, request)
    case ReserveIndices(_) => a
    case ClearAll => Cleared(a)
  }

  /** The same call on a plain map from index to text. */
  function MapStep(t: seq<Text>, op: Op): seq<Text>
    requires InRange(|t|, op)
  {
    var text := Argument(t, op);
    match op
    case SetTo(i, _) => Extended(t, i + 1)[i := text]
    case Append(i, _) => t[i := t[i] + text]
    case CopyFrom(i, _) => Extended(t, i + 1)[i := text]
    case AppendFrom(i, _) => t[i := t[i] + text]
    case Reserve(_) => t
    case ReserveIndices(_) => t
    case ClearAll => seq(|t|, _ => [])
  }

  /** The index and the length that the call asks Allocate for, if it does. */
  datatype Demand = NoDemand | Demand(i: nat, len: nat)

  function Asks(a: Arena, op: Op): Demand
    requires InRange(|a.slots|, op)
  {
    var text := Argument(Texts(a), op);
    if text == [] then NoDemand
    else match op
      case SetTo(i, _) => Demand(i, |text|)
      case Append(i, _) => Demand(i, |First(a, i)| + |text|)
      case CopyFrom(i, _) => Demand(i, |text|)
      case AppendFrom(i, _) => Demand(i, |First(a, i)| + |text|)
  }

  predicate StepPastEnd(a: Arena, op: Op)
    requires InRange(|a.slots|, op)
  {
    var d := Asks(a, op);
    d.Demand? && PastEnd(Grow(a, d.i + 1), d.i, d.len)
  }

  predicate StepAtZero(a: Arena, op: Op)
    requires InRange(|a.slots|, op)
  {
    var d := Asks(a, op);
    d.Demand? && AtZero(a, d.len)
  }

  predicate StepPlaced(a: Arena, op: Op)
    requires InRange(|a.slots|, op)
  {
    var d := Asks(a, op);
    d.Demand? ==> !Misplaced(Grow(a, d.i + 1), d.i, d.len) && !AtZero(a, d.len)
  }

  function StepFate(a: Arena, op: Op): Fate
    requires InRange(|a.slots|, op)
  {
    var d := Asks(a, op);
    if d.Demand? then FateOf(Grow(a, d.i + 1), d.i, d.len) else Stays
  }

  /** The call on the strings, its text going where it went. */
  function Follow(v: Strings, op: Op, fate: Fate, lengths: bool): Strings
    requires InRange(|v.own|, op)
  {
    var text := Argument(Reads(v), op);
    match op
    case SetTo(i, _) => Assigned(v, i, text, fate)
    case CopyFrom(i, _) => Assigned(v, i, text, fate)
    case Append(i, _) => Joined(v, i, text, fate, lengths)
    case AppendFrom(i, _) => Joined(v, i, text, fate, lengths)
    case Reserve(_) => v.(shared := [])
    case ReserveIndices(_) => v
    case ClearAll => v.(own := seq(|v.own|, _ => []))
  }

  function Assigned(v: Strings, i: nat, text: Text, fate: Fate): Strings {
    var w := Widened(v, i + 1);
    if text == [] then w.(own := w.own[i := []]) else Placed(w, i, text, fate)
  }

  function Joined(v: Strings, i: nat, text: Text, fate: Fate, lengths: bool): Strings
    requires i < |v.own|
  {
    var first := if v.own[i] != [] then v.own[i] else if lengths then v.shared else [];
    if text == [] then v else Placed(v, i, first + text, fate)
  }

  /** One call leaves a well-formed pool well formed exactly when its text is not
      past the end, and wherever the text went, the strings follow. While
      offset 0 holds the empty string, the call does to the pool what it does to
      a map exactly when its text is neither misplaced nor at offset 0. */
  lemma StepRefines(a: Arena, op: Op)
    requires Sound(a) && InRange(|a.slots|, op)
    ensures Sound(Step(a, op)) <==> !StepPastEnd(a, op)
    ensures View(Step(a, op)) == Follow(View(a), op, StepFate(a, op), a.overhead > 1)
    ensures a.zero == [] ==>
      (Step(a, op).zero == [] && Texts(Step(a, op)) == MapStep(Texts(a), op) <==> StepPlaced(a, op))
  {
    hide Sound, SetText, AppendText, PastEnd, Misplaced, AtZero, Compact, Extended, Cleared, FateOf, Assigned, Joined;
    SoundFilled(a);
    TextsAreRead(a);
    var text := Argument(Texts(a), op);
    match op
    case SetTo(i, _) => SetRefines(a, i, text);
    case CopyFrom(i, _) => SetRefines(a, i, text);
    case Append(i, _) => AppendRefines(a, i, text);
    case AppendFrom(i, _) => AppendRefines(a, i, text);
    case Reserve(request) => ReserveRefines(a, request);
    case ReserveIndices(_) =>
    case ClearAll => ClearRefines(a);
  }

  lemma ReserveRefines(a: Arena, request: nat)
    requires Sound(a)
    ensures Sound(Compact(a, request)) && View(Compact(a, request)) == View(a).(shared := [])
    ensures a.zero == [] ==> Texts(Compact(a, request)) == Texts(a)
  {
    ReserveKeepsInv(a, request);
    CompactKeepsTexts(a, request);
  }

  /** Clear takes every index its text, and leaves the one at offset 0 to be
      read at all of them: it erases exactly when that is the empty one. */
  lemma ClearRefines(a: Arena)
    requires Sound(a)
    ensures Sound(Cleared(a)) && View(Cleared(a)) == View(a).(own := seq(|a.slots|, _ => []))
    ensures Texts(Cleared(a)) == seq(|a.slots|, _ => a.zero)
    ensures Texts(Cleared(a)) == seq(|a.slots|, _ => []) <==> a.zero == [] || a.slots == []
  {
    if Inv(a) && !a.hasBuffer { AllFree(Cleared(a).slots, a.overhead); }
    if a.slots != [] { assert Texts(Cleared(a))[0] == a.zero; }
  }

  lemma SetRefines(a: Arena, i: nat, text: Text)
    requires Sound(a)
    ensures Sound(SetText(a, i, text)) <==> text == [] || !PastEnd(Grow(a, i + 1), i, |text|)
    ensures View(SetText(a, i, text))
      == Assigned(View(a), i, text, if text == [] then Stays else FateOf(Grow(a, i + 1), i, |text|))
    ensures a.zero == [] ==>
      (SetText(a, i, text).zero == [] && Texts(SetText(a, i, text)) == Extended(Texts(a), i + 1)[i := text]
       <==> (text == [] || (!Misplaced(Grow(a, i + 1), i, |text|) && !AtZero(a, |text|))))
  {
    hide Inv, Blank, Put, FateOf;
    var g := Grow(a, i + 1);
    GrowKeepsInv(a, i + 1);
    if a.zero == [] { GrownTexts(a, i + 1); }
    if text == [] {
      EraseKeepsInv(g, i);
    } else {
      PutKeepsInv(g, i, text);
      PutView(g, i, text);
      if a.zero == [] { PutClean(g, i, text); }
    }
  }

  lemma GrownTexts(a: Arena, n: nat)
    requires a.zero == []
    ensures Texts(Grow(a, n)) == Extended(Texts(a), n)
  {}

  /** While offset 0 holds the empty string: the text is at index i alone, and
      offset 0 keeps it, exactly when it is neither misplaced nor at offset 0. */
  lemma PutClean(a: Arena, i: nat, text: Text)
    requires Sound(a) && i < |a.slots| && text != [] && a.zero == []
    ensures Put(a, i, text).zero == [] && Texts(Put(a, i, text)) == Texts(a)[i := text]
       <==> !Misplaced(a, i, |text|) && !AtZero(a, |text|)
  {
    hide Put, Inv, Blank;
    PutTexts(a, i, text);
    PutView(a, i, text);
    FateFacts(a, i, text);
  }

  lemma AppendRefines(a: Arena, i: nat, text: Text)
    requires Sound(a) && i < |a.slots|
    ensures var n := |First(a, i)| + |text|;
      && (Sound(AppendText(a, i, text)) <==> text == [] || !PastEnd(a, i, n))
      && View(AppendText(a, i, text))
           == Joined(View(a), i, text, if text == [] then Stays else FateOf(a, i, n), a.overhead > 1)
      && (a.zero == [] ==>
            (AppendText(a, i, text).zero == [] && Texts(AppendText(a, i, text)) == Texts(a)[i := Texts(a)[i] + text]
             <==> text == [] || (!Misplaced(a, i, n) && !AtZero(a, n))))
  {
    hide Inv, Blank, Put, FateOf, Misplaced, AtZero, PastEnd;
    SoundFilled(a);
    TextsAreRead(a);
    if text == [] {
      assert Texts(a)[i] + text == Texts(a)[i];
    } else {
      SumRefines(a, i, First(a, i) + text);
    }
  }

  lemma SumRefines(a: Arena, i: nat, sum: Text)
    requires Sound(a) && i < |a.slots| && sum != []
    ensures Sound(Put(a, i, sum)) <==> !PastEnd(a, i, |sum|)
    ensures View(Put(a, i, sum)) == Placed(View(a), i, sum, FateOf(a, i, |sum|))
    ensures a.zero == [] ==> (Put(a, i, sum).zero == [] && Texts(Put(a, i, sum)) == Texts(a)[i := sum]
      <==> !Misplaced(a, i, |sum|) && !AtZero(a, |sum|))
  {
    hide Put, FateOf, Misplaced, AtZero, PastEnd, Inv, Blank;
    PutKeepsInv(a, i, sum);
    PutView(a, i, sum);
    if a.zero == [] { PutClean(a, i, sum); }
  }

  /** Every call of the run is in range and none puts its text past the end. */
  predicate SafeRun(a: Arena, ops: seq<Op>)
    decreases |ops|
  {
    ops == [] || (InRange(|a.slots|, ops[0]) && !StepPastEnd(a, ops[0]) && SafeRun(Step(a, ops[0]), ops[1..]))
  }

  function Run(a: Arena, ops: seq<Op>): Arena
    requires SafeRun(a, ops)
    decreases |ops|
  {
    if ops == [] then a else Run(Step(a, ops[0]), ops[1..])
  }

  function Fates(a: Arena, ops: seq<Op>): (fates: seq<Fate>)
    requires SafeRun(a, ops)
    ensures |fates| == |ops|
    decreases |ops|
  {
    if ops == [] then [] else [StepFate(a, ops[0])] + Fates(Step(a, ops[0]), ops[1..])
  }

  /** The run on the strings, each text going where it went. */
  function FollowAll(v: Strings, ops: seq<Op>, fates: seq<Fate>, lengths: bool): Strings
    requires |ops| == |fates|
    decreases |ops|
  {
    if ops == [] || !InRange(|v.own|, ops[0]) then v
    else FollowAll(Follow(v, ops[0], fates[0], lengths), ops[1..], fates[1..], lengths)
  }

  lemma StepOverhead(a: Arena, op: Op)
    requires InRange(|a.slots|, op)
    ensures Step(a, op).overhead == a.overhead
  {
    hide Put, Texts, Compact;
    var text := Argument(Texts(a), op);
    match op
    case SetTo(i, _) => PutOverhead(Grow(a, i + 1), i, text);
    case CopyFrom(i, _) => PutOverhead(Grow(a, i + 1), i, text);
    case Append(i, _) => PutOverhead(a, i, First(a, i) + text);
    case AppendFrom(i, _) => PutOverhead(a, i, First(a, i) + text);
    case Reserve(request) => CompactOverhead(a, request);
    case ReserveIndices(_) =>
    case ClearAll =>
  }

  lemma PutOverhead(a: Arena, i: nat, text: Text)
    requires i < |a.slots|
    ensures Put(a, i, text).overhead == a.overhead
  {}

  lemma CompactOverhead(a: Arena, request: nat)
    ensures Compact(a, request).overhead == a.overhead
  {}

  /** Over every run without a text past the end, Clear at any place in it, the
      pool stays well formed, and its strings are those the calls make of them. */
  lemma {:induction false} RunIsSafe(a: Arena, ops: seq<Op>)
    requires Sound(a) && SafeRun(a, ops)
    ensures Sound(Run(a, ops)) && Run(a, ops).overhead == a.overhead
    ensures View(Run(a, ops)) == FollowAll(View(a), ops, Fates(a, ops), a.overhead > 1)
    decreases |ops|
  {
    hide Sound, Step, Follow, StepPastEnd, StepFate, View;
    if ops == [] {
    } else {
      StepRefines(a, ops[0]);
      StepOverhead(a, ops[0]);
      RunIsSafe(Step(a, ops[0]), ops[1..]);
    }
  }

  /** Every call of the run is in range and places its text. */
  predicate GoodRun(a: Arena, ops: seq<Op>)
    decreases |ops|
  {
    ops == [] || (InRange(|a.slots|, ops[0]) && StepPlaced(a, ops[0]) && GoodRun(Step(a, ops[0]), ops[1..]))
  }

  function MapRun(t: seq<Text>, ops: seq<Op>): seq<Text>
    decreases |ops|
  {
    if ops == [] || !InRange(|t|, ops[0]) then t else MapRun(MapStep(t, ops[0]), ops[1..])
  }

  /** Over every run of calls that place their texts, the pool is a map from index to text. */
  lemma {:induction false} RunRefines(a: Arena, ops: seq<Op>)
    requires Sound(a) && a.zero == [] && GoodRun(a, ops)
    ensures SafeRun(a, ops) && Sound(Run(a, ops)) && Run(a, ops).zero == []
    ensures Texts(Run(a, ops)) == MapRun(Texts(a), ops)
    decreases |ops|
  {
    hide Sound, Step, MapStep, StepPlaced, StepPastEnd, StepFate, Follow, View;
    if ops == [] {
    } else {
      PlacedIsSafe(a, ops[0]);
      StepRefines(a, ops[0]);
      RunRefines(Step(a, ops[0]), ops[1..]);
    }
  }

  lemma PlacedIsSafe(a: Arena, op: Op)
    requires InRange(|a.slots|, op) && StepPlaced(a, op)
    ensures !StepPastEnd(a, op) && !StepAtZero(a, op)
  {}

  // ---------- where the pool is not a map ----------

  /** Three calls: strings 1 and 0 get short texts, then string 0, which is
      last in the buffer, gets one the buffer has no room for. It replaces string 1. */
  lemma LongTextLandsElsewhere(long: Text)
    requires |long| > 5000
    ensures var a := Step(Step(Empty(3), SetTo(1, [65])), SetTo(0, [66]));
      Inv(a) && Texts(a) == [[66], [65]] && Texts(Step(a, SetTo(0, long))) == [[66], long]
  {
    FirstCall();
    SecondCall([66]);
    var a := TwoTexts([66]);
    assert Texts(a) == [[66], [65]] == View(a).own;
    PutTexts(a, 0, long);
    assert LastLive(a.slots) == 1;
  }

  /** Three calls again. The long text goes behind that of string 1, which the
      collector has put last, and the buffer has no room for both. */
  lemma LongTextPastEnd(big: Text, long: Text)
    requires 5 <= |big| <= 4089 && |long| > |big| + ALLOCATE_SPACE + 14
    ensures var a := Step(Step(Empty(3), SetTo(1, [65])), SetTo(0, big));
      Inv(a) && Texts(a) == [big, [65]] && StepPastEnd(a, SetTo(0, long)) &&
      Dest(a, 0, |long|) + 3 + |long| > Room(a, 0, |long|).cap
  {
    FirstCall();
    SecondCall(big);
    var a := TwoTexts(big);
    assert LastLive(a.slots) == 1 && a.slots[..1] == [Live(7, big)];
    assert [Live(7, big)][..0] == [];
    FitsExactly(a, 0, |long|);
  }

  /** String 1 got a short text, then string 0 this one. */
  function TwoTexts(text: Text): Arena {
    Arena(3, [Live(7, text), Live(3, [65])], 10 + |text|, 0, 7, 4099, true, [])
  }

  lemma FirstCall()
    ensures SetText(Empty(3), 1, [65]) == Arena(3, [Free, Live(3, [65])], 7, 0, 3, 4099, true, [])
    ensures Inv(SetText(Empty(3), 1, [65]))
  {
    var g := Grow(Empty(3), 2);
    assert g.slots == [Free, Free];
    AllFree(g.slots, 3);
    assert Room(g, 1, 1).used == 3;
    SetRefines(Empty(3), 1, [65]);
  }

  lemma SecondCall(text: Text)
    requires 0 < |text| <= 4089
    ensures SetText(Arena(3, [Free, Live(3, [65])], 7, 0, 3, 4099, true, []), 0, text) == TwoTexts(text)
    ensures Inv(TwoTexts(text))
  {
    FirstCall();
    SetRefines(Arena(3, [Free, Live(3, [65])], 7, 0, 3, 4099, true, []), 0, text);
  }

  /** Clear: no index has a text, nothing is in use, the buffer stays. */
  function Cleared(a: Arena): Arena {
    a.(slots := seq(|a.slots|, _ => Free), used := 0, garbage := 0)
  }

  /** The next text after Clear, when the kept buffer has room for it: every
      index reads it, another Clear does not erase it, and the next collection
      drops it everywhere. */
  lemma ClearedTextIsShared(a: Arena, i: nat, text: Text, request: nat, k: nat)
    requires Sound(a) && a.hasBuffer && i < |a.slots| && text != [] && a.overhead + |text| <= a.cap && k < |a.slots|
    ensures var p := Put(Cleared(a), i, text);
      Sound(p) && Texts(p)[k] == text && Texts(Cleared(p))[k] == text && Texts(Compact(p, request))[k] == []
  {
    ClearRefines(a);
    var p := Put(Cleared(a), i, text);
    PutKeepsInv(Cleared(a), i, text);
    PutTexts(Cleared(a), i, text);
    PutView(Cleared(a), i, text);
    ClearRefines(p);
    CompactKeepsTexts(p, request);
  }

  /** After Clear the pool goes on as a map exactly when the next text is too
      long for the kept buffer, which is then replaced. */
  lemma ClearedPoolIsMapExactly(a: Arena, i: nat, text: Text)
    requires Sound(a) && a.hasBuffer && i < |a.slots| && text != []
    ensures var p := Put(Cleared(a), i, text);
      p.zero == [] && Texts(p) == seq(|a.slots|, _ => [])[i := text] <==> a.overhead + |text| > a.cap
  {
    ClearRefines(a);
    PutView(Cleared(a), i, text);
    PutTexts(Cleared(a), i, text);
    PutKeepsInv(Cleared(a), i, text);
    PutFilled(Cleared(a), i, text);
    TextsAreRead(Put(Cleared(a), i, text));
  }
}

/** What the offset table and the buffer of a pool hold, and how each step of
    the allocator and the collector changes that. */
module PoolLayout {
  import opened Arena
  import opened Arithmetic
  import opened PoolBytes

  function OffsetOf(s: Slot): nat {
    if s.Live? then s.off else 0
  }

  /** The part of a text that a C string function sees. */
  function UpToZero(t: Text): Text {
    t[..ZeroAt(t, 0)]
  }

  /** The offset table: one entry per index, zeros behind. */
  ghost predicate Indexes(offs: seq<nat>, slots: seq<Slot>) {
    |slots| <= |offs| && forall k :: 0 <= k < |offs| ==> offs[k] == if k < |slots| then OffsetOf(slots[k]) else 0
  }

  /** The buffer of an arena: the text at offset 0, and the text of every slot. */
  ghost predicate Stores(f: Format, b: seq<byte>, m: Arena) {
    && m.overhead == Overhead(f) && m.hasBuffer && |b| == m.cap
    && (forall k :: 0 <= k < |m.slots| ==> m.slots[k].Live? ==> m.overhead + |m.zero| <= m.slots[k].off)
    && EncodedAt(f, b, 0, m.zero) && Holds(f, b, m.slots)
  }

  ghost predicate Bare(f: Format, m: Arena) {
    && m.overhead == Overhead(f) && !m.hasBuffer && m.cap == 0 && m.zero == []
    && forall k :: 0 <= k < |m.slots| ==> m.slots[k].Free?
  }

  /** The format can store every text. */
  ghost predicate Readable(f: Format, m: Arena) {
    Storable(f, m.zero) && forall k :: 0 <= k < |m.slots| ==> Storable(f, TextOf(m.slots[k]))
  }

  lemma ReadableSlot(f: Format, m: Arena, i: nat)
    requires Readable(f, m) && i < |m.slots|
    ensures Storable(f, TextOf(m.slots[i])) && Storable(f, Texts(m)[i])
  {}

  lemma ReadableCompact(f: Format, m: Arena, request: nat)
    requires Readable(f, m)
    ensures Readable(f, Compact(m, request))
  {}

  lemma ReadableRoom(f: Format, m: Arena, i: nat, len: nat)
    requires Readable(f, m) && i < |m.slots|
    ensures Readable(f, Room(m, i, len)) && |Room(m, i, len).slots| == |m.slots|
  {}

  lemma ReadableGrow(f: Format, m: Arena, n: nat)
    requires Readable(f, m)
    ensures Readable(f, Grow(m, n))
  {}

  lemma ReadableErase(f: Format, m: Arena, i: nat)
    requires Readable(f, m) && i < |m.slots|
    ensures Readable(f, Erase(m, i))
  {}

  lemma ReadablePut(f: Format, m: Arena, i: nat, text: Text)
    requires Readable(f, m) && i < |m.slots| && Storable(f, text)
    ensures Readable(f, Put(m, i, text))
  {
    hide Storable, Compact;
    ReadableRoom(f, m, i, |text|);
  }

  lemma StoredText(f: Format, b: seq<byte>, m: Arena, i: nat)
    requires Stores(f, b, m) && i < |m.slots|
    ensures EncodedAt(f, b, OffsetOf(m.slots[i]), Texts(m)[i])
    ensures var off, text := OffsetOf(m.slots[i]), Texts(m)[i];
      off + |text| + m.overhead <= |b| && b[off..off + |text| + m.overhead] == Encode(f, text)
    ensures OffsetOf(m.slots[i]) == 0 <==> m.slots[i].Free?
    ensures m.slots[i].Live? ==> Texts(m)[i] == TextOf(m.slots[i])
  {}

  /** The strings are what assigning the text to string i makes of them. While
      offset 0 holds the empty string, string i is the text, new indices are
      empty and nothing else has changed, exactly when the text was neither
      misplaced nor put at offset 0. */
  ghost predicate Assigns(before: Arena, after: Arena, i: nat, text: Text) {
    var g := Grow(before, i + 1);
    && View(after) == Assigned(View(before), i, text, if text == [] then Stays else FateOf(g, i, |text|))
    && (before.zero == [] ==>
          (after.zero == [] && Texts(after) == Extended(Texts(before), i + 1)[i := text]
           <==> text == [] || (!Misplaced(g, i, |text|) && !AtZero(before, |text|))))
  }

  lemma AssignsText(m: Arena, i: nat, text: Text)
    requires Sound(m)
    ensures Assigns(m, SetText(m, i, text), i, text)
    ensures Sound(SetText(m, i, text)) <==> text == [] || !PastEnd(Grow(m, i + 1), i, |text|)
  {
    SetRefines(m, i, text);
  }

  /** The strings are what appending the text to string i makes of them. While
      offset 0 holds the empty string, string i has grown by the text and
      nothing else has changed, exactly when the sum was neither misplaced nor
      put at offset 0. */
  ghost predicate Appends(before: Arena, after: Arena, i: nat, text: Text)
    requires i < |before.slots|
  {
    var t, n := Texts(before), |First(before, i)| + |text|;
    && View(after)
         == Joined(View(before), i, text, if text == [] then Stays else FateOf(before, i, n), before.overhead > 1)
    && (before.zero == [] ==>
          (after.zero == [] && Texts(after) == t[i := t[i] + text]
           <==> text == [] || (!Misplaced(before, i, n) && !AtZero(before, n))))
  }

  lemma AppendsText(m: Arena, i: nat, text: Text)
    requires Sound(m) && i < |m.slots|
    ensures Appends(m, AppendText(m, i, text), i, text)
    ensures Sound(AppendText(m, i, text)) <==> text == [] || !PastEnd(m, i, |First(m, i)| + |text|)
  {
    AppendRefines(m, i, text);
  }

  lemma AppendNothing(m: Arena, i: nat, text: Text)
    requires i < |m.slots| && text == []
    ensures AppendText(m, i, text) == m
  {}

  lemma AppendIsPut(m: Arena, i: nat, text: Text)
    requires i < |m.slots| && text != []
    ensures AppendText(m, i, text) == Put(m, i, First(m, i) + text)
  {}

  lemma SetAsAppend(m: Arena, i: nat, text: Text)
    requires i < |m.slots| && First(m, i) == [] && text != []
    requires m.slots[i].Live? ==> m.slots[i].text == []
    ensures Grow(m, i + 1) == m && SetText(m, i, text) == AppendText(m, i, text)
  {
    assert [] + text == text;
  }

  /** The first part of a sum is what the index reads, unless the pool does not
      store lengths and there is no slot. */
  lemma FirstIsRead(f: Format, m: Arena, i: nat)
    requires Sound(m) && i < |m.slots| && m.overhead == Overhead(f)
    ensures First(m, i) == if f.Sized? || m.slots[i].Live? then Texts(m)[i] else []
    ensures m.slots[i].Live? ==> First(m, i) != []
  {
    SoundFilled(m);
  }

  /** A pointer to a stored text is the C string up to the text's first zero. */
  lemma CTextOf(s: array?<byte>, p: nat, text: Text)
    requires s == null ==> text == []
    requires s != null ==> p + |text| < s.Length && s[p..p + |text|] == text && s[p + |text|] == 0
    ensures (s != null ==> Terminates(s, p)) && CText(s, p) == UpToZero(text) && |UpToZero(text)| <= |text|
  {
    if s != null {
      assert forall k :: 0 <= k < |text| ==> s[p..p + |text|][k] == s[p + k] == text[k];
      assert s[..][p + |text|] == 0;
    }
  }

  /** The bytes lie in the slot of index j, behind what stands before the text. */
  ghost predicate InSlot(m: Arena, j: nat, at: nat, n: nat) {
    && j < |m.slots| && m.slots[j].Live?
    && m.slots[j].off + m.overhead <= at + 1 && at + n <= m.slots[j].off + Size(m.slots[j], m.overhead)
  }

  /** The bytes lie in the text at offset 0 or its closing zero. */
  ghost predicate InZero(m: Arena, at: nat, n: nat) {
    m.overhead <= at + 1 && at + n <= m.overhead + |m.zero|
  }

  ghost predicate InText(m: Arena, at: nat, n: nat) {
    InZero(m, at, n) || exists j :: InSlot(m, j, at, n)
  }

  /** A place that is given without a new buffer is apart from every other slot. */
  lemma OthersApart(m: Arena, i: nat, len: nat, j: nat)
    requires Sound(m) && i < |m.slots| && j < |m.slots| && j != i && m.slots[j].Live? && !Collects(m, i, len)
    ensures var d := Dest(m, i, len);
      m.slots[j].off + Size(m.slots[j], m.overhead) <= d || d + m.overhead + len <= m.slots[j].off
  {
    assert InUse(m, j) && UnderTop(m, j);
    assert Apart(m.slots[if j < i then j else i], m.slots[if j < i then i else j], m.overhead);
  }

  /** It is the old place of index i, or behind its text. */
  lemma OwnPlace(m: Arena, i: nat, len: nat)
    requires Sound(m) && i < |m.slots| && len > 0 && !Collects(m, i, len)
    ensures var off, d := OffsetOf(m.slots[i]), Dest(m, i, len);
      d == off || off + m.overhead + |Texts(m)[i]| <= d
    ensures m.slots[i].Live? ==> (Dest(m, i, len) == m.slots[i].off <==> AtTop(m, i) || FitsInPlace(m, i, len))
    ensures AtZero(m, len) ==> Dest(m, i, len) == 0
    ensures !AtZero(m, len) ==> m.overhead + |m.zero| <= Dest(m, i, len)
  {
    if Inv(m) {
      assert InUse(m, i) && UnderTop(m, i);
      BehindZero(m, i, len);
    }
  }

  /** n bytes of the pool are to be copied to `skip` bytes behind the start of a
      new text of index i, in the same buffer, and the two places overlap
      without being the same. */
  ghost predicate Clashes(m: Arena, i: nat, len: nat, skip: nat, at: nat, n: nat)
    requires i < |m.slots|
  {
    var to := Dest(m, i, len) + m.overhead - 1 + skip;
    !Collects(m, i, len) && at != to && at < to + n && to < at + n
  }

  /** Bytes to be copied lie apart from the new place, or in the text that was there. */
  lemma SourceReady(m: Arena, i: nat, len: nat, at: nat, n: nat)
    requires Sound(m) && i < |m.slots| && len > 0 && InText(m, at, n) && !Collects(m, i, len)
    ensures var d := Dest(m, i, len);
      || at + n <= d || d + m.overhead + len <= at
      || (d == OffsetOf(m.slots[i]) && d + m.overhead <= at + 1 && at + n <= d + m.overhead + |Texts(m)[i]|)
  {
    OwnPlace(m, i, len);
    if !InZero(m, at, n) {
      var j :| InSlot(m, j, at, n);
      if j != i { OthersApart(m, i, len, j); }
    } else if AtZero(m, len) {
      ZeroOnly(m, i, len);
    }
  }

  /** What is read for a sum that does not clash: its first part from the old
      place or before the new one, its second apart from the new place or inside
      the first. */
  lemma JoinReady(m: Arena, i: nat, at: nat, n: nat)
    requires Sound(m) && i < |m.slots| && First(m, i) == Texts(m)[i] && n > 0 && InText(m, at, n + 1)
    ensures var len := |First(m, i)|; var d, at1 := Dest(m, i, len + n), OffsetOf(m.slots[i]) + m.overhead - 1;
      !Collects(m, i, len + n) && !Clashes(m, i, len + n, len, at, n + 1) ==>
        && (at1 == d + m.overhead - 1 || at1 + len <= d)
        && (|| d + len + n + m.overhead <= at || at + n <= d
            || (at1 == d + m.overhead - 1 <= at && at + n <= at1 + len))
  {
    var len := |First(m, i)|;
    if !Collects(m, i, len + n) {
      OwnPlace(m, i, len + n);
      SourceReady(m, i, len + n, at, n + 1);
    }
  }

  lemma ZeroOnly(m: Arena, i: nat, len: nat)
    requires Sound(m) && i < |m.slots| && AtZero(m, len)
    ensures m.slots[i].Free? && Texts(m)[i] == m.zero
  {
    if Inv(m) { BehindZero(m, i, len); }
  }

  /** A part of string i, stored as string i, overlaps its new place exactly when
      it neither begins where the string does nor behind the part's length. */
  lemma OwnPartClashes(m: Arena, i: nat, at: nat, n: nat)
    requires Sound(m) && InSlot(m, i, at, n) && 0 < n <= |m.slots[i].text|
    ensures var start := at + 1 - m.slots[i].off - m.overhead; Clashes(m, i, n, 0, at, n) <==> 0 < start < n
  {
    assert InUse(m, i) && UnderTop(m, i);
  }

  /** A tail of string i, appended to it with its closing zero, overlaps its new
      place exactly when the slot grows where it is. */
  lemma OwnTailClashes(m: Arena, i: nat, at: nat, n: nat)
    requires Sound(m) && InSlot(m, i, at, n + 1) && n > 0
    requires at + n + 1 == m.slots[i].off + Size(m.slots[i], m.overhead)
    ensures var len := |m.slots[i].text|;
      Clashes(m, i, len + n, len, at, n + 1) <==> AtTop(m, i) && m.top + m.overhead + len + n <= m.cap
  {
    assert InUse(m, i) && UnderTop(m, i);
  }

  /** The whole of string j is appended to string i, which begins at the same
      place and grows there. */
  ghost predicate Doubles(m: Arena, i: nat, j: nat)
    requires i < |m.slots| && j < |m.slots|
  {
    var n := |First(m, i)|;
    && n > 0 && OffsetOf(m.slots[i]) == OffsetOf(m.slots[j])
    && (if m.slots[i].Live? then AtTop(m, i) && m.top + m.overhead + 2 * n <= m.cap else AtZero(m, 2 * n))
  }

  /** The first n bytes of string j, appended with a closing zero to string i,
      overlap their new place exactly when they are all of it, and doubled. */
  lemma AppendClashes(m: Arena, i: nat, j: nat, n: nat)
    requires Sound(m) && i < |m.slots| && j < |m.slots| && 0 < n <= |Texts(m)[j]|
    ensures var len1 := |First(m, i)|;
      Clashes(m, i, len1 + n, len1, OffsetOf(m.slots[j]) + m.overhead - 1, n + 1)
      <==> n == |Texts(m)[j]| && Doubles(m, i, j)
  {
    var len := |First(m, i)| + n;
    SoundFilled(m);
    if Inv(m) { assert InUse(m, i) && InUse(m, j); }
    if i != j && m.slots[j].Live? && m.slots[i].Live? {
      assert Apart(m.slots[if j < i then j else i], m.slots[if j < i then i else j], m.overhead);
    }
    if !Collects(m, i, len) {
      OwnPlace(m, i, len);
      if i != j && m.slots[j].Live? { OthersApart(m, i, len, j); }
    }
  }

  /** A whole string, stored as string i, does not overlap its new place. */
  lemma WholeNeverClashes(m: Arena, i: nat, j: nat, z: nat)
    requires Sound(m) && i < |m.slots| && j < |m.slots| && Texts(m)[j] != [] && z <= 1
    ensures var n := |Texts(m)[j]|; !Clashes(m, i, n, 0, OffsetOf(m.slots[j]) + m.overhead - 1, n + z)
  {
    var len := |Texts(m)[j]|;
    if !Collects(m, i, len) {
      OwnPlace(m, i, len);
      if i != j && m.slots[j].Live? { OthersApart(m, i, len, j); }
    }
  }

  lemma AppendReady(m: Arena, i: nat, j: nat, n: nat)
    requires Sound(m) && i < |m.slots| && j < |m.slots| && n <= |Texts(m)[j]|
    ensures n > 0 ==>
      var len1, at := |First(m, i)|, OffsetOf(m.slots[j]) + m.overhead - 1;
      Clashes(m, i, len1 + n, len1, at, n + 1) <==> n == |Texts(m)[j]| && Doubles(m, i, j)
    ensures InText(m, OffsetOf(m.slots[j]) + m.overhead - 1, n + 1)
  {
    WholeInText(m, j);
    LessInText(m, OffsetOf(m.slots[j]) + m.overhead - 1, |Texts(m)[j]| + 1, n + 1);
    if n > 0 { AppendClashes(m, i, j, n); }
  }

  lemma LessInText(m: Arena, at: nat, n: nat, less: nat)
    requires InText(m, at, n) && less <= n
    ensures InText(m, at, less)
  {
    if j :| InSlot(m, j, at, n) { assert InSlot(m, j, at, less); }
  }

  lemma WholeGrown(m: Arena, i: nat, j: nat)
    requires Sound(m) && j < |m.slots|
    ensures var g, n, at := Grow(m, i + 1), |Texts(m)[j]|, OffsetOf(m.slots[j]) + m.overhead - 1;
      n > 0 ==> !Clashes(g, i, n, 0, at, n) && !Clashes(g, i, n, 0, at, n + 1)
    ensures InText(m, OffsetOf(m.slots[j]) + m.overhead - 1, |Texts(m)[j]|)
  {
    var g := Grow(m, i + 1);
    GrowKeepsInv(m, i + 1);
    WholeInText(m, j);
    LessInText(m, OffsetOf(m.slots[j]) + m.overhead - 1, |Texts(m)[j]| + 1, |Texts(m)[j]|);
    assert Texts(g)[j] == Texts(m)[j] && g.slots[j] == m.slots[j];
    if Texts(m)[j] != [] {
      WholeNeverClashes(g, i, j, 0);
      WholeNeverClashes(g, i, j, 1);
    }
  }

  /** A whole string and its closing zero lie in the texts of the pool. */
  lemma WholeInText(m: Arena, j: nat)
    requires Sound(m) && j < |m.slots|
    ensures InText(m, OffsetOf(m.slots[j]) + m.overhead - 1, |Texts(m)[j]| + 1)
  {
    var at, n := OffsetOf(m.slots[j]) + m.overhead - 1, |Texts(m)[j]| + 1;
    if m.slots[j].Live? { assert InSlot(m, j, at, n); } else { assert InZero(m, at, n); }
  }

  lemma GrowSource(m: Arena, i: nat, at: nat, n: nat)
    ensures InText(m, at, n) ==> InText(Grow(m, i + 1), at, n)
  {
    if j :| InSlot(m, j, at, n) { assert InSlot(Grow(m, i + 1), j, at, n); }
  }

  lemma GrowShape(f: Format, buffer: array?<byte>, m: Arena, offs: seq<nat>, n: nat, z: nat)
    requires Sound(m) && Indexes(offs, m.slots) && (if buffer == null then Bare(f, m) else Stores(f, buffer[..], m))
    ensures var g := Grow(m, n);
      Sound(g) && g.zero == m.zero && (if buffer == null then Bare(f, g) else Stores(f, buffer[..], g)) &&
      (n <= |offs| ==> Indexes(offs, g.slots)) &&
      (|offs| + z >= n || n <= |m.slots| ==> Indexes(offs + seq(z, _ => 0), g.slots)) &&
      g.overhead == m.overhead && g.hasBuffer == m.hasBuffer && |g.slots| == Max(n, |m.slots|) &&
      g.used == m.used && g.garbage == m.garbage && g.top == m.top && g.cap == m.cap
  {
    hide Inv, Blank, EncodedAt, Total;
    GrowKeepsInv(m, n);
  }

  lemma EraseShape(f: Format, buffer: array?<byte>, m: Arena, offs: seq<nat>, i: nat)
    requires Sound(m) && Indexes(offs, m.slots) && i < |m.slots| && m.overhead == Overhead(f)
    requires if buffer == null then Bare(f, m) else Stores(f, buffer[..], m)
    ensures var e := Erase(m, i);
      Sound(e) && e.zero == m.zero && (if buffer == null then Bare(f, e) else Stores(f, buffer[..], e)) &&
      i < |offs| && Indexes(offs[i := 0], e.slots) && (m.slots[i].Free? ==> Indexes(offs, e.slots)) &&
      e.overhead == m.overhead && e.hasBuffer == m.hasBuffer && |e.slots| == |m.slots| &&
      e.used == m.used && e.top == m.top && e.cap == m.cap && e.garbage == m.garbage + Size(m.slots[i], m.overhead)
  {
    hide Inv, Blank, EncodedAt, Total;
    EraseKeepsInv(m, i);
  }

  lemma PutShape(m: Arena, i: nat, text: Text)
    requires i < |m.slots| && Dest(m, i, |text|) > 0
    ensures var a, r, o := Put(m, i, text), Room(m, i, |text|), Owner(m, i, |text|);
      a.overhead == r.overhead == m.overhead && a.hasBuffer == r.hasBuffer && a.cap == r.cap &&
      |a.slots| == |r.slots| == |m.slots| && a.zero == r.zero &&
      a.slots == (if o < 0 then r.slots else r.slots[o := Live(Dest(m, i, |text|), text)])
  {}

  /** What the place of a text needs for the store that follows. */
  lemma PutReady(m: Arena, i: nat, text: Text)
    requires Sound(m) && i < |m.slots| && text != []
    ensures Put(m, i, text).overhead == m.overhead && Put(m, i, text).hasBuffer == Room(m, i, |text|).hasBuffer
    ensures Dest(m, i, |text|) + |text| + m.overhead <= Room(m, i, |text|).cap <==> !PastEnd(m, i, |text|)
    ensures !PastEnd(m, i, |text|) ==> Sound(Put(m, i, text))
  {
    FitsExactly(m, i, |text|);
    PutKeepsInv(m, i, text);
  }

  /** Storing the text at its place makes the buffer that of the arena after Put. */
  lemma PutStored(f: Format, b: seq<byte>, m: Arena, i: nat, text: Text)
    requires Sound(m) && i < |m.slots| && text != [] && !PastEnd(m, i, |text|)
    requires Stores(f, b, Room(m, i, |text|))
    ensures Dest(m, i, |text|) + |text| + m.overhead <= |b|
    ensures Stores(f, Overwrite(b, Dest(m, i, |text|), Encode(f, text)), Put(m, i, text))
  {
    FitsExactly(m, i, |text|);
    if Blank(m) && AtZero(m, |text|) {
      BlankPut(m, i, text);
      assert Overwrite(b, 0, Encode(f, text))[0..|Encode(f, text)|] == Encode(f, text);
    } else {
      SlottedPutStored(f, b, m, i, text);
    }
  }

  lemma SlottedPutStored(f: Format, b: seq<byte>, m: Arena, i: nat, text: Text)
    requires Sound(m) && i < |m.slots| && text != [] && Fits(m, i, |text|) && !AtZero(m, |text|)
    requires Stores(f, b, Room(m, i, |text|))
    ensures Dest(m, i, |text|) + |text| + m.overhead <= |b|
    ensures Stores(f, Overwrite(b, Dest(m, i, |text|), Encode(f, text)), Put(m, i, text))
  {
    hide Inv, Blank, Put, Room, Owner, Encode, Holds, EncodedAt, Fits;
    PlaceBehindZero(m, i, text);
    PutShape(m, i, text);
    PutDisjoint(m, i, text);
    var r, d, o := Room(m, i, |text|), Dest(m, i, |text|), Owner(m, i, |text|);
    OutsideOverwrite(f, b, d, Encode(f, text), 0, r.zero);
    if o >= 0 {
      StoreHolds(f, b, r.slots, o, d, text);
    } else {
      assert Holds(f, Overwrite(b, d, Encode(f, text)), r.slots) by {
        NothingHeld(f, Overwrite(b, d, Encode(f, text)), m, i, |text|);
      }
    }
  }

  /** Except for the first text after Clear, every place is behind the text at offset 0. */
  lemma PlaceBehindZero(m: Arena, i: nat, text: Text)
    requires Sound(m) && i < |m.slots| && text != [] && Fits(m, i, |text|) && !AtZero(m, |text|)
    ensures 1 <= m.overhead && m.overhead + |Room(m, i, |text|).zero| <= Dest(m, i, |text|) && Inv(Put(m, i, text))
    ensures Dest(m, i, |text|) + |text| + m.overhead <= Room(m, i, |text|).cap
  {
    hide Put, Inv, Blank;
    FitsExactly(m, i, |text|);
    PutKeepsInv(m, i, text);
    RoomView(m, i, |text|);
    if Blank(m) { BlankPlace(m, i, |text|); } else { BehindZero(m, i, |text|); }
  }

  lemma BlankPlace(m: Arena, i: nat, len: nat)
    requires Blank(m) && i < |m.slots| && !AtZero(m, len)
    ensures 1 <= m.overhead == Dest(m, i, len) && Collects(m, i, len)
  {
    AllFree(m.slots, m.overhead);
  }

  lemma PutDisjoint(m: Arena, i: nat, text: Text)
    requires i < |m.slots| && Inv(Put(m, i, text))
    ensures Disjoint(Put(m, i, text).slots, m.overhead)
  {}

  lemma NothingHeld(f: Format, b: seq<byte>, m: Arena, i: nat, len: nat)
    requires i < |m.slots| && Owner(m, i, len) < 0
    ensures Holds(f, b, Room(m, i, len).slots)
  {}

  lemma GarbageOnly(f: Format, buffer: array?<byte>, m: Arena, garbage: nat)
    requires if buffer == null then Bare(f, m) else Stores(f, buffer[..], m)
    ensures if buffer == null then Bare(f, m.(garbage := garbage)) else Stores(f, buffer[..], m.(garbage := garbage))
    ensures Readable(f, m) ==> Readable(f, m.(garbage := garbage))
  {}

  lemma SpaceAtEnd(m: Arena, i: nat)
    requires Sound(m) && i < |m.slots|
    ensures PackedTotal(m.slots, m.overhead) <= m.used <= m.cap && m.garbage + Size(m.slots[i], m.overhead) <= m.used
  {
    if Blank(m) {
      AllFree(m.slots, m.overhead);
    } else {
      InvFacts(m);
      CollectedSize(m);
      TotalAtLeast(m.slots, i, m.overhead);
    }
  }

  /** Allocate found room for index i without moving anything. */
  ghost predicate InPlace(m: Arena, i: nat, len: nat)
    requires i < |m.slots|
  {
    var r := Room(m, i, len);
    r.slots == m.slots && r.used == m.used && r.top == m.top && Owner(m, i, len) == i
  }

  lemma SlotAt(m: Arena, i: nat, offs: seq<nat>)
    requires Sound(m) && Indexes(offs, m.slots) && i < |m.slots|
    ensures i < |offs| && offs[i] == OffsetOf(m.slots[i])
    ensures offs[i] != 0 <==> m.slots[i].Live?
    ensures m.slots[i].Live? ==> m.hasBuffer
  {
    if Inv(m) {
      assert InUse(m, i);
      if !m.hasBuffer { NoSlotsWithoutBuffer(m); }
    }
  }

  lemma GrowTopShape(m: Arena, i: nat, text: Text)
    requires i < |m.slots| && AtTop(m, i) && Dest(m, i, |text|) > 0
    ensures var big := m.top + m.overhead + |text| > m.cap; var r, a := Room(m, i, |text|), Put(m, i, text);
      r == (if big then Compact(m, m.top + m.overhead + |text|) else m) && Dest(m, i, |text|) == r.top &&
      (!big ==> InPlace(m, i, |text|)) &&
      a.used == r.top + m.overhead + |text| && a.top == r.top && a.garbage == r.garbage && a.cap == r.cap &&
      |a.slots| == |r.slots| &&
      forall k :: 0 <= k < |r.slots| ==> OffsetOf(a.slots[k]) == OffsetOf(r.slots[k])
  {}

  lemma ReuseShape(f: Format, m: Arena, i: nat, text: Text, offs: seq<nat>)
    requires i < |m.slots| && !AtTop(m, i) && FitsInPlace(m, i, |text|) && Indexes(offs, m.slots) && m.slots[i].off > 0
    ensures var r, a := Room(m, i, |text|), Put(m, i, text);
      r == m.(garbage := m.garbage + |m.slots[i].text| - |text|) && Dest(m, i, |text|) == m.slots[i].off &&
      InPlace(m, i, |text|) && Indexes(offs, a.slots) &&
      a.used == m.used && a.top == m.top && a.garbage == r.garbage && a.cap == m.cap && |a.slots| == |m.slots|
    ensures forall b :: Stores(f, b, m) ==> Stores(f, b, Room(m, i, |text|))
  {}

  lemma AddShape(m: Arena, i: nat, text: Text)
    requires i < |m.slots| && !AtTop(m, i) && !FitsInPlace(m, i, |text|)
    requires 1 <= m.overhead && (m.used == 0 ==> m.slots[i].Free?)
    ensures var g := m.(garbage := m.garbage + Size(m.slots[i], m.overhead));
      var big := m.used + m.overhead + |text| > m.cap;
      var r, a := Room(m, i, |text|), Put(m, i, text);
      r == (if big then Compact(g, m.used + m.overhead + |text|) else g) && Dest(m, i, |text|) == r.used &&
      (!big ==> InPlace(m, i, |text|)) &&
      a.used == r.used + m.overhead + |text| && a.top == r.used && a.garbage == r.garbage && a.cap == r.cap &&
      |a.slots| == |r.slots| && OffsetOf(a.slots[i]) == r.used &&
      forall k :: 0 <= k < |a.slots| && k != i ==> a.slots[k] == r.slots[k]
  {}

  lemma SameOffsets(offs: seq<nat>, slots: seq<Slot>, slots': seq<Slot>)
    requires Indexes(offs, slots) && |slots| == |slots'|
    requires forall k :: 0 <= k < |slots| ==> OffsetOf(slots'[k]) == OffsetOf(slots[k])
    ensures Indexes(offs, slots')
  {}

  lemma NewOffset(offs: seq<nat>, slots: seq<Slot>, slots': seq<Slot>, i: nat, off: nat)
    requires Indexes(offs, slots) && |slots| == |slots'| && i < |slots|
    requires OffsetOf(slots'[i]) == off && forall k :: 0 <= k < |slots| && k != i ==> slots'[k] == slots[k]
    ensures i < |offs| && Indexes(offs[i := off], slots')
  {}

  lemma CompactFields(m: Arena, newsize: nat)
    ensures var c := Compact(m, newsize);
      c.overhead == m.overhead && c.garbage == 0 && c.hasBuffer && |c.slots| == |m.slots| &&
      c.cap == Max(newsize, (m.used - m.garbage) * 2 + ALLOCATE_SPACE) + m.overhead
  {}

  lemma EmptyHeader(f: Format, b: seq<byte>)
    requires |b| >= Overhead(f) && forall k :: 0 <= k < Overhead(f) ==> b[k] == 0
    ensures EncodedAt(f, b, 0, [])
  {}

  /** The offset of the last text when these slots are packed. */
  ghost function PackedTop(h: nat, slots: seq<Slot>): nat {
    var last := LastLive(slots);
    if last < 0 then h else h + PackedTotal(slots[..last], h)
  }

  /** The collector has come to index i. */
  ghost predicate Moved(f: Format, m: Arena, i: nat, b: seq<byte>, offs: seq<nat>, dataSize2: nat, top: nat) {
    && m.overhead == Overhead(f) && i <= |m.slots| <= |offs| && m.overhead + PackedTotal(m.slots, m.overhead) <= |b|
    && dataSize2 == m.overhead + PackedTotal(m.slots[..i], m.overhead) && top == PackedTop(m.overhead, m.slots[..i])
    && EncodedAt(f, b, 0, []) && Holds(f, b, Packed(m.slots, m.overhead)[..i])
    && forall k :: 0 <= k < |offs| ==>
         offs[k] == if k < i then OffsetOf(PackedSlot(m.slots, m.overhead, k))
           else if k < |m.slots| then OffsetOf(m.slots[k]) else 0
  }

  lemma MovedNone(f: Format, m: Arena, b: seq<byte>, offs: seq<nat>)
    requires m.overhead == Overhead(f) && Indexes(offs, m.slots) && EncodedAt(f, b, 0, [])
    requires m.overhead + PackedTotal(m.slots, m.overhead) <= |b|
    ensures Moved(f, m, 0, b, offs, m.overhead, m.overhead)
  {}

  lemma MovedSoFar(f: Format, m: Arena, i: nat, b: seq<byte>, offs: seq<nat>, dataSize2: nat, top: nat)
    requires Moved(f, m, i, b, offs, dataSize2, top) && i < |m.slots|
    ensures i < |offs| && offs[i] == OffsetOf(m.slots[i])
    ensures dataSize2 + PackedSize(m.slots[i], m.overhead) <= |b|
  {
    PackedFits(m.overhead, m.slots, i);
  }

  lemma PackedFits(h: nat, slots: seq<Slot>, i: nat)
    requires i < |slots|
    ensures PackedTotal(slots[..i], h) + PackedSize(slots[i], h) <= PackedTotal(slots, h)
  {
    PackedOrder(slots, h, i, |slots|);
    assert slots[..|slots|] == slots;
  }

  lemma PackedNext(h: nat, slots: seq<Slot>, i: nat)
    requires i < |slots|
    ensures PackedTotal(slots[..i + 1], h) == PackedTotal(slots[..i], h) + PackedSize(slots[i], h)
    ensures PackedTop(h, slots[..i + 1])
      == if TextOf(slots[i]) == [] then PackedTop(h, slots[..i]) else h + PackedTotal(slots[..i], h)
  {
    assert slots[..i + 1][..i] == slots[..i];
    var last := LastLive(slots[..i]);
    if last >= 0 { assert slots[..i + 1][..last] == slots[..i][..last]; }
  }

  /** Index i has no text: it loses its slot. */
  lemma MoveNothing(f: Format, m: Arena, i: nat, b: seq<byte>, offs: seq<nat>, dataSize2: nat, top: nat)
    requires Moved(f, m, i, b, offs, dataSize2, top) && i < |m.slots| && TextOf(m.slots[i]) == []
    ensures Moved(f, m, i + 1, b, offs[i := 0], dataSize2, top)
  {
    hide PackedTotal, EncodedAt;
    PackedNext(m.overhead, m.slots, i);
    assert Packed(m.slots, m.overhead)[i] == Free;
    var p := Packed(m.slots, m.overhead)[..i + 1];
    forall k | 0 <= k < |p| && p[k].Live? ensures EncodedAt(f, b, p[k].off, p[k].text) {
      assert Packed(m.slots, m.overhead)[..i][k] == p[k];
    }
  }

  /** The text of index i goes behind the texts already moved. */
  lemma MoveOne(f: Format, m: Arena, i: nat, b: seq<byte>, offs: seq<nat>, dataSize2: nat, top: nat)
    requires Moved(f, m, i, b, offs, dataSize2, top) && i < |m.slots| && TextOf(m.slots[i]) != []
    ensures dataSize2 + |m.slots[i].text| + m.overhead <= |b|
    ensures Moved(f, m, i + 1, Overwrite(b, dataSize2, Encode(f, m.slots[i].text)), offs[i := dataSize2],
                  dataSize2 + |m.slots[i].text| + m.overhead, dataSize2)
  {
    hide PackedTotal, Holds, EncodedAt, Encode, Overwrite;
    PackedFits(m.overhead, m.slots, i);
    PackedNext(m.overhead, m.slots, i);
    AppendHolds(f, b, m.slots, i);
  }

  lemma AppendHolds(f: Format, b: seq<byte>, slots: seq<Slot>, i: nat)
    requires i < |slots| && TextOf(slots[i]) != [] && Overhead(f) + PackedTotal(slots, Overhead(f)) <= |b|
    requires EncodedAt(f, b, 0, []) && Holds(f, b, Packed(slots, Overhead(f))[..i])
    ensures Overhead(f) + PackedTotal(slots[..i], Overhead(f)) + |slots[i].text| + Overhead(f) <= |b|
    ensures var c := Overwrite(b, Overhead(f) + PackedTotal(slots[..i], Overhead(f)), Encode(f, slots[i].text));
      EncodedAt(f, c, 0, []) && Holds(f, c, Packed(slots, Overhead(f))[..i + 1])
  {
    hide PackedTotal, Encode;
    PackedFits(Overhead(f), slots, i);
    var p, d := Packed(slots, Overhead(f)), Overhead(f) + PackedTotal(slots[..i], Overhead(f));
    var data := Encode(f, slots[i].text);
    var c := Overwrite(b, d, data);
    StoreKeepsEmpty(f, b, d, data);
    forall k | 0 <= k <= i && p[k].Live? ensures EncodedAt(f, c, p[k].off, p[k].text) {
      if k < i {
        PackedOrder(slots, Overhead(f), k, i);
        assert p[..i][k] == p[k];
        OutsideOverwrite(f, b, d, data, p[k].off, p[k].text);
      } else {
        assert c[d..d + |data|] == data;
      }
    }
  }

  lemma MovedAll(f: Format, m: Arena, source: seq<byte>, b: seq<byte>, offs: seq<nat>, dataSize2: nat, top: nat,
                 newsize: nat)
    requires Stores(f, source, m) && Moved(f, m, |m.slots|, b, offs, dataSize2, top) && |b| == Compact(m, newsize).cap
    ensures dataSize2 == Compact(m, newsize).used && top == Compact(m, newsize).top
    ensures Indexes(offs, Compact(m, newsize).slots) && Stores(f, b, Compact(m, newsize))
  {
    assert m.slots[..|m.slots|] == m.slots && Packed(m.slots, m.overhead)[..|m.slots|] == Packed(m.slots, m.overhead);
  }

  lemma NothingToMove(f: Format, m: Arena, b: seq<byte>, offs: seq<nat>, newsize: nat)
    requires Bare(f, m) && Indexes(offs, m.slots) && |b| == Compact(m, newsize).cap && EncodedAt(f, b, 0, [])
    ensures Compact(m, newsize).slots == m.slots && Compact(m, newsize).used == m.overhead == Compact(m, newsize).top
    ensures Stores(f, b, Compact(m, newsize))
  {
    AllFree(m.slots, m.overhead);
    assert Packed(m.slots, m.overhead) == m.slots;
  }

  lemma TableSize(offs: seq<nat>, slots: seq<Slot>)
    requires Indexes(offs, slots)
    ensures |slots| <= |offs|
  {}

  lemma IndexAt(offs: seq<nat>, slots: seq<Slot>, i: nat)
    requires Indexes(offs, slots) && i < |slots|
    ensures i < |offs| && offs[i] == OffsetOf(slots[i])
  {}

  lemma ReadablePutIf(f: Format, m: Arena, i: nat, text: Text)
    requires Readable(f, m) && i < |m.slots|
    ensures Storable(f, text) ==> Readable(f, Put(m, i, text))
  {
    if Storable(f, text) { ReadablePut(f, m, i, text); }
  }

  lemma CTextIs(s: array?<byte>, at: nat)
    requires s != null ==> Terminates(s, at)
    ensures s == null ==> CText(s, at) == []
    ensures s != null ==> at + |CText(s, at)| < s.Length && s[at..at + |CText(s, at)|] == CText(s, at)
  {}

  lemma CTextStorable(f: Format, s: array?<byte>, at: nat)
    requires (s != null ==> Terminates(s, at)) && (f == Sized ==> |CText(s, at)| <= MAX_LENGTH)
    ensures Storable(f, CText(s, at))
  {}

  lemma NoZeroStored(text: Text)
    requires Storable(Terminated, text)
    ensures UpToZero(text) == text
  {}

  lemma UpToZeroWhole(text: Text)
    ensures |UpToZero(text)| == |text| <==> UpToZero(text) == text
  {}

  /** The table of zeroes, the counters at zero: the bytes stay those of offset 0. */
  lemma ClearedShape(f: Format, buffer: array?<byte>, m: Arena, offs: seq<nat>)
    requires if buffer == null then Bare(f, m) else Stores(f, buffer[..], m)
    requires |m.slots| <= |offs| && forall k :: 0 <= k < |offs| ==> offs[k] == 0
    ensures if buffer == null then Bare(f, Cleared(m)) else Stores(f, buffer[..], Cleared(m))
    ensures Indexes(offs, Cleared(m).slots) && (Readable(f, m) ==> Readable(f, Cleared(m)))
  {}

  lemma SizedLength(f: Format, text: Text)
    requires Storable(f, text)
    ensures f == Sized ==> |UpToZero(text)| <= MAX_LENGTH
  {}

  lemma RoomFields(f: Format, m: Arena, i: nat, len: nat)
    requires i < |m.slots|
    ensures Room(m, i, len).overhead == m.overhead
  {}

  lemma StoresSize(f: Format, b: seq<byte>, m: Arena)
    requires Stores(f, b, m)
    ensures |b| == m.cap && m.overhead == Overhead(f)
  {}

  lemma FreeAtZero(m: Arena, i: nat)
    requires Sound(m) && i < |m.slots| && m.used == 0
    ensures m.slots[i].Free?
  {
    if Inv(m) { assert InUse(m, i); }
  }
}

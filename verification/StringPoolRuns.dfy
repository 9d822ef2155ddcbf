/** Runs of calls on a pool object. */
module StringPoolRuns {
  import opened Arena
  import opened Arithmetic
  import opened PoolBytes
  import opened PoolLayout
  import opened StringPool

  /** The texts of the call can be handed over as the C++ interface takes them
      and stored in the format, and no copy overlaps itself. */
  ghost predicate Carried(f: Format, a: Arena, op: Op)
    requires InRange(|a.slots|, op)
  {
    match op
    case SetTo(_, text) => Storable(f, text)
    case Append(i, text) => 0 !in text && Storable(f, First(a, i) + text) && (f.Sized? ==> a.hasBuffer)
    case CopyFrom(_, _) => f.Sized? ==> a.hasBuffer
    case AppendFrom(i, j) =>
      && (f.Sized? ==> a.hasBuffer) && 0 !in Texts(a)[j] && Storable(f, First(a, i) + Texts(a)[j])
      && !Doubles(a, i, j)
    case Reserve(_) => true
    case ReserveIndices(_) => true
    case ClearAll => true
  }

  ghost predicate CarriedRun(f: Format, a: Arena, ops: seq<Op>)
    requires SafeRun(a, ops)
    decreases |ops|
  {
    ops == [] || (Carried(f, a, ops[0]) && CarriedRun(f, Step(a, ops[0]), ops[1..]))
  }

  /** The array behind a C string. */
  method CString(text: Text) returns (s: array<byte>)
    requires 0 !in text
    ensures fresh(s) && Terminates(s, 0) && CText(s, 0) == text && s.Length == |text| + 1
  {
    s := new byte[|text| + 1](k requires 0 <= k <= |text| => if k < |text| then text[k] else 0);
    assert s[..] == text + [0];
    NoZeroBefore(text, s[..]);
  }

  lemma NoZeroBefore(text: Text, b: seq<byte>)
    requires 0 !in text && b == text + [0]
    ensures ZeroAt(b, 0) == |text|
  {
    assert b[|text|] == 0 && forall k :: 0 <= k < |text| ==> b[k] == text[k];
  }

  lemma NoZeroToCut(t: Text)
    requires 0 !in t
    ensures UpToZero(t) == t
  {}

  lemma ReserveReady(a: Arena, request: nat)
    requires Sound(a)
    ensures a.garbage <= a.used
    ensures PackedTotal(a.slots, a.overhead) <= Max(request, (a.used - a.garbage) * 2 + ALLOCATE_SPACE)
  {
    if Blank(a) {
      AllFree(a.slots, a.overhead);
    } else {
      CollectedSize(a);
      if !a.hasBuffer { NoSlotsWithoutBuffer(a); }
    }
  }

  /** What an append asks for, the index being there already. */
  lemma AppendAsks(a: Arena, op: Op)
    requires Sound(a) && InRange(|a.slots|, op) && (op.Append? || op.AppendFrom?)
    ensures var text := Argument(Texts(a), op);
      && StepPastEnd(a, op) == (text != [] && PastEnd(a, op.i, |First(a, op.i)| + |text|))
      && Step(a, op) == AppendText(a, op.i, text)
  {
    hide PastEnd;
    assert Grow(a, op.i + 1) == a;
  }

  lemma SetAsks(a: Arena, op: Op)
    requires InRange(|a.slots|, op) && (op.SetTo? || op.CopyFrom?)
    ensures var text := Argument(Texts(a), op);
      && StepPastEnd(a, op) == (text != [] && PastEnd(Grow(a, op.i + 1), op.i, |text|))
      && Step(a, op) == SetText(a, op.i, text)
  {
    hide PastEnd;
  }

  lemma OtherAsks(a: Arena, op: Op)
    requires InRange(|a.slots|, op) && (op.Reserve? || op.ReserveIndices? || op.ClearAll?)
    ensures !StepPastEnd(a, op)
    ensures Step(a, op)
      == match op { case Reserve(request) => Compact(a, request) case ClearAll => Cleared(a) case _ => a }
  {}

  lemma SumStorable(f: Format, t: Text, u: Text)
    requires 0 !in u && Storable(f, t + u)
    ensures f == Sized ==> |u| <= MAX_LENGTH
  {}

  /** One call on the object. */
  method Call(p: StringPool, op: Op) returns (ok: bool)
    requires p.Valid() && InRange(|p.Model.slots|, op) && Carried(p.format, p.Model, op)
    modifies p, p.Offsets, p.Buffer
    ensures ok <==> !StepPastEnd(old(p.Model), op)
    ensures ok ==> p.Valid() && p.Model == Step(old(p.Model), op)
    ensures (p.Buffer == old(p.Buffer) || fresh(p.Buffer)) && (p.Offsets == old(p.Offsets) || fresh(p.Offsets))
  {
    hide Sound, Stores, Indexes, PastEnd, AtZero, Misplaced, Doubles, Clashes, InText, Assigns, Appends, SetText,
         AppendText, First, Compact, PackedTotal, Storable, Readable, Texts, Grow, CText, Cleared, Step, StepPastEnd,
         UpToZero;
    ghost var m := p.Model;
    ok := true;
    match op {
      case SetTo(i, text) =>
        var s := new byte[|text|](k requires 0 <= k < |text| => text[k]);
        assert s[0..|text|] == text;
        SetAsks(m, op);
        ok := p.SetLength(i, s, 0, |text|);
      case Append(i, text) =>
        var s := CString(text);
        AppendAsks(m, op);
        SumStorable(p.format, First(m, i), text);
        ok := p.Concatenate(i, s, 0);
      case CopyFrom(i, j) =>
        SetAsks(m, op);
        ok := p.Assign(i, j);
      case AppendFrom(i, j) =>
        NoZeroToCut(Texts(m)[j]);
        AppendAsks(m, op);
        ok := p.AppendString(i, j);
      case Reserve(request) =>
        OtherAsks(m, op);
        ReserveReady(m, request);
        ReserveRefines(m, request);
        p.ReserveBuf(request);
      case ReserveIndices(n) =>
        OtherAsks(m, op);
        p.ReserveNum(n);
      case ClearAll =>
        OtherAsks(m, op);
        p.Clear();
    }
  }

  /** Over every run without a text past the end, Clear at any place in it, the
      object stays valid, and its strings are those the calls make of them;
      where the calls place their texts, those of a map from index to text. */
  method CallAll(p: StringPool, ops: seq<Op>)
    requires p.Valid() && SafeRun(p.Model, ops) && CarriedRun(p.format, p.Model, ops)
    modifies p, p.Offsets, p.Buffer
    ensures p.Valid()
    ensures View(p.Model)
      == FollowAll(old(View(p.Model)), ops, Fates(old(p.Model), ops), old(p.Model.overhead) > 1)
    ensures old(p.Model.zero) == [] && GoodRun(old(p.Model), ops) ==>
      p.Model.zero == [] && Texts(p.Model) == MapRun(old(Texts(p.Model)), ops)
  {
    hide Sound, Stores, Indexes, Step, Texts, MapStep, Carried, Asks, StepPastEnd, StepPlaced, StepFate, Follow, View;
    ghost var m := p.Model;
    RunIsSafe(m, ops);
    if m.zero == [] && GoodRun(m, ops) { RunRefines(m, ops); }
    for k := 0 to |ops|
      invariant p.Valid() && SafeRun(p.Model, ops[k..]) && CarriedRun(p.format, p.Model, ops[k..])
      invariant Run(p.Model, ops[k..]) == Run(m, ops)
      invariant (p.Buffer == old(p.Buffer) || fresh(p.Buffer)) && (p.Offsets == old(p.Offsets) || fresh(p.Offsets))
    {
      assert ops[k..][1..] == ops[k + 1..];
      var ok := Call(p, ops[k]);
    }
    assert ops[0..] == ops && ops[|ops|..] == [];
  }

  // ---------- where an object is not a map ----------

  /** The bytes a reader of string j gets. */
  method Read(p: StringPool, j: nat) returns (text: Text)
    requires p.Rep() && j < p.Num && p.Buffer != null && Storable(p.format, Texts(p.Model)[j])
    ensures text == Texts(p.Model)[j]
  {
    hide Stores, Indexes, Readable, Storable;
    var s, at := p.Get(j);
    var n := p.Len(j);
    text := s[at..at + n];
  }

  /** Clear, then a text for string i that the kept buffer has room for. */
  method SetAfterClear(p: StringPool, i: nat, text: Text)
    requires p.Valid() && i < p.Num && p.Buffer != null
    requires text != [] && Storable(p.format, text) && Overhead(p.format) + |text| <= p.BufferSize
    modifies p, p.Offsets, p.Buffer
    ensures p.Valid() && p.Model == Put(Cleared(old(p.Model)), i, text) && p.Buffer != null && p.Num == old(p.Num)
    ensures p.Offsets == old(p.Offsets) || fresh(p.Offsets)
  {
    hide Sound, Stores, Indexes, PastEnd, Assigns, Storable, Readable, Put, SetText, InText, Clashes, Texts;
    ghost var m := p.Model;
    p.Clear();
    var s := new byte[|text|](k requires 0 <= k < |text| => text[k]);
    assert s[0..|text|] == text;
    ClearedSet(m, i, text);
    var ok := p.SetLength(i, s, 0, |text|);
  }

  /** After Clear and that text, every string j reads as the text, after another
      Clear too, and after a collection as the empty one. */
  method ClearThenSet(p: StringPool, i: nat, text: Text, j: nat, request: nat)
    returns (seen: Text, again: Text, later: Text)
    requires p.Valid() && i < p.Num && j < p.Num && p.Buffer != null
    requires text != [] && Storable(p.format, text) && Overhead(p.format) + |text| <= p.BufferSize
    modifies p, p.Offsets, p.Buffer
    ensures seen == again == text && later == []
  {
    hide Sound, Stores, Bare, Indexes, Compact, PackedTotal, Storable, Readable, Put, Texts;
    ghost var m := p.Model;
    ClearedTextIsShared(m, i, text, request, j);
    EmptyStorable(p.format);
    SetAfterClear(p, i, text);
    seen := Read(p, j);
    p.Clear();
    again := Read(p, j);
    later := ReadCollected(p, j, request);
  }

  /** What string j reads as after a collection. */
  method ReadCollected(p: StringPool, j: nat, request: nat) returns (text: Text)
    requires p.Valid() && j < p.Num && p.Buffer != null && p.Model.slots[j].Free?
    modifies p, p.Offsets
    ensures text == []
  {
    hide Sound, Stores, Bare, Indexes, Compact, PackedTotal, Storable, Readable, Texts;
    ReserveReady(p.Model, request);
    CompactKeepsTexts(p.Model, request);
    EmptyStorable(p.format);
    p.ReserveBuf(request);
    text := Read(p, j);
  }

  lemma EmptyStorable(f: Format)
    ensures Storable(f, [])
  {}

  lemma ClearedSet(a: Arena, i: nat, text: Text)
    requires Sound(a) && a.hasBuffer && i < |a.slots| && text != [] && a.overhead + |text| <= a.cap
    ensures var c := Cleared(a);
      SetText(c, i, text) == Put(c, i, text) && |Put(c, i, text).slots| == |a.slots| &&
      !PastEnd(Grow(c, i + 1), i, |text|) && Put(c, i, text).hasBuffer
  {
    ClearRefines(a);
    BlankPut(Cleared(a), i, text);
  }

  /** With a stored length, the length of a sum is found modulo 65536. */
  method LongSum(p: StringPool, i: nat, text: Text) returns (ok: bool, n: nat)
    requires p.Valid() && p.format == Sized && i < p.Num && p.Buffer != null
    requires text != [] && 0 !in text && |text| <= MAX_LENGTH
    modifies p, p.Offsets, p.Buffer
    ensures ok <==> !PastEnd(old(p.Model), i, |old(Texts(p.Model)[i])| + |text|)
    ensures ok && !Misplaced(old(p.Model), i, |old(Texts(p.Model)[i])| + |text|) ==>
      n == (|old(Texts(p.Model)[i])| + |text|) % 65536
  {
    hide Sound, Stores, Indexes, PastEnd, Misplaced, Doubles, Clashes, InText, Appends, Storable, Readable, AppendText,
         CText, First;
    ghost var m := p.Model;
    FirstIsRead(Sized, m, i);
    var s := CString(text);
    n := 0;
    ok := p.Concatenate(i, s, 0);
    if ok {
      AppendedText(m, i, text);
      ReadLengthWraps(Texts(m)[i] + text);
      n := p.Len(i);
    }
  }

  lemma PutSize(a: Arena, i: nat, text: Text)
    requires Sound(a) && i < |a.slots|
    ensures |Put(a, i, text).slots| == |a.slots| && Put(a, i, text).hasBuffer
  {
    if Inv(a) && !a.hasBuffer { NoSlotsWithoutBuffer(a); }
  }

  lemma AppendedText(a: Arena, i: nat, text: Text)
    requires Sound(a) && a.overhead > 1 && i < |a.slots| && text != [] && First(a, i) == Texts(a)[i]
    ensures |AppendText(a, i, text).slots| == |a.slots| && AppendText(a, i, text).hasBuffer
    ensures !Misplaced(a, i, |Texts(a)[i]| + |text|) ==> Texts(AppendText(a, i, text))[i] == Texts(a)[i] + text
  {
    hide Put, FateOf, Sound, First, Misplaced;
    var sum := Texts(a)[i] + text;
    AppendIsPut(a, i, text);
    PutSize(a, i, sum);
    PutView(a, i, sum);
    FateFacts(a, i, sum);
    SoundFilled(a);
    PutFilled(a, i, sum);
    TextsAreRead(Put(a, i, sum));
  }
}

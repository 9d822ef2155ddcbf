/** How a text lies in the buffer of a pool, and copying between buffers. */
module PoolBytes {
  import opened Arena

  /** Sized: a 16-bit length, the text, a zero. Terminated: the text and a zero. */
  datatype Format = Sized | Terminated

  const MAX_LENGTH := 65535

  function Overhead(f: Format): nat {
    match f
    case Sized => 3
    case Terminated => 1
  }

  /** The length header as two bytes, low byte first, cut to 16 bits. */
  function Header(n: nat): (b: seq<byte>)
    ensures |b| == 2
  {
    [(n % 256) as byte, (n / 256 % 256) as byte]
  }

  function LengthAt(b: seq<byte>, off: nat): nat
    requires off + 2 <= |b|
  {
    b[off] as int + 256 * b[off + 1] as int
  }

  /** What stands before a text of n bytes. */
  function Head(f: Format, n: nat): (b: seq<byte>)
    ensures |b| == Overhead(f) - 1
  {
    match f
    case Sized => Header(n)
    case Terminated => []
  }

  function Encode(f: Format, text: Text): (b: seq<byte>)
    ensures |b| == |text| + Overhead(f)
  {
    Head(f, |text|) + text + [0]
  }

  lemma EncodeJoined(f: Format, t: Text, u: Text)
    ensures Head(f, |t| + |u|) + t + u + [0] == Encode(f, t + u)
  {}

  /** The texts that can be read back. */
  predicate Storable(f: Format, text: Text) {
    match f
    case Sized => |text| <= MAX_LENGTH
    case Terminated => 0 !in text
  }

  /** The length a reader finds: the stored length, or the distance to the first zero. */
  function ReadLength(f: Format, b: seq<byte>, off: nat): (n: nat)
    requires off + Overhead(f) <= |b|
  {
    match f
    case Sized => LengthAt(b, off)
    case Terminated => ZeroAt(b, off) - off
  }

  /** The first zero from off on, or the end. */
  function ZeroAt(b: seq<byte>, off: nat): (z: nat)
    requires off <= |b|
    ensures off <= z <= |b|
    ensures forall k :: off <= k < z ==> b[k] != 0
    ensures z < |b| ==> b[z] == 0
    decreases |b| - off
  {
    if off == |b| || b[off] == 0 then off else ZeroAt(b, off + 1)
  }

  ghost predicate EncodedAt(f: Format, b: seq<byte>, off: nat, text: Text) {
    off + |text| + Overhead(f) <= |b| && b[off..off + |text| + Overhead(f)] == Encode(f, text)
  }

  /** The buffer holds the text of every slot. */
  ghost predicate Holds(f: Format, b: seq<byte>, slots: seq<Slot>) {
    forall k :: 0 <= k < |slots| && slots[k].Live? ==> EncodedAt(f, b, slots[k].off, slots[k].text)
  }

  function Overwrite(b: seq<byte>, at: nat, data: seq<byte>): (c: seq<byte>)
    requires at + |data| <= |b|
    ensures |c| == |b|
  {
    b[..at] + data + b[at + |data|..]
  }

  lemma OverwriteAgain(b: seq<byte>, at: nat, d: seq<byte>, e: seq<byte>)
    requires at + |d| + |e| <= |b|
    ensures Overwrite(Overwrite(b, at, d), at + |d|, e) == Overwrite(b, at, d + e)
  {}

  lemma OverwriteApart(b: seq<byte>, at: nat, d: seq<byte>)
    requires at + |d| <= |b|
    ensures forall k :: 0 <= k < |b| && (k < at || at + |d| <= k) ==> Overwrite(b, at, d)[k] == b[k]
  {}

  lemma SameSlice(b: seq<byte>, c: seq<byte>, from: nat, n: nat)
    ensures |b| == |c| && from + n <= |b| && (forall k :: from <= k < from + n ==> b[k] == c[k]) ==>
      b[from..from + n] == c[from..from + n]
  {}

  /** What a store leaves: bytes apart from it, and the first of the text it
      stores where they already lie. */
  lemma StillThere(b: seq<byte>, p: nat, h: seq<byte>, text: seq<byte>, at: nat, n: nat)
    requires p + |h| + |text| <= |b| && at + n <= |b|
    requires at + n <= p || p + |h| + |text| <= at
             || (p + |h| <= at && at + n <= p + |h| + |text| && b[p + |h|..p + |h| + |text|] == text)
    ensures Overwrite(b, p, h + text)[at..at + n] == b[at..at + n]
  {
    var q, c := p + |h|, Overwrite(b, p, h + text);
    forall k | at <= k < at + n ensures c[k] == b[k] {
      if q <= k < q + |text| && b[q..q + |text|] == text { assert b[k] == b[q..q + |text|][k - q]; }
    }
  }

  lemma EncodedBytes(f: Format, b: seq<byte>, off: nat, text: Text)
    requires EncodedAt(f, b, off, text)
    ensures var h := off + Overhead(f) - 1;
      b[h..h + |text|] == text && b[h + |text|] == 0 && forall k :: 0 <= k < |text| ==> b[h + k] == text[k]
    ensures f == Sized ==> b[off] == Header(|text|)[0] && b[off + 1] == Header(|text|)[1]
  {
    var e := Encode(f, text);
    assert forall k :: 0 <= k < |e| ==> b[off + k] == b[off..off + |e|][k] == e[k];
    if f == Sized {
      assert e[0] == b[off] && e[1] == b[off + 1];
    }
    assert forall k :: 0 <= k < |text| ==> e[Overhead(f) - 1 + k] == text[k];
  }

  /** A reader of an encoded text finds its length and its bytes. */
  lemma ReadBack(f: Format, b: seq<byte>, off: nat, text: Text)
    requires EncodedAt(f, b, off, text) && Storable(f, text)
    ensures ReadLength(f, b, off) == |text|
    ensures b[off + Overhead(f) - 1..off + Overhead(f) - 1 + |text|] == text
    ensures b[off + Overhead(f) - 1 + |text|] == 0
  {
    EncodedBytes(f, b, off, text);
    if f == Terminated {
      assert forall k :: off <= k < off + |text| ==> b[k] == text[k - off] != 0;
    }
  }

  /** What a reader finds at an encoded text depends on the text alone. */
  lemma ReadSame(f: Format, b: seq<byte>, off: nat, text: Text)
    requires EncodedAt(f, b, off, text)
    ensures ReadLength(f, b, off) == ReadLength(f, Encode(f, text), 0)
    ensures f == Terminated ==> ZeroAt(b, off) < |b|
  {
    var e := Encode(f, text);
    assert forall k :: 0 <= k < |e| ==> b[off + k] == b[off..off + |e|][k] == e[k];
    if f == Terminated {
      assert e[|text|] == 0;
      var z := ZeroAt(e, 0);
      assert b[off + z] == 0 && forall k :: off <= k < off + z ==> b[k] == e[k - off] != 0;
    }
  }

  /** The length stands in front, low byte first, and a zero behind. */
  lemma EncodedForm(text: Text)
    requires |text| <= MAX_LENGTH
    ensures var e, n := Encode(Sized, text), |text|;
      |e| == n + 3 && e[0] as int + 256 * e[1] as int == n && e[2..n + 2] == text && e[n + 2] == 0
    ensures Encode(Terminated, text) == text + [0]
  {
    assert Encode(Sized, text)[2..] == text + [0];
  }

  /** What the collector copies of a text that is too long for its header, n being
      the length found: the header, the first n bytes, and one more of the text
      in the place of the closing zero; nothing when n is 0. */
  lemma LongTextCollected(text: Text)
    requires |text| > MAX_LENGTH
    ensures var n := ReadLength(Sized, Encode(Sized, text), 0);
      n == |text| % 65536 < |text| &&
      Encode(Sized, text)[..n + 3] == Head(Sized, n) + text[..n] + [text[n]]
  {
    ReadLengthWraps(text);
    var n, e := |text| % 65536, Encode(Sized, text);
    assert Head(Sized, n) == Head(Sized, |text|);
    assert e == Head(Sized, n) + text + [0];
  }

  /** With a header, the length is read back modulo 65536. */
  lemma ReadLengthWraps(text: Text)
    ensures ReadLength(Sized, Encode(Sized, text), 0) == |text| % 65536
  {
    var b := Encode(Sized, text);
    assert b[0..|b|] == b;
    EncodedBytes(Sized, b, 0, text);
    HeaderLength(|text|);
  }

  /** The length read back from an encoded text is that of the text, for
      exactly the texts that the format can store. */
  lemma ReadLengthExact(f: Format, text: Text)
    ensures ReadLength(f, Encode(f, text), 0) == |text| <==> Storable(f, text)
  {
    var b := Encode(f, text);
    assert b[0..|b|] == b;
    EncodedBytes(f, b, 0, text);
    if Storable(f, text) {
      ReadBack(f, b, 0, text);
    } else if f == Terminated {
      var k :| 0 <= k < |text| && text[k] == 0;
      assert b[k] == 0;
    } else {
      HeaderLength(|text|);
    }
  }

  lemma HeaderLength(n: nat)
    ensures Header(n)[0] as int + 256 * Header(n)[1] as int == n % 65536
  {}

  lemma OutsideOverwrite(f: Format, b: seq<byte>, at: nat, data: seq<byte>, off: nat, text: Text)
    requires at + |data| <= |b| && EncodedAt(f, b, off, text)
    requires off + |text| + Overhead(f) <= at || at + |data| <= off
    ensures EncodedAt(f, Overwrite(b, at, data), off, text)
  {}

  /** Storing a text at the place of one slot leaves the other slots readable. */
  lemma StoreHolds(f: Format, b: seq<byte>, slots: seq<Slot>, o: nat, d: nat, text: Text)
    requires Holds(f, b, slots) && o < |slots| && d + |text| + Overhead(f) <= |b|
    requires Disjoint(slots[o := Live(d, text)], Overhead(f))
    ensures Holds(f, Overwrite(b, d, Encode(f, text)), slots[o := Live(d, text)])
  {
    var slots' := slots[o := Live(d, text)];
    var b' := Overwrite(b, d, Encode(f, text));
    forall k | 0 <= k < |slots'| && slots'[k].Live? ensures EncodedAt(f, b', slots'[k].off, slots'[k].text) {
      if k != o {
        assert Apart(slots'[if k < o then k else o], slots'[if k < o then o else k], Overhead(f));
        OutsideOverwrite(f, b, d, Encode(f, text), slots[k].off, slots[k].text);
      } else {
        assert b'[d..d + |Encode(f, text)|] == Encode(f, text);
      }
    }
  }

  /** The empty string at offset 0 survives a store behind it. */
  lemma StoreKeepsEmpty(f: Format, b: seq<byte>, d: nat, data: seq<byte>)
    requires EncodedAt(f, b, 0, []) && Overhead(f) <= d && d + |data| <= |b|
    ensures EncodedAt(f, Overwrite(b, d, data), 0, [])
  {}

  /** There is a zero in s at or after index `at`. */
  ghost predicate Terminates(s: array<byte>, at: nat)
    reads s
  {
    at <= s.Length && ZeroAt(s[..], at) < s.Length
  }

  /** The C string that a pointer to s[at] denotes; the null pointer denotes the empty one. */
  ghost function CText(s: array?<byte>, at: nat): Text
    requires s != null ==> Terminates(s, at)
    reads s
  {
    if s == null then [] else s[at..ZeroAt(s[..], at)]
  }

  /** Counts the bytes before the first zero. */
  method StrLen(s: array<byte>, at: nat) returns (len: nat)
    requires Terminates(s, at)
    ensures len == |CText(s, at)|
  {
    len := 0;
    while s[at + len] != 0
      invariant at + len < s.Length
      invariant ZeroAt(s[..], at + len) == ZeroAt(s[..], at)
      decreases s.Length - len
    {
      len := len + 1;
    }
  }

  /** Copies n bytes. Ranges of the same array must be the same or apart. */
  method CopyBytes(dst: array<byte>, at: nat, src: array<byte>, from: nat, n: nat)
    requires at + n <= dst.Length && from + n <= src.Length
    requires dst == src ==> at == from || at + n <= from || from + n <= at
    modifies dst
    ensures dst[..] == Overwrite(old(dst[..]), at, old(src[from..from + n]))
  {
    ghost var before := dst[..];
    for k := 0 to n
      invariant forall x :: 0 <= x < dst.Length ==>
        dst[x] == if at <= x < at + k then old(src[from + (x - at)]) else before[x]
      invariant dst != src ==> forall x :: 0 <= x < src.Length ==> src[x] == old(src[x])
    {
      dst[at + k] := src[from + k];
    }
    assert dst[..] == Overwrite(before, at, old(src[from..from + n]));
  }
}

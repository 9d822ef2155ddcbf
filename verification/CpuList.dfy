/** Lists of processors, as text and as a 32-bit mask. */
module CpuList {
  import opened Bits
  import opened Options

  function BitAt(m: nat, i: nat): bool {
    if i == 0 then m % 2 == 1 else BitAt(m / 2, i - 1)
  }

  function Or(a: nat, b: nat): nat {
    if a == 0 && b == 0 then 0 else (if a % 2 == 1 || b % 2 == 1 then 1 else 0) + 2 * Or(a / 2, b / 2)
  }

  lemma {:induction false} BitOfOr(a: nat, b: nat, i: nat)
    ensures BitAt(Or(a, b), i) == (BitAt(a, i) || BitAt(b, i))
    decreases i
  {
    if a == 0 && b == 0 {
      BitOfZero(i);
    } else if i > 0 {
      BitOfOr(a / 2, b / 2, i - 1);
    }
  }

  lemma {:induction false} BitOfAnd(a: nat, b: nat, i: nat)
    ensures BitAt(And(a, b), i) == (BitAt(a, i) && BitAt(b, i))
    decreases i
  {
    if b == 0 {
      BitOfZero(i);
    } else if i > 0 {
      BitOfAnd(a / 2, b / 2, i - 1);
    }
  }

  lemma {:induction false} BitOfZero(i: nat)
    ensures !BitAt(0, i)
  {
    if i == 0 {
    } else {
      BitOfZero(i - 1);
    }
  }

  lemma {:induction false} BitOfPower(k: nat, i: nat)
    ensures BitAt(Pow2(k), i) == (i == k)
    decreases i
  {
    if k == 0 {
      if i > 0 { BitOfZero(i - 1); }
    } else if i > 0 {
      BitOfPower(k - 1, i - 1);
    }
  }

  /** The bits below n that are set. */
  function Members(m: nat, n: nat): set<nat> {
    if n == 0 then {} else Members(m, n - 1) + if BitAt(m, n - 1) then {n - 1} else {}
  }

  lemma {:induction false} InMembers(m: nat, n: nat, i: nat)
    ensures i in Members(m, n) <==> i < n && BitAt(m, i)
  {
    if n == 0 {
    } else {
      InMembers(m, n - 1, i);
    }
  }

  /** How many of the n low bits are set. */
  function PopCount(m: nat, n: nat): nat {
    if n == 0 then 0 else PopCount(m, n - 1) + if BitAt(m, n - 1) then 1 else 0
  }

  lemma {:induction false} PopCountIsSize(m: nat, n: nat)
    ensures PopCount(m, n) == |Members(m, n)|
  {
    hide Members, BitAt;
    NoMembers(m);
    if n == 0 {
    } else {
      PopCountIsSize(m, n - 1);
      InMembers(m, n - 1, n - 1);
      MembersStep(m, n);
      if BitAt(m, n - 1) { OneMoreMember(Members(m, n - 1), n - 1); }
    }
  }

  lemma NoMembers(m: nat)
    ensures Members(m, 0) == {}
  {}

  lemma MembersStep(m: nat, n: nat)
    requires n > 0
    ensures Members(m, n) == if BitAt(m, n - 1) then Members(m, n - 1) + {n - 1} else Members(m, n - 1)
  {}

  lemma OneMoreMember(s: set<nat>, x: nat)
    requires x !in s
    ensures |s + {x}| == |s| + 1
  {}

  /** The value of a digit in any base up to 16; 16 for what is no digit. */
  function Digit(c: char): (d: nat)
    ensures d <= 16
  {
    if '0' <= c <= '9' then (c - '0') as nat
    else if 'a' <= c <= 'f' then (c - 'a') as nat + 10
    else if 'A' <= c <= 'F' then (c - 'A') as nat + 10
    else 16
  }

  /** How many digits s begins with. */
  function Digits(s: string, base: nat): (n: nat)
    ensures n <= |s| && (forall i :: 0 <= i < n ==> Digit(s[i]) < base) && (n < |s| ==> Digit(s[n]) >= base)
  {
    if s == "" || Digit(s[0]) >= base then 0 else 1 + Digits(s[1..], base)
  }

  function Value(s: string, base: nat): nat {
    if s == "" then 0 else Value(s[..|s| - 1], base) * base + Digit(s[|s| - 1])
  }

  /** The number at the start of s, and its length; none if there is no digit. */
  function Number(s: string, base: nat): Option<(nat, nat)> {
    var n := Digits(s, base);
    if n == 0 then None else Some((Value(s[..n], base), n))
  }

  lemma NoValue(base: nat)
    ensures Value("", base) == 0
  {}

  lemma ValueMore(s: string, base: nat, k: nat)
    requires k < |s|
    ensures Value(s[..k + 1], base) == Value(s[..k], base) * base + Digit(s[k])
  {
    assert s[..k + 1][..k] == s[..k];
  }

  /** parse_number: the value and the new position. */
  method ParseNumber(input: string, start: nat, limit: nat, base: nat) returns (r: Option<(nat, nat)>)
    requires start <= limit <= |input| && base <= 16
    ensures r.None? <==> Number(input[start..limit], base).None?
    ensures r.Some? ==>
      Number(input[start..limit], base) == Some((r.value.0, r.value.1 - start)) && start < r.value.1 <= limit
  {
    hide Value, Digits, Digit;
    ghost var text := input[start..limit];
    ghost var n := Digits(text, base);
    NoValue(base);
    var p := start;
    var val := 0;
    while p < limit && Digit(input[p]) < base
      invariant start <= p <= start + n && val == Value(text[..p - start], base)
    {
      ValueMore(text, base, p - start);
      val := val * base + Digit(input[p]);
      p := p + 1;
    }
    if p == start { return None; }
    return Some((val, p));
  }

  /** The processors first to last. */
  datatype Item = Item(first: nat, last: nat)

  /** One item of a list: a number, or two with a dash between. What follows is ignored. */
  function ItemOf(s: string): Option<Item> {
    match Number(s, 10)
    case None => None
    case Some(a) =>
      if a.1 < |s| && s[a.1] == '-' then
        match Number(s[a.1 + 1..], 10)
        case None => None
        case Some(b) => Some(Item(a.0, b.0))
      else Some(Item(a.0, a.0))
  }

  /** The length of s up to its first comma. */
  function Comma(s: string): (n: nat)
    ensures n <= |s| && ',' !in s[..n] && (n < |s| ==> s[n] == ',')
  {
    if s == "" || s[0] == ',' then 0 else
      assert s[..Comma(s[1..]) + 1] == [s[0]] + s[1..][..Comma(s[1..])];
      1 + Comma(s[1..])
  }

  function Rest(s: string, n: nat): (r: string)
    requires n <= |s|
    ensures |r| <= |s| && (n > 0 ==> |r| < |s|) && (n < |s| ==> |r| < |s|)
  {
    if n < |s| then s[n + 1..] else ""
  }

  /** The items of a line, up to its end, a newline, or the first that is none. */
  function Items(s: string): seq<Item>
    decreases |s|
  {
    if s == "" || s[0] == '\n' then [] else
      match ItemOf(s[..Comma(s)])
      case None => []
      case Some(item) => [item] + Items(Rest(s, Comma(s)))
  }

  ghost predicate Covers(items: seq<Item>, i: nat) {
    exists k :: 0 <= k < |items| && items[k].first <= i <= items[k].last
  }

  class CpuList {
    var mask: nat

    ghost predicate Valid()
      reads this
    {
      forall i: nat :: i >= 32 ==> !BitAt(mask, i)
    }

    constructor ()
      ensures Valid() && forall i: nat :: !BitAt(mask, i)
    {
      mask := 0;
      new;
      forall i: nat ensures !BitAt(mask, i) { BitOfZero(i); }
    }

    /** Only the processors in both lists stay. */
    method And(other: CpuList)
      requires Valid()
      modifies this
      ensures Valid() && forall i: nat :: BitAt(mask, i) <==> BitAt(old(mask), i) && BitAt(old(other.mask), i)
    {
      forall i: nat ensures BitAt(Bits.And(mask, other.mask), i) <==> BitAt(mask, i) && BitAt(other.mask, i) {
        BitOfAnd(mask, other.mask, i);
      }
      mask := Bits.And(mask, other.mask);
    }

    method Set(index: nat)
      requires Valid()
      modifies this
      ensures Valid() && forall i: nat :: BitAt(mask, i) <==> BitAt(old(mask), i) || (i == index && i < 32)
    {
      if index < 32 {
        forall i: nat ensures BitAt(Or(mask, Pow2(index)), i) <==> BitAt(mask, i) || i == index {
          BitOfOr(mask, Pow2(index), i);
          BitOfPower(index, i);
        }
        mask := Or(mask, Pow2(index));
      }
    }

    method Count() returns (n: nat)
      ensures n == |Members(mask, 32)|
    {
      PopCountIsSize(mask, 32);
      n := PopCount(mask, 32);
    }

    /** Sets every processor of one item. */
    method SetRange(first: nat, last: nat)
      requires Valid()
      modifies this
      ensures Valid() && forall i: nat :: BitAt(mask, i) <==> BitAt(old(mask), i) || (first <= i <= last && i < 32)
    {
      var val := first;
      while val <= last
        invariant first <= val && (val <= last + 1 || val == first)
        invariant Valid() && forall i: nat :: BitAt(mask, i) <==> BitAt(old(mask), i) || (first <= i < val && i < 32)
      {
        Set(val);
        val := val + 1;
      }
    }

    /** cpulist_parse: the list gains exactly the processors of the line's items. */
    method Parse(line: string)
      requires Valid()
      modifies this
      ensures Valid() && forall i: nat :: BitAt(mask, i) <==> BitAt(old(mask), i) || (Covers(Items(line), i) && i < 32)
    {
      hide BitAt, Number, Items, Comma, Digits, Rest;
      ghost var done: seq<Item> := [];
      var p := 0;
      assert line[0..] == line;
      while p < |line| && line[p] != '\n'
        invariant p <= |line| && Items(line) == done + Items(line[p..])
        invariant Valid() && forall i: nat :: BitAt(mask, i) <==> BitAt(old(mask), i) || (Covers(done, i) && i < 32)
      {
        var q := p + Comma(line[p..]);
        assert line[p..][..Comma(line[p..])] == line[p..q];
        var start := ParseNumber(line, p, q, 10);
        var text := line[p..q];
        if start.None? { StopsHere(line[p..]); assert done + [] == done; return; }
        var last := start;
        if start.value.1 < q && line[start.value.1] == '-' {
          last := ParseNumber(line, start.value.1 + 1, q, 10);
          assert line[start.value.1 + 1..q] == text[start.value.1 - p + 1..];
          if last.None? { StopsHere(line[p..]); assert done + [] == done; return; }
        }
        ghost var item := Item(start.value.0, last.value.0);
        assert ItemOf(text) == Some(item);
        GoesOn(line[p..], item);
        CoversMore(done, item);
        SetRange(start.value.0, last.value.0);
        done := done + [item];
        RestIs(line, p, q);
        p := q;
        if p < |line| { p := p + 1; }
      }
      ItemsEnd(line[p..]);
      assert done + [] == done;
    }
  }

  lemma RestIs(line: string, p: nat, q: nat)
    requires p <= q <= |line|
    ensures Rest(line[p..], q - p) == line[if q < |line| then q + 1 else q..]
  {}

  lemma StopsHere(s: string)
    requires s == "" || ItemOf(s[..Comma(s)]).None?
    ensures Items(s) == []
  {}

  lemma GoesOn(s: string, item: Item)
    requires s != "" && s[0] != '\n' && ItemOf(s[..Comma(s)]) == Some(item)
    ensures Items(s) == [item] + Items(Rest(s, Comma(s)))
  {}

  lemma ItemsEnd(s: string)
    requires s == "" || s[0] == '\n'
    ensures Items(s) == []
  {}

  lemma CoversMore(items: seq<Item>, item: Item)
    ensures forall i: nat :: Covers(items + [item], i) <==> Covers(items, i) || item.first <= i <= item.last
  {
    forall i: nat ensures Covers(items + [item], i) <==> Covers(items, i) || item.first <= i <= item.last {
      var more := items + [item];
      assert more[|items|] == item;
      if k :| 0 <= k < |items| && items[k].first <= i <= items[k].last { assert more[k] == items[k]; }
    }
  }

  function DigitChar(d: nat): (c: char)
    requires d < 10
    ensures Digit(c) == d && c != ',' && c != '-' && c != '\n'
  {
    '0' + d as char
  }

  function Decimal(n: nat): (s: string)
    ensures s != "" && forall i :: 0 <= i < |s| ==> Digit(s[i]) < 10 && s[i] != ',' && s[i] != '\n'
  {
    if n < 10 then [DigitChar(n)] else Decimal(n / 10) + [DigitChar(n % 10)]
  }

  lemma {:induction false} ValueOfDecimal(n: nat)
    ensures Value(Decimal(n), 10) == n
  {
    NoValue(10);
    if n < 10 {
      LastDigit("", n);
    } else {
      ValueOfDecimal(n / 10);
      LastDigit(Decimal(n / 10), n % 10);
    }
  }

  lemma LastDigit(s: string, d: nat)
    requires d < 10
    ensures Value(s + [DigitChar(d)], 10) == Value(s, 10) * 10 + d
  {}

  /** A number followed by what is no digit is read back, and no more. */
  lemma NumberOfDecimal(n: nat, tail: string)
    requires tail == "" || Digit(tail[0]) >= 10
    ensures Number(Decimal(n) + tail, 10) == Some((n, |Decimal(n)|))
  {
    hide Decimal;
    DigitsOf(Decimal(n), tail);
    assert (Decimal(n) + tail)[..|Decimal(n)|] == Decimal(n);
    ValueOfDecimal(n);
  }

  lemma {:induction false} DigitsOf(s: string, tail: string)
    requires (forall i :: 0 <= i < |s| ==> Digit(s[i]) < 10) && (tail == "" || Digit(tail[0]) >= 10)
    ensures Digits(s + tail, 10) == |s|
  {
    hide Digit;
    if s == "" {
      assert s + tail == tail;
    } else {
      assert (s + tail)[1..] == s[1..] + tail;
      DigitsOf(s[1..], tail);
    }
  }

  /** A single number, or a range with a dash. */
  datatype Written = One(n: nat) | Range(a: nat, b: nat)

  function Meaning(w: Written): Item {
    match w
    case One(n) => Item(n, n)
    case Range(a, b) => Item(a, b)
  }

  function Render(w: Written): (s: string)
    ensures s != "" && s[0] != '\n' && ',' !in s
  {
    match w
    case One(n) => Decimal(n)
    case Range(a, b) => Decimal(a) + "-" + Decimal(b)
  }

  /** "a,b-c,...", perhaps with the newline the system adds. */
  function RenderAll(ws: seq<Written>, tail: string): string
    decreases |ws|
  {
    if ws == [] then tail
    else if |ws| == 1 then Render(ws[0]) + tail
    else Render(ws[0]) + "," + RenderAll(ws[1..], tail)
  }

  function Meanings(ws: seq<Written>): (items: seq<Item>)
    ensures |items| == |ws| && forall k :: 0 <= k < |ws| ==> items[k] == Meaning(ws[k])
  {
    seq(|ws|, k requires 0 <= k < |ws| => Meaning(ws[k]))
  }

  lemma ItemOfRendered(w: Written, tail: string)
    requires tail == "" || tail == "\n"
    ensures ItemOf(Render(w) + tail) == Some(Meaning(w))
  {
    hide Render, ItemOf, Meaning;
    NoDigit(tail);
    ItemOfJunk(w, tail);
  }

  lemma OneItem(s: string, n: nat, length: nat)
    requires Number(s, 10) == Some((n, length)) && length <= |s| && (length < |s| ==> s[length] != '-')
    ensures ItemOf(s) == Some(Item(n, n))
  {}

  lemma TwoItem(s: string, a: nat, b: nat, length: nat, more: nat)
    requires length < |s| && s[length] == '-'
    requires Number(s, 10) == Some((a, length)) && Number(s[length + 1..], 10) == Some((b, more))
    ensures ItemOf(s) == Some(Item(a, b))
  {}

  lemma NoDigit(s: string)
    ensures s != "" && (s[0] == '-' || s[0] == '\n') ==> Digit(s[0]) >= 10
  {}

  lemma {:induction false} CommaOf(s: string, tail: string)
    requires ',' !in s && (tail == "" || tail == "\n" || tail[0] == ',')
    ensures Comma(s + tail) == if tail != "" && tail[0] == ',' then |s| else |s + tail|
  {
    if s == "" {
      assert s + tail == tail;
      if tail == "\n" { assert tail[1..] == ""; }
    } else {
      assert (s + tail)[1..] == s[1..] + tail;
      CommaOf(s[1..], tail);
    }
  }

  /** Parsing a written list gives back its items. */
  lemma {:induction false} ItemsOfRendered(ws: seq<Written>, tail: string)
    requires tail == "" || tail == "\n"
    ensures Items(RenderAll(ws, tail)) == Meanings(ws)
    decreases |ws|
  {
    hide Render, ItemOf, Comma, Meaning, Items;
    if ws == [] {
      ItemsEnd(tail);
    } else if |ws| == 1 {
      var s := Render(ws[0]) + tail;
      CommaOf(Render(ws[0]), tail);
      ItemOfRendered(ws[0], tail);
      assert s[..|s|] == s;
      GoesOn(s, Meaning(ws[0]));
      ItemsEnd("");
    } else {
      var rest := RenderAll(ws[1..], tail);
      var s := Render(ws[0]) + "," + rest;
      assert s == Render(ws[0]) + ("," + rest);
      CommaOf(Render(ws[0]), "," + rest);
      assert s[..|Render(ws[0])|] == Render(ws[0]) + "";
      ItemOfRendered(ws[0], "");
      GoesOn(s, Meaning(ws[0]));
      assert s[|Render(ws[0])| + 1..] == rest;
      ItemsOfRendered(ws[1..], tail);
    }
  }

  /** What follows a number, or a range, up to the next comma is ignored; the line is
      read on behind the comma, and given up where no number begins. */
  lemma JunkIgnored(w: Written, junk: string, more: string)
    requires ',' !in junk && (junk == "" || (Digit(junk[0]) >= 10 && junk[0] != '-'))
    ensures Items(Render(w) + junk + "," + more) == [Meaning(w)] + Items(more)
  {
    hide Render, ItemOf, Comma, Meaning, Items;
    var item := Render(w) + junk;
    var s := item + "," + more;
    assert s == item + ("," + more);
    CommaOf(item, "," + more);
    assert s[..|item|] == item;
    ItemOfJunk(w, junk);
    GoesOn(s, Meaning(w));
    assert s[|item| + 1..] == more;
  }

  lemma ItemOfJunk(w: Written, junk: string)
    requires junk == "" || (Digit(junk[0]) >= 10 && junk[0] != '-')
    ensures ItemOf(Render(w) + junk) == Some(Meaning(w))
  {
    hide Decimal, Number, ItemOf;
    match w
    case One(n) =>
      NumberOfDecimal(n, junk);
      OneItem(Decimal(n) + junk, n, |Decimal(n)|);
    case Range(a, b) =>
      var s := Decimal(a) + "-" + Decimal(b) + junk;
      var after := "-" + Decimal(b) + junk;
      assert s == Decimal(a) + after;
      NoDigit(after);
      NumberOfDecimal(a, after);
      NumberOfDecimal(b, junk);
      assert s[|Decimal(a)| + 1..] == Decimal(b) + junk;
      TwoItem(s, a, b, |Decimal(a)|, |Decimal(b)|);
  }

  lemma NoNumberStops(s: string)
    requires s == "" || Digit(s[0]) >= 10
    ensures Items(s) == []
  {
    if s != "" && s[0] != '\n' {
      var item := s[..Comma(s)];
      assert item == "" || item[0] == s[0];
      assert Number(item, 10).None?;
    }
  }

  /** Digits, lower-case and upper-case letters have their usual values. */
  lemma DigitValues(i: nat)
    requires i < 16
    ensures Digit("0123456789abcdef"[i]) == i == Digit("0123456789ABCDEF"[i])
  {}

  /** The processors of a written list. */
  ghost predicate Lists(ws: seq<Written>, i: nat) {
    exists k :: 0 <= k < |ws| && Meaning(ws[k]).first <= i <= Meaning(ws[k]).last
  }

  lemma ListsIsCovers(ws: seq<Written>, i: nat)
    ensures Lists(ws, i) <==> Covers(Meanings(ws), i)
  {}

  /** The processors a written list is read back as are those it lists. */
  lemma RenderedCovers(ws: seq<Written>, tail: string, i: nat)
    requires tail == "" || tail == "\n"
    ensures Covers(Items(RenderAll(ws, tail)), i) <==> Lists(ws, i)
  {
    hide *;
    ItemsOfRendered(ws, tail);
    ListsIsCovers(ws, i);
  }

  /** get_cpu_count: the number of processors below 32 in both lines. */
  method GetCpuCount(present: string, possible: string) returns (n: nat)
    ensures n == |set i: nat | i < 32 && Covers(Items(present), i) && Covers(Items(possible), i)|
  {
    hide Items, BitAt, Members, Covers;
    var a := new CpuList();
    var b := new CpuList();
    a.Parse(present);
    b.Parse(possible);
    a.And(b);
    ghost var common := set i: nat | i < 32 && Covers(Items(present), i) && Covers(Items(possible), i);
    forall i: nat ensures i in Members(a.mask, 32) <==> i in common {
      InMembers(a.mask, 32, i);
    }
    assert Members(a.mask, 32) == common;
    n := a.Count();
  }
}

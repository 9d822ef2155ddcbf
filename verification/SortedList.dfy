/** A sorted list of bounded size, over any strict weak order. */
module SortedList {
  type Less<!T> = (T, T) -> bool

  ghost predicate StrictWeak<T(!new)>(less: Less<T>) {
    && (forall a, b :: less(a, b) ==> !less(b, a))
    && (forall a, b, c :: less(a, b) && less(b, c) ==> less(a, c))
    && (forall a, b, c :: !less(a, b) && !less(b, c) ==> !less(a, c))
  }

  /** Records the order does not tell apart count as equal. */
  predicate Equal<T>(less: Less<T>, a: T, b: T) {
    !less(a, b) && !less(b, a)
  }

  ghost predicate Sorted<T>(less: Less<T>, s: seq<T>) {
    forall i, j :: 0 <= i < j < |s| ==> !less(s[j], s[i])
  }

  ghost predicate Increasing<T>(less: Less<T>, s: seq<T>) {
    forall i, j :: 0 <= i < j < |s| ==> less(s[i], s[j])
  }

  /** a is where x belongs: everything before is less, nothing from there on is. */
  ghost predicate Splits<T>(less: Less<T>, s: seq<T>, x: T, a: nat) {
    a <= |s| && (forall i :: 0 <= i < a ==> less(s[i], x)) && forall i :: a <= i < |s| ==> !less(s[i], x)
  }

  function Inserted<T>(s: seq<T>, a: nat, x: T): (t: seq<T>)
    requires a <= |s|
    ensures |t| == |s| + 1
  {
    s[..a] + [x] + s[a..]
  }

  function Removed<T>(s: seq<T>, i: nat): seq<T> {
    if i < |s| then s[..i] + s[i + 1..] else s
  }

  lemma InsertedElements<T>(s: seq<T>, a: nat, x: T)
    requires a <= |s|
    ensures multiset(Inserted(s, a, x)) == multiset(s) + multiset{x}
  {
    assert s == s[..a] + s[a..];
  }

  lemma RemovedElements<T>(s: seq<T>, i: nat)
    requires i < |s|
    ensures multiset(Removed(s, i)) == multiset(s) - multiset{s[i]}
  {
    assert s == s[..i] + [s[i]] + s[i + 1..];
  }

  /** A record equal to x keeps the list sorted where x belongs. */
  lemma InsertedSorted<T(!new)>(less: Less<T>, s: seq<T>, x: T, a: nat, y: T)
    requires StrictWeak(less) && Sorted(less, s) && Splits(less, s, x, a) && Equal(less, x, y)
    ensures Sorted(less, Inserted(s, a, y))
  {}

  /** Where nothing equals x, inserting it keeps the list strictly increasing. */
  lemma InsertedIncreasing<T(!new)>(less: Less<T>, s: seq<T>, x: T, a: nat)
    requires StrictWeak(less) && Increasing(less, s) && Splits(less, s, x, a) && (a < |s| ==> less(x, s[a]))
    ensures Increasing(less, Inserted(s, a, x))
  {}

  lemma RemovedSorted<T>(less: Less<T>, s: seq<T>, i: nat)
    requires i < |s|
    ensures Sorted(less, s) ==> Sorted(less, Removed(s, i))
    ensures Increasing(less, s) ==> Increasing(less, Removed(s, i))
  {}

  /** The equal records of a sorted list are together, from where x belongs. */
  lemma EqualsTogether<T(!new)>(less: Less<T>, s: seq<T>, x: T, a: nat, i: nat)
    requires StrictWeak(less) && Sorted(less, s) && Splits(less, s, x, a) && i < |s|
    ensures Equal(less, s[i], x) ==> a <= i && forall k :: a <= k <= i ==> Equal(less, s[k], x)
  {}

  /** How many records from the front are less than x. */
  function Place<T>(less: Less<T>, s: seq<T>, x: T): (a: nat)
    ensures a <= |s| && (forall i :: 0 <= i < a ==> less(s[i], x)) && (a < |s| ==> !less(s[a], x))
  {
    if s == [] || !less(s[0], x) then 0 else 1 + Place(less, s[1..], x)
  }

  lemma PlaceSplits<T(!new)>(less: Less<T>, s: seq<T>, x: T, a: nat)
    requires Splits(less, s, x, a)
    ensures Place(less, s, x) == a
  {
    var p := Place(less, s, x);
    assert p < |s| ==> !less(s[p], x);
    assert a < |s| ==> !less(s[a], x);
  }

  predicate Has<T>(less: Less<T>, s: seq<T>, x: T) {
    exists i :: 0 <= i < |s| && Equal(less, s[i], x)
  }

  class SortedList<T(0, !new)> {
    const less: Less<T>
    var num: nat
    var list: array<T>

    ghost predicate Valid()
      reads this, list
    {
      StrictWeak(less) && num <= list.Length && Sorted(less, list[..num])
    }

    ghost function Contents(): seq<T>
      requires num <= list.Length
      reads this, list
    {
      list[..num]
    }

    constructor (order: Less<T>, maxSize: nat)
      requires StrictWeak(order)
      ensures Valid() && less == order && Contents() == [] && list.Length == maxSize && fresh(list)
    {
      less := order;
      num := 0;
      list := new T[maxSize];
    }

    /** The first position not below x. */
    method Search(x: T) returns (a: nat)
      requires Valid()
      ensures Splits(less, Contents(), x, a)
    {
      a := 0;
      var b := num;
      while a < b
        invariant a <= b <= num
        invariant forall i :: 0 <= i < a ==> less(list[i], x)
        invariant forall i :: b <= i < num ==> !less(list[i], x)
      {
        var c := (a + b) / 2;
        if less(list[c], x) {
          Below(x, c);
          a := c + 1;
        } else {
          Above(x, c);
          b := c;
        }
      }
    }

    lemma Below(x: T, c: nat)
      requires Valid() && c < num && less(list[c], x)
      ensures forall i :: 0 <= i <= c ==> less(list[i], x)
    {}

    lemma Above(x: T, c: nat)
      requires Valid() && c < num && !less(list[c], x)
      ensures forall i :: c <= i < num ==> !less(list[i], x)
    {}

    /** memmove of everything from a on, one place up. */
    method MoveUp(a: nat)
      requires a <= num < list.Length
      modifies list
      ensures forall k :: 0 <= k < list.Length ==> list[k] == if a < k <= num then old(list[k - 1]) else old(list[k])
    {
      var k := num;
      while k > a
        invariant a <= k <= num
        invariant forall j :: 0 <= j < list.Length ==>
          list[j] == if k < j <= num then old(list[j - 1]) else old(list[j])
      {
        list[k] := list[k - 1];
        k := k - 1;
      }
    }

    /** What a reference reads after the records from a on have moved up. */
    ghost function Moved(source: array<T>, at: nat, a: nat): T
      requires at < source.Length && num <= list.Length
      reads this, list, source
    {
      if source == list && a < at <= num then list[at - 1] else source[at]
    }

    /** Adds a record at a, by a reference that is read after the move. */
    method InsertAt(source: array<T>, at: nat, a: nat)
      requires a <= num < list.Length && at < source.Length
      modifies `num, list
      ensures num == old(num) + 1 && Contents() == Inserted(old(Contents()), a, old(Moved(source, at, a)))
    {
      MoveUp(a);
      list[a] := source[at];
      num := num + 1;
    }

    /** Adds a record equal to the one referred to, first among its equals. */
    method Put(source: array<T>, at: nat) returns (done: bool)
      requires Valid() && at < source.Length && (source == list ==> at < num)
      modifies `num, list
      ensures Valid() && done == (old(num) < list.Length)
      ensures !done ==> Contents() == old(Contents())
      ensures done ==> Splits(less, old(Contents()), old(source[at]), Place(less, old(Contents()), old(source[at])))
      ensures done ==> Equal(less, old(source[at]), old(Moved(source, at, Place(less, Contents(), source[at]))))
      ensures done ==> Contents() == Inserted(old(Contents()), Place(less, old(Contents()), old(source[at])),
                                              old(Moved(source, at, Place(less, Contents(), source[at]))))
    {
      if num >= list.Length {
        return false;
      }
      var a := Search(source[at]);
      PlaceSplits(less, Contents(), source[at], a);
      MovedIsEqual(source, at, a);
      InsertedSorted(less, Contents(), source[at], a, Moved(source, at, a));
      InsertAt(source, at, a);
      return true;
    }

    /** A reference that the move disturbs still reads an equal record. */
    lemma MovedIsEqual(source: array<T>, at: nat, a: nat)
      requires Valid() && at < source.Length && (source == list ==> at < num) && Splits(less, Contents(), source[at], a)
      ensures Equal(less, source[at], Moved(source, at, a))
    {}

    /** Put stores the very record referred to, unless the reference is to one
        of the list's own that has a different equal before it. */
    lemma PutStoresExactly(source: array<T>, at: nat, a: nat)
      requires Valid() && at < source.Length && (source == list ==> at < num) && Splits(less, Contents(), source[at], a)
      ensures Moved(source, at, a) == source[at]
        <==> !(source == list && at > 0 && Equal(less, list[at - 1], list[at]) && list[at - 1] != list[at])
    {}

    /** Put, unless an equal record is there. */
    method PutUnique(source: array<T>, at: nat) returns (done: bool)
      requires Valid() && at < source.Length && (source == list ==> at < num)
      modifies `num, list
      ensures Valid() && done == (old(num) < list.Length)
      ensures !done || Has(less, old(Contents()), old(source[at])) ==> Contents() == old(Contents())
      ensures done && !Has(less, old(Contents()), old(source[at])) ==>
        Contents() == Inserted(old(Contents()), Place(less, old(Contents()), old(source[at])), old(source[at]))
      ensures Increasing(less, old(Contents())) ==> Increasing(less, Contents())
    {
      if num >= list.Length {
        return false;
      }
      hide StrictWeak, Sorted, Increasing, Splits, Inserted, Place, Has;
      ghost var x := source[at];
      var a := Search(source[at]);
      FoundExactly(x, a);
      PlaceSplits(less, Contents(), x, a);
      SplitInside(x, a);
      if a < num && !less(source[at], list[a]) {
        return true;
      }
      OwnIsThere(source, at);
      InsertedNew(x, a);
      InsertAt(source, at, a);
      return true;
    }

    lemma SplitInside(x: T, a: nat)
      requires Valid() && Splits(less, Contents(), x, a)
      ensures a <= num
    {}

    /** A record of the list's own is its own equal. */
    lemma OwnIsThere(source: array<T>, at: nat)
      requires Valid() && at < source.Length && (source == list ==> at < num)
      ensures source == list ==> Has(less, Contents(), source[at])
    {
      if source == list { assert Contents()[at] == source[at]; }
    }

    lemma InsertedNew(x: T, a: nat)
      requires Valid() && Splits(less, Contents(), x, a) && (a < num ==> less(x, list[a]))
      ensures a <= num && Sorted(less, Inserted(Contents(), a, x))
      ensures Increasing(less, Contents()) ==> Increasing(less, Inserted(Contents(), a, x))
    {
      InsertedSorted(less, Contents(), x, a, x);
      if Increasing(less, Contents()) { InsertedIncreasing(less, Contents(), x, a); }
    }

    /** The record where x belongs is equal to x exactly when some record is. */
    lemma FoundExactly(x: T, a: nat)
      requires Valid() && Splits(less, Contents(), x, a)
      ensures a < num && !less(x, list[a]) <==> Has(less, Contents(), x)
    {}

    /** Takes out record i, if there is one. */
    method Remove(i: nat)
      requires Valid()
      modifies `num, list
      ensures Valid() && Contents() == Removed(old(Contents()), i)
      ensures Increasing(less, old(Contents())) ==> Increasing(less, Contents())
    {
      if i >= num { return; }
      hide Sorted, Increasing, StrictWeak;
      RemovedSorted(less, Contents(), i);
      if num > i + 1 { MoveDown(i); }
      num := num - 1;
    }

    /** memmove of everything above i, one place down. */
    method MoveDown(i: nat)
      requires i < num <= list.Length
      modifies list
      ensures list[..num - 1] == Removed(old(Contents()), i)
    {
      ghost var s := Contents();
      var k := i;
      while k < num - 1
        invariant i <= k < num
        invariant list[..k] == Removed(s, i)[..k] && list[k + 1..num] == s[k + 1..]
      {
        ghost var before := list[..];
        list[k] := list[k + 1];
        assert list[..k] == before[..k] && list[k] == s[k + 1];
        k := k + 1;
      }
    }

    /** The first record equal to x, as a search from the front would find it. */
    method Exists(x: T) returns (found: bool, index: nat)
      requires Valid()
      ensures found <==> Has(less, Contents(), x)
      ensures found ==> index < num && Equal(less, list[index], x)
      ensures found ==> forall i :: 0 <= i < index ==> !Equal(less, list[i], x)
    {
      var i := Search(x);
      FoundExactly(x, i);
      if i >= num || less(x, list[i]) {
        return false, 0;
      }
      assert !less(Contents()[i], x);
      forall j | 0 <= j < i ensures !Equal(less, list[j], x) { assert less(Contents()[j], x); }
      return true, i;
    }
  }

  // ---------- runs of calls ----------

  datatype Op<T> = PutNew(x: T) | PutUniqueNew(x: T) | PutOwn(i: nat) | RemoveAt(i: nat)

  ghost predicate Possible<T>(s: seq<T>, op: Op<T>) {
    op.PutOwn? ==> op.i < |s|
  }

  /** One call on a list of at most max records. A record of the list's own that
      has another before it in its place is read after the move. */
  function After<T>(less: Less<T>, max: nat, s: seq<T>, op: Op<T>): seq<T>
    requires Possible(s, op)
  {
    match op
    case PutNew(x) => if |s| >= max then s else Inserted(s, Place(less, s, x), x)
    case PutUniqueNew(x) => if |s| >= max || Has(less, s, x) then s else Inserted(s, Place(less, s, x), x)
    case PutOwn(i) =>
      var a := Place(less, s, s[i]);
      if |s| >= max then s else Inserted(s, a, if a < i then s[i - 1] else s[i])
    case RemoveAt(i) => Removed(s, i)
  }

  /** The records a call adds and takes. */
  function Added<T>(less: Less<T>, max: nat, s: seq<T>, op: Op<T>): multiset<T>
    requires Possible(s, op)
  {
    match op
    case PutNew(x) => if |s| >= max then multiset{} else multiset{x}
    case PutUniqueNew(x) => if |s| >= max || Has(less, s, x) then multiset{} else multiset{x}
    case PutOwn(i) => if |s| >= max then multiset{} else multiset{if Place(less, s, s[i]) < i then s[i - 1] else s[i]}
    case RemoveAt(_) => multiset{}
  }

  function Taken<T>(s: seq<T>, op: Op<T>): multiset<T> {
    match op
    case RemoveAt(i) => if i < |s| then multiset{s[i]} else multiset{}
    case _ => multiset{}
  }

  ghost predicate AllPossible<T>(less: Less<T>, max: nat, s: seq<T>, ops: seq<Op<T>>)
    decreases |ops|
  {
    ops != [] ==> Possible(s, ops[0]) && AllPossible(less, max, After(less, max, s, ops[0]), ops[1..])
  }

  ghost function AfterAll<T>(less: Less<T>, max: nat, s: seq<T>, ops: seq<Op<T>>): seq<T>
    requires AllPossible(less, max, s, ops)
    decreases |ops|
  {
    if ops == [] then s else AfterAll(less, max, After(less, max, s, ops[0]), ops[1..])
  }

  ghost function AllAdded<T>(less: Less<T>, max: nat, s: seq<T>, ops: seq<Op<T>>): multiset<T>
    requires AllPossible(less, max, s, ops)
    decreases |ops|
  {
    if ops == [] then multiset{}
    else Added(less, max, s, ops[0]) + AllAdded(less, max, After(less, max, s, ops[0]), ops[1..])
  }

  ghost function AllTaken<T>(less: Less<T>, max: nat, s: seq<T>, ops: seq<Op<T>>): multiset<T>
    requires AllPossible(less, max, s, ops)
    decreases |ops|
  {
    if ops == [] then multiset{} else Taken(s, ops[0]) + AllTaken(less, max, After(less, max, s, ops[0]), ops[1..])
  }

  /** What one call adds and takes is the difference it makes. */
  ghost predicate Balanced<T>(less: Less<T>, max: nat, s: seq<T>, op: Op<T>)
    requires Possible(s, op)
  {
    multiset(After(less, max, s, op)) + Taken(s, op) == multiset(s) + Added(less, max, s, op)
  }

  lemma PutBalance<T>(less: Less<T>, max: nat, s: seq<T>, x: T)
    ensures Balanced(less, max, s, PutNew(x)) && Balanced(less, max, s, PutUniqueNew(x))
  {
    hide Place, Inserted, Has;
    InsertedElements(s, Place(less, s, x), x);
  }

  lemma PutOwnBalance<T>(less: Less<T>, max: nat, s: seq<T>, i: nat)
    requires i < |s|
    ensures Balanced(less, max, s, PutOwn(i))
  {
    hide Place, Inserted;
    var a := Place(less, s, s[i]);
    InsertedElements(s, a, if a < i then s[i - 1] else s[i]);
  }

  lemma RemoveBalance<T>(less: Less<T>, max: nat, s: seq<T>, i: nat)
    ensures Balanced(less, max, s, RemoveAt(i))
  {
    if i < |s| { RemovedElements(s, i); }
  }

  lemma OneBalance<T>(less: Less<T>, max: nat, s: seq<T>, op: Op<T>)
    requires Possible(s, op)
    ensures Balanced(less, max, s, op)
  {
    hide Balanced;
    match op
    case PutNew(x) => PutBalance(less, max, s, x);
    case PutUniqueNew(x) => PutBalance(less, max, s, x);
    case PutOwn(i) => PutOwnBalance(less, max, s, i);
    case RemoveAt(i) => RemoveBalance(less, max, s, i);
  }

  lemma Chained<T>(s: multiset<T>, t: multiset<T>, r: multiset<T>, t0: multiset<T>, t1: multiset<T>, a0: multiset<T>,
                   a1: multiset<T>)
    requires t + t0 == s + a0 && r + t1 == t + a1
    ensures r + (t0 + t1) == s + (a0 + a1)
  {
    forall x ensures (r + (t0 + t1))[x] == (s + (a0 + a1))[x] {
      assert (t + t0)[x] == (s + a0)[x] && (r + t1)[x] == (t + a1)[x];
    }
  }

  /** Over a run, the records left and those taken are the first ones and those added. */
  lemma {:induction false} RunBalance<T>(less: Less<T>, max: nat, s: seq<T>, ops: seq<Op<T>>)
    requires AllPossible(less, max, s, ops)
    ensures multiset(AfterAll(less, max, s, ops)) + AllTaken(less, max, s, ops)
      == multiset(s) + AllAdded(less, max, s, ops)
    decreases |ops|
  {
    hide After, Added, Taken;
    if ops == [] {
    } else {
      var t := After(less, max, s, ops[0]);
      OneBalance(less, max, s, ops[0]);
      RunBalance(less, max, t, ops[1..]);
      Chained(multiset(s), multiset(t), multiset(AfterAll(less, max, t, ops[1..])), Taken(s, ops[0]),
              AllTaken(less, max, t, ops[1..]), Added(less, max, s, ops[0]), AllAdded(less, max, t, ops[1..]));
    }
  }

  /** One call of a client. */
  method Do<T(0, !new)>(l: SortedList<T>, op: Op<T>)
    requires l.Valid() && Possible(l.Contents(), op)
    modifies l`num, l.list
    ensures l.Valid() && l.Contents() == After(l.less, l.list.Length, old(l.Contents()), op)
    ensures !op.PutNew? && !op.PutOwn? && old(Increasing(l.less, l.Contents())) ==> Increasing(l.less, l.Contents())
  {
    hide Sorted, Increasing, Place, Inserted, StrictWeak, Splits, Has;
    match op {
      case PutNew(x) =>
        var record := new T[1](_ => x);
        var done := l.Put(record, 0);
      case PutUniqueNew(x) =>
        var record := new T[1](_ => x);
        var done := l.PutUnique(record, 0);
      case PutOwn(i) =>
        var done := l.Put(l.list, i);
      case RemoveAt(i) =>
        l.Remove(i);
    }
  }

  ghost predicate NoPut<T>(ops: seq<Op<T>>) {
    forall k :: 0 <= k < |ops| ==> ops[k].PutUniqueNew? || ops[k].RemoveAt?
  }

  /** Over every run the list stays sorted and holds what the calls make of it;
      with PutUnique and Remove alone it stays strictly increasing. */
  method Run<T(0, !new)>(l: SortedList<T>, ops: seq<Op<T>>)
    requires l.Valid() && AllPossible(l.less, l.list.Length, l.Contents(), ops)
    modifies l`num, l.list
    ensures l.Valid() && l.Contents() == AfterAll(l.less, l.list.Length, old(l.Contents()), ops)
    ensures NoPut(ops) && old(Increasing(l.less, l.Contents())) ==> Increasing(l.less, l.Contents())
    ensures multiset(l.Contents()) + AllTaken(l.less, l.list.Length, old(l.Contents()), ops)
      == multiset(old(l.Contents())) + AllAdded(l.less, l.list.Length, old(l.Contents()), ops)
  {
    hide Possible, After, Sorted, Increasing, StrictWeak, AllAdded, AllTaken;
    ghost var s, max := l.Contents(), l.list.Length;
    RunBalance(l.less, max, s, ops);
    for k := 0 to |ops|
      invariant l.Valid() && AllPossible(l.less, max, l.Contents(), ops[k..])
      invariant AfterAll(l.less, max, l.Contents(), ops[k..]) == AfterAll(l.less, max, s, ops)
      invariant NoPut(ops) && Increasing(l.less, s) ==> Increasing(l.less, l.Contents())
    {
      assert ops[k..][1..] == ops[k + 1..];
      Do(l, ops[k]);
    }
  }

  // ---------- an example ----------

  /** Records that differ, though the order takes them for equal. */
  function ByFirst(a: (int, int), b: (int, int)): bool {
    a.0 < b.0
  }

  /** A new record with the least key goes to the front. */
  method PutFirst(l: SortedList<(int, int)>, x: (int, int))
    requires l.Valid() && l.num < l.list.Length && l.less == ByFirst && x.0 == 0
    requires forall i :: 0 <= i < l.num ==> l.list[i].0 == 0
    modifies l`num, l.list
    ensures l.Valid() && l.Contents() == [x] + old(l.Contents()) && l.num == old(l.num) + 1
  {
    var record := new (int, int)[1](_ => x);
    PlaceSplits(l.less, l.Contents(), x, 0);
    var done := l.Put(record, 0);
  }

  /** Putting the list's own second record stores a copy of its first instead. */
  method OwnRecordPut() returns (l: SortedList<(int, int)>)
    ensures l.Valid() && l.Contents() == [(0, 1), (0, 1), (0, 2)]
  {
    l := new SortedList(ByFirst, 3);
    PutFirst(l, (0, 2));
    PutFirst(l, (0, 1));
    assert l.Contents() == [(0, 1), (0, 2)];
    var done := l.Put(l.list, 1);
  }
}

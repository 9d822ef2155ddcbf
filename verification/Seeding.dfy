/** The permutation table of the noise object. */
module Seeding {
  import opened Arithmetic

  function Numbers(): (s: seq<nat>)
    ensures |s| == 256 && forall i :: 0 <= i < 256 ==> s[i] == i
  {
    seq(256, i => i)
  }

  /** 0 to 255, each once. */
  ghost predicate Permutation(s: seq<nat>) {
    multiset(s) == multiset(Numbers())
  }

  /** What uniform_int_distribution(0, 256 - j) plus j may give: 256 is one too many. */
  ghost predicate Draws(draws: seq<nat>) {
    |draws| == 256 && forall j :: 0 <= j < 256 ==> j <= draws[j] <= 256
  }

  function Exchanged(s: seq<nat>, j: nat, k: nat): (t: seq<nat>)
    requires j < |s| && k < |s|
    ensures |t| == |s|
  {
    s[j := s[k]][k := s[j]]
  }

  /** One turn on the first 257 entries: two change places, and the first turn
      copies the first entry behind the others, unless it is taken from there. */
  function Turn(w: seq<nat>, j: nat, k: nat): (v: seq<nat>)
    requires |w| == 257 && j <= k <= 256 && j < 256
    ensures |v| == 257
  {
    var v := Exchanged(w, j, k);
    if j == 0 && k < 256 then v[256 := v[0]] else v
  }

  /** The first 257 entries after n turns, u being what entry 256 held before. */
  ghost function Turns(u: nat, draws: seq<nat>, n: nat): (w: seq<nat>)
    requires Draws(draws) && n <= 256
    ensures |w| == 257
  {
    if n == 0 then Numbers() + [u] else Turn(Turns(u, draws, n - 1), n - 1, draws[n - 1])
  }

  lemma ExchangedElements(s: seq<nat>, j: nat, k: nat)
    requires j < |s| && k < |s|
    ensures multiset(Exchanged(s, j, k)) == multiset(s)
  {}

  ghost predicate Distinct(s: seq<nat>) {
    forall a, b :: 0 <= a < b < |s| ==> s[a] != s[b]
  }

  lemma ExchangedDistinct(s: seq<nat>, j: nat, k: nat)
    requires j < |s| && k < |s| && Distinct(s)
    ensures Distinct(Exchanged(s, j, k))
  {}

  lemma ExchangedTail(w: seq<nat>, j: nat, k: nat)
    requires 1 <= j < |w| && 1 <= k < |w|
    ensures Exchanged(w, j, k)[1..] == Exchanged(w[1..], j - 1, k - 1)
  {}

  /** Whatever was drawn, the last 256 entries are a permutation. */
  ghost predicate TailRight(w: seq<nat>) {
    |w| == 257 && Permutation(w[1..]) && Distinct(w[1..])
  }

  lemma {:induction false} TurnsTail(u: nat, draws: seq<nat>, n: nat)
    requires Draws(draws) && 1 <= n <= 256
    ensures TailRight(Turns(u, draws, n))
  {
    hide Turn, Exchanged, Permutation, Distinct;
    if n == 1 {
      FirstTail(u, draws[0]);
    } else {
      TurnsTail(u, draws, n - 1);
      LaterTail(Turns(u, draws, n - 1), n - 1, draws[n - 1]);
    }
  }

  lemma LaterTail(w: seq<nat>, j: nat, k: nat)
    requires TailRight(w) && 1 <= j < 256 && j <= k <= 256
    ensures TailRight(Turn(w, j, k))
  {
    hide Exchanged, Permutation, Distinct;
    ExchangedTail(w, j, k);
    KeepsPermutation(w[1..], j - 1, k - 1);
    ExchangedDistinct(w[1..], j - 1, k - 1);
  }

  lemma KeepsPermutation(s: seq<nat>, j: nat, k: nat)
    requires j < |s| && k < |s|
    ensures Permutation(s) ==> Permutation(Exchanged(s, j, k))
  {
    hide Numbers, Exchanged;
    ExchangedElements(s, j, k);
  }

  lemma FirstTail(u: nat, k: nat)
    requires k <= 256
    ensures TailRight(Turn(Numbers() + [u], 0, k))
  {
    hide Turn, Exchanged, Numbers;
    var s := Numbers();
    var t := if k < 256 then Exchanged(s, 0, k) else s;
    FirstTurned(u, k);
    ExchangedElements(s, 0, Min(k, 255));
    ExchangedDistinct(s, 0, Min(k, 255));
    FirstToLast(t);
  }

  lemma FirstTurned(u: nat, k: nat)
    requires k <= 256
    ensures var s := Numbers(); var t := if k < 256 then Exchanged(s, 0, k) else s;
      Turn(s + [u], 0, k)[1..] == t[1..] + [t[0]]
  {}

  lemma FirstToLast(t: seq<nat>)
    requires |t| == 256 && Permutation(t) && Distinct(t)
    ensures Permutation(t[1..] + [t[0]]) && Distinct(t[1..] + [t[0]])
  {
    hide Numbers;
    assert t == [t[0]] + t[1..];
  }

  /** Entry 256 is the first again until 256 is drawn; then an entry that is
      not exchanged any more has become the first's double. */
  ghost predicate Paired(w: seq<nat>, draws: seq<nat>, n: nat)
    requires |w| == 257 && |draws| == 256 && n <= 256
  {
    if forall i :: 0 <= i < n ==> draws[i] < 256 then w[256] == w[0]
    else exists t :: 1 <= t < n && w[t] == w[0]
  }

  lemma {:induction false} TurnsPaired(u: nat, draws: seq<nat>, n: nat)
    requires Draws(draws) && 1 <= n <= 256 && draws[0] < 256
    ensures Paired(Turns(u, draws, n), draws, n)
  {
    if n == 1 {
    } else {
      TurnsPaired(u, draws, n - 1);
      LaterPaired(Turns(u, draws, n - 1), draws, n - 1);
    }
  }

  lemma LaterPaired(w: seq<nat>, draws: seq<nat>, j: nat)
    requires Draws(draws) && |w| == 257 && 1 <= j < 256 && Paired(w, draws, j)
    ensures Paired(Turn(w, j, draws[j]), draws, j + 1)
  {
    var k := draws[j];
    var v := Turn(w, j, k);
    assert v[0] == w[0] && v[j] == w[k];
    if forall i :: 0 <= i < j ==> draws[i] < 256 {
      if k == 256 { assert v[j] == v[0]; } else { assert v[256] == w[256]; }
    } else {
      var t :| 1 <= t < j && w[t] == w[0];
      assert v[t] == v[0];
    }
  }

  /** Where the entry that is at pos after n turns was after the first of them. */
  ghost function Origin(draws: seq<nat>, n: nat, pos: nat): (p: nat)
    requires Draws(draws) && 1 <= n <= 256 && 1 <= pos <= 256
    ensures 1 <= p <= 256
  {
    if n == 1 then pos
    else
      var j, k := n - 1, draws[n - 1];
      Origin(draws, n - 1, if pos == j then k else if pos == k then j else pos)
  }

  lemma {:induction false} TurnsFollow(u: nat, draws: seq<nat>, n: nat, pos: nat)
    requires Draws(draws) && 1 <= n <= 256 && 1 <= pos <= 256
    ensures Turns(u, draws, n)[pos] == Turns(u, draws, 1)[Origin(draws, n, pos)]
  {
    if n == 1 {
    } else {
      var j, k := n - 1, draws[n - 1];
      TurnsFollow(u, draws, n - 1, if pos == j then k else if pos == k then j else pos);
    }
  }

  lemma {:induction false} BehindStays(draws: seq<nat>, n: nat)
    requires Draws(draws) && 1 <= n <= 256 && forall j :: 1 <= j < n ==> draws[j] < 256
    ensures Origin(draws, n, 256) == 256
  {
    if n == 1 {
    } else {
      BehindStays(draws, n - 1);
    }
  }

  /** The number that ends up in entry 256 when it was the first to be drawn. */
  ghost function Behind(draws: seq<nat>): nat
    requires Draws(draws)
  {
    var p := Origin(draws, 256, 256);
    if p == 256 then 0 else p
  }

  /** When the first draw is 256, entry 0 keeps the byte u that was in entry 256,
      and that entry ends with a number that the later draws decide. */
  lemma FirstDrawTooHigh(u: nat, draws: seq<nat>)
    requires Draws(draws) && draws[0] == 256
    ensures Turns(u, draws, 256)[0] == u && Turns(u, draws, 256)[256] == Behind(draws)
    ensures (forall j :: 1 <= j < 256 ==> draws[j] < 256) ==> Behind(draws) == 0
  {
    FirstStays(u, draws, 256);
    TurnsFollow(u, draws, 256, 256);
    if forall j :: 1 <= j < 256 ==> draws[j] < 256 { BehindStays(draws, 256); }
    assert Turns(u, draws, 0) == Numbers() + [u];
    var p := Origin(draws, 256, 256);
    assert Turns(u, draws, 1)[p] == if p == 256 then 0 else p;
  }

  /** The first 256 entries are a permutation exactly when 256 is not drawn, or it
      is drawn first and the byte in entry 256 was the one that ends up there. */
  lemma TurnsPermute(u: nat, draws: seq<nat>)
    requires Draws(draws)
    ensures Permutation(Turns(u, draws, 256)[..256])
       <==> if draws[0] == 256 then u == Behind(draws) else forall j :: 0 <= j < 256 ==> draws[j] < 256
    ensures draws[0] == 256 && (forall j :: 1 <= j < 256 ==> draws[j] < 256) ==> Behind(draws) == 0
    ensures Permutation(Turns(u, draws, 256)[..256]) <==> Turns(u, draws, 256)[256] == Turns(u, draws, 256)[0]
  {
    hide Turns, Turn, Exchanged, Numbers, Behind;
    var w := Turns(u, draws, 256);
    TurnsTail(u, draws, 256);
    HeadAndTail(w);
    if draws[0] == 256 {
      FirstDrawTooHigh(u, draws);
    } else {
      TurnsPaired(u, draws, 256);
      NotPaired(w, draws);
    }
  }

  lemma NotPaired(w: seq<nat>, draws: seq<nat>)
    requires |w| == 257 && |draws| == 256 && Distinct(w[1..]) && Paired(w, draws, 256)
    ensures w[256] == w[0] <==> forall j :: 0 <= j < 256 ==> draws[j] < 256
  {
    forall t | 1 <= t < 256 ensures w[t] != w[256] { assert w[1..][t - 1] != w[1..][255]; }
  }

  lemma HeadAndTail(w: seq<nat>)
    requires |w| == 257 && Permutation(w[1..])
    ensures Permutation(w[..256]) <==> w[256] == w[0]
  {
    hide Numbers;
    var m := multiset(w[1..256]);
    assert w[..256] == [w[0]] + w[1..256] && w[1..] == w[1..256] + [w[256]];
    assert multiset(w[..256]) == m + multiset{w[0]} && multiset(w[1..]) == m + multiset{w[256]};
    assert (m + multiset{w[0]})[w[0]] == m[w[0]] + 1;
  }

  lemma {:induction false} FirstStays(u: nat, draws: seq<nat>, n: nat)
    requires Draws(draws) && 1 <= n <= 256
    ensures Turns(u, draws, n)[0] == if draws[0] == 256 then u else draws[0]
  {
    if n == 1 {
    } else {
      FirstStays(u, draws, n - 1);
    }
  }

  /** Every entry is a byte. */
  lemma {:induction false} TurnsBytes(u: nat, draws: seq<nat>, n: nat)
    requires Draws(draws) && n <= 256 && u < 256
    ensures forall i :: 0 <= i < 257 ==> Turns(u, draws, n)[i] < 256
  {
    if n == 0 {
    } else {
      TurnsBytes(u, draws, n - 1);
    }
  }

  /** Draws that leave every entry where it is. */
  lemma {:induction false} NothingTurned(u: nat, draws: seq<nat>, n: nat)
    requires Draws(draws) && n <= 256 && forall j :: 0 <= j < n ==> draws[j] == j
    ensures Turns(u, draws, n) == Numbers() + [if n == 0 then u else 0]
  {
    if n == 0 {
    } else {
      NothingTurned(u, draws, n - 1);
    }
  }

  /** One draw of 256, the last: 0 is in the table twice and 255 is missing. */
  lemma LastDrawTooHigh(u: nat)
    ensures var draws := seq(256, j => if j < 255 then j else 256);
      Draws(draws) && Turns(u, draws, 256)[..256] == Numbers()[255 := 0] && !Permutation(Numbers()[255 := 0])
  {
    var draws := seq(256, j => if j < 255 then j else 256);
    NothingTurned(u, draws, 255);
    TurnsPermute(u, draws);
    assert draws[255] == 256 && draws[0] == 0;
  }

  // ---------- every permutation can be drawn ----------

  /** The first place from j on where x is. */
  function Place(w: seq<nat>, j: nat, x: nat): (k: nat)
    requires j < 256 <= |w|
    ensures j <= k < 256
    ensures x in w[j..256] ==> w[k] == x
    decreases 256 - j
  {
    if w[j] == x || j == 255 then j else Place(w, j + 1, x)
  }

  /** The entries after n turns that bring those of s to their places. */
  function Towards(u: nat, s: seq<nat>, n: nat): (w: seq<nat>)
    requires |s| == 256 && n <= 256
    ensures |w| == 257
  {
    if n == 0 then Numbers() + [u]
    else
      var w := Towards(u, s, n - 1);
      Turn(w, n - 1, Place(w, n - 1, s[n - 1]))
  }

  function DrawsFor(u: nat, s: seq<nat>): (draws: seq<nat>)
    requires |s| == 256
    ensures Draws(draws) && forall j :: 0 <= j < 256 ==> draws[j] < 256
  {
    seq(256, j requires 0 <= j < 256 => Place(Towards(u, s, j), j, s[j]))
  }

  lemma {:induction false} DrawnTowards(u: nat, s: seq<nat>, n: nat)
    requires |s| == 256 && n <= 256
    ensures Turns(u, DrawsFor(u, s), n) == Towards(u, s, n)
  {
    if n == 0 {
    } else {
      DrawnTowards(u, s, n - 1);
    }
  }

  lemma {:induction false} TowardsReaches(u: nat, s: seq<nat>, n: nat)
    requires |s| == 256 && n <= 256 && Permutation(s)
    ensures Permutation(Towards(u, s, n)[..256]) && Towards(u, s, n)[..n] == s[..n]
  {
    hide Numbers, Turn, Place, Permutation;
    if n == 0 {
      NumbersPermute(u);
    } else {
      TowardsReaches(u, s, n - 1);
      var w := Towards(u, s, n - 1);
      RestHas(w[..256], s, n - 1);
      assert w[..256][n - 1..] == w[n - 1..256];
      var k := Place(w, n - 1, s[n - 1]);
      TurnInside(w, n - 1, k);
      KeepsPermutation(w[..256], n - 1, k);
      TurnBrings(w, n - 1, k);
      assert s[..n] == s[..n - 1] + [s[n - 1]];
    }
  }

  lemma NumbersPermute(u: nat)
    ensures Permutation((Numbers() + [u])[..256]) && (Numbers() + [u])[..0] == []
  {
    assert (Numbers() + [u])[..256] == Numbers();
  }

  /** What the first entries of a permutation leave is among the others. */
  lemma RestHas(w: seq<nat>, s: seq<nat>, n: nat)
    requires |w| == |s| == 256 && n < 256 && Permutation(w) && Permutation(s) && w[..n] == s[..n]
    ensures s[n] in w[n..]
  {
    hide Numbers;
    assert w == w[..n] + w[n..] && s == s[..n] + s[n..];
    var p := multiset(s[..n]);
    assert multiset(w) == p + multiset(w[n..]) && multiset(s) == p + multiset(s[n..]);
    assert multiset(w[n..]) == multiset(w) - p == multiset(s) - p == multiset(s[n..]);
    assert s[n..][0] == s[n] && s[n] in multiset(s[n..]);
  }

  lemma TurnInside(w: seq<nat>, j: nat, k: nat)
    requires |w| == 257 && j <= k < 256
    ensures Turn(w, j, k)[..256] == Exchanged(w[..256], j, k)
  {}

  lemma TurnBrings(w: seq<nat>, j: nat, k: nat)
    requires |w| == 257 && j <= k < 256
    ensures Turn(w, j, k)[..j + 1] == w[..j] + [w[k]]
  {}

  /** Every permutation is that of some draws. */
  lemma AnyPermutation(u: nat, s: seq<nat>)
    requires |s| == 256 && Permutation(s)
    ensures Turns(u, DrawsFor(u, s), 256)[..256] == s
  {
    DrawnTowards(u, s, 256);
    TowardsReaches(u, s, 256);
    assert s[..256] == s;
  }

  // ---------- the loops ----------

  /** The body of SetSeed's second loop. */
  method TurnAt(perm: array<nat>, perm12: array<nat>, j: nat, k: nat)
    requires perm.Length == perm12.Length == 512 && perm != perm12 && j <= k <= 256 && j < 256
    modifies perm, perm12
    ensures perm[..257] == Turn(old(perm[..257]), j, k)
    ensures j > 0 ==> perm[j + 256] == perm[j]
    ensures forall x :: 0 <= x < 512 && x !in {j, k, j + 256} ==> perm[x] == old(perm[x])
    ensures perm12[j] == perm12[j + 256] == perm[j] % 12
    ensures forall x :: 0 <= x < 512 && x !in {j, j + 256} ==> perm12[x] == old(perm12[x])
  {
    var l := perm[j];
    perm[j + 256] := perm[k];
    perm[j] := perm[j + 256];
    perm[k] := l;
    perm12[j + 256] := perm[j] % 12;
    perm12[j] := perm12[j + 256];
  }

  /** SetSeed: the second round of the table repeats the first, but for its
      first entry, and the table of remainders follows both rounds. */
  method Shuffle(perm: array<nat>, perm12: array<nat>, draws: seq<nat>)
    requires perm.Length == perm12.Length == 512 && perm != perm12 && Draws(draws)
    modifies perm, perm12
    ensures perm[..257] == Turns(old(perm[256]), draws, 256)
    ensures forall j :: 1 <= j < 256 ==> perm[j + 256] == perm[j]
    ensures forall j :: 0 <= j < 256 ==> perm12[j] == perm12[j + 256] == perm[j] % 12
  {
    hide Turn;
    ghost var u := perm[256];
    for i := 0 to 256
      invariant forall x :: 0 <= x < i ==> perm[x] == x
      invariant perm[256] == u
    {
      perm[i] := i;
    }
    assert perm[..257] == Numbers() + [u];
    for j := 0 to 256
      invariant perm[..257] == Turns(u, draws, j)
      invariant forall x :: 1 <= x < j ==> perm[x + 256] == perm[x]
      invariant forall x :: 0 <= x < j ==> perm12[x] == perm12[x + 256] == perm[x] % 12
    {
      TurnAt(perm, perm12, j, draws[j]);
    }
  }
}

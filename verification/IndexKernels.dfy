/**
 Gather and scatter through an index vector: the block permutation `init` builds, the scatter
 of s491 and vas, and the gather of vag.
 */
module IndexKernels {

  ghost predicate InBounds(ip: seq<int>, n: int) {
    forall i | 0 <= i < |ip| :: 0 <= ip[i] < n
  }

  ghost predicate Injective(ip: seq<int>) {
    forall i, k | 0 <= i < k < |ip| :: ip[i] != ip[k]
  }

  ghost predicate Covers(ip: seq<int>, n: int) {
    forall l | 0 <= l < n :: l in ip
  }

  ghost predicate IsPermutation(ip: seq<int>) {
    InBounds(ip, |ip|) && Injective(ip) && Covers(ip, |ip|)
  }

  // ----- init

  /** Where value l stands: within each block of five, the stride 2 undoes the stride 3. */
  function Unshuffled(l: nat): int {
    l - l % 5 + (2 + 2 * l) % 5
  }

  function Shuffled(i: nat): int {
    i - i % 5 + (4 + 3 * i) % 5
  }

  /** Both, on the position r of block q. */
  lemma InBlock(q: nat, r: nat)
    requires r < 5
    ensures Shuffled(5 * q + r) == 5 * q + (4 + 3 * r) % 5
    ensures Unshuffled(5 * q + r) == 5 * q + (2 + 2 * r) % 5
  {
    var i := 5 * q + r;
    assert i % 5 == r;
    assert 4 + 3 * i == 5 * (3 * q) + (4 + 3 * r) && 2 + 2 * i == 5 * (2 * q) + (2 + 2 * r);
    Residue(3 * q, 4 + 3 * r);
    Residue(2 * q, 2 + 2 * r);
  }

  lemma Residue(q: nat, x: nat)
    ensures (5 * q + x) % 5 == x % 5
  {
  }

  lemma Unshuffle(n: nat, i: nat)
    requires n % 5 == 0 && i < n
    ensures 0 <= Shuffled(i) < n && 0 <= Unshuffled(i) < n
    ensures Unshuffled(Shuffled(i)) == i && Shuffled(Unshuffled(i)) == i
  {
    var q, r := i / 5, i % 5;
    hide Shuffled, Unshuffled;
    var s, u := (4 + 3 * r) % 5, (2 + 2 * r) % 5;
    assert i == 5 * q + r && 5 * q + 5 <= n;
    Inverse(r);
    InBlock(q, r);
    InBlock(q, s);
    InBlock(q, u);
    assert Shuffled(i) == 5 * q + s && Unshuffled(i) == 5 * q + u;
  }

  /** 2 is the inverse of 3 modulo 5. */
  lemma Inverse(r: nat)
    requires r < 5
    ensures (2 + 2 * ((4 + 3 * r) % 5)) % 5 == r && (4 + 3 * ((2 + 2 * r) % 5)) % 5 == r
  {
    assert r == 0 || r == 1 || r == 2 || r == 3 || r == 4;
  }

  lemma OneBlock(i: nat)
    requires i % 5 == 0
    ensures Shuffled(i) == i + 4 && Shuffled(i + 1) == i + 2 && Shuffled(i + 2) == i && Shuffled(i + 3) == i + 3
            && Shuffled(i + 4) == i + 1
  {
    hide Shuffled;
    var q := i / 5;
    assert i == 5 * q + 0;
    InBlock(q, 0);
    InBlock(q, 1);
    InBlock(q, 2);
    InBlock(q, 3);
    InBlock(q, 4);
  }

  lemma ShuffledIs(ip: seq<int>)
    requires forall i | 0 <= i < |ip| :: ip[i] == Shuffled(i)
    ensures forall i | 0 <= i < |ip| :: ip[i] == i - i % 5 + (4 + 3 * i) % 5
  {
  }

  /** The loop of `init` that fills the index vector: a stride of 3 modulo 5, from 4 on, within each block of five. */
  method InitIndices(ip: array<int>)
    requires ip.Length % 5 == 0
    modifies ip
    ensures IsPermutation(ip[..])
    ensures forall i | 0 <= i < ip.Length :: ip[i] == i - i % 5 + (4 + 3 * i) % 5
  {
    hide Shuffled, IsPermutation;
    var i := 0;
    while i < ip.Length
      invariant 0 <= i <= ip.Length && i % 5 == 0
      invariant forall k | 0 <= k < i :: ip[k] == Shuffled(k)
    {
      OneBlock(i);
      ip[i] := i + 4;
      ip[i + 1] := i + 2;
      ip[i + 2] := i;
      ip[i + 3] := i + 3;
      ip[i + 4] := i + 1;
      i := i + 5;
    }
    ShuffledIs(ip[..]);
    ShuffledIsPermutation(ip[..]);
  }

  /** 3 is invertible modulo 5, so the stride reaches every position of a block once. */
  lemma ShuffledIsPermutation(ip: seq<int>)
    requires |ip| % 5 == 0 && forall i | 0 <= i < |ip| :: ip[i] == i - i % 5 + (4 + 3 * i) % 5
    ensures IsPermutation(ip)
  {
    forall i | 0 <= i < |ip| ensures 0 <= ip[i] < |ip| && i in ip && Unshuffled(ip[i]) == i {
      Unshuffle(|ip|, i);
      assert ip[i] == Shuffled(i) && ip[Unshuffled(i)] == Shuffled(Unshuffled(i));
    }
  }

  // ----- scatter

  ghost predicate ValidOrder(order: seq<int>, n: int) {
    forall k | 0 <= k < |order| :: 0 <= order[k] < n
  }

  /** a[ip[i]] = values[i], for the indices of `order` in turn. */
  ghost function Scattered<T>(a: seq<T>, ip: seq<int>, values: seq<T>, order: seq<int>): (r: seq<T>)
    requires |ip| == |values| && InBounds(ip, |a|) && ValidOrder(order, |ip|)
    ensures |r| == |a|
  {
    if order == [] then a else
    var last := order[|order| - 1];
    Scattered(a, ip, values, order[..|order| - 1])[ip[last] := values[last]]
  }

  function Range(n: nat): (s: seq<int>)
    ensures |s| == n && forall k | 0 <= k < n :: s[k] == k
  {
    seq(n, k => k)
  }

  lemma ScatterNext<T>(a: seq<T>, ip: seq<int>, values: seq<T>, i: nat)
    requires |ip| == |values| && InBounds(ip, |a|) && i < |ip|
    ensures Scattered(a, ip, values, Range(i + 1)) == Scattered(a, ip, values, Range(i))[ip[i] := values[i]]
  {
    assert Range(i + 1)[..i] == Range(i);
  }

  /** A cell ends with the value of the last iteration that stores to it. */
  lemma {:induction false} LastStored<T>(a: seq<T>, ip: seq<int>, values: seq<T>, n: nat, l: int)
    requires |ip| == |values| && InBounds(ip, |a|) && n <= |ip| && 0 <= l < |a|
    ensures (forall k | 0 <= k < n :: ip[k] != l) ==> Scattered(a, ip, values, Range(n))[l] == a[l]
    ensures forall i | 0 <= i < n && ip[i] == l && (forall k | i < k < n :: ip[k] != l) ::
              Scattered(a, ip, values, Range(n))[l] == values[i]
  {
    if n == 0 {
    } else {
      ScatterNext(a, ip, values, n - 1);
      LastStored(a, ip, values, n - 1, l);
    }
  }

  lemma ScatteredStored<T>(a: seq<T>, ip: seq<int>, values: seq<T>)
    requires |ip| == |values| && InBounds(ip, |a|)
    ensures var after := Scattered(a, ip, values, Range(|ip|));
            (forall l | 0 <= l < |a| && l !in ip :: after[l] == a[l])
            && forall i | 0 <= i < |ip| && (forall k | i < k < |ip| :: ip[k] != ip[i]) :: after[ip[i]] == values[i]
  {
    forall l | 0 <= l < |a| && l !in ip ensures Scattered(a, ip, values, Range(|ip|))[l] == a[l] {
      LastStored(a, ip, values, |ip|, l);
    }
    forall i | 0 <= i < |ip| && (forall k | i < k < |ip| :: ip[k] != ip[i])
      ensures Scattered(a, ip, values, Range(|ip|))[ip[i]] == values[i]
    {
      LastStored(a, ip, values, |ip|, ip[i]);
    }
  }

  function Products<T>(add: (T, T) -> T, mul: (T, T) -> T, b: seq<T>, c: seq<T>, d: seq<T>): (r: seq<T>)
    requires |b| == |c| == |d|
    ensures |r| == |b| && forall i | 0 <= i < |b| :: r[i] == add(b[i], mul(c[i], d[i]))
  {
    seq(|b|, i requires 0 <= i < |b| => add(b[i], mul(c[i], d[i])))
  }

  method S491<T>(add: (T, T) -> T, mul: (T, T) -> T, a: array<T>, b: array<T>, c: array<T>, d: array<T>, ip: array<int>)
    requires a != b && a != c && a != d && a as object != ip && b.Length == c.Length == d.Length == ip.Length
    requires InBounds(ip[..], a.Length)
    modifies a
    ensures a[..] == Scattered(old(a[..]), ip[..], Products(add, mul, b[..], c[..], d[..]), Range(ip.Length))
    ensures forall l | 0 <= l < a.Length && l !in ip[..] :: a[l] == old(a[l])
    ensures forall i | 0 <= i < ip.Length && (forall k | i < k < ip.Length :: ip[k] != ip[i]) ::
              a[ip[i]] == add(b[i], mul(c[i], d[i]))
  {
    ghost var values := Products(add, mul, b[..], c[..], d[..]);
    for i := 0 to ip.Length
      invariant a[..] == Scattered(old(a[..]), ip[..], values, Range(i))
    {
      ScatterNext(old(a[..]), ip[..], values, i);
      a[ip[i]] := add(b[i], mul(c[i], d[i]));
    }
    ScatteredStored(old(a[..]), ip[..], values);
  }

  method Vas<T>(a: array<T>, b: array<T>, ip: array<int>)
    requires a != b && a as object != ip && b.Length == ip.Length && InBounds(ip[..], a.Length)
    modifies a
    ensures a[..] == Scattered(old(a[..]), ip[..], b[..], Range(ip.Length))
    ensures forall l | 0 <= l < a.Length && l !in ip[..] :: a[l] == old(a[l])
    ensures forall i | 0 <= i < ip.Length && (forall k | i < k < ip.Length :: ip[k] != ip[i]) :: a[ip[i]] == b[i]
  {
    for i := 0 to ip.Length
      invariant a[..] == Scattered(old(a[..]), ip[..], b[..], Range(i))
    {
      ScatterNext(old(a[..]), ip[..], b[..], i);
      a[ip[i]] := b[i];
    }
    ScatteredStored(old(a[..]), ip[..], b[..]);
  }

  method Vag<T>(a: array<T>, b: array<T>, ip: array<int>)
    requires a != b && a as object != ip && a.Length == ip.Length && InBounds(ip[..], b.Length)
    modifies a
    ensures a[..] == Gathered(b[..], ip[..]) && forall i | 0 <= i < a.Length :: a[i] == b[ip[i]]
  {
    for i := 0 to a.Length
      invariant forall k | 0 <= k < i :: a[k] == b[ip[k]]
    {
      assert ip[i] == ip[..][i];
      a[i] := b[ip[i]];
    }
  }

  function Gathered<T>(b: seq<T>, ip: seq<int>): (r: seq<T>)
    requires InBounds(ip, |b|)
    ensures |r| == |ip| && forall i | 0 <= i < |ip| :: r[i] == b[ip[i]]
  {
    seq(|ip|, i requires 0 <= i < |ip| => b[ip[i]])
  }

  // ----- what scatters and gathers undo, and in which order a scatter may run

  /** A cell nobody scatters to keeps its value. */
  lemma {:induction false} Untouched<T>(a: seq<T>, ip: seq<int>, values: seq<T>, order: seq<int>, l: int)
    requires |ip| == |values| && InBounds(ip, |a|) && ValidOrder(order, |ip|)
    requires 0 <= l < |a| && forall k | 0 <= k < |order| :: ip[order[k]] != l
    ensures Scattered(a, ip, values, order)[l] == a[l]
  {
    if order == [] {
    } else {
      Untouched(a, ip, values, order[..|order| - 1], l);
    }
  }

  /** If every writer of a cell writes `v`, it ends as `v`, whatever the order. */
  lemma {:induction false} Written<T>(a: seq<T>, ip: seq<int>, values: seq<T>, order: seq<int>, i: int, v: T)
    requires |ip| == |values| && InBounds(ip, |a|) && ValidOrder(order, |ip|)
    requires i in order && 0 <= i < |ip|
    requires forall k | 0 <= k < |order| && ip[order[k]] == ip[i] :: values[order[k]] == v
    ensures Scattered(a, ip, values, order)[ip[i]] == v
  {
    var last, front := order[|order| - 1], order[..|order| - 1];
    if ip[last] != ip[i] {
      assert i in front;
      Written(a, ip, values, front, i, v);
    }
  }

  /** Through an injective index vector, any two orders of the same iterations scatter alike. */
  lemma ScatterAnyOrder<T>(a: seq<T>, ip: seq<int>, values: seq<T>, s: seq<int>, t: seq<int>)
    requires |ip| == |values| && InBounds(ip, |a|) && Injective(ip)
    requires ValidOrder(s, |ip|) && ValidOrder(t, |ip|) && forall i :: i in s <==> i in t
    ensures Scattered(a, ip, values, s) == Scattered(a, ip, values, t)
  {
    forall l | 0 <= l < |a| ensures Scattered(a, ip, values, s)[l] == Scattered(a, ip, values, t)[l] {
      CellAnyOrder(a, ip, values, s, t, l);
    }
  }

  lemma CellAnyOrder<T>(a: seq<T>, ip: seq<int>, values: seq<T>, s: seq<int>, t: seq<int>, l: int)
    requires |ip| == |values| && InBounds(ip, |a|) && Injective(ip) && 0 <= l < |a|
    requires ValidOrder(s, |ip|) && ValidOrder(t, |ip|) && forall i :: i in s <==> i in t
    ensures Scattered(a, ip, values, s)[l] == Scattered(a, ip, values, t)[l]
  {
    hide Scattered;
    if i :| 0 <= i < |ip| && i in s && ip[i] == l {
      Written(a, ip, values, s, i, values[i]);
      Written(a, ip, values, t, i, values[i]);
    } else {
      assert forall k | 0 <= k < |t| :: t[k] in s;
      Untouched(a, ip, values, s, l);
      Untouched(a, ip, values, t, l);
    }
  }

  /** Every iteration of a scatter loop, once each. */
  ghost predicate Permutes(s: seq<int>, n: nat) {
    multiset(s) == multiset(Range(n))
  }

  ghost predicate OrderFree(a: seq<int>, ip: seq<int>, values: seq<int>, s: seq<int>, t: seq<int>)
    requires |ip| == |values| && InBounds(ip, |a|) && Permutes(s, |ip|) && Permutes(t, |ip|)
  {
    PermutesBounds(s, t, |ip|);
    Scattered(a, ip, values, s) == Scattered(a, ip, values, t)
  }

  /** A scatter may run in every order, on all inputs, exactly when its index vector is injective. */
  lemma ScatterOrderExact(ip: seq<int>, size: nat)
    requires InBounds(ip, size)
    ensures Injective(ip) <==>
            forall a: seq<int>, values: seq<int>, s: seq<int>, t: seq<int> | |a| == size && |values| == |ip|
              && Permutes(s, |ip|) && Permutes(t, |ip|) ::
              OrderFree(a, ip, values, s, t)
  {
    if Injective(ip) {
      forall a: seq<int>, values: seq<int>, s, t | |a| == size && |values| == |ip| && Permutes(s, |ip|)
        && Permutes(t, |ip|)
        ensures OrderFree(a, ip, values, s, t)
      {
        hide Permutes, Scattered;
        PermutesBounds(s, t, |ip|);
        ScatterAnyOrder(a, ip, values, s, t);
      }
    } else {
      hide Permutes, Scattered;
      var i, k :| 0 <= i < k < |ip| && ip[i] == ip[k];
      var rest := Range(|ip|)[..i] + Range(|ip|)[i + 1..k] + Range(|ip|)[k + 1..];
      BothLast(|ip|, i, k, rest);
      LastWins(seq(size, _ => 0), ip, rest + [i], k);
      LastWins(seq(size, _ => 0), ip, rest + [k], i);
      assert !OrderFree(seq(size, _ => 0), ip, Range(|ip|), (rest + [i]) + [k], (rest + [k]) + [i]);
    }
  }

  lemma BothLast(n: nat, i: int, k: int, rest: seq<int>)
    requires 0 <= i < k < n && rest == Range(n)[..i] + Range(n)[i + 1..k] + Range(n)[k + 1..]
    ensures Permutes((rest + [i]) + [k], n) && Permutes((rest + [k]) + [i], n)
  {
    var u, v, w := Range(n)[..i], Range(n)[i + 1..k], Range(n)[k + 1..];
    assert Range(n) == ((u + [i]) + v) + [k] + w;
    assert multiset((rest + [i]) + [k]) == multiset(u) + multiset(v) + multiset(w) + multiset{i} + multiset{k};
    assert multiset((rest + [k]) + [i]) == multiset(u) + multiset(v) + multiset(w) + multiset{i} + multiset{k};
  }

  /** Scattering the iteration numbers themselves, the last writer of a cell shows. */
  lemma LastWins(a: seq<int>, ip: seq<int>, front: seq<int>, last: int)
    requires InBounds(ip, |a|) && Permutes(front + [last], |ip|)
    ensures ValidOrder(front + [last], |ip|)
    ensures 0 <= last < |ip| && Scattered(a, ip, Range(|ip|), front + [last])[ip[last]] == last
  {
    hide Permutes;
    var order := front + [last];
    PermutesBounds(order, order, |ip|);
    assert order[|order| - 1] == last && order[..|order| - 1] == front;
  }

  lemma PermutesBounds(s: seq<int>, t: seq<int>, n: nat)
    requires Permutes(s, n) && Permutes(t, n)
    ensures ValidOrder(s, n) && ValidOrder(t, n) && forall i :: i in s <==> i in t
  {
    assert forall i :: i in s <==> i in multiset(s);
    assert forall i :: i in t <==> i in multiset(t);
    assert forall i :: i in Range(n) <==> i in multiset(Range(n));
    forall k | 0 <= k < |s| ensures 0 <= s[k] < n {
      assert s[k] in s && s[k] in Range(n);
    }
    forall k | 0 <= k < |t| ensures 0 <= t[k] < n {
      assert t[k] in t && t[k] in Range(n);
    }
  }

  ghost predicate ScatterRestores(b: seq<int>, c: seq<int>, ip: seq<int>)
    requires InBounds(ip, |b|) && |c| == |b|
  {
    Scattered(c, ip, Gathered(b, ip), Range(|ip|)) == b
  }

  /** vag then vas into any array gives back the source exactly when the indices reach every cell. */
  lemma GatherScatterExact(ip: seq<int>, size: nat)
    requires InBounds(ip, size)
    ensures Covers(ip, size) <==> forall b, c | |b| == size && |c| == size :: ScatterRestores(b, c, ip)
  {
    forall b: seq<int>, c: seq<int> | |b| == size && |c| == size
      ensures Covers(ip, size) ==> ScatterRestores(b, c, ip)
    {
      forall l | 0 <= l < size && Covers(ip, size) ensures Scattered(c, ip, Gathered(b, ip), Range(|ip|))[l] == b[l] {
        assert l in ip;
        var i :| 0 <= i < |ip| && ip[i] == l;
        assert Range(|ip|)[i] == i;
        Written(c, ip, Gathered(b, ip), Range(|ip|), i, b[l]);
      }
    }
    if l :| 0 <= l < size && l !in ip {
      var b, c := seq(size, _ => 1), seq(size, _ => 0);
      Untouched(c, ip, Gathered(b, ip), Range(|ip|), l);
      assert !ScatterRestores(b, c, ip);
    }
  }

  ghost predicate GatherRestores(b: seq<int>, a: seq<int>, ip: seq<int>)
    requires InBounds(ip, |a|) && |b| == |ip|
  {
    Gathered(Scattered(a, ip, b, Range(|ip|)), ip) == b
  }

  /** vas then vag gives back the source exactly when no two indices collide. */
  lemma ScatterGatherExact(ip: seq<int>, size: nat)
    requires InBounds(ip, size)
    ensures Injective(ip) <==> forall a, b | |a| == size && |b| == |ip| :: GatherRestores(b, a, ip)
  {
    forall a: seq<int>, b: seq<int> | |a| == size && |b| == |ip|
      ensures Injective(ip) ==> GatherRestores(b, a, ip)
    {
      forall i | 0 <= i < |ip| && Injective(ip) ensures Scattered(a, ip, b, Range(|ip|))[ip[i]] == b[i] {
        assert Range(|ip|)[i] == i;
        Written(a, ip, b, Range(|ip|), i, b[i]);
      }
    }
    if i, k :| 0 <= i < k < |ip| && ip[i] == ip[k] {
      var a, b := seq(size, _ => 0), Range(|ip|);
      var g := Gathered(Scattered(a, ip, b, Range(|ip|)), ip);
      assert g[i] == g[k];
      assert !GatherRestores(b, a, ip);
    }
  }
}

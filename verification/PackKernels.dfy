/**
 Packing and unpacking: s341 collects the positive elements, s342 puts elements back.
 `pos` is the test against zero.
 */
module PackKernels {

  function Positives<T>(pos: T -> bool, s: seq<T>): (r: seq<T>)
    ensures |r| <= |s|
  {
    if s == [] then [] else
    var rest := Positives(pos, s[..|s| - 1]);
    if pos(s[|s| - 1]) then rest + [s[|s| - 1]] else rest
  }

  /** `s` with its positive elements replaced, in order, by the elements of `p`. */
  function Unpacked<T>(pos: T -> bool, s: seq<T>, p: seq<T>): (r: seq<T>)
    requires |Positives(pos, s)| <= |p|
    ensures |r| == |s|
  {
    if s == [] then [] else
    var front, last := s[..|s| - 1], s[|s| - 1];
    Unpacked(pos, front, p) + [if pos(last) then p[|Positives(pos, front)|] else last]
  }

  /** How many of the first `n` elements are positive. */
  function Rank<T>(pos: T -> bool, s: seq<T>, n: nat): nat
    requires n <= |s|
  {
    if n == 0 then 0 else Rank(pos, s, n - 1) + if pos(s[n - 1]) then 1 else 0
  }

  /** The k-th positive element comes k-th. */
  lemma {:induction false} PositivesRank<T>(pos: T -> bool, s: seq<T>, n: nat)
    requires n <= |s|
    ensures |Positives(pos, s[..n])| == Rank(pos, s, n)
    ensures forall i | 0 <= i < n && pos(s[i]) ::
              Rank(pos, s, i) < Rank(pos, s, n) && Positives(pos, s[..n])[Rank(pos, s, i)] == s[i]
  {
    if n == 0 {
    } else {
      PositivesRank(pos, s, n - 1);
      PackStep(pos, s, n - 1);
    }
  }

  lemma {:induction false} UnpackedRank<T>(pos: T -> bool, s: seq<T>, p: seq<T>, n: nat)
    requires |Positives(pos, s)| <= |p| && n <= |s|
    ensures Rank(pos, s, n) <= |p| && |Positives(pos, s[..n])| == Rank(pos, s, n)
    ensures forall i | 0 <= i < n ::
              (pos(s[i]) ==> Rank(pos, s, i) < |p|)
              && Unpacked(pos, s[..n], p)[i] == if pos(s[i]) then p[Rank(pos, s, i)] else s[i]
  {
    PositivesPrefix(pos, s, n);
    PositivesRank(pos, s, n);
    if n == 0 {
    } else {
      UnpackedRank(pos, s, p, n - 1);
      UnpackStep(pos, s, p, n - 1);
    }
  }

  /** The prefix becomes the positive elements of b in order; the rest of a stays. */
  method S341<T>(pos: T -> bool, a: array<T>, b: array<T>)
    requires a != b && b.Length <= a.Length
    modifies a
    ensures a[..] == Positives(pos, b[..]) + old(a[..])[|Positives(pos, b[..])|..]
    ensures forall i | 0 <= i < b.Length && pos(b[i]) ::
              Rank(pos, b[..], i) < a.Length && a[Rank(pos, b[..], i)] == b[i]
    ensures forall k | Rank(pos, b[..], b.Length) <= k < a.Length :: a[k] == old(a[k])
  {
    hide Positives;
    var j := -1;
    ghost var rest := a[..];
    assert b[..0] == [];
    PackStart(pos, b[..]);
    for i := 0 to b.Length
      invariant j + 1 == |Positives(pos, b[..i])| <= i
      invariant forall k | 0 <= k <= j :: a[k] == Positives(pos, b[..i])[k]
      invariant forall k | j < k < a.Length :: a[k] == rest[k]
    {
      PackStep(pos, b[..], i);
      assert b[..][..i] == b[..i] && b[..][..i + 1] == b[..i + 1];
      if pos(b[i]) {
        j := j + 1;
        a[j] := b[i];
      }
    }
    assert b[..][..b.Length] == b[..];
    PositivesRank(pos, b[..], b.Length);
  }

  lemma PackStart<T>(pos: T -> bool, s: seq<T>)
    ensures Positives(pos, s[..0]) == []
  {
  }

  lemma PackStep<T>(pos: T -> bool, s: seq<T>, i: nat)
    requires i < |s|
    ensures Positives(pos, s[..i + 1]) == Positives(pos, s[..i]) + if pos(s[i]) then [s[i]] else []
  {
    assert s[..i + 1][..i] == s[..i];
  }

  lemma UnpackStep<T>(pos: T -> bool, v: seq<T>, p: seq<T>, i: nat)
    requires |Positives(pos, v)| <= |p| && i < |v|
    ensures var n := |Positives(pos, v[..i])|;
            n <= |p| && |Positives(pos, v[..i + 1])| == n + (if pos(v[i]) then 1 else 0) <= |p|
            && Unpacked(pos, v[..i + 1], p) == Unpacked(pos, v[..i], p) + [if pos(v[i]) then p[n] else v[i]]
  {
    PositivesPrefix(pos, v, i + 1);
    assert v[..i + 1][..i] == v[..i];
  }

  method S342<T>(pos: T -> bool, a: array<T>, b: array<T>)
    requires a != b && |Positives(pos, a[..])| <= b.Length
    modifies a
    ensures a[..] == Unpacked(pos, old(a[..]), b[..])
    ensures forall i | 0 <= i < a.Length ::
              (pos(old(a[i])) ==> Rank(pos, old(a[..]), i) < b.Length)
              && a[i] == if pos(old(a[i])) then b[Rank(pos, old(a[..]), i)] else old(a[i])
  {
    hide Positives, Unpacked;
    var j := -1;
    ghost var v := a[..];
    UnpackStart(pos, v, b[..]);
    for i := 0 to a.Length
      invariant j + 1 == |Positives(pos, v[..i])| <= b.Length
      invariant forall k | 0 <= k < i :: a[k] == Unpacked(pos, v[..i], b[..])[k]
      invariant forall k | i <= k < a.Length :: a[k] == v[k]
    {
      UnpackStep(pos, v, b[..], i);
      if pos(a[i]) {
        j := j + 1;
        a[i] := b[j];
      }
    }
    assert v[..a.Length] == v;
    UnpackedRank(pos, v, b[..], a.Length);
  }

  lemma UnpackStart<T>(pos: T -> bool, v: seq<T>, p: seq<T>)
    requires |Positives(pos, v)| <= |p|
    ensures Positives(pos, v[..0]) == [] && Unpacked(pos, v[..0], p) == []
  {
  }

  lemma {:induction false} PositivesPrefix<T>(pos: T -> bool, s: seq<T>, i: nat)
    requires i <= |s|
    ensures Positives(pos, s[..i]) <= Positives(pos, s)
  {
    if i < |s| {
      PositivesPrefix(pos, s[..|s| - 1], i);
      assert s[..|s| - 1][..i] == s[..i];
    } else {
      assert s[..i] == s;
    }
  }

  lemma {:induction false} AllPositive<T>(pos: T -> bool, s: seq<T>)
    ensures forall k | 0 <= k < |Positives(pos, s)| :: pos(Positives(pos, s)[k])
  {
    if s == [] {
    } else {
      AllPositive(pos, s[..|s| - 1]);
    }
  }

  /** Packing v and unpacking the result into v leaves v as it was, whatever follows the packed prefix. */
  lemma {:induction false} UnpackPack<T>(pos: T -> bool, v: seq<T>, p: seq<T>)
    requires Positives(pos, v) <= p
    ensures Unpacked(pos, v, p) == v
  {
    if v == [] {
    } else {
      var front := v[..|v| - 1];
      assert Positives(pos, front) <= Positives(pos, v);
      UnpackPack(pos, front, p);
      assert v == front + [v[|v| - 1]];
    }
  }

  /** Packing after unpacking p gives back the used prefix of p exactly when all of it is positive. */
  lemma PackUnpackExact<T>(pos: T -> bool, v: seq<T>, p: seq<T>)
    requires |Positives(pos, v)| <= |p|
    ensures var n := |Positives(pos, v)|;
            Positives(pos, Unpacked(pos, v, p)) == p[..n] <==> forall k | 0 <= k < n :: pos(p[k])
  {
    var n := |Positives(pos, v)|;
    if forall k | 0 <= k < n :: pos(p[k]) {
      PackUnpack(pos, v, p);
    }
    var u := Positives(pos, Unpacked(pos, v, p));
    AllPositive(pos, Unpacked(pos, v, p));
    if u == p[..n] {
      forall k | 0 <= k < n ensures pos(p[k]) {
        assert u[k] == p[k];
      }
    }
  }

  lemma {:induction false} PackUnpack<T>(pos: T -> bool, v: seq<T>, p: seq<T>)
    requires |Positives(pos, v)| <= |p| && forall k | 0 <= k < |Positives(pos, v)| :: pos(p[k])
    ensures Positives(pos, Unpacked(pos, v, p)) == p[..|Positives(pos, v)|]
  {
    if v == [] {
    } else {
      var front, last := v[..|v| - 1], v[|v| - 1];
      PackUnpack(pos, front, p);
      var u := Unpacked(pos, v, p);
      assert u[..|u| - 1] == Unpacked(pos, front, p);
    }
  }
}

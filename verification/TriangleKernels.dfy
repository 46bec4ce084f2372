/**
 Triangular kernels: the walk over a packed triangle (s141) and forward substitution (s115).
 */
module TriangleKernels {

  // ----- s141

  /** 0 + 1 + ... + j */
  function Tri(j: nat): nat {
    if j == 0 then 0 else Tri(j - 1) + j
  }

  /** Where element (j, i), i <= j, of the triangle is stored. */
  function Packed(j: nat, i: nat): nat {
    Tri(j) + i
  }

  /** The row whose elements include packed cell `p`. */
  function RowOf(p: nat, from: nat := 0): (j: nat)
    requires Tri(from) <= p
    ensures Tri(j) <= p < Tri(j + 1)
    decreases p - Tri(from)
  {
    if p < Tri(from + 1) then from else RowOf(p, from + 1)
  }

  lemma {:induction false} TriClosed(j: nat)
    ensures 2 * Tri(j) == j * (j + 1) && Tri(j) == j * (j + 1) / 2
  {
    if j == 0 {
    } else {
      TriClosed(j - 1);
      assert j * (j + 1) == (j - 1) * j + 2 * j;
    }
  }

  lemma {:induction false} TriMonotone(j: nat, k: nat)
    requires j <= k
    ensures Tri(j) + (k - j) <= Tri(k)
    decreases k
  {
    if j < k {
      TriMonotone(j, k - 1);
    }
  }

  lemma {:induction false} RowUnique(p: nat, j: nat, k: nat)
    requires Tri(j) <= p < Tri(j + 1) && Tri(k) <= p < Tri(k + 1)
    ensures j == k
  {
    if j < k {
      TriMonotone(j + 1, k);
    } else if k < j {
      TriMonotone(k + 1, j);
    }
  }

  /** The packing is one-to-one onto the cells below N(N+1)/2: cell p is (RowOf(p), p - Tri(RowOf(p))), and no other. */
  lemma PackedBijection(n: nat, p: nat)
    ensures p < Tri(n) <==> exists j: nat, i: nat :: i <= j < n && Packed(j, i) == p
    ensures forall j: nat, i: nat | i <= j && Packed(j, i) == p :: j == RowOf(p) && i == p - Tri(RowOf(p))
  {
    var j0 := RowOf(p);
    assert Tri(j0 + 1) == Tri(j0) + j0 + 1;
    if p < Tri(n) {
      if n <= j0 {
        TriMonotone(n, j0);
      }
      assert Packed(j0, p - Tri(j0)) == p;
    }
    forall j: nat, i: nat | i <= j && Packed(j, i) == p
      ensures j == RowOf(p) && i == p - Tri(RowOf(p)) && (j < n ==> p < Tri(n))
    {
      assert Tri(j + 1) == Tri(j) + j + 1;
      RowUnique(p, j, j0);
      if j < n {
        TriMonotone(j + 1, n);
      }
    }
  }

  /** Whether the walk has reached element (j, i) when it stands before (nextJ, nextI). */
  ghost predicate Walked(j: int, i: int, nextJ: int, nextI: int) {
    i < nextI || (i == nextI && j < nextJ)
  }

  /** What packed cell `p` holds when the walk stands before (nextJ, nextI). */
  ghost function Midway<T>(add: (T, T) -> T, flat: seq<T>, bb: array2<T>, n: nat, p: nat, nextJ: int, nextI: int): T
    requires p < |flat| && n == bb.Length0 == bb.Length1
    reads bb
  {
    var j := RowOf(p);
    assert Tri(j + 1) == Tri(j) + j + 1;
    if j < n && Walked(j, p - Tri(j), nextJ, nextI) then add(flat[p], bb[j, p - Tri(j)]) else flat[p]
  }

  /** The running index k is always the packed position of (j, i), and every cell of the triangle is increased once. */
  method S141<T>(add: (T, T) -> T, flat: array<T>, bb: array2<T>)
    requires bb.Length0 == bb.Length1 && Tri(bb.Length0) <= flat.Length
    modifies flat
    ensures forall j: nat, i: nat | i <= j < bb.Length0 ::
              Packed(j, i) < flat.Length && flat[Packed(j, i)] == add(old(flat[..])[Packed(j, i)], bb[j, i])
    ensures forall p | Tri(bb.Length0) <= p < flat.Length :: flat[p] == old(flat[p])
  {
    var n := bb.Length0;
    ghost var start := flat[..];
    var k;
    for i := 0 to n
      invariant forall p | 0 <= p < flat.Length :: flat[p] == Midway(add, start, bb, n, p, i, i)
    {
      k := (i + 1) * ((i + 1) - 1) / 2 + (i + 1) - 1;
      TriClosed(i);
      for j := i to n
        invariant k == Packed(j, i)
        invariant forall p | 0 <= p < flat.Length :: flat[p] == Midway(add, start, bb, n, p, j, i)
      {
        WalkStep(add, start, bb, n, j, i);
        flat[k] := add(flat[k], bb[j, i]);
        k := k + (j + 1);
      }
      ColumnDone(add, start, bb, n, i);
    }
    WalkDone(add, start, bb, n);
  }

  lemma WalkStep<T>(add: (T, T) -> T, flat: seq<T>, bb: array2<T>, n: nat, j: nat, i: nat)
    requires n == bb.Length0 == bb.Length1 && Tri(n) <= |flat| && i <= j < n
    ensures Packed(j, i) < |flat| && Midway(add, flat, bb, n, Packed(j, i), j, i) == flat[Packed(j, i)]
    ensures Midway(add, flat, bb, n, Packed(j, i), j + 1, i) == add(flat[Packed(j, i)], bb[j, i])
    ensures forall p | 0 <= p < |flat| && p != Packed(j, i) ::
              Midway(add, flat, bb, n, p, j + 1, i) == Midway(add, flat, bb, n, p, j, i)
  {
    assert Tri(j + 1) == Tri(j) + j + 1;
    TriMonotone(j + 1, n);
    RowUnique(Packed(j, i), j, RowOf(Packed(j, i)));
  }

  lemma ColumnDone<T>(add: (T, T) -> T, flat: seq<T>, bb: array2<T>, n: nat, i: nat)
    requires n == bb.Length0 == bb.Length1 && i < n
    ensures forall p | 0 <= p < |flat| :: Midway(add, flat, bb, n, p, n, i) == Midway(add, flat, bb, n, p, i + 1, i + 1)
  {
    forall p | 0 <= p < |flat| ensures Midway(add, flat, bb, n, p, n, i) == Midway(add, flat, bb, n, p, i + 1, i + 1) {
      var j := RowOf(p);
      assert Tri(j + 1) == Tri(j) + j + 1;
    }
  }

  lemma WalkDone<T>(add: (T, T) -> T, flat: seq<T>, bb: array2<T>, n: nat)
    requires n == bb.Length0 == bb.Length1 && Tri(n) <= |flat|
    ensures forall j: nat, i: nat | i <= j < n ::
              Packed(j, i) < |flat| && Midway(add, flat, bb, n, Packed(j, i), n, n) == add(flat[Packed(j, i)], bb[j, i])
    ensures forall p | Tri(n) <= p < |flat| :: Midway(add, flat, bb, n, p, n, n) == flat[p]
  {
    forall j: nat, i: nat | i <= j < n
      ensures Packed(j, i) < |flat| && Midway(add, flat, bb, n, Packed(j, i), n, n) == add(flat[Packed(j, i)], bb[j, i])
    {
      WalkedCell(add, flat, bb, n, j, i);
    }
    forall p | Tri(n) <= p < |flat| ensures Midway(add, flat, bb, n, p, n, n) == flat[p] {
      if RowOf(p) < n {
        TriMonotone(RowOf(p) + 1, n);
      }
    }
  }

  lemma WalkedCell<T>(add: (T, T) -> T, flat: seq<T>, bb: array2<T>, n: nat, j: nat, i: nat)
    requires n == bb.Length0 == bb.Length1 && Tri(n) <= |flat| && i <= j < n
    ensures Packed(j, i) < |flat| && Midway(add, flat, bb, n, Packed(j, i), n, n) == add(flat[Packed(j, i)], bb[j, i])
  {
    assert Tri(j + 1) == Tri(j) + j + 1;
    TriMonotone(j + 1, n);
    RowUnique(Packed(j, i), j, RowOf(Packed(j, i)));
  }

  // ----- s115

  ghost function Times(x: real, y: real): real {
    x * y
  }

  /** Sum over x < k of aa[x][i] * a[x]. */
  ghost function ColumnDot(aa: array2<real>, a: seq<real>, i: int, k: nat): real
    requires k <= |a| && k <= aa.Length0 && 0 <= i < aa.Length1
    reads aa
  {
    if k == 0 then 0.0 else ColumnDot(aa, a, i, k - 1) + Times(aa[k - 1, i], a[k - 1])
  }

  lemma {:induction false} DotAgree(aa: array2<real>, a: seq<real>, b: seq<real>, i: int, k: nat)
    requires k <= |a| && k <= |b| && k <= aa.Length0 && 0 <= i < aa.Length1 && a[..k] == b[..k]
    ensures ColumnDot(aa, a, i, k) == ColumnDot(aa, b, i, k)
  {
    hide Times;
    if k == 0 {
    } else {
      assert a[..k][..k - 1] == a[..k - 1] && b[..k][..k - 1] == b[..k - 1];
      assert a[..k][k - 1] == b[..k][k - 1];
      DotAgree(aa, a, b, i, k - 1);
    }
  }

  /** `a` solves the unit triangular system held in `aa` for the right-hand side `rhs`. */
  ghost predicate Solves(aa: array2<real>, a: seq<real>, rhs: seq<real>)
    requires |rhs| == |a| && aa.Length0 == aa.Length1 <= |a|
    reads aa
  {
    (forall i | 0 <= i < aa.Length0 :: rhs[i] == a[i] + ColumnDot(aa, a, i, i))
    && forall i | aa.Length0 <= i < |a| :: rhs[i] == a[i]
  }

  function Least(i: nat, j: nat): nat {
    if i < j then i else j
  }

  /** Columns below `j` have been eliminated from `a`, which began as `rhs`. */
  ghost predicate Eliminated(aa: array2<real>, rhs: seq<real>, a: seq<real>, j: nat)
    requires |rhs| == |a| && j <= aa.Length0 == aa.Length1 <= |a|
    reads aa
  {
    (forall i | 0 <= i < aa.Length0 :: rhs[i] == a[i] + ColumnDot(aa, a, i, Least(i, j)))
    && forall i | aa.Length0 <= i < |a| :: rhs[i] == a[i]
  }

  lemma EliminateColumn(aa: array2<real>, rhs: seq<real>, before: seq<real>, after: seq<real>, j: nat)
    requires |rhs| == |before| == |after| && j < aa.Length0 == aa.Length1 <= |before|
    requires Eliminated(aa, rhs, before, j)
    requires forall x | 0 <= x < |after| ::
               after[x] == if j < x < aa.Length0 then before[x] - Times(aa[j, x], before[j]) else before[x]
    ensures Eliminated(aa, rhs, after, j + 1)
  {
    hide Times, ColumnDot;
    forall i | 0 <= i < aa.Length0 ensures rhs[i] == after[i] + ColumnDot(aa, after, i, Least(i, j + 1)) {
      assert rhs[i] == before[i] + ColumnDot(aa, before, i, Least(i, j));
      DotAgree(aa, after, before, i, Least(i, j));
      if j < i {
        DotNext(aa, after, i, j);
      }
    }
  }

  lemma DotNext(aa: array2<real>, a: seq<real>, i: int, k: nat)
    requires k < |a| && k < aa.Length0 && 0 <= i < aa.Length1
    ensures ColumnDot(aa, a, i, k + 1) == ColumnDot(aa, a, i, k) + Times(aa[k, i], a[k])
  {
  }

  /** The nest is forward substitution: it replaces the right-hand side in `a` by the solution. */
  method S115(a: array<real>, aa: array2<real>)
    requires aa.Length0 == aa.Length1 <= a.Length
    modifies a
    ensures Solves(aa, a[..], old(a[..]))
  {
    hide Times, ColumnDot, Eliminated;
    var n := aa.Length0;
    ghost var rhs := a[..];
    EliminateStart(aa, rhs);
    for j := 0 to n
      invariant Eliminated(aa, rhs, a[..], j)
    {
      ghost var before := a[..];
      for i := j + 1 to n
        invariant forall x | 0 <= x < a.Length ::
                    a[x] == if j < x < i then before[x] - Times(aa[j, x], before[j]) else before[x]
      {
        TimesIs(aa[j, i], a[j]);
        a[i] := a[i] - aa[j, i] * a[j];
      }
      EliminateColumn(aa, rhs, before, a[..], j);
    }
    EliminateDone(aa, rhs, a[..]);
  }

  lemma TimesIs(x: real, y: real)
    ensures Times(x, y) == x * y
  {
  }

  lemma EliminateStart(aa: array2<real>, rhs: seq<real>)
    requires aa.Length0 == aa.Length1 <= |rhs|
    ensures Eliminated(aa, rhs, rhs, 0)
  {
    forall i | 0 <= i < aa.Length0 ensures ColumnDot(aa, rhs, i, Least(i, 0)) == 0.0 {
      assert Least(i, 0) == 0;
    }
  }

  lemma EliminateDone(aa: array2<real>, rhs: seq<real>, a: seq<real>)
    requires aa.Length0 == aa.Length1 <= |rhs| == |a| && Eliminated(aa, rhs, a, aa.Length0)
    ensures Solves(aa, a, rhs)
  {
  }

  /** A unit triangular system has one solution, so s115 computes the only one. */
  lemma {:induction false} SolutionUnique(aa: array2<real>, a: seq<real>, b: seq<real>, rhs: seq<real>, k: nat)
    requires |a| == |b| == |rhs| && aa.Length0 == aa.Length1 <= |a| && k <= |a|
    requires Solves(aa, a, rhs) && Solves(aa, b, rhs)
    ensures a[..k] == b[..k]
  {
    hide ColumnDot;
    if k == 0 {
    } else {
      SolutionUnique(aa, a, b, rhs, k - 1);
      if k - 1 < aa.Length0 {
        DotAgree(aa, a, b, k - 1, k - 1);
      }
      assert a[..k] == a[..k - 1] + [a[k - 1]] && b[..k] == b[..k - 1] + [b[k - 1]];
    }
  }
}

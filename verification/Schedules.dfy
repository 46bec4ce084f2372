/**
 Loop nests as sequences of statement instances, and the order facts that decide which
 reorderings of them are legal.
 */
module Schedules {
  import opened Common
  import opened Dependence

  /** Instance (j, i) of statement `stmt`; one-dimensional loops leave j at 0. */
  datatype Inst = Inst(stmt: nat, j: int, i: int)

  /** `for (x = lo; x < hi; x++)` around the schedule `inner(x)`. */
  function For<E>(lo: int, hi: int, inner: int -> seq<E>): seq<E>
    decreases hi - lo
  {
    if hi <= lo then [] else For(lo, hi - 1, inner) + inner(hi - 1)
  }

  /** Column i of a statement: j runs. */
  function Column(stmt: nat, jlo: int, jhi: int, i: int): (s: seq<Inst>)
    ensures |s| == if jlo < jhi then jhi - jlo else 0
    ensures forall k | 0 <= k < |s| :: s[k] == Inst(stmt, jlo + k, i)
  {
    seq(if jlo < jhi then jhi - jlo else 0, k => Inst(stmt, jlo + k, i))
  }

  /** Row j of a statement: i runs. */
  function Row(stmt: nat, j: int, ilo: int, ihi: int): (s: seq<Inst>)
    ensures |s| == if ilo < ihi then ihi - ilo else 0
    ensures forall k | 0 <= k < |s| :: s[k] == Inst(stmt, j, ilo + k)
  {
    seq(if ilo < ihi then ihi - ilo else 0, k => Inst(stmt, j, ilo + k))
  }

  lemma RowGrows(front: seq<Inst>, stmt: nat, j: int, ilo: int, i: int)
    requires ilo <= i
    ensures (front + Row(stmt, j, ilo, i)) + [Inst(stmt, j, i)] == front + Row(stmt, j, ilo, i + 1)
  {
  }

  lemma ColumnGrows(front: seq<Inst>, stmt: nat, jlo: int, j: int, i: int)
    requires jlo <= j
    ensures (front + Column(stmt, jlo, j, i)) + [Inst(stmt, j, i)] == front + Column(stmt, jlo, j + 1, i)
  {
  }

  function Columns(stmt: nat, jlo: int, jhi: int): int -> seq<Inst> {
    i => Column(stmt, jlo, jhi, i)
  }

  function Rows(stmt: nat, ilo: int, ihi: int): int -> seq<Inst> {
    j => Row(stmt, j, ilo, ihi)
  }

  lemma ColumnMembers(stmt: nat, jlo: int, jhi: int, i: int, e: Inst)
    ensures e in Column(stmt, jlo, jhi, i) <==> e.stmt == stmt && e.i == i && jlo <= e.j < jhi
  {
    if e.stmt == stmt && e.i == i && jlo <= e.j < jhi {
      assert Column(stmt, jlo, jhi, i)[e.j - jlo] == e;
    }
  }

  lemma RowMembers(stmt: nat, j: int, ilo: int, ihi: int, e: Inst)
    ensures e in Row(stmt, j, ilo, ihi) <==> e.stmt == stmt && e.j == j && ilo <= e.i < ihi
  {
    if e.stmt == stmt && e.j == j && ilo <= e.i < ihi {
      assert Row(stmt, j, ilo, ihi)[e.i - ilo] == e;
    }
  }

  lemma BeforeConcat<E>(s: seq<E>, t: seq<E>, e: E, f: E)
    ensures Before(s + t, e, f) <==> Before(s, e, f) || Before(t, e, f) || (e in s && f in t)
  {
    if Before(s, e, f) {
      var i, j :| 0 <= i < j < |s| && s[i] == e && s[j] == f;
      assert (s + t)[i] == e && (s + t)[j] == f;
    }
    if Before(t, e, f) {
      var i, j :| 0 <= i < j < |t| && t[i] == e && t[j] == f;
      assert (s + t)[|s| + i] == e && (s + t)[|s| + j] == f;
    }
    if e in s && f in t {
      var i :| 0 <= i < |s| && s[i] == e;
      var j :| 0 <= j < |t| && t[j] == f;
      assert (s + t)[i] == e && (s + t)[|s| + j] == f;
    }
    if Before(s + t, e, f) {
      var i, j :| 0 <= i < j < |s + t| && (s + t)[i] == e && (s + t)[j] == f;
      if j < |s| {
        assert s[i] == e && s[j] == f;
      } else if i >= |s| {
        assert t[i - |s|] == e && t[j - |s|] == f;
      } else {
        assert s[i] == e && t[j - |s|] == f;
      }
    }
  }

  /** A loop runs its iterations in order, and each iteration in its own order. */
  lemma {:induction false} ForOrder<E(!new)>(lo: int, hi: int, inner: int -> seq<E>, key: E -> int, e: E, f: E)
    requires forall x, g | g in inner(x) :: key(g) == x
    ensures e in For(lo, hi, inner) <==> lo <= key(e) < hi && e in inner(key(e))
    ensures Before(For(lo, hi, inner), e, f)
            <==> (e in For(lo, hi, inner) && f in For(lo, hi, inner)
                  && (key(e) < key(f) || (key(e) == key(f) && Before(inner(key(e)), e, f))))
    decreases hi - lo
  {
    if lo < hi {
      ForOrder(lo, hi - 1, inner, key, e, f);
      ForOrder(lo, hi - 1, inner, key, f, e);
      BeforeConcat(For(lo, hi - 1, inner), inner(hi - 1), e, f);
    }
  }

  lemma ForParts<E, L, T>(keys: set<L>, code: E -> Body<L, T>, lo: int, hi: int, inner: int -> seq<E>)
    requires lo < hi && FitsAll(keys, code, For(lo, hi, inner))
    ensures FitsAll(keys, code, For(lo, hi - 1, inner)) && FitsAll(keys, code, inner(hi - 1))
  {
  }

  /** The loop with every iteration's inner schedule in strips of `vf` lanes. */
  ghost function ForStrips<E, L, T>(ar: Arith<T>, m: map<L, T>, code: E -> Body<L, T>, lo: int, hi: int,
                                    inner: int -> seq<E>, vf: nat): (r: map<L, T>)
    requires vf > 0 && FitsAll(m.Keys, code, For(lo, hi, inner))
    ensures r.Keys == m.Keys
    decreases hi - lo
  {
    if hi <= lo then m else
    ForParts(m.Keys, code, lo, hi, inner);
    RunStrips(ar, ForStrips(ar, m, code, lo, hi - 1, inner, vf), code, inner(hi - 1), vf)
  }

  /** It leaves what the scalar loop leaves when no inner schedule has a flow dependence shorter than `vf`. */
  lemma {:induction false} ForStripsSafe<E, L, T>(ar: Arith<T>, m: map<L, T>, code: E -> Body<L, T>, lo: int, hi: int,
                                                  inner: int -> seq<E>, vf: nat)
    requires vf > 0 && FitsAll(m.Keys, code, For(lo, hi, inner))
    requires forall x | lo <= x < hi :: NoFlowWithin(code, inner(x), vf)
    ensures ForStrips(ar, m, code, lo, hi, inner, vf) == Run(ar, m, code, For(lo, hi, inner))
    decreases hi - lo
  {
    if hi <= lo {
    } else {
      hide FitsAll, Run, RunStrips, NoFlowWithin;
      ForParts(m.Keys, code, lo, hi, inner);
      ForStripsSafe(ar, m, code, lo, hi - 1, inner, vf);
      Strips(ar, Run(ar, m, code, For(lo, hi - 1, inner)), code, inner(hi - 1), vf);
      RunConcat(ar, m, code, For(lo, hi - 1, inner), inner(hi - 1));
    }
  }

  lemma ColumnOrder(stmt: nat, jlo: int, jhi: int, i: int, e: Inst, f: Inst)
    ensures Before(Column(stmt, jlo, jhi, i), e, f)
            <==> e in Column(stmt, jlo, jhi, i) && f in Column(stmt, jlo, jhi, i) && e.j < f.j
  {
    var s := Column(stmt, jlo, jhi, i);
    ColumnMembers(stmt, jlo, jhi, i, e);
    ColumnMembers(stmt, jlo, jhi, i, f);
    if e in s && f in s && e.j < f.j {
      assert s[e.j - jlo] == e && s[f.j - jlo] == f;
    }
  }

  lemma RowOrder(stmt: nat, j: int, ilo: int, ihi: int, e: Inst, f: Inst)
    ensures Before(Row(stmt, j, ilo, ihi), e, f)
            <==> e in Row(stmt, j, ilo, ihi) && f in Row(stmt, j, ilo, ihi) && e.i < f.i
  {
    var s := Row(stmt, j, ilo, ihi);
    RowMembers(stmt, j, ilo, ihi, e);
    RowMembers(stmt, j, ilo, ihi, f);
    if e in s && f in s && e.i < f.i {
      assert s[e.i - ilo] == e && s[f.i - ilo] == f;
    }
  }

  /** The nest with i outermost: column after column. */
  lemma ColumnsOrder(stmt: nat, jlo: int, jhi: int, ilo: int, ihi: int, e: Inst, f: Inst)
    ensures e in For(ilo, ihi, Columns(stmt, jlo, jhi)) <==> e.stmt == stmt && jlo <= e.j < jhi && ilo <= e.i < ihi
    ensures Before(For(ilo, ihi, Columns(stmt, jlo, jhi)), e, f)
            <==> (e in For(ilo, ihi, Columns(stmt, jlo, jhi)) && f in For(ilo, ihi, Columns(stmt, jlo, jhi))
                  && (e.i < f.i || (e.i == f.i && e.j < f.j)))
  {
    ForOrder(ilo, ihi, Columns(stmt, jlo, jhi), (g: Inst) => g.i, e, f);
    ForOrder(ilo, ihi, Columns(stmt, jlo, jhi), (g: Inst) => g.i, f, e);
    ColumnMembers(stmt, jlo, jhi, e.i, e);
    ColumnMembers(stmt, jlo, jhi, f.i, f);
    ColumnOrder(stmt, jlo, jhi, e.i, e, f);
  }

  /** The nest with j outermost: row after row. */
  lemma RowsOrder(stmt: nat, jlo: int, jhi: int, ilo: int, ihi: int, e: Inst, f: Inst)
    ensures e in For(jlo, jhi, Rows(stmt, ilo, ihi)) <==> e.stmt == stmt && jlo <= e.j < jhi && ilo <= e.i < ihi
    ensures Before(For(jlo, jhi, Rows(stmt, ilo, ihi)), e, f)
            <==> (e in For(jlo, jhi, Rows(stmt, ilo, ihi)) && f in For(jlo, jhi, Rows(stmt, ilo, ihi))
                  && (e.j < f.j || (e.j == f.j && e.i < f.i)))
  {
    ForOrder(jlo, jhi, Rows(stmt, ilo, ihi), (g: Inst) => g.j, e, f);
    ForOrder(jlo, jhi, Rows(stmt, ilo, ihi), (g: Inst) => g.j, f, e);
    RowMembers(stmt, e.j, ilo, ihi, e);
    RowMembers(stmt, f.j, ilo, ihi, f);
    RowOrder(stmt, e.j, ilo, ihi, e, f);
  }

  /** Two schedules that repeat nothing and run the same instances are permutations of each other. */
  lemma Permutation<E(!new)>(s: seq<E>, t: seq<E>)
    requires forall e :: !Before(s, e, e) && !Before(t, e, e) && (e in s <==> e in t)
    ensures multiset(s) == multiset(t)
  {
    forall i, j | 0 <= i < j < |s| ensures s[i] != s[j] {
      if s[i] == s[j] {
        assert Before(s, s[i], s[i]);
      }
    }
    forall i, j | 0 <= i < j < |t| ensures t[i] != t[j] {
      if t[i] == t[j] {
        assert Before(t, t[i], t[i]);
      }
    }
    forall x ensures multiset(s)[x] == multiset(t)[x] {
      DistinctCount(s, x);
      DistinctCount(t, x);
    }
  }

  lemma {:induction false} DistinctCount<E>(s: seq<E>, x: E)
    requires Distinct(s)
    ensures multiset(s)[x] == if x in s then 1 else 0
  {
    if s == [] {
    } else {
      assert s == [s[0]] + s[1..];
      DistinctCount(s[1..], x);
    }
  }
}

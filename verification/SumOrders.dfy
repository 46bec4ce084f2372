/**
 The legal orders of s231 and s233, exactly: the orders that leave the source's matrices on every
 input are those that walk each column downwards, and for the second statement of s233 each row to
 the right.
 */
module SumOrders {
  import opened Common
  import opened Dependence
  import opened Schedules
  import opened NestKernels
  import opened InterchangeKernels

  const INTEGERS: Arith<int> := Arith((x, y) => x + y, (x, y) => x - y, (x, y) => x * y, (x, y) => x)

  /** The cell a sum is stored in, and the two it is made of: the source and the addend. */
  datatype Shape = Shape(dst: Cell, src: Cell, addend: Cell)

  /** In the memory `m`, the instances of `s` store sums into different cells, and addends are never stored to. */
  ghost predicate Sums(m: map<Cell, int>, code: Inst -> Body<Cell, int>, shape: Inst -> Shape, s: seq<Inst>) {
    (forall e | e in s ::
       code(e) == [Sum<int>(shape(e).dst, shape(e).src, shape(e).addend)]
       && shape(e).dst in m && shape(e).src in m && shape(e).addend in m && m[shape(e).addend] == 1)
    && (forall e, f | e in s && f in s :: shape(e).dst != shape(f).addend && (e != f ==> shape(e).dst != shape(f).dst))
    && forall l | l in m :: m[l] >= 0
  }

  lemma SumsFit(m: map<Cell, int>, code: Inst -> Body<Cell, int>, shape: Inst -> Shape, s: seq<Inst>)
    requires Sums(m, code, shape, s)
    ensures FitsAll(m.Keys, code, s)
  {
    hide Sum;
    forall e | e in s ensures Fits(m.Keys, code(e)) {
      SumFacts<int>(shape(e).dst, shape(e).src, shape(e).addend, m.Keys);
    }
  }

  lemma SumsPrefix(m: map<Cell, int>, code: Inst -> Body<Cell, int>, shape: Inst -> Shape, s: seq<Inst>, p: nat)
    requires Sums(m, code, shape, s) && p <= |s|
    ensures Sums(m, code, shape, s[..p])
  {
    hide Sum;
    assert forall e | e in s[..p] :: e in s;
  }

  /** A cell that no instance stores to keeps its value. */
  lemma Untouched(m: map<Cell, int>, code: Inst -> Body<Cell, int>, shape: Inst -> Shape, s: seq<Inst>, l: Cell)
    requires Sums(m, code, shape, s) && l in m && forall e | e in s :: shape(e).dst != l
    ensures FitsAll(m.Keys, code, s) && Run(INTEGERS, m, code, s)[l] == m[l]
  {
    hide Sum, Run, Writes;
    SumsFit(m, code, shape, s);
    forall e | e in s ensures l !in Writes(code(e)) {
      SumFacts<int>(shape(e).dst, shape(e).src, shape(e).addend, m.Keys);
    }
    RunUnwritten(INTEGERS, m, code, s, l);
  }

  /** The instance at p leaves one more than it finds in its source cell. */
  lemma StoresNext(m: map<Cell, int>, code: Inst -> Body<Cell, int>, shape: Inst -> Shape, s: seq<Inst>, p: nat)
    requires Sums(m, code, shape, s) && Distinct(s) && p < |s|
    ensures FitsAll(m.Keys, code, s) && FitsAll(m.Keys, code, s[..p]) && shape(s[p]).dst in m && shape(s[p]).src in m
    ensures Run(INTEGERS, m, code, s)[shape(s[p]).dst] == Run(INTEGERS, m, code, s[..p])[shape(s[p]).src] + 1
  {
    hide Run, Writes, Distinct, Sum;
    var e := s[p];
    var now, to := shape(e), Sum<int>(shape(e).dst, shape(e).src, shape(e).addend);
    SumsFit(m, code, shape, s);
    SumsPrefix(m, code, shape, s, p);
    StoredOnceAt(m, code, shape, s, p);
    RunLastStore(INTEGERS, m, code, s, p, now.dst);
    forall f | f in s[..p] ensures shape(f).dst != now.addend {
      assert f in s && e in s;
    }
    Untouched(m, code, shape, s[..p], now.addend);
    SumFacts<int>(now.dst, now.src, now.addend, m.Keys);
    ExecOne(INTEGERS, Run(INTEGERS, m, code, s[..p]), to);
    SumEval(Run(INTEGERS, m, code, s[..p]), now);
  }

  lemma SumEval(x: map<Cell, int>, to: Shape)
    requires to.src in x && to.addend in x
    ensures Sum<int>(to.dst, to.src, to.addend).dst == to.dst
            && Sum<int>(to.dst, to.src, to.addend).rhs.Reads() <= x.Keys
    ensures Eval(INTEGERS, x, Sum<int>(to.dst, to.src, to.addend).rhs) == x[to.src] + x[to.addend]
  {
    var rhs := Sum<int>(to.dst, to.src, to.addend).rhs;
    assert rhs.left.Reads() == {to.src} && rhs.right.Reads() == {to.addend};
  }

  lemma StoredOnceAt(m: map<Cell, int>, code: Inst -> Body<Cell, int>, shape: Inst -> Shape, s: seq<Inst>, p: nat)
    requires Sums(m, code, shape, s) && Distinct(s) && p < |s|
    ensures forall q | p < q < |s| :: shape(s[p]).dst !in Writes(code(s[q]))
  {
    hide Sum, Writes;
    forall q | p < q < |s| ensures shape(s[p]).dst !in Writes(code(s[q])) {
      assert s[p] in s && s[q] in s;
      SumFacts<int>(shape(s[q]).dst, shape(s[q]).src, shape(s[q]).addend, m.Keys);
    }
  }

  lemma {:induction false} NeverNegative(m: map<Cell, int>, code: Inst -> Body<Cell, int>, shape: Inst -> Shape,
                                         s: seq<Inst>, l: Cell)
    requires Sums(m, code, shape, s) && Distinct(s) && l in m
    ensures FitsAll(m.Keys, code, s) && Run(INTEGERS, m, code, s)[l] >= 0
  {
    hide Sum, Run;
    SumsFit(m, code, shape, s);
    if p :| 0 <= p < |s| && shape(s[p]).dst == l {
      StoresNext(m, code, shape, s, p);
      SumsPrefix(m, code, shape, s, p);
      NeverNegative(m, code, shape, s[..p], shape(s[p]).src);
    } else {
      Untouched(m, code, shape, s, l);
    }
  }

  /** Reading the cell f stores, e ends at 1 when it runs before f, and above 1 when it runs after. */
  lemma EarlyOrLate(m: map<Cell, int>, code: Inst -> Body<Cell, int>, shape: Inst -> Shape, s: seq<Inst>, e: Inst,
                    f: Inst)
    requires Sums(m, code, shape, s) && Distinct(s) && e in s && f in s && e != f
    requires shape(e).src == shape(f).dst && m[shape(f).dst] == 0
    ensures FitsAll(m.Keys, code, s)
    ensures Before(s, e, f) ==> Run(INTEGERS, m, code, s)[shape(e).dst] == 1
    ensures Before(s, f, e) ==> Run(INTEGERS, m, code, s)[shape(e).dst] > 1
  {
    hide Run, Sum;
    SumsFit(m, code, shape, s);
    var p :| 0 <= p < |s| && s[p] == e;
    StoresNext(m, code, shape, s, p);
    SumsPrefix(m, code, shape, s, p);
    if Before(s, e, f) {
      forall x | x in s[..p] ensures shape(x).dst != shape(f).dst {
        assert x in s && x != f;
      }
      Untouched(m, code, shape, s[..p], shape(f).dst);
    }
    if Before(s, f, e) {
      var q :| 0 <= q < p && s[q] == f;
      assert s[..p][q] == f && Distinct(s[..p]);
      StoresNext(m, code, shape, s[..p], q);
      SumsPrefix(m, code, shape, s[..p], q);
      NeverNegative(m, code, shape, s[..p][..q], shape(f).src);
    }
  }

  /** Of a walk that is somewhere taken backwards, some single step is. */
  lemma {:induction false} BackwardStep(t: seq<Inst>, at: int -> Inst, lo: int, hi: int) returns (k: int)
    requires Distinct(t) && lo < hi && Before(t, at(hi), at(lo))
    requires forall x, y | lo <= x < y <= hi :: at(x) != at(y)
    requires forall x | lo <= x <= hi :: at(x) in t
    ensures lo <= k < hi && Before(t, at(k + 1), at(k))
    decreases hi - lo
  {
    if Before(t, at(hi), at(hi - 1)) {
      k := hi - 1;
    } else {
      var p :| 0 <= p < |t| && t[p] == at(hi);
      var q :| 0 <= q < |t| && t[q] == at(hi - 1);
      var r :| p < r < |t| && t[r] == at(lo);
      assert p != q && !(p < q);
      assert Before(t, at(hi - 1), at(lo));
      k := BackwardStep(t, at, lo, hi - 1);
    }
  }

  /** Zeros in aa and bb, ones in the arrays that are added. */
  ghost function Marked(n: nat, ones: Name): map<Cell, int> {
    map a: Name, j, i | a in {AA, BB, CC} && 0 <= j < n && 0 <= i < n :: Cell(a, j, i) := if a == ones then 1 else 0
  }

  // ----- s231

  function DownShape(e: Inst): Shape {
    Shape(Cell(AA, e.j, e.i), Cell(AA, e.j - 1, e.i), Cell(BB, e.j, e.i))
  }

  lemma S231Members(n: int, t: seq<Inst>)
    requires multiset(t) == multiset(S231Order(n))
    ensures forall e :: e in t <==> e.stmt == 0 && 1 <= e.j < n && 0 <= e.i < n
    ensures Distinct(t)
  {
    hide Distinct, Before;
    SameMembers(S231Order(n), t);
    forall e
      ensures (e in S231Order(n) <==> e.stmt == 0 && 1 <= e.j < n && 0 <= e.i < n) && !Before(S231Order(n), e, e)
    {
      ColumnsOrder(0, 1, n, 0, n, e, e);
    }
    NothingTwice(S231Order(n));
    SameDistinct(S231Order(n), t);
  }

  lemma NothingTwice(s: seq<Inst>)
    requires forall e :: !Before(s, e, e)
    ensures Distinct(s)
  {
    forall i, j | 0 <= i < j < |s| ensures s[i] != s[j] {
      assert s[i] == s[j] ==> Before(s, s[i], s[i]);
    }
  }

  lemma S231Sums(n: nat, t: seq<Inst>)
    requires forall e | e in t :: e.stmt == 0 && 1 <= e.j < n && 0 <= e.i < n
    ensures Sums(Marked(n, BB), Down<int>(), DownShape, t)
  {
  }

  ghost predicate S231Agrees(m: map<Cell, int>, n: nat, t: seq<Inst>)
    requires Square(m.Keys, AA, n) && Square(m.Keys, BB, n) && multiset(t) == multiset(S231Order(n))
  {
    S231Fits<int>(n, m.Keys);
    SameMembers(S231Order(n), t);
    Run(INTEGERS, m, Down<int>(), t) == Run(INTEGERS, m, Down<int>(), S231Order(n))
  }

  /** An order of s231's iterations is right on every input exactly when it walks every column downwards. */
  lemma S231OrdersExact(n: nat, t: seq<Inst>)
    requires multiset(t) == multiset(S231Order(n))
    ensures ColumnsAscend(t, 0)
            <==> forall m: map<Cell, int> | Square(m.Keys, AA, n) && Square(m.Keys, BB, n) :: S231Agrees(m, n, t)
  {
    hide Run, S231Order, FitsAll, ColumnsAscend, Marked, Down;
    if ColumnsAscend(t, 0) {
      forall m: map<Cell, int> | Square(m.Keys, AA, n) && Square(m.Keys, BB, n) ensures S231Agrees(m, n, t) {
        S231AnyOrder(INTEGERS, m, n, t);
      }
    } else {
      MarkedSquare(n, BB);
      S231Differs(n, t);
      assert !S231Agrees(Marked(n, BB), n, t);
    }
  }

  lemma MarkedSquare(n: nat, ones: Name)
    ensures Square(Marked(n, ones).Keys, AA, n) && Square(Marked(n, ones).Keys, BB, n)
            && Square(Marked(n, ones).Keys, CC, n)
  {
  }

  lemma S231Differs(n: nat, t: seq<Inst>)
    requires multiset(t) == multiset(S231Order(n)) && !ColumnsAscend(t, 0)
    requires Square(Marked(n, BB).Keys, AA, n) && Square(Marked(n, BB).Keys, BB, n)
    ensures !S231Agrees(Marked(n, BB), n, t)
  {
    hide Run, Marked, Distinct, S231Order, FitsAll, Down, S231Agrees;
    S231Members(n, t);
    var e, f :| Before(t, e, f) && e.stmt == 0 && f.stmt == 0 && e.i == f.i && e.j > f.j;
    assert e in t && f in t;
    var at := (j: int) => Inst(0, j, e.i);
    assert at(e.j) == e && at(f.j) == f;
    var k := BackwardStep(t, at, f.j, e.j);
    S231Step(n, t, k, e.i);
  }

  lemma S231Step(n: nat, t: seq<Inst>, k: int, i: int)
    requires multiset(t) == multiset(S231Order(n)) && Before(t, Inst(0, k + 1, i), Inst(0, k, i))
    requires Square(Marked(n, BB).Keys, AA, n) && Square(Marked(n, BB).Keys, BB, n)
    ensures !S231Agrees(Marked(n, BB), n, t)
  {
    hide Run, Marked, Sums, Distinct, S231Order, FitsAll, Down;
    var s, m, e, f := S231Order(n), Marked(n, BB), Inst(0, k + 1, i), Inst(0, k, i);
    assert e in t && f in t;
    S231Members(n, s);
    S231Members(n, t);
    S231Sums(n, s);
    S231Sums(n, t);
    S231InOrder(n, k, i);
    MarkedZero(n, BB, AA, k, i);
    EarlyOrLate(m, Down<int>(), DownShape, t, e, f);
    EarlyOrLate(m, Down<int>(), DownShape, s, e, f);
  }

  lemma S231InOrder(n: nat, k: int, i: int)
    requires 1 <= k < n - 1 && 0 <= i < n
    ensures Before(S231Order(n), Inst(0, k, i), Inst(0, k + 1, i))
  {
    ColumnsOrder(0, 1, n, 0, n, Inst(0, k, i), Inst(0, k + 1, i));
    ColumnsOrder(0, 1, n, 0, n, Inst(0, k + 1, i), Inst(0, k, i));
  }

  lemma MarkedZero(n: nat, ones: Name, a: Name, j: int, i: int)
    requires a in {AA, BB, CC} && a != ones && 0 <= j < n && 0 <= i < n
    ensures Cell(a, j, i) in Marked(n, ones) && Marked(n, ones)[Cell(a, j, i)] == 0
  {
  }

  // ----- s233

  function DownOrRightShape(e: Inst): Shape {
    if e.stmt == 0 then Shape(Cell(AA, e.j, e.i), Cell(AA, e.j - 1, e.i), Cell(CC, e.j, e.i))
    else Shape(Cell(BB, e.j, e.i), Cell(BB, e.j, e.i - 1), Cell(CC, e.j, e.i))
  }

  lemma S233Members(n: int, t: seq<Inst>)
    requires multiset(t) == multiset(S233Order(n))
    ensures forall e :: e in t <==> e.stmt <= 1 && 1 <= e.j < n && 1 <= e.i < n
    ensures Distinct(t)
  {
    hide Distinct, Before;
    SameMembers(S233Order(n), t);
    forall e
      ensures (e in S233Order(n) <==> e.stmt <= 1 && 1 <= e.j < n && 1 <= e.i < n) && !Before(S233Order(n), e, e)
    {
      S233Facts(n, e, e);
    }
    NothingTwice(S233Order(n));
    SameDistinct(S233Order(n), t);
  }

  lemma S233Sums(n: nat, t: seq<Inst>)
    requires forall e | e in t :: e.stmt <= 1 && 1 <= e.j < n && 1 <= e.i < n
    ensures Sums(Marked(n, CC), DownAndRight<int>(), DownOrRightShape, t)
  {
  }

  ghost predicate S233Agrees(m: map<Cell, int>, n: nat, t: seq<Inst>)
    requires S233Memory(m, n) && multiset(t) == multiset(S233Order(n))
  {
    S233Fits(m, n);
    SameMembers(S233Order(n), t);
    Run(INTEGERS, m, DownAndRight<int>(), t) == Run(INTEGERS, m, DownAndRight<int>(), S233Order(n))
  }

  /**
   An order of s233's iterations is right on every input exactly when it walks every column of aa
   downwards and every row of bb to the right.
   */
  lemma S233OrdersExact(n: nat, t: seq<Inst>)
    requires multiset(t) == multiset(S233Order(n))
    ensures ColumnsAscend(t, 0) && RowsAscend(t, 1)
            <==> forall m: map<Cell, int> | S233Memory(m, n) :: S233Agrees(m, n, t)
  {
    hide Run, S233Order, FitsAll, ColumnsAscend, RowsAscend, Marked, DownAndRight;
    if ColumnsAscend(t, 0) && RowsAscend(t, 1) {
      forall m: map<Cell, int> | S233Memory(m, n) ensures S233Agrees(m, n, t) {
        S233AnyOrder(INTEGERS, m, n, t);
      }
    } else {
      MarkedSquare(n, CC);
      S233Backward(n, t);
      assert !S233Agrees(Marked(n, CC), n, t);
    }
  }

  lemma S233Backward(n: nat, t: seq<Inst>)
    requires multiset(t) == multiset(S233Order(n)) && !(ColumnsAscend(t, 0) && RowsAscend(t, 1))
    requires S233Memory(Marked(n, CC), n)
    ensures !S233Agrees(Marked(n, CC), n, t)
  {
    hide Run, Marked, Sums, Distinct, S233Order, FitsAll, S233Agrees;
    S233Members(n, t);
    if !ColumnsAscend(t, 0) {
      var e, f :| Before(t, e, f) && e.stmt == 0 && f.stmt == 0 && e.i == f.i && e.j > f.j;
      assert e in t && f in t;
      var at := (j: int) => Inst(0, j, e.i);
      assert at(e.j) == e && at(f.j) == f;
      var k := BackwardStep(t, at, f.j, e.j);
      S233Differs(n, t, at(k + 1), at(k));
    } else {
      var e, f :| Before(t, e, f) && e.stmt == 1 && f.stmt == 1 && e.j == f.j && e.i > f.i;
      assert e in t && f in t;
      var at := (i: int) => Inst(1, e.j, i);
      assert at(e.i) == e && at(f.i) == f;
      var k := BackwardStep(t, at, f.i, e.i);
      S233Differs(n, t, at(k + 1), at(k));
    }
  }

  lemma S233Differs(n: nat, t: seq<Inst>, e: Inst, f: Inst)
    requires multiset(t) == multiset(S233Order(n)) && Before(t, e, f) && e.stmt == f.stmt <= 1
    requires if e.stmt == 0 then e.i == f.i && e.j == f.j + 1 else e.j == f.j && e.i == f.i + 1
    requires S233Memory(Marked(n, CC), n)
    ensures !S233Agrees(Marked(n, CC), n, t)
  {
    hide Run, Marked, Sums, Distinct, S233Order, FitsAll, DownAndRight;
    var s, m := S233Order(n), Marked(n, CC);
    assert e in t && f in t;
    S233Members(n, s);
    S233Members(n, t);
    S233Sums(n, s);
    S233Sums(n, t);
    S233Facts(n, f, e);
    MarkedZero(n, CC, if e.stmt == 0 then AA else BB, f.j, f.i);
    EarlyOrLate(m, DownAndRight<int>(), DownOrRightShape, t, e, f);
    EarlyOrLate(m, DownAndRight<int>(), DownOrRightShape, s, e, f);
  }
}

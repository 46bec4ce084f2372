/**
 Loop interchange and loop distribution: the nests s231, s233 and s2275, the whole family of
 orders each of them may run in, and the particular order its comment asks for.
 */
module InterchangeKernels {
  import opened Dependence
  import opened Schedules
  import opened NestKernels

  /** dst = x + y */
  ghost function Sum<T>(dst: Cell, x: Cell, y: Cell): Assign<Cell, T> {
    Assign(dst, Bin(Add, Read(x), Read(y)))
  }

  lemma SumFacts<T>(dst: Cell, x: Cell, y: Cell, keys: set<Cell>)
    ensures var b: Body<Cell, T> := [Sum<T>(dst, x, y)];
            Writes(b) == {dst} && Uses(b) == {x, y} && (Fits(keys, b) <==> {dst, x, y} <= keys)
  {
    var a := Sum<T>(dst, x, y);
    assert a.rhs.left.Reads() == {x} && a.rhs.right.Reads() == {y};
    Single(a, keys);
  }

  /** Storing the sum of two cells is one more instance. */
  lemma SumStep<T>(ar: Arith<T>, m: map<Cell, T>, code: Inst -> Body<Cell, T>, done: seq<Inst>, e: Inst,
                   dst: Cell, x: Cell, y: Cell, now: map<Cell, T>)
    requires Reached(ar, m, code, done, now) && code(e) == [Sum<T>(dst, x, y)]
    requires dst in now && x in now && y in now
    ensures Reached(ar, m, code, done + [e], now[dst := ar.add(now[x], now[y])])
  {
    SumFacts<T>(dst, x, y, m.Keys);
    Advance(ar, m, code, done, e, Sum<T>(dst, x, y));
  }

  /** `rest` holds the cells of `y`, called `name`, and none of `arr`. */
  ghost predicate Beside<T>(rest: map<Cell, T>, arr: Name, name: Name, y: array2<T>)
    reads y
  {
    (forall c | c in rest :: c.arr != arr)
    && forall j, i | 0 <= j < y.Length0 && 0 <= i < y.Length1 ::
         Cell(name, j, i) in rest && rest[Cell(name, j, i)] == y[j, i]
  }

  /** arr[j][i] = arr[pj][pi] + name[j][i], in a memory that is `arr` beside `rest`. */
  lemma SumStepIn<T>(ar: Arith<T>, m: map<Cell, T>, code: Inst -> Body<Cell, T>, done: seq<Inst>, e: Inst,
                     arr: Name, x: array2<T>, pj: int, pi: int, name: Name, y: array2<T>, rest: map<Cell, T>)
    requires Reached(ar, m, code, done, Matrix(arr, x) + rest) && Beside(rest, arr, name, y)
    requires 0 <= e.j < x.Length0 == y.Length0 && 0 <= e.i < x.Length1 == y.Length1
    requires 0 <= pj < x.Length0 && 0 <= pi < x.Length1
    requires code(e) == [Sum<T>(Cell(arr, e.j, e.i), Cell(arr, pj, pi), Cell(name, e.j, e.i))]
    ensures Reached(ar, m, code, done + [e],
                    (Matrix(arr, x) + rest)[Cell(arr, e.j, e.i) := ar.add(x[pj, pi], y[e.j, e.i])])
  {
    hide Reached, Run, FitsAll, Fits, Sum;
    Holds(arr, x, pj, pi, rest);
    Holds(arr, x, e.j, e.i, rest);
    SumStep(ar, m, code, done, e, Cell(arr, e.j, e.i), Cell(arr, pj, pi), Cell(name, e.j, e.i), Matrix(arr, x) + rest);
  }

  // ----- s231

  /** aa[j][i] = aa[j-1][i] + bb[j][i] */
  ghost function Down<T>(): Inst -> Body<Cell, T> {
    (e: Inst) => [Sum<T>(Cell(AA, e.j, e.i), Cell(AA, e.j - 1, e.i), Cell(BB, e.j, e.i))]
  }

  /** The source's nest: i outermost. */
  ghost function S231Order(n: int): seq<Inst> {
    For(0, n, Columns(0, 1, n))
  }

  /** The interchanged nest: j outermost. */
  ghost function S231Interchanged(n: int): seq<Inst> {
    For(1, n, Rows(0, 0, n))
  }

  /** No column is walked backwards. */
  ghost predicate ColumnsAscend(t: seq<Inst>, stmt: nat) {
    forall e, f | Before(t, e, f) && e.stmt == stmt && f.stmt == stmt && e.i == f.i :: e.j <= f.j
  }

  /** No row is walked backwards. */
  ghost predicate RowsAscend(t: seq<Inst>, stmt: nat) {
    forall e, f | Before(t, e, f) && e.stmt == stmt && f.stmt == stmt && e.j == f.j :: e.i <= f.i
  }

  lemma S231Fits<T>(n: int, keys: set<Cell>)
    requires Square(keys, AA, n) && Square(keys, BB, n)
    ensures FitsAll(keys, Down<T>(), S231Order(n))
  {
    forall e | e in S231Order(n) ensures Fits(keys, Down<T>()(e)) {
      ColumnsOrder(0, 1, n, 0, n, e, e);
      SumFacts<T>(Cell(AA, e.j, e.i), Cell(AA, e.j - 1, e.i), Cell(BB, e.j, e.i), keys);
    }
  }

  /** s231 may run in any order that walks each column downwards. */
  lemma S231AnyOrder<T>(ar: Arith<T>, m: map<Cell, T>, n: int, t: seq<Inst>)
    requires Square(m.Keys, AA, n) && Square(m.Keys, BB, n)
    requires multiset(t) == multiset(S231Order(n)) && ColumnsAscend(t, 0)
    ensures FitsAll(m.Keys, Down<T>(), S231Order(n)) && FitsAll(m.Keys, Down<T>(), t)
    ensures Run(ar, m, Down<T>(), t) == Run(ar, m, Down<T>(), S231Order(n))
  {
    S231Fits<T>(n, m.Keys);
    forall e, f | Before(S231Order(n), e, f) && Before(t, f, e) && e != f
      ensures Independent(Down<T>()(e), Down<T>()(f))
    {
      ColumnsOrder(0, 1, n, 0, n, e, f);
      ColumnsOrder(0, 1, n, 0, n, f, e);
      SumFacts<T>(Cell(AA, e.j, e.i), Cell(AA, e.j - 1, e.i), Cell(BB, e.j, e.i), {});
      SumFacts<T>(Cell(AA, f.j, f.i), Cell(AA, f.j - 1, f.i), Cell(BB, f.j, f.i), {});
    }
    Reorder(ar, m, Down<T>(), S231Order(n), t);
  }

  /** The interchanged nest of s231 leaves the same matrix. */
  lemma S231Interchange<T>(ar: Arith<T>, m: map<Cell, T>, n: int)
    requires Square(m.Keys, AA, n) && Square(m.Keys, BB, n)
    ensures FitsAll(m.Keys, Down<T>(), S231Order(n)) && FitsAll(m.Keys, Down<T>(), S231Interchanged(n))
    ensures Run(ar, m, Down<T>(), S231Interchanged(n)) == Run(ar, m, Down<T>(), S231Order(n))
  {
    var s, t := S231Order(n), S231Interchanged(n);
    forall e ensures !Before(s, e, e) && !Before(t, e, e) && (e in s <==> e in t) {
      ColumnsOrder(0, 1, n, 0, n, e, e);
      RowsOrder(0, 1, n, 0, n, e, e);
    }
    Permutation(s, t);
    forall e, f | Before(t, e, f) && e.stmt == 0 && f.stmt == 0 && e.i == f.i ensures e.j <= f.j {
      RowsOrder(0, 1, n, 0, n, e, f);
    }
    S231AnyOrder(ar, m, n, t);
  }

  /** The interchanged loops with every row in strips of any width leave what s231 leaves. */
  lemma S231Strips<T>(ar: Arith<T>, m: map<Cell, T>, n: int, vf: nat)
    requires vf > 0 && Square(m.Keys, AA, n) && Square(m.Keys, BB, n)
    ensures FitsAll(m.Keys, Down<T>(), S231Order(n)) && FitsAll(m.Keys, Down<T>(), S231Interchanged(n))
    ensures ForStrips(ar, m, Down<T>(), 1, n, Rows(0, 0, n), vf) == Run(ar, m, Down<T>(), S231Order(n))
  {
    hide Down, Run, Writes, Uses, FitsAll, S231Order;
    S231Interchange(ar, m, n);
    forall j | 1 <= j < n ensures NoFlowWithin(Down<T>(), Rows(0, 0, n)(j), vf) {
      RowIndependent<T>(n, j, vf);
    }
    ForStripsSafe(ar, m, Down<T>(), 1, n, Rows(0, 0, n), vf);
  }

  /** No cell of a row is made of another one. */
  lemma RowIndependent<T>(n: int, j: int, vf: nat)
    ensures NoFlowWithin(Down<T>(), Row(0, j, 0, n), vf)
  {
    hide Writes, Uses;
    var s := Row(0, j, 0, n);
    forall p, q | 0 <= p < q < |s| && q < p + vf ensures Writes(Down<T>()(s[p])) !! Uses(Down<T>()(s[q])) {
      SumFacts<T>(Cell(AA, j, p), Cell(AA, j - 1, p), Cell(BB, j, p), {});
      SumFacts<T>(Cell(AA, j, q), Cell(AA, j - 1, q), Cell(BB, j, q), {});
    }
  }

  /** The inner loop of s231. */
  method S231Column<T>(ar: Arith<T>, aa: array2<T>, bb: array2<T>, i: nat,
                       ghost m: map<Cell, T>, ghost front: seq<Inst>, ghost rest: map<Cell, T>)
    requires aa != bb && 0 < aa.Length0 == bb.Length0 && i < aa.Length1 == bb.Length1
    requires Beside(rest, AA, BB, bb) && Reached(ar, m, Down<T>(), front, Matrix(AA, aa) + rest)
    modifies aa
    ensures Reached(ar, m, Down<T>(), front + Column(0, 1, aa.Length0, i), Matrix(AA, aa) + rest)
    ensures forall j | 1 <= j < aa.Length0 :: aa[j, i] == ar.add(aa[j - 1, i], bb[j, i])
    ensures forall y, x | 0 <= y < aa.Length0 && 0 <= x < aa.Length1 && (y < 1 || x != i) :: aa[y, x] == old(aa[y, x])
  {
    hide Reached, Run, FitsAll, Column;
    ghost var done := front;
    for j := 1 to aa.Length0
      invariant done == front + Column(0, 1, j, i)
      invariant Reached(ar, m, Down<T>(), done, Matrix(AA, aa) + rest)
      invariant forall k | 1 <= k < j :: aa[k, i] == ar.add(aa[k - 1, i], bb[k, i])
      invariant forall y, x | 0 <= y < aa.Length0 && 0 <= x < aa.Length1 && (y < 1 || y >= j || x != i) ::
                  aa[y, x] == old(aa[y, x])
    {
      SumStepIn(ar, m, Down<T>(), done, Inst(0, j, i), AA, aa, j - 1, i, BB, bb, rest);
      Store(AA, aa, j, i, ar.add(aa[j - 1, i], bb[j, i]), rest);
      ColumnGrows(front, 0, 1, j, i);
      done := done + [Inst(0, j, i)];
    }
  }

  lemma MatrixBeside<T>(name: Name, y: array2<T>, arr: Name)
    requires name != arr
    ensures Beside(Matrix(name, y), arr, name, y)
  {
  }

  lemma ColumnsNext(stmt: nat, jlo: int, jhi: int, ilo: int, i: int)
    requires ilo <= i
    ensures For(ilo, i + 1, Columns(stmt, jlo, jhi)) == For(ilo, i, Columns(stmt, jlo, jhi)) + Column(stmt, jlo, jhi, i)
    ensures For(ilo, ilo, Columns(stmt, jlo, jhi)) == []
  {
  }

  method S231<T>(ar: Arith<T>, aa: array2<T>, bb: array2<T>)
    requires aa != bb && aa.Length0 == aa.Length1 == bb.Length0 == bb.Length1
    modifies aa
    ensures Reached(ar, old(Matrix(AA, aa)) + Matrix(BB, bb), Down<T>(), S231Order(aa.Length0),
                    Matrix(AA, aa) + Matrix(BB, bb))
    ensures forall j, i | 1 <= j < aa.Length0 && 0 <= i < aa.Length0 :: aa[j, i] == ar.add(aa[j - 1, i], bb[j, i])
    ensures forall i | 0 <= i < aa.Length0 :: aa[0, i] == old(aa[0, i])
  {
    hide Reached, Run, FitsAll, For, Columns, Matrix, Beside;
    var n := aa.Length0;
    ghost var m := Matrix(AA, aa) + Matrix(BB, bb);
    ReachedStart(ar, m, Down<T>());
    ColumnsNext(0, 1, n, 0, 0);
    for i := 0 to n
      invariant Reached(ar, m, Down<T>(), For(0, i, Columns(0, 1, n)), Matrix(AA, aa) + Matrix(BB, bb))
      invariant forall j, k | 1 <= j < n && 0 <= k < i :: aa[j, k] == ar.add(aa[j - 1, k], bb[j, k])
      invariant forall k | 0 <= k < n :: aa[0, k] == old(aa[0, k])
    {
      MatrixBeside(BB, bb, AA);
      S231Column(ar, aa, bb, i, m, For(0, i, Columns(0, 1, n)), Matrix(BB, bb));
      ColumnsNext(0, 1, n, 0, i);
    }
  }

  // ----- s233

  /** Statement 0: aa[j][i] = aa[j-1][i] + cc[j][i].  Statement 1: bb[j][i] = bb[j][i-1] + cc[j][i]. */
  ghost function DownAndRight<T>(): Inst -> Body<Cell, T> {
    (e: Inst) => [DownOrRight<T>(e)]
  }

  ghost function DownOrRight<T>(e: Inst): Assign<Cell, T> {
    if e.stmt == 0
    then Sum<T>(Cell(AA, e.j, e.i), Cell(AA, e.j - 1, e.i), Cell(CC, e.j, e.i))
    else Sum<T>(Cell(BB, e.j, e.i), Cell(BB, e.j, e.i - 1), Cell(CC, e.j, e.i))
  }

  lemma DownOrRightFacts<T>(e: Inst, keys: set<Cell>)
    ensures var b := DownAndRight<T>()(e);
            if e.stmt == 0
            then Writes(b) == {Cell(AA, e.j, e.i)} && Uses(b) == {Cell(AA, e.j - 1, e.i), Cell(CC, e.j, e.i)}
            else Writes(b) == {Cell(BB, e.j, e.i)} && Uses(b) == {Cell(BB, e.j, e.i - 1), Cell(CC, e.j, e.i)}
    ensures Fits(keys, DownAndRight<T>()(e)) <==> Writes(DownAndRight<T>()(e)) + Uses(DownAndRight<T>()(e)) <= keys
  {
    if e.stmt == 0 {
      SumFacts<T>(Cell(AA, e.j, e.i), Cell(AA, e.j - 1, e.i), Cell(CC, e.j, e.i), keys);
    } else {
      SumFacts<T>(Cell(BB, e.j, e.i), Cell(BB, e.j, e.i - 1), Cell(CC, e.j, e.i), keys);
    }
  }

  ghost function TwoColumns(n: int): int -> seq<Inst> {
    i => Column(0, 1, n, i) + Column(1, 1, n, i)
  }

  /** The source's nest: column i of aa, then column i of bb. */
  ghost function S233Order(n: int): seq<Inst> {
    For(1, n, TwoColumns(n))
  }

  /** Distributed, with only the aa loops interchanged. */
  ghost function S233Interchanged(n: int): seq<Inst> {
    For(1, n, Rows(0, 1, n)) + For(1, n, Columns(1, 1, n))
  }

  lemma S233Facts(n: int, e: Inst, f: Inst)
    ensures e in S233Order(n) <==> e.stmt <= 1 && 1 <= e.j < n && 1 <= e.i < n
    ensures Before(S233Order(n), e, f)
            <==> e in S233Order(n) && f in S233Order(n)
                 && (e.i < f.i || (e.i == f.i && (e.stmt < f.stmt || (e.stmt == f.stmt && e.j < f.j))))
  {
    forall x, g | g in TwoColumns(n)(x) ensures g.i == x {
      ColumnMembers(0, 1, n, x, g);
      ColumnMembers(1, 1, n, x, g);
    }
    var key := (g: Inst) => g.i;
    ForOrder(1, n, TwoColumns(n), key, e, f);
    ForOrder(1, n, TwoColumns(n), key, f, e);
    forall g | g in [e, f] ensures g in TwoColumns(n)(g.i) <==> g.stmt <= 1 && 1 <= g.j < n {
      ColumnMembers(0, 1, n, g.i, g);
      ColumnMembers(1, 1, n, g.i, g);
    }
    assert e in [e, f] && f in [e, f];
    BeforeConcat(Column(0, 1, n, e.i), Column(1, 1, n, e.i), e, f);
    ColumnOrder(0, 1, n, e.i, e, f);
    ColumnOrder(1, 1, n, e.i, e, f);
    ColumnMembers(0, 1, n, e.i, e);
    ColumnMembers(1, 1, n, e.i, f);
    ColumnMembers(0, 1, n, e.i, f);
    ColumnMembers(1, 1, n, e.i, e);
  }

  ghost predicate S233Memory<T>(m: map<Cell, T>, n: int) {
    Square(m.Keys, AA, n) && Square(m.Keys, BB, n) && Square(m.Keys, CC, n)
  }

  lemma S233Fits<T>(m: map<Cell, T>, n: int)
    requires S233Memory(m, n)
    ensures FitsAll(m.Keys, DownAndRight<T>(), S233Order(n))
  {
    forall e | e in S233Order(n) ensures Fits(m.Keys, DownAndRight<T>()(e)) {
      S233Facts(n, e, e);
      DownOrRightFacts<T>(e, m.Keys);
    }
  }

  /** s233 may run in any order that walks aa's columns down and bb's rows to the right. */
  lemma S233AnyOrder<T>(ar: Arith<T>, m: map<Cell, T>, n: int, t: seq<Inst>)
    requires S233Memory(m, n) && multiset(t) == multiset(S233Order(n)) && ColumnsAscend(t, 0) && RowsAscend(t, 1)
    ensures FitsAll(m.Keys, DownAndRight<T>(), S233Order(n)) && FitsAll(m.Keys, DownAndRight<T>(), t)
    ensures Run(ar, m, DownAndRight<T>(), t) == Run(ar, m, DownAndRight<T>(), S233Order(n))
  {
    var code := DownAndRight<T>();
    S233Fits(m, n);
    forall e, f | Before(S233Order(n), e, f) && Before(t, f, e) && e != f ensures Independent(code(e), code(f)) {
      S233Facts(n, e, f);
      S233Facts(n, f, e);
      DownOrRightFacts<T>(e, {});
      DownOrRightFacts<T>(f, {});
    }
    Reorder(ar, m, code, S233Order(n), t);
  }

  lemma S233InterchangedFacts(n: int, e: Inst, f: Inst)
    ensures e in S233Interchanged(n) <==> e.stmt <= 1 && 1 <= e.j < n && 1 <= e.i < n
    ensures Before(S233Interchanged(n), e, f)
            <==> e in S233Interchanged(n) && f in S233Interchanged(n)
                 && (e.stmt < f.stmt
                     || (e.stmt == f.stmt == 0 && (e.j < f.j || (e.j == f.j && e.i < f.i)))
                     || (e.stmt == f.stmt == 1 && (e.i < f.i || (e.i == f.i && e.j < f.j))))
  {
    BeforeConcat(For(1, n, Rows(0, 1, n)), For(1, n, Columns(1, 1, n)), e, f);
    RowsOrder(0, 1, n, 1, n, e, f);
    RowsOrder(0, 1, n, 1, n, f, e);
    ColumnsOrder(1, 1, n, 1, n, e, f);
    ColumnsOrder(1, 1, n, 1, n, f, e);
  }

  /** Distributing s233 and interchanging its aa nest leaves the same matrices. */
  lemma S233Interchange<T>(ar: Arith<T>, m: map<Cell, T>, n: int)
    requires S233Memory(m, n)
    ensures FitsAll(m.Keys, DownAndRight<T>(), S233Order(n)) && FitsAll(m.Keys, DownAndRight<T>(), S233Interchanged(n))
    ensures Run(ar, m, DownAndRight<T>(), S233Interchanged(n)) == Run(ar, m, DownAndRight<T>(), S233Order(n))
  {
    var s, t := S233Order(n), S233Interchanged(n);
    forall e ensures !Before(s, e, e) && !Before(t, e, e) && (e in s <==> e in t) {
      S233Facts(n, e, e);
      S233InterchangedFacts(n, e, e);
    }
    Permutation(s, t);
    forall e, f | Before(t, e, f) && e.stmt == 0 && f.stmt == 0 && e.i == f.i ensures e.j <= f.j {
      S233InterchangedFacts(n, e, f);
    }
    forall e, f | Before(t, e, f) && e.stmt == 1 && f.stmt == 1 && e.j == f.j ensures e.i <= f.i {
      S233InterchangedFacts(n, e, f);
    }
    S233AnyOrder(ar, m, n, t);
  }

  /** The first inner loop of s233. */
  method S233Down<T>(ar: Arith<T>, aa: array2<T>, cc: array2<T>, i: nat,
                     ghost m: map<Cell, T>, ghost front: seq<Inst>, ghost rest: map<Cell, T>)
    requires aa != cc && 1 < aa.Length0 == cc.Length0 && i < aa.Length1 == cc.Length1
    requires Beside(rest, AA, CC, cc) && Reached(ar, m, DownAndRight<T>(), front, Matrix(AA, aa) + rest)
    modifies aa
    ensures Reached(ar, m, DownAndRight<T>(), front + Column(0, 1, aa.Length0, i), Matrix(AA, aa) + rest)
    ensures forall j | 1 <= j < aa.Length0 :: aa[j, i] == ar.add(aa[j - 1, i], cc[j, i])
    ensures forall y, x | 0 <= y < aa.Length0 && 0 <= x < aa.Length1 && (y < 1 || x != i) :: aa[y, x] == old(aa[y, x])
  {
    hide Reached, Run, FitsAll, Column;
    ghost var done := front;
    for j := 1 to aa.Length0
      invariant done == front + Column(0, 1, j, i)
      invariant Reached(ar, m, DownAndRight<T>(), done, Matrix(AA, aa) + rest)
      invariant forall k | 1 <= k < j :: aa[k, i] == ar.add(aa[k - 1, i], cc[k, i])
      invariant forall y, x | 0 <= y < aa.Length0 && 0 <= x < aa.Length1 && (y < 1 || y >= j || x != i) ::
                  aa[y, x] == old(aa[y, x])
    {
      SumStepIn(ar, m, DownAndRight<T>(), done, Inst(0, j, i), AA, aa, j - 1, i, CC, cc, rest);
      Store(AA, aa, j, i, ar.add(aa[j - 1, i], cc[j, i]), rest);
      ColumnGrows(front, 0, 1, j, i);
      done := done + [Inst(0, j, i)];
    }
  }

  /** The second inner loop of s233. */
  method S233Right<T>(ar: Arith<T>, bb: array2<T>, cc: array2<T>, i: nat,
                      ghost m: map<Cell, T>, ghost front: seq<Inst>, ghost rest: map<Cell, T>)
    requires bb != cc && 1 < bb.Length0 == cc.Length0 && 1 <= i < bb.Length1 == cc.Length1
    requires Beside(rest, BB, CC, cc) && Reached(ar, m, DownAndRight<T>(), front, Matrix(BB, bb) + rest)
    modifies bb
    ensures Reached(ar, m, DownAndRight<T>(), front + Column(1, 1, bb.Length0, i), Matrix(BB, bb) + rest)
    ensures forall j | 1 <= j < bb.Length0 :: bb[j, i] == ar.add(bb[j, i - 1], cc[j, i])
    ensures forall y, x | 0 <= y < bb.Length0 && 0 <= x < bb.Length1 && (y < 1 || x != i) :: bb[y, x] == old(bb[y, x])
  {
    hide Reached, Run, FitsAll, Column;
    ghost var done := front;
    for j := 1 to bb.Length0
      invariant done == front + Column(1, 1, j, i)
      invariant Reached(ar, m, DownAndRight<T>(), done, Matrix(BB, bb) + rest)
      invariant forall k | 1 <= k < j :: bb[k, i] == ar.add(bb[k, i - 1], cc[k, i])
      invariant forall y, x | 0 <= y < bb.Length0 && 0 <= x < bb.Length1 && (y < 1 || y >= j || x != i) ::
                  bb[y, x] == old(bb[y, x])
    {
      SumStepIn(ar, m, DownAndRight<T>(), done, Inst(1, j, i), BB, bb, j, i - 1, CC, cc, rest);
      Store(BB, bb, j, i, ar.add(bb[j, i - 1], cc[j, i]), rest);
      ColumnGrows(front, 1, 1, j, i);
      done := done + [Inst(1, j, i)];
    }
  }

  lemma Swap<T>(x: map<Cell, T>, y: map<Cell, T>, z: map<Cell, T>)
    requires x.Keys !! y.Keys
    ensures x + (y + z) == y + (x + z)
  {
  }

  lemma TwoColumnsNext(n: int, i: int)
    requires 1 <= i < n
    ensures For(1, i + 1, TwoColumns(n)) == (For(1, i, TwoColumns(n)) + Column(0, 1, n, i)) + Column(1, 1, n, i)
  {
    assert TwoColumns(n)(i) == Column(0, 1, n, i) + Column(1, 1, n, i);
  }

  lemma StartS233<T>(ar: Arith<T>, m: map<Cell, T>, n: int)
    requires n >= 0
    ensures Reached(ar, m, DownAndRight<T>(), For(1, 1, TwoColumns(n)), m)
    ensures n <= 1 ==> S233Order(n) == For(1, 1, TwoColumns(n))
    ensures S233Order(n) == For(1, n, TwoColumns(n))
  {
  }

  lemma MatricesBeside<T>(aa: array2<T>, bb: array2<T>, cc: array2<T>)
    ensures Beside(Matrix(BB, bb) + Matrix(CC, cc), AA, CC, cc) && Beside(Matrix(AA, aa) + Matrix(CC, cc), BB, CC, cc)
    ensures Matrix(AA, aa).Keys !! Matrix(BB, bb).Keys
  {
  }

  method S233<T>(ar: Arith<T>, aa: array2<T>, bb: array2<T>, cc: array2<T>)
    requires aa != bb && aa != cc && bb != cc
    requires aa.Length0 == aa.Length1 == bb.Length0 == bb.Length1 == cc.Length0 == cc.Length1
    modifies aa, bb
    ensures Reached(ar, old(Matrix(AA, aa)) + (old(Matrix(BB, bb)) + Matrix(CC, cc)), DownAndRight<T>(),
                    S233Order(aa.Length0), Matrix(AA, aa) + (Matrix(BB, bb) + Matrix(CC, cc)))
    ensures forall j, i | 1 <= j < aa.Length0 && 1 <= i < aa.Length0 ::
              aa[j, i] == ar.add(aa[j - 1, i], cc[j, i]) && bb[j, i] == ar.add(bb[j, i - 1], cc[j, i])
    ensures forall j, i | 0 <= j < aa.Length0 && 0 <= i < aa.Length0 && (j == 0 || i == 0) ::
              aa[j, i] == old(aa[j, i]) && bb[j, i] == old(bb[j, i])
  {
    hide *;
    var n := aa.Length0;
    ghost var m := Matrix(AA, aa) + (Matrix(BB, bb) + Matrix(CC, cc));
    StartS233(ar, m, n);
    if 1 < n {
      for i := 1 to n
        invariant Reached(ar, m, DownAndRight<T>(), For(1, i, TwoColumns(n)),
                          Matrix(AA, aa) + (Matrix(BB, bb) + Matrix(CC, cc)))
        invariant forall y, x | 1 <= y < n && 1 <= x < i ::
                    aa[y, x] == ar.add(aa[y - 1, x], cc[y, x]) && bb[y, x] == ar.add(bb[y, x - 1], cc[y, x])
        invariant forall y, x | 0 <= y < n && 0 <= x < n && (y == 0 || x == 0) ::
                    aa[y, x] == old(aa[y, x]) && bb[y, x] == old(bb[y, x])
      {
        ghost var front := For(1, i, TwoColumns(n));
        MatricesBeside(aa, bb, cc);
        S233Down(ar, aa, cc, i, m, front, Matrix(BB, bb) + Matrix(CC, cc));
        MatricesBeside(aa, bb, cc);
        Swap(Matrix(AA, aa), Matrix(BB, bb), Matrix(CC, cc));
        S233Right(ar, bb, cc, i, m, front + Column(0, 1, n, i), Matrix(AA, aa) + Matrix(CC, cc));
        MatricesBeside(aa, bb, cc);
        Swap(Matrix(AA, aa), Matrix(BB, bb), Matrix(CC, cc));
        TwoColumnsNext(n, i);
      }
    }
  }

  // ----- s2275

  /** Statement 0: aa[j][i] = aa[j][i] + bb[j][i] * cc[j][i].  Statement 1: a[i] = b[i] + c[i] * d[i]. */
  ghost function Distributable<T>(): Inst -> Body<Cell, T> {
    (e: Inst) => [Assign(DistributableDst(e), DistributableRhs<T>(e))]
  }

  ghost function DistributableDst(e: Inst): Cell {
    if e.stmt == 0 then Cell(AA, e.j, e.i) else Cell(VA, 0, e.i)
  }

  ghost function DistributableRhs<T>(e: Inst): Expr<Cell, T> {
    if e.stmt == 0
    then Bin(Add, Read(Cell(AA, e.j, e.i)), Bin(Mul, Read(Cell(BB, e.j, e.i)), Read(Cell(CC, e.j, e.i))))
    else Bin(Add, Read(Cell(VB, 0, e.i)), Bin(Mul, Read(Cell(VC, 0, e.i)), Read(Cell(VD, 0, e.i))))
  }

  lemma DistributableFacts<T>(e: Inst, keys: set<Cell>)
    ensures Writes(Distributable<T>()(e)) == {DistributableDst(e)}
    ensures Uses(Distributable<T>()(e))
            == if e.stmt == 0 then {Cell(AA, e.j, e.i), Cell(BB, e.j, e.i), Cell(CC, e.j, e.i)}
               else {Cell(VB, 0, e.i), Cell(VC, 0, e.i), Cell(VD, 0, e.i)}
    ensures Fits(keys, Distributable<T>()(e)) <==> DistributableDst(e) in keys && Uses(Distributable<T>()(e)) <= keys
  {
    var rhs := DistributableRhs<T>(e);
    assert rhs.right.Reads() == rhs.right.left.Reads() + rhs.right.right.Reads();
    assert rhs.left.Reads() == {rhs.left.loc} && rhs.right.left.Reads() == {rhs.right.left.loc};
    assert rhs.right.right.Reads() == {rhs.right.right.loc};
    Single(Assign(DistributableDst(e), rhs), keys);
  }

  ghost function ColumnThenVector(n: int): int -> seq<Inst> {
    i => Column(0, 0, n, i) + [Inst(1, 0, i)]
  }

  ghost function S2275Order(n: int): seq<Inst> {
    For(0, n, ColumnThenVector(n))
  }

  /** Distributed, and the matrix nest interchanged. */
  ghost function S2275Interchanged(n: int): seq<Inst> {
    For(0, n, Rows(0, 0, n)) + Row(1, 0, 0, n)
  }

  lemma S2275Facts(n: int, e: Inst, f: Inst)
    ensures e in S2275Order(n) <==> 0 <= e.i < n && ((e.stmt == 0 && 0 <= e.j < n) || (e.stmt == 1 && e.j == 0))
    ensures !Before(S2275Order(n), e, e)
  {
    forall x, g | g in ColumnThenVector(n)(x) ensures g.i == x {
      ColumnMembers(0, 0, n, x, g);
    }
    ForOrder(0, n, ColumnThenVector(n), (g: Inst) => g.i, e, e);
    ColumnMembers(0, 0, n, e.i, e);
    BeforeConcat(Column(0, 0, n, e.i), [Inst(1, 0, e.i)], e, e);
    ColumnOrder(0, 0, n, e.i, e, e);
  }

  /** Three matrices and four vectors of size n. */
  ghost predicate S2275Memory<T>(m: map<Cell, T>, n: int) {
    Square(m.Keys, AA, n) && Square(m.Keys, BB, n) && Square(m.Keys, CC, n)
    && forall i | 0 <= i < n :: {Cell(VA, 0, i), Cell(VB, 0, i), Cell(VC, 0, i), Cell(VD, 0, i)} <= m.Keys
  }

  lemma S2275Fits<T>(m: map<Cell, T>, n: int)
    requires S2275Memory(m, n)
    ensures FitsAll(m.Keys, Distributable<T>(), S2275Order(n))
  {
    forall e | e in S2275Order(n) ensures Fits(m.Keys, Distributable<T>()(e)) {
      S2275Facts(n, e, e);
      DistributableFacts<T>(e, m.Keys);
      assert e.stmt == 1 ==> {Cell(VA, 0, e.i), Cell(VB, 0, e.i), Cell(VC, 0, e.i), Cell(VD, 0, e.i)} <= m.Keys;
    }
  }

  /** No instance of s2275 depends on another: every permutation leaves the same arrays. */
  lemma S2275AnyOrder<T>(ar: Arith<T>, m: map<Cell, T>, n: int, t: seq<Inst>)
    requires S2275Memory(m, n) && multiset(t) == multiset(S2275Order(n))
    ensures FitsAll(m.Keys, Distributable<T>(), S2275Order(n)) && FitsAll(m.Keys, Distributable<T>(), t)
    ensures Run(ar, m, Distributable<T>(), t) == Run(ar, m, Distributable<T>(), S2275Order(n))
  {
    S2275Fits(m, n);
    hide FitsAll;
    forall e, f | Before(S2275Order(n), e, f) && Before(t, f, e) && e != f
      ensures Independent(Distributable<T>()(e), Distributable<T>()(f))
    {
      assert e in S2275Order(n) && f in S2275Order(n);
      S2275Facts(n, e, f);
      S2275Facts(n, f, e);
      DistributableFacts<T>(e, {});
      DistributableFacts<T>(f, {});
    }
    Reorder(ar, m, Distributable<T>(), S2275Order(n), t);
  }

  lemma S2275Interchange<T>(ar: Arith<T>, m: map<Cell, T>, n: int)
    requires S2275Memory(m, n)
    ensures FitsAll(m.Keys, Distributable<T>(), S2275Order(n))
            && FitsAll(m.Keys, Distributable<T>(), S2275Interchanged(n))
    ensures Run(ar, m, Distributable<T>(), S2275Interchanged(n)) == Run(ar, m, Distributable<T>(), S2275Order(n))
  {
    var s, t := S2275Order(n), S2275Interchanged(n);
    forall e ensures !Before(s, e, e) && !Before(t, e, e) && (e in s <==> e in t) {
      S2275Facts(n, e, e);
      BeforeConcat(For(0, n, Rows(0, 0, n)), Row(1, 0, 0, n), e, e);
      RowsOrder(0, 0, n, 0, n, e, e);
      RowOrder(1, 0, 0, n, e, e);
      RowMembers(1, 0, 0, n, e);
    }
    Permutation(s, t);
    S2275AnyOrder(ar, m, n, t);
  }

  /** x + y * z of three cells, appended as one more instance. */
  lemma DistributableStep<T>(ar: Arith<T>, m: map<Cell, T>, done: seq<Inst>, e: Inst, now: map<Cell, T>, x: T, y: T,
                             z: T)
    requires Reached(ar, m, Distributable<T>(), done, now) && DistributableDst(e) in now
    requires var c := DistributableRhs<T>(e);
             Uses(Distributable<T>()(e)) <= now.Keys && c.left.loc in now && c.right.left.loc in now
               && c.right.right.loc in now
             && now[c.left.loc] == x && now[c.right.left.loc] == y && now[c.right.right.loc] == z
    ensures Reached(ar, m, Distributable<T>(), done + [e], now[DistributableDst(e) := ar.add(x, ar.mul(y, z))])
  {
    DistributableFacts<T>(e, m.Keys);
    var rhs := DistributableRhs<T>(e);
    Advance(ar, m, Distributable<T>(), done, e, Assign(DistributableDst(e), rhs));
    assert Eval(ar, now, rhs.right) == ar.mul(y, z);
    assert Eval(ar, now, rhs.left) == x;
  }

  /** The inner loop of s2275. */
  method S2275Column<T>(ar: Arith<T>, aa: array2<T>, bb: array2<T>, cc: array2<T>, i: nat,
                        ghost m: map<Cell, T>, ghost front: seq<Inst>, ghost rest: map<Cell, T>)
    requires aa != bb && aa != cc && aa.Length0 == bb.Length0 == cc.Length0
    requires i < aa.Length1 == bb.Length1 == cc.Length1
    requires Beside(rest, AA, BB, bb) && Beside(rest, AA, CC, cc)
    requires Reached(ar, m, Distributable<T>(), front, Matrix(AA, aa) + rest)
    modifies aa
    ensures Reached(ar, m, Distributable<T>(), front + Column(0, 0, aa.Length0, i), Matrix(AA, aa) + rest)
    ensures forall j | 0 <= j < aa.Length0 :: aa[j, i] == ar.add(old(aa[j, i]), ar.mul(bb[j, i], cc[j, i]))
    ensures forall y, x | 0 <= y < aa.Length0 && 0 <= x < aa.Length1 && x != i :: aa[y, x] == old(aa[y, x])
  {
    hide Reached, Run, FitsAll, Column, Distributable;
    ghost var done := front;
    assert front + Column(0, 0, 0, i) == front;
    for j := 0 to aa.Length0
      invariant done == front + Column(0, 0, j, i)
      invariant Reached(ar, m, Distributable<T>(), done, Matrix(AA, aa) + rest)
      invariant forall k | 0 <= k < j :: aa[k, i] == ar.add(old(aa[k, i]), ar.mul(bb[k, i], cc[k, i]))
      invariant forall y, x | 0 <= y < aa.Length0 && 0 <= x < aa.Length1 && (y >= j || x != i) ::
                  aa[y, x] == old(aa[y, x])
    {
      Holds(AA, aa, j, i, rest);
      DistributableFacts<T>(Inst(0, j, i), {});
      DistributableStep(ar, m, done, Inst(0, j, i), Matrix(AA, aa) + rest, aa[j, i], bb[j, i], cc[j, i]);
      Store(AA, aa, j, i, ar.add(aa[j, i], ar.mul(bb[j, i], cc[j, i])), rest);
      ColumnGrows(front, 0, 0, j, i);
      done := done + [Inst(0, j, i)];
    }
  }

  /** The second statement of s2275. */
  method S2275Vector<T>(ar: Arith<T>, a: array<T>, b: array<T>, c: array<T>, d: array<T>, i: nat,
                        ghost m: map<Cell, T>, ghost front: seq<Inst>, ghost matrix: map<Cell, T>,
                        ghost rest: map<Cell, T>)
    requires a != b && a != c && a != d && i < a.Length == b.Length == c.Length == d.Length
    requires VectorsIn(rest, b, c, d) && (forall l | l in matrix + rest :: l.arr != VA)
    requires forall l | l in matrix :: l.arr == AA
    requires Reached(ar, m, Distributable<T>(), front, matrix + (Vector(VA, a) + rest))
    modifies a
    ensures Reached(ar, m, Distributable<T>(), front + [Inst(1, 0, i)], matrix + (Vector(VA, a) + rest))
    ensures a[i] == ar.add(b[i], ar.mul(c[i], d[i])) && forall k | 0 <= k < a.Length && k != i :: a[k] == old(a[k])
  {
    hide Reached, Run, FitsAll, Distributable;
    ghost var now, vector := matrix + (Vector(VA, a) + rest), Vector(VA, a);
    DistributableFacts<T>(Inst(1, 0, i), {});
    DistributableStep(ar, m, front, Inst(1, 0, i), now, b[i], c[i], d[i]);
    a[i] := ar.add(b[i], ar.mul(c[i], d[i]));
    assert Vector(VA, a) == vector[Cell(VA, 0, i) := a[i]];
    UpdateMiddle(matrix, vector, rest, Cell(VA, 0, i), a[i]);
  }

  lemma UpdateMiddle<T>(front: map<Cell, T>, middle: map<Cell, T>, back: map<Cell, T>, l: Cell, v: T)
    requires l !in back
    ensures front + (middle[l := v] + back) == (front + (middle + back))[l := v]
  {
  }

  ghost predicate VectorsIn<T>(rest: map<Cell, T>, b: array<T>, c: array<T>, d: array<T>)
    reads b, c, d
  {
    (forall i | 0 <= i < b.Length :: Cell(VB, 0, i) in rest && rest[Cell(VB, 0, i)] == b[i])
    && (forall i | 0 <= i < c.Length :: Cell(VC, 0, i) in rest && rest[Cell(VC, 0, i)] == c[i])
    && (forall i | 0 <= i < d.Length :: Cell(VD, 0, i) in rest && rest[Cell(VD, 0, i)] == d[i])
  }

  /** What s2275 only reads. */
  ghost function S2275Inputs<T>(bb: array2<T>, cc: array2<T>, b: array<T>, c: array<T>, d: array<T>): map<Cell, T>
    reads bb, cc, b, c, d
  {
    (Matrix(BB, bb) + Matrix(CC, cc)) + (Vector(VB, b) + Vector(VC, c) + Vector(VD, d))
  }

  lemma S2275InputsHold<T>(aa: array2<T>, a: array<T>, bb: array2<T>, cc: array2<T>, b: array<T>, c: array<T>,
                           d: array<T>)
    ensures var rest := S2275Inputs(bb, cc, b, c, d);
            VectorsIn(rest, b, c, d)
            && Beside(Vector(VA, a) + rest, AA, BB, bb) && Beside(Vector(VA, a) + rest, AA, CC, cc)
            && (forall l | l in Matrix(AA, aa) + rest :: l.arr != VA) && (forall l | l in Matrix(AA, aa) :: l.arr == AA)
  {
    var matrices, vectors := Matrix(BB, bb) + Matrix(CC, cc), Vector(VB, b) + Vector(VC, c) + Vector(VD, d);
    hide Matrix, Vector, Beside, VectorsIn;
    MatricesFacts(bb, cc);
    VectorsFacts(b, c, d);
    VectorNames(VA, a);
    MatrixNames(AA, aa);
    BesideAdd(Vector(VA, a), matrices, vectors, AA, BB, bb);
    BesideAdd(Vector(VA, a), matrices, vectors, AA, CC, cc);
    VectorsAdd(matrices, vectors, b, c, d);
  }

  lemma BesideAdd<T>(front: map<Cell, T>, m: map<Cell, T>, back: map<Cell, T>, arr: Name, name: Name, y: array2<T>)
    requires Beside(m, arr, name, y)
    requires (forall l | l in front :: l.arr != arr) && forall l | l in back :: l.arr != arr && l.arr != name
    ensures Beside(front + (m + back), arr, name, y)
  {
  }

  lemma VectorsAdd<T>(m: map<Cell, T>, v: map<Cell, T>, b: array<T>, c: array<T>, d: array<T>)
    requires VectorsIn(v, b, c, d)
    ensures VectorsIn(m + v, b, c, d)
  {
  }

  lemma MatricesFacts<T>(bb: array2<T>, cc: array2<T>)
    ensures var m := Matrix(BB, bb) + Matrix(CC, cc);
            Beside(m, AA, BB, bb) && Beside(m, AA, CC, cc) && forall l | l in m :: l.arr in {BB, CC}
  {
  }

  lemma VectorsFacts<T>(b: array<T>, c: array<T>, d: array<T>)
    ensures var v := Vector(VB, b) + Vector(VC, c) + Vector(VD, d);
            VectorsIn(v, b, c, d) && forall l | l in v :: l.arr in {VB, VC, VD}
  {
  }

  lemma VectorNames<T>(arr: Name, x: array<T>)
    ensures forall l | l in Vector(arr, x) :: l.arr == arr
  {
  }

  lemma MatrixNames<T>(arr: Name, x: array2<T>)
    ensures forall l | l in Matrix(arr, x) :: l.arr == arr
  {
  }

  lemma ColumnThenVectorNext(n: int, i: int)
    requires 0 <= i
    ensures For(0, i + 1, ColumnThenVector(n))
            == (For(0, i, ColumnThenVector(n)) + Column(0, 0, n, i)) + [Inst(1, 0, i)]
    ensures For(0, 0, ColumnThenVector(n)) == []
  {
  }

  method S2275<T>(ar: Arith<T>, aa: array2<T>, bb: array2<T>, cc: array2<T>,
                  a: array<T>, b: array<T>, c: array<T>, d: array<T>)
    requires aa != bb && aa != cc && a != b && a != c && a != d
    requires aa.Length0 == aa.Length1 == bb.Length0 == bb.Length1 == cc.Length0 == cc.Length1
    requires aa.Length0 <= a.Length == b.Length == c.Length == d.Length
    modifies aa, a
    ensures Reached(ar, old(Matrix(AA, aa)) + (old(Vector(VA, a)) + S2275Inputs(bb, cc, b, c, d)), Distributable<T>(),
                    S2275Order(aa.Length0), Matrix(AA, aa) + (Vector(VA, a) + S2275Inputs(bb, cc, b, c, d)))
    ensures forall j, i | 0 <= j < aa.Length0 && 0 <= i < aa.Length0 ::
              aa[j, i] == ar.add(old(aa[j, i]), ar.mul(bb[j, i], cc[j, i]))
    ensures forall i | 0 <= i < aa.Length0 :: a[i] == ar.add(b[i], ar.mul(c[i], d[i]))
    ensures forall i | aa.Length0 <= i < a.Length :: a[i] == old(a[i])
  {
    hide Reached, Run, FitsAll, For, ColumnThenVector, Matrix, Vector, Beside, VectorsIn, S2275Inputs, Distributable;
    var n := aa.Length0;
    ghost var rest := S2275Inputs(bb, cc, b, c, d);
    ghost var m := Matrix(AA, aa) + (Vector(VA, a) + rest);
    ReachedStart(ar, m, Distributable<T>());
    ColumnThenVectorNext(n, 0);
    for i := 0 to n
      invariant rest == S2275Inputs(bb, cc, b, c, d)
      invariant Reached(ar, m, Distributable<T>(), For(0, i, ColumnThenVector(n)),
                        Matrix(AA, aa) + (Vector(VA, a) + rest))
      invariant forall j, k | 0 <= j < n && 0 <= k < i :: aa[j, k] == ar.add(old(aa[j, k]), ar.mul(bb[j, k], cc[j, k]))
      invariant forall j, k | 0 <= j < n && i <= k < n :: aa[j, k] == old(aa[j, k])
      invariant forall k | 0 <= k < i :: a[k] == ar.add(b[k], ar.mul(c[k], d[k]))
      invariant forall k | i <= k < a.Length :: a[k] == old(a[k])
    {
      ghost var front := For(0, i, ColumnThenVector(n));
      S2275InputsHold(aa, a, bb, cc, b, c, d);
      S2275Column(ar, aa, bb, cc, i, m, front, Vector(VA, a) + rest);
      S2275InputsHold(aa, a, bb, cc, b, c, d);
      S2275Vector(ar, a, b, c, d, i, m, front + Column(0, 0, n, i), Matrix(AA, aa), rest);
      ColumnThenVectorNext(n, i);
    }
  }
}

/**
 Matrices and vectors as memories, and the wavefront kernel s2111 with its legal orders.
 */
module NestKernels {
  import opened Common
  import opened Dependence
  import opened Schedules

  datatype Name = AA | BB | CC | VA | VB | VC | VD | VT

  /** A cell of a matrix, or of a vector (`j` is 0). */
  datatype Cell = Cell(arr: Name, j: int, i: int)

  ghost function Matrix<T>(arr: Name, x: array2<T>): map<Cell, T>
    reads x
  {
    map j, i | 0 <= j < x.Length0 && 0 <= i < x.Length1 :: Cell(arr, j, i) := x[j, i]
  }

  ghost function Vector<T>(arr: Name, x: array<T>): map<Cell, T>
    reads x
  {
    map i | 0 <= i < x.Length :: Cell(arr, 0, i) := x[i]
  }

  /** x[j][i] = v, in a memory whose other arrays are `rest`. */
  method Store<T>(ghost arr: Name, x: array2<T>, j: nat, i: nat, v: T, ghost rest: map<Cell, T>)
    requires j < x.Length0 && i < x.Length1 && forall c | c in rest :: c.arr != arr
    modifies x
    ensures Matrix(arr, x) + rest == (old(Matrix(arr, x)) + rest)[Cell(arr, j, i) := v]
    ensures x[j, i] == v
    ensures forall k, l | 0 <= k < x.Length0 && 0 <= l < x.Length1 && (k != j || l != i) :: x[k, l] == old(x[k, l])
  {
    x[j, i] := v;
  }

  lemma Holds<T>(arr: Name, x: array2<T>, j: int, i: int, rest: map<Cell, T>)
    requires 0 <= j < x.Length0 && 0 <= i < x.Length1 && forall c | c in rest :: c.arr != arr
    ensures Cell(arr, j, i) in Matrix(arr, x) + rest && (Matrix(arr, x) + rest)[Cell(arr, j, i)] == x[j, i]
  {
  }

  ghost predicate Square(keys: set<Cell>, arr: Name, n: int) {
    forall j, i | 0 <= j < n && 0 <= i < n :: Cell(arr, j, i) in keys
  }

  // ----- s2111: the wavefront

  /** aa[j][i] = (aa[j][i-1] + aa[j-1][i]) / 1.9 */
  ghost function Wave<T>(k: T): Inst -> Body<Cell, T> {
    (e: Inst) => [Assign(Cell(AA, e.j, e.i), WaveRhs(k, e))]
  }

  ghost function WaveRhs<T>(k: T, e: Inst): Expr<Cell, T> {
    Bin(Div, Bin(Add, Read(Cell(AA, e.j, e.i - 1)), Read(Cell(AA, e.j - 1, e.i))), Lit(k))
  }

  ghost function RowMajor(n: int): seq<Inst> {
    For(1, n, Rows(0, 1, n))
  }

  lemma WaveBody<T>(k: T, e: Inst)
    ensures Writes(Wave(k)(e)) == {Cell(AA, e.j, e.i)}
    ensures Uses(Wave(k)(e)) == {Cell(AA, e.j, e.i - 1), Cell(AA, e.j - 1, e.i)}
  {
    var rhs := WaveRhs(k, e);
    assert rhs.left.left.Reads() == {Cell(AA, e.j, e.i - 1)};
    assert rhs.left.right.Reads() == {Cell(AA, e.j - 1, e.i)};
    assert rhs.right.Reads() == {};
    assert rhs.left.Reads() == rhs.left.left.Reads() + rhs.left.right.Reads();
    Single(Assign(Cell(AA, e.j, e.i), rhs), {});
  }

  lemma WaveFits<T>(k: T, n: int, keys: set<Cell>)
    requires Square(keys, AA, n)
    ensures FitsAll(keys, Wave(k), RowMajor(n))
  {
    forall e | e in RowMajor(n) ensures Fits(keys, Wave(k)(e)) {
      RowsOrder(0, 1, n, 1, n, e, e);
      WaveBody(k, e);
      Single(Assign(Cell(AA, e.j, e.i), WaveRhs(k, e)), keys);
    }
  }

  /** `f` reads the cell `e` stores. */
  ghost predicate Feeds(e: Inst, f: Inst) {
    (f.j == e.j && f.i == e.i + 1) || (f.j == e.j + 1 && f.i == e.i)
  }

  /** Every cell comes after its left and its upper neighbour. */
  ghost predicate Topological(t: seq<Inst>) {
    forall e, f | Before(t, f, e) :: !Feeds(e, f)
  }

  /** The sweep by anti-diagonals, with the cells of one diagonal in any order. */
  ghost predicate Wavefront(t: seq<Inst>) {
    forall e, f | Before(t, e, f) :: e.j + e.i <= f.j + f.i
  }

  lemma TopologicalSafe<T>(ar: Arith<T>, m: map<Cell, T>, k: T, n: int, t: seq<Inst>)
    requires Square(m.Keys, AA, n) && multiset(t) == multiset(RowMajor(n)) && Topological(t)
    ensures FitsAll(m.Keys, Wave(k), RowMajor(n)) && FitsAll(m.Keys, Wave(k), t)
    ensures Run(ar, m, Wave(k), t) == Run(ar, m, Wave(k), RowMajor(n))
  {
    WaveFits(k, n, m.Keys);
    forall e, f | Before(RowMajor(n), e, f) && Before(t, f, e) && e != f
      ensures Independent(Wave(k)(e), Wave(k)(f))
    {
      RowsOrder(0, 1, n, 1, n, e, f);
      RowsOrder(0, 1, n, 1, n, f, e);
      WaveBody(k, e);
      WaveBody(k, f);
      assert !Feeds(e, f);
    }
    Reorder(ar, m, Wave(k), RowMajor(n), t);
  }

  /** The wavefront sweep leaves what the row-major nest leaves. */
  lemma WavefrontSafe<T>(ar: Arith<T>, m: map<Cell, T>, k: T, n: int, t: seq<Inst>)
    requires Square(m.Keys, AA, n) && multiset(t) == multiset(RowMajor(n)) && Wavefront(t)
    ensures FitsAll(m.Keys, Wave(k), RowMajor(n)) && FitsAll(m.Keys, Wave(k), t)
    ensures Run(ar, m, Wave(k), t) == Run(ar, m, Wave(k), RowMajor(n))
  {
    TopologicalSafe(ar, m, k, n, t);
  }

  /** The inner cells of anti-diagonal j + i == sum, from the top. */
  function Diagonal(n: int): int -> seq<Inst> {
    sum => seq(DiagonalLength(n, sum), x => Inst(0, FirstRow(n, sum) + x, sum - FirstRow(n, sum) - x))
  }

  function FirstRow(n: int, sum: int): int {
    if sum - (n - 1) > 1 then sum - (n - 1) else 1
  }

  function DiagonalLength(n: int, sum: int): nat {
    var last := if sum - 1 < n - 1 then sum - 1 else n - 1;
    if FirstRow(n, sum) <= last then last - FirstRow(n, sum) + 1 else 0
  }

  /** The sweep: anti-diagonal after anti-diagonal. */
  ghost function Sweep(n: int): seq<Inst> {
    For(2, 2 * n - 1, Diagonal(n))
  }

  lemma DiagonalMembers(n: int, sum: int, e: Inst)
    ensures e in Diagonal(n)(sum) <==> e.stmt == 0 && e.j + e.i == sum && 1 <= e.j < n && 1 <= e.i < n
    ensures !Before(Diagonal(n)(sum), e, e)
  {
    var s, first := Diagonal(n)(sum), FirstRow(n, sum);
    assert forall x | 0 <= x < |s| :: s[x] == Inst(0, first + x, sum - first - x);
    if e.stmt == 0 && e.j + e.i == sum && 1 <= e.j < n && 1 <= e.i < n {
      assert s[e.j - first] == e;
    }
  }

  lemma SweepFacts(n: int, e: Inst, f: Inst)
    ensures e in Sweep(n) <==> e.stmt == 0 && 1 <= e.j < n && 1 <= e.i < n
    ensures !Before(Sweep(n), e, e)
    ensures Before(Sweep(n), e, f) ==> e.j + e.i <= f.j + f.i
  {
    forall x, g | g in Diagonal(n)(x) ensures g.j + g.i == x {
      DiagonalMembers(n, x, g);
    }
    hide Diagonal;
    ForOrder(2, 2 * n - 1, Diagonal(n), (g: Inst) => g.j + g.i, e, f);
    ForOrder(2, 2 * n - 1, Diagonal(n), (g: Inst) => g.j + g.i, e, e);
    DiagonalMembers(n, e.j + e.i, e);
  }

  lemma SweepPermutes(n: int)
    ensures multiset(Sweep(n)) == multiset(RowMajor(n)) && Wavefront(Sweep(n))
  {
    hide Sweep, RowMajor, Before;
    forall e ensures !Before(Sweep(n), e, e) && !Before(RowMajor(n), e, e) && (e in Sweep(n) <==> e in RowMajor(n)) {
      SweepFacts(n, e, e);
      RowMajorOnce(n, e);
    }
    Permutation(Sweep(n), RowMajor(n));
    forall e, f | Before(Sweep(n), e, f) ensures e.j + e.i <= f.j + f.i {
      SweepFacts(n, e, f);
    }
  }

  lemma RowMajorOnce(n: int, e: Inst)
    ensures e in RowMajor(n) <==> e.stmt == 0 && 1 <= e.j < n && 1 <= e.i < n
    ensures !Before(RowMajor(n), e, e)
  {
    RowsOrder(0, 1, n, 1, n, e, e);
  }

  /** The sweep with every anti-diagonal in strips of any width leaves what the row-major nest leaves. */
  lemma WavefrontStrips<T>(ar: Arith<T>, m: map<Cell, T>, k: T, n: int, vf: nat)
    requires vf > 0 && Square(m.Keys, AA, n)
    ensures FitsAll(m.Keys, Wave(k), Sweep(n)) && FitsAll(m.Keys, Wave(k), RowMajor(n))
    ensures ForStrips(ar, m, Wave(k), 2, 2 * n - 1, Diagonal(n), vf) == Run(ar, m, Wave(k), RowMajor(n))
  {
    hide Wave, Diagonal, RowMajor, Run, FitsAll;
    SweepPermutes(n);
    WavefrontSafe(ar, m, k, n, Sweep(n));
    forall sum | 2 <= sum < 2 * n - 1 ensures NoFlowWithin(Wave(k), Diagonal(n)(sum), vf) {
      DiagonalIndependent(k, n, sum, vf);
    }
    ForStripsSafe(ar, m, Wave(k), 2, 2 * n - 1, Diagonal(n), vf);
  }

  /** No cell of an anti-diagonal is made of another one. */
  lemma DiagonalIndependent<T>(k: T, n: int, sum: int, vf: nat)
    ensures NoFlowWithin(Wave(k), Diagonal(n)(sum), vf)
  {
    hide Wave, Diagonal, Writes, Uses;
    var s := Diagonal(n)(sum);
    forall p, q | 0 <= p < q < |s| && q < p + vf ensures Writes(Wave(k)(s[p])) !! Uses(Wave(k)(s[q])) {
      WaveBody(k, s[p]);
      WaveBody(k, s[q]);
      assert s[p] in s && s[q] in s;
      DiagonalMembers(n, sum, s[p]);
      DiagonalMembers(n, sum, s[q]);
    }
  }

  /** Exact real arithmetic. */
  const REALS: Arith<real> :=
    Arith((x, y) => x + y, (x, y) => x - y, (x, y) => x * y, (x, y) => if y == 0.0 then 0.0 else x / y)

  const DIVISOR := 1.9

  /** What a cell becomes. */
  function Relaxed(x: real, y: real): real {
    (x + y) / DIVISOR
  }

  /** The matrix that tells orders apart: ones in its first row and column, zeros inside. */
  ghost function Border(n: nat): map<Cell, real> {
    map j, i | 0 <= j < n && 0 <= i < n :: Cell(AA, j, i) := if j == 0 || i == 0 then 1.0 else 0.0
  }

  ghost predicate InGrid(n: nat, s: seq<Inst>) {
    forall e | e in s :: e.stmt == 0 && 1 <= e.j < n && 1 <= e.i < n
  }

  lemma GridFits(n: nat, s: seq<Inst>)
    requires InGrid(n, s)
    ensures FitsAll(Border(n).Keys, Wave(DIVISOR), s)
  {
    forall e | e in s ensures Fits(Border(n).Keys, Wave(DIVISOR)(e)) {
      WaveBody(DIVISOR, e);
      Single(Assign(Cell(AA, e.j, e.i), WaveRhs(DIVISOR, e)), Border(n).Keys);
    }
  }

  /** The matrix after the instances of `s`. */
  ghost function Swept(n: nat, s: seq<Inst>): (r: map<Cell, real>)
    requires InGrid(n, s)
    ensures r.Keys == Border(n).Keys
  {
    GridFits(n, s);
    Run(REALS, Border(n), Wave(DIVISOR), s)
  }

  ghost function Held(n: nat, s: seq<Inst>, j: int, i: int): real
    requires InGrid(n, s) && 0 <= j < n && 0 <= i < n
  {
    Swept(n, s)[Cell(AA, j, i)]
  }

  /** The instance at `p` stores the sum of what its two neighbours hold at that time. */
  lemma StoredSum(n: nat, s: seq<Inst>, p: nat)
    requires InGrid(n, s) && Distinct(s) && p < |s|
    ensures InGrid(n, s[..p]) && s[p] in s
    ensures var e := s[p]; Held(n, s, e.j, e.i) == Relaxed(Held(n, s[..p], e.j, e.i - 1), Held(n, s[..p], e.j - 1, e.i))
  {
    hide Run, Wave, Distinct, Writes, Uses, Fits;
    GridFits(n, s);
    var e := s[p];
    assert e in s;
    StoredOnce(n, s, p);
    RunLastStore(REALS, Border(n), Wave(DIVISOR), s, p, Cell(AA, e.j, e.i));
    SumStored(Swept(n, s[..p]), e);
  }

  lemma StoredOnce(n: nat, s: seq<Inst>, p: nat)
    requires InGrid(n, s) && Distinct(s) && p < |s|
    ensures forall q | p < q < |s| :: Cell(AA, s[p].j, s[p].i) !in Writes(Wave(DIVISOR)(s[q]))
  {
    forall q | p < q < |s| ensures Cell(AA, s[p].j, s[p].i) !in Writes(Wave(DIVISOR)(s[q])) {
      WaveBody(DIVISOR, s[q]);
      assert s[q] in s && s[p] in s;
    }
  }

  lemma SumStored(x: map<Cell, real>, e: Inst)
    requires Cell(AA, e.j, e.i) in x && Cell(AA, e.j, e.i - 1) in x && Cell(AA, e.j - 1, e.i) in x
    ensures Fits(x.Keys, Wave(DIVISOR)(e))
    ensures Exec(REALS, x, Wave(DIVISOR)(e))
            == x[Cell(AA, e.j, e.i) := Relaxed(x[Cell(AA, e.j, e.i - 1)], x[Cell(AA, e.j - 1, e.i)])]
  {
    WaveBody(DIVISOR, e);
    Single(Assign(Cell(AA, e.j, e.i), WaveRhs(DIVISOR, e)), x.Keys);
    ExecOne(REALS, x, Assign(Cell(AA, e.j, e.i), WaveRhs(DIVISOR, e)));
    WaveEval(x, e);
  }

  lemma WaveEval(x: map<Cell, real>, e: Inst)
    requires WaveRhs(DIVISOR, e).Reads() <= x.Keys
    requires Cell(AA, e.j, e.i - 1) in x && Cell(AA, e.j - 1, e.i) in x
    ensures Eval(REALS, x, WaveRhs(DIVISOR, e)) == Relaxed(x[Cell(AA, e.j, e.i - 1)], x[Cell(AA, e.j - 1, e.i)])
  {
    var rhs := WaveRhs(DIVISOR, e);
    assert Eval(REALS, x, rhs.left) == x[Cell(AA, e.j, e.i - 1)] + x[Cell(AA, e.j - 1, e.i)];
  }

  /** Until its own instance runs, a cell holds its initial value. */
  lemma HeldBefore(n: nat, s: seq<Inst>, j: int, i: int)
    requires InGrid(n, s) && 0 <= j < n && 0 <= i < n && Inst(0, j, i) !in s
    ensures Held(n, s, j, i) == if j == 0 || i == 0 then 1.0 else 0.0
  {
    GridFits(n, s);
    forall f | f in s ensures Cell(AA, j, i) !in Writes(Wave(DIVISOR)(f)) {
      WaveBody(DIVISOR, f);
    }
    RunUnwritten(REALS, Border(n), Wave(DIVISOR), s, Cell(AA, j, i));
  }

  /** After that, it holds its final one. */
  lemma HeldAfter(n: nat, s: seq<Inst>, p: nat, j: int, i: int)
    requires InGrid(n, s) && p <= |s| && 0 <= j < n && 0 <= i < n && Inst(0, j, i) !in s[p..]
    ensures InGrid(n, s[..p]) && Held(n, s[..p], j, i) == Held(n, s, j, i)
  {
    GridFits(n, s);
    assert s == s[..p] + s[p..];
    RunConcat(REALS, Border(n), Wave(DIVISOR), s[..p], s[p..]);
    forall f | f in s[p..] ensures Cell(AA, j, i) !in Writes(Wave(DIVISOR)(f)) {
      WaveBody(DIVISOR, f);
    }
    RunUnwritten(REALS, Swept(n, s[..p]), Wave(DIVISOR), s[p..], Cell(AA, j, i));
  }

  lemma RowMajorFacts(n: nat)
    ensures InGrid(n, RowMajor(n)) && Distinct(RowMajor(n))
    ensures forall j, i | 1 <= j < n && 1 <= i < n :: Inst(0, j, i) in RowMajor(n)
  {
    var s := RowMajor(n);
    forall e | e in s ensures e.stmt == 0 && 1 <= e.j < n && 1 <= e.i < n {
      RowsOrder(0, 1, n, 1, n, e, e);
    }
    forall j, i | 1 <= j < n && 1 <= i < n ensures Inst(0, j, i) in s {
      RowsOrder(0, 1, n, 1, n, Inst(0, j, i), Inst(0, j, i));
    }
    forall p, q | 0 <= p < q < |s| ensures s[p] != s[q] {
      assert Before(s, s[p], s[q]);
      RowsOrder(0, 1, n, 1, n, s[p], s[q]);
    }
  }

  /** Row-major, an instance finds its neighbours finished. */
  lemma NeighbourDone(n: nat, p: nat, e: Inst)
    requires p < |RowMajor(n)| && e.stmt == 0 && 0 <= e.j < n && 0 <= e.i < n && Feeds(e, RowMajor(n)[p])
    ensures InGrid(n, RowMajor(n)) && InGrid(n, RowMajor(n)[..p])
    ensures Held(n, RowMajor(n)[..p], e.j, e.i) == Held(n, RowMajor(n), e.j, e.i)
  {
    var s := RowMajor(n);
    RowMajorFacts(n);
    forall q | p <= q < |s| ensures s[q] != e {
      if q > p {
        assert Before(s, s[p], s[q]);
        RowsOrder(0, 1, n, 1, n, s[p], s[q]);
      }
    }
    HeldAfter(n, s, p, e.j, e.i);
  }

  /** In the row-major matrix every inner cell is made of its finished neighbours. */
  lemma WaveRule(n: nat, j: int, i: int)
    requires 1 <= j < n && 1 <= i < n
    ensures InGrid(n, RowMajor(n))
    ensures Held(n, RowMajor(n), j, i) == Relaxed(Held(n, RowMajor(n), j, i - 1), Held(n, RowMajor(n), j - 1, i))
  {
    hide Run, For, Rows, Swept, Held, Border, RowMajor, InGrid, Distinct;
    var s := RowMajor(n);
    RowMajorFacts(n);
    assert Inst(0, j, i) in s;
    var p :| 0 <= p < |s| && s[p] == Inst(0, j, i);
    StoredSum(n, s, p);
    NeighbourDone(n, p, Inst(0, j, i - 1));
    NeighbourDone(n, p, Inst(0, j - 1, i));
  }

  lemma {:induction false} HeldPositive(n: nat, j: nat, i: nat)
    requires j < n && i < n
    ensures InGrid(n, RowMajor(n)) && Held(n, RowMajor(n), j, i) > 0.0
    decreases j + i
  {
    RowMajorFacts(n);
    if j == 0 || i == 0 {
      HeldBefore(n, RowMajor(n), j, i);
    } else {
      WaveRule(n, j, i);
      HeldPositive(n, j, i - 1);
      HeldPositive(n, j - 1, i);
    }
  }

  /** In an order that ends with the row-major matrix, no cell ever holds more than its final value. */
  lemma HeldAtMost(n: nat, t: seq<Inst>, p: nat, j: int, i: int)
    requires InGrid(n, t) && Distinct(t) && p <= |t| && 0 <= j < n && 0 <= i < n
    requires InGrid(n, RowMajor(n)) && Swept(n, t) == Swept(n, RowMajor(n))
    ensures InGrid(n, t[..p]) && Held(n, t[..p], j, i) <= Held(n, t, j, i)
  {
    HeldPositive(n, j, i);
    assert InGrid(n, t[..p]);
    if Inst(0, j, i) in t[p..] {
      HeldBefore(n, t[..p], j, i);
    } else {
      HeldAfter(n, t, p, j, i);
    }
  }

  /** An order that runs a cell before one of its neighbours ends with another matrix. */
  lemma OtherOrdersDiffer(n: nat, t: seq<Inst>)
    requires multiset(t) == multiset(RowMajor(n)) && !Topological(t)
    ensures InGrid(n, RowMajor(n)) && InGrid(n, t) && Swept(n, t) != Swept(n, RowMajor(n))
  {
    RowMajorFacts(n);
    SameMembers(RowMajor(n), t);
    SameDistinct(RowMajor(n), t);
    var e, f :| Before(t, f, e) && Feeds(e, f);
    var p, q :| 0 <= p < q < |t| && t[p] == f && t[q] == e;
    assert t[p] in t && t[q] in t;
    EarlyReadDiffers(n, t, p, e);
  }

  lemma EarlyReadDiffers(n: nat, t: seq<Inst>, p: nat, e: Inst)
    requires InGrid(n, t) && Distinct(t) && InGrid(n, RowMajor(n)) && p < |t|
    requires e in t && e !in t[..p] && Feeds(e, t[p])
    ensures Swept(n, t) != Swept(n, RowMajor(n))
  {
    hide Run, For, Rows, Swept, Border, RowMajor, Distinct;
    var f := t[p];
    assert f in t;
    if Swept(n, t) == Swept(n, RowMajor(n)) {
      StoredSum(n, t, p);
      WaveRule(n, f.j, f.i);
      HeldAtMost(n, t, p, f.j, f.i - 1);
      HeldAtMost(n, t, p, f.j - 1, f.i);
      HeldPositive(n, e.j, e.i);
      HeldBefore(n, t[..p], e.j, e.i);
    }
  }

  lemma SameDistinct<E>(s: seq<E>, t: seq<E>)
    requires multiset(s) == multiset(t) && Distinct(s)
    ensures Distinct(t)
  {
    forall i, j | 0 <= i < j < |t| ensures t[i] != t[j] {
      if t[i] == t[j] {
        assert t == t[..i] + [t[i]] + t[i + 1..j] + [t[j]] + t[j + 1..];
        assert multiset(t)[t[i]] >= 2;
        DistinctCount(s, t[i]);
      }
    }
  }

  ghost predicate OrdersAgree(m: map<Cell, real>, n: nat, t: seq<Inst>)
    requires Square(m.Keys, AA, n) && multiset(t) == multiset(RowMajor(n))
  {
    WaveFits(DIVISOR, n, m.Keys);
    SameMembers(RowMajor(n), t);
    Run(REALS, m, Wave(DIVISOR), t) == Run(REALS, m, Wave(DIVISOR), RowMajor(n))
  }

  /**
   The legal orders of s2111, exactly: a permutation of its iterations gives the row-major
   matrix on every input just when each cell comes after its left and upper neighbours.
   */
  lemma WaveOrdersExact(n: nat, t: seq<Inst>)
    requires multiset(t) == multiset(RowMajor(n))
    ensures Topological(t) <==> forall m: map<Cell, real> | Square(m.Keys, AA, n) :: OrdersAgree(m, n, t)
  {
    hide Run, For, Rows, RowMajor, FitsAll, Topological;
    if Topological(t) {
      forall m: map<Cell, real> | Square(m.Keys, AA, n) ensures OrdersAgree(m, n, t) {
        TopologicalSafe(REALS, m, DIVISOR, n, t);
      }
    } else {
      OtherOrdersDiffer(n, t);
      assert Square(Border(n).Keys, AA, n);
      assert !OrdersAgree(Border(n), n, t);
    }
  }

  /** One more iteration of the nest. */
  lemma WaveStep<T>(ar: Arith<T>, m: map<Cell, T>, k: T, done: seq<Inst>, j: int, i: int, now: map<Cell, T>,
                    left: T, up: T)
    requires Reached(ar, m, Wave(k), done, now) && Cell(AA, j, i) in now
    requires Cell(AA, j, i - 1) in now && now[Cell(AA, j, i - 1)] == left
    requires Cell(AA, j - 1, i) in now && now[Cell(AA, j - 1, i)] == up
    ensures Reached(ar, m, Wave(k), done + [Inst(0, j, i)], now[Cell(AA, j, i) := ar.div(ar.add(left, up), k)])
  {
    var e := Inst(0, j, i);
    WaveBody(k, e);
    var rhs := WaveRhs(k, e);
    Single(Assign(Cell(AA, j, i), rhs), m.Keys);
    Advance(ar, m, Wave(k), done, e, Assign(Cell(AA, j, i), rhs));
    assert Eval(ar, now, rhs.left) == ar.add(now[Cell(AA, j, i - 1)], now[Cell(AA, j - 1, i)]);
  }

  method S2111<T>(ar: Arith<T>, aa: array2<T>, k: T)
    requires aa.Length0 == aa.Length1
    modifies aa
    ensures Reached(ar, old(Matrix(AA, aa)), Wave(k), RowMajor(aa.Length0), Matrix(AA, aa))
    ensures forall j, i | 1 <= j < aa.Length0 && 1 <= i < aa.Length0 ::
              aa[j, i] == ar.div(ar.add(aa[j, i - 1], aa[j - 1, i]), k)
    ensures forall j, i | 0 <= j < aa.Length0 && 0 <= i < aa.Length0 && (j == 0 || i == 0) :: aa[j, i] == old(aa[j, i])
  {
    hide FitsAll, Row, Wave, Run, Reached, Matrix;
    var n := aa.Length0;
    ghost var m, rest: map<Cell, T> := Matrix(AA, aa), map[];
    ghost var rows, done, now := Rows(0, 1, n), [], m;
    assert m + rest == m;
    ReachedStart(ar, m, Wave(k));
    if 1 < n {
      for j := 1 to n
        invariant now == Matrix(AA, aa) + rest && done == For(1, j, rows)
        invariant Reached(ar, m, Wave(k), done, now)
        invariant forall y, x | 1 <= y < n && 1 <= x < n && y < j ::
                  aa[y, x] == ar.div(ar.add(aa[y, x - 1], aa[y - 1, x]), k)
        invariant forall y, x | 0 <= y < n && 0 <= x < n && (y == 0 || x == 0) :: aa[y, x] == old(aa[y, x])
      {
        for i := 1 to n
          invariant now == Matrix(AA, aa) + rest && done == For(1, j, rows) + Row(0, j, 1, i)
          invariant Reached(ar, m, Wave(k), done, now)
          invariant forall y, x | 1 <= y < n && 1 <= x < n && (y < j || (y == j && x < i)) ::
                  aa[y, x] == ar.div(ar.add(aa[y, x - 1], aa[y - 1, x]), k)
          invariant forall y, x | 0 <= y < n && 0 <= x < n && (y == 0 || x == 0) :: aa[y, x] == old(aa[y, x])
        {
          var v := ar.div(ar.add(aa[j, i - 1], aa[j - 1, i]), k);
          Holds(AA, aa, j, i - 1, rest);
          Holds(AA, aa, j - 1, i, rest);
          Holds(AA, aa, j, i, rest);
          WaveStep(ar, m, k, done, j, i, now, aa[j, i - 1], aa[j - 1, i]);
          Store(AA, aa, j, i, v, rest);
          RowGrows(For(1, j, rows), 0, j, 1, i);
          done, now := done + [Inst(0, j, i)], now[Cell(AA, j, i) := v];
        }
      }
    }
    assert Matrix(AA, aa) + rest == Matrix(AA, aa);
  }
}

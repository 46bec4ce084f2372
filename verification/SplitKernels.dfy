/**
 Index-set splitting (s281, s1113), where a dependence crosses the middle of the loop and the
 two halves vectorise on their own, and the recomputed vector of s256.
 */
module SplitKernels {
  import opened Common
  import opened Dependence
  import opened Schedules
  import opened NestKernels
  import opened StatementKernels

  /** The loop cut at `mid`, each part in strips. */
  ghost function TwoParts<T>(ar: Arith<T>, m: map<Cell, T>, code: Inst -> Body<Cell, T>, mid: int, n: int,
                             vf: nat): map<Cell, T>
    requires vf > 0 && FitsAll(m.Keys, code, Row(0, 0, 0, mid)) && FitsAll(m.Keys, code, Row(0, 0, mid, n))
  {
    RunStrips(ar, RunStrips(ar, m, code, Row(0, 0, 0, mid), vf), code, Row(0, 0, mid, n), vf)
  }

  /** Cutting a loop so that no dependence stays inside a part makes any strip width safe. */
  lemma SplitSafe<T>(ar: Arith<T>, m: map<Cell, T>, code: Inst -> Body<Cell, T>, mid: int, n: int, vf: nat)
    requires vf > 0 && 0 <= mid <= n && FitsAll(m.Keys, code, Row(0, 0, 0, n))
    requires forall i, k | 0 <= i < k < n && (k < mid || mid <= i) ::
               Writes(code(Inst(0, 0, i))) !! Uses(code(Inst(0, 0, k)))
    ensures FitsAll(m.Keys, code, Row(0, 0, 0, mid)) && FitsAll(m.Keys, code, Row(0, 0, mid, n))
    ensures TwoParts(ar, m, code, mid, n, vf) == Run(ar, m, code, Row(0, 0, 0, n))
  {
    var front, back := Row(0, 0, 0, mid), Row(0, 0, mid, n);
    assert Row(0, 0, 0, n) == front + back;
    RowStrips(ar, m, code, 0, 0, mid, vf);
    RowStrips(ar, Run(ar, m, code, front), code, 0, mid, n, vf);
    RunConcat(ar, m, code, front, back);
  }

  // ----- s281

  /** x = a[n-i-1] + b[i] * c[i]; a[i] = x - 1; b[i] = x */
  ghost function S281Code<T>(c: seq<T>, one: T): Inst -> Body<Cell, T> {
    (e: Inst) => if 0 <= e.i < |c| then S281Body(c, one, e.i) else []
  }

  ghost function S281X<T>(c: seq<T>, i: int): Expr<Cell, T>
    requires 0 <= i < |c|
  {
    Bin(Add, Read(A(|c| - i - 1)), Bin(Mul, Read(B(i)), Lit(c[i])))
  }

  ghost function S281Body<T>(c: seq<T>, one: T, i: int): Body<Cell, T>
    requires 0 <= i < |c|
  {
    [Assign(A(i), Bin(Sub, S281X(c, i), Lit(one))), Assign(B(i), S281X(c, i))]
  }

  lemma S281Facts<T>(c: seq<T>, one: T, i: int, keys: set<Cell>)
    requires 0 <= i < |c|
    ensures Writes(S281Body(c, one, i)) == {A(i), B(i)} && Uses(S281Body(c, one, i)) == {A(|c| - i - 1), B(i)}
    ensures Fits(keys, S281Body(c, one, i)) <==> {A(i), B(i), A(|c| - i - 1)} <= keys
  {
    var x := S281X(c, i);
    assert x.Reads() == {A(|c| - i - 1), B(i)} by {
      assert x.left.Reads() == {A(|c| - i - 1)} && x.right.left.Reads() == {B(i)} && x.right.right.Reads() == {};
      assert x.right.Reads() == x.right.left.Reads() + x.right.right.Reads();
    }
    var body := S281Body(c, one, i);
    assert body[0].rhs.right.Reads() == {} && body[0].rhs.Reads() == x.Reads() + {};
    assert body[0] in body && body[1] in body;
    assert forall a | a in body :: a == body[0] || a == body[1];
    forall l ensures l in Uses(body) <==> l in x.Reads() {
      assert l in x.Reads() ==> l in body[1].rhs.Reads();
    }
  }

  lemma S281Fits<T>(m: map<Cell, T>, c: seq<T>, one: T)
    requires forall i | 0 <= i < |c| :: A(i) in m && B(i) in m
    ensures FitsAll(m.Keys, S281Code(c, one), Row(0, 0, 0, |c|))
  {
    forall e | e in Row(0, 0, 0, |c|) ensures Fits(m.Keys, S281Code(c, one)(e)) {
      RowMembers(0, 0, 0, |c|, e);
      S281Facts(c, one, e.i, m.Keys);
    }
  }

  /** s281 is two loops split after the middle, each in strips of any width, for odd and even lengths. */
  lemma S281Split<T>(ar: Arith<T>, m: map<Cell, T>, c: seq<T>, one: T, vf: nat)
    requires vf > 0 && forall i | 0 <= i < |c| :: A(i) in m && B(i) in m
    ensures var n, mid, code := |c|, (|c| + 1) / 2, S281Code(c, one);
            FitsAll(m.Keys, code, Row(0, 0, 0, n))
            && FitsAll(m.Keys, code, Row(0, 0, 0, mid)) && FitsAll(m.Keys, code, Row(0, 0, mid, n))
            && TwoParts(ar, m, code, mid, n, vf) == Run(ar, m, code, Row(0, 0, 0, n))
  {
    var n, mid, code := |c|, (|c| + 1) / 2, S281Code(c, one);
    S281Fits(m, c, one);
    forall i, k | 0 <= i < k < n && (k < mid || mid <= i)
      ensures Writes(code(Inst(0, 0, i))) !! Uses(code(Inst(0, 0, k)))
    {
      S281Facts(c, one, i, {});
      S281Facts(c, one, k, {});
    }
    SplitSafe(ar, m, code, mid, n, vf);
  }

  lemma S281Step<T>(ar: Arith<T>, m: map<Cell, T>, c: seq<T>, one: T, i: nat, a: seq<T>, b: seq<T>)
    requires |a| == |b| == |c| && i < |a|
    requires Reached(ar, m, S281Code(c, one), Row(0, 0, 0, i), AB(a, b))
    ensures var x := ar.add(a[|a| - i - 1], ar.mul(b[i], c[i]));
            Reached(ar, m, S281Code(c, one), Row(0, 0, 0, i + 1), AB(a[i := ar.sub(x, one)], b[i := x]))
  {
    hide FitsAll, AB, Row;
    var now, x, code := AB(a, b), ar.add(a[|a| - i - 1], ar.mul(b[i], c[i])), S281Code(c, one);
    S281Facts(c, one, i, now.Keys);
    RunSnoc(ar, m, code, Row(0, 0, 0, i), Inst(0, 0, i));
    RowNext(i);
    S281Eval(ar, now, c, one, i, a[|a| - i - 1], b[i]);
    FitsSnoc(m.Keys, code, Row(0, 0, 0, i), Inst(0, 0, i));
    StoreA(a, b, i, ar.sub(x, one));
    StoreB(a[i := ar.sub(x, one)], b, i, x);
  }

  lemma RowNext(i: nat)
    ensures Row(0, 0, 0, i + 1) == Row(0, 0, 0, i) + [Inst(0, 0, i)]
  {
  }

  lemma FitsSnoc<T>(keys: set<Cell>, code: Inst -> Body<Cell, T>, s: seq<Inst>, e: Inst)
    requires FitsAll(keys, code, s) && Fits(keys, code(e))
    ensures FitsAll(keys, code, s + [e])
  {
  }

  lemma S281Eval<T>(ar: Arith<T>, now: map<Cell, T>, c: seq<T>, one: T, i: int, u: T, v: T)
    requires 0 <= i < |c| && {A(i), B(i), A(|c| - i - 1)} <= now.Keys
    requires now[A(|c| - i - 1)] == u && now[B(i)] == v
    ensures Fits(now.Keys, S281Body(c, one, i))
    ensures var x := ar.add(u, ar.mul(v, c[i]));
            Exec(ar, now, S281Body(c, one, i)) == now[A(i) := ar.sub(x, one)][B(i) := x]
  {
    S281Facts(c, one, i, now.Keys);
    var body, x, e := S281Body(c, one, i), ar.add(u, ar.mul(v, c[i])), S281X(c, i);
    assert body[0] in body && body[1] in body;
    assert Eval(ar, now, e.left) == u && Eval(ar, now, e.right) == ar.mul(v, c[i]);
    assert Eval(ar, now, e) == x && Eval(ar, now, body[0].rhs) == ar.sub(x, one);
    assert body[..1] == [body[0]] && [body[0]][..0] == [];
    forall l | l in now ensures Value(ar, now, body, l) == now[A(i) := ar.sub(x, one)][B(i) := x][l] {
      assert Value(ar, now, [], l) == now[l];
      assert Value(ar, now, [body[0]], l) == now[A(i) := ar.sub(x, one)][l];
    }
  }

  /** The x of iteration i: up to the middle from old elements of a, after it from new ones. */
  function S281Result<T>(ar: Arith<T>, a: seq<T>, b: seq<T>, c: seq<T>, one: T, i: int): T
    requires 0 <= i < |a| == |b| == |c|
    decreases i
  {
    var mirror := |a| - i - 1;
    ar.add(if i <= mirror then a[mirror] else ar.sub(S281Result(ar, a, b, c, one, mirror), one), ar.mul(b[i], c[i]))
  }

  method S281<T>(ar: Arith<T>, a: array<T>, b: array<T>, c: array<T>, one: T)
    requires a != b && a != c && b != c && a.Length == b.Length == c.Length
    modifies a, b
    ensures Reached(ar, old(AB(a[..], b[..])), S281Code(c[..], one), Row(0, 0, 0, a.Length), AB(a[..], b[..]))
    ensures forall i | 0 <= i < a.Length ::
              b[i] == S281Result(ar, old(a[..]), old(b[..]), c[..], one, i) && a[i] == ar.sub(b[i], one)
  {
    hide Reached, AB, Row, S281Code;
    var n := a.Length;
    ghost var m, code := AB(a[..], b[..]), S281Code(c[..], one);
    ReachedStart(ar, m, code);
    assert Row(0, 0, 0, 0) == [];
    var x;
    for i := 0 to n
      invariant Reached(ar, m, code, Row(0, 0, 0, i), AB(a[..], b[..]))
      invariant forall k | i <= k < n :: a[k] == old(a[k]) && b[k] == old(b[k])
      invariant forall k | 0 <= k < i ::
                  b[k] == S281Result(ar, old(a[..]), old(b[..]), c[..], one, k) && a[k] == ar.sub(b[k], one)
    {
      ghost var a0, b0 := a[..], b[..];
      S281Step(ar, m, c[..], one, i, a0, b0);
      x := ar.add(a[n - i - 1], ar.mul(b[i], c[i]));
      assert x == S281Result(ar, old(a[..]), old(b[..]), c[..], one, i);
      a[i] := ar.sub(x, one);
      b[i] := x;
      assert a[..] == a0[i := ar.sub(x, one)] && b[..] == b0[i := x];
    }
  }

  // ----- s1113

  /** a[i] = a[n/2] + b[i] */
  ghost function S1113Code<T>(b: seq<T>): Inst -> Body<Cell, T> {
    (e: Inst) => if 0 <= e.i < |b| then [S1113Stmt(b, e.i)] else []
  }

  ghost function S1113Stmt<T>(b: seq<T>, i: int): Assign<Cell, T>
    requires 0 <= i < |b|
  {
    Assign(A(i), Bin(Add, Read(A(|b| / 2)), Lit(b[i])))
  }

  lemma S1113Facts<T>(b: seq<T>, i: int, keys: set<Cell>)
    requires 0 <= i < |b|
    ensures S1113Stmt(b, i).rhs.Reads() == {A(|b| / 2)}
    ensures Writes([S1113Stmt(b, i)]) == {A(i)} && Uses([S1113Stmt(b, i)]) == {A(|b| / 2)}
    ensures Fits(keys, [S1113Stmt(b, i)]) <==> {A(i), A(|b| / 2)} <= keys
  {
    var rhs := S1113Stmt(b, i).rhs;
    assert rhs.left.Reads() == {A(|b| / 2)} && rhs.right.Reads() == {};
    Single(S1113Stmt(b, i), keys);
  }

  /** s1113 is two loops split after element n/2, each in strips of any width. */
  lemma S1113Split<T>(ar: Arith<T>, m: map<Cell, T>, b: seq<T>, vf: nat)
    requires vf > 0 && b != [] && forall i | 0 <= i < |b| :: A(i) in m
    ensures var n, mid, code := |b|, |b| / 2 + 1, S1113Code(b);
            FitsAll(m.Keys, code, Row(0, 0, 0, n))
            && FitsAll(m.Keys, code, Row(0, 0, 0, mid)) && FitsAll(m.Keys, code, Row(0, 0, mid, n))
            && TwoParts(ar, m, code, mid, n, vf) == Run(ar, m, code, Row(0, 0, 0, n))
  {
    hide Writes, Uses, Fits, Row, S1113Stmt, Run, RunStrips, TwoParts;
    var n, mid, code := |b|, |b| / 2 + 1, S1113Code(b);
    forall e | e in Row(0, 0, 0, n) ensures Fits(m.Keys, code(e)) {
      RowMembers(0, 0, 0, n, e);
      S1113Facts(b, e.i, m.Keys);
    }
    forall i, k | 0 <= i < k < n && (k < mid || mid <= i)
      ensures Writes(code(Inst(0, 0, i))) !! Uses(code(Inst(0, 0, k)))
    {
      S1113Facts(b, i, {});
      S1113Facts(b, k, {});
    }
    SplitSafe(ar, m, code, mid, n, vf);
  }

  lemma S1113Step<T>(ar: Arith<T>, m: map<Cell, T>, b: seq<T>, i: nat, a: seq<T>)
    requires |a| == |b| && i < |a| && Reached(ar, m, S1113Code(b), Row(0, 0, 0, i), AB(a, b))
    ensures Reached(ar, m, S1113Code(b), Row(0, 0, 0, i + 1), AB(a[i := ar.add(a[|a| / 2], b[i])], b))
  {
    hide Reached, AB, Row;
    S1113Facts(b, i, {});
    AdvanceTo(ar, m, S1113Code(b), Row(0, 0, 0, i), AB(a, b), Inst(0, 0, i), S1113Stmt(b, i));
    RowNext(i);
    var rhs := S1113Stmt(b, i).rhs;
    assert Eval(ar, AB(a, b), rhs.left) == a[|a| / 2] && Eval(ar, AB(a, b), rhs.right) == b[i];
    StoreA(a, b, i, ar.add(a[|a| / 2], b[i]));
  }

  /** Up to the middle the old a[n/2] is read, after it the new one. */
  method S1113<T>(ar: Arith<T>, a: array<T>, b: array<T>)
    requires a != b && a.Length == b.Length
    modifies a
    ensures Reached(ar, old(AB(a[..], b[..])), S1113Code(b[..]), Row(0, 0, 0, a.Length), AB(a[..], b[..]))
    ensures forall i | 0 <= i < a.Length ::
              a[i] == ar.add(if i <= a.Length / 2 then old(a[a.Length / 2]) else a[a.Length / 2], b[i])
  {
    hide Reached, AB, Row, S1113Code;
    var n := a.Length;
    ghost var m, code := AB(a[..], b[..]), S1113Code(b[..]);
    ReachedStart(ar, m, code);
    assert Row(0, 0, 0, 0) == [];
    for i := 0 to n
      invariant Reached(ar, m, code, Row(0, 0, 0, i), AB(a[..], b[..]))
      invariant forall k | i <= k < n :: a[k] == old(a[k])
      invariant forall k | 0 <= k < i :: a[k] == ar.add(if k <= n / 2 then old(a[n / 2]) else a[n / 2], b[k])
    {
      ghost var a0 := a[..];
      S1113Step(ar, m, b[..], i, a0);
      a[i] := ar.add(a[n / 2], b[i]);
      assert a[..] == a0[i := ar.add(a0[n / 2], b[i])];
    }
  }

  // ----- s256

  /** One pass of a[j] = 1 - a[j-1], j from 1. */
  function Alternating<T>(ar: Arith<T>, one: T, first: T, j: nat): T {
    if j == 0 then first else ar.sub(one, Alternating(ar, one, first, j - 1))
  }

  lemma AlternatingNext<T>(ar: Arith<T>, one: T, first: T, j: nat)
    ensures Alternating(ar, one, first, j) == if j == 0 then first else ar.sub(one, Alternating(ar, one, first, j - 1))
  {
  }

  /** Statement 0: a[j] = 1 - a[j-1].  Statement 1: aa[j][i] = a[j] + bb[j][i] * d[j]. */
  ghost function S256Code<T>(one: T): Inst -> Body<Cell, T> {
    (e: Inst) => [S256Stmt(one, e)]
  }

  ghost function S256Stmt<T>(one: T, e: Inst): Assign<Cell, T> {
    if e.stmt == 0 then Assign(A(e.j), Bin(Sub, Lit(one), Read(A(e.j - 1))))
    else Assign(Cell(AA, e.j, e.i), Bin(Add, Read(A(e.j)), Bin(Mul, Read(Cell(BB, e.j, e.i)), Read(Cell(VD, 0, e.j)))))
  }

  lemma S256Facts<T>(one: T, e: Inst, keys: set<Cell>)
    ensures Writes(S256Code(one)(e)) == {if e.stmt == 0 then A(e.j) else Cell(AA, e.j, e.i)}
    ensures S256Stmt(one, e).rhs.Reads()
            == if e.stmt == 0 then {A(e.j - 1)} else {A(e.j), Cell(BB, e.j, e.i), Cell(VD, 0, e.j)}
    ensures Fits(keys, S256Code(one)(e)) <==> S256Stmt(one, e).dst in keys && S256Stmt(one, e).rhs.Reads() <= keys
  {
    var rhs := S256Stmt(one, e).rhs;
    if e.stmt == 0 {
      assert rhs.left.Reads() == {} && rhs.right.Reads() == {A(e.j - 1)};
    } else {
      assert rhs.right.left.Reads() == {Cell(BB, e.j, e.i)} && rhs.right.right.Reads() == {Cell(VD, 0, e.j)};
      assert rhs.left.Reads() == {A(e.j)} && rhs.right.Reads() == rhs.right.left.Reads() + rhs.right.right.Reads();
    }
    Single(S256Stmt(one, e), keys);
  }

  ghost predicate S256Memory<T>(m: map<Cell, T>, n: int) {
    Square(m.Keys, AA, n) && Square(m.Keys, BB, n) && forall j | 0 <= j < n :: A(j) in m && Cell(VD, 0, j) in m
  }

  /** The instances of statement 1, once each, in any order. */
  ghost predicate FillsAll(t: seq<Inst>, n: int) {
    Distinct(t) && forall e :: e in t <==> e.stmt == 1 && 1 <= e.j < n && 0 <= e.i < n
  }

  /** Computing a once, up to row hi. */
  lemma {:induction false} S256Chain<T>(ar: Arith<T>, one: T, m: map<Cell, T>, n: int, hi: int)
    requires S256Memory(m, n) && 1 <= hi <= n
    ensures FitsAll(m.Keys, S256Code(one), Column(0, 1, hi, 0))
    ensures var y := Run(ar, m, S256Code(one), Column(0, 1, hi, 0));
            (forall j | 0 <= j < hi :: y[A(j)] == Alternating(ar, one, m[A(0)], j))
            && forall l | l in m && !(l.arr == VA && l.j == 0 && 1 <= l.i < hi) :: y[l] == m[l]
  {
    var code := S256Code(one);
    if hi == 1 {
      assert Column(0, 1, 1, 0) == [];
    } else {
      hide Run, Column, FitsAll, S256Code;
      S256Chain(ar, one, m, n, hi - 1);
      var done, e := Column(0, 1, hi - 1, 0), Inst(0, hi - 1, 0);
      var y := Run(ar, m, code, done);
      ColumnGrows([], 0, 1, hi - 1, 0);
      assert [] + done == done && [] + Column(0, 1, hi, 0) == Column(0, 1, hi, 0);
      S256Facts(one, e, m.Keys);
      S256One(one, e);
      Advance(ar, m, code, done, e, S256Stmt(one, e));
      assert Eval(ar, y, S256Stmt(one, e).rhs) == ar.sub(one, y[A(hi - 2)]);
    }
  }

  lemma S256One<T>(one: T, e: Inst)
    ensures S256Code(one)(e) == [S256Stmt(one, e)]
  {
  }

  lemma S256FillFits<T>(one: T, m: map<Cell, T>, n: int, t: seq<Inst>)
    requires S256Memory(m, n) && FillsAll(t, n)
    ensures FitsAll(m.Keys, S256Code(one), t)
  {
    hide S256Code;
    forall e | e in t ensures Fits(m.Keys, S256Code(one)(e)) {
      S256Facts(one, e, m.Keys);
    }
  }

  /** Filling the cells in any order: each is made of the row's a and of inputs no instance stores to. */
  lemma S256Fill<T>(ar: Arith<T>, one: T, y: map<Cell, T>, n: int, t: seq<Inst>, j: int, i: int)
    requires S256Memory(y, n) && FillsAll(t, n) && 1 <= j < n && 0 <= i < n
    ensures FitsAll(y.Keys, S256Code(one), t)
    ensures Run(ar, y, S256Code(one), t)[Cell(AA, j, i)]
            == ar.add(y[A(j)], ar.mul(y[Cell(BB, j, i)], y[Cell(VD, 0, j)]))
  {
    hide Run, S256Code, Writes, Uses, FitsAll, Exec;
    var e, code := Inst(1, j, i), S256Code(one);
    S256FillFits(one, y, n, t);
    assert e in t;
    var p :| 0 <= p < |t| && t[p] == e;
    forall q | p < q < |t| ensures Cell(AA, j, i) !in Writes(code(t[q])) {
      S256Facts(one, t[q], {});
      assert t[q] in t;
    }
    RunLastStore(ar, y, code, t, p, Cell(AA, j, i));
    var now := Run(ar, y, code, t[..p]);
    InputsKept(ar, one, y, n, t, p, A(j));
    InputsKept(ar, one, y, n, t, p, Cell(BB, j, i));
    InputsKept(ar, one, y, n, t, p, Cell(VD, 0, j));
    S256Facts(one, e, y.Keys);
    S256One(one, e);
    ExecOne(ar, now, S256Stmt(one, e));
    var rhs := S256Stmt(one, e).rhs;
    assert Eval(ar, now, rhs.right) == ar.mul(now[Cell(BB, j, i)], now[Cell(VD, 0, j)]);
    assert Eval(ar, now, rhs.left) == now[A(j)];
  }

  /** Statement 1 stores only into aa. */
  lemma InputsKept<T>(ar: Arith<T>, one: T, y: map<Cell, T>, n: int, t: seq<Inst>, p: int, l: Cell)
    requires S256Memory(y, n) && FillsAll(t, n) && 0 <= p <= |t| && l in y
    requires l.arr != AA || !(1 <= l.j < n && 0 <= l.i < n)
    ensures FitsAll(y.Keys, S256Code(one), t[..p]) && Run(ar, y, S256Code(one), t[..p])[l] == y[l]
  {
    hide S256Code, Run, Writes;
    S256FillFits(one, y, n, t);
    forall e | e in t[..p] ensures l !in Writes(S256Code(one)(e)) {
      S256Facts(one, e, {});
      assert e in t;
    }
    RunUnwritten(ar, y, S256Code(one), t[..p], l);
  }

  /** The cells the loops do not store to. */
  ghost predicate S256Kept(l: Cell, n: int) {
    !(l.arr == VA && l.j == 0 && 0 <= l.i < n) && !(l.arr == AA && 1 <= l.j < n && 0 <= l.i < n)
  }

  /** What s256 leaves: a alternating, each aa[j][i] below row 0 made of its a[j], and the rest as it was. */
  ghost predicate S256Result<T>(ar: Arith<T>, one: T, m: map<Cell, T>, n: int, r: map<Cell, T>)
    requires S256Memory(m, n) && n > 0
  {
    r.Keys == m.Keys && (forall j | 0 <= j < n :: r[A(j)] == Alternating(ar, one, m[A(0)], j))
    && (forall j, i | 1 <= j < n && 0 <= i < n ::
          r[Cell(AA, j, i)] == ar.add(Alternating(ar, one, m[A(0)], j), ar.mul(m[Cell(BB, j, i)], m[Cell(VD, 0, j)])))
    && forall l | l in m && S256Kept(l, n) :: r[l] == m[l]
  }

  /** Only one memory is that result. */
  lemma S256ResultOnce<T>(ar: Arith<T>, one: T, m: map<Cell, T>, n: int, r: map<Cell, T>, q: map<Cell, T>)
    requires S256Memory(m, n) && n > 0 && S256Result(ar, one, m, n, r) && S256Result(ar, one, m, n, q)
    ensures r == q
  {
    forall l | l in m ensures r[l] == q[l] {
      if l.arr == VA && l.j == 0 && 0 <= l.i < n {
        assert l == A(l.i);
      } else if l.arr == AA && 1 <= l.j < n && 0 <= l.i < n {
        assert l == Cell(AA, l.j, l.i);
      }
    }
  }

  /** Computing a once and then filling aa in any order leaves that result. */
  lemma S256AnyOrder<T>(ar: Arith<T>, one: T, m: map<Cell, T>, n: int, t: seq<Inst>)
    requires S256Memory(m, n) && n > 0 && FillsAll(t, n)
    ensures FitsAll(m.Keys, S256Code(one), Column(0, 1, n, 0) + t)
    ensures S256Result(ar, one, m, n, Run(ar, m, S256Code(one), Column(0, 1, n, 0) + t))
  {
    hide Run, Column, S256Code, FitsAll, Fits;
    var code, once := S256Code(one), Column(0, 1, n, 0);
    S256Chain(ar, one, m, n, n);
    var y := Run(ar, m, code, once);
    S256FillFits(one, m, n, t);
    RunConcat(ar, m, code, once, t);
    BothFitted(m.Keys, code, once, t);
    var r := Run(ar, y, code, t);
    forall j, i | 1 <= j < n && 0 <= i < n
      ensures r[Cell(AA, j, i)] == ar.add(y[A(j)], ar.mul(y[Cell(BB, j, i)], y[Cell(VD, 0, j)]))
    {
      S256Fill(ar, one, y, n, t, j, i);
    }
    forall l | l in m && (l.arr != AA || !(1 <= l.j < n && 0 <= l.i < n)) ensures r[l] == y[l] {
      InputsKept(ar, one, y, n, t, |t|, l);
      assert t[..|t|] == t;
    }
  }

  lemma BothFitted<T>(keys: set<Cell>, code: Inst -> Body<Cell, T>, s: seq<Inst>, t: seq<Inst>)
    requires FitsAll(keys, code, s) && FitsAll(keys, code, t)
    ensures FitsAll(keys, code, s + t)
  {
  }

  /** The arrays of s256 as one memory. */
  ghost function S256View<T>(a: array<T>, aa: array2<T>, bb: array2<T>, d: array<T>): map<Cell, T>
    reads a, aa, bb, d
  {
    (Matrix(AA, aa) + Matrix(BB, bb)) + (Vector(VA, a) + Vector(VD, d))
  }

  ghost predicate S256Sizes<T>(a: array<T>, aa: array2<T>, bb: array2<T>, d: array<T>) {
    aa.Length0 == aa.Length1 == bb.Length0 == bb.Length1 && 0 < aa.Length0 <= a.Length == d.Length
  }

  lemma TwoMatrices<T>(aa: array2<T>, bb: array2<T>)
    ensures var x := Matrix(AA, aa) + Matrix(BB, bb);
            (forall l :: l in x <==> (l.arr == AA && 0 <= l.j < aa.Length0 && 0 <= l.i < aa.Length1)
                                     || (l.arr == BB && 0 <= l.j < bb.Length0 && 0 <= l.i < bb.Length1))
            && (forall j, i | 0 <= j < aa.Length0 && 0 <= i < aa.Length1 :: x[Cell(AA, j, i)] == aa[j, i])
            && forall j, i | 0 <= j < bb.Length0 && 0 <= i < bb.Length1 :: x[Cell(BB, j, i)] == bb[j, i]
  {
  }

  lemma TwoVectors<T>(a: array<T>, d: array<T>)
    ensures var x := Vector(VA, a) + Vector(VD, d);
            (forall l :: l in x <==> (l.arr == VA && l.j == 0 && 0 <= l.i < a.Length)
                                     || (l.arr == VD && l.j == 0 && 0 <= l.i < d.Length))
            && (forall j | 0 <= j < a.Length :: x[A(j)] == a[j])
            && forall j | 0 <= j < d.Length :: x[Cell(VD, 0, j)] == d[j]
  {
  }

  /** The cells of the arrays. */
  ghost predicate S256Shape<T>(m: map<Cell, T>, n: int, length: int) {
    forall l :: l in m <==> ((l.arr == AA || l.arr == BB) && 0 <= l.j < n && 0 <= l.i < n)
                            || ((l.arr == VA || l.arr == VD) && l.j == 0 && 0 <= l.i < length)
  }

  lemma S256ViewHolds<T>(a: array<T>, aa: array2<T>, bb: array2<T>, d: array<T>)
    requires S256Sizes(a, aa, bb, d)
    ensures var m := S256View(a, aa, bb, d);
            S256Shape(m, aa.Length0, a.Length) && S256Memory(m, aa.Length0)
            && (forall j, i | 0 <= j < aa.Length0 && 0 <= i < aa.Length0 ::
                  Cell(AA, j, i) in m && m[Cell(AA, j, i)] == aa[j, i])
            && (forall j, i | 0 <= j < aa.Length0 && 0 <= i < aa.Length0 ::
                  Cell(BB, j, i) in m && m[Cell(BB, j, i)] == bb[j, i])
            && (forall j | 0 <= j < a.Length :: A(j) in m && m[A(j)] == a[j])
            && (forall j | 0 <= j < a.Length :: Cell(VD, 0, j) in m && m[Cell(VD, 0, j)] == d[j])
  {
    TwoMatrices(aa, bb);
    TwoVectors(a, d);
    hide Matrix, Vector;
  }

  /** The arrays after the loops, in terms of the memory before them. */
  ghost predicate S256Done<T>(ar: Arith<T>, one: T, m: map<Cell, T>, a: array<T>, aa: array2<T>, bb: array2<T>,
                              d: array<T>)
    requires S256Sizes(a, aa, bb, d) && S256Shape(m, aa.Length0, a.Length)
    reads a, aa, bb, d
  {
    (forall j | 0 <= j < aa.Length0 :: a[j] == Alternating(ar, one, m[A(0)], j))
    && (forall j, i | 1 <= j < aa.Length0 && 0 <= i < aa.Length0 ::
          aa[j, i] == ar.add(Alternating(ar, one, m[A(0)], j), ar.mul(m[Cell(BB, j, i)], m[Cell(VD, 0, j)])))
    && (forall j | aa.Length0 <= j < a.Length :: a[j] == m[A(j)])
    && (forall i | 0 <= i < aa.Length0 :: aa[0, i] == m[Cell(AA, 0, i)])
    && (forall j, i | 0 <= j < aa.Length0 && 0 <= i < aa.Length0 :: bb[j, i] == m[Cell(BB, j, i)])
    && forall j | 0 <= j < a.Length :: d[j] == m[Cell(VD, 0, j)]
  }

  /** Before the loops: the inputs they read and the cells they keep. */
  lemma S256Start<T>(a: array<T>, aa: array2<T>, bb: array2<T>, d: array<T>)
    requires S256Sizes(a, aa, bb, d)
    ensures var m := S256View(a, aa, bb, d);
            S256Shape(m, aa.Length0, a.Length) && S256Memory(m, aa.Length0)
            && (forall j | 0 <= j < a.Length :: m[A(j)] == a[j])
            && (forall i | 0 <= i < aa.Length0 :: m[Cell(AA, 0, i)] == aa[0, i])
            && (forall j, i | 0 <= j < aa.Length0 && 0 <= i < aa.Length0 :: m[Cell(BB, j, i)] == bb[j, i])
            && (forall j | 0 <= j < a.Length :: m[Cell(VD, 0, j)] == d[j])
  {
    S256ViewHolds(a, aa, bb, d);
    hide S256View;
  }

  lemma S256Leaves<T>(ar: Arith<T>, one: T, m: map<Cell, T>, a: array<T>, aa: array2<T>, bb: array2<T>, d: array<T>)
    requires S256Sizes(a, aa, bb, d) && S256Shape(m, aa.Length0, a.Length) && S256Memory(m, aa.Length0)
    requires S256Done(ar, one, m, a, aa, bb, d)
    ensures S256Result(ar, one, m, aa.Length0, S256View(a, aa, bb, d))
  {
    var n, r := aa.Length0, S256View(a, aa, bb, d);
    S256ViewHolds(a, aa, bb, d);
    SameShape(m, r, n, a.Length);
    hide S256View, Alternating, S256Memory, S256Shape, S256Kept;
    forall l | l in m && S256Kept(l, n) ensures r[l] == m[l] {
      S256CellKept(ar, one, m, a, aa, bb, d, l);
    }
  }

  lemma SameShape<T>(m: map<Cell, T>, r: map<Cell, T>, n: int, length: int)
    requires S256Shape(m, n, length) && S256Shape(r, n, length)
    ensures m.Keys == r.Keys
  {
  }

  lemma S256CellKept<T>(ar: Arith<T>, one: T, m: map<Cell, T>, a: array<T>, aa: array2<T>, bb: array2<T>,
                        d: array<T>, l: Cell)
    requires S256Sizes(a, aa, bb, d) && S256Shape(m, aa.Length0, a.Length)
    requires S256Done(ar, one, m, a, aa, bb, d) && l in m && S256Kept(l, aa.Length0)
    ensures l in S256View(a, aa, bb, d) && S256View(a, aa, bb, d)[l] == m[l]
  {
    S256ViewHolds(a, aa, bb, d);
    hide S256View, Alternating, S256Memory;
    match l.arr
    case AA => assert l == Cell(AA, 0, l.i);
    case BB => assert l == Cell(BB, l.j, l.i);
    case VA => assert l == A(l.i);
    case VD => assert l == Cell(VD, 0, l.i);
  }

  lemma S256Reached<T>(ar: Arith<T>, one: T, m: map<Cell, T>, n: int, t: seq<Inst>, r: map<Cell, T>)
    requires S256Memory(m, n) && n > 0 && FillsAll(t, n) && S256Result(ar, one, m, n, r)
    ensures Reached(ar, m, S256Code(one), Column(0, 1, n, 0) + t, r)
  {
    hide S256Result, Run, S256Code, Column, FillsAll;
    S256AnyOrder(ar, one, m, n, t);
    S256ResultOnce(ar, one, m, n, r, Run(ar, m, S256Code(one), Column(0, 1, n, 0) + t));
  }

  lemma S256OtherOrders<T>(ar: Arith<T>, one: T, m: map<Cell, T>, a: array<T>, aa: array2<T>, bb: array2<T>,
                           d: array<T>)
    requires S256Sizes(a, aa, bb, d) && S256Shape(m, aa.Length0, a.Length) && S256Memory(m, aa.Length0)
    requires S256Done(ar, one, m, a, aa, bb, d)
    ensures forall t | FillsAll(t, aa.Length0) ::
              Reached(ar, m, S256Code(one), Column(0, 1, aa.Length0, 0) + t, S256View(a, aa, bb, d))
  {
    S256Leaves(ar, one, m, a, aa, bb, d);
    hide *;
    var n, r := aa.Length0, S256View(a, aa, bb, d);
    forall t | FillsAll(t, n) ensures Reached(ar, m, S256Code(one), Column(0, 1, n, 0) + t, r) {
      S256Reached(ar, one, m, n, t, r);
    }
  }

  /** The body of s256's inner loop. */
  method S256Iteration<T>(ar: Arith<T>, one: T, a: array<T>, aa: array2<T>, bb: array2<T>, d: array<T>, j: nat, i: nat)
    requires a != d && aa != bb && aa.Length0 == bb.Length0 && aa.Length1 == bb.Length1
    requires 1 <= j < aa.Length0 && i < aa.Length1 && j < a.Length == d.Length
    modifies a, aa
    ensures forall k | 0 <= k < a.Length :: a[k] == if k == j then ar.sub(one, old(a[j - 1])) else old(a[k])
    ensures forall k, x | 0 <= k < aa.Length0 && 0 <= x < aa.Length1 ::
              aa[k, x] == if k == j && x == i then ar.add(a[j], ar.mul(bb[j, i], d[j])) else old(aa[k, x])
  {
    a[j] := ar.sub(one, a[j - 1]);
    aa[j, i] := ar.add(a[j], ar.mul(bb[j, i], d[j]));
  }

  /** The inner loop of s256: all of a again, and column i of aa. */
  method S256Column<T>(ar: Arith<T>, one: T, a: array<T>, aa: array2<T>, bb: array2<T>, d: array<T>, i: nat)
    requires a != d && aa != bb && aa.Length0 == aa.Length1 == bb.Length0 == bb.Length1
    requires i < aa.Length0 <= a.Length == d.Length
    modifies a, aa
    ensures forall j | 0 <= j < aa.Length0 :: a[j] == Alternating(ar, one, old(a[0]), j)
    ensures forall j | aa.Length0 <= j < a.Length :: a[j] == old(a[j])
    ensures forall j | 1 <= j < aa.Length0 ::
              aa[j, i] == ar.add(Alternating(ar, one, old(a[0]), j), ar.mul(bb[j, i], d[j]))
    ensures forall j, k | 0 <= j < aa.Length0 && 0 <= k < aa.Length0 && (j == 0 || k != i) :: aa[j, k] == old(aa[j, k])
  {
    hide Alternating;
    var n := aa.Length0;
    ghost var first := a[0];
    AlternatingNext(ar, one, first, 0);
    for j := 1 to n
      invariant forall k | 0 <= k < j :: a[k] == Alternating(ar, one, first, k)
      invariant forall k | n <= k < a.Length :: a[k] == old(a[k])
      invariant forall k | 1 <= k < j :: aa[k, i] == ar.add(Alternating(ar, one, first, k), ar.mul(bb[k, i], d[k]))
      invariant forall k, x | 0 <= k < n && 0 <= x < n && (k == 0 || x != i) :: aa[k, x] == old(aa[k, x])
    {
      AlternatingNext(ar, one, first, j);
      S256Iteration(ar, one, a, aa, bb, d, j, i);
    }
  }

  /** The loops of s256, in closed form: every outer iteration recomputes the same a from a[0]. */
  method S256Loops<T>(ar: Arith<T>, one: T, a: array<T>, aa: array2<T>, bb: array2<T>, d: array<T>)
    requires a != d && aa != bb && S256Sizes(a, aa, bb, d)
    modifies a, aa
    ensures forall j | 0 <= j < aa.Length0 :: a[j] == Alternating(ar, one, old(a[0]), j)
    ensures forall j | aa.Length0 <= j < a.Length :: a[j] == old(a[j])
    ensures forall j, i | 1 <= j < aa.Length0 && 0 <= i < aa.Length0 ::
              aa[j, i] == ar.add(Alternating(ar, one, old(a[0]), j), ar.mul(bb[j, i], d[j]))
    ensures forall i | 0 <= i < aa.Length0 :: aa[0, i] == old(aa[0, i])
  {
    hide Alternating;
    var n := aa.Length0;
    for i := 0 to n
      invariant a[0] == old(a[0])
      invariant i > 0 ==> forall j | 0 <= j < n :: a[j] == Alternating(ar, one, old(a[0]), j)
      invariant forall j | n <= j < a.Length :: a[j] == old(a[j])
      invariant forall j, k | 1 <= j < n && 0 <= k < i ::
                  aa[j, k] == ar.add(Alternating(ar, one, old(a[0]), j), ar.mul(bb[j, k], d[j]))
      invariant forall k | 0 <= k < n :: aa[0, k] == old(aa[0, k])
    {
      AlternatingNext(ar, one, a[0], 0);
      S256Column(ar, one, a, aa, bb, d, i);
    }
  }

  /** Computing a once and then filling aa in any order leaves the same arrays. */
  method S256<T>(ar: Arith<T>, one: T, a: array<T>, aa: array2<T>, bb: array2<T>, d: array<T>)
    requires a != d && aa != bb && S256Sizes(a, aa, bb, d)
    modifies a, aa
    ensures forall j | 0 <= j < aa.Length0 :: a[j] == Alternating(ar, one, old(a[0]), j)
    ensures forall j | aa.Length0 <= j < a.Length :: a[j] == old(a[j])
    ensures forall j, i | 1 <= j < aa.Length0 && 0 <= i < aa.Length0 ::
              aa[j, i] == ar.add(Alternating(ar, one, old(a[0]), j), ar.mul(bb[j, i], d[j]))
    ensures forall i | 0 <= i < aa.Length0 :: aa[0, i] == old(aa[0, i])
    ensures forall t | FillsAll(t, aa.Length0) ::
              Reached(ar, old(S256View(a, aa, bb, d)), S256Code(one), Column(0, 1, aa.Length0, 0) + t,
                      S256View(a, aa, bb, d))
  {
    ghost var m := S256View(a, aa, bb, d);
    S256Start(a, aa, bb, d);
    hide S256View, Reached, Run, S256Code, Column, FillsAll, S256Result, S256Memory, S256Shape, Alternating;
    S256Loops(ar, one, a, aa, bb, d);
    S256OtherOrders(ar, one, m, a, aa, bb, d);
  }
}

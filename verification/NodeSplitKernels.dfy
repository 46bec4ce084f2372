/**
 Node splitting: s241, where preloading a[i+1] breaks the dependence cycle, and s244, where
 only the last of the stores to a[i+1] survives.
 */
module NodeSplitKernels {
  import opened Dependence
  import opened Schedules
  import opened NestKernels
  import opened StatementKernels

  // ----- s241

  /** The preloaded copy of a[i+1]. */
  function Pre(i: int): Cell { Cell(VT, 0, i) }

  /**
   Statement 0: a[i] = b[i] * c[i] * d[i].  Statement 1: b[i] = a[i] * a[i+1] * d[i].
   Split: statement 2: pre[i] = a[i+1].  Statement 3: b[i] = a[i] * pre[i] * d[i].
   */
  ghost function S241Code<T>(c: seq<T>, d: seq<T>): Inst -> Body<Cell, T> {
    (x: Inst) => if 0 <= x.i < |c| == |d| then [S241Stmt(c, d, x)] else []
  }

  ghost function S241Stmt<T>(c: seq<T>, d: seq<T>, x: Inst): Assign<Cell, T>
    requires 0 <= x.i < |c| == |d|
  {
    if x.stmt == 0 then Assign(A(x.i), Bin(Mul, Bin(Mul, Read(B(x.i)), Lit(c[x.i])), Lit(d[x.i])))
    else if x.stmt == 1 then Assign(B(x.i), Bin(Mul, Bin(Mul, Read(A(x.i)), Read(A(x.i + 1))), Lit(d[x.i])))
    else if x.stmt == 2 then Assign(Pre(x.i), Read(A(x.i + 1)))
    else Assign(B(x.i), Bin(Mul, Bin(Mul, Read(A(x.i)), Read(Pre(x.i))), Lit(d[x.i])))
  }

  function S241Dst(x: Inst): Cell {
    if x.stmt == 0 then A(x.i) else if x.stmt == 2 then Pre(x.i) else B(x.i)
  }

  function S241Uses(x: Inst): set<Cell> {
    if x.stmt == 0 then {B(x.i)} else if x.stmt == 1 then {A(x.i), A(x.i + 1)}
    else if x.stmt == 2 then {A(x.i + 1)} else {A(x.i), Pre(x.i)}
  }

  lemma S241Facts<T>(c: seq<T>, d: seq<T>, x: Inst, keys: set<Cell>)
    requires 0 <= x.i < |c| == |d|
    ensures S241Stmt(c, d, x).dst == S241Dst(x) && S241Stmt(c, d, x).rhs.Reads() == S241Uses(x)
    ensures var b := S241Code(c, d)(x);
            Writes(b) == {S241Dst(x)} && Uses(b) == S241Uses(x)
            && (Fits(keys, b) <==> S241Dst(x) in keys && S241Uses(x) <= keys)
  {
    var rhs := S241Stmt(c, d, x).rhs;
    if x.stmt != 2 {
      assert rhs.right.Reads() == {};
      assert rhs.left.left.Reads() == {rhs.left.left.loc};
      assert rhs.left.right.Reads() == if x.stmt == 0 then {} else {rhs.left.right.loc};
      assert rhs.left.Reads() == rhs.left.left.Reads() + rhs.left.right.Reads();
    }
    Single(S241Stmt(c, d, x), keys);
  }

  ghost function Preloading(): int -> seq<Inst> {
    i => [Inst(2, 0, i), Inst(0, 0, i), Inst(3, 0, i)]
  }

  /** The loop with a[i+1] loaded first, still iteration after iteration. */
  ghost function Preloaded(hi: int): seq<Inst> {
    For(0, hi, Preloading())
  }

  /** Three loops: preload all, then all of a, then all of b. */
  ghost function Distributed(hi: int): seq<Inst> {
    Row(2, 0, 0, hi) + (Row(0, 0, 0, hi) + Row(3, 0, 0, hi))
  }

  ghost predicate S241Memory<T>(m: map<Cell, T>, n: int) {
    forall i | 0 <= i < n :: A(i) in m && B(i) in m && Pre(i) in m
  }

  lemma S241Fits<T>(m: map<Cell, T>, n: int, c: seq<T>, d: seq<T>, i: int)
    requires S241Memory(m, n) && n == |c| == |d| && i <= n - 1
    ensures FitsAll(m.Keys, S241Code(c, d), Interleaved(0, i)) && FitsAll(m.Keys, S241Code(c, d), Preloaded(i))
  {
    forall x | x in Interleaved(0, i) ensures Fits(m.Keys, S241Code(c, d)(x)) {
      InterleavedFacts(0, i, x, x);
      S241Facts(c, d, x, m.Keys);
    }
    forall x | x in Preloaded(i) ensures Fits(m.Keys, S241Code(c, d)(x)) {
      PreloadedFacts(i, x, x);
      S241Facts(c, d, x, m.Keys);
    }
  }

  /** 0, 1, 2 for the preload, the store to a and the store to b of an iteration. */
  function Rank(stmt: nat): int {
    if stmt == 2 then 0 else if stmt == 0 then 1 else 2
  }

  lemma PreloadedFacts(hi: int, e: Inst, f: Inst)
    ensures e in Preloaded(hi) <==> e.stmt in {0, 2, 3} && e.j == 0 && 0 <= e.i < hi
    ensures Before(Preloaded(hi), e, f)
            <==> e in Preloaded(hi) && f in Preloaded(hi)
                 && (e.i < f.i || (e.i == f.i && Rank(e.stmt) < Rank(f.stmt)))
  {
    ForOrder(0, hi, Preloading(), (g: Inst) => g.i, e, f);
    ForOrder(0, hi, Preloading(), (g: Inst) => g.i, f, e);
    var s := Preloading()(e.i);
    assert s[0] == Inst(2, 0, e.i) && s[1] == Inst(0, 0, e.i) && s[2] == Inst(3, 0, e.i);
  }

  lemma DistributedFacts(hi: int, e: Inst, f: Inst)
    ensures e in Distributed(hi) <==> e.stmt in {0, 2, 3} && e.j == 0 && 0 <= e.i < hi
    ensures Before(Distributed(hi), e, f)
            <==> e in Distributed(hi) && f in Distributed(hi)
                 && (Rank(e.stmt) < Rank(f.stmt) || (e.stmt == f.stmt && e.i < f.i))
  {
    BeforeConcat(Row(2, 0, 0, hi), Row(0, 0, 0, hi) + Row(3, 0, 0, hi), e, f);
    BeforeConcat(Row(0, 0, 0, hi), Row(3, 0, 0, hi), e, f);
    forall s: nat, g | g in [e, f]
      ensures g in Row(s, 0, 0, hi) <==> g.stmt == s && g.j == 0 && 0 <= g.i < hi
    {
      RowMembers(s, 0, 0, hi, g);
    }
    assert e in [e, f] && f in [e, f];
    RowOrder(2, 0, 0, hi, e, f);
    RowOrder(0, 0, 0, hi, e, f);
    RowOrder(3, 0, 0, hi, e, f);
  }

  /** Equal but for the preload cells. */
  ghost predicate SameArrays<T>(m: map<Cell, T>, n: map<Cell, T>) {
    m.Keys == n.Keys && forall l | l in m && l.arr != VT :: m[l] == n[l]
  }

  /** One iteration, with and without the preload. */
  lemma PreloadStep<T>(ar: Arith<T>, m: map<Cell, T>, n: int, c: seq<T>, d: seq<T>, i: int, x: map<Cell, T>,
                       y: map<Cell, T>)
    requires S241Memory(m, n) && n == |c| == |d| && 0 <= i < n - 1
    requires Reached(ar, m, S241Code(c, d), Interleaved(0, i), x) && Reached(ar, m, S241Code(c, d), Preloaded(i), y)
    requires SameArrays(x, y)
    ensures exists x1, y1 :: Reached(ar, m, S241Code(c, d), Interleaved(0, i + 1), x1)
                             && Reached(ar, m, S241Code(c, d), Preloaded(i + 1), y1) && SameArrays(x1, y1)
  {
    hide Reached, S241Code, Interleaved, Preloaded;
    var code := S241Code(c, d);
    assert x.Keys == m.Keys && y.Keys == m.Keys by { ReachedKeys(ar, m, code, Interleaved(0, i), x); }
    var va := ar.mul(ar.mul(x[B(i)], c[i]), d[i]);
    var vb := ar.mul(ar.mul(va, x[A(i + 1)]), d[i]);
    S241Instance(ar, m, c, d, Interleaved(0, i), Inst(0, 0, i), x);
    S241Instance(ar, m, c, d, Interleaved(0, i) + [Inst(0, 0, i)], Inst(1, 0, i), x[A(i) := va]);
    var y2 := y[Pre(i) := y[A(i + 1)]];
    S241Instance(ar, m, c, d, Preloaded(i), Inst(2, 0, i), y);
    S241Instance(ar, m, c, d, Preloaded(i) + [Inst(2, 0, i)], Inst(0, 0, i), y2);
    S241Instance(ar, m, c, d, (Preloaded(i) + [Inst(2, 0, i)]) + [Inst(0, 0, i)], Inst(3, 0, i), y2[A(i) := va]);
    InterleavedNext(0, i);
    PreloadedNext(i);
    assert SameArrays(x[A(i) := va][B(i) := vb], y2[A(i) := va][B(i) := vb]);
  }

  lemma PreloadedNext(i: int)
    requires 0 <= i
    ensures Preloaded(i + 1) == ((Preloaded(i) + [Inst(2, 0, i)]) + [Inst(0, 0, i)]) + [Inst(3, 0, i)]
  {
  }

  lemma ReachedKeys<T>(ar: Arith<T>, m: map<Cell, T>, code: Inst -> Body<Cell, T>, s: seq<Inst>, now: map<Cell, T>)
    requires Reached(ar, m, code, s, now)
    ensures now.Keys == m.Keys
  {
  }

  /** What one statement instance of s241 stores. */
  ghost function S241Value<T>(ar: Arith<T>, now: map<Cell, T>, c: seq<T>, d: seq<T>, x: Inst): T
    requires 0 <= x.i < |c| == |d| && S241Uses(x) <= now.Keys
  {
    if x.stmt == 0 then ar.mul(ar.mul(now[B(x.i)], c[x.i]), d[x.i])
    else if x.stmt == 1 then ar.mul(ar.mul(now[A(x.i)], now[A(x.i + 1)]), d[x.i])
    else if x.stmt == 2 then now[A(x.i + 1)]
    else ar.mul(ar.mul(now[A(x.i)], now[Pre(x.i)]), d[x.i])
  }

  lemma S241Instance<T>(ar: Arith<T>, m: map<Cell, T>, c: seq<T>, d: seq<T>, done: seq<Inst>, x: Inst,
                        now: map<Cell, T>)
    requires 0 <= x.i < |c| == |d| && Reached(ar, m, S241Code(c, d), done, now)
    requires S241Dst(x) in now && S241Uses(x) <= now.Keys
    ensures Reached(ar, m, S241Code(c, d), done + [x], now[S241Dst(x) := S241Value(ar, now, c, d, x)])
  {
    hide Reached;
    S241Facts(c, d, x, {});
    AdvanceTo(ar, m, S241Code(c, d), done, now, x, S241Stmt(c, d, x));
    var rhs := S241Stmt(c, d, x).rhs;
    if x.stmt != 2 {
      assert Eval(ar, now, rhs.right) == d[x.i];
      assert Eval(ar, now, rhs.left.left) == now[rhs.left.left.loc];
      assert Eval(ar, now, rhs.left) == ar.mul(Eval(ar, now, rhs.left.left), Eval(ar, now, rhs.left.right));
      assert x.stmt == 0 ==> Eval(ar, now, rhs.left.right) == c[x.i];
    }
  }

  lemma {:induction false} PreloadInline<T>(ar: Arith<T>, m: map<Cell, T>, n: int, c: seq<T>, d: seq<T>, i: nat)
    requires S241Memory(m, n) && n == |c| == |d| && (i <= n - 1 || i == 0)
    ensures exists x, y :: Reached(ar, m, S241Code(c, d), Interleaved(0, i), x)
                           && Reached(ar, m, S241Code(c, d), Preloaded(i), y) && SameArrays(x, y)
  {
    hide S241Code, FitsAll, Run, Reached;
    if i == 0 {
      ReachedStart(ar, m, S241Code(c, d));
      assert Interleaved(0, 0) == [] && Preloaded(0) == [];
    } else {
      PreloadInline(ar, m, n, c, d, i - 1);
      var x, y :| Reached(ar, m, S241Code(c, d), Interleaved(0, i - 1), x)
                  && Reached(ar, m, S241Code(c, d), Preloaded(i - 1), y) && SameArrays(x, y);
      PreloadStep(ar, m, n, c, d, i - 1, x, y);
    }
  }

  /** s241 over all of a and b is: preload a[i+1], then the a loop, then the b loop, each vectorisable. */
  lemma S241Split<T>(ar: Arith<T>, m: map<Cell, T>, n: nat, c: seq<T>, d: seq<T>)
    requires S241Memory(m, n) && n == |c| == |d| && n > 0
    ensures var code := S241Code(c, d);
            FitsAll(m.Keys, code, Interleaved(0, n - 1)) && FitsAll(m.Keys, code, Distributed(n - 1))
            && SameArrays(Run(ar, m, code, Interleaved(0, n - 1)), Run(ar, m, code, Distributed(n - 1)))
  {
    hide S241Code, Preloaded, Distributed, Interleaved, Before, Preserves, FitsAll, Run;
    var code, s, t := S241Code(c, d), Preloaded(n - 1), Distributed(n - 1);
    S241Fits(m, n, c, d, n - 1);
    PreloadInline(ar, m, n, c, d, n - 1);
    forall e ensures !Before(s, e, e) && !Before(t, e, e) && (e in s <==> e in t) {
      PreloadedFacts(n - 1, e, e);
      DistributedFacts(n - 1, e, e);
    }
    Permutation(s, t);
    DistributionLegal(c, d, n);
    Reorder(ar, m, code, s, t);
  }

  lemma DistributionLegal<T>(c: seq<T>, d: seq<T>, n: nat)
    requires n == |c| == |d| && n > 0
    ensures Preserves(S241Code(c, d), Preloaded(n - 1), Distributed(n - 1))
  {
    hide S241Code, Preloaded, Distributed, Writes, Uses, Before;
    var code, s, t := S241Code(c, d), Preloaded(n - 1), Distributed(n - 1);
    forall e, f | Before(s, e, f) && Before(t, f, e) && e != f ensures Independent(code(e), code(f)) {
      PreloadedFacts(n - 1, e, f);
      PreloadedFacts(n - 1, f, e);
      DistributedFacts(n - 1, f, e);
      S241Facts(c, d, e, {});
      S241Facts(c, d, f, {});
    }
  }

  lemma S241RowFits<T>(m: map<Cell, T>, n: nat, c: seq<T>, d: seq<T>, stmt: nat)
    requires S241Memory(m, n) && n == |c| == |d| && stmt in {0, 2, 3}
    ensures FitsAll(m.Keys, S241Code(c, d), Row(stmt, 0, 0, n - 1))
  {
    hide S241Code, Row;
    forall x | x in Row(stmt, 0, 0, n - 1) ensures Fits(m.Keys, S241Code(c, d)(x)) {
      RowMembers(stmt, 0, 0, n - 1, x);
      S241Facts(c, d, x, m.Keys);
    }
  }

  /** Each of the three loops may run in strips of any width. */
  lemma S241Strips<T>(ar: Arith<T>, m: map<Cell, T>, n: nat, c: seq<T>, d: seq<T>, stmt: nat, vf: nat)
    requires S241Memory(m, n) && n == |c| == |d| && n > 0 && stmt in {0, 2, 3} && vf > 0
    ensures var code := S241Code(c, d);
            FitsAll(m.Keys, code, Row(stmt, 0, 0, n - 1))
            && RunStrips(ar, m, code, Row(stmt, 0, 0, n - 1), vf) == Run(ar, m, code, Row(stmt, 0, 0, n - 1))
  {
    hide S241Code, Row, Run, RunStrips, Writes, Uses, FitsAll;
    S241RowFits(m, n, c, d, stmt);
    forall i, k | 0 <= i < k < n - 1
      ensures Writes(S241Code(c, d)(Inst(stmt, 0, i))) !! Uses(S241Code(c, d)(Inst(stmt, 0, k)))
    {
      S241Facts(c, d, Inst(stmt, 0, i), {});
      S241Facts(c, d, Inst(stmt, 0, k), {});
    }
    RowStrips(ar, m, S241Code(c, d), stmt, 0, n - 1, vf);
  }

  /** Vector code for the split loops: the preload, the a loop and the b loop, each in strips. */
  ghost function DistributedStrips<T>(ar: Arith<T>, m: map<Cell, T>, c: seq<T>, d: seq<T>, hi: int,
                                      vf: nat): map<Cell, T>
    requires vf > 0 && FitsAll(m.Keys, S241Code(c, d), Row(2, 0, 0, hi))
    requires FitsAll(m.Keys, S241Code(c, d), Row(0, 0, 0, hi)) && FitsAll(m.Keys, S241Code(c, d), Row(3, 0, 0, hi))
  {
    var code := S241Code(c, d);
    RunStrips(ar, RunStrips(ar, RunStrips(ar, m, code, Row(2, 0, 0, hi), vf), code, Row(0, 0, 0, hi), vf), code,
              Row(3, 0, 0, hi), vf)
  }

  /** The split loops in strips of any width leave the a and b of s241. */
  lemma S241SplitStrips<T>(ar: Arith<T>, m: map<Cell, T>, n: nat, c: seq<T>, d: seq<T>, vf: nat)
    requires S241Memory(m, n) && n == |c| == |d| && n > 0 && vf > 0
    ensures var code := S241Code(c, d);
            FitsAll(m.Keys, code, Interleaved(0, n - 1)) && FitsAll(m.Keys, code, Row(2, 0, 0, n - 1))
            && FitsAll(m.Keys, code, Row(0, 0, 0, n - 1)) && FitsAll(m.Keys, code, Row(3, 0, 0, n - 1))
            && SameArrays(Run(ar, m, code, Interleaved(0, n - 1)), DistributedStrips(ar, m, c, d, n - 1, vf))
  {
    hide S241Code, Row, Run, RunStrips, FitsAll, Interleaved, SameArrays;
    var code, p, q, r := S241Code(c, d), Row(2, 0, 0, n - 1), Row(0, 0, 0, n - 1), Row(3, 0, 0, n - 1);
    S241Split(ar, m, n, c, d);
    S241Strips(ar, m, n, c, d, 2, vf);
    var m1 := Run(ar, m, code, p);
    S241Strips(ar, m1, n, c, d, 0, vf);
    var m2 := Run(ar, m1, code, q);
    S241Strips(ar, m2, n, c, d, 3, vf);
    BothFit(m.Keys, code, q, r);
    RunConcat(ar, m, code, p, q + r);
    RunConcat(ar, m1, code, q, r);
  }

  lemma BothFit<T>(keys: set<Cell>, code: Inst -> Body<Cell, T>, s: seq<Inst>, t: seq<Inst>)
    requires FitsAll(keys, code, s) && FitsAll(keys, code, t)
    ensures FitsAll(keys, code, s + t)
  {
  }

  /** The source's loop; `pre` is the scratch memory the split version would use. */
  method S241<T>(ar: Arith<T>, a: array<T>, b: array<T>, c: array<T>, d: array<T>, ghost pre: map<Cell, T>)
    requires a != b && a != c && a != d && b != c && b != d
    requires a.Length == b.Length == c.Length == d.Length && forall l | l in pre :: l.arr == VT
    modifies a, b
    ensures Reached(ar, old(AB(a[..], b[..])) + pre, S241Code(c[..], d[..]), Interleaved(0, a.Length - 1),
                    AB(a[..], b[..]) + pre)
    ensures forall i | 0 <= i < a.Length - 1 ::
              a[i] == ar.mul(ar.mul(old(b[i]), c[i]), d[i]) && b[i] == ar.mul(ar.mul(a[i], old(a[i + 1])), d[i])
    ensures a.Length > 0 ==> a[a.Length - 1] == old(a[a.Length - 1]) && b[a.Length - 1] == old(b[a.Length - 1])
  {
    hide Reached, AB, Interleaved, S241Code;
    ghost var m, code := AB(a[..], b[..]) + pre, S241Code(c[..], d[..]);
    InterleavedStart(ar, m, code, 0, a.Length - 1);
    var i := 0;
    while i < a.Length - 1
      invariant 0 <= i && (i <= a.Length - 1 || i == 0)
      invariant Reached(ar, m, code, Interleaved(0, i), AB(a[..], b[..]) + pre)
      invariant forall k | 0 <= k < i ::
                  a[k] == ar.mul(ar.mul(old(b[k]), c[k]), d[k]) && b[k] == ar.mul(ar.mul(a[k], old(a[k + 1])), d[k])
      invariant forall k | i <= k < a.Length :: a[k] == old(a[k]) && b[k] == old(b[k])
    {
      ghost var a0, b0 := a[..], b[..];
      S241Step(ar, m, c[..], d[..], i, a0, b0, pre);
      a[i] := ar.mul(ar.mul(b[i], c[i]), d[i]);
      b[i] := ar.mul(ar.mul(a[i], a[i + 1]), d[i]);
      assert a[..] == a0[i := ar.mul(ar.mul(b0[i], c[i]), d[i])];
      assert b[..] == b0[i := ar.mul(ar.mul(a[i], a[i + 1]), d[i])];
      i := i + 1;
    }
  }

  lemma S241Step<T>(ar: Arith<T>, m: map<Cell, T>, c: seq<T>, d: seq<T>, i: int, a: seq<T>, b: seq<T>,
                    pre: map<Cell, T>)
    requires |a| == |b| == |c| == |d| && 0 <= i < |a| - 1 && forall l | l in pre :: l.arr == VT
    requires Reached(ar, m, S241Code(c, d), Interleaved(0, i), AB(a, b) + pre)
    ensures var a1 := a[i := ar.mul(ar.mul(b[i], c[i]), d[i])];
            var b1 := b[i := ar.mul(ar.mul(a1[i], a1[i + 1]), d[i])];
            Reached(ar, m, S241Code(c, d), Interleaved(0, i + 1), AB(a1, b1) + pre)
  {
    hide Reached, S241Code, Interleaved, AB;
    var a1 := a[i := ar.mul(ar.mul(b[i], c[i]), d[i])];
    S241Instance(ar, m, c, d, Interleaved(0, i), Inst(0, 0, i), AB(a, b) + pre);
    StoreA(a, b, i, a1[i]);
    assert (AB(a, b) + pre)[A(i) := a1[i]] == AB(a1, b) + pre;
    S241Instance(ar, m, c, d, Interleaved(0, i) + [Inst(0, 0, i)], Inst(1, 0, i), AB(a1, b) + pre);
    var vb := ar.mul(ar.mul(a1[i], a1[i + 1]), d[i]);
    StoreB(a1, b, i, vb);
    assert (AB(a1, b) + pre)[B(i) := vb] == AB(a1, b[i := vb]) + pre;
    InterleavedNext(0, i);
  }

  // ----- s244

  /**
   Every store to a[i+1] but the last is overwritten by the next iteration before it is read, so
   one vector statement for a, one for b, and a last scalar store give the whole result.
   */
  method S244<T>(ar: Arith<T>, a: array<T>, b: array<T>, c: array<T>, d: array<T>)
    requires a != b && a != c && a != d && b != c && b != d
    requires a.Length == b.Length == c.Length == d.Length > 0
    modifies a, b
    ensures forall i | 0 <= i < a.Length - 1 :: a[i] == ar.add(old(b[i]), ar.mul(c[i], d[i]))
    ensures forall i | 0 <= i < a.Length - 1 :: b[i] == ar.add(c[i], old(b[i]))
    ensures b[a.Length - 1] == old(b[a.Length - 1])
    ensures var n := a.Length;
            a[n - 1] == if n == 1 then old(a[n - 1])
                        else ar.add(ar.add(c[n - 2], old(b[n - 2])), ar.mul(old(a[n - 1]), d[n - 2]))
  {
    for i := 0 to a.Length - 1
      invariant forall k | 0 <= k < i :: a[k] == ar.add(old(b[k]), ar.mul(c[k], d[k]))
      invariant forall k | 0 <= k < i :: b[k] == ar.add(c[k], old(b[k]))
      invariant i > 0 ==> a[i] == ar.add(ar.add(c[i - 1], old(b[i - 1])), ar.mul(old(a[i]), d[i - 1]))
      invariant forall k | i <= k < a.Length :: b[k] == old(b[k])
      invariant forall k | (if i == 0 then 0 else i + 1) <= k < a.Length :: a[k] == old(a[k])
    {
      a[i] := ar.add(b[i], ar.mul(c[i], d[i]));
      b[i] := ar.add(c[i], b[i]);
      a[i + 1] := ar.add(b[i], ar.mul(a[i + 1], d[i]));
    }
  }
}

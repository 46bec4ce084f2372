/**
 Kernels of two statements that may be reordered: s211 and s1213.  The arrays a and b are the
 memory; the arrays a kernel only reads are constants of its statements.
 */
module StatementKernels {
  import opened Dependence
  import opened Schedules
  import opened NestKernels

  /** The memory of a loop over the vectors a and b. */
  ghost function AB<T>(a: seq<T>, b: seq<T>): (m: map<Cell, T>)
    ensures forall c :: c in m <==> c.j == 0 && ((c.arr == VA && 0 <= c.i < |a|) || (c.arr == VB && 0 <= c.i < |b|))
    ensures forall i | 0 <= i < |a| :: m[A(i)] == a[i]
    ensures forall i | 0 <= i < |b| :: m[B(i)] == b[i]
  {
    map c | c in Cells(|a|, |b|) :: if c.arr == VA then a[c.i] else b[c.i]
  }

  ghost function Cells(n: nat, k: nat): (s: set<Cell>)
    ensures forall c :: c in s <==> c.j == 0 && ((c.arr == VA && 0 <= c.i < n) || (c.arr == VB && 0 <= c.i < k))
  {
    (set i | 0 <= i < n :: Cell(VA, 0, i)) + (set i | 0 <= i < k :: Cell(VB, 0, i))
  }

  function A(i: int): Cell { Cell(VA, 0, i) }

  function B(i: int): Cell { Cell(VB, 0, i) }

  lemma StoreA<T>(a: seq<T>, b: seq<T>, i: int, v: T)
    requires 0 <= i < |a|
    ensures AB(a[i := v], b) == AB(a, b)[A(i) := v]
  {
  }

  lemma StoreB<T>(a: seq<T>, b: seq<T>, i: int, v: T)
    requires 0 <= i < |b|
    ensures AB(a, b[i := v]) == AB(a, b)[B(i) := v]
  {
  }

  // ----- schedules of two statements

  ghost function Both(): int -> seq<Inst> {
    i => [Inst(0, 0, i), Inst(1, 0, i)]
  }

  /** The source's order: statement 0 then statement 1, iteration after iteration. */
  ghost function Interleaved(lo: int, hi: int): seq<Inst> {
    For(lo, hi, Both())
  }

  /** Statement reordering: the whole of statement 1, then the whole of statement 0. */
  ghost function Reordered(lo: int, hi: int): seq<Inst> {
    Row(1, 0, lo, hi) + Row(0, 0, lo, hi)
  }

  lemma InterleavedFacts(lo: int, hi: int, e: Inst, f: Inst)
    ensures e in Interleaved(lo, hi) <==> e.stmt <= 1 && e.j == 0 && lo <= e.i < hi
    ensures Before(Interleaved(lo, hi), e, f)
            <==> e in Interleaved(lo, hi) && f in Interleaved(lo, hi)
                 && (e.i < f.i || (e.i == f.i && e.stmt < f.stmt))
  {
    ForOrder(lo, hi, Both(), (g: Inst) => g.i, e, f);
    ForOrder(lo, hi, Both(), (g: Inst) => g.i, f, e);
    var s := Both()(e.i);
    assert s[0] == Inst(0, 0, e.i) && s[1] == Inst(1, 0, e.i);
  }

  lemma ReorderedFacts(lo: int, hi: int, e: Inst, f: Inst)
    ensures e in Reordered(lo, hi) <==> e.stmt <= 1 && e.j == 0 && lo <= e.i < hi
    ensures Before(Reordered(lo, hi), e, f)
            <==> e in Reordered(lo, hi) && f in Reordered(lo, hi)
                 && (e.stmt > f.stmt || (e.stmt == f.stmt && e.i < f.i))
  {
    BeforeConcat(Row(1, 0, lo, hi), Row(0, 0, lo, hi), e, f);
    RowOrder(1, 0, lo, hi, e, f);
    RowOrder(0, 0, lo, hi, e, f);
    RowMembers(1, 0, lo, hi, e);
    RowMembers(0, 0, lo, hi, e);
    RowMembers(1, 0, lo, hi, f);
    RowMembers(0, 0, lo, hi, f);
  }

  lemma ReorderedPermutes(lo: int, hi: int)
    ensures multiset(Reordered(lo, hi)) == multiset(Interleaved(lo, hi))
  {
    forall e ensures !Before(Reordered(lo, hi), e, e) && !Before(Interleaved(lo, hi), e, e)
                     && (e in Reordered(lo, hi) <==> e in Interleaved(lo, hi))
    {
      ReorderedFacts(lo, hi, e, e);
      InterleavedFacts(lo, hi, e, e);
    }
    Permutation(Reordered(lo, hi), Interleaved(lo, hi));
  }

  /** One statement's instances, in strips, when none of them reads a cell an earlier one stores. */
  lemma RowStrips<T>(ar: Arith<T>, m: map<Cell, T>, code: Inst -> Body<Cell, T>, stmt: nat, lo: int, hi: int, vf: nat)
    requires vf > 0 && FitsAll(m.Keys, code, Row(stmt, 0, lo, hi))
    requires forall i, k | lo <= i < k < hi :: Writes(code(Inst(stmt, 0, i))) !! Uses(code(Inst(stmt, 0, k)))
    ensures RunStrips(ar, m, code, Row(stmt, 0, lo, hi), vf) == Run(ar, m, code, Row(stmt, 0, lo, hi))
  {
    Strips(ar, m, code, Row(stmt, 0, lo, hi), vf);
  }

  /** Vector code for the reordered loops: statement 1 in strips, then statement 0 in strips. */
  ghost function ReorderedStrips<T>(ar: Arith<T>, m: map<Cell, T>, code: Inst -> Body<Cell, T>, lo: int, hi: int,
                                    vf: nat): map<Cell, T>
    requires vf > 0 && FitsAll(m.Keys, code, Row(1, 0, lo, hi)) && FitsAll(m.Keys, code, Row(0, 0, lo, hi))
  {
    RunStrips(ar, RunStrips(ar, m, code, Row(1, 0, lo, hi), vf), code, Row(0, 0, lo, hi), vf)
  }

  /**
   When no instance of statement 0 reaches a later one, and statement 1 only reaches later
   instances of statement 0, the two loops may be split, statement 1 first, each in strips.
   */
  lemma SplitLoops<T>(ar: Arith<T>, m: map<Cell, T>, code: Inst -> Body<Cell, T>, lo: int, hi: int, vf: nat)
    requires vf > 0 && FitsAll(m.Keys, code, Interleaved(lo, hi))
    requires forall i, k | lo <= i <= k < hi :: Independent(code(Inst(0, 0, i)), code(Inst(1, 0, k)))
    requires forall s, i, k | 0 <= s <= 1 && lo <= i < k < hi ::
               Writes(code(Inst(s, 0, i))) !! Uses(code(Inst(s, 0, k)))
    ensures FitsAll(m.Keys, code, Row(1, 0, lo, hi)) && FitsAll(m.Keys, code, Row(0, 0, lo, hi))
    ensures ReorderedStrips(ar, m, code, lo, hi, vf) == Run(ar, m, code, Interleaved(lo, hi))
  {
    var s, t := Interleaved(lo, hi), Reordered(lo, hi);
    ReorderedPermutes(lo, hi);
    forall e, f | Before(s, e, f) && Before(t, f, e) && e != f ensures Independent(code(e), code(f)) {
      InterleavedFacts(lo, hi, e, f);
      InterleavedFacts(lo, hi, f, e);
      ReorderedFacts(lo, hi, f, e);
      assert e == Inst(0, 0, e.i) && f == Inst(1, 0, f.i);
    }
    Reorder(ar, m, code, s, t);
    RunConcat(ar, m, code, Row(1, 0, lo, hi), Row(0, 0, lo, hi));
    RowStrips(ar, m, code, 1, lo, hi, vf);
    RowStrips(ar, Run(ar, m, code, Row(1, 0, lo, hi)), code, 0, lo, hi, vf);
  }

  // ----- s211

  /** Statement 0: a[i] = b[i-1] + c[i] * d[i].  Statement 1: b[i] = b[i+1] - e[i] * d[i]. */
  ghost function S211Code<T>(c: seq<T>, d: seq<T>, e: seq<T>): Inst -> Body<Cell, T> {
    (x: Inst) => if 0 <= x.i < |c| && |c| == |d| == |e| then [S211Stmt(c, d, e, x)] else []
  }

  ghost function S211Stmt<T>(c: seq<T>, d: seq<T>, e: seq<T>, x: Inst): Assign<Cell, T>
    requires 0 <= x.i < |c| == |d| == |e|
  {
    if x.stmt == 0 then Assign(A(x.i), Bin(Add, Read(B(x.i - 1)), Bin(Mul, Lit(c[x.i]), Lit(d[x.i]))))
    else Assign(B(x.i), Bin(Sub, Read(B(x.i + 1)), Bin(Mul, Lit(e[x.i]), Lit(d[x.i]))))
  }

  lemma S211Facts<T>(c: seq<T>, d: seq<T>, e: seq<T>, x: Inst, keys: set<Cell>)
    requires 0 <= x.i < |c| == |d| == |e|
    ensures var b := S211Code(c, d, e)(x);
            Writes(b) == {if x.stmt == 0 then A(x.i) else B(x.i)}
            && Uses(b) == {if x.stmt == 0 then B(x.i - 1) else B(x.i + 1)}
            && (Fits(keys, b) <==> Writes(b) + Uses(b) <= keys)
  {
    var a := S211Stmt(c, d, e, x);
    assert a.rhs.right.Reads() == {} by { assert a.rhs.right.left.Reads() == {} && a.rhs.right.right.Reads() == {}; }
    assert a.rhs.left.Reads() == {a.rhs.left.loc};
    Single(a, keys);
  }

  lemma S211Fits<T>(n: int, c: seq<T>, d: seq<T>, e: seq<T>, keys: set<Cell>)
    requires n == |c| == |d| == |e| && forall i | 0 <= i < n :: A(i) in keys && B(i) in keys
    ensures FitsAll(keys, S211Code(c, d, e), Interleaved(1, n - 1))
  {
    forall x | x in Interleaved(1, n - 1) ensures Fits(keys, S211Code(c, d, e)(x)) {
      InterleavedFacts(1, n - 1, x, x);
      S211Facts(c, d, e, x, keys);
    }
  }

  /** s211 is its b loop followed by its a loop, each in strips of any width. */
  lemma S211Reordered<T>(ar: Arith<T>, m: map<Cell, T>, n: int, c: seq<T>, d: seq<T>, e: seq<T>, vf: nat)
    requires vf > 0 && n == |c| == |d| == |e| && forall i | 0 <= i < n :: A(i) in m && B(i) in m
    ensures var code := S211Code(c, d, e);
            FitsAll(m.Keys, code, Interleaved(1, n - 1))
            && FitsAll(m.Keys, code, Row(1, 0, 1, n - 1)) && FitsAll(m.Keys, code, Row(0, 0, 1, n - 1))
            && ReorderedStrips(ar, m, code, 1, n - 1, vf) == Run(ar, m, code, Interleaved(1, n - 1))
  {
    hide Interleaved, Row, Run, RunStrips, ReorderedStrips, S211Code, Fits;
    var code := S211Code(c, d, e);
    S211Fits(n, c, d, e, m.Keys);
    forall i, k | 1 <= i <= k < n - 1 ensures Independent(code(Inst(0, 0, i)), code(Inst(1, 0, k))) {
      S211Facts(c, d, e, Inst(0, 0, i), {});
      S211Facts(c, d, e, Inst(1, 0, k), {});
    }
    forall s, i, k | 0 <= s <= 1 && 1 <= i < k < n - 1
      ensures Writes(code(Inst(s, 0, i))) !! Uses(code(Inst(s, 0, k)))
    {
      S211Facts(c, d, e, Inst(s, 0, i), {});
      S211Facts(c, d, e, Inst(s, 0, k), {});
    }
    SplitLoops(ar, m, code, 1, n - 1, vf);
  }

  /** One iteration of s211: statement 0 on a, then statement 1 on b. */
  lemma S211Step<T>(ar: Arith<T>, m: map<Cell, T>, c: seq<T>, d: seq<T>, e: seq<T>, i: int, a: seq<T>, b: seq<T>)
    requires |a| == |b| == |c| == |d| == |e| && 1 <= i < |a| - 1
    requires Reached(ar, m, S211Code(c, d, e), Interleaved(1, i), AB(a, b))
    ensures var a1 := a[i := ar.add(b[i - 1], ar.mul(c[i], d[i]))];
            var b1 := b[i := ar.sub(b[i + 1], ar.mul(e[i], d[i]))];
            Reached(ar, m, S211Code(c, d, e), Interleaved(1, i + 1), AB(a1, b1))
  {
    hide Reached, AB, Interleaved, S211Code, S211Stmt;
    var x0, x1 := Inst(0, 0, i), Inst(1, 0, i);
    var a1 := a[i := ar.add(b[i - 1], ar.mul(c[i], d[i]))];
    S211Instance(ar, m, c, d, e, Interleaved(1, i), x0, a, b);
    S211Instance(ar, m, c, d, e, Interleaved(1, i) + [x0], x1, a1, b);
    InterleavedNext(1, i);
  }

  lemma InterleavedNext(lo: int, i: int)
    requires lo <= i
    ensures Interleaved(lo, i + 1) == (Interleaved(lo, i) + [Inst(0, 0, i)]) + [Inst(1, 0, i)]
  {
  }

  /** One statement instance of s211 on the arrays. */
  lemma S211Instance<T>(ar: Arith<T>, m: map<Cell, T>, c: seq<T>, d: seq<T>, e: seq<T>, done: seq<Inst>, x: Inst,
                        a: seq<T>, b: seq<T>)
    requires |a| == |b| == |c| == |d| == |e| && 1 <= x.i < |a| - 1
    requires Reached(ar, m, S211Code(c, d, e), done, AB(a, b))
    ensures x.stmt == 0 ==> Reached(ar, m, S211Code(c, d, e), done + [x],
                                    AB(a[x.i := ar.add(b[x.i - 1], ar.mul(c[x.i], d[x.i]))], b))
    ensures x.stmt == 1 ==> Reached(ar, m, S211Code(c, d, e), done + [x],
                                    AB(a, b[x.i := ar.sub(b[x.i + 1], ar.mul(e[x.i], d[x.i]))]))
  {
    hide Reached, AB;
    var rhs := S211Stmt(c, d, e, x).rhs;
    assert rhs.right.Reads() == rhs.right.left.Reads() + rhs.right.right.Reads() == {};
    assert rhs.left.Reads() == {rhs.left.loc};
    AdvanceTo(ar, m, S211Code(c, d, e), done, AB(a, b), x, S211Stmt(c, d, e, x));
    if x.stmt == 0 {
      assert Eval(ar, AB(a, b), rhs.left) == b[x.i - 1] && Eval(ar, AB(a, b), rhs.right) == ar.mul(c[x.i], d[x.i]);
      StoreA(a, b, x.i, ar.add(b[x.i - 1], ar.mul(c[x.i], d[x.i])));
    } else {
      assert Eval(ar, AB(a, b), rhs.left) == b[x.i + 1] && Eval(ar, AB(a, b), rhs.right) == ar.mul(e[x.i], d[x.i]);
      StoreB(a, b, x.i, ar.sub(b[x.i + 1], ar.mul(e[x.i], d[x.i])));
    }
  }

  method S211<T>(ar: Arith<T>, a: array<T>, b: array<T>, c: array<T>, d: array<T>, e: array<T>)
    requires a != b && a != c && a != d && a != e && b != c && b != d && b != e
    requires a.Length == b.Length == c.Length == d.Length == e.Length
    modifies a, b
    ensures Reached(ar, old(AB(a[..], b[..])), S211Code(c[..], d[..], e[..]), Interleaved(1, a.Length - 1),
                    AB(a[..], b[..]))
    ensures forall i | 1 <= i < a.Length - 1 :: a[i] == ar.add(b[i - 1], ar.mul(c[i], d[i]))
    ensures forall i | 1 <= i < a.Length - 1 :: b[i] == ar.sub(old(b[i + 1]), ar.mul(e[i], d[i]))
    ensures forall i | 0 <= i < a.Length && (i == 0 || i == a.Length - 1) :: a[i] == old(a[i]) && b[i] == old(b[i])
  {
    hide Reached, AB, Interleaved, S211Code, S211Done;
    ghost var m, code := AB(a[..], b[..]), S211Code(c[..], d[..], e[..]);
    S211Begins(ar, a[..], b[..], c[..], d[..], e[..]);
    InterleavedStart(ar, m, code, 1, a.Length - 1);
    var i := 1;
    while i < a.Length - 1
      invariant 1 <= i && (i <= a.Length - 1 || i == 1)
      invariant Reached(ar, m, code, Interleaved(1, i), AB(a[..], b[..]))
      invariant S211Done(ar, i, old(a[..]), old(b[..]), a[..], b[..], c[..], d[..], e[..])
    {
      ghost var a0, b0 := a[..], b[..];
      S211Step(ar, m, c[..], d[..], e[..], i, a0, b0);
      S211Continues(ar, i, old(a[..]), old(b[..]), a0, b0, c[..], d[..], e[..]);
      a[i] := ar.add(b[i - 1], ar.mul(c[i], d[i]));
      b[i] := ar.sub(b[i + 1], ar.mul(e[i], d[i]));
      assert a[..] == a0[i := ar.add(b0[i - 1], ar.mul(c[i], d[i]))];
      assert b[..] == b0[i := ar.sub(b0[i + 1], ar.mul(e[i], d[i]))];
      i := i + 1;
    }
    S211Ends(ar, i, old(a[..]), old(b[..]), a[..], b[..], c[..], d[..], e[..]);
  }

  /** The iterations before `i` have run on `a0` and `b0`. */
  ghost predicate S211Done<T>(ar: Arith<T>, i: int, a0: seq<T>, b0: seq<T>, a: seq<T>, b: seq<T>, c: seq<T>,
                              d: seq<T>, e: seq<T>) {
    |a0| == |b0| == |a| == |b| == |c| == |d| == |e| && (i < |a| || i == 1)
    && (forall k | 1 <= k < i && k < |a| - 1 :: a[k] == ar.add(b[k - 1], ar.mul(c[k], d[k])))
    && (forall k | 1 <= k < i && k < |a| - 1 :: b[k] == ar.sub(b0[k + 1], ar.mul(e[k], d[k])))
    && forall k | 0 <= k < |a| && (k == 0 || i <= k) :: a[k] == a0[k] && b[k] == b0[k]
  }

  lemma S211Begins<T>(ar: Arith<T>, a: seq<T>, b: seq<T>, c: seq<T>, d: seq<T>, e: seq<T>)
    requires |a| == |b| == |c| == |d| == |e|
    ensures S211Done(ar, 1, a, b, a, b, c, d, e)
  {
  }

  lemma S211Continues<T>(ar: Arith<T>, i: int, a0: seq<T>, b0: seq<T>, a: seq<T>, b: seq<T>, c: seq<T>, d: seq<T>,
                         e: seq<T>)
    requires S211Done(ar, i, a0, b0, a, b, c, d, e) && 1 <= i < |a| - 1
    ensures S211Done(ar, i + 1, a0, b0, a[i := ar.add(b[i - 1], ar.mul(c[i], d[i]))],
                     b[i := ar.sub(b[i + 1], ar.mul(e[i], d[i]))], c, d, e)
  {
  }

  lemma S211Ends<T>(ar: Arith<T>, i: int, a0: seq<T>, b0: seq<T>, a: seq<T>, b: seq<T>, c: seq<T>, d: seq<T>,
                    e: seq<T>)
    requires S211Done(ar, i, a0, b0, a, b, c, d, e) && |a| - 1 <= i
    ensures forall k | 1 <= k < |a| - 1 :: a[k] == ar.add(b[k - 1], ar.mul(c[k], d[k]))
    ensures forall k | 1 <= k < |a| - 1 :: b[k] == ar.sub(b0[k + 1], ar.mul(e[k], d[k]))
    ensures forall k | 0 <= k < |a| && (k == 0 || k == |a| - 1) :: a[k] == a0[k] && b[k] == b0[k]
  {
  }

  lemma InterleavedStart<T>(ar: Arith<T>, m: map<Cell, T>, code: Inst -> Body<Cell, T>, lo: int, hi: int)
    ensures Reached(ar, m, code, Interleaved(lo, lo), m)
    ensures hi <= lo ==> Interleaved(lo, hi) == Interleaved(lo, lo)
  {
  }

  // ----- s1213

  /** Statement 0: a[i] = b[i-1] + c[i].  Statement 1: b[i] = a[i+1] * d[i]. */
  ghost function S1213Code<T>(c: seq<T>, d: seq<T>): Inst -> Body<Cell, T> {
    (x: Inst) => if 0 <= x.i < |c| == |d| then [S1213Stmt(c, d, x)] else []
  }

  ghost function S1213Stmt<T>(c: seq<T>, d: seq<T>, x: Inst): Assign<Cell, T>
    requires 0 <= x.i < |c| == |d|
  {
    if x.stmt == 0 then Assign(A(x.i), Bin(Add, Read(B(x.i - 1)), Lit(c[x.i])))
    else Assign(B(x.i), Bin(Mul, Read(A(x.i + 1)), Lit(d[x.i])))
  }

  lemma S1213Facts<T>(c: seq<T>, d: seq<T>, x: Inst, keys: set<Cell>)
    requires 0 <= x.i < |c| == |d|
    ensures var b := S1213Code(c, d)(x);
            Writes(b) == {if x.stmt == 0 then A(x.i) else B(x.i)}
            && Uses(b) == {if x.stmt == 0 then B(x.i - 1) else A(x.i + 1)}
            && (Fits(keys, b) <==> Writes(b) + Uses(b) <= keys)
  {
    var a := S1213Stmt(c, d, x);
    assert a.rhs.right.Reads() == {} && a.rhs.left.Reads() == {a.rhs.left.loc};
    Single(a, keys);
  }

  /** s1213 is its b loop followed by its a loop, each in strips of any width. */
  lemma S1213Reordered<T>(ar: Arith<T>, m: map<Cell, T>, n: int, c: seq<T>, d: seq<T>, vf: nat)
    requires vf > 0 && n == |c| == |d| && forall i | 0 <= i < n :: A(i) in m && B(i) in m
    ensures var code := S1213Code(c, d);
            FitsAll(m.Keys, code, Interleaved(1, n - 1))
            && FitsAll(m.Keys, code, Row(1, 0, 1, n - 1)) && FitsAll(m.Keys, code, Row(0, 0, 1, n - 1))
            && ReorderedStrips(ar, m, code, 1, n - 1, vf) == Run(ar, m, code, Interleaved(1, n - 1))
  {
    hide Interleaved, Row, Run, RunStrips, ReorderedStrips, S1213Code, Fits;
    var code := S1213Code(c, d);
    forall x | x in Interleaved(1, n - 1) ensures Fits(m.Keys, code(x)) {
      InterleavedFacts(1, n - 1, x, x);
      S1213Facts(c, d, x, m.Keys);
    }
    forall i, k | 1 <= i <= k < n - 1 ensures Independent(code(Inst(0, 0, i)), code(Inst(1, 0, k))) {
      S1213Facts(c, d, Inst(0, 0, i), {});
      S1213Facts(c, d, Inst(1, 0, k), {});
    }
    forall s, i, k | 0 <= s <= 1 && 1 <= i < k < n - 1
      ensures Writes(code(Inst(s, 0, i))) !! Uses(code(Inst(s, 0, k)))
    {
      S1213Facts(c, d, Inst(s, 0, i), {});
      S1213Facts(c, d, Inst(s, 0, k), {});
    }
    SplitLoops(ar, m, code, 1, n - 1, vf);
  }

  lemma S1213Step<T>(ar: Arith<T>, m: map<Cell, T>, c: seq<T>, d: seq<T>, i: int, a: seq<T>, b: seq<T>)
    requires |a| == |b| == |c| == |d| && 1 <= i < |a| - 1
    requires Reached(ar, m, S1213Code(c, d), Interleaved(1, i), AB(a, b))
    ensures var a1 := a[i := ar.add(b[i - 1], c[i])];
            var b1 := b[i := ar.mul(a1[i + 1], d[i])];
            Reached(ar, m, S1213Code(c, d), Interleaved(1, i + 1), AB(a1, b1))
  {
    hide Reached, AB, Interleaved, S1213Code, S1213Stmt;
    var x0, x1 := Inst(0, 0, i), Inst(1, 0, i);
    S1213Instance(ar, m, c, d, Interleaved(1, i), x0, a, b);
    S1213Instance(ar, m, c, d, Interleaved(1, i) + [x0], x1, a[i := ar.add(b[i - 1], c[i])], b);
    InterleavedNext(1, i);
  }

  /** One statement instance of s1213 on the arrays. */
  lemma S1213Instance<T>(ar: Arith<T>, m: map<Cell, T>, c: seq<T>, d: seq<T>, done: seq<Inst>, x: Inst,
                         a: seq<T>, b: seq<T>)
    requires |a| == |b| == |c| == |d| && 1 <= x.i < |a| - 1
    requires Reached(ar, m, S1213Code(c, d), done, AB(a, b))
    ensures x.stmt == 0 ==> Reached(ar, m, S1213Code(c, d), done + [x], AB(a[x.i := ar.add(b[x.i - 1], c[x.i])], b))
    ensures x.stmt == 1 ==> Reached(ar, m, S1213Code(c, d), done + [x], AB(a, b[x.i := ar.mul(a[x.i + 1], d[x.i])]))
  {
    hide Reached, AB;
    var rhs := S1213Stmt(c, d, x).rhs;
    assert rhs.right.Reads() == {} && rhs.left.Reads() == {rhs.left.loc};
    AdvanceTo(ar, m, S1213Code(c, d), done, AB(a, b), x, S1213Stmt(c, d, x));
    if x.stmt == 0 {
      assert Eval(ar, AB(a, b), rhs.left) == b[x.i - 1] && Eval(ar, AB(a, b), rhs.right) == c[x.i];
      StoreA(a, b, x.i, ar.add(b[x.i - 1], c[x.i]));
    } else {
      assert Eval(ar, AB(a, b), rhs.left) == a[x.i + 1] && Eval(ar, AB(a, b), rhs.right) == d[x.i];
      StoreB(a, b, x.i, ar.mul(a[x.i + 1], d[x.i]));
    }
  }

  method S1213<T>(ar: Arith<T>, a: array<T>, b: array<T>, c: array<T>, d: array<T>)
    requires a != b && a != c && a != d && b != c && b != d
    requires a.Length == b.Length == c.Length == d.Length
    modifies a, b
    ensures Reached(ar, old(AB(a[..], b[..])), S1213Code(c[..], d[..]), Interleaved(1, a.Length - 1), AB(a[..], b[..]))
    ensures forall i | 1 <= i < a.Length - 1 :: a[i] == ar.add(b[i - 1], c[i]) && b[i] == ar.mul(old(a[i + 1]), d[i])
    ensures forall i | 0 <= i < a.Length && (i == 0 || i == a.Length - 1) :: a[i] == old(a[i]) && b[i] == old(b[i])
  {
    hide Reached, AB, Interleaved, S1213Code, S1213Done;
    ghost var m, code := AB(a[..], b[..]), S1213Code(c[..], d[..]);
    S1213Begins(ar, a[..], b[..], c[..], d[..]);
    InterleavedStart(ar, m, code, 1, a.Length - 1);
    var i := 1;
    while i < a.Length - 1
      invariant 1 <= i && (i <= a.Length - 1 || i == 1)
      invariant Reached(ar, m, code, Interleaved(1, i), AB(a[..], b[..]))
      invariant S1213Done(ar, i, old(a[..]), old(b[..]), a[..], b[..], c[..], d[..])
    {
      ghost var a0, b0 := a[..], b[..];
      S1213Step(ar, m, c[..], d[..], i, a0, b0);
      S1213Continues(ar, i, old(a[..]), old(b[..]), a0, b0, c[..], d[..]);
      a[i] := ar.add(b[i - 1], c[i]);
      b[i] := ar.mul(a[i + 1], d[i]);
      assert a[..] == a0[i := ar.add(b0[i - 1], c[i])];
      assert b[..] == b0[i := ar.mul(a[i + 1], d[i])];
      i := i + 1;
    }
    S1213Ends(ar, i, old(a[..]), old(b[..]), a[..], b[..], c[..], d[..]);
  }

  /** The iterations before `i` have run on `a0` and `b0`. */
  ghost predicate S1213Done<T>(ar: Arith<T>, i: int, a0: seq<T>, b0: seq<T>, a: seq<T>, b: seq<T>, c: seq<T>,
                               d: seq<T>) {
    |a0| == |b0| == |a| == |b| == |c| == |d| && (i < |a| || i == 1)
    && (forall k | 1 <= k < i && k < |a| - 1 :: a[k] == ar.add(b[k - 1], c[k]) && b[k] == ar.mul(a0[k + 1], d[k]))
    && forall k | 0 <= k < |a| && (k == 0 || i <= k) :: a[k] == a0[k] && b[k] == b0[k]
  }

  lemma S1213Begins<T>(ar: Arith<T>, a: seq<T>, b: seq<T>, c: seq<T>, d: seq<T>)
    requires |a| == |b| == |c| == |d|
    ensures S1213Done(ar, 1, a, b, a, b, c, d)
  {
  }

  lemma S1213Continues<T>(ar: Arith<T>, i: int, a0: seq<T>, b0: seq<T>, a: seq<T>, b: seq<T>, c: seq<T>, d: seq<T>)
    requires S1213Done(ar, i, a0, b0, a, b, c, d) && 1 <= i < |a| - 1
    ensures var a1 := a[i := ar.add(b[i - 1], c[i])];
            S1213Done(ar, i + 1, a0, b0, a1, b[i := ar.mul(a1[i + 1], d[i])], c, d)
  {
  }

  lemma S1213Ends<T>(ar: Arith<T>, i: int, a0: seq<T>, b0: seq<T>, a: seq<T>, b: seq<T>, c: seq<T>, d: seq<T>)
    requires S1213Done(ar, i, a0, b0, a, b, c, d) && |a| - 1 <= i
    ensures forall k | 1 <= k < |a| - 1 :: a[k] == ar.add(b[k - 1], c[k]) && b[k] == ar.mul(a0[k + 1], d[k])
    ensures forall k | 0 <= k < |a| && (k == 0 || k == |a| - 1) :: a[k] == a0[k] && b[k] == b0[k]
  {
  }
}

/**
 Kernels whose dependence is a fixed distance: every iteration stores one cell at a constant
 offset from the loop index and loads one cell of the same array at another.  For all of
 them the strip widths that preserve the scalar result are known exactly.
 */
module StripKernels {
  import opened Common
  import opened Dependence
  import opened Schedules

  ghost function View<T>(s: seq<T>): map<int, T> {
    map i | 0 <= i < |s| :: s[i]
  }

  /** Iteration i: cell[i + wr] = cell[i + rd] + addend[i]. */
  ghost function Shift<T>(wr: int, rd: int, addend: seq<T>): int -> Body<int, T> {
    i => if 0 <= i < |addend| then [Assign(i + wr, Bin(Add, Read(i + rd), Lit(addend[i])))] else []
  }

  /** The index of iteration `k` of a unit-stride loop counting up or down. */
  function At(start: int, up: bool, k: int): int {
    if up then start + k else start - k
  }

  function Walk(start: int, up: bool, n: int): (s: seq<int>)
    ensures |s| == if n > 0 then n else 0
    ensures forall k | 0 <= k < |s| :: s[k] == At(start, up, k)
  {
    seq(if n > 0 then n else 0, k => At(start, up, k))
  }

  /** How many iterations after it is stored a cell is loaded; not positive when it never is. */
  function Distance(wr: int, rd: int, up: bool): int {
    if up then wr - rd else rd - wr
  }

  /** Every access of the loop is inside arrays of `size` cells and `addends` addends. */
  ghost predicate InRange(wr: int, rd: int, start: int, up: bool, n: int, size: int, addends: int) {
    forall k | 0 <= k < n ::
      var i := At(start, up, k); 0 <= i < addends && 0 <= i + wr < size && 0 <= i + rd < size
  }

  lemma ShiftFits<T>(wr: int, rd: int, addend: seq<T>, start: int, up: bool, n: int, size: nat, keys: set<int>)
    requires InRange(wr, rd, start, up, n, size, |addend|)
    requires forall i :: 0 <= i < size ==> i in keys
    ensures FitsAll(keys, Shift(wr, rd, addend), Walk(start, up, n))
  {
    forall i | i in Walk(start, up, n) ensures Fits(keys, Shift(wr, rd, addend)(i)) {
      var k :| 0 <= k < n && Walk(start, up, n)[k] == i;
      assert At(start, up, k) == i;
      BodyFits(wr, rd, addend, i, keys);
    }
  }

  lemma BodyFits<T>(wr: int, rd: int, addend: seq<T>, i: int, keys: set<int>)
    requires 0 <= i < |addend| && i + wr in keys && i + rd in keys
    ensures Fits(keys, Shift(wr, rd, addend)(i))
    ensures Shift(wr, rd, addend)(i) == [Assign(i + wr, Bin(Add, Read(i + rd), Lit(addend[i])))]
    ensures Writes(Shift(wr, rd, addend)(i)) == {i + wr} && Uses(Shift(wr, rd, addend)(i)) == {i + rd}
  {
    var rhs: Expr<int, T> := Bin(Add, Read(i + rd), Lit(addend[i]));
    assert rhs.Reads() == {i + rd} by {
      assert rhs.left.Reads() == {i + rd} && rhs.right.Reads() == {};
    }
    var a := Assign(i + wr, rhs);
    var b := Shift(wr, rd, addend)(i);
    assert b == [a] && b[0] == a;
    assert a in b;
    assert forall c | c in b :: c == a;
    forall l ensures l in Writes(b) <==> l == i + wr {}
    forall l ensures l in Uses(b) <==> l == i + rd {
      assert l in Uses(b) <==> l in a.rhs.Reads();
    }
  }

  ghost function Scalar<T>(ar: Arith<T>, cells: seq<T>, wr: int, rd: int, addend: seq<T>,
                           start: int, up: bool, n: int): (m: map<int, T>)
    requires InRange(wr, rd, start, up, n, |cells|, |addend|)
  {
    ShiftFits(wr, rd, addend, start, up, n, |cells|, View(cells).Keys);
    Run(ar, View(cells), Shift(wr, rd, addend), Walk(start, up, n))
  }

  ghost function Strided<T>(ar: Arith<T>, cells: seq<T>, wr: int, rd: int, addend: seq<T>,
                            start: int, up: bool, n: int, vf: int): (m: map<int, T>)
    requires InRange(wr, rd, start, up, n, |cells|, |addend|) && vf > 0
  {
    ShiftFits(wr, rd, addend, start, up, n, |cells|, View(cells).Keys);
    RunStrips(ar, View(cells), Shift(wr, rd, addend), Walk(start, up, n), vf)
  }

  /** One iteration on the array is one more instance of the schedule. */
  lemma ShiftStep<T>(ar: Arith<T>, cells: seq<T>, now: seq<T>, wr: int, rd: int, addend: seq<T>,
                     start: int, up: bool, k: nat, n: int)
    requires k < n && InRange(wr, rd, start, up, n, |cells|, |addend|) && |now| == |cells|
    requires View(now) == Scalar(ar, cells, wr, rd, addend, start, up, k)
    ensures var i := At(start, up, k);
            View(now[i + wr := ar.add(now[i + rd], addend[i])])
            == Scalar(ar, cells, wr, rd, addend, start, up, k + 1)
  {
    hide Run, FitsAll, Fits, Writes, Uses, Walk, Shift, Exec;
    var i, keys := At(start, up, k), View(cells).Keys;
    var rhs: Expr<int, T> := Bin(Add, Read(i + rd), Lit(addend[i]));
    WalkGrows(start, up, k);
    ShiftFits(wr, rd, addend, start, up, k, |cells|, keys);
    BodyFits(wr, rd, addend, i, keys);
    Advance(ar, View(cells), Shift(wr, rd, addend), Walk(start, up, k), i, Assign(i + wr, rhs));
    ViewStore(now, i + wr, ar.add(now[i + rd], addend[i]));
  }

  lemma ScalarStart<T>(ar: Arith<T>, cells: seq<T>, wr: int, rd: int, addend: seq<T>, start: int, up: bool, n: int)
    ensures Scalar(ar, cells, wr, rd, addend, start, up, 0) == View(cells)
    ensures n <= 0 ==> Scalar(ar, cells, wr, rd, addend, start, up, n) == View(cells)
  {
  }

  lemma WalkGrows(start: int, up: bool, k: nat)
    ensures Walk(start, up, k + 1) == Walk(start, up, k) + [At(start, up, k)]
  {
  }

  lemma ViewStore<T>(s: seq<T>, i: int, v: T)
    requires 0 <= i < |s|
    ensures View(s[i := v]) == View(s)[i := v]
  {
  }

  /** Strips no longer than the distance, or a loop no longer than it, change nothing. */
  lemma ShiftStripsSafe<T>(ar: Arith<T>, cells: seq<T>, wr: int, rd: int, addend: seq<T>,
                           start: int, up: bool, n: int, vf: int)
    requires InRange(wr, rd, start, up, n, |cells|, |addend|) && vf > 0
    requires var d := Distance(wr, rd, up); d <= 0 || vf <= d || n <= d
    ensures Strided(ar, cells, wr, rd, addend, start, up, n, vf) == Scalar(ar, cells, wr, rd, addend, start, up, n)
  {
    var s, keys := Walk(start, up, n), View(cells).Keys;
    ShiftFits(wr, rd, addend, start, up, n, |cells|, keys);
    forall i, j | 0 <= i < j < |s| && j < i + vf
      ensures Writes(Shift(wr, rd, addend)(s[i])) !! Uses(Shift(wr, rd, addend)(s[j]))
    {
      assert s[i] == At(start, up, i) && s[j] == At(start, up, j);
      BodyFits(wr, rd, addend, s[i], keys);
      BodyFits(wr, rd, addend, s[j], keys);
    }
    Strips(ar, View(cells), Shift(wr, rd, addend), s, vf);
  }

  /** `m` is what every strip width up to the distance leaves; every width, if there is no flow dependence. */
  ghost predicate StripsMatch<T>(m: map<int, T>, ar: Arith<T>, cells: seq<T>, wr: int, rd: int, addend: seq<T>,
                                 start: int, up: bool, n: int)
    requires InRange(wr, rd, start, up, n, |cells|, |addend|)
  {
    forall vf | vf > 0 && (Distance(wr, rd, up) <= 0 || vf <= Distance(wr, rd, up)) ::
      m == Strided(ar, cells, wr, rd, addend, start, up, n, vf)
  }

  lemma ScalarMatchesStrips<T>(ar: Arith<T>, cells: seq<T>, wr: int, rd: int, addend: seq<T>,
                               start: int, up: bool, n: int)
    requires InRange(wr, rd, start, up, n, |cells|, |addend|)
    ensures StripsMatch(Scalar(ar, cells, wr, rd, addend, start, up, n), ar, cells, wr, rd, addend, start, up, n)
  {
    forall vf | vf > 0 && (Distance(wr, rd, up) <= 0 || vf <= Distance(wr, rd, up))
      ensures Scalar(ar, cells, wr, rd, addend, start, up, n) == Strided(ar, cells, wr, rd, addend, start, up, n, vf)
    {
      ShiftStripsSafe(ar, cells, wr, rd, addend, start, up, n, vf);
    }
  }

  const INT_ADD: Arith<int> := Arith((x, y) => x + y, (x, y) => x - y, (x, y) => x * y, (x, y) => x)

  /** On zeros and ones, the cell stored by iteration d is 2 after the scalar loop and 1 after a longer strip. */
  lemma LongStripsDiffer(wr: int, rd: int, start: int, up: bool, n: int, vf: int, size: nat, addends: nat)
    requires InRange(wr, rd, start, up, n, size, addends) && vf > 0
    requires 0 < Distance(wr, rd, up) < vf && Distance(wr, rd, up) < n
    ensures var cells, addend := seq(size, _ => 0), seq(addends, _ => 1);
            Strided(INT_ADD, cells, wr, rd, addend, start, up, n, vf)
            != Scalar(INT_ADD, cells, wr, rd, addend, start, up, n)
  {
    var cells, addend := seq(size, _ => 0), seq(addends, _ => 1);
    var d := Distance(wr, rd, up);
    var s, m := Walk(start, up, n), View(cells);
    ShiftFits(wr, rd, addend, start, up, n, size, m.Keys);
    assert s[0] == At(start, up, 0) && s[d] == At(start, up, d);
    TwoAndOne(m, wr, rd, addend, s, d, vf);
  }

  lemma TwoAndOne(m: map<int, int>, wr: int, rd: int, addend: seq<int>, s: seq<int>, d: nat, vf: nat)
    requires Distinct(s) && 0 < d < |s| && d < vf && FitsAll(m.Keys, Shift(wr, rd, addend), s)
    requires 0 <= s[0] < |addend| && 0 <= s[d] < |addend| && addend[s[0]] == 1 && addend[s[d]] == 1
    requires s[0] + wr == s[d] + rd && s[d] + wr in m && s[d] + rd in m && s[0] + rd in m
    requires m[s[d] + rd] == 0 && m[s[0] + rd] == 0
    ensures Run(INT_ADD, m, Shift(wr, rd, addend), s)[s[d] + wr] == 2
    ensures RunStrips(INT_ADD, m, Shift(wr, rd, addend), s, vf)[s[d] + wr] == 1
  {
    // the scalar loop: iteration 0 stores 1, iteration d adds 1 to it
    ScalarStored(m, wr, rd, addend, s, d);
    ScalarStored(m, wr, rd, addend, s[..d], 0);
    assert s[..d][..0] == [];
    // the first strip: iteration d still sees the initial 0
    FirstStripLoadsInitial(m, wr, rd, addend, s, d, vf);
  }

  /** In scalar order, the cell iteration d stores keeps what it stored. */
  lemma ScalarStored(m: map<int, int>, wr: int, rd: int, addend: seq<int>, s: seq<int>, d: nat)
    requires Distinct(s) && d < |s| && FitsAll(m.Keys, Shift(wr, rd, addend), s)
    requires 0 <= s[d] < |addend| && s[d] + wr in m && s[d] + rd in m
    ensures FitsAll(m.Keys, Shift(wr, rd, addend), s[..d])
    ensures Run(INT_ADD, m, Shift(wr, rd, addend), s)[s[d] + wr]
            == Run(INT_ADD, m, Shift(wr, rd, addend), s[..d])[s[d] + rd] + addend[s[d]]
  {
    var code := Shift(wr, rd, addend);
    forall j | d < j < |s| ensures s[d] + wr !in Writes(code(s[j])) {
      OnlyWrite(wr, rd, addend, s[j]);
    }
    RunLastStore(INT_ADD, m, code, s, d, s[d] + wr);
    ShiftValue(Run(INT_ADD, m, code, s[..d]), wr, rd, addend, s[d]);
  }

  lemma OnlyWrite(wr: int, rd: int, addend: seq<int>, i: int)
    ensures Writes(Shift(wr, rd, addend)(i)) <= {i + wr}
  {
  }

  lemma ShiftValue(m: map<int, int>, wr: int, rd: int, addend: seq<int>, i: int)
    requires 0 <= i < |addend| && i + wr in m && i + rd in m
    ensures var b := Shift(wr, rd, addend)(i);
            Fits(m.Keys, b) && Exec(INT_ADD, m, b) == m[i + wr := m[i + rd] + addend[i]]
  {
    var a := Assign(i + wr, Bin(Add, Read(i + rd), Lit(addend[i])));
    ExecOne(INT_ADD, m, a);
  }

  /** In vector order, an iteration of the first strip adds to the initial value of its source cell. */
  lemma FirstStripLoadsInitial(m: map<int, int>, wr: int, rd: int, addend: seq<int>, s: seq<int>, d: nat, vf: nat)
    requires Distinct(s) && d < vf && d < |s| && vf > 0
    requires FitsAll(m.Keys, Shift(wr, rd, addend), s) && 0 <= s[d] < |addend|
    requires s[d] + wr in m && s[d] + rd in m
    ensures RunStrips(INT_ADD, m, Shift(wr, rd, addend), s, vf)[s[d] + wr] == m[s[d] + rd] + addend[s[d]]
  {
    hide Run, Value, Fits, Writes, Uses, Flatten, Shift;
    var code := Shift(wr, rd, addend);
    var strip := if |s| <= vf then s else s[..vf];
    assert strip[d] == s[d];
    FlattenFits(m.Keys, code, strip);
    FlattenValue(m, wr, rd, addend, strip, d);
    if |s| > vf {
      var n := Exec(INT_ADD, m, Flatten(code, s[..vf]));
      forall e | e in s[vf..] ensures s[d] + wr !in Writes(code(e)) {
        OnlyWrite(wr, rd, addend, e);
      }
      StripsUnwritten(INT_ADD, n, code, s[vf..], vf, s[d] + wr);
    }
  }

  lemma {:induction false} FlattenValue(m: map<int, int>, wr: int, rd: int, addend: seq<int>, s: seq<int>, d: nat)
    requires Distinct(s) && d < |s| && FitsAll(m.Keys, Shift(wr, rd, addend), s) && 0 <= s[d] < |addend|
    requires s[d] + wr in m && s[d] + rd in m
    ensures Fits(m.Keys, Flatten(Shift(wr, rd, addend), s))
    ensures Value(INT_ADD, m, Flatten(Shift(wr, rd, addend), s), s[d] + wr) == m[s[d] + rd] + addend[s[d]]
    decreases |s|
  {
    hide Run, Fits, Writes, Uses, Shift;
    var code := Shift(wr, rd, addend);
    FlattenFits(m.Keys, code, s);
    FlattenFits(m.Keys, code, s[1..]);
    ValueConcat(INT_ADD, m, code(s[0]), Flatten(code, s[1..]), s[d] + wr);
    if d == 0 {
      ShiftValue(m, wr, rd, addend, s[0]);
      NotWritten(wr, rd, addend, s[1..], s[0] + wr);
    } else {
      FlattenValue(m, wr, rd, addend, s[1..], d - 1);
      Written(wr, rd, addend, s[1..], d - 1);
    }
  }

  lemma {:induction false} NotWritten(wr: int, rd: int, addend: seq<int>, s: seq<int>, l: int)
    requires l - wr !in s
    ensures l !in Writes(Flatten(Shift(wr, rd, addend), s))
  {
    if s == [] {
    } else {
      NotWritten(wr, rd, addend, s[1..], l);
    }
  }

  lemma {:induction false} Written(wr: int, rd: int, addend: seq<int>, s: seq<int>, d: nat)
    requires d < |s| && 0 <= s[d] < |addend|
    ensures s[d] + wr in Writes(Flatten(Shift(wr, rd, addend), s))
  {
    var code := Shift(wr, rd, addend);
    var a := Assign(s[d] + wr, Bin(Add, Read(s[d] + rd), Lit(addend[s[d]])));
    if d == 0 {
      assert a in code(s[0]);
      assert a in Flatten(code, s);
    } else {
      Written(wr, rd, addend, s[1..], d - 1);
    }
  }

  ghost predicate StripsAgree(wr: int, rd: int, start: int, up: bool, n: int, vf: int, cells: seq<int>,
                              addend: seq<int>)
    requires InRange(wr, rd, start, up, n, |cells|, |addend|) && vf > 0
  {
    Strided(INT_ADD, cells, wr, rd, addend, start, up, n, vf) == Scalar(INT_ADD, cells, wr, rd, addend, start, up, n)
  }

  /**
   The distance theorem, both ways: strips of `vf` give the scalar result on every input
   exactly when there is no flow dependence, or no strip and no loop is long enough to contain one.
   */
  lemma ShiftStripsExact(wr: int, rd: int, start: int, up: bool, n: int, vf: int, size: nat, addends: nat)
    requires InRange(wr, rd, start, up, n, size, addends) && vf > 0
    ensures var d := Distance(wr, rd, up);
            (d <= 0 || vf <= d || n <= d)
            <==> forall cells: seq<int>, addend: seq<int> | |cells| == size && |addend| == addends ::
                   StripsAgree(wr, rd, start, up, n, vf, cells, addend)
  {
    var d := Distance(wr, rd, up);
    if d <= 0 || vf <= d || n <= d {
      forall cells: seq<int>, addend: seq<int> | |cells| == size && |addend| == addends
        ensures StripsAgree(wr, rd, start, up, n, vf, cells, addend)
      {
        ShiftStripsSafe(INT_ADD, cells, wr, rd, addend, start, up, n, vf);
      }
    } else {
      LongStripsDiffer(wr, rd, start, up, n, vf, size, addends);
      assert !StripsAgree(wr, rd, start, up, n, vf, seq(size, _ => 0), seq(addends, _ => 1));
    }
  }

  // ----- the kernels, one pass each

  /** Stores 64 cells ahead of what it loads: strips of 64 or less are safe. */
  method S424<T>(ar: Arith<T>, flat: array<T>, a: array<T>)
    requires flat != a && (a.Length <= 1 || a.Length + 63 <= flat.Length)
    modifies flat
    ensures View(flat[..]) == Scalar(ar, old(flat[..]), 64, 0, a[..], 0, true, a.Length - 1)
    ensures StripsMatch(View(flat[..]), ar, old(flat[..]), 64, 0, a[..], 0, true, a.Length - 1)
    ensures forall i | 0 <= i < a.Length - 1 :: flat[i + 64] == ar.add(flat[i], a[i])
    ensures forall l | 0 <= l < flat.Length && (l < 64 || l >= a.Length + 63) :: flat[l] == old(flat[l])
  {
    hide Run, Scalar, View, Walk, Shift, StripsMatch, FitsAll;
    ScalarStart(ar, old(flat[..]), 64, 0, a[..], 0, true, a.Length - 1);
    var xx := 63;
    var i := 0;
    while i < a.Length - 1
      invariant 0 <= i && (i <= a.Length - 1 || i == 0)
      invariant View(flat[..]) == Scalar(ar, old(flat[..]), 64, 0, a[..], 0, true, i)
      invariant forall k | 0 <= k < i :: flat[k + 64] == ar.add(flat[k], a[k])
      invariant forall l | 0 <= l < flat.Length && (l < 64 || l >= i + 64) :: flat[l] == old(flat[l])
    {
      ghost var before := flat[..];
      flat[xx + i + 1] := ar.add(flat[i], a[i]);
      ShiftStep(ar, old(flat[..]), before, 64, 0, a[..], 0, true, i, a.Length - 1);
      assert flat[..] == before[i + 64 := ar.add(before[i], a[i])];
      i := i + 1;
    }
    ScalarMatchesStrips(ar, old(flat[..]), 64, 0, a[..], 0, true, a.Length - 1);
  }

  /** Loads 63 cells ahead of what it stores: every strip width is safe. */
  method S423<T>(ar: Arith<T>, flat: array<T>, a: array<T>)
    requires flat != a && (a.Length <= 1 || a.Length + 63 <= flat.Length)
    modifies flat
    ensures View(flat[..]) == Scalar(ar, old(flat[..]), 1, 64, a[..], 0, true, a.Length - 1)
    ensures StripsMatch(View(flat[..]), ar, old(flat[..]), 1, 64, a[..], 0, true, a.Length - 1)
    ensures forall i | 0 <= i < a.Length - 1 :: flat[i + 1] == ar.add(old(flat[i + 64]), a[i])
    ensures forall l | 0 <= l < flat.Length && (l == 0 || l >= a.Length) :: flat[l] == old(flat[l])
  {
    hide Run, Scalar, View, Walk, Shift, StripsMatch, FitsAll;
    ScalarStart(ar, old(flat[..]), 1, 64, a[..], 0, true, a.Length - 1);
    var xx := 64;
    var i := 0;
    while i < a.Length - 1
      invariant 0 <= i && (i <= a.Length - 1 || i == 0)
      invariant View(flat[..]) == Scalar(ar, old(flat[..]), 1, 64, a[..], 0, true, i)
      invariant forall k | 0 <= k < i :: flat[k + 1] == ar.add(old(flat[k + 64]), a[k])
      invariant forall l | 0 <= l < flat.Length && (l == 0 || l > i) :: flat[l] == old(flat[l])
    {
      ghost var before := flat[..];
      flat[i + 1] := ar.add(flat[xx + i], a[i]);
      ShiftStep(ar, old(flat[..]), before, 1, 64, a[..], 0, true, i, a.Length - 1);
      assert flat[..] == before[i + 1 := ar.add(before[i + 64], a[i])];
      i := i + 1;
    }
    ScalarMatchesStrips(ar, old(flat[..]), 1, 64, a[..], 0, true, a.Length - 1);
  }

  /** Loads 4 cells ahead of what it stores: every strip width is safe. */
  method S422<T>(ar: Arith<T>, flat: array<T>, a: array<T>)
    requires flat != a && (a.Length == 0 || a.Length + 8 <= flat.Length)
    modifies flat
    ensures View(flat[..]) == Scalar(ar, old(flat[..]), 4, 8, a[..], 0, true, a.Length)
    ensures StripsMatch(View(flat[..]), ar, old(flat[..]), 4, 8, a[..], 0, true, a.Length)
    ensures forall i | 0 <= i < a.Length :: flat[i + 4] == ar.add(old(flat[i + 8]), a[i])
    ensures forall l | 0 <= l < flat.Length && (l < 4 || l >= a.Length + 4) :: flat[l] == old(flat[l])
  {
    hide Run, Scalar, View, Walk, Shift, StripsMatch, FitsAll;
    ScalarStart(ar, old(flat[..]), 4, 8, a[..], 0, true, a.Length);
    var xx := 4;
    for i := 0 to a.Length
      invariant View(flat[..]) == Scalar(ar, old(flat[..]), 4, 8, a[..], 0, true, i)
      invariant forall k | 0 <= k < i :: flat[k + 4] == ar.add(old(flat[k + 8]), a[k])
      invariant forall l | 0 <= l < flat.Length && (l < 4 || l >= i + 4) :: flat[l] == old(flat[l])
    {
      ghost var before := flat[..];
      flat[xx + i] := ar.add(flat[i + 8], a[i]);
      ShiftStep(ar, old(flat[..]), before, 4, 8, a[..], 0, true, i, a.Length);
      assert flat[..] == before[i + 4 := ar.add(before[i + 8], a[i])];
    }
    ScalarMatchesStrips(ar, old(flat[..]), 4, 8, a[..], 0, true, a.Length);
  }

  /** A recurrence of distance 4: strips of 4 or less are safe. */
  method S1221<T>(ar: Arith<T>, b: array<T>, a: array<T>)
    requires a != b && a.Length == b.Length
    modifies b
    ensures View(b[..]) == Scalar(ar, old(b[..]), 0, -4, a[..], 4, true, b.Length - 4)
    ensures StripsMatch(View(b[..]), ar, old(b[..]), 0, -4, a[..], 4, true, b.Length - 4)
    ensures forall i | 4 <= i < b.Length :: b[i] == ar.add(b[i - 4], a[i])
    ensures forall i | 0 <= i < 4 && i < b.Length :: b[i] == old(b[i])
  {
    hide Run, Scalar, View, Walk, Shift, StripsMatch, FitsAll;
    ScalarStart(ar, old(b[..]), 0, -4, a[..], 4, true, b.Length - 4);
    var i := 4;
    while i < b.Length
      invariant 4 <= i && (i <= b.Length || i == 4)
      invariant View(b[..]) == Scalar(ar, old(b[..]), 0, -4, a[..], 4, true, i - 4)
      invariant forall k | 4 <= k < i :: b[k] == ar.add(b[k - 4], a[k])
      invariant forall k | 0 <= k < 4 && k < b.Length :: b[k] == old(b[k])
    {
      ghost var before := b[..];
      b[i] := ar.add(b[i - 4], a[i]);
      ShiftStep(ar, old(b[..]), before, 0, -4, a[..], 4, true, i - 4, b.Length - 4);
      assert b[..] == before[i := ar.add(before[i - 4], a[i])];
      i := i + 1;
    }
    ScalarMatchesStrips(ar, old(b[..]), 0, -4, a[..], 4, true, b.Length - 4);
  }

  /** Counting down, a cell is stored after its old value was needed: every strip width is safe. */
  method S112<T>(ar: Arith<T>, a: array<T>, b: array<T>)
    requires a != b && a.Length == b.Length
    modifies a
    ensures View(a[..]) == Scalar(ar, old(a[..]), 1, 0, b[..], a.Length - 2, false, a.Length - 1)
    ensures StripsMatch(View(a[..]), ar, old(a[..]), 1, 0, b[..], a.Length - 2, false, a.Length - 1)
    ensures forall i | 0 <= i < a.Length - 1 :: a[i + 1] == ar.add(old(a[i]), b[i])
    ensures a.Length > 0 ==> a[0] == old(a[0])
  {
    hide Run, Scalar, View, Walk, Shift, StripsMatch, FitsAll;
    ScalarStart(ar, old(a[..]), 1, 0, b[..], a.Length - 2, false, a.Length - 1);
    var i := a.Length - 2;
    while i >= 0
      invariant -1 <= i <= a.Length - 2 || i == -2 == a.Length - 2
      invariant View(a[..]) == Scalar(ar, old(a[..]), 1, 0, b[..], a.Length - 2, false, a.Length - 2 - i)
      invariant forall k | i < k < a.Length - 1 :: a[k + 1] == ar.add(old(a[k]), b[k])
      invariant forall k | 0 <= k <= i + 1 && k < a.Length :: a[k] == old(a[k])
    {
      ghost var before := a[..];
      a[i + 1] := ar.add(a[i], b[i]);
      ShiftStep(ar, old(a[..]), before, 1, 0, b[..], a.Length - 2, false, a.Length - 2 - i, a.Length - 1);
      assert a[..] == before[i + 1 := ar.add(before[i], b[i])];
      i := i - 1;
    }
    ScalarMatchesStrips(ar, old(a[..]), 1, 0, b[..], a.Length - 2, false, a.Length - 1);
  }

  /** The scalar j is always i+1, so the loop only loads ahead of its stores: every strip width is safe. */
  method S121<T>(ar: Arith<T>, a: array<T>, b: array<T>)
    requires a != b && a.Length == b.Length
    modifies a
    ensures View(a[..]) == Scalar(ar, old(a[..]), 0, 1, b[..], 0, true, a.Length - 1)
    ensures StripsMatch(View(a[..]), ar, old(a[..]), 0, 1, b[..], 0, true, a.Length - 1)
    ensures forall i | 0 <= i < a.Length - 1 :: a[i] == ar.add(old(a[i + 1]), b[i])
    ensures a.Length > 0 ==> a[a.Length - 1] == old(a[a.Length - 1])
  {
    hide Run, Scalar, View, Walk, Shift, StripsMatch, FitsAll;
    ScalarStart(ar, old(a[..]), 0, 1, b[..], 0, true, a.Length - 1);
    var j;
    var i := 0;
    while i < a.Length - 1
      invariant 0 <= i && (i <= a.Length - 1 || i == 0)
      invariant View(a[..]) == Scalar(ar, old(a[..]), 0, 1, b[..], 0, true, i)
      invariant forall k | 0 <= k < i :: a[k] == ar.add(old(a[k + 1]), b[k])
      invariant forall k | i <= k < a.Length :: a[k] == old(a[k])
    {
      ghost var before := a[..];
      j := i + 1;
      a[i] := ar.add(a[j], b[i]);
      ShiftStep(ar, old(a[..]), before, 0, 1, b[..], 0, true, i, a.Length - 1);
      assert a[..] == before[i := ar.add(before[i + 1], b[i])];
      i := i + 1;
    }
    ScalarMatchesStrips(ar, old(a[..]), 0, 1, b[..], 0, true, a.Length - 1);
  }

  /** s424 over integers, for every LEN_1D: the strip widths that are right on all inputs. */
  lemma S424StripWidths(length: nat, size: nat, vf: nat)
    requires vf > 0 && length > 0 && length + 63 <= size
    ensures (vf <= 64 || length <= 65)
            <==> forall flat: seq<int>, a: seq<int> | |flat| == size && |a| == length ::
                   StripsAgree(64, 0, 0, true, length - 1, vf, flat, a)
  {
    ShiftStripsExact(64, 0, 0, true, length - 1, vf, size, length);
  }

  /** s1221 over integers, for every LEN_1D: the strip widths that are right on all inputs. */
  lemma S1221StripWidths(length: nat, vf: nat)
    requires vf > 0
    ensures (vf <= 4 || length <= 8)
            <==> forall b: seq<int>, a: seq<int> | |b| == length && |a| == length ::
                   StripsAgree(0, -4, 4, true, length - 4, vf, b, a)
  {
    ShiftStripsExact(0, -4, 4, true, length - 4, vf, length, length);
  }
}

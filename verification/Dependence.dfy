/**
 Loop bodies as parallel assignments over a memory, and the two facts every loop
 transformation in the suite rests on: which reorderings of statement instances keep the
 final memory, and when a strip may do all its loads before all its stores.

 The element type is a parameter and its operators are uninterpreted, so nothing here
 reassociates or commutes arithmetic.
 */
module Dependence {

  datatype Op = Add | Sub | Mul | Div

  /** An element type's operators; nothing is known about them. */
  datatype Arith<!T> = Arith(add: (T, T) -> T, sub: (T, T) -> T, mul: (T, T) -> T, div: (T, T) -> T) {
    function Apply(op: Op, x: T, y: T): T {
      match op
      case Add => add(x, y)
      case Sub => sub(x, y)
      case Mul => mul(x, y)
      case Div => div(x, y)
    }
  }

  datatype Expr<L, T> = Lit(value: T) | Read(loc: L) | Bin(op: Op, left: Expr<L, T>, right: Expr<L, T>) {
    ghost function Reads(): set<L> {
      match this
      case Lit(_) => {}
      case Read(l) => {l}
      case Bin(_, x, y) => x.Reads() + y.Reads()
    }
  }

  datatype Assign<L, T> = Assign(dst: L, rhs: Expr<L, T>)

  /** A statement instance: all right-hand sides are evaluated, then the stores happen in order. */
  type Body<L, T> = seq<Assign<L, T>>

  ghost function Eval<L, T>(ar: Arith<T>, m: map<L, T>, e: Expr<L, T>): T
    requires e.Reads() <= m.Keys
  {
    match e
    case Lit(v) => v
    case Read(l) => m[l]
    case Bin(op, x, y) => ar.Apply(op, Eval(ar, m, x), Eval(ar, m, y))
  }

  ghost function Writes<L, T>(b: Body<L, T>): set<L> {
    set a | a in b :: a.dst
  }

  ghost function Uses<L, T>(b: Body<L, T>): set<L> {
    set a, l | a in b && l in a.rhs.Reads() :: l
  }

  /** Every location `b` touches is one of `keys`. */
  ghost predicate Fits<L, T>(keys: set<L>, b: Body<L, T>) {
    forall a | a in b :: a.dst in keys && a.rhs.Reads() <= keys
  }

  /** What location `l` holds after `b`: the last store to it wins, and every load sees `m`. */
  ghost function Value<L, T>(ar: Arith<T>, m: map<L, T>, b: Body<L, T>, l: L): T
    requires Fits(m.Keys, b) && l in m
  {
    if b == [] then m[l] else
    var last := b[|b| - 1];
    if last.dst == l then Eval(ar, m, last.rhs) else Value(ar, m, b[..|b| - 1], l)
  }

  ghost function Exec<L, T>(ar: Arith<T>, m: map<L, T>, b: Body<L, T>): (r: map<L, T>)
    requires Fits(m.Keys, b)
    ensures r.Keys == m.Keys
  {
    map l | l in m :: Value(ar, m, b, l)
  }

  ghost predicate FitsAll<E, L, T>(keys: set<L>, code: E -> Body<L, T>, s: seq<E>) {
    forall e | e in s :: Fits(keys, code(e))
  }

  /** The instances of `s`, one after the other. */
  ghost function Run<E, L, T>(ar: Arith<T>, m: map<L, T>, code: E -> Body<L, T>, s: seq<E>): (r: map<L, T>)
    requires FitsAll(m.Keys, code, s)
    ensures r.Keys == m.Keys
  {
    if s == [] then m else Run(ar, Exec(ar, m, code(s[0])), code, s[1..])
  }

  /** The stores of a strip: the bodies of its instances in one parallel assignment. */
  ghost function Flatten<E, L, T>(code: E -> Body<L, T>, s: seq<E>): (b: Body<L, T>) {
    if s == [] then [] else code(s[0]) + Flatten(code, s[1..])
  }

  /** Vector execution: strips of `vf` lanes, each doing all its loads before all its stores. */
  ghost function RunStrips<E, L, T>(ar: Arith<T>, m: map<L, T>, code: E -> Body<L, T>, s: seq<E>,
                                    vf: nat): (r: map<L, T>)
    requires vf > 0 && FitsAll(m.Keys, code, s)
    ensures r.Keys == m.Keys
    decreases |s|
  {
    if |s| <= vf then
      FlattenFits(m.Keys, code, s);
      Exec(ar, m, Flatten(code, s))
    else
      FlattenFits(m.Keys, code, s[..vf]);
      RunStrips(ar, Exec(ar, m, Flatten(code, s[..vf])), code, s[vf..], vf)
  }

  // ----- frames

  lemma {:induction false} EvalAgree<L, T>(ar: Arith<T>, m: map<L, T>, n: map<L, T>, e: Expr<L, T>)
    requires e.Reads() <= m.Keys && e.Reads() <= n.Keys
    requires forall l | l in e.Reads() :: m[l] == n[l]
    ensures Eval(ar, m, e) == Eval(ar, n, e)
  {
    match e
    case Lit(_) =>
    case Read(_) =>
    case Bin(_, x, y) =>
      EvalAgree(ar, m, n, x);
      EvalAgree(ar, m, n, y);
  }

  lemma {:induction false} ValueUnwritten<L, T>(ar: Arith<T>, m: map<L, T>, b: Body<L, T>, l: L)
    requires Fits(m.Keys, b) && l in m && l !in Writes(b)
    ensures Value(ar, m, b, l) == m[l]
  {
    if b == [] {
    } else {
      assert b[|b| - 1] in b;
      ValueUnwritten(ar, m, b[..|b| - 1], l);
    }
  }

  /** A written location depends on the memory only through what the body reads. */
  lemma {:induction false} ValueAgree<L, T>(ar: Arith<T>, m: map<L, T>, n: map<L, T>, b: Body<L, T>, l: L)
    requires m.Keys == n.Keys && Fits(m.Keys, b) && l in Writes(b)
    requires forall k | k in Uses(b) :: m[k] == n[k]
    requires l in m
    ensures Value(ar, m, b, l) == Value(ar, n, b, l)
  {
    var last := b[|b| - 1];
    assert last in b;
    if last.dst == l {
      EvalAgree(ar, m, n, last.rhs);
    } else {
      var a :| a in b && a.dst == l;
      assert a in b[..|b| - 1];
      assert Uses(b[..|b| - 1]) <= Uses(b);
      ValueAgree(ar, m, n, b[..|b| - 1], l);
    }
  }

  lemma {:induction false} ValueConcat<L, T>(ar: Arith<T>, m: map<L, T>, b: Body<L, T>, c: Body<L, T>, l: L)
    requires Fits(m.Keys, b) && Fits(m.Keys, c) && l in m
    ensures Value(ar, m, b + c, l) == if l in Writes(c) then Value(ar, m, c, l) else Value(ar, m, b, l)
  {
    if c == [] {
      assert b + c == b;
    } else {
      assert (b + c)[..|b + c| - 1] == b + c[..|c| - 1];
      assert c == c[..|c| - 1] + [c[|c| - 1]];
      ValueConcat(ar, m, b, c[..|c| - 1], l);
      assert Writes(c) == Writes(c[..|c| - 1]) + {c[|c| - 1].dst};
    }
  }

  lemma ExecOne<L, T>(ar: Arith<T>, m: map<L, T>, a: Assign<L, T>)
    requires Fits(m.Keys, [a])
    ensures Exec(ar, m, [a]) == m[a.dst := Eval(ar, m, a.rhs)]
  {
    assert a in [a];
    forall l | l in m
      ensures Exec(ar, m, [a])[l] == m[a.dst := Eval(ar, m, a.rhs)][l]
    {
      assert [a][..0] == [];
      assert Value(ar, m, [], l) == m[l];
    }
  }

  lemma {:induction false} RunConcat<E, L, T>(ar: Arith<T>, m: map<L, T>, code: E -> Body<L, T>, s: seq<E>, t: seq<E>)
    requires FitsAll(m.Keys, code, s) && FitsAll(m.Keys, code, t)
    ensures Run(ar, m, code, s + t) == Run(ar, Run(ar, m, code, s), code, t)
  {
    if s == [] {
      assert s + t == t;
    } else {
      assert (s + t)[1..] == s[1..] + t;
      RunConcat(ar, Exec(ar, m, code(s[0])), code, s[1..], t);
    }
  }

  lemma RunSnoc<E, L, T>(ar: Arith<T>, m: map<L, T>, code: E -> Body<L, T>, s: seq<E>, e: E)
    requires FitsAll(m.Keys, code, s) && Fits(m.Keys, code(e))
    ensures Run(ar, m, code, s + [e]) == Exec(ar, Run(ar, m, code, s), code(e))
  {
    RunConcat(ar, m, code, s, [e]);
    var n := Run(ar, m, code, s);
    assert [e][1..] == [];
    assert Run(ar, Exec(ar, n, code(e)), code, [e][1..]) == Exec(ar, n, code(e));
  }

  /** `now` is the memory after the instances of `s`. */
  ghost predicate Reached<E, L, T>(ar: Arith<T>, m: map<L, T>, code: E -> Body<L, T>, s: seq<E>, now: map<L, T>) {
    FitsAll(m.Keys, code, s) && now == Run(ar, m, code, s)
  }

  lemma ReachedStart<E, L, T>(ar: Arith<T>, m: map<L, T>, code: E -> Body<L, T>)
    ensures Reached(ar, m, code, [], m)
  {
  }

  /** A single-assignment instance appended to a schedule is one more store. */
  lemma Advance<E, L, T>(ar: Arith<T>, m: map<L, T>, code: E -> Body<L, T>, s: seq<E>, e: E, a: Assign<L, T>)
    requires FitsAll(m.Keys, code, s) && Fits(m.Keys, code(e)) && code(e) == [a]
    ensures FitsAll(m.Keys, code, s + [e]) && a.rhs.Reads() <= m.Keys
    ensures Run(ar, m, code, s + [e])
            == var n := Run(ar, m, code, s); n[a.dst := Eval(ar, n, a.rhs)]
  {
    assert [a][0] in [a];
    RunSnoc(ar, m, code, s, e);
    ExecOne(ar, Run(ar, m, code, s), a);
  }

  lemma AdvanceTo<E, L, T>(ar: Arith<T>, m: map<L, T>, code: E -> Body<L, T>, s: seq<E>, now: map<L, T>,
                           e: E, a: Assign<L, T>)
    requires Reached(ar, m, code, s, now) && code(e) == [a] && a.dst in now && a.rhs.Reads() <= now.Keys
    ensures Reached(ar, m, code, s + [e], now[a.dst := Eval(ar, now, a.rhs)])
  {
    Single(a, m.Keys);
    Advance(ar, m, code, s, e, a);
  }

  lemma {:induction false} RunUnwritten<E, L, T>(ar: Arith<T>, m: map<L, T>, code: E -> Body<L, T>, s: seq<E>, l: L)
    requires FitsAll(m.Keys, code, s) && l in m
    requires forall e | e in s :: l !in Writes(code(e))
    ensures Run(ar, m, code, s)[l] == m[l]
  {
    if s == [] {
    } else {
      ValueUnwritten(ar, m, code(s[0]), l);
      RunUnwritten(ar, Exec(ar, m, code(s[0])), code, s[1..], l);
    }
  }

  lemma {:induction false} FlattenFits<E, L, T>(keys: set<L>, code: E -> Body<L, T>, s: seq<E>)
    requires FitsAll(keys, code, s)
    ensures Fits(keys, Flatten(code, s))
  {
    if s == [] {
    } else {
      FlattenFits(keys, code, s[1..]);
    }
  }

  // ----- reordering

  /** Neither body stores to a location the other one loads or stores. */
  ghost predicate Independent<L, T>(b: Body<L, T>, c: Body<L, T>) {
    Writes(b) !! Writes(c) && Writes(b) !! Uses(c) && Writes(c) !! Uses(b)
  }

  ghost predicate Before<E>(s: seq<E>, e: E, f: E) {
    exists i, j :: 0 <= i < j < |s| && s[i] == e && s[j] == f
  }

  /** Every two instances the new order swaps are independent. */
  ghost predicate Preserves<E(!new), L, T>(code: E -> Body<L, T>, s: seq<E>, t: seq<E>) {
    forall e, f | Before(s, e, f) && Before(t, f, e) && e != f :: Independent(code(e), code(f))
  }

  lemma Commute<L, T>(ar: Arith<T>, m: map<L, T>, b: Body<L, T>, c: Body<L, T>)
    requires Fits(m.Keys, b) && Fits(m.Keys, c) && Independent(b, c)
    ensures Exec(ar, Exec(ar, m, b), c) == Exec(ar, Exec(ar, m, c), b)
  {
    var mb, mc := Exec(ar, m, b), Exec(ar, m, c);
    forall l | l in m ensures Value(ar, mb, c, l) == Value(ar, mc, b, l) {
      UnwrittenAll(ar, m, b);
      UnwrittenAll(ar, m, c);
      if l in Writes(b) {
        ValueUnwritten(ar, mb, c, l);
        ValueAgree(ar, m, mc, b, l);
      } else if l in Writes(c) {
        ValueUnwritten(ar, mc, b, l);
        ValueAgree(ar, m, mb, c, l);
      } else {
        ValueUnwritten(ar, mb, c, l);
        ValueUnwritten(ar, mc, b, l);
      }
    }
  }

  lemma UnwrittenAll<L, T>(ar: Arith<T>, m: map<L, T>, b: Body<L, T>)
    requires Fits(m.Keys, b)
    ensures forall l | l in m && l !in Writes(b) :: Exec(ar, m, b)[l] == m[l]
  {
    forall l | l in m && l !in Writes(b) ensures Exec(ar, m, b)[l] == m[l] {
      ValueUnwritten(ar, m, b, l);
    }
  }

  /** An instance independent of everything ahead of it may run first. */
  lemma {:induction false} Hoist<E, L, T>(ar: Arith<T>, m: map<L, T>, code: E -> Body<L, T>, s: seq<E>, x: E)
    requires FitsAll(m.Keys, code, s) && Fits(m.Keys, code(x))
    requires forall e | e in s :: Independent(code(x), code(e))
    ensures Run(ar, Exec(ar, m, code(x)), code, s) == Exec(ar, Run(ar, m, code, s), code(x))
  {
    if s == [] {
    } else {
      Commute(ar, m, code(x), code(s[0]));
      Hoist(ar, Exec(ar, m, code(s[0])), code, s[1..], x);
    }
  }

  /**
   The dependence theorem: any permutation of a program's statement instances that swaps
   only independent ones leaves the same memory, for every memory and every arithmetic.
   */
  lemma {:induction false} Reorder<E(!new), L, T>(ar: Arith<T>, m: map<L, T>, code: E -> Body<L, T>, s: seq<E>,
                                                  t: seq<E>)
    requires multiset(s) == multiset(t) && FitsAll(m.Keys, code, s) && Preserves(code, s, t)
    ensures FitsAll(m.Keys, code, t)
    ensures Run(ar, m, code, s) == Run(ar, m, code, t)
    decreases |s|
  {
    SameMembers(s, t);
    if s == [] {
      assert |multiset(t)| == |t|;
    } else {
      var k := FirstIndex(t, s[0]);
      HeadIsFree(code, s, t, k);
      RunMove(ar, m, code, t, k);
      PreservesTail(code, s, t, k);
      Reorder(ar, Exec(ar, m, code(s[0])), code, s[1..], t[..k] + t[k + 1..]);
    }
  }

  lemma SameMembers<E>(s: seq<E>, t: seq<E>)
    requires multiset(s) == multiset(t)
    ensures forall e :: e in s <==> e in t
  {
    assert forall e :: e in s <==> e in multiset(s);
    assert forall e :: e in t <==> e in multiset(t);
  }

  /** The first instance of `s`, found at `k` in `t`, is independent of all `t` puts ahead of it. */
  lemma HeadIsFree<E(!new), L, T>(code: E -> Body<L, T>, s: seq<E>, t: seq<E>, k: nat)
    requires multiset(s) == multiset(t) && Preserves(code, s, t)
    requires s != [] && k < |t| && t[k] == s[0] && s[0] !in t[..k]
    ensures forall e | e in t[..k] :: Independent(code(t[k]), code(e))
    ensures multiset(s[1..]) == multiset(t[..k] + t[k + 1..])
  {
    SameMembers(s, t);
    assert s == [s[0]] + s[1..];
    assert t == t[..k] + [t[k]] + t[k + 1..];
    assert multiset(s[1..]) == multiset(s) - multiset{s[0]};
    assert multiset(t[..k] + t[k + 1..]) == multiset(t) - multiset{t[k]};
    forall e | e in t[..k] ensures Independent(code(t[k]), code(e)) {
      var p :| 0 <= p < k && t[p] == e;
      assert e in s;
      var j :| 0 <= j < |s| && s[j] == e;
      assert Before(s, s[0], e) && Before(t, e, s[0]);
    }
  }

  lemma FirstIndex<E>(t: seq<E>, x: E) returns (k: nat)
    requires x in t
    ensures k < |t| && t[k] == x && x !in t[..k]
  {
    k := 0;
    while t[k] != x
      invariant k < |t| && x !in t[..k] && x in t[k..]
      decreases |t| - k
    {
      k := k + 1;
    }
  }

  lemma PreservesTail<E(!new), L, T>(code: E -> Body<L, T>, s: seq<E>, t: seq<E>, k: nat)
    requires Preserves(code, s, t) && s != [] && k < |t|
    ensures Preserves(code, s[1..], t[..k] + t[k + 1..])
  {
    var t' := t[..k] + t[k + 1..];
    forall e, f | Before(s[1..], e, f) && Before(t', f, e) && e != f ensures Independent(code(e), code(f)) {
      var i, j :| 0 <= i < j < |s[1..]| && s[1..][i] == e && s[1..][j] == f;
      assert s[i + 1] == e && s[j + 1] == f;
      var p, q :| 0 <= p < q < |t'| && t'[p] == f && t'[q] == e;
      assert t[if p < k then p else p + 1] == f && t[if q < k then q else q + 1] == e;
      assert Before(s, e, f) && Before(t, f, e);
    }
  }

  lemma RunMove<E, L, T>(ar: Arith<T>, m: map<L, T>, code: E -> Body<L, T>, t: seq<E>, k: nat)
    requires FitsAll(m.Keys, code, t) && k < |t|
    requires forall e | e in t[..k] :: Independent(code(t[k]), code(e))
    ensures FitsAll(m.Keys, code, t[..k] + t[k + 1..])
    ensures Run(ar, m, code, t) == Run(ar, Exec(ar, m, code(t[k])), code, t[..k] + t[k + 1..])
  {
    var x, front, back := t[k], t[..k], t[k + 1..];
    assert t == front + ([x] + back);
    RunConcat(ar, m, code, front, [x] + back);
    Hoist(ar, m, code, front, x);
    RunConcat(ar, Exec(ar, m, code(x)), code, front, back);
    assert ([x] + back)[1..] == back;
  }

  /** A schedule repeated `n` times, as the suite's outermost timing loop does. */
  ghost function Repeat<E>(s: seq<E>, n: nat): seq<E> {
    if n == 0 then [] else s + Repeat(s, n - 1)
  }

  /** A legal reordering of one pass stays legal under the timing loop. */
  lemma {:induction false} ReorderRepeated<E(!new), L, T>(ar: Arith<T>, m: map<L, T>, code: E -> Body<L, T>,
                                                          s: seq<E>, t: seq<E>, n: nat)
    requires multiset(s) == multiset(t) && FitsAll(m.Keys, code, s) && Preserves(code, s, t)
    ensures FitsAll(m.Keys, code, Repeat(s, n)) && FitsAll(m.Keys, code, Repeat(t, n))
    ensures Run(ar, m, code, Repeat(s, n)) == Run(ar, m, code, Repeat(t, n))
  {
    if n == 0 {
    } else {
      Reorder(ar, m, code, s, t);
      ReorderRepeated(ar, Run(ar, m, code, s), code, s, t, n - 1);
      RunConcat(ar, m, code, s, Repeat(s, n - 1));
      RunConcat(ar, m, code, t, Repeat(t, n - 1));
    }
  }

  // ----- strips

  /** No instance reads what an instance less than `vf` places ahead of it wrote. */
  ghost predicate NoFlowWithin<E, L, T>(code: E -> Body<L, T>, s: seq<E>, vf: nat) {
    forall i, j | 0 <= i < j < |s| && j < i + vf :: Writes(code(s[i])) !! Uses(code(s[j]))
  }

  lemma {:induction false} OneStrip<E, L, T>(ar: Arith<T>, m: map<L, T>, code: E -> Body<L, T>, s: seq<E>)
    requires FitsAll(m.Keys, code, s) && NoFlowWithin(code, s, |s|)
    ensures Fits(m.Keys, Flatten(code, s))
    ensures Exec(ar, m, Flatten(code, s)) == Run(ar, m, code, s)
  {
    FlattenFits(m.Keys, code, s);
    if s == [] {
    } else {
      var b, rest := code(s[0]), Flatten(code, s[1..]);
      var n := Exec(ar, m, b);
      FlattenFits(m.Keys, code, s[1..]);
      OneStrip(ar, n, code, s[1..]);
      UnwrittenAll(ar, m, b);
      FlattenUses(code, s);
      forall l | l in m ensures Value(ar, n, rest, l) == Value(ar, m, b + rest, l) {
        ValueConcat(ar, m, b, rest, l);
        if l in Writes(rest) {
          ValueAgree(ar, m, n, rest, l);
        } else {
          ValueUnwritten(ar, n, rest, l);
        }
      }
    }
  }

  lemma FlattenUses<E, L, T>(code: E -> Body<L, T>, s: seq<E>)
    requires s != [] && NoFlowWithin(code, s, |s|)
    ensures Writes(code(s[0])) !! Uses(Flatten(code, s[1..]))
  {
    forall a | a in Flatten(code, s[1..]) ensures Writes(code(s[0])) !! a.rhs.Reads() {
      var k := FlattenMember(code, s[1..], a);
      assert s[1..][k] == s[k + 1];
    }
  }

  lemma FlattenMember<E, L, T>(code: E -> Body<L, T>, s: seq<E>, a: Assign<L, T>) returns (k: nat)
    requires a in Flatten(code, s)
    ensures k < |s| && a in code(s[k])
  {
    if a in code(s[0]) {
      k := 0;
    } else {
      k := FlattenMember(code, s[1..], a);
      k := k + 1;
    }
  }

  /**
   The strip theorem: if no flow dependence is shorter than `vf`, running in strips of `vf`
   lanes with all loads ahead of all stores leaves what the scalar order leaves.
   */
  lemma {:induction false} Strips<E, L, T>(ar: Arith<T>, m: map<L, T>, code: E -> Body<L, T>, s: seq<E>, vf: nat)
    requires vf > 0 && FitsAll(m.Keys, code, s) && NoFlowWithin(code, s, vf)
    ensures RunStrips(ar, m, code, s, vf) == Run(ar, m, code, s)
    decreases |s|
  {
    if |s| <= vf {
      OneStrip(ar, m, code, s);
    } else {
      assert forall i | 0 <= i < |s| - vf :: s[vf..][i] == s[vf + i];
      OneStrip(ar, m, code, s[..vf]);
      Strips(ar, Run(ar, m, code, s[..vf]), code, s[vf..], vf);
      RunConcat(ar, m, code, s[..vf], s[vf..]);
      assert s == s[..vf] + s[vf..];
    }
  }

  lemma FlattenUnwritten<E, L, T>(code: E -> Body<L, T>, s: seq<E>, l: L)
    requires forall e | e in s :: l !in Writes(code(e))
    ensures l !in Writes(Flatten(code, s))
  {
    forall a | a in Flatten(code, s) ensures a.dst != l {
      var k := FlattenMember(code, s, a);
      assert s[k] in s;
      assert a.dst in Writes(code(s[k]));
    }
  }

  lemma {:induction false} StripsUnwritten<E, L, T>(ar: Arith<T>, m: map<L, T>, code: E -> Body<L, T>,
                                                    s: seq<E>, vf: nat, l: L)
    requires vf > 0 && FitsAll(m.Keys, code, s) && l in m
    requires forall e | e in s :: l !in Writes(code(e))
    ensures RunStrips(ar, m, code, s, vf)[l] == m[l]
    decreases |s|
  {
    var strip := if |s| <= vf then s else s[..vf];
    FlattenFits(m.Keys, code, strip);
    FlattenUnwritten(code, strip, l);
    ValueUnwritten(ar, m, Flatten(code, strip), l);
    if |s| > vf {
      StripsUnwritten(ar, Exec(ar, m, Flatten(code, s[..vf])), code, s[vf..], vf, l);
    }
  }

  /** A location last stored at position `d` holds what that instance computed. */
  lemma RunLastStore<E, L, T>(ar: Arith<T>, m: map<L, T>, code: E -> Body<L, T>, s: seq<E>, d: nat, l: L)
    requires FitsAll(m.Keys, code, s) && d < |s| && l in m
    requires forall j | d < j < |s| :: l !in Writes(code(s[j]))
    ensures FitsAll(m.Keys, code, s[..d])
    ensures Run(ar, m, code, s)[l] == Exec(ar, Run(ar, m, code, s[..d]), code(s[d]))[l]
  {
    var front, rest := s[..d], s[d + 1..];
    assert s == (front + [s[d]]) + rest;
    RunConcat(ar, m, code, front + [s[d]], rest);
    RunSnoc(ar, m, code, front, s[d]);
    forall e | e in rest ensures l !in Writes(code(e)) {
      var j :| 0 <= j < |rest| && rest[j] == e;
      assert s[d + 1 + j] == e;
    }
    RunUnwritten(ar, Run(ar, m, code, front + [s[d]]), code, rest, l);
  }

  lemma Single<L, T>(a: Assign<L, T>, keys: set<L>)
    ensures Writes([a]) == {a.dst} && Uses([a]) == a.rhs.Reads()
    ensures Fits(keys, [a]) <==> a.dst in keys && a.rhs.Reads() <= keys
  {
    var b := [a];
    assert a in b && forall c | c in b :: c == a;
    forall l ensures l in Writes(b) <==> l == a.dst {}
    forall l ensures l in Uses(b) <==> l in a.rhs.Reads() {}
  }
}

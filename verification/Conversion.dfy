/**
 The meaning of a loop function and of the kernel made from it: the conversion is sound, and a read
 of the argument survives it exactly when it is at the type of what it reads.
 */
module Conversion {
  import opened Common
  import opened Arguments
  import opened Converter
  import opened Programs

  // ----- meaning

  /** What a statement adds to the scope it stands in; what is bound inside a block ends with it. */
  function Own(s: Stmt): Scope {
    if s.Simple? && s.code.Bind? then map[s.code.name := s.code.members] else map[]
  }

  function OwnAll(program: seq<Stmt>): Scope {
    if program == [] then map[] else Own(program[0]) + OwnAll(program[1..])
  }

  function Meaning<S>(m: Machine<S>, info: Info, scope: Scope, program: seq<Stmt>, s: S): S
    decreases program, 0, 0
  {
    if program == [] then s else
    Meaning(m, info, scope + Own(program[0]), program[1..], MeaningStmt(m, info, scope, program[0], s))
  }

  function MeaningStmt<S>(m: Machine<S>, info: Info, scope: Scope, stmt: Stmt, s: S): S
    decreases stmt, 2, 0
  {
    match stmt
    case Simple(code) => Step(m, info, scope, code, s)
    case Block(head, body) => Iterate(m, info, scope, body, m.trips(Items(m, info, scope, head), s), s)
    case Branch(head, yes, _, no) =>
      if m.test(Items(m, info, scope, head), s) then Meaning(m, info, scope, yes, s) else Meaning(m, info, scope, no, s)
  }

  function Iterate<S>(m: Machine<S>, info: Info, scope: Scope, body: seq<Stmt>, n: nat, s: S): S
    decreases body, 1, n
  {
    if n == 0 then s else Iterate(m, info, scope, body, n - 1, Meaning(m, info, scope, body, s))
  }

  lemma ScopeAssociates(x: Scope, y: Scope, z: Scope)
    ensures (x + y) + z == x + (y + z)
  {
  }

  lemma {:induction false} MeaningConcat<S>(m: Machine<S>, info: Info, scope: Scope, p: seq<Stmt>, q: seq<Stmt>, s: S)
    ensures Meaning(m, info, scope, p + q, s) == Meaning(m, info, scope + OwnAll(p), q, Meaning(m, info, scope, p, s))
    decreases p
  {
    if p == [] {
      assert p + q == q && scope + OwnAll(p) == scope;
    } else {
      hide MeaningStmt, Own;
      assert (p + q)[1..] == p[1..] + q;
      var after := scope + Own(p[0]);
      MeaningConcat(m, info, after, p[1..], q, MeaningStmt(m, info, scope, p[0], s));
      ScopeAssociates(scope, Own(p[0]), OwnAll(p[1..]));
    }
  }

  lemma OneMeaning<S>(m: Machine<S>, info: Info, scope: Scope, stmt: Stmt, s: S)
    ensures Meaning(m, info, scope, [stmt], s) == MeaningStmt(m, info, scope, stmt, s)
    ensures Meaning(m, info, scope, [], s) == s
  {
    assert [stmt][1..] == [];
  }

  // ----- the rewriting keeps the meaning

  /** Every use of a struct pointer is usable where it stands: `bound` are those bound above. */
  ghost predicate Usable(wide: bool, info: Info, scope: Scope, bound: set<string>, program: seq<Stmt>)
    decreases program
  {
    program == []
    || (UsableStmt(wide, info, scope, bound, program[0])
        && Usable(wide, info, scope + Own(program[0]), bound + BoundIn(ListingStmt(program[0])), program[1..]))
  }

  ghost predicate UsableStmt(wide: bool, info: Info, scope: Scope, bound: set<string>, s: Stmt)
    decreases s
  {
    match s
    case Simple(code) => code.Plain? ==> UsableParts(wide, info, scope, bound, code.parts)
    case Block(head, body) => UsableParts(wide, info, scope, bound, head) && Usable(wide, info, scope, bound, body)
    case Branch(head, yes, _, no) =>
      UsableParts(wide, info, scope, bound, head) && Usable(wide, info, scope, bound, yes)
      && Usable(wide, info, scope, bound + BoundIn(Listing(yes)), no)
  }

  /** Every line uses the argument as it was prepared, and reads it at its own type. */
  ghost predicate Proper<S>(m: Machine<S>, info: Info, codes: seq<Code>) {
    Held(m, info) && forall c | c in codes :: Prepared(info, c) && OwnType(m, info, c)
  }

  lemma OwnIsBound(s: Stmt)
    ensures Own(s).Keys <= BoundIn(ListingStmt(s))
  {
    if s.Simple? {
      RewriteOne(Absent, {}, s.code);
    }
  }

  lemma {:induction false} OwnAllFree(program: seq<Stmt>)
    requires forall c | c in Listing(program) :: Free(c)
    ensures OwnAll(program) == map[]
  {
    if program == [] {
    } else {
      assert forall c | c in Listing(program[1..]) :: c in Listing(program);
      OwnAllFree(program[1..]);
      if program[0].Simple? {
        assert program[0].code in Listing(program);
      }
    }
  }

  lemma RewrittenOwnsNothing<S>(m: Machine<S>, info: Info, bound: set<string>, program: seq<Stmt>)
    requires Proper(m, info, Listing(program))
    ensures OwnAll(RewriteProgram(info, bound, program)) == map[]
    ensures forall c | c in Listing(RewriteProgram(info, bound, program)) :: Free(c)
  {
    ListingRewritten(info, bound, program);
    RewrittenFree(info, bound, Listing(program));
    OwnAllFree(RewriteProgram(info, bound, program));
  }

  /**
   When every read is at its own type, the rewritten program does what the program did, whatever
   the argument pointer now is.
   */
  lemma {:induction false} RewriteMeaning<S>(m: Machine<S>, info: Info, other: Info, scope: Scope, bound: set<string>,
                                             program: seq<Stmt>, s: S)
    requires scope.Keys <= bound && Usable(m.wide, info, scope, bound, program) && Proper(m, info, Listing(program))
    ensures Meaning(m, other, map[], RewriteProgram(info, bound, program), s) == Meaning(m, info, scope, program, s)
    decreases program, 0, 0
  {
    if program == [] {
    } else {
      hide MeaningStmt, Own, UsableStmt, RewriteStmt, ListingStmt, OwnAll, Proper, BoundIn;
      var first, rest := program[0], program[1..];
      var after := bound + BoundIn(ListingStmt(first));
      ProperParts(m, info, ListingStmt(first), Listing(rest));
      RewriteStmtMeaning(m, info, other, scope, bound, first, s);
      OwnIsBound(first);
      RewriteMeaning(m, info, other, scope + Own(first), after, rest, MeaningStmt(m, info, scope, first, s));
      RewrittenStmtOwnsNothing(m, info, bound, first);
      MeaningConcat(m, other, map[], RewriteStmt(info, bound, first), RewriteProgram(info, after, rest), s);
      assert map[] + OwnAll(RewriteStmt(info, bound, first)) == map[];
    }
  }

  lemma ProperParts<S>(m: Machine<S>, info: Info, s: seq<Code>, t: seq<Code>)
    requires Proper(m, info, s + t)
    ensures Proper(m, info, s) && Proper(m, info, t)
  {
    assert forall c | c in s :: c in s + t;
    assert forall c | c in t :: c in s + t;
  }

  lemma RewrittenStmtOwnsNothing<S>(m: Machine<S>, info: Info, bound: set<string>, s: Stmt)
    requires Proper(m, info, ListingStmt(s))
    ensures OwnAll(RewriteStmt(info, bound, s)) == map[]
  {
    ListingSingle(s);
    RewrittenOwnsNothing(m, info, bound, [s]);
    assert RewriteProgram(info, bound + BoundIn(ListingStmt(s)), [s][1..]) == [];
    assert RewriteProgram(info, bound, [s]) == RewriteStmt(info, bound, s);
  }

  lemma {:induction false} RewriteStmtMeaning<S>(m: Machine<S>, info: Info, other: Info, scope: Scope,
                                                 bound: set<string>, stmt: Stmt, s: S)
    requires scope.Keys <= bound && UsableStmt(m.wide, info, scope, bound, stmt) && Proper(m, info, ListingStmt(stmt))
    ensures Meaning(m, other, map[], RewriteStmt(info, bound, stmt), s) == MeaningStmt(m, info, scope, stmt, s)
    decreases stmt, 2, 0
  {
    hide Meaning, UsableParts, Items, RewriteParts, Step, Rewritten, OwnType, Prepared, Usable, Iterate, BoundIn;
    var rewritten := RewriteStmt(info, bound, stmt);
    OneMeaning(m, other, map[], if rewritten == [] then stmt else rewritten[0], s);
    match stmt
    case Simple(code) =>
      assert code in [code];
      StepRewritten(m, info, other, scope, bound, code, s);
    case Block(head, body) =>
      ItemsRewritten(m, info, other, scope, bound, head);
      ProperInside(m, info, Plain(head), Listing(body));
      RewriteIterate(m, info, other, scope, bound, body, m.trips(Items(m, info, scope, head), s), s);
    case Branch(head, yes, middle, no) =>
      ItemsRewritten(m, info, other, scope, bound, head);
      ProperInside(m, info, Plain(head), Listing(yes) + [Middle(middle)] + Listing(no));
      ProperParts(m, info, Listing(yes) + [Middle(middle)], Listing(no));
      ProperParts(m, info, Listing(yes), [Middle(middle)]);
      RewriteMeaning(m, info, other, scope, bound, yes, s);
      RewriteMeaning(m, info, other, scope, bound + BoundIn(Listing(yes)), no, s);
  }

  lemma ProperInside<S>(m: Machine<S>, info: Info, head: Code, inner: seq<Code>)
    requires Proper(m, info, [head] + inner + [CLOSE])
    ensures Proper(m, info, inner)
  {
    ProperParts(m, info, [head] + inner, [CLOSE]);
    ProperParts(m, info, [head], inner);
  }

  lemma {:induction false} RewriteIterate<S>(m: Machine<S>, info: Info, other: Info, scope: Scope, bound: set<string>,
                                             body: seq<Stmt>, n: nat, s: S)
    requires scope.Keys <= bound && Usable(m.wide, info, scope, bound, body) && Proper(m, info, Listing(body))
    ensures Iterate(m, other, map[], RewriteProgram(info, bound, body), n, s) == Iterate(m, info, scope, body, n, s)
    decreases body, 1, n
  {
    if n == 0 {
    } else {
      hide Meaning, Usable, Proper;
      RewriteMeaning(m, info, other, scope, bound, body, s);
      RewriteIterate(m, info, other, scope, bound, body, n - 1, Meaning(m, info, scope, body, s));
    }
  }

  // ----- dropping lines keeps the meaning

  /** The harness calls do nothing to the arrays. */
  ghost predicate Idle<S(!new)>(m: Machine<S>, p: Patterns, info: Info) {
    forall c, x | p.isRuntime(c) && Free(c) :: Step(m, info, map[], c, x) == x
  }

  /** Dropping lines without effect changes nothing. */
  lemma {:induction false} DroppedMeaning<S(!new)>(m: Machine<S>, p: Patterns, info: Info, program: seq<Stmt>, s: S)
    requires Idle(m, p, info) && forall c | c in Listing(program) :: Free(c)
    ensures Meaning(m, info, map[], Dropped(p, program), s) == Meaning(m, info, map[], program, s)
    decreases program, 0, 0
  {
    if program == [] {
    } else {
      var first, rest := program[0], program[1..];
      FreeParts(ListingStmt(first), Listing(rest));
      hide MeaningStmt, Idle, Free, DroppedStmt, ListingStmt;
      OwnsNothing(p, first);
      hide Own, OwnAll;
      DroppedStmtMeaning(m, p, info, first, s);
      DroppedMeaning(m, p, info, rest, MeaningStmt(m, info, map[], first, s));
      MeaningConcat(m, info, map[], DroppedStmt(p, first), Dropped(p, rest), s);
      assert map[] + Own(first) == map[];
    }
  }

  lemma OwnsNothing(p: Patterns, s: Stmt)
    requires forall c | c in ListingStmt(s) :: Free(c)
    ensures Own(s) == map[] && OwnAll(DroppedStmt(p, s)) == map[]
  {
    if s.Simple? {
      assert s.code in ListingStmt(s);
    }
    var d := DroppedStmt(p, s);
    if d != [] {
      assert OwnAll(d[1..]) == map[];
    }
  }

  lemma FreeParts(s: seq<Code>, t: seq<Code>)
    requires forall c | c in s + t :: Free(c)
    ensures (forall c | c in s :: Free(c)) && forall c | c in t :: Free(c)
  {
    assert forall c | c in s :: c in s + t;
    assert forall c | c in t :: c in s + t;
  }

  lemma {:induction false} DroppedStmtMeaning<S(!new)>(m: Machine<S>, p: Patterns, info: Info, stmt: Stmt, s: S)
    requires Idle(m, p, info) && forall c | c in ListingStmt(stmt) :: Free(c)
    ensures Meaning(m, info, map[], DroppedStmt(p, stmt), s) == MeaningStmt(m, info, map[], stmt, s)
    decreases stmt, 2, 0
  {
    hide Meaning, Items, Step, Free, Iterate;
    OneMeaning(m, info, map[], if DroppedStmt(p, stmt) == [] then stmt else DroppedStmt(p, stmt)[0], s);
    match stmt
    case Simple(code) =>
      assert code in [code];
    case Block(head, body) =>
      FreeInside(Plain(head), Listing(body));
      DroppedIterate(m, p, info, body, m.trips(Items(m, info, map[], head), s), s);
    case Branch(head, yes, middle, no) =>
      FreeInside(Plain(head), Listing(yes) + [Middle(middle)] + Listing(no));
      FreeParts(Listing(yes) + [Middle(middle)], Listing(no));
      FreeParts(Listing(yes), [Middle(middle)]);
      DroppedMeaning(m, p, info, yes, s);
      DroppedMeaning(m, p, info, no, s);
  }

  lemma FreeInside(head: Code, inner: seq<Code>)
    requires forall c | c in [head] + inner + [CLOSE] :: Free(c)
    ensures forall c | c in inner :: Free(c)
  {
    FreeParts([head] + inner, [CLOSE]);
    FreeParts([head], inner);
  }

  lemma {:induction false} DroppedIterate<S(!new)>(m: Machine<S>, p: Patterns, info: Info, body: seq<Stmt>, n: nat,
                                                   s: S)
    requires Idle(m, p, info) && forall c | c in Listing(body) :: Free(c)
    ensures Iterate(m, info, map[], Dropped(p, body), n, s) == Iterate(m, info, map[], body, n, s)
    decreases body, 1, n
  {
    if n == 0 {
    } else {
      hide Meaning, Idle, Free;
      DroppedMeaning(m, p, info, body, s);
      DroppedIterate(m, p, info, body, n - 1, Meaning(m, info, map[], body, s));
    }
  }

  // ----- the conversion

  /** The repeat loop runs its body once. */
  ghost predicate RunsOnce<S(!new)>(m: Machine<S>, info: Info, scope: Scope, head: seq<Part>) {
    forall x :: m.trips(Items(m, info, scope, head), x) == 1
  }

  /** A function body whose lines use the argument properly and in scope, and whose harness calls are idle. */
  ghost predicate Convertible<S(!new)>(m: Machine<S>, p: Patterns, info: Info, other: Info, program: seq<Stmt>) {
    Usable(m.wide, info, map[], {}, program) && Proper(m, info, Listing(program)) && Idle(m, p, other)
  }

  /** The kernel, whatever the argument pointer, does what the loop function does when its repeat loop runs once. */
  lemma KernelMeaning<S(!new)>(m: Machine<S>, p: Patterns, info: Info, other: Info, pre: seq<Stmt>, head: seq<Part>,
                               body: seq<Stmt>, post: seq<Stmt>, s: S)
    requires Convertible(m, p, info, other, pre + [Block(head, body)] + post) && RunsOnce(m, info, OwnAll(pre), head)
    ensures Meaning(m, other, map[], Kernel(p, info, pre, body, post), s)
            == Meaning(m, info, map[], pre + [Block(head, body)] + post, s)
  {
    hide Listing, Meaning, Kernel, OwnAll, Usable, Proper, Idle, RunsOnce, RewriteProgram, Free;
    SplicedProper(m, info, pre, head, body, post);
    RewrittenOwnsNothing(m, info, {}, pre + body + post);
    DroppedOnce(m, p, info, other, pre, head, body, post, s);
    SplicedMeaning(m, info, other, pre, head, body, post, s);
    FunctionMeaning(m, info, pre, head, body, post, s);
  }

  lemma DroppedOnce<S(!new)>(m: Machine<S>, p: Patterns, info: Info, other: Info, pre: seq<Stmt>, head: seq<Part>,
                             body: seq<Stmt>, post: seq<Stmt>, s: S)
    requires Convertible(m, p, info, other, pre + [Block(head, body)] + post)
    requires forall c | c in Listing(RewriteProgram(info, {}, pre + body + post)) :: Free(c)
    ensures Meaning(m, other, map[], Kernel(p, info, pre, body, post), s)
            == Meaning(m, other, map[], RewriteProgram(info, {}, pre + body + post), s)
  {
    hide Listing, Meaning, RewriteProgram, Free, Idle;
    DroppedMeaning(m, p, other, RewriteProgram(info, {}, pre + body + post), s);
  }

  lemma SplicedProper<S>(m: Machine<S>, info: Info, pre: seq<Stmt>, head: seq<Part>, body: seq<Stmt>, post: seq<Stmt>)
    requires Proper(m, info, Listing(pre + [Block(head, body)] + post))
    ensures Proper(m, info, Listing(pre)) && Proper(m, info, Listing(body)) && Proper(m, info, Listing(post))
    ensures Proper(m, info, Listing(pre + body + post))
  {
    hide Listing, Prepared, OwnType;
    FunctionListing(pre, head, body, post);
    ProperParts(m, info, Listing(pre) + ([Plain(head)] + Listing(body) + [CLOSE]), Listing(post));
    ProperParts(m, info, Listing(pre), [Plain(head)] + Listing(body) + [CLOSE]);
    ProperInside(m, info, Plain(head), Listing(body));
  }

  lemma FunctionMeaning<S(!new)>(m: Machine<S>, info: Info, pre: seq<Stmt>, head: seq<Part>, body: seq<Stmt>,
                                 post: seq<Stmt>, s: S)
    requires RunsOnce(m, info, OwnAll(pre), head)
    ensures var x := Meaning(m, info, map[], pre, s);
            Meaning(m, info, map[], pre + [Block(head, body)] + post, s)
            == Meaning(m, info, OwnAll(pre), post, Meaning(m, info, OwnAll(pre), body, x))
  {
    hide Meaning, Items;
    var x, scope := Meaning(m, info, map[], pre, s), OwnAll(pre);
    MeaningConcat(m, info, map[], pre + [Block(head, body)], post, s);
    MeaningConcat(m, info, map[], pre, [Block(head, body)], s);
    OneMeaning(m, info, scope, Block(head, body), x);
    OwnConcat(pre, [Block(head, body)]);
    assert [Block(head, body)][1..] == [];
    assert map[] + scope == scope && OwnAll([Block(head, body)]) == map[];
    assert map[] + OwnAll(pre + [Block(head, body)]) == scope;
    assert Iterate(m, info, scope, body, 1, x) == Iterate(m, info, scope, body, 0, Meaning(m, info, scope, body, x));
  }

  lemma {:induction false} OwnConcat(p: seq<Stmt>, q: seq<Stmt>)
    ensures OwnAll(p + q) == OwnAll(p) + OwnAll(q)
  {
    if p == [] {
      assert p + q == q;
    } else {
      hide Own;
      assert (p + q)[1..] == p[1..] + q;
      OwnConcat(p[1..], q);
      ScopeAssociates(Own(p[0]), OwnAll(p[1..]), OwnAll(q));
    }
  }

  /** The rewritten pieces, run one after the other, do what the pieces did. */
  lemma SplicedMeaning<S>(m: Machine<S>, info: Info, other: Info, pre: seq<Stmt>, head: seq<Part>, body: seq<Stmt>,
                          post: seq<Stmt>, s: S)
    requires Usable(m.wide, info, map[], {}, pre + [Block(head, body)] + post)
    requires Proper(m, info, Listing(pre + [Block(head, body)] + post))
    ensures var x := Meaning(m, info, map[], pre, s);
            Meaning(m, other, map[], RewriteProgram(info, {}, pre + body + post), s)
            == Meaning(m, info, OwnAll(pre), post, Meaning(m, info, OwnAll(pre), body, x))
  {
    hide Meaning, RewriteProgram, Listing, Usable, OwnAll, Proper, BoundIn;
    var scope, mid := OwnAll(pre), BoundIn(Listing(pre));
    var end := mid + BoundIn(Listing(body));
    FunctionUsable(m.wide, info, pre, head, body, post);
    SplicedProper(m, info, pre, head, body, post);
    var x := Meaning(m, info, map[], pre, s);
    var y := Meaning(m, info, scope, body, x);
    RewriteMeaning(m, info, other, map[], {}, pre, s);
    RewriteMeaning(m, info, other, scope, mid, body, x);
    RewriteMeaning(m, info, other, scope, end, post, y);
    RewrittenOwnsNothing(m, info, {}, pre);
    RewrittenOwnsNothing(m, info, mid, body);
    RewriteSplit(info, pre, body, post);
    var p, b, q := RewriteProgram(info, {}, pre), RewriteProgram(info, mid, body), RewriteProgram(info, end, post);
    MeaningConcat(m, other, map[], p + b, q, s);
    MeaningConcat(m, other, map[], p, b, s);
    OwnConcat(p, b);
  }

  lemma RewriteSplit(info: Info, pre: seq<Stmt>, body: seq<Stmt>, post: seq<Stmt>)
    ensures var mid := BoundIn(Listing(pre));
            RewriteProgram(info, {}, pre + body + post)
            == RewriteProgram(info, {}, pre) + RewriteProgram(info, mid, body)
               + RewriteProgram(info, mid + BoundIn(Listing(body)), post)
  {
    hide RewriteProgram, BoundIn, Listing;
    RewriteProgramConcat(info, {}, pre + body, post);
    RewriteProgramConcat(info, {}, pre, body);
    ListingConcat(pre, body);
    RewriteConcat(info, {}, Listing(pre), Listing(body));
    assert {} + BoundIn(Listing(pre)) == BoundIn(Listing(pre));
    assert {} + (BoundIn(Listing(pre)) + BoundIn(Listing(body))) == BoundIn(Listing(pre)) + BoundIn(Listing(body));
  }

  lemma RewriteProgramCons(info: Info, bound: set<string>, s: Stmt, rest: seq<Stmt>)
    ensures RewriteProgram(info, bound, [s] + rest)
            == RewriteStmt(info, bound, s) + RewriteProgram(info, bound + BoundIn(ListingStmt(s)), rest)
    ensures Listing([s] + rest) == ListingStmt(s) + Listing(rest)
  {
    assert ([s] + rest)[1..] == rest;
  }

  lemma RewriteProgramNone(info: Info, bound: set<string>)
    ensures RewriteProgram(info, bound, []) == [] && bound + BoundIn(Listing([])) == bound
  {
  }

  lemma {:induction false} RewriteProgramConcat(info: Info, bound: set<string>, p: seq<Stmt>, q: seq<Stmt>)
    ensures RewriteProgram(info, bound, p + q)
            == RewriteProgram(info, bound, p) + RewriteProgram(info, bound + BoundIn(Listing(p)), q)
    decreases p
  {
    hide RewriteProgram, Listing, RewriteStmt, BoundIn, ListingStmt;
    if p == [] {
      RewriteProgramNone(info, bound);
      assert p + q == q;
    } else {
      var s, rest := p[0], p[1..];
      var after := bound + BoundIn(ListingStmt(s));
      assert p == [s] + rest && p + q == [s] + (rest + q);
      RewriteProgramCons(info, bound, s, rest);
      RewriteProgramCons(info, bound, s, rest + q);
      RewriteProgramConcat(info, after, rest, q);
      RewriteConcat(info, {}, ListingStmt(s), Listing(rest));
      assert after + BoundIn(Listing(rest)) == bound + BoundIn(Listing(p));
      StmtsAssociate(RewriteStmt(info, bound, s), RewriteProgram(info, after, rest),
                     RewriteProgram(info, bound + BoundIn(Listing(p)), q));
    }
  }

  lemma StmtsAssociate(x: seq<Stmt>, y: seq<Stmt>, z: seq<Stmt>)
    ensures (x + y) + z == x + (y + z)
  {
  }

  lemma {:induction false} UsableConcat(wide: bool, info: Info, scope: Scope, bound: set<string>, p: seq<Stmt>,
                                        q: seq<Stmt>)
    requires scope.Keys <= bound
    ensures Usable(wide, info, scope, bound, p + q)
            <==> Usable(wide, info, scope, bound, p)
                 && Usable(wide, info, scope + OwnAll(p), bound + BoundIn(Listing(p)), q)
    ensures (scope + OwnAll(p)).Keys <= bound + BoundIn(Listing(p))
    decreases p
  {
    if p == [] {
      assert p + q == q && bound + BoundIn(Listing(p)) == bound && scope + OwnAll(p) == scope;
    } else {
      hide UsableStmt, BoundIn, ListingStmt, Own;
      var scope1, bound1 := scope + Own(p[0]), bound + BoundIn(ListingStmt(p[0]));
      assert (p + q)[1..] == p[1..] + q;
      OwnIsBound(p[0]);
      UsableConcat(wide, info, scope1, bound1, p[1..], q);
      RewriteConcat(info, {}, ListingStmt(p[0]), Listing(p[1..]));
      assert bound1 + BoundIn(Listing(p[1..])) == bound + BoundIn(Listing(p));
      ScopeAssociates(scope, Own(p[0]), OwnAll(p[1..]));
    }
  }

  lemma FunctionUsable(wide: bool, info: Info, pre: seq<Stmt>, head: seq<Part>, body: seq<Stmt>, post: seq<Stmt>)
    requires Usable(wide, info, map[], {}, pre + [Block(head, body)] + post)
    ensures var scope, mid := OwnAll(pre), BoundIn(Listing(pre));
            scope.Keys <= mid && Usable(wide, info, map[], {}, pre) && Usable(wide, info, scope, mid, body)
            && Usable(wide, info, scope, mid + BoundIn(Listing(body)), post)
  {
    hide BoundIn, Listing;
    var scope, mid, block := OwnAll(pre), BoundIn(Listing(pre)), [Block(head, body)];
    UsableConcat(wide, info, map[], {}, pre + block, post);
    UsableConcat(wide, info, map[], {}, pre, block);
    assert map[] + scope == scope && {} + mid == mid;
    BlockBinds(head, body);
    OwnConcat(pre, block);
    assert block[1..] == [] && block[0] == Block(head, body);
    assert OwnAll(block) == map[] && scope + map[] == scope;
    ListingConcat(pre, block);
    RewriteConcat(info, {}, Listing(pre), Listing(block));
    assert map[] + (scope + OwnAll(block)) == scope
      && {} + BoundIn(Listing(pre + block)) == mid + BoundIn(Listing(body));
  }

  lemma BlockBinds(head: seq<Part>, body: seq<Stmt>)
    ensures BoundIn(Listing([Block(head, body)])) == BoundIn(Listing(body))
  {
    hide BoundIn, Listing;
    ListingSingle(Block(head, body));
    RewriteConcat(Absent, {}, [Plain(head)] + Listing(body), [CLOSE]);
    RewriteConcat(Absent, {}, [Plain(head)], Listing(body));
    RewriteOne(Absent, {}, Plain(head));
    RewriteOne(Absent, {}, CLOSE);
  }

  /**
   The conversion is sound: on the lines of a loop function, however they are indented, the three
   passes succeed and leave the lines of the kernel, and the kernel, whatever the argument pointer,
   does to the arrays what the function does when its repeat loop runs once.
   */
  lemma ConversionSound<S(!new)>(m: Machine<S>, p: Patterns, info: Info, other: Info, pre: seq<Stmt>, head: seq<Part>,
                                 body: seq<Stmt>, post: seq<Stmt>, lines: seq<Line>, s: S)
    requires Wrapped(p, pre, head, body) && HeadsKept(p, RewriteProgram(info, {}, pre + body + post))
    requires Convertible(m, p, info, other, pre + [Block(head, body)] + post) && RunsOnce(m, info, OwnAll(pre), head)
    requires Codes(lines) == Listing(pre + [Block(head, body)] + post)
    ensures exists kernel :: Converts(p, info, lines, kernel)
    ensures forall kernel | Converts(p, info, lines, kernel) ::
              Codes(kernel) == Listing(Kernel(p, info, pre, body, post))
    ensures Meaning(m, other, map[], Kernel(p, info, pre, body, post), s)
            == Meaning(m, info, map[], pre + [Block(head, body)] + post, s)
  {
    SplicedProper(m, info, pre, head, body, post);
    hide *;
    KernelText(p, info, pre, head, body, post, lines);
    KernelMeaning(m, p, info, other, pre, head, body, post, s);
    Accepted(m, info, Listing(pre + body + post));
  }

  lemma Accepted<S>(m: Machine<S>, info: Info, codes: seq<Code>)
    requires Proper(m, info, codes)
    ensures forall c | c in codes :: Prepared(info, c)
  {
  }

  // ----- struct arguments

  /** Struct pointers are bound outside all blocks, as every loop of the suite does. */
  ghost predicate BindsAtTop(program: seq<Stmt>) {
    forall s | s in program && !s.Simple? :: BoundIn(ListingStmt(s)) == {}
  }

  /** A line declares the struct as it is filled, and uses its fields where their expressions are read as values. */
  ghost predicate Plainly(slots: seq<Slot>, c: Code) {
    match c
    case Bind(members, _) => SameLayout(slots, members)
    case Assign(_, _, _) => true
    case Plain(parts) =>
      forall k | 0 <= k < |parts| && parts[k].Field? :: HasField(Struct(slots), parts[k].field)
        && Pasted(slots, parts, k)
  }

  ghost predicate SameLayouts(slots: seq<Slot>, scope: Scope) {
    forall x | x in scope :: SameLayout(slots, scope[x])
  }

  /** Then every use is usable. */
  lemma {:induction false} UsableAtTop(wide: bool, slots: seq<Slot>, scope: Scope, program: seq<Stmt>)
    requires BindsAtTop(program) && SameLayouts(slots, scope) && forall c | c in Listing(program) :: Plainly(slots, c)
    ensures Usable(wide, Struct(slots), scope, scope.Keys, program)
    decreases program
  {
    if program == [] {
    } else {
      var first := program[0];
      hide BoundIn, ListingStmt, Plainly, SameLayout, UsableStmt;
      assert first in program;
      EachIn(slots, ListingStmt(first), Listing(program[1..]));
      UsableStmtAtTop(wide, slots, scope, first);
      FirstBinds(slots, first);
      ScopeGrows(slots, scope, Own(first));
      UsableAtTop(wide, slots, scope + Own(first), program[1..]);
      assert (scope + Own(first)).Keys == scope.Keys + BoundIn(ListingStmt(first));
    }
  }

  lemma EachIn(slots: seq<Slot>, s: seq<Code>, t: seq<Code>)
    requires forall c | c in s + t :: Plainly(slots, c)
    ensures (forall c | c in s :: Plainly(slots, c)) && forall c | c in t :: Plainly(slots, c)
  {
    assert forall c | c in s :: c in s + t;
    assert forall c | c in t :: c in s + t;
  }

  lemma FirstBinds(slots: seq<Slot>, s: Stmt)
    requires !s.Simple? ==> BoundIn(ListingStmt(s)) == {}
    requires forall c | c in ListingStmt(s) :: Plainly(slots, c)
    ensures BoundIn(ListingStmt(s)) == Own(s).Keys && SameLayouts(slots, Own(s))
  {
    if s.Simple? {
      RewriteOne(Absent, {}, s.code);
      assert s.code in ListingStmt(s);
    }
  }

  lemma ScopeGrows(slots: seq<Slot>, scope: Scope, own: Scope)
    requires SameLayouts(slots, scope) && SameLayouts(slots, own)
    ensures SameLayouts(slots, scope + own)
  {
  }

  lemma {:induction false} UsableStmtAtTop(wide: bool, slots: seq<Slot>, scope: Scope, s: Stmt)
    requires !s.Simple? ==> BoundIn(ListingStmt(s)) == {}
    requires SameLayouts(slots, scope) && forall c | c in ListingStmt(s) :: Plainly(slots, c)
    ensures UsableStmt(wide, Struct(slots), scope, scope.Keys, s)
    decreases s
  {
    hide BoundIn, Listing, UsableParts, Plainly, SameLayouts;
    match s
    case Simple(code) =>
      assert code in [code];
      if code.Plain? {
        PlainUsable(wide, slots, scope, code.parts);
      }
    case Block(head, body) =>
      var enclosed := [Plain(head)] + Listing(body) + [CLOSE];
      assert enclosed[0] == Plain(head);
      PlainUsable(wide, slots, scope, head);
      EnclosedBinds(slots, Plain(head), Listing(body));
      NothingBoundAtTop(body);
      UsableAtTop(wide, slots, scope, body);
    case Branch(head, yes, middle, no) =>
      var inner := Listing(yes) + [Middle(middle)] + Listing(no);
      assert ([Plain(head)] + inner + [CLOSE])[0] == Plain(head);
      PlainUsable(wide, slots, scope, head);
      EnclosedBinds(slots, Plain(head), inner);
      EachIn(slots, Listing(yes) + [Middle(middle)], Listing(no));
      EachIn(slots, Listing(yes), [Middle(middle)]);
      RewriteConcat(Absent, {}, Listing(yes) + [Middle(middle)], Listing(no));
      RewriteConcat(Absent, {}, Listing(yes), [Middle(middle)]);
      NothingBoundAtTop(yes);
      NothingBoundAtTop(no);
      UsableAtTop(wide, slots, scope, yes);
      UsableAtTop(wide, slots, scope, no);
      assert scope.Keys + BoundIn(Listing(yes)) == scope.Keys;
  }

  lemma PlainUsable(wide: bool, slots: seq<Slot>, scope: Scope, parts: seq<Part>)
    requires SameLayouts(slots, scope) && Plainly(slots, Plain(parts))
    ensures UsableParts(wide, Struct(slots), scope, scope.Keys, parts)
  {
    hide FieldKept, SameLayout, Pasted;
    forall k | 0 <= k < |parts| && parts[k].Field? && parts[k].variable in scope
      ensures HasField(Struct(slots), parts[k].field)
              && FieldKept(wide, slots, scope[parts[k].variable], parts[k].field)
    {
      SameLayoutKeeps(wide, slots, scope[parts[k].variable], parts[k].field);
    }
  }

  lemma EnclosedBinds(slots: seq<Slot>, head: Code, inner: seq<Code>)
    requires forall c | c in [head] + inner + [CLOSE] :: Plainly(slots, c)
    ensures forall c | c in inner :: Plainly(slots, c)
    ensures BoundIn(inner) <= BoundIn([head] + inner + [CLOSE])
  {
    hide BoundIn, Plainly;
    RewriteConcat(Absent, {}, [head] + inner, [CLOSE]);
    RewriteConcat(Absent, {}, [head], inner);
    EachIn(slots, [head] + inner, [CLOSE]);
    EachIn(slots, [head], inner);
  }

  lemma {:induction false} NothingBoundAtTop(program: seq<Stmt>)
    requires BoundIn(Listing(program)) == {}
    ensures BindsAtTop(program)
  {
    if program == [] {
    } else {
      RewriteConcat(Absent, {}, ListingStmt(program[0]), Listing(program[1..]));
      NothingBoundAtTop(program[1..]);
      assert forall s | s in program :: s == program[0] || s in program[1..];
    }
  }

  // ----- exactly which fields survive

  /** `struct{members} * x = func_args->arg_info;` and `target = x->field;` */
  function FieldLines(members: seq<Member>, target: string, field: string): seq<Stmt> {
    [Simple(Bind(members, "x")), Simple(Plain([Text(target + ASSIGNS), Field("x", field), Text(";")]))]
  }

  /** The two lines and what they are rewritten to leave the same state when the globals are `g`. */
  ghost predicate FieldSurvives<S>(m: Machine<S>, slots: seq<Slot>, other: Info, members: seq<Member>, target: string,
                                   field: string, g: string -> Value, s: S) {
    var machine, lines := m.(globals := g), FieldLines(members, target, field);
    Meaning(machine, other, map[], RewriteProgram(Struct(slots), {}, lines), s)
      == Meaning(machine, Struct(slots), map[], lines, s)
  }

  /** Assigning `target` can be observed. */
  ghost predicate Shows<S>(m: Machine<S>, target: string, s: S) {
    forall v, w |
      m.exec([Literal(target + ASSIGNS), Quantity(v), Literal(";")], s)
      == m.exec([Literal(target + ASSIGNS), Quantity(w), Literal(";")], s) :: v == w
  }

  /** Bytes read at a type are a value of that type. */
  ghost predicate ReadsTyped<S>(m: Machine<S>) {
    forall ty, v :: TypeOf(m.reinterpret(ty, v)) == ty
  }

  /** An expression has one type. */
  ghost predicate OneType(slots: seq<Slot>) {
    forall i, k | 0 <= i < |slots| && 0 <= k < |slots| && slots[i].expr == slots[k].expr :: slots[i].ty == slots[k].ty
  }

  lemma FieldMeaning<S>(m: Machine<S>, slots: seq<Slot>, other: Info, members: seq<Member>, target: string,
                        field: string, g: string -> Value, s: S)
    requires HasField(Struct(slots), field) && Shows(m, target, s)
    ensures FieldSurvives(m, slots, other, members, target, field, g, s)
            <==> FieldValue(m.(globals := g), slots, members, field) == g(FieldOf(slots, field))
  {
    var machine, info, lines := m.(globals := g), Struct(slots), FieldLines(members, target, field);
    var parts := [Text(target + ASSIGNS), Field("x", field), Text(";")];
    var pasted := [Text(target + ASSIGNS), Global(FieldOf(slots, field)), Text(";")];
    var scope: Scope := map["x" := members];
    EndsAssigning(target);
    FieldRewritten(info, members, target, field);
    hide FieldOf, FieldValue, HasField, Meaning;
    OneMeaning(machine, other, map[], Simple(Plain(pasted)), s);
    assert lines[1..] == [lines[1]] && map[] + Own(lines[0]) == scope;
    assert lines == [lines[0]] + [lines[1]] && OwnAll([lines[0]]) == scope by {
      assert [lines[0]][1..] == [];
    }
    MeaningConcat(machine, info, map[], [lines[0]], [lines[1]], s);
    OneMeaning(machine, info, map[], lines[0], s);
    OneMeaning(machine, info, scope, lines[1], s);
    assert Items(machine, other, map[], pasted)
        == [Literal(target + ASSIGNS), Quantity(g(FieldOf(slots, field))), Literal(";")];
    assert Items(machine, info, scope, parts)
        == [Literal(target + ASSIGNS), Quantity(FieldValue(machine, slots, members, field)), Literal(";")];
  }

  lemma EndsAssigning(target: string)
    ensures var t := target + ASSIGNS; |t| >= |ASSIGNS| && t[|t| - |ASSIGNS|..] == ASSIGNS
  {
  }

  lemma FieldRewritten(info: Info, members: seq<Member>, target: string, field: string)
    requires HasField(info, field)
    ensures RewriteProgram(info, {}, FieldLines(members, target, field))
            == [Simple(Plain([Text(target + ASSIGNS), Global(FieldOf(info.slots, field)), Text(";")]))]
  {
    hide FieldOf;
    var lines := FieldLines(members, target, field);
    RewriteOne(info, {}, lines[0].code);
    assert {} + BoundIn(ListingStmt(lines[0])) == {"x"};
    assert lines[1..] == [lines[1]] && [lines[1]][1..] == [];
    var parts := [Text(target + ASSIGNS), Field("x", field), Text(";")];
    assert RewriteParts(info, {"x"}, parts)
        == [Text(target + ASSIGNS), Global(FieldOf(info.slots, field)), Text(";")];
    assert RewriteProgram(info, {"x"} + BoundIn(ListingStmt(lines[1])), []) == [];
    assert RewriteStmt(info, {}, lines[0]) == [];
    assert RewriteProgram(info, {"x"}, [lines[1]]) == RewriteStmt(info, {"x"}, lines[1]);
    assert RewriteProgram(info, {}, lines) == RewriteProgram(info, {"x"}, [lines[1]]);
  }

  /**
   Reading a field as a whole right side survives the conversion, for all values the globals may hold,
   exactly when at the member's offset, at the member's type, stands the expression stored under its name.
   */
  lemma FieldExact<S>(m: Machine<S>, slots: seq<Slot>, other: Info, members: seq<Member>, target: string,
                      field: string, s: S)
    requires HasField(Struct(slots), field) && OneType(slots) && Shows(m, target, s) && ReadsTyped(m)
    ensures forall c | c in Listing(FieldLines(members, target, field)) :: Prepared(Struct(slots), c)
    ensures (forall g | Held(m.(globals := g), Struct(slots)) ::
              FieldSurvives(m, slots, other, members, target, field, g, s))
            <==> FieldKept(m.wide, slots, members, field)
  {
    hide FieldSurvives, FieldKept, FieldOf, FieldValue, Held, OneType;
    var lines := FieldLines(members, target, field);
    assert lines == [lines[0]] + [lines[1]];
    ListingConcat([lines[0]], [lines[1]]);
    ListingSingle(lines[0]);
    ListingSingle(lines[1]);
    if FieldKept(m.wide, slots, members, field) {
      forall g | Held(m.(globals := g), Struct(slots))
        ensures FieldSurvives(m, slots, other, members, target, field, g, s)
      {
        FieldMeaning(m, slots, other, members, target, field, g, s);
        FieldValueKept(m.(globals := g), Struct(slots), members, field);
      }
    } else {
      var g := FieldLost(m, slots, members, field);
      FieldMeaning(m, slots, other, members, target, field, g, s);
    }
  }

  function Sample(ty: Type, second: bool): (v: Value)
    ensures TypeOf(v) == ty
  {
    var n := if second then 1 else 0;
    match ty
    case IntType => Int(n)
    case RealType => Real(n as real)
    case PointerType => Other(n)
  }

  function ExprType(slots: seq<Slot>, expr: string): Type {
    if slots == [] then IntType
    else if slots[0].expr == expr then slots[0].ty
    else ExprType(slots[1..], expr)
  }

  lemma {:induction false} ExprTypeIs(slots: seq<Slot>, k: nat)
    requires OneType(slots) && k < |slots|
    ensures ExprType(slots, slots[k].expr) == slots[k].ty
  {
    if slots[0].expr == slots[k].expr {
    } else {
      ExprTypeIs(slots[1..], k - 1);
    }
  }

  /** Globals of the right types, the one expression at either of two values. */
  function Globals(slots: seq<Slot>, expr: string, second: bool): string -> Value {
    name => Sample(ExprType(slots, name), second && name == expr)
  }

  lemma GlobalsHeld<S>(m: Machine<S>, slots: seq<Slot>, expr: string, second: bool)
    requires OneType(slots)
    ensures Held(m.(globals := Globals(slots, expr, second)), Struct(slots))
  {
    hide OneType;
    forall k | 0 <= k < |slots| ensures TypeOf(Globals(slots, expr, second)(slots[k].expr)) == slots[k].ty {
      ExprTypeIs(slots, k);
    }
  }

  /** Globals for which a field that is not kept reads something else than the kernel's expression. */
  lemma FieldLost<S>(m: Machine<S>, slots: seq<Slot>, members: seq<Member>, field: string) returns (g: string -> Value)
    requires HasField(Struct(slots), field) && OneType(slots) && ReadsTyped(m)
             && !FieldKept(m.wide, slots, members, field)
    ensures Held(m.(globals := g), Struct(slots))
    ensures FieldValue(m.(globals := g), slots, members, field) != g(FieldOf(slots, field))
  {
    hide Offset, Held, OneType, Globals;
    var expr := FieldOf(slots, field);
    g := Globals(slots, expr, false);
    GlobalsHeld(m, slots, expr, false);
    if FieldValue(m.(globals := g), slots, members, field) == g(expr) {
      var h := Globals(slots, expr, true);
      GlobalsHeld(m, slots, expr, true);
      GlobalsDiffer(slots, expr);
      FieldValueElsewhere(m, slots, members, field, g, h);
      g := h;
    }
  }

  lemma GlobalsDiffer(slots: seq<Slot>, expr: string)
    ensures var g, h := Globals(slots, expr, false), Globals(slots, expr, true);
            g(expr) != h(expr) && forall name | name != expr :: g(name) == h(name)
  {
  }

  /** A field that is not kept, and yet once reads the expression's value, does not depend on it. */
  lemma FieldValueElsewhere<S>(m: Machine<S>, slots: seq<Slot>, members: seq<Member>, field: string, g: string -> Value,
                               h: string -> Value)
    requires HasField(Struct(slots), field) && ReadsTyped(m) && !FieldKept(m.wide, slots, members, field)
    requires Held(m.(globals := g), Struct(slots)) && forall name | name != FieldOf(slots, field) :: g(name) == h(name)
    requires FieldValue(m.(globals := g), slots, members, field) == g(FieldOf(slots, field))
    ensures FieldValue(m.(globals := h), slots, members, field) == FieldValue(m.(globals := g), slots, members, field)
  {
    hide Offset, FieldOf;
    var k := MemberIndex(members, field);
    if k.Some? {
      var j := SlotAt(m.wide, SlotTypes(slots), Offset(m.wide, MemberTypes(members), k.value), |slots|);
      if j.Some? {
        ConvertOwn(g(slots[j.value].expr));
      }
    }
  }

  /**
   A struct type that names the members in another order is accepted, and neither member survives: the
   real b stands where the int a is stored.
   */
  lemma SwappedMembers<S>(m: Machine<S>, other: Info, target: string, field: string, s: S)
    requires Shows(m, target, s) && ReadsTyped(m) && (field == "a" || field == "b")
    ensures var slots := [Slot(IntType, "a", "tsvc_n1"), Slot(IntType, "b", "LEN_2D/2")];
            var members := [Member(RealType, "b"), Member(IntType, "a")];
            (forall c | c in Listing(FieldLines(members, target, field)) :: Prepared(Struct(slots), c))
            && !forall g | Held(m.(globals := g), Struct(slots)) ::
                  FieldSurvives(m, slots, other, members, target, field, g, s)
  {
    var slots := [Slot(IntType, "a", "tsvc_n1"), Slot(IntType, "b", "LEN_2D/2")];
    var members := [Member(RealType, "b"), Member(IntType, "a")];
    hide Listing, FieldSurvives, FieldKept, HasField;
    SwappedLost(m.wide);
    FieldExact(m, slots, other, members, target, field, s);
  }

  lemma SwappedLost(wide: bool)
    ensures var slots := [Slot(IntType, "a", "tsvc_n1"), Slot(IntType, "b", "LEN_2D/2")];
            var members := [Member(RealType, "b"), Member(IntType, "a")];
            HasField(Struct(slots), "a") && HasField(Struct(slots), "b")
            && !FieldKept(wide, slots, members, "a") && !FieldKept(wide, slots, members, "b")
  {
    var slots := [Slot(IntType, "a", "tsvc_n1"), Slot(IntType, "b", "LEN_2D/2")];
    var members := [Member(RealType, "b"), Member(IntType, "a")];
    assert slots[0].name == "a" && slots[1].name == "b";
    assert members[..1][0].name == "b";
    var here, there := MemberTypes(members), SlotTypes(slots);
    assert here == [RealType, IntType] && there == [IntType, IntType];
    assert here[..0] == [] && there[..0] == [];
    assert Extent(wide, []) == 0 && Place(wide, [], RealType) == 0 == Place(wide, [], IntType);
    assert Offset(wide, here, 0) == 0 == Offset(wide, there, 0);
    SlotAtOffset(wide, there, 0);
    assert here[..1][..0] == [] && there[..1][..0] == [] && here[..1][0] == RealType && there[..1][0] == IntType;
    assert Extent(wide, here[..1]) == 4 == Extent(wide, there[..1]);
    assert Offset(wide, here, 1) == 4 == Offset(wide, there, 1);
    SlotAtOffset(wide, there, 1);
  }

  // ----- exactly which reads survive

  /** IEEE 754 single precision: 1.0 is the word 0x3F800000, and the word 1 is the least positive number. */
  ghost predicate SinglePrecision<S>(m: Machine<S>) {
    m.reinterpret(IntType, Real(1.0)) == Int(0x3F80_0000)
    && m.reinterpret(RealType, Int(1)).Real? && 0.0 < m.reinterpret(RealType, Int(1)).r < 1.0
  }

  /** Initialising `target` can be observed. */
  ghost predicate Observes<S>(m: Machine<S>, target: string, s: S) {
    forall v, w | m.assign(target, v, s) == m.assign(target, w, s) :: v == w
  }

  /** `declared target = *(read*)func_args->arg_info;` */
  function ReadLine(target: string, declared: Type, read: Type): Stmt {
    Simple(Assign(target, declared, Read(read)))
  }

  /** The read and what it is rewritten to leave the same state when the global holds `v`. */
  ghost predicate ReadKept<S>(m: Machine<S>, info: Info, other: Info, line: Stmt, v: Value, s: S) {
    var machine := m.(globals := (_: string) => v);
    Meaning(machine, other, map[], RewriteProgram(info, {}, [line]), s) == Meaning(machine, info, map[], [line], s)
  }

  lemma ReadMeaning<S>(m: Machine<S>, target: string, declared: Type, read: Type, global: string, other: Info,
                       v: Value, s: S)
    ensures var info, line := Direct(Address(global)), ReadLine(target, declared, read);
            Prepared(info, line.code)
            && (ReadKept(m, info, other, line, v, s)
                <==> m.assign(target, Convert(declared, v), s)
                     == m.assign(target, Convert(declared, if TypeOf(v) == read then v else m.reinterpret(read, v)), s))
  {
    var info, line := Direct(Address(global)), ReadLine(target, declared, read);
    var machine := m.(globals := (_: string) => v);
    var rewritten := Simple(Assign(target, declared, Expression(Named(global))));
    hide Convert, Meaning;
    assert [line][1..] == [] && RewriteProgram(info, {} + BoundIn(ListingStmt(line)), []) == [];
    assert RewriteProgram(info, {}, [line]) == [rewritten];
    OneMeaning(machine, other, map[], rewritten, s);
    OneMeaning(machine, info, map[], line, s);
  }

  /**
   A read `*(read*)` of a global of type `held` is accepted, and the rewritten line does what the
   line did, for every value of the global, exactly when the two types agree.
   */
  lemma ReadExact<S>(m: Machine<S>, target: string, declared: Type, read: Type, held: Type, global: string,
                     other: Info, s: S)
    requires SinglePrecision(m) && Observes(m, target, s)
    requires !declared.PointerType? && !read.PointerType? && !held.PointerType?
    ensures var info, line := Direct(Address(global)), ReadLine(target, declared, read);
            Prepared(info, line.code)
            && ((forall v | TypeOf(v) == held :: ReadKept(m, info, other, line, v, s)) <==> read == held)
  {
    hide ReadKept;
    var info, line := Direct(Address(global)), ReadLine(target, declared, read);
    forall v | TypeOf(v) == held && read == held ensures ReadKept(m, info, other, line, v, s) {
      ReadMeaning(m, target, declared, read, global, other, v, s);
    }
    var v := if held == RealType then Real(1.0) else Int(1);
    ReadMeaning(m, target, declared, read, global, other, v, s);
    if read != held {
      assert TypeOf(v) == held && Convert(declared, m.reinterpret(read, v)) != Convert(declared, v);
      assert !ReadKept(m, info, other, line, v, s);
    }
  }

  /** s272 reads the real tsvc_s1 as `*(int*)` into t: when tsvc_s1 is 1.0, its kernel compares with another t. */
  lemma S272Changes<S>(m: Machine<S>, other: Info, s: S)
    requires SinglePrecision(m) && Observes(m, "t", s) && m.globals("tsvc_s1") == Real(1.0)
    ensures var info, line := Direct(Address("tsvc_s1")), ReadLine("t", IntType, IntType);
            Prepared(info, line.code)
            && Meaning(m, info, map[], [line], s) == m.assign("t", Int(0x3F80_0000), s)
            && Meaning(m, other, map[], RewriteProgram(info, {}, [line]), s) == m.assign("t", Int(1), s)
            && Meaning(m, other, map[], RewriteProgram(info, {}, [line]), s) != Meaning(m, info, map[], [line], s)
  {
    var info, line := Direct(Address("tsvc_s1")), ReadLine("t", IntType, IntType);
    var rewritten := Simple(Assign("t", IntType, Expression(Named("tsvc_s1"))));
    hide Meaning;
    assert [line][1..] == [] && RewriteProgram(info, {} + BoundIn(ListingStmt(line)), []) == [];
    assert RewriteProgram(info, {}, [line]) == [rewritten];
    OneMeaning(m, other, map[], rewritten, s);
    OneMeaning(m, info, map[], line, s);
  }

  /**
   A loop that takes a pointer from an argument that is one expression: the line is accepted, names the
   expression afterwards, and means the same.
   */
  lemma PointerKept<S>(m: Machine<S>, e: Expr, other: Info, line: Line, s: S)
    requires line.code.Assign? && line.code.operand.Argument?
    ensures var kernel := Assign(line.code.target, line.code.ty, Expression(e));
            RewriteLines(Direct(e), {}, [line]) == Ok([Line(line.indent, kernel)])
            && Meaning(m, Direct(e), map[], [Simple(line.code)], s)
               == Meaning(m, other, map[], [Simple(kernel)], s)
               == m.assign(line.code.target, Convert(line.code.ty, ExprValue(m, e)), s)
  {
    var kernel := Assign(line.code.target, line.code.ty, Expression(e));
    hide Meaning, Convert;
    OneMeaning(m, Direct(e), map[], Simple(line.code), s);
    OneMeaning(m, other, map[], Simple(kernel), s);
    hide ExprValue;
    RewriteNext(Direct(e), {}, [line], 0, []);
    assert Rewritten(Direct(e), {}, line.code) == [kernel];
    IndentedOne(line.indent, kernel);
    NothingLeft(Direct(e), {} + BoundBy(line.code));
    assert [line][0..] == [line] && [line][1..] == [];
    hide Rewritten, RewriteLines;
    BehindEnds(RewriteLines(Direct(e), {}, [line]), []);
    BehindEnds(Ok([]), [] + Indented(line.indent, [kernel]));
    assert [] + [Line(line.indent, kernel)] == [Line(line.indent, kernel)];
  }

  /** `int * ip = func_args->arg_info;` as s491 has it: its kernel reads `int * ip = tsvc_ip;`. */
  lemma S491Kept<S>(m: Machine<S>, other: Info, indent: nat, s: S)
    ensures var line := Assign("ip", PointerType, Argument);
            var kernel := Assign("ip", PointerType, Expression(Named("tsvc_ip")));
            RewriteLines(Direct(Named("tsvc_ip")), {}, [Line(indent, line)]) == Ok([Line(indent, kernel)])
            && Meaning(m, Direct(Named("tsvc_ip")), map[], [Simple(line)], s)
               == Meaning(m, other, map[], [Simple(kernel)], s)
               == m.assign("ip", m.globals("tsvc_ip"), s)
  {
    hide RewriteLines, Meaning;
    PointerKept(m, Named("tsvc_ip"), other, Line(indent, Assign("ip", PointerType, Argument)), s);
  }
}

/**
 Function bodies as statement trees: the lines they stand for, what the three passes of the converter
 do to those lines, and the tree of the kernel that comes out.
 */
module Programs {
  import opened Common
  import opened Arguments
  import opened Converter

  /** A statement: one line, a block under its head, or two branches with a line between them. */
  datatype Stmt =
    | Simple(code: Code)
    | Block(head: seq<Part>, body: seq<Stmt>)
    | Branch(head: seq<Part>, yes: seq<Stmt>, middle: string, no: seq<Stmt>)

  const CLOSE: Code := Plain([Text("}")])

  function Middle(text: string): Code {
    Plain([Text(text)])
  }

  /** The code of the lines, whatever their indentation. */
  function Listing(program: seq<Stmt>): seq<Code> {
    if program == [] then [] else ListingStmt(program[0]) + Listing(program[1..])
  }

  function ListingStmt(s: Stmt): seq<Code> {
    match s
    case Simple(code) => [code]
    case Block(head, body) => [Plain(head)] + Listing(body) + [CLOSE]
    case Branch(head, yes, middle, no) => [Plain(head)] + (Listing(yes) + [Middle(middle)] + Listing(no)) + [CLOSE]
  }

  lemma {:induction false} ListingConcat(p: seq<Stmt>, q: seq<Stmt>)
    ensures Listing(p + q) == Listing(p) + Listing(q)
  {
    if p == [] {
      assert p + q == q;
    } else {
      assert (p + q)[1..] == p[1..] + q;
      ListingConcat(p[1..], q);
    }
  }

  lemma ListingSingle(s: Stmt)
    ensures Listing([s]) == ListingStmt(s)
  {
    assert Listing([s][1..]) == [];
  }

  /** Every plain line closes as many braces as it opens, every head opens one more, the line between branches none. */
  ghost predicate Braced(program: seq<Stmt>) {
    program == [] || (BracedStmt(program[0]) && Braced(program[1..]))
  }

  ghost predicate BracedStmt(s: Stmt) {
    match s
    case Simple(code) => Net(code) == 0
    case Block(head, body) => Net(Plain(head)) == 1 && Braced(body)
    case Branch(head, yes, middle, no) => Net(Plain(head)) == 1 && Net(Middle(middle)) == 0 && Braced(yes) && Braced(no)
  }

  ghost predicate Balanced(codes: seq<Code>) {
    Balance(codes) == 0 && forall k | 0 <= k <= |codes| :: Balance(codes[..k]) >= 0
  }

  lemma {:induction false} BalanceConcat(s: seq<Code>, t: seq<Code>)
    ensures Balance(s + t) == Balance(s) + Balance(t)
  {
    hide Net;
    if t == [] {
      assert s + t == s;
    } else {
      BalanceConcat(s, t[..|t| - 1]);
      assert (s + t)[..|s + t| - 1] == s + t[..|t| - 1];
    }
  }

  lemma BalancedConcat(s: seq<Code>, t: seq<Code>)
    requires Balanced(s) && Balanced(t)
    ensures Balanced(s + t)
  {
    hide Balance;
    BalanceConcat(s, t);
    forall k | 0 <= k <= |s + t| ensures Balance((s + t)[..k]) >= 0 {
      if k <= |s| {
        assert (s + t)[..k] == s[..k];
      } else {
        assert (s + t)[..k] == s + t[..k - |s|];
        BalanceConcat(s, t[..k - |s|]);
      }
    }
  }

  lemma BalanceOne(c: Code)
    ensures Balance([c]) == Net(c)
  {
    hide Net;
    assert [c][..0] == [];
  }

  lemma BalanceEmpty()
    ensures Balance([]) == 0
  {
  }

  lemma BalancedOne(c: Code)
    requires Net(c) == 0
    ensures Balanced([c])
  {
    hide Net;
    BalanceOne(c);
    assert [c][..0] == [] && [c][..1] == [c];
  }

  /** A block is closed by its own closing line and by none before it. */
  lemma BlockBalance(head: Code, inner: seq<Code>)
    requires Net(head) == 1 && Balanced(inner)
    ensures var s := [head] + inner + [CLOSE];
            Balance(s) == 0 && forall k | 0 < k < |s| :: Balance(s[..k]) > 0
  {
    CloseNet();
    hide Net, Balance;
    var s := [head] + inner + [CLOSE];
    BalanceOne(head);
    BalanceOne(CLOSE);
    BalanceConcat([head], inner);
    BalanceConcat([head] + inner, [CLOSE]);
    forall k | 0 < k < |s| ensures Balance(s[..k]) > 0 {
      assert s[..k] == [head] + inner[..k - 1];
      BalanceConcat([head], inner[..k - 1]);
    }
  }

  lemma CloseNet()
    ensures Net(CLOSE) == -1
  {
    assert [Text("}")][1..] == [] && "}" + "" == "}" && "}"[..0] == "";
  }

  lemma EnclosedBalanced(head: Code, inner: seq<Code>)
    requires Net(head) == 1 && Balanced(inner)
    ensures Balanced([head] + inner + [CLOSE])
  {
    hide Net, Balance;
    BlockBalance(head, inner);
    var b := [head] + inner + [CLOSE];
    assert b[..|b|] == b && b[..0] == [];
    BalanceEmpty();
  }

  lemma {:induction false} ListingBalanced(program: seq<Stmt>)
    requires Braced(program)
    ensures Balanced(Listing(program))
    decreases program
  {
    if program == [] {
    } else {
      hide Balanced;
      ListingStmtBalanced(program[0]);
      ListingBalanced(program[1..]);
      BalancedConcat(ListingStmt(program[0]), Listing(program[1..]));
    }
  }

  lemma {:induction false} ListingStmtBalanced(s: Stmt)
    requires BracedStmt(s)
    ensures Balanced(ListingStmt(s))
    decreases s
  {
    hide Balanced, Net, Listing;
    match s
    case Simple(code) =>
      BalancedOne(code);
    case Block(head, body) =>
      ListingBalanced(body);
      EnclosedBalanced(Plain(head), Listing(body));
    case Branch(head, yes, middle, no) =>
      ListingBalanced(yes);
      ListingBalanced(no);
      BalancedOne(Middle(middle));
      BalancedConcat(Listing(yes), [Middle(middle)]);
      BalancedConcat(Listing(yes) + [Middle(middle)], Listing(no));
      EnclosedBalanced(Plain(head), Listing(yes) + [Middle(middle)] + Listing(no));
  }

  // ----- what the unwrapping finds

  /** A function body: statements, among them no repeat loop, then the repeat loop, then statements. */
  ghost predicate Wrapped(p: Patterns, pre: seq<Stmt>, head: seq<Part>, body: seq<Stmt>) {
    BracedStmt(Block(head, body)) && p.isOuterLoop(Plain(head)) && forall c | c in Listing(pre) :: !p.isOuterLoop(c)
  }

  lemma FunctionListing(pre: seq<Stmt>, head: seq<Part>, body: seq<Stmt>, post: seq<Stmt>)
    ensures Listing(pre + [Block(head, body)] + post)
            == Listing(pre) + ([Plain(head)] + Listing(body) + [CLOSE]) + Listing(post)
    ensures Listing(pre + body + post) == Listing(pre) + Listing(body) + Listing(post)
  {
    ListingConcat(pre + [Block(head, body)], post);
    ListingConcat(pre, [Block(head, body)]);
    ListingSingle(Block(head, body));
    ListingConcat(pre + body, post);
    ListingConcat(pre, body);
  }

  /**
   The lines of a function may be indented in any way: unwrapping finds the repeat loop and its own
   closing brace, and leaves the lines of the function with the loop replaced by its body.
   */
  lemma UnwrapFindsLoop(p: Patterns, pre: seq<Stmt>, head: seq<Part>, body: seq<Stmt>, post: seq<Stmt>,
                        lines: seq<Line>)
    requires Wrapped(p, pre, head, body) && Codes(lines) == Listing(pre + [Block(head, body)] + post)
    ensures var start, end := |Listing(pre)|, |Listing(pre)| + |Listing(body)| + 1;
            end < |lines| && Codes(Spliced(lines, start, end)) == Listing(pre + body + post)
            && forall result :: Strips(p, lines, result) <==> result == Spliced(lines, start, end)
  {
    hide *;
    FunctionListing(pre, head, body, post);
    LoopBalance(p, pre, head, body);
    LoopFound(p, Listing(pre), Plain(head), Listing(body), CLOSE, Listing(post), lines);
  }

  lemma LoopBalance(p: Patterns, pre: seq<Stmt>, head: seq<Part>, body: seq<Stmt>)
    requires Wrapped(p, pre, head, body)
    ensures p.isOuterLoop(Plain(head)) && forall c | c in Listing(pre) :: !p.isOuterLoop(c)
    ensures var b := [Plain(head)] + Listing(body) + [CLOSE];
            Balance(b) == 0 && forall k | 0 < k < |b| :: Balance(b[..k]) > 0
  {
    hide Net, Balanced, Balance, CLOSE, Listing, Braced;
    ListingBalanced(body);
    BlockBalance(Plain(head), Listing(body));
  }

  lemma LoopFound(p: Patterns, before: seq<Code>, top: Code, inner: seq<Code>, close: Code, rest: seq<Code>,
                  lines: seq<Line>)
    requires p.isOuterLoop(top) && forall c | c in before :: !p.isOuterLoop(c)
    requires var b := [top] + inner + [close]; Balance(b) == 0 && forall k | 0 < k < |b| :: Balance(b[..k]) > 0
    requires Codes(lines) == before + ([top] + inner + [close]) + rest
    ensures var start, end := |before|, |before| + |inner| + 1;
            end < |lines| && Codes(Spliced(lines, start, end)) == before + inner + rest
            && forall result :: Strips(p, lines, result) <==> result == Spliced(lines, start, end)
  {
    hide Encloses, Balance, Unwraps, Spliced;
    var block, codes := [top] + inner + [close], Codes(lines);
    var start, end := |before|, |before| + |inner| + 1;
    BlockEncloses(before, block, rest);
    assert codes[start] == top && codes[..start] == before;
    assert FirstOuter(p, codes, start) && !NoOuter(p, codes);
    forall result ensures Unwraps(p, lines, result) <==> result == Spliced(lines, start, end) {
      UnwrapsOnce(p, lines, start, end, result);
    }
    SplicedCodes(lines, start, end);
    assert codes[start + 1..end] == inner && codes[end + 1..] == rest;
  }

  lemma SplicedCodes(lines: seq<Line>, start: nat, end: nat)
    requires start < end < |lines|
    ensures Codes(Spliced(lines, start, end))
            == Codes(lines)[..start] + Codes(lines)[start + 1..end] + Codes(lines)[end + 1..]
  {
    var front, inner, back := lines[..start], lines[start + 1..end], lines[end + 1..];
    DedentCodes(inner);
    hide Dedent;
    assert Codes(front) == Codes(lines)[..start] && Codes(inner) == Codes(lines)[start + 1..end];
    assert Codes(back) == Codes(lines)[end + 1..];
    CodesConcat(front + Dedent(inner), back);
    CodesConcat(front, Dedent(inner));
  }

  lemma BlockEncloses(before: seq<Code>, block: seq<Code>, rest: seq<Code>)
    requires block != [] && Balance(block) == 0 && forall k | 0 < k < |block| :: Balance(block[..k]) > 0
    ensures Encloses(before + block + rest, |before|, |before| + |block| - 1)
  {
    hide Balance;
    var codes, start := before + block + rest, |before|;
    SliceOfMiddle(before, block, rest, |block|);
    assert block[..|block|] == block;
    forall k | start < k < start + |block| ensures Balance(codes[start..k]) != 0 {
      SliceOfMiddle(before, block, rest, k - start);
    }
  }

  lemma SliceOfMiddle(before: seq<Code>, block: seq<Code>, rest: seq<Code>, k: nat)
    requires k <= |block|
    ensures (before + block + rest)[|before|..|before| + k] == block[..k]
  {
  }

  // ----- the program the passes leave

  function RewriteProgram(info: Info, bound: set<string>, program: seq<Stmt>): seq<Stmt>
    decreases program
  {
    if program == [] then [] else
    RewriteStmt(info, bound, program[0]) + RewriteProgram(info, bound + BoundIn(ListingStmt(program[0])), program[1..])
  }

  function RewriteStmt(info: Info, bound: set<string>, s: Stmt): (r: seq<Stmt>)
    ensures |r| <= 1
    decreases s
  {
    match s
    case Simple(code) =>
      var r := Rewritten(info, bound, code);
      if r == [] then [] else [Simple(r[0])]
    case Block(head, body) => [Block(RewriteParts(info, bound, head), RewriteProgram(info, bound, body))]
    case Branch(head, yes, middle, no) =>
      [Branch(RewriteParts(info, bound, head), RewriteProgram(info, bound, yes), middle,
              RewriteProgram(info, bound + BoundIn(Listing(yes)), no))]
  }

  /** Rewriting the listing lists the rewritten program. */
  lemma {:induction false} ListingRewritten(info: Info, bound: set<string>, program: seq<Stmt>)
    ensures Listing(RewriteProgram(info, bound, program)) == RewriteCodes(info, bound, Listing(program))
    decreases program
  {
    if program == [] {
    } else {
      hide RewriteStmt, ListingStmt, RewriteCodes, BoundIn;
      var after := bound + BoundIn(ListingStmt(program[0]));
      ListingStmtRewritten(info, bound, program[0]);
      ListingRewritten(info, after, program[1..]);
      ListingConcat(RewriteStmt(info, bound, program[0]), RewriteProgram(info, after, program[1..]));
      RewriteConcat(info, bound, ListingStmt(program[0]), Listing(program[1..]));
    }
  }

  lemma {:induction false} ListingStmtRewritten(info: Info, bound: set<string>, s: Stmt)
    ensures Listing(RewriteStmt(info, bound, s)) == RewriteCodes(info, bound, ListingStmt(s))
    decreases s
  {
    hide Listing, RewriteCodes, BoundIn, RewriteParts;
    match s
    case Simple(code) =>
      RewriteOne(info, bound, code);
      ListingNone();
      if Rewritten(info, bound, code) != [] {
        ListingSingle(Simple(Rewritten(info, bound, code)[0]));
      }
    case Block(head, body) =>
      ListingRewritten(info, bound, body);
      RewriteEnclosed(info, bound, head, Listing(body));
      ListingSingle(RewriteStmt(info, bound, s)[0]);
    case Branch(head, yes, middle, no) =>
      ListingRewritten(info, bound, yes);
      ListingRewritten(info, bound + BoundIn(Listing(yes)), no);
      RewriteBranches(info, bound, Listing(yes), middle, Listing(no));
      RewriteEnclosed(info, bound, head, Listing(yes) + [Middle(middle)] + Listing(no));
      ListingSingle(RewriteStmt(info, bound, s)[0]);
  }

  lemma ListingNone()
    ensures Listing([]) == []
  {
  }

  lemma RewriteOne(info: Info, bound: set<string>, c: Code)
    ensures RewriteCodes(info, bound, [c]) == Rewritten(info, bound, c) && BoundIn([c]) == BoundBy(c)
  {
    assert [c][1..] == [];
    assert RewriteCodes(info, bound + BoundBy(c), []) == [];
  }

  lemma TextUnchanged(info: Info, bound: set<string>, text: string)
    ensures Rewritten(info, bound, Middle(text)) == [Middle(text)] && BoundBy(Middle(text)) == {}
  {
    assert RewriteParts(info, bound, [Text(text)]) == [Text(text)];
  }

  lemma RewriteEnclosed(info: Info, bound: set<string>, head: seq<Part>, inner: seq<Code>)
    ensures RewriteCodes(info, bound, [Plain(head)] + inner + [CLOSE])
            == [Plain(RewriteParts(info, bound, head))] + RewriteCodes(info, bound, inner) + [CLOSE]
  {
    hide RewriteCodes, BoundIn, RewriteParts;
    RewriteConcat(info, bound, [Plain(head)] + inner, [CLOSE]);
    RewriteConcat(info, bound, [Plain(head)], inner);
    RewriteOne(info, bound, Plain(head));
    RewriteOne(info, bound + BoundIn([Plain(head)] + inner), CLOSE);
    TextUnchanged(info, bound + BoundIn([Plain(head)] + inner), "}");
    assert bound + BoundIn([Plain(head)]) == bound;
  }

  lemma RewriteBranches(info: Info, bound: set<string>, yes: seq<Code>, middle: string, no: seq<Code>)
    ensures RewriteCodes(info, bound, yes + [Middle(middle)] + no)
            == RewriteCodes(info, bound, yes) + [Middle(middle)] + RewriteCodes(info, bound + BoundIn(yes), no)
  {
    hide RewriteCodes, BoundIn, Rewritten;
    RewriteConcat(info, bound, yes + [Middle(middle)], no);
    RewriteConcat(info, bound, yes, [Middle(middle)]);
    RewriteOne(info, bound + BoundIn(yes), Middle(middle));
    TextUnchanged(info, bound + BoundIn(yes), middle);
    assert bound + BoundIn(yes + [Middle(middle)]) == bound + BoundIn(yes);
  }

  /** The program without the harness calls. */
  function Dropped(p: Patterns, program: seq<Stmt>): seq<Stmt> {
    if program == [] then [] else DroppedStmt(p, program[0]) + Dropped(p, program[1..])
  }

  function DroppedStmt(p: Patterns, s: Stmt): (r: seq<Stmt>)
    ensures |r| <= 1
  {
    match s
    case Simple(code) => if p.isRuntime(code) then [] else [s]
    case Block(head, body) => [Block(head, Dropped(p, body))]
    case Branch(head, yes, middle, no) => [Branch(head, Dropped(p, yes), middle, Dropped(p, no))]
  }

  /** Only plain lines are harness calls. */
  ghost predicate HeadsKept(p: Patterns, program: seq<Stmt>) {
    program == [] || (HeadsKeptStmt(p, program[0]) && HeadsKept(p, program[1..]))
  }

  ghost predicate HeadsKeptStmt(p: Patterns, s: Stmt) {
    match s
    case Simple(_) => true
    case Block(head, body) => !p.isRuntime(Plain(head)) && !p.isRuntime(CLOSE) && HeadsKept(p, body)
    case Branch(head, yes, middle, no) =>
      !p.isRuntime(Plain(head)) && !p.isRuntime(Middle(middle)) && !p.isRuntime(CLOSE) && HeadsKept(p, yes)
        && HeadsKept(p, no)
  }

  /** Filtering the listing lists the program without the harness calls. */
  lemma {:induction false} ListingDropped(p: Patterns, program: seq<Stmt>)
    requires HeadsKept(p, program)
    ensures Kept(p, Listing(program)) == Listing(Dropped(p, program))
    decreases program
  {
    if program == [] {
    } else {
      hide ListingStmt, DroppedStmt, Kept;
      ListingStmtDropped(p, program[0]);
      ListingDropped(p, program[1..]);
      KeptConcat(p, ListingStmt(program[0]), Listing(program[1..]));
      ListingConcat(DroppedStmt(p, program[0]), Dropped(p, program[1..]));
    }
  }

  lemma {:induction false} ListingStmtDropped(p: Patterns, s: Stmt)
    requires HeadsKeptStmt(p, s)
    ensures Kept(p, ListingStmt(s)) == Listing(DroppedStmt(p, s))
    decreases s
  {
    hide Listing, Kept;
    match s
    case Simple(code) =>
      KeptOne(p, code);
      ListingNone();
      ListingSingle(s);
    case Block(head, body) =>
      ListingDropped(p, body);
      EnclosedKept(p, Plain(head), Listing(body));
      ListingSingle(Block(head, Dropped(p, body)));
    case Branch(head, yes, middle, no) =>
      ListingDropped(p, yes);
      ListingDropped(p, no);
      MiddleKept(p, Listing(yes), Middle(middle), Listing(no));
      EnclosedKept(p, Plain(head), Listing(yes) + [Middle(middle)] + Listing(no));
      ListingSingle(Branch(head, Dropped(p, yes), middle, Dropped(p, no)));
  }

  lemma EnclosedKept(p: Patterns, head: Code, inner: seq<Code>)
    requires !p.isRuntime(head) && !p.isRuntime(CLOSE)
    ensures Kept(p, [head] + inner + [CLOSE]) == [head] + Kept(p, inner) + [CLOSE]
  {
    hide Kept;
    KeptConcat(p, [head] + inner, [CLOSE]);
    KeptConcat(p, [head], inner);
    KeptOne(p, head);
    KeptOne(p, CLOSE);
  }

  lemma MiddleKept(p: Patterns, yes: seq<Code>, middle: Code, no: seq<Code>)
    requires !p.isRuntime(middle)
    ensures Kept(p, yes + [middle] + no) == Kept(p, yes) + [middle] + Kept(p, no)
  {
    hide Kept;
    KeptConcat(p, yes + [middle], no);
    KeptConcat(p, yes, [middle]);
    KeptOne(p, middle);
  }

  /** The kernel: the repeat loop replaced by its body, the argument's uses rewritten, the harness calls dropped. */
  function Kernel(p: Patterns, info: Info, pre: seq<Stmt>, body: seq<Stmt>, post: seq<Stmt>): seq<Stmt> {
    Dropped(p, RewriteProgram(info, {}, pre + body + post))
  }

  /**
   The three passes succeed on the lines of a function, however they are indented, exactly when no line is
   refused, and then leave the lines of the kernel.
   */
  lemma KernelText(p: Patterns, info: Info, pre: seq<Stmt>, head: seq<Part>, body: seq<Stmt>, post: seq<Stmt>,
                   lines: seq<Line>)
    requires Wrapped(p, pre, head, body) && HeadsKept(p, RewriteProgram(info, {}, pre + body + post))
    requires Codes(lines) == Listing(pre + [Block(head, body)] + post)
    ensures (exists kernel :: Converts(p, info, lines, kernel))
            <==> forall c | c in Listing(pre + body + post) :: Prepared(info, c)
    ensures forall kernel | Converts(p, info, lines, kernel) ::
              Codes(kernel) == Listing(Kernel(p, info, pre, body, post))
  {
    hide Strips, Filtered, RewriteLines, HeadsKept, Wrapped, Spliced, Prepared, Listing, RewriteProgram;
    var program, start, end := pre + body + post, |Listing(pre)|, |Listing(pre)| + |Listing(body)| + 1;
    UnwrapFindsLoop(p, pre, head, body, post, lines);
    var stripped := Spliced(lines, start, end);
    RewriteExactly(info, {}, stripped);
    NoneRefused(info, stripped, Listing(program));
    var rewritten := RewriteLines(info, {}, stripped);
    if rewritten.Ok? {
      assert Converts(p, info, lines, Filtered(p, rewritten.value));
      FilteredCodes(p, rewritten.value);
      ListingRewritten(info, {}, program);
      ListingDropped(p, RewriteProgram(info, {}, program));
    }
  }

  lemma NoneRefused(info: Info, lines: seq<Line>, codes: seq<Code>)
    requires Codes(lines) == codes
    ensures (exists k | 0 <= k < |lines| :: !Prepared(info, lines[k].code))
            <==> !forall c | c in codes :: Prepared(info, c)
  {
    forall k | 0 <= k < |lines| ensures lines[k].code in codes {
      assert codes[k] == lines[k].code;
    }
  }
}

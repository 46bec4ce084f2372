/**
 Pasting an expression into a line: the text of an argument's expression replaces an operand, and
 its operators may bind to those that stand around it.
 */
module Pasting {
  import opened Common
  import opened Dependence

  datatype Tree = Leaf(name: string) | Node(op: Op, left: Tree, right: Tree)

  /** An operator with its right operand, which is one token or stands in parentheses. */
  datatype Link = Link(op: Op, operand: Tree)

  /** An expression as it is written: operands with operators between them. */
  datatype Chain = Chain(first: Tree, rest: seq<Link>)

  predicate Multiplies(op: Op) {
    op.Mul? || op.Div?
  }

  /** What has been read: the sum so far with the operator behind it, and the term being read. */
  datatype Reading = Reading(sum: Option<(Tree, Op)>, term: Tree)

  function Value(r: Reading): Tree {
    match r.sum
    case None => r.term
    case Some((sum, op)) => Node(op, sum, r.term)
  }

  /** Multiplication and division bind more strongly, and equal operators bind to the left. */
  function Next(r: Reading, link: Link): Reading {
    if Multiplies(link.op) then r.(term := Node(link.op, r.term, link.operand))
    else Reading(Some((Value(r), link.op)), link.operand)
  }

  function Read(r: Reading, links: seq<Link>): Reading {
    if links == [] then r else Next(Read(r, links[..|links| - 1]), links[|links| - 1])
  }

  function Parse(c: Chain): Tree {
    Value(Read(Reading(None, c.first), c.rest))
  }

  /** A line with one operand open: the first one, or one behind an operator. */
  datatype Context = Leading(after: seq<Link>) | Behind(front: Chain, op: Op, after: seq<Link>)

  /** The expression's value stands in the open place. */
  function Meant(c: Context, e: Chain): Tree {
    match c
    case Leading(after) => Parse(Chain(Parse(e), after))
    case Behind(front, op, after) => Parse(Chain(front.first, front.rest + [Link(op, Parse(e))] + after))
  }

  /** The expression's text stands in the open place. */
  function Written(c: Context, e: Chain): Tree {
    match c
    case Leading(after) => Parse(Chain(e.first, e.rest + after))
    case Behind(front, op, after) => Parse(Chain(front.first, front.rest + [Link(op, e.first)] + e.rest + after))
  }

  predicate IsProduct(links: seq<Link>) {
    forall k | 0 <= k < |links| :: Multiplies(links[k].op)
  }

  /**
   A single operand goes anywhere, a product not behind another multiplication or division, and a
   sum only in front, and not ahead of one.
   */
  predicate Safe(c: Context, e: Chain) {
    if e.rest == [] then true
    else if IsProduct(e.rest) then c.Leading? || !Multiplies(c.op)
    else c.Leading? && (c.after == [] || !Multiplies(c.after[0].op))
  }

  lemma {:induction false} ReadConcat(r: Reading, s: seq<Link>, t: seq<Link>)
    ensures Read(r, s + t) == Read(Read(r, s), t)
  {
    if t == [] {
      assert s + t == s;
    } else {
      assert (s + t)[..|s + t| - 1] == s + t[..|t| - 1];
      ReadConcat(r, s, t[..|t| - 1]);
    }
  }

  lemma ReadOne(r: Reading, link: Link)
    ensures Read(r, [link]) == Next(r, link)
  {
    assert [link][..0] == [] && Read(r, []) == r;
  }

  ghost predicate Proper(r: Reading) {
    r.sum.Some? ==> !Multiplies(r.sum.value.1)
  }

  lemma {:induction false} ReadProper(r: Reading, links: seq<Link>)
    requires Proper(r)
    ensures Proper(Read(r, links))
  {
    if links == [] {
    } else {
      ReadProper(r, links[..|links| - 1]);
    }
  }

  /** What differs stays different, whatever follows. */
  lemma {:induction false} StaysDifferent(r: Reading, q: Reading, links: seq<Link>)
    requires Proper(r) && Proper(q) && Value(r) != Value(q)
    ensures Value(Read(r, links)) != Value(Read(q, links))
  {
    if links == [] {
    } else {
      var front := links[..|links| - 1];
      StaysDifferent(r, q, front);
      ReadProper(r, front);
      ReadProper(q, front);
    }
  }

  function Size(t: Tree): nat {
    match t
    case Leaf(_) => 1
    case Node(_, left, right) => Size(left) + Size(right) + 1
  }

  /** Reading a product only makes the term longer. */
  lemma {:induction false} ProductTerm(r: Reading, links: seq<Link>)
    requires IsProduct(links)
    ensures Read(r, links) == Reading(r.sum, Read(Reading(None, r.term), links).term)
    ensures Read(Reading(None, r.term), links).sum == None
  {
    if links == [] {
    } else {
      ProductTerm(r, links[..|links| - 1]);
    }
  }

  /** Behind a sum, the last term and the operator in front of it do not depend on what stood ahead. */
  lemma {:induction false} LastTerm(r: Reading, q: Reading, links: seq<Link>)
    requires !IsProduct(links)
    ensures var x, y := Read(r, links), Read(q, links);
            x.sum.Some? && y.sum.Some? && x.sum.value.1 == y.sum.value.1 && x.term == y.term
  {
    var n := |links| - 1;
    if Multiplies(links[n].op) {
      assert !IsProduct(links[..n]) by {
        var k :| 0 <= k < |links| && !Multiplies(links[k].op);
        assert links[..n][k] == links[k];
      }
      LastTerm(r, q, links[..n]);
    }
  }

  /** Behind a multiplication, a product or a sum is torn apart; behind an addition, a sum is. */
  lemma TornBehind(r: Reading, op: Op, e: Chain)
    requires Proper(r) && e.rest != [] && (Multiplies(op) || !IsProduct(e.rest))
    ensures Value(Read(Next(r, Link(op, e.first)), e.rest)) != Value(Next(r, Link(op, Parse(e))))
  {
    var n, start, alone := |e.rest| - 1, Next(r, Link(op, e.first)), Reading(None, e.first);
    var written, whole := Read(start, e.rest), Read(alone, e.rest);
    if IsProduct(e.rest) {
      ProductTerm(start, e.rest);
      ProductTerm(alone, e.rest);
      assert written.term.right == e.rest[n].operand && whole.term.right == e.rest[n].operand;
      assert Size(whole.term) > Size(e.rest[n].operand);
    } else {
      LastTerm(start, alone, e.rest);
      ReadProper(alone, e.rest);
      assert Size(Parse(e)) > Size(whole.term);
    }
  }

  /** What stands in front of the open place. */
  function FrontOf(c: Context): Reading
    requires c.Behind?
  {
    Read(Reading(None, c.front.first), c.front.rest)
  }

  lemma BehindReadings(c: Context, e: Chain)
    requires c.Behind?
    ensures Meant(c, e) == Value(Read(Next(FrontOf(c), Link(c.op, Parse(e))), c.after))
    ensures Written(c, e) == Value(Read(Read(Next(FrontOf(c), Link(c.op, e.first)), e.rest), c.after))
  {
    var start := Reading(None, c.front.first);
    hide Next, Value;
    ReadConcat(start, c.front.rest + [Link(c.op, Parse(e))], c.after);
    ReadConcat(start, c.front.rest, [Link(c.op, Parse(e))]);
    ReadOne(FrontOf(c), Link(c.op, Parse(e)));
    ReadConcat(start, c.front.rest + [Link(c.op, e.first)] + e.rest, c.after);
    ReadConcat(start, c.front.rest + [Link(c.op, e.first)], e.rest);
    ReadConcat(start, c.front.rest, [Link(c.op, e.first)]);
    ReadOne(FrontOf(c), Link(c.op, e.first));
  }

  lemma BehindExact(c: Context, e: Chain)
    requires c.Behind?
    ensures Written(c, e) == Meant(c, e) <==> Safe(c, e)
  {
    var r := FrontOf(c);
    var written, meant := Read(Next(r, Link(c.op, e.first)), e.rest), Next(r, Link(c.op, Parse(e)));
    BehindReadings(c, e);
    ReadProper(Reading(None, c.front.first), c.front.rest);
    if Safe(c, e) {
      ProductTerm(Next(r, Link(c.op, e.first)), e.rest);
      ProductTerm(Reading(None, e.first), e.rest);
      assert written == meant;
    } else {
      TornBehind(r, c.op, e);
      ReadProper(Next(r, Link(c.op, e.first)), e.rest);
      StaysDifferent(written, meant, c.after);
    }
  }

  lemma LeadingExact(c: Context, e: Chain)
    requires c.Leading?
    ensures Written(c, e) == Meant(c, e) <==> Safe(c, e)
  {
    var alone := Reading(None, e.first);
    var written, meant := Read(alone, e.rest), Reading(None, Parse(e));
    ReadConcat(alone, e.rest, c.after);
    if IsProduct(e.rest) {
      ProductTerm(alone, e.rest);
      assert written == meant;
    } else {
      LastTerm(alone, alone, e.rest);
      ReadProper(alone, e.rest);
      if c.after != [] {
        var link, rest := c.after[0], c.after[1..];
        assert c.after == [link] + rest;
        ReadConcat(written, [link], rest);
        ReadConcat(meant, [link], rest);
        ReadOne(written, link);
        ReadOne(meant, link);
        if Multiplies(link.op) {
          StaysDifferent(Next(written, link), Next(meant, link), rest);
        }
      }
    }
  }

  /**
   The pasted text is read as the expression, on every line of operands and operators, exactly when
   the place is safe.
   */
  lemma PastingExact(c: Context, e: Chain)
    ensures Written(c, e) == Meant(c, e) <==> Safe(c, e)
  {
    if c.Leading? {
      LeadingExact(c, e);
    } else {
      BehindExact(c, e);
    }
  }

  // ----- an input

  /** Division of integers as C computes it, with 0 in place of what is not defined. */
  function Quotient(x: int, y: int): int {
    if y == 0 then 0
    else if (x >= 0) == (y > 0) then Abs(x) / Abs(y)
    else -(Abs(x) / Abs(y))
  }

  function Abs(x: int): nat {
    if x < 0 then -x else x
  }

  function Evaluate(env: string -> int, t: Tree): int {
    match t
    case Leaf(name) => env(name)
    case Node(Add, x, y) => Evaluate(env, x) + Evaluate(env, y)
    case Node(Sub, x, y) => Evaluate(env, x) - Evaluate(env, y)
    case Node(Mul, x, y) => Evaluate(env, x) * Evaluate(env, y)
    case Node(Div, x, y) => Quotient(Evaluate(env, x), Evaluate(env, y))
  }

  /** With the field's expression LEN_2D/2, the line 1000/x->b means 7 and its rewriting 1 when LEN_2D is 256. */
  lemma PastedQuotient(env: string -> int)
    requires env("1000") == 1000 && env("LEN_2D") == 256 && env("2") == 2
    ensures var line, e := Behind(Chain(Leaf("1000"), []), Div, []), Chain(Leaf("LEN_2D"), [Link(Div, Leaf("2"))]);
            Evaluate(env, Meant(line, e)) == 7 && Evaluate(env, Written(line, e)) == 1
  {
    var line, e := Behind(Chain(Leaf("1000"), []), Div, []), Chain(Leaf("LEN_2D"), [Link(Div, Leaf("2"))]);
    var half := Node(Div, Leaf("LEN_2D"), Leaf("2"));
    ReadOne(Reading(None, Leaf("LEN_2D")), e.rest[0]);
    assert Parse(e) == half;
    BehindReadings(line, e);
    ReadOne(Reading(None, Node(Div, Leaf("1000"), Leaf("LEN_2D"))), e.rest[0]);
    assert Meant(line, e) == Node(Div, Leaf("1000"), half);
    assert Written(line, e) == Node(Div, Node(Div, Leaf("1000"), Leaf("LEN_2D")), Leaf("2"));
    assert Evaluate(env, half) == 128;
    assert Evaluate(env, Node(Div, Leaf("1000"), Leaf("LEN_2D"))) == 3;
  }
}

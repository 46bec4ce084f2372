/**
 How a kernel reads its arguments: the lines of a loop function that go through the argument
 pointer are rewritten to name the globals it leads to.
 */
module Arguments {
  import opened Common

  // ----- values and their types

  datatype Type = IntType | RealType | PointerType

  datatype Value = Int(i: int) | Real(r: real) | AddressOf(name: string) | Other(tag: nat)

  function TypeOf(v: Value): Type {
    match v
    case Int(_) => IntType
    case Real(_) => RealType
    case _ => PointerType
  }

  function Truncated(r: real): int {
    if r >= 0.0 then r.Floor else -(-r).Floor
  }

  /** Initialising a variable of type `ty` converts numbers. */
  function Convert(ty: Type, v: Value): Value {
    match (ty, v)
    case (IntType, Real(r)) => Int(Truncated(r))
    case (RealType, Int(i)) => Real(i as real)
    case _ => v
  }

  lemma ConvertOwn(v: Value)
    ensures Convert(TypeOf(v), v) == v
  {
  }

  // ----- structs

  /** A member as a struct type declares it. */
  datatype Member = Member(ty: Type, name: string)

  /** A member of the struct tsvc_prepare_args fills, and the expression it stores there. */
  datatype Slot = Slot(ty: Type, name: string, expr: string)

  function MemberTypes(members: seq<Member>): (r: seq<Type>)
    ensures |r| == |members| && forall k | 0 <= k < |members| :: r[k] == members[k].ty
  {
    seq(|members|, k requires 0 <= k < |members| => members[k].ty)
  }

  function SlotTypes(slots: seq<Slot>): (r: seq<Type>)
    ensures |r| == |slots| && forall k | 0 <= k < |slots| :: r[k] == slots[k].ty
  {
    seq(|slots|, k requires 0 <= k < |slots| => slots[k].ty)
  }

  /** Pointers take 8 bytes on a wide machine; everything else, 4. */
  function SizeOf(wide: bool, ty: Type): nat {
    if ty.PointerType? && wide then 8 else 4
  }

  function RoundUp(offset: nat, size: nat): (r: nat)
    requires size == 4 || size == 8
    ensures offset <= r < offset + size
  {
    if size == 4 then offset + (4 - offset % 4) % 4 else offset + (8 - offset % 8) % 8
  }

  /** Where a member of type `ty` stands behind members of the types `before`. */
  function Place(wide: bool, before: seq<Type>, ty: Type): nat
    decreases |before|, 1
  {
    RoundUp(Extent(wide, before), SizeOf(wide, ty))
  }

  function Extent(wide: bool, types: seq<Type>): nat
    decreases |types|, 0
  {
    if types == [] then 0 else
    var n := |types| - 1;
    Place(wide, types[..n], types[n]) + SizeOf(wide, types[n])
  }

  /** The offset of member k. */
  function Offset(wide: bool, types: seq<Type>, k: nat): nat
    requires k < |types|
  {
    Place(wide, types[..k], types[k])
  }

  lemma {:induction false} OffsetIncreases(wide: bool, types: seq<Type>, i: nat, k: nat)
    requires i < k < |types|
    ensures Offset(wide, types, i) < Offset(wide, types, k)
  {
    var before := types[..k];
    assert before[..k - 1] == types[..k - 1] && before[k - 1] == types[k - 1];
    assert Offset(wide, types, k - 1) < Extent(wide, before);
    if i == k - 1 {
    } else {
      OffsetIncreases(wide, types, i, k - 1);
    }
  }

  function MemberIndex(members: seq<Member>, name: string): (r: Option<nat>)
    ensures r.Some? ==> r.value < |members| && members[r.value].name == name
    ensures r == None ==> forall k | 0 <= k < |members| :: members[k].name != name
  {
    if members == [] then None else
    var n := |members| - 1;
    if members[n].name == name then Some(n) else MemberIndex(members[..n], name)
  }

  /** The member that starts at `offset`, if one does. */
  function SlotAt(wide: bool, types: seq<Type>, offset: nat, n: nat): (r: Option<nat>)
    requires n <= |types|
    ensures r.Some? ==> r.value < n && Offset(wide, types, r.value) == offset
    ensures r == None ==> forall k | 0 <= k < n :: Offset(wide, types, k) != offset
  {
    if n == 0 then None
    else if Offset(wide, types, n - 1) == offset then Some(n - 1)
    else SlotAt(wide, types, offset, n - 1)
  }

  lemma SlotAtOffset(wide: bool, types: seq<Type>, k: nat)
    requires k < |types|
    ensures SlotAt(wide, types, Offset(wide, types, k), |types|) == Some(k)
  {
    var r := SlotAt(wide, types, Offset(wide, types, k), |types|);
    if r.Some? && r.value < k {
      OffsetIncreases(wide, types, r.value, k);
    } else if r.Some? && k < r.value {
      OffsetIncreases(wide, types, k, r.value);
    }
  }

  // ----- lines

  /** What tsvc_prepare_args returns: NULL, one expression, or the address of a struct it filled. */
  datatype Expr = Address(name: string) | Named(name: string)
  datatype Info = Absent | Direct(expr: Expr) | Struct(slots: seq<Slot>)

  /** The right side of an initialisation, `func_args->arg_info` being `Argument` and `*(ty*)` a read. */
  datatype Operand = Argument | Read(ty: Type) | Null | ReadNull(ty: Type) | Expression(expr: Expr)

  datatype Part = Text(text: string) | Global(name: string) | Field(variable: string, field: string)

  /**
   A line of code as the line patterns tell them apart: a pointer to a local struct type taken from
   the argument, an initialisation, or anything else.
   */
  datatype Code =
    | Bind(members: seq<Member>, name: string)
    | Assign(target: string, ty: Type, operand: Operand)
    | Plain(parts: seq<Part>)

  /** A line is indented code; the code of a blank line has no characters. */
  datatype Line = Line(indent: nat, code: Code)

  function TypeText(ty: Type): string {
    match ty
    case IntType => "int"
    case RealType => "real_t"
    case PointerType => "int *"
  }

  function OperandText(o: Operand): string {
    match o
    case Argument => "func_args->arg_info"
    case Read(ty) => "*(" + TypeText(ty) + "*)func_args->arg_info"
    case Null => "0"
    case ReadNull(ty) => "*(" + TypeText(ty) + "*)0"
    case Expression(Address(name)) => "&" + name
    case Expression(Named(name)) => name
  }

  function PartText(p: Part): string {
    match p
    case Text(text) => text
    case Global(name) => name
    case Field(variable, field) => variable + "->" + field
  }

  function PartsText(parts: seq<Part>): string {
    if parts == [] then "" else PartText(parts[0]) + PartsText(parts[1..])
  }

  function MembersText(members: seq<Member>): string {
    if members == [] then "" else TypeText(members[0].ty) + " " + members[0].name + ";" + MembersText(members[1..])
  }

  /** The characters of a line, from its first to its last that is not blank. */
  function Characters(c: Code): string {
    match c
    case Bind(members, name) => "struct{" + MembersText(members) + "} * " + name + " = func_args->arg_info;"
    case Assign(target, ty, operand) => TypeText(ty) + " " + target + " = " + OperandText(operand) + ";"
    case Plain(parts) => PartsText(parts)
  }

  function Codes(lines: seq<Line>): (s: seq<Code>)
    ensures |s| == |lines| && forall i | 0 <= i < |lines| :: s[i] == lines[i].code
  {
    seq(|lines|, i requires 0 <= i < |lines| => lines[i].code)
  }

  lemma CodesConcat(s: seq<Line>, t: seq<Line>)
    ensures Codes(s + t) == Codes(s) + Codes(t)
  {
  }

  predicate HasField(info: Info, field: string) {
    info.Struct? && exists k | 0 <= k < |info.slots| :: info.slots[k].name == field
  }

  /** The expression stored in the field of that name. */
  function FieldOf(slots: seq<Slot>, field: string): (r: string)
    requires exists k | 0 <= k < |slots| :: slots[k].name == field
    ensures exists k | 0 <= k < |slots| :: slots[k].name == field && slots[k].expr == r
  {
    var n := |slots| - 1;
    if slots[n].name == field then slots[n].expr else FieldOf(slots[..n], field)
  }

  // ----- _rewrite_arg_info_lines

  function RewritePart(info: Info, bound: set<string>, part: Part): Part {
    if part.Field? && part.variable in bound && HasField(info, part.field)
    then Global(FieldOf(info.slots, part.field)) else part
  }

  function RewriteParts(info: Info, bound: set<string>, parts: seq<Part>): (r: seq<Part>)
    ensures |r| == |parts|
  {
    seq(|parts|, i requires 0 <= i < |parts| => RewritePart(info, bound, parts[i]))
  }

  function RewriteOperand(info: Info, operand: Operand): Operand {
    match operand
    case Argument => (match info
                      case Absent => Null
                      case Direct(e) => Expression(e)
                      case Struct(_) => operand)
    case Read(ty) => (match info
                      case Absent => ReadNull(ty)
                      case Direct(e) => Expression(Named(e.name))
                      case Struct(slots) => if |slots| == 1 then Expression(Named(slots[0].expr)) else operand)
    case _ => operand
  }

  /** What a line becomes: a struct pointer disappears, every other line stays one line. */
  function Rewritten(info: Info, bound: set<string>, c: Code): (r: seq<Code>)
    ensures |r| <= 1
  {
    match c
    case Bind(_, _) => []
    case Assign(target, ty, operand) => [Assign(target, ty, RewriteOperand(info, operand))]
    case Plain(parts) => [Plain(RewriteParts(info, bound, parts))]
  }

  /** The error a line raises when it uses the argument as it was not prepared. */
  function Refusal(info: Info, c: Code): Option<string> {
    match c
    case Bind(_, _) =>
      if info.Struct? && info.slots != [] then None
      else Some("struct arg_info use does not match tsvc_prepare_args")
    case Assign(_, _, Argument) =>
      if info.Struct? then Some("cannot rewrite pointer arg_info access from structured args") else None
    case Assign(_, _, Read(_)) =>
      if !info.Struct? || |info.slots| == 1 then None
      else if info.slots != [] then Some("cannot rewrite scalar arg_info access from multi-field structured args")
      else Some("cannot rewrite scalar arg_info access from structured args")
    case _ => None
  }

  /**
   A line uses the argument as it was prepared: it takes a pointer when the argument is no struct, reads
   a scalar when it is no struct or a struct of one field, and takes a struct pointer when it is a struct
   with a field.
   */
  ghost predicate Prepared(info: Info, c: Code) {
    (c.Assign? && c.operand.Argument? ==> !info.Struct?)
    && (c.Assign? && c.operand.Read? && info.Struct? ==> |info.slots| == 1)
    && (c.Bind? ==> info.Struct? && |info.slots| > 0)
  }

  lemma RefusedUnprepared(info: Info, c: Code)
    ensures Refusal(info, c) == None <==> Prepared(info, c)
  {
  }

  function BoundBy(c: Code): set<string> {
    if c.Bind? then {c.name} else {}
  }

  /** The struct pointers that `codes` bind. */
  function BoundIn(codes: seq<Code>): set<string> {
    if codes == [] then {} else BoundBy(codes[0]) + BoundIn(codes[1..])
  }

  /** The lines after those that bound `bound`, rewritten one after the other. */
  function RewriteLines(info: Info, bound: set<string>, lines: seq<Line>): Result<seq<Line>>
    decreases lines
  {
    if lines == [] then Ok([]) else
    var refusal := Refusal(info, lines[0].code);
    if refusal.Some? then Err(refusal.value) else
    match RewriteLines(info, bound + BoundBy(lines[0].code), lines[1..])
    case Err(e) => Err(e)
    case Ok(rest) => Ok(Indented(lines[0].indent, Rewritten(info, bound, lines[0].code)) + rest)
  }

  function Indented(indent: nat, codes: seq<Code>): (r: seq<Line>)
    ensures Codes(r) == codes && forall k | 0 <= k < |r| :: r[k].indent == indent
  {
    seq(|codes|, i requires 0 <= i < |codes| => Line(indent, codes[i]))
  }

  /** Rewritten lines in front of what the remaining ones give. */
  function Behind(front: seq<Line>, rest: Result<seq<Line>>): Result<seq<Line>> {
    match rest
    case Err(e) => Err(e)
    case Ok(lines) => Ok(front + lines)
  }

  lemma RewriteNext(info: Info, bound: set<string>, lines: seq<Line>, i: nat, front: seq<Line>)
    requires i < |lines|
    ensures var l := lines[i];
            Behind(front, RewriteLines(info, bound, lines[i..]))
            == if Refusal(info, l.code).Some? then Err(Refusal(info, l.code).value)
               else Behind(front + Indented(l.indent, Rewritten(info, bound, l.code)),
                           RewriteLines(info, bound + BoundBy(l.code), lines[i + 1..]))
  {
    hide Refusal, Rewritten, BoundBy, Indented;
    assert lines[i..][0] == lines[i] && lines[i..][1..] == lines[i + 1..];
    var rest := RewriteLines(info, bound + BoundBy(lines[i].code), lines[i + 1..]);
    if rest.Ok? {
      var here := Indented(lines[i].indent, Rewritten(info, bound, lines[i].code));
      assert front + (here + rest.value) == (front + here) + rest.value;
    }
  }

  method RewriteArgInfoLines(info: Info, lines: seq<Line>) returns (r: Result<seq<Line>>)
    ensures r == RewriteLines(info, {}, lines)
    ensures r.Ok? <==> forall k | 0 <= k < |lines| :: Prepared(info, lines[k].code)
  {
    RewriteExactly(info, {}, lines);
    hide RewriteLines, Behind, Indented, Prepared;
    var rewritten, bound := [], {};
    BehindEnds(RewriteLines(info, {}, lines), []);
    assert lines[0..] == lines;
    for index := 0 to |lines|
      invariant RewriteLines(info, {}, lines) == Behind(rewritten, RewriteLines(info, bound, lines[index..]))
    {
      var line := lines[index];
      RewriteNext(info, bound, lines, index, rewritten);
      match line.code {
        case Bind(_, name) =>
          if !info.Struct? || info.slots == [] {
            return Err("struct arg_info use does not match tsvc_prepare_args");
          }
          IndentedNone(line.indent, rewritten);
          bound := bound + {name};
        case Plain(parts) =>
          IndentedOne(line.indent, Plain(RewriteParts(info, bound, parts)));
          rewritten := rewritten + [Line(line.indent, Plain(RewriteParts(info, bound, parts)))];
          assert bound + BoundBy(line.code) == bound;
        case Assign(target, ty, operand) =>
          if Refusal(info, line.code).Some? {
            return Err(Refusal(info, line.code).value);
          }
          IndentedOne(line.indent, Assign(target, ty, RewriteOperand(info, operand)));
          rewritten := rewritten + [Line(line.indent, Assign(target, ty, RewriteOperand(info, operand)))];
          assert bound + BoundBy(line.code) == bound;
      }
    }
    NothingLeft(info, bound);
    assert lines[|lines|..] == [];
    BehindEnds(RewriteLines(info, bound, []), rewritten);
    r := Ok(rewritten);
  }

  lemma IndentedOne(indent: nat, c: Code)
    ensures Indented(indent, [c]) == [Line(indent, c)]
  {
  }

  lemma IndentedNone(indent: nat, front: seq<Line>)
    ensures front + Indented(indent, []) == front
  {
  }

  lemma BehindEnds(rest: Result<seq<Line>>, front: seq<Line>)
    ensures Behind([], rest) == rest
    ensures rest == Ok([]) ==> Behind(front, rest) == Ok(front)
  {
    if rest.Ok? {
      assert [] + rest.value == rest.value && front + [] == front;
    }
  }

  lemma NothingLeft(info: Info, bound: set<string>)
    ensures RewriteLines(info, bound, []) == Ok([])
  {
  }

  /** The rewriting of the code alone, of lines none of which is refused. */
  function RewriteCodes(info: Info, bound: set<string>, codes: seq<Code>): seq<Code>
    decreases codes
  {
    if codes == [] then [] else
    Rewritten(info, bound, codes[0]) + RewriteCodes(info, bound + BoundBy(codes[0]), codes[1..])
  }

  /**
   The rewriting succeeds exactly when every line uses the argument as it was prepared, and then rewrites
   the code.
   */
  lemma {:induction false} RewriteExactly(info: Info, bound: set<string>, lines: seq<Line>)
    ensures RewriteLines(info, bound, lines).Ok? <==> forall k | 0 <= k < |lines| :: Prepared(info, lines[k].code)
    ensures RewriteLines(info, bound, lines).Ok? ==>
              Codes(RewriteLines(info, bound, lines).value) == RewriteCodes(info, bound, Codes(lines))
    decreases lines
  {
    if lines == [] {
    } else {
      hide Refusal, Rewritten, BoundBy, Prepared, RewriteCodes, Codes;
      var l, rest := lines[0], lines[1..];
      RefusedUnprepared(info, l.code);
      RewriteExactly(info, bound + BoundBy(l.code), rest);
      assert forall k | 0 <= k < |rest| :: rest[k] == lines[k + 1];
      assert Codes(lines)[0] == l.code && Codes(lines)[1..] == Codes(rest);
      if RewriteLines(info, bound, lines).Ok? {
        var here := Indented(l.indent, Rewritten(info, bound, l.code));
        CodesConcat(here, RewriteLines(info, bound + BoundBy(l.code), rest).value);
      }
      assert forall k | 0 < k < |lines| :: lines[k] == rest[k - 1];
    }
  }

  /** How many of the lines stay: all but those that take a struct pointer. */
  function Staying(lines: seq<Line>): nat {
    if lines == [] then 0 else (if lines[0].code.Bind? then 0 else 1) + Staying(lines[1..])
  }

  /** `r` are the lines of `lines` that stay, in order, each with its indentation. */
  ghost predicate InPlace(lines: seq<Line>, r: seq<Line>) {
    |r| == Staying(lines)
    && forall k | 0 <= k < |lines| && !lines[k].code.Bind? ::
         Staying(lines[..k]) < |r| && r[Staying(lines[..k])].indent == lines[k].indent
  }

  lemma InPlaceNext(lines: seq<Line>, here: seq<Line>, r: seq<Line>)
    requires lines != [] && InPlace(lines[1..], r)
    requires |here| == if lines[0].code.Bind? then 0 else 1
    requires forall k | 0 <= k < |here| :: here[k].indent == lines[0].indent
    ensures InPlace(lines, here + r)
  {
    var rest := lines[1..];
    forall k | 0 <= k < |lines| && !lines[k].code.Bind?
      ensures Staying(lines[..k]) < |here + r| && (here + r)[Staying(lines[..k])].indent == lines[k].indent
    {
      if k > 0 {
        assert lines[..k][1..] == rest[..k - 1] && lines[k] == rest[k - 1];
        assert Staying(lines[..k]) == |here| + Staying(rest[..k - 1]);
      }
    }
  }

  /** The lines that stay keep their order and their indentation. */
  lemma {:induction false} RewriteKeepsIndent(info: Info, bound: set<string>, lines: seq<Line>)
    requires RewriteLines(info, bound, lines).Ok?
    ensures InPlace(lines, RewriteLines(info, bound, lines).value)
    decreases lines
  {
    if lines == [] {
    } else {
      var l, rest := lines[0], lines[1..];
      hide Refusal, BoundBy, InPlace;
      RewriteKeepsIndent(info, bound + BoundBy(l.code), rest);
      InPlaceNext(lines, Indented(l.indent, Rewritten(info, bound, l.code)),
                  RewriteLines(info, bound + BoundBy(l.code), rest).value);
    }
  }

  /** The first line that does not use the argument as it was prepared raises its error. */
  lemma {:induction false} FirstError(info: Info, bound: set<string>, lines: seq<Line>, k: nat)
    requires k < |lines| && !Prepared(info, lines[k].code) && forall i | 0 <= i < k :: Prepared(info, lines[i].code)
    ensures Refusal(info, lines[k].code).Some?
    ensures RewriteLines(info, bound, lines) == Err(Refusal(info, lines[k].code).value)
    decreases lines
  {
    hide Refusal, Prepared, Rewritten, BoundBy;
    RefusedUnprepared(info, lines[0].code);
    if k > 0 {
      FirstError(info, bound + BoundBy(lines[0].code), lines[1..], k - 1);
    }
  }

  lemma {:induction false} RewriteConcat(info: Info, bound: set<string>, s: seq<Code>, t: seq<Code>)
    ensures BoundIn(s + t) == BoundIn(s) + BoundIn(t)
    ensures RewriteCodes(info, bound, s + t) == RewriteCodes(info, bound, s) + RewriteCodes(info, bound + BoundIn(s), t)
    decreases s
  {
    if s == [] {
      assert s + t == t && bound + BoundIn(s) == bound;
    } else {
      hide Rewritten, BoundBy;
      var after := bound + BoundBy(s[0]);
      assert (s + t)[1..] == s[1..] + t;
      RewriteConcat(info, after, s[1..], t);
      assert after + BoundIn(s[1..]) == bound + BoundIn(s);
      var here, rest := Rewritten(info, bound, s[0]), RewriteCodes(info, after, s[1..]);
      var last := RewriteCodes(info, bound + BoundIn(s), t);
      assert here + (rest + last) == (here + rest) + last;
    }
  }

  /** Nothing of the argument is left: no use of the pointer and no struct pointer. */
  ghost predicate Free(c: Code) {
    match c
    case Bind(_, _) => false
    case Assign(_, _, operand) => !operand.Argument? && !operand.Read?
    case Plain(_) => true
  }

  lemma {:induction false} RewrittenFree(info: Info, bound: set<string>, codes: seq<Code>)
    requires forall c | c in codes :: Prepared(info, c)
    ensures forall c | c in RewriteCodes(info, bound, codes) :: Free(c)
    decreases codes
  {
    if codes == [] {
    } else {
      hide Rewritten, Prepared, Free;
      assert codes[0] in codes;
      OneFree(info, bound, codes[0]);
      RewrittenFree(info, bound + BoundBy(codes[0]), codes[1..]);
    }
  }

  lemma OneFree(info: Info, bound: set<string>, c: Code)
    requires Prepared(info, c)
    ensures forall r | r in Rewritten(info, bound, c) :: Free(r)
  {
    hide RewriteParts;
  }

  // ----- meaning of a line

  /**
   Whether pointers are wide, the globals and the values of expressions by name, reading a value at
   another type, reading through other pointers, what lines do to the rest of the state, how often a
   loop head runs its body, and which branch a condition takes.
   */
  datatype Machine<!S> = Machine(wide: bool, globals: string -> Value, reinterpret: (Type, Value) -> Value,
                                 load: Value -> Value, nil: Value, assign: (string, Value, S) -> S,
                                 exec: (seq<Item>, S) -> S, trips: (seq<Item>, S) -> nat, test: (seq<Item>, S) -> bool)

  datatype Item = Literal(text: string) | Quantity(v: Value)

  function ReadAs<S>(m: Machine<S>, ty: Type, v: Value): Value {
    if TypeOf(v) == ty then v else m.reinterpret(ty, v)
  }

  function ExprValue<S>(m: Machine<S>, e: Expr): Value {
    match e
    case Address(name) => AddressOf(name)
    case Named(name) => m.globals(name)
  }

  function Pointee<S>(m: Machine<S>, info: Info): Value {
    match info
    case Absent => m.load(m.nil)
    case Direct(Address(name)) => m.globals(name)
    case Direct(Named(name)) => m.load(m.globals(name))
    case Struct(slots) => if slots == [] then m.load(m.nil) else Convert(slots[0].ty, m.globals(slots[0].expr))
  }

  function OperandValue<S>(m: Machine<S>, info: Info, o: Operand): Value {
    match o
    case Argument => (match info
                      case Absent => m.nil
                      case Direct(e) => ExprValue(m, e)
                      case Struct(_) => AddressOf("args"))
    case Read(ty) => ReadAs(m, ty, Pointee(m, info))
    case Null => m.nil
    case ReadNull(ty) => ReadAs(m, ty, m.load(m.nil))
    case Expression(e) => ExprValue(m, e)
  }

  /**
   What `x->field` reads through a pointer to a struct of `members`: the bytes at the member's offset,
   at the member's type.  A slot holds its expression's value, converted to its own type.
   */
  function FieldValue<S>(m: Machine<S>, slots: seq<Slot>, members: seq<Member>, field: string): Value {
    match MemberIndex(members, field)
    case None => m.load(m.nil)
    case Some(k) =>
      var offset := Offset(m.wide, MemberTypes(members), k);
      match SlotAt(m.wide, SlotTypes(slots), offset, |slots|)
      case None => m.load(Other(offset))
      case Some(j) => ReadAs(m, members[k].ty, Convert(slots[j].ty, m.globals(slots[j].expr)))
  }

  /** The struct pointers in scope and the struct types they point to. */
  type Scope = map<string, seq<Member>>

  predicate IsWord(c: char) {
    'a' <= c <= 'z' || 'A' <= c <= 'Z' || '0' <= c <= '9' || c == '_'
  }

  /** One token: whatever stands around it, it is an operand of its own. */
  predicate IsAtom(expr: string) {
    expr != "" && forall k | 0 <= k < |expr| :: IsWord(expr[k])
  }

  const ASSIGNS: string := " = "

  /** Part k is the whole right side of an assignment. */
  predicate WholeRight(parts: seq<Part>, k: int) {
    k == 1 && |parts| == 3 && parts[2] == Text(";") && parts[0].Text?
    && |parts[0].text| >= |ASSIGNS| && parts[0].text[|parts[0].text| - |ASSIGNS|..] == ASSIGNS
  }

  /**
   An expression pasted into a line is read as its value where it is one token or a whole right
   side; elsewhere it is just text, its operators mixing with those around it.
   */
  function ItemOf<S>(m: Machine<S>, info: Info, scope: Scope, whole: bool, part: Part): Item {
    match part
    case Text(t) => Literal(t)
    case Global(name) => if whole || IsAtom(name) then Quantity(m.globals(name)) else Literal(name)
    case Field(variable, field) =>
      if variable in scope && info.Struct? then Quantity(FieldValue(m, info.slots, scope[variable], field))
      else Literal(variable + "->" + field)
  }

  function Items<S>(m: Machine<S>, info: Info, scope: Scope, parts: seq<Part>): (r: seq<Item>)
    ensures |r| == |parts|
  {
    seq(|parts|, i requires 0 <= i < |parts| => ItemOf(m, info, scope, WholeRight(parts, i), parts[i]))
  }

  function Step<S>(m: Machine<S>, info: Info, scope: Scope, c: Code, s: S): S {
    match c
    case Bind(_, _) => s
    case Assign(target, ty, operand) => m.assign(target, Convert(ty, OperandValue(m, info, operand)), s)
    case Plain(parts) => m.exec(Items(m, info, scope, parts), s)
  }

  // ----- what the rewriting of a line keeps

  /** tsvc_prepare_args stores every expression in a field of its own type. */
  ghost predicate Held<S>(m: Machine<S>, info: Info) {
    info.Struct? ==> forall k | 0 <= k < |info.slots| :: TypeOf(m.globals(info.slots[k].expr)) == info.slots[k].ty
  }

  /** A read through the argument pointer is at the type of what the pointer leads to. */
  ghost predicate OwnType<S>(m: Machine<S>, info: Info, c: Code) {
    c.Assign? && c.operand.Read? && !info.Absent? ==>
      (info.Direct? ==> info.expr.Address?) && TypeOf(Pointee(m, info)) == c.operand.ty
  }

  /** At the member's offset stands, at the member's type, the expression the rewriting puts there. */
  ghost predicate FieldKept(wide: bool, slots: seq<Slot>, members: seq<Member>, field: string)
    requires exists k | 0 <= k < |slots| :: slots[k].name == field
  {
    var k := MemberIndex(members, field);
    k.Some?
    && var j := SlotAt(wide, SlotTypes(slots), Offset(wide, MemberTypes(members), k.value), |slots|);
       j.Some? && slots[j.value].expr == FieldOf(slots, field) && slots[j.value].ty == members[k.value].ty
  }

  lemma FieldValueKept<S>(m: Machine<S>, info: Info, members: seq<Member>, field: string)
    requires HasField(info, field) && Held(m, info) && FieldKept(m.wide, info.slots, members, field)
    ensures FieldValue(m, info.slots, members, field) == m.globals(FieldOf(info.slots, field))
  {
    hide Offset, FieldOf;
    var k := MemberIndex(members, field).value;
    var j := SlotAt(m.wide, SlotTypes(info.slots), Offset(m.wide, MemberTypes(members), k), |info.slots|).value;
    ConvertOwn(m.globals(info.slots[j].expr));
  }

  /** The struct type of a pointer agrees with the struct that is filled: the same names and types in the same order. */
  ghost predicate SameLayout(slots: seq<Slot>, members: seq<Member>) {
    |slots| == |members|
    && (forall k | 0 <= k < |slots| :: members[k] == Member(slots[k].ty, slots[k].name))
    && forall i, k | 0 <= i < k < |slots| :: slots[i].name != slots[k].name
  }

  /** Then every field is kept. */
  lemma SameLayoutKeeps(wide: bool, slots: seq<Slot>, members: seq<Member>, field: string)
    requires SameLayout(slots, members) && exists k | 0 <= k < |slots| :: slots[k].name == field
    ensures FieldKept(wide, slots, members, field)
  {
    hide Offset, FieldOf;
    var k := MemberIndex(members, field);
    assert MemberTypes(members) == SlotTypes(slots);
    SlotAtOffset(wide, SlotTypes(slots), k.value);
    var i :| 0 <= i < |slots| && slots[i].name == field && slots[i].expr == FieldOf(slots, field);
    assert i == k.value;
  }

  /** The expression of a replaced field is read as its value. */
  ghost predicate Pasted(slots: seq<Slot>, parts: seq<Part>, k: int)
    requires 0 <= k < |parts| && parts[k].Field? && exists i | 0 <= i < |slots| :: slots[i].name == parts[k].field
  {
    WholeRight(parts, k) || IsAtom(FieldOf(slots, parts[k].field))
  }

  /**
   Every use of a struct pointer bound above stands in its scope, names a field that is kept, and is
   replaced by an expression read as its value.
   */
  ghost predicate UsableParts(wide: bool, info: Info, scope: Scope, bound: set<string>, parts: seq<Part>) {
    forall k | 0 <= k < |parts| && parts[k].Field? && parts[k].variable in bound ::
      parts[k].variable in scope && HasField(info, parts[k].field)
      && FieldKept(wide, info.slots, scope[parts[k].variable], parts[k].field) && Pasted(info.slots, parts, k)
  }

  lemma ItemsRewritten<S>(m: Machine<S>, info: Info, other: Info, scope: Scope, bound: set<string>,
                          parts: seq<Part>)
    requires scope.Keys <= bound && UsableParts(m.wide, info, scope, bound, parts) && Held(m, info)
    ensures Items(m, other, map[], RewriteParts(info, bound, parts)) == Items(m, info, scope, parts)
  {
    hide HasField, FieldOf, FieldKept, FieldValue, Held, IsAtom, WholeRight, ItemOf, RewritePart, Pasted;
    var r := RewriteParts(info, bound, parts);
    forall i | 0 <= i < |parts|
      ensures ItemOf(m, other, map[], WholeRight(r, i), r[i]) == ItemOf(m, info, scope, WholeRight(parts, i), parts[i])
    {
      WholeRightKept(info, bound, parts, i);
      ItemRewritten(m, info, other, scope, bound, parts, i);
    }
  }

  lemma ItemRewritten<S>(m: Machine<S>, info: Info, other: Info, scope: Scope, bound: set<string>,
                         parts: seq<Part>, i: nat)
    requires scope.Keys <= bound && UsableParts(m.wide, info, scope, bound, parts) && Held(m, info) && i < |parts|
    ensures ItemOf(m, other, map[], WholeRight(parts, i), RewritePart(info, bound, parts[i]))
            == ItemOf(m, info, scope, WholeRight(parts, i), parts[i])
  {
    hide FieldOf, FieldKept, FieldValue, Held, IsAtom, WholeRight;
    var part := parts[i];
    if part.Field? && part.variable in bound {
      FieldValueKept(m, info, scope[part.variable], part.field);
    }
  }

  lemma WholeRightKept(info: Info, bound: set<string>, parts: seq<Part>, k: int)
    ensures WholeRight(RewriteParts(info, bound, parts), k) <==> WholeRight(parts, k)
  {
    hide HasField, FieldOf;
  }

  /** A usable line that reads at its own type does what it did, whatever the argument pointer now is. */
  lemma StepRewritten<S>(m: Machine<S>, info: Info, other: Info, scope: Scope, bound: set<string>, c: Code, s: S)
    requires Prepared(info, c) && OwnType(m, info, c) && Held(m, info)
    requires scope.Keys <= bound && (c.Plain? ==> UsableParts(m.wide, info, scope, bound, c.parts))
    ensures var r := Rewritten(info, bound, c);
            if r == [] then c.Bind? && Step(m, info, scope, c, s) == s
            else Free(r[0]) && Step(m, other, map[], r[0], s) == Step(m, info, scope, c, s)
  {
    hide Items, RewriteParts, FieldOf, UsableParts;
    match c
    case Bind(_, _) =>
    case Plain(parts) =>
      ItemsRewritten(m, info, other, scope, bound, parts);
    case Assign(target, ty, operand) =>
      if operand.Read? && info.Struct? {
        ConvertOwn(m.globals(info.slots[0].expr));
      }
      hide Convert;
  }
}

/**
 The conversion of a loop function into a kernel: the repeat loop is unwrapped and its body moved
 left, the uses of the argument are rewritten, and the calls of the timing harness are dropped.
 */
module Converter {
  import opened Common
  import opened Arguments

  /** The line patterns, given: the head of the repeat loop, and the harness calls and returns. */
  datatype Patterns = Patterns(isOuterLoop: Code -> bool, isRuntime: Code -> bool)

  function Count(ch: char, s: string): nat {
    if s == "" then 0 else Count(ch, s[..|s| - 1]) + if s[|s| - 1] == ch then 1 else 0
  }

  /** The braces a line opens less those it closes. */
  function Net(c: Code): int {
    Count('{', Characters(c)) - Count('}', Characters(c))
  }

  function Balance(codes: seq<Code>): int {
    if codes == [] then 0 else Balance(codes[..|codes| - 1]) + Net(codes[|codes| - 1])
  }

  // ----- _dedent_block

  predicate Blank(l: Line) {
    Characters(l.code) == ""
  }

  /** The least indentation of a line that is not blank. */
  function SharedIndent(lines: seq<Line>): (m: nat)
  {
    if lines == [] then 0 else
    var rest, l := SharedIndent(lines[..|lines| - 1]), lines[|lines| - 1];
    if Blank(l) then rest
    else if (forall k | 0 <= k < |lines| - 1 :: Blank(lines[k])) || l.indent < rest then l.indent
    else rest
  }

  function Outdent(l: Line, n: nat): Line {
    if l.indent >= n then Line(l.indent - n, l.code) else l
  }

  function Dedent(lines: seq<Line>): (r: seq<Line>)
    ensures |r| == |lines|
  {
    seq(|lines|, i requires 0 <= i < |lines| => Outdent(lines[i], SharedIndent(lines)))
  }

  lemma {:induction false} SharedIndentLeast(lines: seq<Line>, k: nat)
    requires k < |lines| && !Blank(lines[k])
    ensures SharedIndent(lines) <= lines[k].indent
  {
    hide Blank;
    if k == |lines| - 1 {
    } else {
      SharedIndentLeast(lines[..|lines| - 1], k);
      assert lines[..|lines| - 1][k] == lines[k];
    }
  }

  lemma {:induction false} SharedIndentReached(lines: seq<Line>)
    ensures if forall k | 0 <= k < |lines| :: Blank(lines[k]) then SharedIndent(lines) == 0
            else exists k | 0 <= k < |lines| && !Blank(lines[k]) :: lines[k].indent == SharedIndent(lines)
  {
    hide Blank;
    if lines == [] {
    } else {
      var front := lines[..|lines| - 1];
      SharedIndentReached(front);
      assert forall k | 0 <= k < |front| :: front[k] == lines[k];
    }
  }

  /**
   Moving a block left keeps all code, and every line's place relative to the others; and the block moves
   as far as it can: some line that is not blank ends at the left edge.
   */
  lemma DedentKeeps(lines: seq<Line>)
    ensures Codes(Dedent(lines)) == Codes(lines)
    ensures forall k | 0 <= k < |lines| && !Blank(lines[k]) ::
              Dedent(lines)[k].indent + SharedIndent(lines) == lines[k].indent
    ensures if forall k | 0 <= k < |lines| :: Blank(lines[k]) then Dedent(lines) == lines
            else exists k | 0 <= k < |lines| && !Blank(lines[k]) :: Dedent(lines)[k].indent == 0
  {
    hide Characters, SharedIndent;
    SharedIndentReached(lines);
    forall k | 0 <= k < |lines| && !Blank(lines[k])
      ensures Dedent(lines)[k].indent + SharedIndent(lines) == lines[k].indent
    {
      SharedIndentLeast(lines, k);
    }
  }

  // ----- _strip_outer_loop

  /** The loop head at `start` is matched by the closing line at `end`. */
  ghost predicate Encloses(codes: seq<Code>, start: nat, end: nat) {
    start <= end < |codes| && Balance(codes[start..end + 1]) == 0
    && forall k | start < k <= end :: Balance(codes[start..k]) != 0
  }

  ghost predicate NoOuter(p: Patterns, codes: seq<Code>) {
    forall k | 0 <= k < |codes| :: !p.isOuterLoop(codes[k])
  }

  ghost predicate FirstOuter(p: Patterns, codes: seq<Code>, start: nat) {
    start < |codes| && p.isOuterLoop(codes[start]) && NoOuter(p, codes[..start])
  }

  /** What is left when the loop from `start` to `end` is replaced by its body. */
  function Spliced(lines: seq<Line>, start: nat, end: nat): seq<Line>
    requires start <= end < |lines|
  {
    lines[..start] + Dedent(if start < end then lines[start + 1..end] else []) + lines[end + 1..]
  }

  /** `lines` are unwrapped into `result`. */
  ghost predicate Unwraps(p: Patterns, lines: seq<Line>, result: seq<Line>) {
    exists start: nat, end: nat :: FirstOuter(p, Codes(lines), start) && Encloses(Codes(lines), start, end)
                                   && result == Spliced(lines, start, end)
  }

  /** What the first pass makes of `lines`. */
  ghost predicate Strips(p: Patterns, lines: seq<Line>, stripped: seq<Line>) {
    (NoOuter(p, Codes(lines)) && stripped == lines) || Unwraps(p, lines, stripped)
  }

  lemma BalanceNext(codes: seq<Code>, start: nat, k: nat)
    requires start <= k < |codes|
    ensures Balance(codes[start..k + 1]) == Balance(codes[start..k]) + Net(codes[k])
  {
    hide Net;
    assert codes[start..k + 1][..k - start] == codes[start..k] && codes[start..k + 1][k - start] == codes[k];
  }

  /** From `start` on, the braces do not balance before line `n`. */
  ghost predicate StaysOpen(codes: seq<Code>, start: nat, n: nat) {
    n <= |codes| && forall k | start < k <= n :: Balance(codes[start..k]) != 0
  }

  lemma OpenStart(codes: seq<Code>, start: nat)
    requires start <= |codes|
    ensures Balance(codes[start..start]) == 0 && StaysOpen(codes, start, start)
  {
    assert codes[start..start] == [];
  }

  lemma OpenNext(codes: seq<Code>, start: nat, n: nat)
    requires start <= n < |codes| && StaysOpen(codes, start, n)
    ensures if Balance(codes[start..n + 1]) == 0 then Encloses(codes, start, n) else StaysOpen(codes, start, n + 1)
  {
    hide Balance;
  }

  lemma NeverEnclosed(codes: seq<Code>, start: nat)
    requires StaysOpen(codes, start, |codes|)
    ensures forall end: nat :: !Encloses(codes, start, end)
  {
    hide Balance;
    forall end: nat ensures !Encloses(codes, start, end) {
    }
  }

  method StripOuterLoop(p: Patterns, lines: seq<Line>) returns (r: Result<seq<Line>>)
    ensures r.Ok? ==> Strips(p, lines, r.value)
    ensures r.Err? ==>
              exists start: nat :: FirstOuter(p, Codes(lines), start)
                && forall end: nat :: !Encloses(Codes(lines), start, end)
  {
    hide Characters, Dedent, Count, Encloses, StaysOpen, Balance;
    ghost var codes := Codes(lines);
    var index := 0;
    while index < |lines| && !p.isOuterLoop(lines[index].code)
      invariant 0 <= index <= |lines|
      invariant NoOuter(p, codes[..index])
    {
      index := index + 1;
    }
    if index == |lines| {
      assert codes[..index] == codes;
      return Ok(lines);
    }
    var outerStart := index;
    assert FirstOuter(p, codes, outerStart);
    var depth := 0;
    OpenStart(codes, outerStart);
    while index < |lines|
      invariant outerStart <= index <= |lines| && depth == Balance(codes[outerStart..index])
      invariant StaysOpen(codes, outerStart, index)
    {
      BalanceNext(codes, outerStart, index);
      OpenNext(codes, outerStart, index);
      depth := depth + Count('{', Characters(lines[index].code));
      depth := depth - Count('}', Characters(lines[index].code));
      if depth == 0 {
        var body := if outerStart < index then lines[outerStart + 1..index] else [];
        var unwrapped := lines[..outerStart] + Dedent(body) + lines[index + 1..];
        assert unwrapped == Spliced(lines, outerStart, index);
        return Ok(unwrapped);
      }
      index := index + 1;
    }
    NeverEnclosed(codes, outerStart);
    return Err("outer nl loop block is not balanced");
  }

  lemma DedentCodes(lines: seq<Line>)
    ensures Codes(Dedent(lines)) == Codes(lines)
  {
    hide SharedIndent;
  }

  lemma UnwrapsOnce(p: Patterns, lines: seq<Line>, start: nat, end: nat, result: seq<Line>)
    requires FirstOuter(p, Codes(lines), start) && Encloses(Codes(lines), start, end) && start < end
    ensures Unwraps(p, lines, result) <==> result == Spliced(lines, start, end)
  {
    hide Spliced, FirstOuter, Balance;
    if Unwraps(p, lines, result) {
      var start': nat, end': nat :| FirstOuter(p, Codes(lines), start') && Encloses(Codes(lines), start', end')
                                    && result == Spliced(lines, start', end');
      FirstOuterOnce(p, Codes(lines), start, start');
      EnclosesOnce(Codes(lines), start, end, end');
      EnclosesOnce(Codes(lines), start, end', end);
    }
  }

  lemma FirstOuterOnce(p: Patterns, codes: seq<Code>, i: nat, k: nat)
    requires FirstOuter(p, codes, i) && FirstOuter(p, codes, k)
    ensures i == k
  {
  }

  lemma EnclosesOnce(codes: seq<Code>, start: nat, i: nat, k: nat)
    requires Encloses(codes, start, i)
    ensures i < k ==> !Encloses(codes, start, k)
  {
    if i < k < |codes| {
      assert Balance(codes[start..i + 1]) == 0;
    }
  }

  lemma NothingStrips(p: Patterns, lines: seq<Line>, start: nat)
    requires FirstOuter(p, Codes(lines), start) && forall end: nat :: !Encloses(Codes(lines), start, end)
    ensures forall stripped :: !Strips(p, lines, stripped)
  {
    hide Encloses, Spliced;
    forall stripped ensures !Unwraps(p, lines, stripped) {
      if Unwraps(p, lines, stripped) {
        var start': nat, end: nat :| FirstOuter(p, Codes(lines), start') && Encloses(Codes(lines), start', end);
        FirstOuterOnce(p, Codes(lines), start, start');
      }
    }
  }

  /** The first pass has one outcome. */
  lemma StripsOnce(p: Patterns, lines: seq<Line>, s: seq<Line>, t: seq<Line>)
    requires Strips(p, lines, s) && Strips(p, lines, t)
    ensures s == t
  {
    hide Spliced, Balance;
    var codes := Codes(lines);
    if !NoOuter(p, codes) {
      var i: nat, j: nat :| FirstOuter(p, codes, i) && Encloses(codes, i, j) && s == Spliced(lines, i, j);
      var k: nat, l: nat :| FirstOuter(p, codes, k) && Encloses(codes, k, l) && t == Spliced(lines, k, l);
      FirstOuterOnce(p, codes, i, k);
      EnclosesOnce(codes, i, j, l);
      EnclosesOnce(codes, i, l, j);
    }
  }

  // ----- _filter_runtime_lines

  function Filtered(p: Patterns, lines: seq<Line>): seq<Line> {
    if lines == [] then [] else
    (if p.isRuntime(lines[0].code) then [] else [Stripped(lines[0])]) + Filtered(p, lines[1..])
  }

  /** A blank line loses its indentation with its trailing blanks. */
  function Stripped(l: Line): Line {
    if Blank(l) then Line(0, l.code) else l
  }

  /** How many of the first `n` lines are no harness calls. */
  function KeptBefore(p: Patterns, lines: seq<Line>, n: nat): (r: nat)
    requires n <= |lines|
  {
    if n == 0 then 0 else KeptBefore(p, lines, n - 1) + if p.isRuntime(lines[n - 1].code) then 0 else 1
  }

  /** The lines that are no harness calls are left in order, each in its place but for trailing blanks. */
  ghost predicate FilteredInto(p: Patterns, lines: seq<Line>, n: nat, filtered: seq<Line>)
    requires n <= |lines|
  {
    |filtered| == KeptBefore(p, lines, n)
    && forall k | 0 <= k < n && !p.isRuntime(lines[k].code) ::
         KeptBefore(p, lines, k) < |filtered|
         && var l := filtered[KeptBefore(p, lines, k)];
            l.code == lines[k].code && l.indent == if Characters(lines[k].code) == "" then 0 else lines[k].indent
  }

  lemma {:induction false} FilteredPrefix(p: Patterns, lines: seq<Line>, n: nat)
    requires n <= |lines|
    ensures FilteredInto(p, lines, n, Filtered(p, lines[..n]))
  {
    if n == 0 {
    } else {
      hide Characters, FilteredInto, Stripped;
      FilteredPrefix(p, lines, n - 1);
      FilteredLast(p, lines[..n]);
      assert lines[..n][..n - 1] == lines[..n - 1];
      OneMore(p, lines, n - 1, Filtered(p, lines[..n - 1]));
    }
  }

  lemma FilteredAll(p: Patterns, lines: seq<Line>)
    ensures FilteredInto(p, lines, |lines|, Filtered(p, lines))
  {
    hide FilteredInto;
    FilteredPrefix(p, lines, |lines|);
    assert lines[..|lines|] == lines;
  }

  lemma OneMore(p: Patterns, lines: seq<Line>, n: nat, f: seq<Line>)
    requires n < |lines| && FilteredInto(p, lines, n, f)
    ensures FilteredInto(p, lines, n + 1, f + if p.isRuntime(lines[n].code) then [] else [Stripped(lines[n])])
  {
    hide Stripped;
    assert f + [] == f;
    StrippedIs(lines[n]);
  }

  lemma {:induction false} FilteredLast(p: Patterns, lines: seq<Line>)
    requires lines != []
    ensures var n := |lines| - 1;
            Filtered(p, lines)
            == Filtered(p, lines[..n]) + if p.isRuntime(lines[n].code) then [] else [Stripped(lines[n])]
  {
    hide Stripped;
    if |lines| == 1 {
    } else {
      var n := |lines| - 1;
      assert lines[1..][..n - 1] == lines[..n][1..];
      FilteredLast(p, lines[1..]);
    }
  }

  lemma StrippedIs(l: Line)
    ensures Stripped(l) == Line(if Characters(l.code) == "" then 0 else l.indent, l.code)
  {
  }

  method FilterRuntimeLines(p: Patterns, lines: seq<Line>) returns (filtered: seq<Line>)
    ensures filtered == Filtered(p, lines) && FilteredInto(p, lines, |lines|, filtered)
  {
    hide *;
    FilteredAll(p, lines);
    filtered := [];
    FilteredEnds(p, lines);
    for i := 0 to |lines|
      invariant Filtered(p, lines) == filtered + Filtered(p, lines[i..])
    {
      FilteredNext(p, lines, i, filtered);
      if !p.isRuntime(lines[i].code) {
        filtered := filtered + [Stripped(lines[i])];
      }
    }
    assert lines[|lines|..] == [] && filtered + [] == filtered;
  }

  lemma FilteredEnds(p: Patterns, lines: seq<Line>)
    ensures Filtered(p, []) == [] && Filtered(p, lines) == [] + Filtered(p, lines[0..])
  {
    assert lines[0..] == lines;
  }

  lemma FilteredNext(p: Patterns, lines: seq<Line>, i: nat, front: seq<Line>)
    requires i < |lines|
    ensures front + Filtered(p, lines[i..])
            == (if p.isRuntime(lines[i].code) then front else front + [Stripped(lines[i])])
               + Filtered(p, lines[i + 1..])
  {
    hide Stripped;
    assert lines[i..][0] == lines[i] && lines[i..][1..] == lines[i + 1..];
    var rest := Filtered(p, lines[i + 1..]);
    assert front + ([Stripped(lines[i])] + rest) == (front + [Stripped(lines[i])]) + rest && [] + rest == rest;
  }

  /** The codes that are no harness calls. */
  function Kept(p: Patterns, codes: seq<Code>): seq<Code> {
    if codes == [] then [] else (if p.isRuntime(codes[0]) then [] else [codes[0]]) + Kept(p, codes[1..])
  }

  lemma {:induction false} FilteredCodes(p: Patterns, lines: seq<Line>)
    ensures Codes(Filtered(p, lines)) == Kept(p, Codes(lines))
  {
    if lines == [] {
    } else {
      FilteredCodes(p, lines[1..]);
      assert Codes(lines)[1..] == Codes(lines[1..]);
      CodesConcat(if p.isRuntime(lines[0].code) then [] else [Stripped(lines[0])], Filtered(p, lines[1..]));
    }
  }

  lemma {:induction false} KeptConcat(p: Patterns, s: seq<Code>, t: seq<Code>)
    ensures Kept(p, s + t) == Kept(p, s) + Kept(p, t)
  {
    if s == [] {
      assert s + t == t;
    } else {
      KeptConcat(p, s[1..], t);
      assert (s + t)[0] == s[0] && (s + t)[1..] == s[1..] + t;
      var here := if p.isRuntime(s[0]) then [] else [s[0]];
      assert here + (Kept(p, s[1..]) + Kept(p, t)) == (here + Kept(p, s[1..])) + Kept(p, t);
    }
  }

  lemma KeptOne(p: Patterns, c: Code)
    ensures Kept(p, [c]) == if p.isRuntime(c) then [] else [c]
  {
    assert [c][1..] == [];
  }

  // ----- the three passes

  /** `_strip_outer_loop`, `_rewrite_arg_info_lines` and `_filter_runtime_lines` turn `lines` into `kernel`. */
  ghost predicate Converts(p: Patterns, info: Info, lines: seq<Line>, kernel: seq<Line>) {
    exists stripped ::
      Strips(p, lines, stripped)
      && RewriteLines(info, {}, stripped).Ok? && kernel == Filtered(p, RewriteLines(info, {}, stripped).value)
  }

  method ConvertBody(p: Patterns, info: Info, lines: seq<Line>) returns (r: Result<seq<Line>>)
    ensures r.Ok? ==> Converts(p, info, lines, r.value)
    ensures r.Err? ==> forall kernel :: !Converts(p, info, lines, kernel)
  {
    hide Strips, FirstOuter, Encloses, RewriteLines, Filtered;
    var outerStripped := StripOuterLoop(p, lines);
    if outerStripped.Err? {
      ghost var start: nat :|
        FirstOuter(p, Codes(lines), start) && forall end: nat :: !Encloses(Codes(lines), start, end);
      NothingStrips(p, lines, start);
      return outerStripped;
    }
    var transformed := RewriteArgInfoLines(info, outerStripped.value);
    if transformed.Err? {
      forall kernel ensures !Converts(p, info, lines, kernel) {
        if Converts(p, info, lines, kernel) {
          ghost var stripped :| Strips(p, lines, stripped) && RewriteLines(info, {}, stripped).Ok?;
          StripsOnce(p, lines, stripped, outerStripped.value);
        }
      }
      return transformed;
    }
    var filtered := FilterRuntimeLines(p, transformed.value);
    r := Ok(filtered);
  }
}

/**
 Cutting functions out of C text by brace matching: the splitter cuts each loop function out of
 the suite and places it in a file of its own, from which the converter cuts its body again.
 */
module CutPaste {

  import opened Common

  predicate IsSpace(c: char) {
    c == ' ' || c == '\t' || c == '\n' || c == '\r'
  }

  function StripLeft(s: string): string {
    if s != "" && IsSpace(s[0]) then StripLeft(s[1..]) else s
  }

  function StripRight(s: string): string {
    if s != "" && IsSpace(s[|s| - 1]) then StripRight(s[..|s| - 1]) else s
  }

  function Strip(s: string): string {
    StripRight(StripLeft(s))
  }

  /** Opening minus closing braces. */
  function Depth(s: string): int {
    if s == "" then 0 else
    Depth(s[..|s| - 1]) + (if s[|s| - 1] == '{' then 1 else if s[|s| - 1] == '}' then -1 else 0)
  }

  /** The depth of `s` returns to zero at its last character, a closing brace, and at none before. */
  ghost predicate Closed(s: string) {
    s != "" && s[|s| - 1] == '}' && Depth(s) == 0
    && forall k | 0 < k < |s| && s[k - 1] == '}' :: Depth(s[..k]) != 0
  }

  /** The scan from `start` stops at `stop`. */
  ghost predicate Closes(text: string, start: nat, stop: nat) {
    start < stop <= |text| && Closed(text[start..stop])
  }

  lemma DepthNext(s: string, k: nat)
    requires k < |s|
    ensures Depth(s[..k + 1]) == Depth(s[..k]) + (if s[k] == '{' then 1 else if s[k] == '}' then -1 else 0)
  {
    assert s[..k + 1][..k] == s[..k];
  }

  /** The first return to depth zero, at a closing brace, within the first `n` characters. */
  ghost predicate StillOpen(s: string, n: nat)
    requires n <= |s|
  {
    forall k | 0 < k <= n && s[k - 1] == '}' :: Depth(s[..k]) != 0
  }

  lemma StopFound(text: string, start: nat, n: nat)
    requires start + n < |text| && StillOpen(text[start..], n) && text[start + n] == '}'
             && Depth(text[start..][..n + 1]) == 0
    ensures Closes(text, start, start + n + 1)
  {
    var s := text[start..];
    var p := s[..n + 1];
    assert text[start..start + n + 1] == p;
    forall k | 0 < k < |p| && p[k - 1] == '}' ensures Depth(p[..k]) != 0 {
      assert p[..k] == s[..k];
    }
  }

  lemma NoStop(text: string, start: nat)
    requires start <= |text| && StillOpen(text[start..], |text| - start)
    ensures forall stop: nat :: !Closes(text, start, stop)
  {
    var s := text[start..];
    forall stop: nat | start < stop <= |text| ensures !Closed(text[start..stop]) {
      var k := stop - start;
      assert text[start..stop] == s[..k];
      assert s[k - 1] == '}' ==> Depth(s[..k]) != 0;
    }
  }

  /** The scan of the splitter. */
  method ExtractBlock(text: string, startBrace: nat) returns (r: Result<nat>)
    requires startBrace <= |text|
    ensures r.Ok? ==> Closes(text, startBrace, r.value)
    ensures r.Err? ==> forall stop: nat :: !Closes(text, startBrace, stop)
  {
    ghost var s := text[startBrace..];
    var depth := 0;
    for idx := startBrace to |text|
      invariant depth == Depth(s[..idx - startBrace]) && StillOpen(s, idx - startBrace)
    {
      DepthNext(s, idx - startBrace);
      var ch := text[idx];
      if ch == '{' {
        depth := depth + 1;
      } else if ch == '}' {
        depth := depth - 1;
        if depth == 0 {
          StopFound(text, startBrace, idx - startBrace);
          return Ok(idx + 1);
        }
      }
    }
    NoStop(text, startBrace);
    return Err("Unbalanced braces while extracting function");
  }

  /** The first '{' at or after `start`. */
  ghost predicate FirstBrace(text: string, start: nat, b: nat) {
    start <= b < |text| && text[b] == '{' && forall k | start <= k < b :: text[k] != '{'
  }

  method FindBrace(text: string, start: nat) returns (r: Result<nat>)
    ensures r.Ok? ==> FirstBrace(text, start, r.value)
    ensures r.Err? ==> forall b :: !FirstBrace(text, start, b)
  {
    var i := start;
    while i < |text|
      invariant start <= i
      invariant forall k | start <= k < i && k < |text| :: text[k] != '{'
    {
      if text[i] == '{' {
        return Ok(i);
      }
      i := i + 1;
    }
    return Err("function body start not found");
  }

  /** `extract_function` cuts `block`, given where its signature matches; it returns it stripped, and a line end. */
  ghost predicate CutsFunction(text: string, matchStart: nat, block: string) {
    exists b: nat, stop: nat ::
      FirstBrace(text, matchStart, b) && Closes(text, b, stop) && block == text[matchStart..stop]
  }

  method ExtractFunction(text: string, matchStart: nat) returns (r: Result<string>)
    ensures r.Ok? ==> exists block :: CutsFunction(text, matchStart, block) && r.value == Strip(block) + "\n"
    ensures r.Err? ==> forall block :: !CutsFunction(text, matchStart, block)
  {
    hide Closes;
    var brace := FindBrace(text, matchStart);
    if brace.Err? {
      return Err("Could not find opening brace");
    }
    var end := ExtractBlock(text, brace.value);
    if end.Err? {
      forall b: nat, stop: nat | FirstBrace(text, matchStart, b) && Closes(text, b, stop) ensures false {
        FirstBraceUnique(text, matchStart, b, brace.value);
      }
      return Err(end.message);
    }
    assert end.value <= |text| && brace.value < end.value by { ClosesBounds(text, brace.value, end.value); }
    assert CutsFunction(text, matchStart, text[matchStart..end.value]);
    return Ok(Strip(text[matchStart..end.value]) + "\n");
  }

  lemma ClosesBounds(text: string, start: nat, stop: nat)
    requires Closes(text, start, stop)
    ensures start < stop <= |text|
  {
  }

  lemma FirstBraceUnique(text: string, start: nat, b: nat, c: nat)
    requires FirstBrace(text, start, b) && FirstBrace(text, start, c)
    ensures b == c
  {
  }

  /** `_extract_function_body` cuts `body`, given where its signature ends. */
  ghost predicate CutsBody(text: string, matchEnd: nat, body: string) {
    exists b: nat, stop: nat ::
      FirstBrace(text, matchEnd, b) && Closes(text, b, stop) && b + 1 < stop && body == text[b + 1..stop - 1]
  }

  method ExtractFunctionBody(text: string, matchEnd: nat) returns (r: Result<string>)
    ensures r.Ok? ==> CutsBody(text, matchEnd, r.value)
    ensures r.Err? ==> forall body :: !CutsBody(text, matchEnd, body)
  {
    hide Closes, StillOpen;
    var brace := FindBrace(text, matchEnd);
    if brace.Err? {
      return Err("function body start not found");
    }
    ghost var s := text[brace.value..];
    var depth := 0;
    StartOpen(s);
    for index := brace.value to |text|
      invariant depth == Depth(s[..index - brace.value]) && StillOpen(s, index - brace.value)
    {
      var n := index - brace.value;
      DepthNext(s, n);
      StayOpen(s, n);
      if text[index] == '{' {
        depth := depth + 1;
      } else if text[index] == '}' {
        depth := depth - 1;
        if depth == 0 {
          StopFound(text, brace.value, n);
          assert text[brace.value] == '{';
          return Ok(text[brace.value + 1..index]);
        }
      }
    }
    NoStop(text, brace.value);
    forall b: nat, stop: nat | FirstBrace(text, matchEnd, b) && Closes(text, b, stop) ensures false {
      FirstBraceUnique(text, matchEnd, b, brace.value);
    }
    return Err("function body end not found");
  }

  lemma StartOpen(s: string)
    ensures StillOpen(s, 0)
  {
  }

  lemma StayOpen(s: string, n: nat)
    requires n < |s| && StillOpen(s, n)
    ensures s[n] != '}' || Depth(s[..n + 1]) != 0 ==> StillOpen(s, n + 1)
  {
  }

  /** At most one stop closes a block. */
  lemma ClosesUnique(text: string, start: nat, i: nat, k: nat)
    requires Closes(text, start, i) && Closes(text, start, k)
    ensures i == k
  {
    NoLaterStop(text, start, i, k);
    NoLaterStop(text, start, k, i);
  }

  lemma NoLaterStop(text: string, start: nat, i: nat, k: nat)
    requires Closes(text, start, i)
    ensures i < k ==> !Closes(text, start, k)
  {
    if i < k <= |text| {
      var long, n := text[start..k], i - start;
      assert long[..n] == text[start..i] && long[n - 1] == text[start..i][n - 1];
    }
  }

  /** No prefix closes more braces than it opens. */
  ghost predicate NeverNegative(s: string) {
    forall k | 0 <= k <= |s| :: Depth(s[..k]) >= 0
  }

  /** Inside the outer braces the text is balanced. */
  lemma BodyBalanced(s: string)
    requires Closed(s) && s[0] == '{'
    ensures |s| >= 2 && Depth(s[1..|s| - 1]) == 0 && NeverNegative(s[1..|s| - 1])
  {
    assert |s| >= 2;
    var body := s[1..|s| - 1];
    forall k | 0 <= k <= |body| ensures Depth(body[..k]) >= 0 && Depth(s[..k + 1]) == 1 + Depth(body[..k]) {
      PositiveInside(s, k + 1);
      DepthConcat("{", body[..k]);
      assert s[..k + 1] == "{" + body[..k];
      assert "{"[..0] == "";
    }
    assert body[..|body|] == body && s[..|s|] == s;
    assert Depth(s[..|body| + 1]) == 1 + Depth(body[..|body|]);
    DepthNext(s, |s| - 1);
  }

  lemma {:induction false} PositiveInside(s: string, k: nat)
    requires Closed(s) && s[0] == '{' && 1 <= k < |s|
    ensures Depth(s[..k]) >= 1
  {
    DepthNext(s, k - 1);
    if k == 1 {
      assert s[..0] == "";
    } else {
      PositiveInside(s, k - 1);
    }
  }

  lemma {:induction false} DepthConcat(s: string, t: string)
    ensures Depth(s + t) == Depth(s) + Depth(t)
  {
    if t == "" {
      assert s + t == s;
    } else {
      DepthConcat(s, t[..|t| - 1]);
      assert (s + t)[..|s + t| - 1] == s + t[..|t| - 1];
    }
  }

  // ----- the round trip

  function Concat(pieces: seq<string>): string {
    if pieces == [] then "" else pieces[0] + Concat(pieces[1..])
  }

  /** The pieces that are not empty. */
  function Present(helpers: seq<string>): seq<string> {
    if helpers == [] then [] else (if helpers[0] == "" then [] else [helpers[0]]) + Present(helpers[1..])
  }

  /** `assemble_file`: header, helpers, the function, and the generated entry points. */
  function AssembleFile(header: string, helpers: seq<string>, func: string, entries: string): string {
    Preamble(header, helpers) + (Strip(func) + "\n\n") + entries
  }

  /** What `assemble_file` puts before the function: a blank line unless the last piece is blank. */
  function Preamble(header: string, helpers: seq<string>): string {
    var pieces := [header] + Present(helpers);
    Concat(pieces) + if Strip(pieces[|pieces| - 1]) != "" then "\n" else ""
  }

  /** A block placed in another text, after `sig`, is cut there again: the scan sees nothing after its end. */
  lemma PlacedCut(pre: string, sig: string, inner: string, rest: string, width: nat, body: string)
    requires Closed(inner) && inner[0] == '{' && |inner| >= 2 && width <= |sig| && '{' !in sig
    ensures CutsBody(pre + sig + inner + rest, |pre| + width, body) <==> body == inner[1..|inner| - 1]
  {
    hide Closes, FirstBrace, CutsBody;
    var file, c := pre + sig + inner + rest, |pre| + |sig|;
    PlacedCloses(pre, sig, inner, rest, width);
    CutsBodyOnce(file, |pre| + width, c, c + |inner|, body);
    assert file[c + 1..c + |inner| - 1] == inner[1..|inner| - 1];
  }

  lemma PlacedCloses(pre: string, sig: string, inner: string, rest: string, width: nat)
    requires Closed(inner) && |inner| >= 2 && inner[0] == '{' && width <= |sig| && '{' !in sig
    ensures var file, c := pre + sig + inner + rest, |pre| + |sig|;
            FirstBrace(file, |pre| + width, c) && Closes(file, c, c + |inner|)
  {
    hide Closed;
    var file, c := pre + sig + inner + rest, |pre| + |sig|;
    assert file[c..c + |inner|] == inner;
    assert forall k | |pre| <= k < c :: file[k] == sig[k - |pre|];
  }

  lemma CutsBodyOnce(text: string, matchEnd: nat, b: nat, stop: nat, body: string)
    requires FirstBrace(text, matchEnd, b) && Closes(text, b, stop) && b + 1 < stop <= |text|
    ensures CutsBody(text, matchEnd, body) <==> body == text[b + 1..stop - 1]
  {
    hide Closed;
    if CutsBody(text, matchEnd, body) {
      var b': nat, stop': nat :| FirstBrace(text, matchEnd, b') && Closes(text, b', stop') && b' + 1 < stop'
                                 && body == text[b' + 1..stop' - 1];
      FirstBraceUnique(text, matchEnd, b', b);
      ClosesUnique(text, b, stop', stop);
    }
  }

  lemma Decompose(text: string, matchStart: nat, width: nat, block: string)
    returns (before: string, sig: string, inner: string, rest: string)
    requires CutsFunction(text, matchStart, block) && matchStart + width <= |text|
    requires '{' !in text[matchStart..matchStart + width]
    ensures text == before + sig + inner + rest && block == sig + inner && |before| == matchStart && width <= |sig|
    ensures Closed(inner) && |inner| >= 2 && inner[0] == '{' && '{' !in sig
  {
    var b: nat, stop: nat :| FirstBrace(text, matchStart, b) && Closes(text, b, stop)
      && block == text[matchStart..stop];
    before, sig, inner, rest := text[..matchStart], text[matchStart..b], text[b..stop], text[stop..];
    InSlice(text, matchStart, width, b);
    NoBraceBefore(text, matchStart, b);
    Pieces(text, matchStart, b, stop);
    BodyBalanced(inner);
  }

  lemma Pieces(text: string, i: nat, j: nat, k: nat)
    requires i <= j <= k <= |text|
    ensures text == text[..i] + text[i..j] + text[j..k] + text[k..] && text[i..k] == text[i..j] + text[j..k]
  {
  }

  /**
   The body cut from the assembled file is the body the function has in the suite.  The signature
   is taken to match first at the function, in both texts: at `matchStart`, over `width` characters.
   */
  lemma RoundTrip(text: string, matchStart: nat, width: nat, block: string, header: string, helpers: seq<string>,
                  entries: string, body: string)
    requires CutsFunction(text, matchStart, block) && matchStart + width <= |text|
    requires '{' !in text[matchStart..matchStart + width] && !IsSpace(text[matchStart])
    ensures CutsBody(AssembleFile(header, helpers, Strip(block) + "\n", entries),
                     |Preamble(header, helpers)| + width, body)
            <==> CutsBody(text, matchStart + width, body)
  {
    hide AssembleFile, Preamble, Strip, CutsBody, CutsFunction;
    var before, sig, inner, rest := Decompose(text, matchStart, width, block);
    PlacedCut(before, sig, inner, rest, width, body);
    assert block[0] == text[matchStart] && block[|block| - 1] == inner[|inner| - 1];
    StripKeeps(block);
    Assembled(header, helpers, sig, inner, entries);
    PlacedCut(Preamble(header, helpers), sig, inner, "\n\n" + entries, width, body);
  }

  lemma NoBraceBefore(text: string, start: nat, b: nat)
    requires FirstBrace(text, start, b)
    ensures '{' !in text[start..b]
  {
  }

  lemma InSlice(text: string, from: nat, width: nat, b: nat)
    requires from <= b < |text| && from + width <= |text|
    ensures b < from + width ==> text[b] in text[from..from + width]
  {
    if b < from + width {
      assert text[from..from + width][b - from] == text[b];
    }
  }

  lemma Assembled(header: string, helpers: seq<string>, sig: string, inner: string, entries: string)
    requires Strip(sig + inner + "\n") == sig + inner
    ensures AssembleFile(header, helpers, sig + inner + "\n", entries)
            == Preamble(header, helpers) + sig + inner + ("\n\n" + entries)
  {
  }

  lemma StripKeeps(s: string)
    requires s != "" && !IsSpace(s[0]) && !IsSpace(s[|s| - 1])
    ensures Strip(s) == s && Strip(s + "\n") == s
  {
    assert (s + "\n")[..|s|] == s;
  }
}

/**
 The bump allocator of the emulated runtime: aligned blocks cut from one static array, all of
 them given back at once by a reset.  Addresses are machine words and wrap around.
 */
module Heap {
  import opened Common

  function Pow2(k: nat): (p: nat)
    ensures p > 0
  {
    if k == 0 then 1 else 2 * Pow2(k - 1)
  }

  ghost predicate PowerOfTwo(a: nat) {
    exists k: nat :: a == Pow2(k)
  }

  /** x & ~y, bit by bit. */
  function AndNot(x: nat, y: nat): nat {
    if x == 0 then 0 else 2 * AndNot(x / 2, y / 2) + if x % 2 == 1 && y % 2 == 0 then 1 else 0
  }

  lemma {:induction false} AndNotBounds(x: nat, y: nat)
    ensures AndNot(x, y) <= x <= AndNot(x, y) + y
  {
    if x == 0 {
    } else {
      AndNotBounds(x / 2, y / 2);
    }
  }

  // ----- align_up

  /** A machine: the size of its pointers in bytes, and how many values a word has. */
  datatype Machine = Machine(pointerBytes: nat, words: nat) {
    /** The sum of two words, as the machine computes it. */
    function Plus(x: nat, y: nat): (r: int)
      requires x < words && y < words
      ensures 0 <= r < words
    {
      if x + y < words then x + y else x + y - words
    }

    function Minus(x: nat, y: nat): (r: int)
      requires x < words && y < words
      ensures 0 <= r < words
    {
      if y <= x then x - y else x - y + words
    }

    function AlignUp(value: nat, alignment: nat): (r: nat)
      requires value < words && alignment < words && 0 < pointerBytes <= words
      ensures r < words
    {
      AndNotBounds(Plus(value, (if alignment == 0 then pointerBytes else alignment) - 1),
                   (if alignment == 0 then pointerBytes else alignment) - 1);
      var mask := (if alignment == 0 then pointerBytes else alignment) - 1;
      AndNot(Plus(value, mask), mask)
    }
  }

  /** x with its k lowest bits cleared, and x shifted right by k bits. */
  function Floor(x: nat, k: nat): nat {
    if k == 0 then x else 2 * Floor(x / 2, k - 1)
  }

  function Shifted(x: nat, k: nat): nat {
    if k == 0 then x else Shifted(x / 2, k - 1)
  }

  lemma {:induction false} AndNotZero(x: nat)
    ensures AndNot(x, 0) == x
  {
    if x == 0 {
    } else {
      AndNotZero(x / 2);
    }
  }

  lemma {:induction false} FloorZero(k: nat)
    ensures Floor(0, k) == 0
  {
    if k == 0 {
    } else {
      FloorZero(k - 1);
    }
  }

  /** Clearing the bits of 2^k - 1 clears the k lowest bits. */
  lemma {:induction false} AndNotMask(x: nat, k: nat)
    ensures AndNot(x, Pow2(k) - 1) == Floor(x, k)
  {
    if k == 0 {
      AndNotZero(x);
    } else if x == 0 {
      FloorZero(k);
    } else {
      AndNotMask(x / 2, k - 1);
      assert (2 * Pow2(k - 1) - 1) / 2 == Pow2(k - 1) - 1;
    }
  }

  function Times(q: nat, a: nat): nat {
    q * a
  }

  lemma {:induction false} FloorMultiple(x: nat, k: nat)
    ensures Floor(x, k) == Times(Shifted(x, k), Pow2(k))
    ensures Floor(x, k) <= x < Floor(x, k) + Pow2(k)
  {
    if k > 0 {
      FloorMultiple(x / 2, k - 1);
      TimesDouble(Shifted(x, k), Pow2(k - 1));
      hide Times;
    } else {
      assert Pow2(0) == 1;
    }
  }

  lemma TimesDouble(q: nat, a: nat)
    ensures Times(q, 2 * a) == 2 * Times(q, a)
  {
  }

  ghost predicate Multiple(r: nat, a: nat) {
    exists q: nat :: r == Times(q, a)
  }

  lemma {:induction false} NextMultiple(p: nat, q: nat, a: nat)
    requires p < q
    ensures Times(p, a) + a <= Times(q, a)
    decreases q
  {
    if p + 1 < q {
      NextMultiple(p, q - 1, a);
    }
    assert Times(q, a) == Times(q - 1, a) + a;
  }

  /** The least multiple of a not below v. */
  ghost predicate LeastAligned(r: nat, v: nat, a: nat) {
    v <= r < v + a && Multiple(r, a) && forall x: nat | v <= x && Multiple(x, a) :: r <= x
  }

  /** As long as no address wraps, align_up gives the least aligned address not below its input. */
  lemma AlignUpLeast(m: Machine, v: nat, a: nat)
    requires PowerOfTwo(a) && a < m.words && v + a <= m.words && 0 < m.pointerBytes <= m.words
    ensures LeastAligned(m.AlignUp(v, a), v, a)
  {
    var k: nat :| a == Pow2(k);
    var w := v + a - 1;
    AndNotMask(w, k);
    FloorMultiple(w, k);
    var r := Floor(w, k);
    forall x: nat | v <= x && Multiple(x, a) ensures r <= x {
      var q: nat :| x == Times(q, a);
      if q < Shifted(w, k) {
        NextMultiple(q, Shifted(w, k), a);
      } else if Shifted(w, k) < q {
        NextMultiple(Shifted(w, k), q, a);
      }
    }
  }

  lemma {:induction false} AndNotSelf(x: nat)
    ensures AndNot(x, x) == 0
  {
    if x == 0 {
    } else {
      AndNotSelf(x / 2);
    }
  }

  /** Clearing the bits of a - 1 leaves the lowest bit of a, which is all of a exactly for a power of two. */
  lemma {:induction false} LowestBit(a: nat)
    requires a > 0
    ensures 0 < AndNot(a, a - 1) <= a
    ensures AndNot(a, a - 1) == a <==> PowerOfTwo(a)
  {
    if a % 2 == 1 {
      AndNotSelf(a / 2);
      assert (a - 1) / 2 == a / 2 && a == 2 * (a / 2) + 1;
      assert AndNot(a, a - 1) == 1;
      if PowerOfTwo(a) {
        var k: nat :| a == Pow2(k);
      }
      assert 1 == Pow2(0);
    } else {
      LowestBit(a / 2);
      assert (a - 1) / 2 == a / 2 - 1 && a == 2 * (a / 2);
      HalfPower(a / 2);
    }
  }

  lemma HalfPower(a: nat)
    requires a > 0
    ensures PowerOfTwo(2 * a) <==> PowerOfTwo(a)
  {
    if PowerOfTwo(a) {
      var k: nat :| a == Pow2(k);
      assert 2 * a == Pow2(k + 1);
    }
    if PowerOfTwo(2 * a) {
      var k: nat :| 2 * a == Pow2(k);
      assert a == Pow2(k - 1);
    }
  }

  /**
   align_up gives the least aligned address for every address that does not wrap exactly when the
   alignment is a power of two.
   */
  lemma AlignUpExact(m: Machine, a: nat)
    requires 0 < a && a + 1 <= m.words && 0 < m.pointerBytes <= m.words
    ensures (forall v: nat | v + a <= m.words :: LeastAligned(m.AlignUp(v, a), v, a)) <==> PowerOfTwo(a)
  {
    if PowerOfTwo(a) {
      forall v: nat | v + a <= m.words ensures LeastAligned(m.AlignUp(v, a), v, a) {
        AlignUpLeast(m, v, a);
      }
    } else {
      LowestBit(a);
      var low := AndNot(a, a - 1);
      assert 0 < low < a;
      if Multiple(low, a) {
        var q: nat :| low == Times(q, a);
        TimesZero(a);
        NextMultiple(0, q, a);
      }
      assert a > 1 && m.AlignUp(1, a) == low;
      assert !LeastAligned(m.AlignUp(1, a), 1, a);
    }
  }

  lemma TimesZero(a: nat)
    ensures Times(0, a) == 0
  {
  }

  // ----- the allocator

  datatype Block = Block(start: nat, size: nat, alignment: nat)

  /**
   `blocks` lie in base..limit one after the other, and so are pairwise disjoint, and are aligned
   to powers of two.
   */
  ghost predicate Carved(blocks: seq<Block>, base: nat, limit: nat) {
    (forall i | 0 <= i < |blocks| ::
       base <= blocks[i].start && blocks[i].start + blocks[i].size <= limit
       && (PowerOfTwo(blocks[i].alignment) ==> Multiple(blocks[i].start, blocks[i].alignment)))
    && forall i, k | 0 <= i < k < |blocks| :: blocks[i].start + blocks[i].size <= blocks[k].start
  }

  /** A heap: the machine, and the address and size of the static array. */
  datatype Arena = Arena(machine: Machine, base: nat, capacity: nat) {
    ghost predicate Valid() {
      PowerOfTwo(machine.pointerBytes) && 0 < machine.pointerBytes < machine.words && base + capacity < machine.words
    }
  }

  /** The allocation offset, and the blocks handed out since the last reset. */
  datatype State = State(offset: nat, blocks: seq<Block>)

  datatype Call = Memalign(alignment: nat, size: nat) | Reset

  /** The arguments of a call are words. */
  predicate Words(h: Arena, c: Call) {
    c.Memalign? ==> c.alignment < h.machine.words && c.size < h.machine.words
  }

  function End(h: Arena, blocks: seq<Block>): nat {
    if blocks == [] then h.base else blocks[|blocks| - 1].start + blocks[|blocks| - 1].size
  }

  /** The blocks are carved out of the heap, and the next one starts behind the last. */
  ghost predicate Safe(h: Arena, s: State) {
    Carved(s.blocks, h.base, h.base + h.capacity) && h.base + s.offset == End(h, s.blocks)
  }

  function Effective(h: Arena, alignment: nat): nat {
    if alignment == 0 then h.machine.pointerBytes else alignment
  }

  /** One call: the new state, and the address returned. */
  function Step(h: Arena, s: State, c: Call): (r: (State, Option<nat>))
    requires h.Valid() && s.offset <= h.capacity && Words(h, c)
    ensures r.0.offset <= h.capacity
  {
    match c
    case Reset => (State(0, []), None)
    case Memalign(alignment, size) =>
      var aligned := h.machine.AlignUp(h.base + s.offset, alignment);
      var nextOffset := h.machine.Plus(h.machine.Minus(aligned, h.base), size);
      if nextOffset > h.capacity then (s, None)
      else (State(nextOffset, s.blocks + [Block(aligned, size, Effective(h, alignment))]), Some(aligned))
  }

  /** Aligning the address, or adding the size to the aligned offset, passes the last word. */
  predicate Wraps(h: Arena, s: State, c: Call)
    requires h.Valid() && s.offset <= h.capacity && Words(h, c)
  {
    c.Memalign?
    && (h.base + s.offset + Effective(h, c.alignment) > h.machine.words
        || h.machine.AlignUp(h.base + s.offset, c.alignment) + c.size >= h.base + h.machine.words)
  }

  /** An address wraps, and the wrapped offset passes the test for room. */
  predicate Overrun(h: Arena, s: State, c: Call)
    requires h.Valid() && s.offset <= h.capacity && Words(h, c)
  {
    Wraps(h, s, c)
    && h.machine.Plus(h.machine.Minus(h.machine.AlignUp(h.base + s.offset, c.alignment), h.base), c.size) <= h.capacity
  }

  /**
   A call keeps all blocks in the heap, disjoint and aligned exactly when it is refused or no
   address wraps; without a wrap it is granted exactly when the aligned block fits, and a
   refusal changes nothing.
   */
  lemma StepExact(h: Arena, s: State, c: Call)
    requires h.Valid() && Safe(h, s) && s.offset <= h.capacity && Words(h, c)
    ensures Safe(h, Step(h, s, c).0) <==> !Overrun(h, s, c)
    ensures c.Reset? ==> Step(h, s, c) == (State(0, []), None)
    ensures c.Memalign? ==>
              var r := h.machine.AlignUp(h.base + s.offset, c.alignment);
              var a := if c.alignment == 0 then h.machine.pointerBytes else c.alignment;
              (Step(h, s, c).1 == None ==> Step(h, s, c).0 == s)
              && (!Wraps(h, s, c) ==>
                    Step(h, s, c).1 == (if r + c.size <= h.base + h.capacity then Some(r) else None)
                    && (PowerOfTwo(a) ==> LeastAligned(r, h.base + s.offset, a)))
  {
    if c.Memalign? {
      hide Safe, Machine.AlignUp, Machine.Plus, Machine.Minus, Wraps, Overrun, Step, LeastAligned;
      AlignUpBounds(h, h.base + s.offset, c.alignment);
      StepIs(h, s, c.alignment, c.size);
      StepSafety(h, s, c.alignment, c.size);
    }
  }

  lemma StepSafety(h: Arena, s: State, alignment: nat, size: nat)
    requires h.Valid() && Safe(h, s) && s.offset <= h.capacity && Words(h, Memalign(alignment, size))
    ensures var c := Memalign(alignment, size); Safe(h, Step(h, s, c).0) <==> !Overrun(h, s, c)
    ensures var a, v := Effective(h, alignment), h.base + s.offset;
            v + a <= h.machine.words && PowerOfTwo(a) ==> LeastAligned(h.machine.AlignUp(v, alignment), v, a)
  {
    hide PowerOfTwo, Multiple, Carved, Machine.AlignUp, Machine.Plus, Machine.Minus, Wraps, Overrun, Step,
         LeastAligned, End;
    var a, v := Effective(h, alignment), h.base + s.offset;
    var r := h.machine.AlignUp(v, alignment);
    AlignUpBounds(h, v, alignment);
    StepIs(h, s, alignment, size);
    if v + a > h.machine.words {
      CarveNone(h, s, Block(r, size, a));
    } else {
      if PowerOfTwo(a) {
        AlignUpLeast(h.machine, v, a);
        LeastMultiple(r, v, a);
      }
      CarveOne(h, s, Block(r, size, a));
    }
  }

  /** A call in terms of the aligned address r. */
  lemma StepIs(h: Arena, s: State, alignment: nat, size: nat)
    requires h.Valid() && s.offset <= h.capacity && Words(h, Memalign(alignment, size))
    ensures var c, r := Memalign(alignment, size), h.machine.AlignUp(h.base + s.offset, alignment);
            var wraps, (s1, p) := Wraps(h, s, c), Step(h, s, c);
            (p.Some? ==> p.value == r && s1.blocks == s.blocks + [Block(r, size, Effective(h, alignment))])
            && (p == None ==> s1 == s)
            && (wraps <==> h.base + s.offset + Effective(h, alignment) > h.machine.words
                           || r + size >= h.base + h.machine.words)
            && (Overrun(h, s, c) <==> wraps && p.Some?)
            && (!wraps && h.base <= r ==>
                  (p.Some? <==> r + size <= h.base + h.capacity) && (p.Some? ==> h.base + s1.offset == r + size))
  {
    hide Machine.AlignUp;
  }

  /** Without a wrap the aligned address is not below the address; with one, it is. */
  lemma AlignUpBounds(h: Arena, v: nat, alignment: nat)
    requires h.Valid() && v < h.machine.words && alignment < h.machine.words
    ensures var r := h.machine.AlignUp(v, alignment);
            if v + Effective(h, alignment) <= h.machine.words then v <= r else r < v
    ensures h.machine.AlignUp(v, alignment) == h.machine.AlignUp(v, Effective(h, alignment))
  {
    var mask := Effective(h, alignment) - 1;
    AndNotBounds(h.machine.Plus(v, mask), mask);
  }

  lemma LeastMultiple(r: nat, v: nat, a: nat)
    ensures LeastAligned(r, v, a) ==> Multiple(r, a)
  {
  }

  /** A further block that starts ahead of the next free address is outside the heap or overlaps. */
  lemma CarveNone(h: Arena, s: State, b: Block)
    requires Safe(h, s) && b.start < h.base + s.offset
    ensures !Carved(s.blocks + [b], h.base, h.base + h.capacity)
  {
    hide Multiple, PowerOfTwo;
    var all, n := s.blocks + [b], |s.blocks|;
    assert all[n] == b;
    if n > 0 {
      assert all[n - 1] == s.blocks[n - 1];
    }
  }

  /** A further block behind the last one keeps the heap carved exactly when it ends inside the heap. */
  lemma CarveOne(h: Arena, s: State, b: Block)
    requires Safe(h, s) && s.offset <= h.capacity
    requires h.base + s.offset <= b.start && (PowerOfTwo(b.alignment) ==> Multiple(b.start, b.alignment))
    ensures Carved(s.blocks + [b], h.base, h.base + h.capacity) <==> b.start + b.size <= h.base + h.capacity
    ensures End(h, s.blocks + [b]) == b.start + b.size
  {
    hide Multiple, PowerOfTwo;
    var all, n := s.blocks + [b], |s.blocks|;
    assert all[n] == b;
    if b.start + b.size <= h.base + h.capacity {
      forall i, k | 0 <= i < k < |all| ensures all[i].start + all[i].size <= all[k].start {
        BehindAll(h, s, i);
      }
    }
  }

  /** Every block ends at or before the next free address. */
  lemma BehindAll(h: Arena, s: State, i: nat)
    requires Safe(h, s) && i < |s.blocks|
    ensures s.blocks[i].start + s.blocks[i].size <= h.base + s.offset
  {
    hide Multiple, PowerOfTwo;
    if i == |s.blocks| - 1 {
    } else {
      assert s.blocks[i].start + s.blocks[i].size <= s.blocks[|s.blocks| - 1].start;
    }
  }

  function Run(h: Arena, s: State, calls: seq<Call>): (r: State)
    requires h.Valid() && s.offset <= h.capacity && forall c | c in calls :: Words(h, c)
    ensures r.offset <= h.capacity
    decreases |calls|
  {
    if calls == [] then s else Run(h, Step(h, s, calls[0]).0, calls[1..])
  }

  /** No call of the run is granted although an address wraps. */
  ghost predicate NoOverrun(h: Arena, s: State, calls: seq<Call>)
    requires h.Valid() && s.offset <= h.capacity && forall c | c in calls :: Words(h, c)
    decreases |calls|
  {
    calls == [] || (!Overrun(h, s, calls[0]) && NoOverrun(h, Step(h, s, calls[0]).0, calls[1..]))
  }

  ghost predicate SafeAfter(h: Arena, s: State, calls: seq<Call>, n: nat)
    requires h.Valid() && s.offset <= h.capacity && (forall c | c in calls :: Words(h, c)) && n <= |calls|
  {
    Safe(h, Run(h, s, calls[..n]))
  }

  /** Over every run the heap stays safe throughout exactly when no call overruns. */
  lemma {:induction false} RunExact(h: Arena, s: State, calls: seq<Call>)
    requires h.Valid() && Safe(h, s) && s.offset <= h.capacity && forall c | c in calls :: Words(h, c)
    ensures (forall n: nat | n <= |calls| :: SafeAfter(h, s, calls, n)) <==> NoOverrun(h, s, calls)
    decreases |calls|
  {
    hide Safe, Overrun, Step, Words;
    if calls == [] {
      assert calls[..0] == [];
    } else {
      var s1, rest := Step(h, s, calls[0]).0, calls[1..];
      StepExact(h, s, calls[0]);
      assert calls[..0] == [] && SafeAfter(h, s, calls, 0);
      forall n: nat | n < |calls| ensures SafeAfter(h, s, calls, n + 1) <==> SafeAfter(h, s1, rest, n) {
        assert calls[..n + 1][1..] == rest[..n];
      }
      assert SafeAfter(h, s1, rest, 0) <==> Safe(h, s1) by {
        assert rest[..0] == [];
      }
      if Safe(h, s1) {
        RunExact(h, s1, rest);
        assert (forall n: nat | n <= |rest| :: SafeAfter(h, s1, rest, n)) ==>
               forall n: nat | 0 < n <= |calls| :: SafeAfter(h, s, calls, n) by {
          forall n: nat | 0 < n <= |calls| && forall k: nat | k <= |rest| :: SafeAfter(h, s1, rest, k)
            ensures SafeAfter(h, s, calls, n)
          {
            assert SafeAfter(h, s1, rest, n - 1);
          }
        }
      } else {
        assert !SafeAfter(h, s, calls, 1);
      }
    }
  }

  ghost predicate Covers(b: Block, address: int) {
    b.start <= address < b.start + b.size
  }

  /**
   After a run without overruns, blocks handed out since the last reset are in the heap, aligned,
   and share no byte.
   */
  lemma RunDisjoint(h: Arena, calls: seq<Call>, i: nat, k: nat, address: int)
    requires h.Valid() && (forall c | c in calls :: Words(h, c)) && NoOverrun(h, State(0, []), calls)
    ensures var blocks := Run(h, State(0, []), calls).blocks;
            i < |blocks| && Covers(blocks[i], address) ==>
              (PowerOfTwo(blocks[i].alignment) ==> Multiple(blocks[i].start, blocks[i].alignment))
              && h.base <= address < h.base + h.capacity
              && (k < |blocks| && i != k ==> !Covers(blocks[k], address))
  {
    hide Run, NoOverrun, Multiple, PowerOfTwo;
    var s := State(0, []);
    assert Safe(h, s);
    RunExact(h, s, calls);
    assert SafeAfter(h, s, calls, |calls|);
    assert calls[..|calls|] == calls;
  }

  /**
   A request that leaves room for its alignment and size between the next free address and the last
   word never wraps.
   */
  lemma NeverWraps(h: Arena, s: State, c: Call)
    requires h.Valid() && s.offset <= h.capacity && c.Memalign? && Words(h, c)
    requires h.base + s.offset + Effective(h, c.alignment) + c.size <= h.machine.words
    ensures !Wraps(h, s, c)
  {
    var mask := Effective(h, c.alignment) - 1;
    AndNotBounds(h.machine.Plus(h.base + s.offset, mask), mask);
  }

  /** The end of the heap, the alignment and the size together are below the last word. */
  predicate Roomy(h: Arena, c: Call) {
    c.Memalign? ==> h.base + h.capacity + Effective(h, c.alignment) + c.size <= h.machine.words
  }

  /** What a caller can check ahead: a run of such requests never overruns, so the heap stays safe throughout. */
  lemma RoomyRun(h: Arena, calls: seq<Call>)
    requires h.Valid() && forall c | c in calls :: Words(h, c) && Roomy(h, c)
    ensures NoOverrun(h, State(0, []), calls)
    ensures forall n: nat | n <= |calls| :: SafeAfter(h, State(0, []), calls, n)
  {
    assert Safe(h, State(0, []));
    RoomyNoOverrun(h, State(0, []), calls);
    RunExact(h, State(0, []), calls);
  }

  lemma {:induction false} RoomyNoOverrun(h: Arena, s: State, calls: seq<Call>)
    requires h.Valid() && s.offset <= h.capacity && forall c | c in calls :: Words(h, c) && Roomy(h, c)
    ensures NoOverrun(h, s, calls)
    decreases |calls|
  {
    if calls == [] {
    } else {
      hide Step, Wraps;
      var c := calls[0];
      assert c in calls;
      if c.Memalign? {
        NeverWraps(h, s, c);
      } else {
        ResetNoOverrun(h, s);
      }
      RoomyNoOverrun(h, Step(h, s, c).0, calls[1..]);
    }
  }

  lemma ResetNoOverrun(h: Arena, s: State)
    requires h.Valid() && s.offset <= h.capacity
    ensures !Overrun(h, s, Call.Reset)
  {
  }

  /** One that asks for all words but those in use is granted, its end wrapping around to the start of the heap. */
  lemma WrappedRequest(h: Arena, s: State)
    requires h.Valid() && Safe(h, s) && 0 < s.offset <= h.capacity
    ensures var c := Memalign(1, h.machine.words - s.offset);
            Words(h, c) && Step(h, s, c).1 == Some(h.base + s.offset) && Step(h, s, c).0.offset == 0
            && !Safe(h, Step(h, s, c).0)
  {
    var c := Memalign(1, h.machine.words - s.offset);
    AndNotZero(h.base + s.offset);
    hide Safe;
    StepExact(h, s, c);
  }

  class BumpHeap {
    const arena: Arena
    var offset: nat
    ghost var blocks: seq<Block>

    ghost function Contents(): State
      reads this
    {
      State(offset, blocks)
    }

    constructor (arena: Arena)
      requires arena.Valid()
      ensures this.arena == arena && Contents() == State(0, []) && Safe(arena, Contents())
    {
      this.arena := arena;
      offset := 0;
      blocks := [];
    }

    method Reset()
      requires arena.Valid() && offset <= arena.capacity
      modifies this
      ensures offset <= arena.capacity && Contents() == State(0, []) && Safe(arena, Contents())
      ensures Contents() == Step(arena, old(Contents()), Call.Reset).0
    {
      offset := 0;
      blocks := [];
    }

    method Memalign(alignment: nat, size: nat) returns (p: Option<nat>)
      requires arena.Valid() && offset <= arena.capacity && Words(arena, Call.Memalign(alignment, size))
      modifies this
      ensures offset <= arena.capacity
      ensures (Contents(), p) == Step(arena, old(Contents()), Call.Memalign(alignment, size))
      ensures old(Safe(arena, Contents())) ==>
                (Safe(arena, Contents()) <==> !old(Overrun(arena, Contents(), Call.Memalign(alignment, size))))
    {
      hide Safe, Overrun, AndNot;
      if Safe(arena, Contents()) {
        StepExact(arena, Contents(), Call.Memalign(alignment, size));
      }
      var start := arena.base + offset;
      var aligned := arena.machine.AlignUp(start, alignment);
      var nextOffset := arena.machine.Plus(arena.machine.Minus(aligned, arena.base), size);
      if nextOffset > arena.capacity {
        return None;
      }
      offset := nextOffset;
      blocks := blocks + [Block(aligned, size, Effective(arena, alignment))];
      p := Some(aligned);
    }
  }

  // ----- init

  /** The static heap of the runtime for arrays of `length` 4-byte elements. */
  function TsvcHeapBytes(length: nat): nat {
    2 * length * (4 + 4) + 1024
  }

  /** The two vectors `init` asks for, 64-byte aligned, always fit a fresh heap, for every array length. */
  lemma InitFits(h: Arena, length: nat)
    requires h.Valid() && h.capacity == TsvcHeapBytes(length) && Multiple(h.base, 64)
    ensures PowerOfTwo(64)
    ensures var c := Memalign(64, length * 4);
            Words(h, c)
            && var (s1, p1) := Step(h, State(0, []), c);
               p1 == Some(h.base) && Safe(h, s1)
               && var (s2, p2) := Step(h, s1, c);
                  p2.Some? && h.base + 4 * length <= p2.value < h.base + 4 * length + 64 && Safe(h, s2)
  {
    assert 64 == Pow2(6);
    var c, s := Memalign(64, length * 4), State(0, []);
    assert Safe(h, s);
    InitCall(h, s, length);
    hide Carved, AndNot, Multiple;
    var s1 := Step(h, s, c).0;
    InitCall(h, s1, length);
  }

  /** One request of `init` with room left for it and its alignment. */
  lemma InitCall(h: Arena, s: State, length: nat)
    requires h.Valid() && Safe(h, s) && PowerOfTwo(64) && s.offset + 64 + 4 * length <= h.capacity
    ensures var c := Memalign(64, length * 4);
            Words(h, c)
            && var (s1, p) := Step(h, s, c);
               p.Some? && LeastAligned(p.value, h.base + s.offset, 64) && Safe(h, s1)
               && h.base + s1.offset == p.value + 4 * length
  {
    var c := Memalign(64, length * 4);
    var r := h.machine.AlignUp(h.base + s.offset, 64);
    AlignUpLeast(h.machine, h.base + s.offset, 64);
    NeverWraps(h, s, c);
    hide AndNot, Carved, Multiple;
    StepExact(h, s, c);
  }
}

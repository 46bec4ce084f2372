/**
 The placement of plot labels: desired rows are clamped to the plot, pushed apart, and moved as
 a whole until they fit, as far as that goes.
 */
module Labels {

  function Max(x: real, y: real): real {
    if x < y then y else x
  }

  function Min(x: real, y: real): real {
    if y < x then y else x
  }

  function Clamped(ys: seq<real>, minY: real, maxY: real): (c: seq<real>)
    ensures |c| == |ys| && forall i | 0 <= i < |ys| :: c[i] == Min(Max(ys[i], minY), maxY)
  {
    seq(|ys|, i requires 0 <= i < |ys| => Min(Max(ys[i], minY), maxY))
  }

  /** The rows pushed apart from the top: each at its own place or `gap` below its predecessor. */
  function Pushed(c: seq<real>, gap: real): (f: seq<real>)
    ensures |f| == |c|
  {
    if |c| <= 1 then c else
    var front := Pushed(c[..|c| - 1], gap);
    front + [Max(c[|c| - 1], front[|front| - 1] + gap)]
  }

  ghost predicate Spaced(s: seq<real>, gap: real) {
    forall i | 0 < i < |s| :: s[i] >= s[i - 1] + gap
  }

  /** How far the pushed rows are lowered in the end. */
  function Shift(f: seq<real>, minY: real, maxY: real): real
    requires f != []
  {
    var over := Max(0.0, f[|f| - 1] - maxY);
    over - Max(0.0, minY - (f[0] - over))
  }

  function Placed(ys: seq<real>, minY: real, maxY: real, gap: real): (s: seq<real>)
    requires ys != []
    ensures |s| == |ys|
  {
    var f := Pushed(Clamped(ys, minY, maxY), gap);
    seq(|f|, i requires 0 <= i < |f| => f[i] - Shift(f, minY, maxY))
  }

  function Rows(desired: seq<(string, real)>): (ys: seq<real>)
    ensures |ys| == |desired| && forall i | 0 <= i < |ys| :: ys[i] == desired[i].1
  {
    seq(|desired|, i requires 0 <= i < |desired| => desired[i].1)
  }

  /** The second and fourth pass: every row moves by the same amount. */
  method ShiftAll(row: array<real>, delta: real)
    modifies row
    ensures forall k | 0 <= k < row.Length :: row[k] == old(row[k]) + delta
  {
    for i := 0 to row.Length
      invariant forall k | 0 <= k < row.Length :: row[k] == if k < i then old(row[k]) + delta else old(row[k])
    {
      row[i] := row[i] + delta;
    }
  }

  /** The four passes over the rows.  The third, which pulls rows up from the bottom, never changes one. */
  method PlaceRows(ys: seq<real>, minY: real, maxY: real, gap: real) returns (s: seq<real>)
    requires ys != []
    ensures s == Placed(ys, minY, maxY, gap)
  {
    hide Pushed, Clamped, Placed, Spaced;
    var n := |ys|;
    var row := new real[n];
    ghost var c := Clamped(ys, minY, maxY);
    ghost var f := Pushed(c, gap);
    for i := 0 to n
      invariant forall k | 0 <= k < i :: row[k] == c[k]
    {
      row[i] := Min(Max(ys[i], minY), maxY);
    }
    PushedStart(c, gap);
    for i := 1 to n
      invariant forall k | 0 <= k < i :: row[k] == f[k]
      invariant forall k | i <= k < n :: row[k] == c[k]
    {
      PushedNext(c, gap, i);
      row[i] := Max(row[i], row[i - 1] + gap);
    }
    var overflow := row[n - 1] - maxY;
    ghost var over := Max(0.0, overflow);
    if overflow > 0.0 {
      ShiftAll(row, -overflow);
    }
    PushedSpaced(c, gap);
    var j := n - 2;
    while j >= 0
      invariant -1 <= j <= n - 2
      invariant forall k | 0 <= k < n :: row[k] == f[k] - over
    {
      PullUpIdle(f, gap, over, j);
      row[j] := Min(row[j], row[j + 1] - gap);
      j := j - 1;
    }
    var underflow := minY - row[0];
    if underflow > 0.0 {
      ShiftAll(row, underflow);
    }
    s := row[..];
    PlacedIs(ys, minY, maxY, gap, s);
  }

  lemma PlacedIs(ys: seq<real>, minY: real, maxY: real, gap: real, s: seq<real>)
    requires ys != [] && |s| == |ys|
    requires var f := Pushed(Clamped(ys, minY, maxY), gap);
             forall k | 0 <= k < |s| :: s[k] == f[k] - Shift(f, minY, maxY)
    ensures s == Placed(ys, minY, maxY, gap)
  {
  }

  method PlaceLabelRows(desired: seq<(string, real)>, minY: real, maxY: real, gap: real)
    returns (placed: seq<(string, real)>)
    ensures |placed| == |desired| && forall i | 0 <= i < |desired| :: placed[i].0 == desired[i].0
    ensures desired != [] ==> Rows(placed) == Placed(Rows(desired), minY, maxY, gap)
  {
    if desired == [] {
      return [];
    }
    var rows := PlaceRows(Rows(desired), minY, maxY, gap);
    placed := seq(|desired|, i requires 0 <= i < |desired| => (desired[i].0, rows[i]));
    assert Rows(placed) == rows;
  }

  /** A row already `gap` above its successor stays. */
  lemma PullUpIdle(f: seq<real>, gap: real, over: real, j: nat)
    requires Spaced(f, gap) && j + 1 < |f|
    ensures Min(f[j] - over, (f[j + 1] - over) - gap) == f[j] - over
  {
  }

  lemma PushedStart(c: seq<real>, gap: real)
    requires c != []
    ensures Pushed(c, gap)[0] == c[0]
  {
    PushedPrefix(c, gap, 1);
  }

  lemma {:induction false} PushedPrefix(c: seq<real>, gap: real, k: nat)
    requires k <= |c|
    ensures Pushed(c[..k], gap) == Pushed(c, gap)[..k]
  {
    if k < |c| {
      assert c[..|c| - 1][..k] == c[..k];
      PushedPrefix(c[..|c| - 1], gap, k);
      if |c| == 1 {
        assert k == 0;
      }
    } else {
      assert c[..k] == c;
    }
  }

  lemma PushedNext(c: seq<real>, gap: real, i: nat)
    requires 0 < i < |c|
    ensures Pushed(c, gap)[i] == Max(c[i], Pushed(c, gap)[i - 1] + gap)
  {
    PushedPrefix(c, gap, i + 1);
    PushedPrefix(c, gap, i);
    assert c[..i + 1][..i] == c[..i];
    assert Pushed(c, gap)[i] == Pushed(c, gap)[..i + 1][i];
    assert Pushed(c, gap)[i - 1] == Pushed(c, gap)[..i][i - 1];
  }

  lemma PushedSpaced(c: seq<real>, gap: real)
    ensures Spaced(Pushed(c, gap), gap)
  {
    forall i | 0 < i < |c| ensures Pushed(c, gap)[i] >= Pushed(c, gap)[i - 1] + gap {
      PushedNext(c, gap, i);
    }
  }

  // ----- what the placement guarantees

  /** The pushed rows are spaced, at or below their wish, and the least such rows. */
  lemma PushedLeast(c: seq<real>, gap: real, s: seq<real>)
    requires |s| == |c| && Spaced(s, gap) && forall i | 0 <= i < |c| :: s[i] >= c[i]
    ensures Spaced(Pushed(c, gap), gap) && forall i | 0 <= i < |c| :: c[i] <= Pushed(c, gap)[i] <= s[i]
  {
    PushedSpaced(c, gap);
    forall i | 0 <= i < |c| ensures c[i] <= Pushed(c, gap)[i] <= s[i] {
      LeastAt(c, gap, s, i);
    }
  }

  lemma {:induction false} LeastAt(c: seq<real>, gap: real, s: seq<real>, i: nat)
    requires |s| == |c| && Spaced(s, gap) && (forall k | 0 <= k < |c| :: s[k] >= c[k]) && i < |c|
    ensures c[i] <= Pushed(c, gap)[i] <= s[i]
  {
    if i == 0 {
      PushedStart(c, gap);
    } else {
      LeastAt(c, gap, s, i - 1);
      PushedNext(c, gap, i);
    }
  }

  /** A pushed row is the furthest any earlier wish, with a gap for every row between, pushes it. */
  lemma {:induction false} PushedClosed(c: seq<real>, gap: real, i: nat)
    requires i < |c|
    ensures forall k | 0 <= k <= i :: Pushed(c, gap)[i] >= c[k] + Gaps(i - k, gap)
    ensures exists k | 0 <= k <= i :: Pushed(c, gap)[i] == c[k] + Gaps(i - k, gap)
  {
    hide Gaps, Pushed;
    OneMoreGap(0, gap);
    if i == 0 {
      PushedStart(c, gap);
      assert Pushed(c, gap)[0] == c[0] + Gaps(0, gap);
    } else {
      PushedClosed(c, gap, i - 1);
      PushedNext(c, gap, i);
      forall k | 0 <= k <= i ensures Pushed(c, gap)[i] >= c[k] + Gaps(i - k, gap) {
        if k < i {
          OneMoreGap(i - 1 - k, gap);
        }
      }
      if Pushed(c, gap)[i] == c[i] {
        assert Pushed(c, gap)[i] == c[i] + Gaps(0, gap);
      } else {
        var k :| 0 <= k <= i - 1 && Pushed(c, gap)[i - 1] == c[k] + Gaps(i - 1 - k, gap);
        OneMoreGap(i - 1 - k, gap);
        assert Pushed(c, gap)[i] == c[k] + Gaps(i - k, gap);
      }
    }
  }

  /** The height of `n` gaps. */
  function Gaps(n: nat, gap: real): real {
    n as real * gap
  }

  lemma OneMoreGap(n: nat, gap: real)
    ensures Gaps(n + 1, gap) == Gaps(n, gap) + gap && Gaps(0, gap) == 0.0
  {
  }

  ghost predicate Within(s: seq<real>, minY: real, maxY: real) {
    forall i | 0 <= i < |s| :: minY <= s[i] <= maxY
  }

  /** Whatever the arguments, neighbouring labels end at least `gap` apart. */
  lemma PlacedSpaced(ys: seq<real>, minY: real, maxY: real, gap: real)
    requires ys != []
    ensures Spaced(Placed(ys, minY, maxY, gap), gap)
  {
    PushedSpaced(Clamped(ys, minY, maxY), gap);
  }

  /** On a sane plot the rows are lowered by the overflow, but never past the top. */
  lemma ShiftClosed(ys: seq<real>, minY: real, maxY: real, gap: real)
    requires ys != [] && minY <= maxY
    ensures var f := Pushed(Clamped(ys, minY, maxY), gap);
            Shift(f, minY, maxY) == Max(0.0, Min(f[|f| - 1] - maxY, f[0] - minY))
  {
    PushedStart(Clamped(ys, minY, maxY), gap);
  }

  /** A wish inside the plot is kept, and one outside moves to the nearer edge. */
  lemma ClampedIs(ys: seq<real>, minY: real, maxY: real, i: nat)
    requires i < |ys| && minY <= maxY
    ensures var w := Clamped(ys, minY, maxY)[i];
            minY <= w <= maxY && (minY <= ys[i] <= maxY ==> w == ys[i])
            && (ys[i] < minY ==> w == minY) && (ys[i] > maxY ==> w == maxY)
  {
  }

  /** Labels that have room where they want to be stay there. */
  lemma WishesKept(ys: seq<real>, minY: real, maxY: real, gap: real)
    requires ys != [] && Spaced(ys, gap) && Within(ys, minY, maxY)
    ensures Placed(ys, minY, maxY, gap) == ys
  {
    hide Pushed, Clamped, Gaps;
    var c := Clamped(ys, minY, maxY);
    forall i | 0 <= i < |ys| ensures c[i] == ys[i] {
      ClampedIs(ys, minY, maxY, i);
    }
    assert c == ys;
    PushedLeast(c, gap, ys);
    assert Pushed(c, gap) == ys;
    assert minY <= ys[0] && ys[|ys| - 1] <= maxY;
    assert Shift(ys, minY, maxY) == 0.0;
  }

  lemma {:induction false} Increasing(s: seq<real>, gap: real, i: nat, k: nat)
    requires Spaced(s, gap) && gap >= 0.0 && i <= k < |s|
    ensures s[i] <= s[k]
  {
    if i < k {
      Increasing(s, gap, i, k - 1);
    }
  }

  /**
   The labels end inside the plot exactly when no wish, with a gap for every label after it,
   is further below the first wish than the plot is high.
   */
  lemma FitsExactlyWhen(ys: seq<real>, minY: real, maxY: real, gap: real)
    requires ys != [] && minY <= maxY && gap >= 0.0
    ensures var n, c := |ys|, Clamped(ys, minY, maxY);
            Within(Placed(ys, minY, maxY, gap), minY, maxY)
            <==> forall k | 0 <= k < n :: c[k] + Gaps(n - 1 - k, gap) - c[0] <= maxY - minY
  {
    hide Gaps, Pushed, Clamped;
    var n, c := |ys|, Clamped(ys, minY, maxY);
    var f, p := Pushed(c, gap), Placed(ys, minY, maxY, gap);
    PushedStart(c, gap);
    PushedSpaced(c, gap);
    PushedClosed(c, gap, n - 1);
    ShiftClosed(ys, minY, maxY, gap);
    forall i | 0 <= i < n ensures f[0] <= f[i] <= f[n - 1] {
      Increasing(f, gap, 0, i);
      Increasing(f, gap, i, n - 1);
    }
    assert Within(p, minY, maxY) <==> f[n - 1] - f[0] <= maxY - minY by {
      assert p[0] == f[0] - Shift(f, minY, maxY) && p[n - 1] == f[n - 1] - Shift(f, minY, maxY);
    }
  }

  /** There is room for the labels at all exactly when the gaps alone fit. */
  lemma RoomExactlyWhen(n: nat, minY: real, maxY: real, gap: real)
    requires n > 0 && minY <= maxY && gap >= 0.0
    ensures (exists s: seq<real> :: |s| == n && Spaced(s, gap) && Within(s, minY, maxY))
            <==> Gaps(n - 1, gap) <= maxY - minY
  {
    hide Gaps, Pushed;
    if s: seq<real> :| |s| == n && Spaced(s, gap) && Within(s, minY, maxY) {
      PushedLeast(s, gap, s);
      PushedClosed(s, gap, n - 1);
      assert Pushed(s, gap)[n - 1] >= s[0] + Gaps(n - 1, gap);
    }
    if Gaps(n - 1, gap) <= maxY - minY {
      var s := seq(n, i requires 0 <= i < n => minY + Gaps(i, gap));
      forall i | 0 < i < n ensures s[i] >= s[i - 1] + gap {
        OneMoreGap(i - 1, gap);
      }
      OneMoreGap(0, gap);
      assert s[0] == minY && s[n - 1] <= maxY;
      forall i | 0 <= i < n ensures minY <= s[i] <= maxY {
        Increasing(s, gap, 0, i);
        Increasing(s, gap, i, n - 1);
      }
    }
  }

  /** Labels may leave the plot although there is room: wishes 0, 10, 10 on [0, 10] with gap 2 end at 12. */
  lemma RoomIsNotEnough()
    ensures Gaps(2, 2.0) <= 10.0 - 0.0
    ensures Placed([0.0, 10.0, 10.0], 0.0, 10.0, 2.0) == [0.0, 10.0, 12.0]
  {
    var c := Clamped([0.0, 10.0, 10.0], 0.0, 10.0);
    assert c == [0.0, 10.0, 10.0];
    assert c[..2] == [0.0, 10.0] && c[..2][..1] == [0.0];
    assert Pushed(c[..2][..1], 2.0) == [0.0];
    assert Pushed(c[..2], 2.0) == [0.0, 10.0];
    assert Pushed(c, 2.0) == [0.0, 10.0, 12.0];
    assert Shift([0.0, 10.0, 12.0], 0.0, 10.0) == 0.0;
  }
}

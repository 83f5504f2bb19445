/** The two history layouts of the filter bank: what one write does to them and
    what the FIR kernels read back. */
module Layouts {
  import opened Arith
  import opened Complex
  import opened Channelizer

  // ------------------------------------------------------------ row layout

  /** hist' is hist after the samples v, starting at absolute index n, were
      stored right to left in one row and in its copy. */
  ghost predicate RowWritten(g: Geometry, hist: seq<C>, hist': seq<C>, n: int, v: seq<C>)
    requires g.m > 0 && g.taps > 0
  {
    && |hist| == |hist'| == 2 * g.Len()
    && forall i :: 0 <= i < g.Len() ==> RowCellWritten(g, hist, hist', n, v, i)
  }

  ghost predicate RowCellWritten(g: Geometry, hist: seq<C>, hist': seq<C>, n: int, v: seq<C>, i: int)
    requires g.m > 0 && g.taps > 0
    requires |hist| == |hist'| == 2 * g.Len() && 0 <= i < g.Len()
  {
    var end := Slot(g, n) + 1;
    if end - |v| <= i < end then
      hist'[i] == v[end - 1 - i] && hist'[i + g.Len()] == v[end - 1 - i]
    else
      hist'[i] == hist[i] && hist'[i + g.Len()] == hist[i + g.Len()]
  }

  lemma RowOfSlot(g: Geometry, n: int)
    requires g.m > 0 && g.taps > 0
    ensures var row := (n / g.m) % g.taps;
            var end := row * g.m + g.m - n % g.m;
            && 0 <= row * g.m && 0 <= end - (g.m - n % g.m) && end <= g.Len() && end == Slot(g, n) + 1
  {
    SlotRange(g, n);
    MulMono(0, (n / g.m) % g.taps, g.m);
  }

  lemma RowChunkStored(g: Geometry, before: seq<C>, after: seq<C>, n: int, v: seq<C>, end: int)
    requires g.m > 0 && g.taps > 0 && end == Slot(g, n) + 1
    requires |before| == |after| == 2 * g.Len()
    requires forall i :: 0 <= i < g.Len() ==>
               after[i] == if end - |v| <= i < end then v[end - 1 - i] else before[i]
    requires forall i :: g.Len() <= i < 2 * g.Len() ==>
               after[i] == if end + g.Len() - |v| <= i < end + g.Len() then v[end + g.Len() - 1 - i] else before[i]
    ensures RowWritten(g, before, after, n, v)
  {
    forall i | 0 <= i < g.Len()
      ensures RowCellWritten(g, before, after, n, v, i)
    {
      var c := i + g.Len();
      assert after[c] == if end + g.Len() - |v| <= c < end + g.Len() then v[end + g.Len() - 1 - c] else before[c];
    }
  }

  /** Consecutive samples of one row lie side by side, in descending cells. */
  lemma SlotStep(g: Geometry, n: int, q: int)
    requires g.m > 0 && g.taps > 0 && 0 <= q < g.m - n % g.m
    ensures Slot(g, n + q) == Slot(g, n) - q
  {
    DivModStep(n, q, g.m);
  }

  /** A chunk inside one row extends the stored stream. */
  lemma RowExtend(g: Geometry, hist: seq<C>, hist': seq<C>, x: seq<C>, v: seq<C>)
    requires g.m > 0 && g.taps > 0
    requires RowLayout(g, hist, x) && RowWritten(g, hist, hist', |x|, v)
    requires |v| <= g.m - |x| % g.m
    ensures RowLayout(g, hist', x + v)
  {
    var y := x + v;
    MulMono(1, g.taps, g.m);
    forall n | |y| - g.Len() <= n < |y|
      ensures RowHolds(g, hist', n, At(y, n))
    {
      RowCell(g, hist, hist', |x|, v, n);
      if n < |x| { assert RowHolds(g, hist, n, At(x, n)); }
    }
  }

  /** The cell of sample n after a chunk write: the chunk's value when n is in
      the chunk, untouched when n is any other sample of the window. */
  lemma RowCell(g: Geometry, hist: seq<C>, hist': seq<C>, start: int, v: seq<C>, n: int)
    requires g.m > 0 && g.taps > 0 && RowWritten(g, hist, hist', start, v)
    requires |v| <= g.m - start % g.m
    requires start + |v| - g.Len() <= n < start + g.Len()
    ensures start <= n < start + |v| ==> RowHolds(g, hist', n, v[n - start])
    ensures !(start <= n < start + |v|) ==> forall u :: RowHolds(g, hist, n, u) ==> RowHolds(g, hist', n, u)
  {
    SlotRange(g, n);
    assert RowCellWritten(g, hist, hist', start, v, Slot(g, n));
    if start <= n < start + |v| {
      SlotStep(g, start, n - start);
    } else if Slot(g, start) - |v| < Slot(g, n) <= Slot(g, start) {
      var q := Slot(g, start) - Slot(g, n);
      SlotStep(g, start, q);
      SlotInjective(g, n, start + q);
    }
  }

  /** The branch whose ring serves tap group r at instant t. */
  function BranchOf(g: Geometry, t: int, r: int): (b: int)
    requires g.m > 0
    ensures 0 <= b < g.m
  {
    (t % g.m + g.m - r) % g.m
  }

  /** Row index of lane `lane` of the eight-lane group that starts at branch r. */
  function LaneStart(g: Geometry, t: int, r: int): int
    requires g.m > 0 && g.taps > 0
  {
    var oldest := (t / g.m + (if r <= t % g.m then 1 else 0)) % g.taps;
    oldest * g.m + g.m - 1 - BranchOf(g, t, r)
  }

  /** At a hop boundary a group of eight branches never crosses the branch wrap,
      and lane `lane`, tap j reads exactly the sample the branch sum needs. */
  lemma RowRead(g: Geometry, hist: seq<C>, x: seq<C>, r: int, lane: int, j: int)
    requires g.m > 0 && g.taps > 0 && g.m % 8 == 0 && |x| % 8 == 0 && |x| > 0
    requires RowLayout(g, hist, x)
    requires 0 <= r < g.m && r % 8 == 0 && 0 <= lane < 8 && 0 <= j < g.taps
    ensures r + lane < g.m
    ensures 0 <= LaneStart(g, |x| - 1, r) + j * g.m + lane < 2 * g.Len()
    ensures hist[LaneStart(g, |x| - 1, r) + j * g.m + lane]
            == At(x, |x| - 1 - (r + lane) - (g.taps - 1 - j) * g.m)
  {
    var age := g.taps - 1 - j;
    var n := |x| - 1 - (r + lane) - age * g.m;
    NonNegTimes(age, g.m);
    LaneSlot(g, |x| - 1, r, lane, j);
    AgeInWindow(g, r + lane, age);
    assert RowHolds(g, hist, n, At(x, n));
    SlotRange(g, n);
  }

  /** The row of the newest sample of branch r, and the branch itself. */
  lemma LaneRow(g: Geometry, t: int, r: int, lane: int)
    requires g.m > 0 && g.taps > 0 && g.m % 8 == 0 && t % 8 == 7
    requires 0 <= r < g.m && r % 8 == 0 && 0 <= lane < 8
    ensures r + lane < g.m
    ensures var row := t / g.m - (if r <= t % g.m then 0 else 1);
            var branch := BranchOf(g, t, r);
            && lane <= branch < g.m
            && (t - (r + lane)) / g.m == row && (t - (r + lane)) % g.m == branch - lane
            && LaneStart(g, t, r) == ((row + 1) % g.taps) * g.m + g.m - 1 - branch
  {
    ModEight(t, g.m);
    BranchOfTap(g, t, r);
    LaneStaysInRow(g.m, t % g.m, r, lane);
    if r <= t % g.m {
      BranchLane(g.m, t, t / g.m, t % g.m - r, r + lane, lane);
    } else {
      BranchLane(g.m, t, t / g.m - 1, t % g.m + g.m - r, r + lane, lane);
    }
  }

  /** Eight aligned branches wrap around together or not at all. */
  lemma LaneStaysInRow(m: int, low: int, r: int, lane: int)
    requires m % 8 == 0 && 0 <= low && low % 8 == 7 && 0 <= r < m && r % 8 == 0 && 0 <= lane < 8
    ensures r + lane < m
    ensures lane <= (if r <= low then low - r else low + m - r)
  {
    var a, b, c := m / 8, r / 8, low / 8;
    assert m == 8 * a && r == 8 * b && low == 8 * c + 7;
  }

  /** Branch r is r samples before the newest one, cyclically. */
  lemma BranchOfTap(g: Geometry, t: int, r: int)
    requires g.m > 0 && 0 <= r < g.m
    ensures BranchOf(g, t, r) == if r <= t % g.m then t % g.m - r else t % g.m + g.m - r
  {
    if r <= t % g.m {
      assert t % g.m + g.m - r == 1 * g.m + (t % g.m - r);
      DivModUnique(t % g.m + g.m - r, g.m, 1, t % g.m - r);
    } else {
      DivModUnique(t % g.m + g.m - r, g.m, 0, t % g.m + g.m - r);
    }
  }

  lemma BranchLane(m: int, t: int, row: int, branch: int, back: int, lane: int)
    requires m > 0 && 0 <= lane <= branch < m
    requires || (row == t / m && branch - lane == t % m - back)
             || (row == t / m - 1 && branch - lane == t % m + m - back)
    ensures (t - back) / m == row && (t - back) % m == branch - lane
  {
    assert t == (t / m) * m + t % m;
    assert (t / m - 1) * m == (t / m) * m - m;
    DivModUnique(t - back, m, row, branch - lane);
  }

  /** The cell a lane reads is the slot of the sample, or the slot of its copy. */
  lemma LaneSlot(g: Geometry, t: int, r: int, lane: int, j: int)
    requires g.m > 0 && g.taps > 0 && g.m % 8 == 0 && t % 8 == 7
    requires 0 <= r < g.m && r % 8 == 0 && 0 <= lane < 8 && 0 <= j < g.taps
    ensures r + lane < g.m
    ensures var n := t - (r + lane) - (g.taps - 1 - j) * g.m;
            var cell := LaneStart(g, t, r) + j * g.m + lane;
            cell == Slot(g, n) || cell == Slot(g, n) + g.Len()
  {
    LaneRow(g, t, r, lane);
    var newest := t - (r + lane);
    var row, low := newest / g.m, newest % g.m;
    var age := g.taps - 1 - j;
    var n := newest - age * g.m;
    assert n == newest + (-age) * g.m by { assert (-age) * g.m == -(age * g.m); }
    DivModShift(newest, -age, g.m);
    RingRow(row, g.taps, j);
    var oldest := (row + 1) % g.taps;
    var cell := (row - age) % g.taps;
    assert LaneStart(g, t, r) + j * g.m + lane == (oldest + j) * g.m + (g.m - 1 - low) by {
      assert (oldest + j) * g.m == oldest * g.m + j * g.m;
    }
    assert Slot(g, n) == cell * g.m + (g.m - 1 - low);
    assert (oldest + j - g.taps) * g.m == (oldest + j) * g.m - g.taps * g.m;
  }

  lemma NonNegTimes(a: int, b: int)
    requires a >= 0 && b >= 0
    ensures a * b >= 0
  {
  }

  lemma AgeInWindow(g: Geometry, r: int, age: int)
    requires 0 <= r < g.m && 0 <= age < g.taps
    ensures 0 <= r + age * g.m < g.Len()
  {
    MulMono(age, g.taps - 1, g.m);
    NonNegTimes(age, g.m);
    assert g.taps * g.m == (g.taps - 1) * g.m + g.m;
  }

  lemma ModEight(n: int, m: int)
    requires m > 0 && m % 8 == 0
    ensures (n % m) % 8 == n % 8
  {
    var k := m / 8;
    assert m == 8 * k;
    ModMod(n, 8, k);
  }

  /** Tap rows count up from the oldest row, cyclically. */
  lemma RingRow(row: int, taps: int, j: int)
    requires taps > 0 && 0 <= j < taps
    ensures var oldest := (row + 1) % taps;
            (row - (taps - 1 - j)) % taps == (if oldest + j < taps then oldest + j else oldest + j - taps)
  {
    var oldest := (row + 1) % taps;
    assert row + 1 == ((row + 1) / taps) * taps + oldest;
    var q := (row + 1) / taps - 1;
    assert row - (taps - 1 - j) == q * taps + (oldest + j);
    if oldest + j < taps {
      DivModUnique(row - (taps - 1 - j), taps, q, oldest + j);
    } else {
      assert (q + 1) * taps == q * taps + taps;
      DivModUnique(row - (taps - 1 - j), taps, q + 1, oldest + j - taps);
    }
  }

  // --------------------------------------------------------- branch layout

  /** Cells of different branches, or different cells of one branch, are apart. */
  lemma BranchCellsApart(g: Geometry, b: int, i: int, b': int, i': int)
    requires g.taps > 0 && 0 <= i < 2 * g.taps && 0 <= i' < 2 * g.taps
    requires b * 2 * g.taps + i == b' * 2 * g.taps + i'
    ensures b == b' && i == i'
  {
    DivModUnique(b * 2 * g.taps + i, 2 * g.taps, b, i);
    DivModUnique(b' * 2 * g.taps + i', 2 * g.taps, b', i');
  }

  /** A new sample renews its own branch and no other. */
  lemma NewestStep(g: Geometry, n: nat, b: int)
    requires g.m > 0 && 0 <= b < g.m
    ensures b == n % g.m ==> Newest(g, n + 1, b) == n && Newest(g, n, b) == n - g.m
    ensures b != n % g.m ==> Newest(g, n + 1, b) == Newest(g, n, b)
    ensures Newest(g, n, b) < n
  {
    assert n == (n / g.m) * g.m + n % g.m;
    var d := n % g.m - b;
    if d == 0 {
      DivModUnique(n - b, g.m, n / g.m, 0);
      assert (n / g.m - 1) * g.m == (n / g.m) * g.m - g.m;
      DivModUnique(n - 1 - b, g.m, n / g.m - 1, g.m - 1);
    } else if d > 0 {
      DivModUnique(n - b, g.m, n / g.m, d);
      DivModUnique(n - 1 - b, g.m, n / g.m, d - 1);
    } else {
      assert (n / g.m - 1) * g.m == (n / g.m) * g.m - g.m;
      DivModUnique(n - b, g.m, n / g.m - 1, d + g.m);
      DivModUnique(n - 1 - b, g.m, n / g.m - 1, d + g.m - 1);
    }
  }

  lemma RingNext(p: nat, i: nat, taps: nat)
    requires p < taps && i < taps
    ensures var next := (p + 1) % taps;
            && (next + i) % taps == (if i == taps - 1 then p else (p + (i + 1)) % taps)
            && (i < taps - 1 ==> (p + (i + 1)) % taps != p)
  {
    var next := if p + 1 == taps then 0 else p + 1;
    if p + 1 == taps {
      DivModUnique(p + 1, taps, 1, 0);
    } else {
      DivModUnique(p + 1, taps, 0, p + 1);
    }
    if i == taps - 1 {
      if next + i < taps {
        DivModUnique(next + i, taps, 0, next + i);
      } else {
        DivModUnique(next + i, taps, 1, next + i - taps);
      }
    } else {
      DivModUnique(p + (i + 1), taps, if p + i + 1 < taps then 0 else 1,
                   if p + i + 1 < taps then p + i + 1 else p + i + 1 - taps);
      if next + i < taps {
        DivModUnique(next + i, taps, 0, next + i);
      } else {
        DivModUnique(next + i, taps, 1, next + i - taps);
      }
    }
  }

  /** One sample stored in its branch ring extends the stored stream. */
  lemma BranchExtend(g: Geometry, hist: seq<C>, pos: seq<nat>, x: seq<C>, v: C,
                     hist': seq<C>, pos': seq<nat>)
    requires g.m > 0 && g.taps > 0 && BranchLayout(g, hist, pos, x)
    requires var b := |x| % g.m;
             var cell := b * 2 * g.taps + pos[b];
             && 0 <= cell && cell + g.taps < |hist|
             && hist' == hist[cell := v][cell + g.taps := v]
             && pos' == pos[b := (pos[b] + 1) % g.taps]
    ensures BranchLayout(g, hist', pos', x + [v])
  {
    var b0 := |x| % g.m;
    forall b, i | 0 <= b < g.m && 0 <= i < g.taps
      ensures BranchHolds(g, hist', pos'[b], x + [v], b, i)
    {
      NewestStep(g, |x|, b);
      NonNegTimes(g.taps - 1 - i, g.m);
      if b != b0 {
        BranchKeep(g, hist, pos, x, v, hist', pos', b, i);
      } else {
        if i < g.taps - 1 { assert BranchHolds(g, hist, pos[b], x, b, i + 1); }
        BranchCell(g, b, 0);
        BranchCell(g, b, g.taps - 1);
        BranchRenew(g, hist, pos[b], x, v, hist', b, i);
      }
    }
  }

  lemma BranchKeep(g: Geometry, hist: seq<C>, pos: seq<nat>, x: seq<C>, v: C,
                   hist': seq<C>, pos': seq<nat>, b: int, i: int)
    requires g.m > 0 && g.taps > 0 && BranchLayout(g, hist, pos, x)
    requires 0 <= b < g.m && 0 <= i < g.taps && b != |x| % g.m
    requires var b := |x| % g.m;
             var cell := b * 2 * g.taps + pos[b];
             && 0 <= cell && cell + g.taps < |hist|
             && hist' == hist[cell := v][cell + g.taps := v]
             && pos' == pos[b := (pos[b] + 1) % g.taps]
    ensures BranchHolds(g, hist', pos'[b], x + [v], b, i)
  {
    var b0 := |x| % g.m;
    var p0 := pos[b0];
    NewestStep(g, |x|, b);
    NonNegTimes(g.taps - 1 - i, g.m);
    var c := (pos[b] + i) % g.taps;
    assert BranchHolds(g, hist, pos[b], x, b, i);
    BranchCell(g, b, c);
    if b * 2 * g.taps + c == b0 * 2 * g.taps + p0 { BranchCellsApart(g, b, c, b0, p0); }
    if b * 2 * g.taps + c == b0 * 2 * g.taps + p0 + g.taps { BranchCellsApart(g, b, c, b0, p0 + g.taps); }
    if b * 2 * g.taps + c + g.taps == b0 * 2 * g.taps + p0 { BranchCellsApart(g, b, c + g.taps, b0, p0); }
    if b * 2 * g.taps + c + g.taps == b0 * 2 * g.taps + p0 + g.taps {
      BranchCellsApart(g, b, c + g.taps, b0, p0 + g.taps);
    }
  }

  lemma BranchRenew(g: Geometry, hist: seq<C>, p: nat, x: seq<C>, v: C, hist': seq<C>, b: int, i: int)
    requires g.m > 0 && g.taps > 0 && b == |x| % g.m && p < g.taps && 0 <= i < g.taps
    requires |hist| == 2 * g.Len() == |hist'|
    requires i < g.taps - 1 ==> BranchHolds(g, hist, p, x, b, i + 1)
    requires 0 <= b * 2 * g.taps && b * 2 * g.taps + 2 * g.taps <= |hist|
    requires hist' == hist[b * 2 * g.taps + p := v][b * 2 * g.taps + p + g.taps := v]
    ensures BranchHolds(g, hist', (p + 1) % g.taps, x + [v], b, i)
  {
    RingNext(p, i, g.taps);
    RenewedAge(g, x, v, i);
    var c := if i < g.taps - 1 then (p + (i + 1)) % g.taps else p;
    RingWrite(hist, hist', b * 2 * g.taps, g.taps, p, c, v);
    hide Newest, At;
    assert |x + [v]| == |x| + 1;
  }

  lemma RingWrite(hist: seq<C>, hist': seq<C>, base: int, taps: nat, p: nat, c: nat, v: C)
    requires 0 <= base && base + 2 * taps <= |hist| && p < taps && c < taps
    requires hist' == hist[base + p := v][base + p + taps := v]
    ensures hist'[base + c] == (if c == p then v else hist[base + c])
    ensures hist'[base + c + taps] == (if c == p then v else hist[base + c + taps])
  {
  }

  /** A renewed branch holds the new sample last, and ages the others by one. */
  lemma RenewedAge(g: Geometry, x: seq<C>, v: C, i: int)
    requires g.m > 0 && g.taps > 0 && 0 <= i < g.taps
    ensures var b := |x| % g.m;
            At(x + [v], Newest(g, |x| + 1, b) - (g.taps - 1 - i) * g.m)
            == if i == g.taps - 1 then v else At(x, Newest(g, |x|, b) - (g.taps - 1 - (i + 1)) * g.m)
  {
    NewestStep(g, |x|, |x| % g.m);
    if i < g.taps - 1 {
      assert (g.taps - 1 - i) * g.m == (g.taps - 1 - (i + 1)) * g.m + g.m;
      NonNegTimes(g.taps - 1 - (i + 1), g.m);
    }
  }

  /** The sample that the rebuilt branch ring b keeps at age i. */
  function LoadedAge(g: Geometry, index: nat, b: int, i: int): int
    requires g.m > 0
  {
    i * g.m + (b - index) % g.m
  }

  lemma LoadedAgeFacts(g: Geometry, index: nat, b: int, i: int)
    requires g.m > 0 && 0 <= b < g.m && 0 <= i < g.taps
    ensures 0 <= LoadedAge(g, index, b, i) < g.Len()
    ensures LoadedAge(g, index, b, i) / g.m == i
    ensures (index + LoadedAge(g, index, b, i)) % g.m == b
    ensures Newest(g, index, b) - (g.taps - 1 - i) * g.m == index - g.Len() + LoadedAge(g, index, b, i)
  {
    var d := (b - index) % g.m;
    var q := LoadedAge(g, index, b, i);
    DivModUnique(q, g.m, i, d);
    AgeInWindow(g, d, i);
    var k := (b - index) / g.m;
    assert b - index == k * g.m + d;
    assert index + q == (i - k) * g.m + b by { assert (i - k) * g.m == i * g.m - k * g.m; }
    DivModUnique(index + q, g.m, i - k, b);
    assert index - 1 - b == (-k - 1) * g.m + (g.m - 1 - d) by {
      assert (-k - 1) * g.m == -(k * g.m) - g.m;
    }
    DivModUnique(index - 1 - b, g.m, -k - 1, g.m - 1 - d);
    assert (g.taps - 1 - i) * g.m == g.Len() - g.m - i * g.m;
  }

  /** Samples q of a tail stored at (branch, row of q) rebuild the branch layout. */
  lemma BranchLoaded(g: Geometry, hist: seq<C>, pos: seq<nat>, x: seq<C>, tail: seq<C>)
    requires g.m > 0 && g.taps > 0 && |hist| == 2 * g.Len() && |tail| == g.Len()
    requires |pos| == g.m && forall b :: 0 <= b < g.m ==> pos[b] == 0
    requires forall q :: 0 <= q < g.Len() ==> tail[q] == At(x, |x| - g.Len() + q)
    requires forall q :: 0 <= q < g.Len() ==> TailStored(g, hist, |x|, tail, q)
    ensures BranchLayout(g, hist, pos, x)
  {
    forall b, i | 0 <= b < g.m && 0 <= i < g.taps
      ensures BranchHolds(g, hist, pos[b], x, b, i)
    {
      var q := LoadedAge(g, |x|, b, i);
      LoadedAgeFacts(g, |x|, b, i);
      assert TailStored(g, hist, |x|, tail, q);
      DivModUnique(0 + i, g.taps, 0, i);
    }
  }

  ghost predicate TailStored(g: Geometry, hist: seq<C>, index: nat, tail: seq<C>, q: int)
    requires g.m > 0 && g.taps > 0 && |hist| == 2 * g.Len() && 0 <= q < |tail| == g.Len()
  {
    TailCell(g, index, q);
    var cell := ((index + q) % g.m) * 2 * g.taps + q / g.m;
    hist[cell] == tail[q] && hist[cell + g.taps] == tail[q]
  }

  lemma TailCell(g: Geometry, index: nat, q: int)
    requires g.m > 0 && g.taps > 0 && 0 <= q < g.Len()
    ensures 0 <= q / g.m < g.taps
    ensures var cell := ((index + q) % g.m) * 2 * g.taps + q / g.m;
            0 <= cell && cell + g.taps < 2 * g.Len()
  {
    DivGe(q, g.m, g.taps);
    DivGe(q, g.m, 0);
    BranchCell(g, (index + q) % g.m, q / g.m);
  }

  /** Storing tail sample j leaves the earlier ones where they are. */
  lemma TailCellsApart(g: Geometry, index: nat, q: int, j: int)
    requires g.m > 0 && g.taps > 0 && 0 <= q < j < g.Len()
    ensures var cq := ((index + q) % g.m) * 2 * g.taps + q / g.m;
            var cj := ((index + j) % g.m) * 2 * g.taps + j / g.m;
            cq != cj && cq != cj + g.taps && cq + g.taps != cj
  {
    TailCell(g, index, q);
    TailCell(g, index, j);
    if q / g.m == j / g.m && (index + q) % g.m == (index + j) % g.m { TailPlacesApart(g, index, q, j); }
    var bq, bj := (index + q) % g.m, (index + j) % g.m;
    if bq * 2 * g.taps + q / g.m == bj * 2 * g.taps + j / g.m {
      BranchCellsApart(g, bq, q / g.m, bj, j / g.m);
    } else if bq * 2 * g.taps + q / g.m == bj * 2 * g.taps + j / g.m + g.taps {
      BranchCellsApart(g, bq, q / g.m, bj, j / g.m + g.taps);
    } else if bq * 2 * g.taps + q / g.m + g.taps == bj * 2 * g.taps + j / g.m {
      BranchCellsApart(g, bq, q / g.m + g.taps, bj, j / g.m);
    }
  }

  /** Two samples of the tail differ in branch or in row. */
  lemma TailPlacesApart(g: Geometry, index: nat, q: int, j: int)
    requires g.m > 0 && q / g.m == j / g.m && (index + q) % g.m == (index + j) % g.m
    ensures q == j
  {
    assert q == (q / g.m) * g.m + q % g.m && j == (j / g.m) * g.m + j % g.m;
    var a, b := (index + q) / g.m, (index + j) / g.m;
    assert index + q == a * g.m + (index + q) % g.m;
    assert index + j == b * g.m + (index + j) % g.m;
    assert j - q == (b - a) * g.m;
    SmallMultiple(b - a, g.m);
  }

  /** The contiguous window that starts at a branch's oldest sample reads tap j
      of that branch's sum. */
  lemma BranchRead(g: Geometry, hist: seq<C>, pos: seq<nat>, x: seq<C>, r: int, j: int)
    requires g.m > 0 && g.taps > 0 && |x| > 0 && BranchLayout(g, hist, pos, x)
    requires 0 <= r < g.m && 0 <= j < g.taps
    ensures BranchReads(g, hist, pos, x, r, j)
  {
    var t := |x| - 1;
    var b := BranchOf(g, t, r);
    NewestOfTap(g, t, r);
    assert BranchHolds(g, hist, pos[b], x, b, j);
    BranchCell(g, b, (pos[b] + j) % g.taps);
    RingCell(pos[b], j, g.taps);
  }

  ghost predicate BranchReads(g: Geometry, hist: seq<C>, pos: seq<nat>, x: seq<C>, r: int, j: int)
    requires g.m > 0
  {
    var t := |x| - 1;
    var b := BranchOf(g, t, r);
    && |pos| == g.m
    && var cell := b * 2 * g.taps + pos[b] + j;
       0 <= cell < |hist| && hist[cell] == At(x, t - r - (g.taps - 1 - j) * g.m)
  }

  lemma RingCell(p: nat, j: nat, taps: nat)
    requires p < taps && j < taps
    ensures (p + j) % taps == if p + j < taps then p + j else p + j - taps
  {
    DivModUnique(p + j, taps, if p + j < taps then 0 else 1, if p + j < taps then p + j else p + j - taps);
  }

  lemma NewestOfTap(g: Geometry, t: int, r: int)
    requires g.m > 0 && 0 <= r < g.m
    ensures Newest(g, t + 1, BranchOf(g, t, r)) == t - r
  {
    BranchOfTap(g, t, r);
    assert t == (t / g.m) * g.m + t % g.m;
    assert (t / g.m - 1) * g.m == (t / g.m) * g.m - g.m;
    DivModUnique(t - BranchOf(g, t, r), g.m, if r <= t % g.m then t / g.m else t / g.m - 1, r);
  }
}

/** The streaming filter bank object. Samples are complex values; the separate
    real and imaginary histories are one array of pairs. */
module Pfb {
  import opened Arith
  import opened Complex
  import opened Channelizer
  import opened Layouts

  /** What the constructor computes once: geometry, prototype, the coefficient
      order of each kernel and the rotation table. */
  datatype Design = Design(g: Geometry, h: seq<real>, w: C, grouped: bool,
                           tapPhase: seq<real>, tapGroup: seq<real>, phaseCycle: seq<C>) {
    ghost predicate Valid() {
      && g.Valid() && |h| == g.Len() && Root(w, g.m)
      && (grouped ==> g.hop >= 8)
      && PhaseTaps(g, h, tapPhase)
      && (grouped ==> GroupTaps(g, h, tapGroup))
      && CycleTable(g, w, phaseCycle)
    }
  }

  /** Branch-major coefficients, each branch oldest sample first. */
  ghost predicate PhaseTaps(g: Geometry, h: seq<real>, a: seq<real>) {
    && |a| == g.Len()
    && forall r, j :: 0 <= r < g.m && 0 <= j < g.taps ==> PhaseTap(g, h, a, r, j)
  }

  ghost predicate PhaseTap(g: Geometry, h: seq<real>, a: seq<real>, r: int, j: int) {
    Tap(a, r * g.taps + j) == Tap(h, r + (g.taps - 1 - j) * g.m)
  }

  /** The same coefficients for eight neighbouring branches at a time. */
  ghost predicate GroupTaps(g: Geometry, h: seq<real>, a: seq<real>) {
    && |a| == g.Len()
    && forall r, j :: 0 <= r < g.m && 0 <= j < g.taps ==> GroupTap(g, h, a, r, j)
  }

  ghost predicate GroupTap(g: Geometry, h: seq<real>, a: seq<real>, r: int, j: int) {
    Tap(a, GroupCell(g, r, j)) == Tap(h, r + (g.taps - 1 - j) * g.m)
  }

  function GroupCell(g: Geometry, r: int, j: int): int { (r / 8 * g.taps + j) * 8 + r % 8 }

  ghost predicate CycleTable(g: Geometry, w: C, a: seq<C>) {
    && g.m > 0 && |a| == g.oversample * g.m
    && forall q, k :: 0 <= q < g.oversample && 0 <= k < g.m ==> CycleCell(g, w, a, q, k)
  }

  ghost predicate CycleCell(g: Geometry, w: C, a: seq<C>, q: int, k: int)
    requires g.m > 0
  {
    At(a, q * g.m + k) == CycleFactor(g, w, q, k)
  }

  /** Rotation of bin k at the instant of group q of the cycle. */
  function CycleFactor(g: Geometry, w: C, q: int, k: int): C
    requires g.m > 0
  {
    Twiddle(w, g.m, -(k * (g.hop - 1 + q * g.hop)))
  }

  /** A filter bank by value: everything that clone() copies. */
  datatype PfbState = PfbState(d: Design, history: seq<C>, historyPos: seq<nat>,
                               phase: nat, inputSamples: nat, outputGroups: nat) {
    ghost predicate Shape() {
      && d.Valid()
      && |history| == 2 * d.g.Len() && |historyPos| == d.g.m
    }

    /** The state after exactly the samples x. */
    ghost predicate After(x: seq<C>) {
      && Shape()
      && inputSamples == |x|
      && phase == |x| % d.g.hop
      && outputGroups == |x| / d.g.hop
      && if d.grouped then RowLayout(d.g, history, x) else BranchLayout(d.g, history, historyPos, x)
    }
  }

  /** Groups completed by n more samples after the first `before`. */
  function GroupCount(g: Geometry, before: nat, n: nat): int
    requires g.hop > 0
  {
    (before + n) / g.hop - before / g.hop
  }

  lemma GroupCountBound(g: Geometry, before: nat, n: nat)
    requires g.hop > 0
    ensures 0 <= GroupCount(g, before, n) <= n / g.hop + 1
    ensures GroupCount(g, before, n) == (before % g.hop + n) / g.hop
  {
    assert before + n == (before % g.hop + n) + (before / g.hop) * g.hop by {
      assert before == (before / g.hop) * g.hop + before % g.hop;
    }
    DivModShift(before % g.hop + n, before / g.hop, g.hop);
    DivModShift(n, 1, g.hop);
    DivMono(before % g.hop + n, n + 1 * g.hop, g.hop);
    DivMono(0, before % g.hop + n, g.hop);
    DivModUnique(0, g.hop, 0, 0);
  }

  // --------------------------------------------------- configuration tables

  lemma TapCell(g: Geometry, r: int, j: int)
    requires 0 <= r < g.m && 0 <= j < g.taps
    ensures 0 <= r * g.taps + j < g.Len()
    ensures 0 <= r + (g.taps - 1 - j) * g.m < g.Len()
  {
    MulMono(0, r, g.taps);
    MulMono(r, g.m - 1, g.taps);
    assert (g.m - 1) * g.taps + g.taps == g.m * g.taps;
    AgeInWindow(g, r, g.taps - 1 - j);
  }

  lemma TapCellsApart(g: Geometry, r: int, j: int, r': int, j': int)
    requires 0 <= j < g.taps && 0 <= j' < g.taps && r * g.taps + j == r' * g.taps + j'
    ensures r == r' && j == j'
  {
    DivModUnique(r * g.taps + j, g.taps, r, j);
    DivModUnique(r' * g.taps + j', g.taps, r', j');
  }

  lemma GroupCellFacts(g: Geometry, r: int, j: int)
    requires 0 <= r < g.m && 0 <= j < g.taps && g.m % 8 == 0
    ensures 0 <= GroupCell(g, r, j) < g.Len()
    ensures GroupCell(g, r, j) / 8 == r / 8 * g.taps + j && GroupCell(g, r, j) % 8 == r % 8
  {
    GroupRowBound(r / 8, g.m / 8, g.taps, j);
    EightRows(g);
  }

  lemma GroupRowBound(row: int, rows: int, taps: nat, j: int)
    requires 0 <= row < rows && 0 <= j < taps
    ensures 0 <= row * taps + j < rows * taps
  {
    MulMono(0, row, taps);
    MulMono(row, rows - 1, taps);
    assert (rows - 1) * taps + taps == rows * taps;
  }

  lemma EightRows(g: Geometry)
    requires g.m % 8 == 0
    ensures 8 * (g.m / 8 * g.taps) == g.Len()
  {
    assert 8 * (g.m / 8 * g.taps) == (8 * (g.m / 8)) * g.taps;
  }

  lemma GroupCellsApart(g: Geometry, r: int, j: int, r': int, j': int)
    requires 0 <= r < g.m && 0 <= j < g.taps && g.m % 8 == 0
    requires 0 <= r' < g.m && 0 <= j' < g.taps
    requires GroupCell(g, r, j) == GroupCell(g, r', j')
    ensures r == r' && j == j'
  {
    GroupCellFacts(g, r, j);
    GroupCellFacts(g, r', j');
    TapCellsApart(g, r / 8, j, r' / 8, j');
  }

  method PhaseOrder(g: Geometry, h: seq<real>) returns (a: seq<real>)
    requires |h| == g.Len()
    ensures PhaseTaps(g, h, a)
  {
    var table := new real[g.Len()](_ => 0.0);
    for r := 0 to g.m
      invariant forall r', j :: 0 <= r' < r && 0 <= j < g.taps ==> PhaseTap(g, h, table[..], r', j)
    {
      for j := 0 to g.taps
        invariant forall r', j' :: 0 <= r' < r && 0 <= j' < g.taps ==> PhaseTap(g, h, table[..], r', j')
        invariant forall j' :: 0 <= j' < j ==> PhaseTap(g, h, table[..], r, j')
      {
        TapCell(g, r, j);
        ghost var before := table[..];
        table[r * g.taps + j] := h[r + (g.taps - 1 - j) * g.m];
        forall r', j' | 0 <= r' <= r && 0 <= j' < g.taps && (r' < r || j' < j)
          ensures PhaseTap(g, h, table[..], r', j')
        {
          TapCell(g, r', j');
          if r' * g.taps + j' == r * g.taps + j { TapCellsApart(g, r', j', r, j); }
          assert PhaseTap(g, h, before, r', j');
        }
      }
    }
    a := table[..];
  }

  method GroupOrder(g: Geometry, h: seq<real>, tapPhase: seq<real>) returns (a: seq<real>)
    requires |h| == g.Len() && PhaseTaps(g, h, tapPhase)
    requires g.hop >= 8 ==> g.m % 8 == 0
    ensures g.hop >= 8 ==> GroupTaps(g, h, a)
  {
    var table := new real[g.Len()](_ => 0.0);
    if g.hop >= 8 {
      for r := 0 to g.m
        invariant forall r', j :: 0 <= r' < r && 0 <= j < g.taps ==> GroupTap(g, h, table[..], r', j)
      {
        for j := 0 to g.taps
          invariant forall r', j' :: 0 <= r' < r && 0 <= j' < g.taps ==> GroupTap(g, h, table[..], r', j')
          invariant forall j' :: 0 <= j' < j ==> GroupTap(g, h, table[..], r, j')
        {
          TapCell(g, r, j);
          GroupCellFacts(g, r, j);
          assert PhaseTap(g, h, tapPhase, r, j);
          ghost var before := table[..];
          table[GroupCell(g, r, j)] := tapPhase[r * g.taps + j];
          forall r', j' | 0 <= r' <= r && 0 <= j' < g.taps && (r' < r || j' < j)
            ensures GroupTap(g, h, table[..], r', j')
          {
            GroupCellFacts(g, r', j');
            if GroupCell(g, r', j') == GroupCell(g, r, j) { GroupCellsApart(g, r', j', r, j); }
            assert GroupTap(g, h, before, r', j');
          }
        }
      }
    }
    a := table[..];
  }

  method PhaseTable(g: Geometry, w: C) returns (a: seq<C>)
    requires g.m > 0
    ensures CycleTable(g, w, a)
  {
    hide CycleCell;
    a := [];
    for q := 0 to g.oversample
      invariant |a| == q * g.m
      invariant forall q', k :: 0 <= q' < q && 0 <= k < g.m ==> CycleCell(g, w, a, q', k)
    {
      ghost var start := a;
      var row := CycleRow(g, w, q);
      a := a + row;
      SplitRow(q, g.m);
      forall q', k | 0 <= q' <= q && 0 <= k < g.m
        ensures CycleCell(g, w, a, q', k)
      {
        if q' < q { CycleKept(g, w, start, row, q, q', k); } else { CycleAdded(g, w, start, row, q, k); }
      }
    }
  }

  /** The row of one group of the cycle. */
  method CycleRow(g: Geometry, w: C, q: nat) returns (row: seq<C>)
    requires g.m > 0
    ensures |row| == g.m
    ensures forall k :: 0 <= k < g.m ==> row[k] == CycleFactor(g, w, q, k)
  {
    hide CycleFactor;
    row := [];
    for k := 0 to g.m
      invariant |row| == k && forall k' :: 0 <= k' < k ==> row[k'] == CycleFactor(g, w, q, k')
    {
      row := row + [CycleFactor(g, w, q, k)];
    }
  }

  lemma SplitRow(q: nat, m: nat)
    ensures (q + 1) * m == q * m + m && 0 <= q * m
  {
    MulMono(0, q, m);
  }

  lemma CycleKept(g: Geometry, w: C, a: seq<C>, row: seq<C>, q: nat, q': nat, k: nat)
    requires g.m > 0 && q' < q && k < g.m && |a| == q * g.m && CycleCell(g, w, a, q', k)
    ensures CycleCell(g, w, a + row, q', k)
  {
    MulMono(q' + 1, q, g.m);
    SplitRow(q', g.m);
    hide CycleFactor;
  }

  lemma CycleAdded(g: Geometry, w: C, a: seq<C>, row: seq<C>, q: nat, k: nat)
    requires g.m > 0 && k < g.m == |row| && |a| == q * g.m && row[k] == CycleFactor(g, w, q, k)
    ensures CycleCell(g, w, a + row, q, k)
  {
    SplitRow(q, g.m);
    hide CycleFactor;
    assert (a + row)[q * g.m + k] == row[k];
  }

  /** with_taps and the kernel selection. */
  method NewDesign(g: Geometry, h: seq<real>, w: C, kernel: nat, avx2: bool) returns (d: Design)
    requires g.Valid() && |h| == g.Len() && Root(w, g.m)
    ensures d.Valid() && d.g == g && d.h == h && d.w == w
    ensures d.grouped <==> kernel == 1 && avx2 && g.hop >= 8
  {
    GeometryFacts(g);
    var tapPhase := PhaseOrder(g, h);
    var tapGroup := GroupOrder(g, h, tapPhase);
    var phaseCycle := PhaseTable(g, w);
    d := Design(g, h, w, kernel == 1 && avx2 && g.hop >= 8, tapPhase, tapGroup, phaseCycle);
  }

  // -------------------------------------------------------- reading a group

  /** What one step of the grouped kernel adds to a lane: tap j and, for sixteen
      taps, tap j + 8 with it. */
  ghost function PairTerm(d: Design, x: seq<C>, r: int, j: int): C {
    var low := BranchTerm(d.g, d.h, x, |x| - 1, r, j);
    if d.g.taps == 16 then Add(low, BranchTerm(d.g, d.h, x, |x| - 1, r, j + 8)) else low
  }

  /** The accumulator of one lane after j steps. */
  ghost function LaneSum(d: Design, x: seq<C>, r: int, j: nat): C {
    Sum(j, i => PairTerm(d, x, r, i))
  }

  lemma LaneSumNext(d: Design, x: seq<C>, r: int, j: nat)
    ensures LaneSum(d, x, r, j + 1) == Add(LaneSum(d, x, r, j), PairTerm(d, x, r, j))
  {
    hide PairTerm, Add;
  }

  function AddLanes(a: seq<C>, b: seq<C>): seq<C>
    requires |a| == |b| == 8
  {
    seq(8, lane requires 0 <= lane < 8 => Add(a[lane], b[lane]))
  }

  /** Eight lanes hold the sums of their branches after j steps. */
  ghost predicate LanesHold(d: Design, x: seq<C>, r: int, acc: seq<C>, j: nat) {
    |acc| == 8 && forall lane :: 0 <= lane < 8 ==> acc[lane] == LaneSum(d, x, r + lane, j)
  }

  lemma LanesStart(d: Design, x: seq<C>, r: int, acc: seq<C>)
    requires acc == seq(8, _ => Zero)
    ensures |acc| == 8 && LanesHold(d, x, r, acc, 0)
  {
  }

  lemma LanesNext(d: Design, x: seq<C>, r: int, acc: seq<C>, step: seq<C>, j: nat)
    requires LanesHold(d, x, r, acc, j) && |step| == 8
    requires forall lane :: 0 <= lane < 8 ==> step[lane] == PairTerm(d, x, r + lane, j)
    ensures |acc| == 8 && LanesHold(d, x, r, AddLanes(acc, step), j + 1)
  {
    hide LaneSum, PairTerm, Add;
    var next := AddLanes(acc, step);
    forall lane | 0 <= lane < 8
      ensures next[lane] == LaneSum(d, x, r + lane, j + 1)
    {
      LaneSumNext(d, x, r + lane, j);
    }
  }

  lemma LanesEnd(d: Design, x: seq<C>, r: int, acc: seq<C>)
    requires d.g.taps == 4 || d.g.taps == 8 || d.g.taps == 16
    requires LanesHold(d, x, r, acc, if d.g.taps < 8 then d.g.taps else 8)
    ensures |acc| == 8
    ensures forall lane :: 0 <= lane < 8 ==> acc[lane] == BranchSum(d.g, d.h, x, |x| - 1, r + lane)
  {
    hide LaneSum, BranchSum;
    forall lane | 0 <= lane < 8
      ensures acc[lane] == BranchSum(d.g, d.h, x, |x| - 1, r + lane)
    {
      LaneSumTotal(d, x, r + lane);
    }
  }

  /** After the last step a lane holds its branch sum. */
  lemma LaneSumTotal(d: Design, x: seq<C>, r: int)
    requires d.g.taps == 4 || d.g.taps == 8 || d.g.taps == 16
    ensures LaneSum(d, x, r, if d.g.taps < 8 then d.g.taps else 8) == BranchSum(d.g, d.h, x, |x| - 1, r)
  {
    hide BranchTerm, Add;
    var f := j => BranchTerm(d.g, d.h, x, |x| - 1, r, j);
    var step := j => PairTerm(d, x, r, j);
    if d.g.taps == 16 {
      var g := j => f(8 + j);
      SumEq(8, step, j => Add(f(j), g(j)));
      SumPlus(8, f, g);
      SumAppend(8, 8, f);
    } else {
      SumEq(d.g.taps, step, f);
    }
  }

  /** Output cell of a group and a column. */
  lemma BankCell(groups: nat, bins: nat, q: int, col: int)
    requires 0 <= q < groups && 0 <= col < bins
    ensures 0 <= q * bins + col < groups * bins
    ensures (q * bins + col) / bins == q && (q * bins + col) % bins == col
  {
    DivModUnique(q * bins + col, bins, q, col);
    MulMono(q, groups - 1, bins);
    MulMono(0, q, bins);
    assert (groups - 1) * bins + bins == groups * bins;
  }

  /** The rest of a hop fits into the rest of the bin cycle. */
  lemma HopInRow(m: nat, hop: nat, n: nat)
    requires hop > 0 && m > 0 && m % hop == 0
    ensures hop - n % hop <= m - n % m
  {
    var k := m / hop;
    assert m == hop * k;
    if k <= 0 { MulMono(k, 0, hop); }
    ModMod(n, hop, k);
    LastHop(hop, k, n % m);
  }

  /** The hop that a position belongs to ends inside the cycle of k hops. */
  lemma LastHop(hop: nat, k: nat, low: nat)
    requires hop > 0 && low < hop * k
    ensures low - low % hop + hop <= hop * k
  {
    assert low == (low / hop) * hop + low % hop;
    DivGe(low, hop, k);
    MulMono(low / hop, k - 1, hop);
    assert (k - 1) * hop + hop == hop * k;
  }

  lemma HopStep(hop: nat, n: nat, count: nat)
    requires hop > 0 && n % hop + count <= hop
    ensures n % hop + count < hop ==> (n + count) % hop == n % hop + count && (n + count) / hop == n / hop
    ensures n % hop + count == hop ==> (n + count) % hop == 0 && (n + count) / hop == n / hop + 1
    ensures n % hop + count == hop ==> n + count == (n / hop + 1) * hop
  {
    assert n == (n / hop) * hop + n % hop;
    assert (n / hop + 1) * hop == (n / hop) * hop + hop;
    if n % hop + count < hop {
      DivModUnique(n + count, hop, n / hop, n % hop + count);
    } else {
      DivModUnique(n + count, hop, n / hop + 1, 0);
    }
  }

  class Pfb {
    const d: Design
    const history: array<C>
    const historyPos: array<nat>
    const fftBuffer: array<C>
    var phase: nat
    var inputSamples: nat
    var outputGroups: nat

    function State(): PfbState
      reads this, history, historyPos
    {
      PfbState(d, history[..], historyPos[..], phase, inputSamples, outputGroups)
    }

    /** The object is a filter bank that has taken in exactly the samples x. */
    ghost predicate After(x: seq<C>)
      reads this, history, historyPos
    {
      && State().After(x)
      && fftBuffer.Length == d.g.m
      && fftBuffer != history
    }

    constructor (d: Design)
      requires d.Valid()
      ensures this.d == d && After([])
      ensures fresh(history) && fresh(historyPos) && fresh(fftBuffer)
    {
      this.d := d;
      history := new C[2 * d.g.Len()](_ => Zero);
      historyPos := new nat[d.g.m](_ => 0);
      fftBuffer := new C[d.g.m](_ => Zero);
      phase, inputSamples, outputGroups := 0, 0, 0;
      new;
      StartsEmpty(d, State());
    }

    /** clone(): a filter bank of its own that continues from a saved state. */
    constructor Clone(s: PfbState, ghost x: seq<C>)
      requires s.After(x)
      ensures State() == s && After(x)
      ensures fresh(history) && fresh(historyPos) && fresh(fftBuffer)
    {
      this.d := s.d;
      history := new C[|s.history|](i requires 0 <= i < |s.history| => s.history[i]);
      historyPos := new nat[|s.historyPos|](i requires 0 <= i < |s.historyPos| => s.historyPos[i]);
      fftBuffer := new C[s.d.g.m](_ => Zero);
      phase, inputSamples, outputGroups := s.phase, s.inputSamples, s.outputGroups;
      new;
      assert history[..] == s.history && historyPos[..] == s.historyPos;
    }

    /** One eight-lane store, newest sample first, into both copies. */
    method StoreLanes(base: nat, v: seq<C>)
      requires |v| == 8 && history.Length == 2 * d.g.Len() && base + 8 <= d.g.Len()
      modifies history
      ensures forall i :: 0 <= i < history.Length ==>
                history[i] == if base <= i < base + 8 then v[base + 7 - i]
                              else if base + d.g.Len() <= i < base + d.g.Len() + 8 then v[base + d.g.Len() + 7 - i]
                              else old(history[i])
    {
      var len := d.g.Len();
      forall lane | 0 <= lane < 8 { history[base + lane] := v[7 - lane]; }
      forall lane | 0 <= lane < 8 { history[base + lane + len] := v[7 - lane]; }
    }

    /** Both copies hold the first j samples of v right to left below `end`, and
        everything else is as before. */
    ghost predicate RowFilled(before: seq<C>, v: seq<C>, end: int, j: nat)
      requires |before| == history.Length == 2 * d.g.Len() && j <= |v|
      reads history
    {
      && (forall i :: 0 <= i < d.g.Len() ==>
            history[i] == if end - j <= i < end then v[end - 1 - i] else before[i])
      && (forall i :: d.g.Len() <= i < 2 * d.g.Len() ==>
            history[i] == if end + d.g.Len() - j <= i < end + d.g.Len() then v[end + d.g.Len() - 1 - i] else before[i])
    }

    method StoreEights(ghost before: seq<C>, v: seq<C>, end: nat) returns (j: nat)
      requires history.Length == 2 * d.g.Len() && before == history[..]
      requires |v| <= end <= d.g.Len()
      modifies history
      ensures j <= |v| < j + 8 && RowFilled(before, v, end, j)
    {
      j := 0;
      while j + 8 <= |v|
        invariant j <= |v| && RowFilled(before, v, end, j)
      {
        StoreLanes(end - j - 8, v[j..j + 8]);
        j := j + 8;
      }
    }

    method StoreRest(ghost before: seq<C>, v: seq<C>, end: nat, first: nat)
      requires |before| == history.Length == 2 * d.g.Len() && first <= |v| <= end <= d.g.Len()
      requires RowFilled(before, v, end, first)
      modifies history
      ensures RowFilled(before, v, end, |v|)
    {
      var j := first;
      while j < |v|
        invariant j <= |v| && RowFilled(before, v, end, j)
      {
        var base := end - j - 1;
        history[base] := v[j];
        history[base + d.g.Len()] := v[j];
        j := j + 1;
      }
    }

    /** Stores one row chunk, eight samples at a time and then one by one; both
        copies are written and no store leaves the row. */
    method WriteHistoryRow(index: nat, v: seq<C>)
      requires d.g.m > 0 && d.g.taps > 0 && history.Length == 2 * d.g.Len()
      requires |v| <= d.g.m - index % d.g.m
      modifies history
      ensures RowWritten(d.g, old(history[..]), history[..], index, v)
    {
      ghost var before := history[..];
      var row := (index / d.g.m) % d.g.taps;
      var end := row * d.g.m + d.g.m - index % d.g.m;
      RowOfSlot(d.g, index);
      var j := StoreEights(before, v, end);
      StoreRest(before, v, end, j);
      hide Slot;
      RowChunkStored(d.g, before, history[..], index, v, end);
    }

    ghost predicate Shaped()
      reads this, history, historyPos
    {
      && State().Shape()
      && fftBuffer.Length == d.g.m
      && fftBuffer != history
    }

    /** Rebuilds the state after the samples x from their last Len samples alone.
        The sample clock is 64 bits wide, so before Len samples it wraps. */
    method LoadHistory(index: nat, tail: seq<C>, ghost x: seq<C>) returns (ok: bool)
      requires Shaped()
      requires |x| == index < CLOCK
      requires |tail| == d.g.Len() ==> forall q :: 0 <= q < |tail| ==> tail[q] == At(x, index - |tail| + q)
      modifies this, history, historyPos
      ensures ok <==> |tail| == d.g.Len()
      ensures ok ==> After(x)
      ensures !ok ==> State() == old(State())
    {
      if |tail| != d.g.Len() { return false; }
      RebuildRing(index, tail, x);
      inputSamples := index;
      DivGe(index, d.g.hop, 0);
      outputGroups := index / d.g.hop;
      phase := index % d.g.hop;
      ok := true;
    }

    method RebuildRing(index: nat, tail: seq<C>, ghost x: seq<C>)
      requires d.Valid() && history.Length == 2 * d.g.Len() && historyPos.Length == d.g.m
      requires |x| == index < CLOCK && |tail| == d.g.Len()
      requires forall q :: 0 <= q < |tail| ==> tail[q] == At(x, index - |tail| + q)
      modifies history, historyPos
      ensures if d.grouped then RowLayout(d.g, history[..], x)
              else BranchLayout(d.g, history[..], historyPos[..], x)
    {
      forall b | 0 <= b < historyPos.Length { historyPos[b] := 0; }
      if d.grouped {
        LoadRows(index, tail);
        RowsLoaded(d.g, history[..], x, tail);
      } else {
        LoadBranches(index, tail);
        BranchLoaded(d.g, history[..], historyPos[..], x, tail);
      }
    }

    method LoadRows(index: nat, tail: seq<C>)
      requires d.Valid() && history.Length == 2 * d.g.Len() && |tail| == d.g.Len() && index < CLOCK
      modifies history
      ensures forall q :: 0 <= q < |tail| ==> RowHolds(d.g, history[..], index - |tail| + q, tail[q])
    {
      var len := |tail|;
      var j := 0;
      while j < len
        invariant 0 <= j <= len
        invariant forall q :: 0 <= q < j ==> RowHolds(d.g, history[..], index - len + q, tail[q])
      {
        var clock := ((index - len) % CLOCK + j) % CLOCK;
        var count := if d.g.m - clock % d.g.m < len - j then d.g.m - clock % d.g.m else len - j;
        ghost var before := history[..];
        WriteHistoryRow(clock, tail[j..j + count]);
        LoadStep(d.g, before, history[..], index, tail, j, count);
        j := j + count;
      }
    }

    method LoadBranches(index: nat, tail: seq<C>)
      requires d.g.m > 0 && d.g.taps > 0 && history.Length == 2 * d.g.Len() && |tail| == d.g.Len()
      modifies history
      ensures forall q :: 0 <= q < |tail| ==> TailStored(d.g, history[..], index, tail, q)
    {
      for j := 0 to |tail|
        invariant forall q :: 0 <= q < j ==> TailStored(d.g, history[..], index, tail, q)
      {
        TailCell(d.g, index, j);
        var base := ((index + j) % d.g.m) * 2 * d.g.taps + j / d.g.m;
        ghost var before := history[..];
        history[base] := tail[j];
        history[base + d.g.taps] := tail[j];
        assert history[..] == before[base := tail[j]][base + d.g.taps := tail[j]];
        TailStoredStep(d.g, before, history[..], index, tail, j);
      }
    }

    /** Takes in at most one hop's worth of samples. */
    method Ingest(v: seq<C>, ghost x: seq<C>)
      requires After(x) && 0 < |v| <= d.g.hop - phase
      modifies this`inputSamples, history, historyPos
      ensures inputSamples == |x + v| && State().Shape()
      ensures if d.grouped then RowLayout(d.g, history[..], x + v)
              else BranchLayout(d.g, history[..], historyPos[..], x + v)
    {
      if d.grouped {
        GeometryFacts(d.g);
        HopInRow(d.g.m, d.g.hop, inputSamples);
        ghost var before := history[..];
        WriteHistoryRow(inputSamples, v);
        RowExtend(d.g, before, history[..], x, v);
      } else {
        IngestBranches(v, x);
      }
      inputSamples := inputSamples + |v|;
    }

    /** A group is complete after the samples y, and not yet counted. */
    ghost predicate Complete(y: seq<C>)
      reads this, history, historyPos
    {
      && State().Shape() && fftBuffer.Length == d.g.m && fftBuffer != history
      && inputSamples == |y| && phase == 0 && |y| == (outputGroups + 1) * d.g.hop
      && |y| % d.g.hop == 0 && |y| / d.g.hop == outputGroups + 1
      && if d.grouped then RowLayout(d.g, history[..], y) else BranchLayout(d.g, history[..], historyPos[..], y)
    }

    /** Takes in a chunk and wraps the phase at the end of a hop. */
    method TakeChunk(v: seq<C>, ghost x: seq<C>) returns (complete: bool)
      requires After(x) && 0 < |v| <= d.g.hop - phase
      modifies this`phase, this`inputSamples, history, historyPos
      ensures complete <==> |v| == d.g.hop - old(phase)
      ensures if complete then Complete(x + v) else After(x + v)
    {
      hide RowLayout, BranchLayout;
      HopStep(d.g.hop, inputSamples, |v|);
      Ingest(v, x);
      phase := phase + |v|;
      complete := phase == d.g.hop;
      if complete { phase := 0; }
    }

    method IngestBranches(v: seq<C>, ghost x: seq<C>)
      requires d.g.m > 0 && d.g.taps > 0 && inputSamples == |x|
      requires historyPos.Length == d.g.m && BranchLayout(d.g, history[..], historyPos[..], x)
      modifies history, historyPos
      ensures BranchLayout(d.g, history[..], historyPos[..], x + v)
    {
      assert x + v[..0] == x;
      for j := 0 to |v|
        invariant BranchLayout(d.g, history[..], historyPos[..], x + v[..j])
      {
        ghost var y := x + v[..j];
        ghost var hist, poses := history[..], historyPos[..];
        var branch := (inputSamples + j) % d.g.m;
        var pos := historyPos[branch];
        var base := branch * 2 * d.g.taps;
        BranchCell(d.g, branch, pos);
        history[base + pos] := v[j];
        history[base + pos + d.g.taps] := v[j];
        var next: nat := (pos + 1) % d.g.taps;
        historyPos[branch] := next;
        assert history[..] == hist[base + pos := v[j]][base + pos + d.g.taps := v[j]];
        assert historyPos[..] == poses[branch := next];
        BranchExtend(d.g, hist, poses, y, v[j], history[..], historyPos[..]);
        assert y + [v[j]] == x + v[..j + 1];
      }
      assert v[..|v|] == v;
    }

    /** Scalar kernel: the dot product of one branch. */
    method BranchDot(r: nat, tmod: nat, ghost x: seq<C>) returns (acc: C)
      requires d.g.m > 0 && d.g.taps > 0 && PhaseTaps(d.g, d.h, d.tapPhase) && r < d.g.m
      requires historyPos.Length == d.g.m && BranchLayout(d.g, history[..], historyPos[..], x)
      requires |x| > 0 && tmod == (|x| - 1) % d.g.m
      ensures acc == BranchSum(d.g, d.h, x, |x| - 1, r)
    {
      ghost var hist, poses := history[..], historyPos[..];
      var branch := (tmod + d.g.m - r) % d.g.m;
      assert branch == BranchOf(d.g, |x| - 1, r);
      var start := branch * 2 * d.g.taps + historyPos[branch];
      acc := Zero;
      for j := 0 to d.g.taps
        invariant acc == Sum(j, i => BranchTerm(d.g, d.h, x, |x| - 1, r, i))
      {
        BranchProduct(d, hist, poses, x, r, j);
        assert history[start + j] == hist[start + j];
        acc := Add(acc, Scale(d.tapPhase[r * d.g.taps + j], history[start + j]));
      }
    }

    method FirBankBaseline(tmod: nat, ghost x: seq<C>)
      requires d.g.m > 0 && d.g.taps > 0 && PhaseTaps(d.g, d.h, d.tapPhase)
      requires fftBuffer.Length == d.g.m && fftBuffer != history
      requires historyPos.Length == d.g.m && BranchLayout(d.g, history[..], historyPos[..], x)
      requires |x| > 0 && tmod == (|x| - 1) % d.g.m
      modifies fftBuffer
      ensures forall r :: 0 <= r < d.g.m ==> fftBuffer[r] == BranchSum(d.g, d.h, x, |x| - 1, r)
    {
      for r := 0 to d.g.m
        invariant forall r' :: 0 <= r' < r ==> fftBuffer[r'] == BranchSum(d.g, d.h, x, |x| - 1, r')
      {
        var acc := BranchDot(r, tmod, x);
        fftBuffer[r] := acc;
      }
    }

    /** One fused step of the eight-lane kernel: tap j of branches r to r + 7. */
    method LaneProducts(start: nat, r: nat, j: nat, ghost x: seq<C>) returns (step: seq<C>)
      requires d.g.m > 0 && d.g.taps > 0 && d.g.m % 8 == 0 && GroupTaps(d.g, d.h, d.tapGroup)
      requires RowLayout(d.g, history[..], x) && |x| % 8 == 0 && |x| > 0
      requires r < d.g.m && r % 8 == 0 && j < d.g.taps && start == LaneStart(d.g, |x| - 1, r)
      ensures |step| == 8
      ensures forall lane :: 0 <= lane < 8 ==> step[lane] == BranchTerm(d.g, d.h, x, |x| - 1, r + lane, j)
    {
      step := [];
      for lane := 0 to 8
        invariant |step| == lane
        invariant forall i :: 0 <= i < lane ==> step[i] == BranchTerm(d.g, d.h, x, |x| - 1, r + i, j)
      {
        LaneTerm(d, history[..], x, r, lane, j);
        step := step + [Scale(d.tapGroup[(r / 8 * d.g.taps + j) * 8 + lane], history[start + j * d.g.m + lane])];
      }
    }

    /** Eight-lane kernel: the dot products of branches r to r + 7. */
    method LaneDots(r: nat, tmod: nat, ghost x: seq<C>) returns (acc: seq<C>)
      requires d.g.m > 0 && d.g.m % 8 == 0 && GroupTaps(d.g, d.h, d.tapGroup)
      requires d.g.taps == 4 || d.g.taps == 8 || d.g.taps == 16
      requires RowLayout(d.g, history[..], x) && |x| % 8 == 0 && |x| > 0 && inputSamples == |x|
      requires r < d.g.m && r % 8 == 0 && tmod == (|x| - 1) % d.g.m
      ensures |acc| == 8
      ensures forall lane :: 0 <= lane < 8 ==> acc[lane] == BranchSum(d.g, d.h, x, |x| - 1, r + lane)
    {
      var start := LaneStartOf(r, tmod, x);
      hide LaneStart, RowLayout, GroupTaps, PairTerm, BranchSum, LanesHold, AddLanes;
      var steps := if d.g.taps < 8 then d.g.taps else 8;
      acc := seq(8, _ => Zero);
      LanesStart(d, x, r, acc);
      for j := 0 to steps
        invariant LanesHold(d, x, r, acc, j)
      {
        var step := LaneStep(start, r, j, x);
        LanesNext(d, x, r, acc, step, j);
        acc := AddLanes(acc, step);
      }
      LanesEnd(d, x, r, acc);
    }

    /** Tap j of eight branches and, for sixteen taps, tap j + 8 with it. */
    method LaneStep(start: nat, r: nat, j: nat, ghost x: seq<C>) returns (step: seq<C>)
      requires d.g.m > 0 && d.g.taps > 0 && d.g.m % 8 == 0 && GroupTaps(d.g, d.h, d.tapGroup)
      requires RowLayout(d.g, history[..], x) && |x| % 8 == 0 && |x| > 0
      requires r < d.g.m && r % 8 == 0 && start == LaneStart(d.g, |x| - 1, r)
      requires j < d.g.taps && (d.g.taps == 16 ==> j < 8)
      ensures |step| == 8
      ensures forall lane :: 0 <= lane < 8 ==> step[lane] == PairTerm(d, x, r + lane, j)
    {
      hide LaneStart, RowLayout, GroupTaps, BranchTerm, Add;
      step := LaneProducts(start, r, j, x);
      if d.g.taps == 16 {
        var upper := LaneProducts(start, r, j + 8, x);
        step := seq(8, lane requires 0 <= lane < 8 => Add(step[lane], upper[lane]));
      }
    }

    /** The first cell of a group, in the oldest row of its branch. */
    method LaneStartOf(r: nat, tmod: nat, ghost x: seq<C>) returns (start: nat)
      requires d.g.m > 0 && d.g.taps > 0 && r < d.g.m
      requires |x| > 0 && inputSamples == |x| && tmod == (|x| - 1) % d.g.m
      ensures start == LaneStart(d.g, |x| - 1, r)
    {
      var row := (inputSamples - 1) / d.g.m;
      var branch := (tmod + d.g.m - r) % d.g.m;
      var oldest := (row + (if r <= tmod then 1 else 0)) % d.g.taps;
      MulMono(0, oldest, d.g.m);
      start := oldest * d.g.m + d.g.m - 1 - branch;
    }

    method FirBankGrouped(tmod: nat, ghost x: seq<C>)
      requires d.g.m > 0 && d.g.m % 8 == 0 && GroupTaps(d.g, d.h, d.tapGroup)
      requires d.g.taps == 4 || d.g.taps == 8 || d.g.taps == 16
      requires fftBuffer.Length == d.g.m && fftBuffer != history
      requires RowLayout(d.g, history[..], x) && |x| % 8 == 0 && |x| > 0 && inputSamples == |x|
      requires tmod == (|x| - 1) % d.g.m
      modifies fftBuffer
      ensures forall r :: 0 <= r < d.g.m ==> fftBuffer[r] == BranchSum(d.g, d.h, x, |x| - 1, r)
    {
      hide RowLayout, GroupTaps, BranchSum;
      var r := 0;
      while r < d.g.m
        invariant 0 <= r <= d.g.m && r % 8 == 0
        invariant forall r' :: 0 <= r' < r ==> fftBuffer[r'] == BranchSum(d.g, d.h, x, |x| - 1, r')
      {
        var acc := LaneDots(r, tmod, x);
        forall lane | 0 <= lane < 8 { fftBuffer[r + lane] := acc[lane]; }
        forall r' | r <= r' < r + 8
          ensures fftBuffer[r'] == BranchSum(d.g, d.h, x, |x| - 1, r')
        {
          assert fftBuffer[r + (r' - r)] == acc[r' - r];
        }
        r := r + 8;
      }
    }

    /** One bin of the inverse transform, as its defining sum. */
    method DftBin(input: seq<C>, k: nat) returns (acc: C)
      requires d.g.m > 0 && |input| == d.g.m
      ensures acc == Dft(input, d.w, d.g.m, k)
    {
      hide Mul, Add, Twiddle;
      acc := Zero;
      for r := 0 to d.g.m
        invariant acc == Sum(r, i => DftTerm(input, d.w, d.g.m, k, i))
      {
        acc := Add(acc, Mul(input[r], Twiddle(d.w, d.g.m, k * r)));
      }
    }

    method InverseDft()
      requires d.g.m > 0 && fftBuffer.Length == d.g.m
      modifies fftBuffer
      ensures forall k :: 0 <= k < d.g.m ==> fftBuffer[k] == Dft(old(fftBuffer[..]), d.w, d.g.m, k)
    {
      hide Dft;
      var input := fftBuffer[..];
      for k := 0 to d.g.m
        invariant forall k' :: 0 <= k' < k ==> fftBuffer[k'] == Dft(input, d.w, d.g.m, k')
      {
        var bin := DftBin(input, k);
        fftBuffer[k] := bin;
      }
    }

    /** At a hop boundary: branch sums, transform and rotation of the chosen bins. */
    method EmitGroup(bins: seq<nat>, out: array<C>, at: nat, ghost x: seq<C>)
      requires d.Valid() && fftBuffer.Length == d.g.m && fftBuffer != history
      requires historyPos.Length == d.g.m && inputSamples == |x|
      requires if d.grouped then RowLayout(d.g, history[..], x)
               else BranchLayout(d.g, history[..], historyPos[..], x)
      requires |x| == (outputGroups + 1) * d.g.hop
      requires forall c :: 0 <= c < |bins| ==> bins[c] < d.g.m
      requires out != fftBuffer && out != history && at + |bins| <= out.Length
      modifies fftBuffer, out
      ensures forall i :: 0 <= i < out.Length ==>
                out[i] == if at <= i < at + |bins| then
                            Mixer(d.g, d.h, d.w, x, bins[i - at], GroupInstant(d.g, outputGroups))
                          else old(out[i])
    {
      FirBank(x);
      ghost var branches := fftBuffer[..];
      InverseDft();
      WriteColumns(bins, out, at, x, branches);
    }

    /** Appends the group that is complete after the samples y. */
    method AppendGroup(bins: seq<nat>, out: array<C>, groups: nat, ghost first: nat,
                       ghost y: seq<C>, ghost rest: seq<C>)
      requires d.Valid() && fftBuffer.Length == d.g.m && fftBuffer != history
      requires historyPos.Length == d.g.m && inputSamples == |y|
      requires if d.grouped then RowLayout(d.g, history[..], y)
               else BranchLayout(d.g, history[..], historyPos[..], y)
      requires outputGroups == first + groups && |y| == (outputGroups + 1) * d.g.hop
      requires |bins| > 0 && forall c :: 0 <= c < |bins| ==> bins[c] < d.g.m
      requires out != fftBuffer && out != history
      requires 0 <= groups * |bins| && groups * |bins| + |bins| <= out.Length
      requires forall i :: 0 <= i < groups * |bins| ==> out[i] == BankValue(d, y + rest, first, bins, i)
      modifies fftBuffer, out
      ensures forall i :: 0 <= i < groups * |bins| + |bins| ==> out[i] == BankValue(d, y + rest, first, bins, i)
    {
      hide RowLayout, BranchLayout;
      ghost var before := out[..];
      EmitGroup(bins, out, groups * |bins|, y);
      GroupEmitted(d, y, rest, first, groups, bins, before, out[..]);
    }

    method FirBank(ghost x: seq<C>)
      requires d.Valid() && fftBuffer.Length == d.g.m && fftBuffer != history
      requires historyPos.Length == d.g.m && inputSamples == |x|
      requires if d.grouped then RowLayout(d.g, history[..], x)
               else BranchLayout(d.g, history[..], historyPos[..], x)
      requires |x| == (outputGroups + 1) * d.g.hop
      modifies fftBuffer
      ensures forall r :: 0 <= r < d.g.m ==> fftBuffer[r] == BranchSum(d.g, d.h, x, |x| - 1, r)
    {
      GeometryFacts(d.g);
      MulMono(1, outputGroups + 1, d.g.hop);
      var tmod := (inputSamples - 1) % d.g.m;
      if d.grouped {
        EightTimes(outputGroups + 1, d.g.hop);
        FirBankGrouped(tmod, x);
      } else {
        FirBankBaseline(tmod, x);
      }
    }

    method WriteColumns(bins: seq<nat>, out: array<C>, at: nat, ghost x: seq<C>, ghost branches: seq<C>)
      requires d.g.m > 0 && d.g.oversample > 0 && d.g.hop * d.g.oversample == d.g.m && Root(d.w, d.g.m)
      requires CycleTable(d.g, d.w, d.phaseCycle)
      requires fftBuffer.Length == d.g.m == |branches| && out != fftBuffer && at + |bins| <= out.Length
      requires |x| == (outputGroups + 1) * d.g.hop
      requires forall r :: 0 <= r < d.g.m ==> branches[r] == BranchSum(d.g, d.h, x, |x| - 1, r)
      requires forall k :: 0 <= k < d.g.m ==> fftBuffer[k] == Dft(branches, d.w, d.g.m, k)
      requires forall c :: 0 <= c < |bins| ==> bins[c] < d.g.m
      modifies out
      ensures forall i :: 0 <= i < out.Length ==>
                out[i] == if at <= i < at + |bins| then
                            Mixer(d.g, d.h, d.w, x, bins[i - at], GroupInstant(d.g, outputGroups))
                          else old(out[i])
    {
      for col := 0 to |bins|
        invariant forall i :: 0 <= i < out.Length ==>
                    out[i] == if at <= i < at + col then
                                Mixer(d.g, d.h, d.w, x, bins[i - at], GroupInstant(d.g, outputGroups))
                              else old(out[i])
      {
        var k := bins[col];
        var ph := CycleAt(outputGroups, k);
        RotatedBin(d, x, k, outputGroups, branches);
        out[at + col] := Mul(fftBuffer[k], ph);
      }
    }

    method CycleAt(group: nat, k: nat) returns (ph: C)
      requires d.g.m > 0 && d.g.oversample > 0 && d.g.hop * d.g.oversample == d.g.m && k < d.g.m
      requires CycleTable(d.g, d.w, d.phaseCycle)
      ensures ph == Twiddle(d.w, d.g.m, -(k * GroupInstant(d.g, group)))
    {
      var q := group % d.g.oversample;
      BankCell(d.g.oversample, d.g.m, q, k);
      assert CycleCell(d.g, d.w, d.phaseCycle, q, k);
      PhaseCycle(d.g, d.w, k, group);
      ph := d.phaseCycle[q * d.g.m + k];
    }

    /** Takes in one packet and writes the groups it completes, one column per
        bin. The result does not depend on how the stream is cut into packets. */
    method Process(iq: seq<C>, bins: seq<nat>, out: array<C>, ghost x: seq<C>) returns (groups: nat)
      requires After(x)
      requires forall c :: 0 <= c < |bins| ==> bins[c] < d.g.m
      requires out != fftBuffer && out != history
      requires GroupCount(d.g, |x|, |iq|) * |bins| <= out.Length
      modifies this`phase, this`inputSamples, this`outputGroups, history, historyPos, fftBuffer, out
      ensures After(x + iq)
      ensures groups == GroupCount(d.g, |x|, |iq|)
      ensures groups * |bins| <= out.Length
      ensures out[..groups * |bins|] == Bank(d.g, d.h, d.w, x + iq, |x| / d.g.hop, groups, bins)
      ensures Demodulates(d, x + iq, |x| / d.g.hop, groups, bins, out[..groups * |bins|])
    {
      hide RowLayout, BranchLayout, BankValue, Bank, Demodulates;
      groups := 0;
      ghost var all := x + iq;
      ghost var first := |x| / d.g.hop;
      var consumed := 0;
      assert x + iq[..0] == x;
      GroupCountBound(d.g, |x|, |iq|);
      MulMono(0, groups, |bins|);
      while consumed < |iq|
        invariant 0 <= consumed <= |iq|
        invariant After(x + iq[..consumed])
        invariant outputGroups == first + groups
        invariant groups * |bins| <= out.Length
        invariant |bins| > 0 ==>
                    forall i :: 0 <= i < groups * |bins| ==> out[i] == BankValue(d, all, first, bins, i)
        decreases |iq| - consumed
      {
        ghost var y := x + iq[..consumed];
        var count := if d.g.hop - phase < |iq| - consumed then d.g.hop - phase else |iq| - consumed;
        var chunk := iq[consumed..consumed + count];
        var complete := TakeChunk(chunk, y);
        assert y + chunk == x + iq[..consumed + count];
        consumed := consumed + count;
        if !complete { continue; }
        assert x + iq[..consumed] + iq[consumed..] == all;
        GroupRoom(d.g, |x|, consumed, |iq|, groups, |bins|, out.Length);
        if |bins| > 0 { AppendGroup(bins, out, groups, first, x + iq[..consumed], iq[consumed..]); }
        groups := groups + 1;
        outputGroups := outputGroups + 1;
      }
      assert iq[..consumed] == iq;
      BankComplete(d, all, first, groups, bins, out[..groups * |bins|]);
      BankDemodulates(d, all, first, groups, bins);
    }
  }

  /** Entry i of a packet's output. */
  ghost function BankValue(d: Design, x: seq<C>, first: nat, bins: seq<nat>, i: int): C
    requires d.g.m > 0 && |bins| > 0
  {
    Mixer(d.g, d.h, d.w, x, bins[i % |bins|], GroupInstant(d.g, first + i / |bins|))
  }

  lemma GroupRoom(g: Geometry, n: nat, consumed: nat, total: nat, groups: nat, bins: nat, room: nat)
    requires g.hop > 0 && consumed <= total
    requires (n + consumed) / g.hop == n / g.hop + groups + 1
    requires GroupCount(g, n, total) * bins <= room
    ensures 0 <= groups * bins && groups * bins + bins == (groups + 1) * bins <= room
  {
    DivMono(n + consumed, n + total, g.hop);
    MulMono(groups + 1, GroupCount(g, n, total), bins);
    MulMono(0, groups, bins);
  }

  lemma GroupEmitted(d: Design, y: seq<C>, rest: seq<C>, first: nat, groups: nat, bins: seq<nat>,
                     before: seq<C>, after: seq<C>)
    requires d.g.m > 0 && |bins| > 0 && |y| == (first + groups + 1) * d.g.hop && d.g.hop > 0
    requires |before| == |after| && 0 <= groups * |bins| && groups * |bins| + |bins| <= |after|
    requires forall i :: 0 <= i < groups * |bins| ==> before[i] == BankValue(d, y + rest, first, bins, i)
    requires var at := groups * |bins|;
             forall i :: 0 <= i < |after| ==>
               after[i] == if at <= i < at + |bins| then
                             Mixer(d.g, d.h, d.w, y, bins[i - at], GroupInstant(d.g, first + groups))
                           else before[i]
    ensures forall i :: 0 <= i < groups * |bins| + |bins| ==> after[i] == BankValue(d, y + rest, first, bins, i)
  {
    var at := groups * |bins|;
    forall i | at <= i < at + |bins|
      ensures after[i] == BankValue(d, y + rest, first, bins, i)
    {
      DivModUnique(i, |bins|, groups, i - at);
      MixerStable(d.g, d.h, d.w, y, rest, bins[i - at], GroupInstant(d.g, first + groups));
    }
  }

  lemma BankComplete(d: Design, x: seq<C>, first: nat, groups: nat, bins: seq<nat>, out: seq<C>)
    requires d.g.m > 0 && |out| == groups * |bins|
    requires |bins| > 0 ==> forall i :: 0 <= i < groups * |bins| ==> out[i] == BankValue(d, x, first, bins, i)
    ensures out == Bank(d.g, d.h, d.w, x, first, groups, bins)
  {
  }

  lemma EightTimes(a: int, b: int)
    requires b % 8 == 0
    ensures (a * b) % 8 == 0
  {
    assert a * b == 8 * (a * (b / 8)) by { assert b == 8 * (b / 8); }
  }

  lemma RotatedBin(d: Design, x: seq<C>, k: nat, group: nat, branches: seq<C>)
    requires d.g.m > 0 && Root(d.w, d.g.m) && |branches| == d.g.m && k < d.g.m
    requires |x| == (group + 1) * d.g.hop
    requires forall r :: 0 <= r < d.g.m ==> branches[r] == BranchSum(d.g, d.h, x, |x| - 1, r)
    ensures Mul(Dft(branches, d.w, d.g.m, k), Twiddle(d.w, d.g.m, -(k * GroupInstant(d.g, group))))
            == Mixer(d.g, d.h, d.w, x, k, GroupInstant(d.g, group))
  {
    PolyphaseIsMixer(d.g, d.h, d.w, x, k, GroupInstant(d.g, group), branches);
  }

  /** Column c of group number first + q holds the input filtered with the prototype
      around bin bins[c] and moved down from it, as it stands when the group is complete;
      a unit tone of that bin gives the sum of the prototype once the window is full. */
  ghost predicate Demodulates(d: Design, x: seq<C>, first: nat, groups: nat, bins: seq<nat>, out: seq<C>) {
    |out| == groups * |bins| && forall i :: 0 <= i < |out| ==> DemodulatedCell(d, x, first, bins, i, out[i])
  }

  ghost predicate DemodulatedCell(d: Design, x: seq<C>, first: nat, bins: seq<nat>, i: nat, v: C) {
    |bins| > 0 &&
    var k, end := bins[i % |bins|], (first + i / |bins| + 1) * d.g.hop;
    && 0 < end && Demodulated(d.g, d.h, d.w, x, k, end - 1, v)
    && (Tone(x, d.w, k) && d.g.Len() <= end <= |x| ==> v == C(Total(d.h), 0.0))
  }

  lemma BankDemodulates(d: Design, x: seq<C>, first: nat, groups: nat, bins: seq<nat>)
    requires d.g.m > 0 && d.g.hop > 0 && Root(d.w, d.g.m) && |d.h| == d.g.Len()
    ensures Demodulates(d, x, first, groups, bins, Bank(d.g, d.h, d.w, x, first, groups, bins))
  {
    hide Mixer, Demodulated, Tone, Total;
    var out := Bank(d.g, d.h, d.w, x, first, groups, bins);
    forall i | 0 <= i < |out|
      ensures DemodulatedCell(d, x, first, bins, i, out[i])
    {
      var k, group := bins[i % |bins|], first + i / |bins|;
      MulMono(1, group + 1, d.g.hop);
      var t: nat := (group + 1) * d.g.hop - 1;
      MixerDemodulates(d.g, d.h, d.w, x, k, t);
      if Tone(x, d.w, k) && d.g.Len() <= t + 1 <= |x| { ToneIsTotal(d.g, d.h, d.w, x, k, t); }
    }
  }

  /** One product of the scalar kernel is the branch term it stands for. */
  lemma BranchProduct(d: Design, hist: seq<C>, pos: seq<nat>, x: seq<C>, r: int, j: int)
    requires d.g.m > 0 && d.g.taps > 0 && PhaseTaps(d.g, d.h, d.tapPhase)
    requires |x| > 0 && BranchLayout(d.g, hist, pos, x)
    requires 0 <= r < d.g.m && 0 <= j < d.g.taps
    ensures 0 <= r * d.g.taps + j < |d.tapPhase|
    ensures BranchReads(d.g, hist, pos, x, r, j)
    ensures Scale(d.tapPhase[r * d.g.taps + j], At(x, |x| - 1 - r - (d.g.taps - 1 - j) * d.g.m))
            == BranchTerm(d.g, d.h, x, |x| - 1, r, j)
  {
    BranchRead(d.g, hist, pos, x, r, j);
    TapCell(d.g, r, j);
    assert PhaseTap(d.g, d.h, d.tapPhase, r, j);
  }

  /** One lane's product is the branch term it stands for. */
  lemma LaneTerm(d: Design, hist: seq<C>, x: seq<C>, r: int, lane: int, j: int)
    requires d.g.m > 0 && d.g.taps > 0 && d.g.m % 8 == 0 && GroupTaps(d.g, d.h, d.tapGroup)
    requires RowLayout(d.g, hist, x) && |x| % 8 == 0 && |x| > 0
    requires 0 <= r < d.g.m && r % 8 == 0 && 0 <= lane < 8 && 0 <= j < d.g.taps
    ensures r + lane < d.g.m
    ensures 0 <= LaneStart(d.g, |x| - 1, r) + j * d.g.m + lane < |hist|
    ensures 0 <= (r / 8 * d.g.taps + j) * 8 + lane < |d.tapGroup|
    ensures Scale(d.tapGroup[(r / 8 * d.g.taps + j) * 8 + lane], hist[LaneStart(d.g, |x| - 1, r) + j * d.g.m + lane])
            == BranchTerm(d.g, d.h, x, |x| - 1, r + lane, j)
  {
    RowRead(d.g, hist, x, r, lane, j);
    hide LaneStart, RowLayout;
    LaneCoefficient(d, r, lane, j);
  }

  lemma LaneCoefficient(d: Design, r: int, lane: int, j: int)
    requires d.g.m > 0 && d.g.m % 8 == 0 && GroupTaps(d.g, d.h, d.tapGroup)
    requires 0 <= r && r + lane < d.g.m && r % 8 == 0 && 0 <= lane < 8 && 0 <= j < d.g.taps
    ensures 0 <= (r / 8 * d.g.taps + j) * 8 + lane < |d.tapGroup|
    ensures d.tapGroup[(r / 8 * d.g.taps + j) * 8 + lane]
            == Tap(d.h, r + lane + (d.g.taps - 1 - j) * d.g.m)
  {
    GroupCellFacts(d.g, r + lane, j);
    assert GroupTap(d.g, d.h, d.tapGroup, r + lane, j);
    assert (r + lane) / 8 == r / 8 && (r + lane) % 8 == lane;
  }

  lemma RowsLoaded(g: Geometry, hist: seq<C>, x: seq<C>, tail: seq<C>)
    requires g.m > 0 && g.taps > 0 && |hist| == 2 * g.Len() && |tail| == g.Len()
    requires forall q :: 0 <= q < |tail| ==> tail[q] == At(x, |x| - |tail| + q)
    requires forall q :: 0 <= q < |tail| ==> RowHolds(g, hist, |x| - |tail| + q, tail[q])
    ensures RowLayout(g, hist, x)
  {
    forall n | |x| - g.Len() <= n < |x|
      ensures RowHolds(g, hist, n, At(x, n))
    {
      var q := n - |x| + g.Len();
      assert RowHolds(g, hist, |x| - |tail| + q, tail[q]);
    }
  }

  lemma TailStoredStep(g: Geometry, before: seq<C>, after: seq<C>, index: nat, tail: seq<C>, j: nat)
    requires g.m > 0 && g.taps > 0 && |before| == |after| == 2 * g.Len() && j < |tail| == g.Len()
    requires forall q :: 0 <= q < j ==> TailStored(g, before, index, tail, q)
    requires var cell := ((index + j) % g.m) * 2 * g.taps + j / g.m;
             && 0 <= cell && cell + g.taps < |before|
             && after == before[cell := tail[j]][cell + g.taps := tail[j]]
    ensures forall q :: 0 <= q <= j ==> TailStored(g, after, index, tail, q)
  {
    forall q | 0 <= q <= j
      ensures TailStored(g, after, index, tail, q)
    {
      TailCell(g, index, q);
      if q < j {
        assert TailStored(g, before, index, tail, q);
        TailCellsApart(g, index, q, j);
      }
    }
  }

  /** One chunk of a rebuild: the chunk's samples arrive, the earlier ones stay. */
  lemma LoadStep(g: Geometry, before: seq<C>, after: seq<C>, index: nat, tail: seq<C>, j: nat, count: nat)
    requires g.Valid() && |before| == 2 * g.Len() && |tail| == g.Len() && j + count <= g.Len()
    requires forall q :: 0 <= q < j ==> RowHolds(g, before, index - g.Len() + q, tail[q])
    requires var clock := ((index - g.Len()) % CLOCK + j) % CLOCK;
             count <= g.m - clock % g.m && RowWritten(g, before, after, clock, tail[j..j + count])
    ensures forall q :: 0 <= q < j + count ==> RowHolds(g, after, index - g.Len() + q, tail[q])
  {
    var start := index - g.Len() + j;
    var clock := ((index - g.Len()) % CLOCK + j) % CLOCK;
    HistoryDividesClock(g);
    WrappedClock(g, index - g.Len(), j);
    RowWrittenAt(g, before, after, clock, start, tail[j..j + count]);
    forall q | 0 <= q < j + count
      ensures RowHolds(g, after, index - g.Len() + q, tail[q])
    {
      RowCell(g, before, after, start, tail[j..j + count], index - g.Len() + q);
    }
  }

  lemma RowWrittenAt(g: Geometry, before: seq<C>, after: seq<C>, a: int, b: int, v: seq<C>)
    requires g.m > 0 && g.taps > 0 && Slot(g, a) == Slot(g, b) && RowWritten(g, before, after, a, v)
    ensures RowWritten(g, before, after, b, v)
  {
    forall i | 0 <= i < g.Len()
      ensures RowCellWritten(g, before, after, b, v, i)
    {
      assert RowCellWritten(g, before, after, a, v, i);
    }
  }

  /** A clock that wrapped around still names the same slot. */
  lemma WrappedClock(g: Geometry, a: int, j: nat)
    requires g.m > 0 && g.taps > 0 && CLOCK % g.Len() == 0
    ensures var clock := (a % CLOCK + j) % CLOCK;
            Slot(g, clock) == Slot(g, a + j) && clock % g.m == (a + j) % g.m
  {
    var clock := (a % CLOCK + j) % CLOCK;
    var k := -((a % CLOCK + j) / CLOCK) - a / CLOCK;
    var c := CLOCK / g.Len();
    assert clock == a + j + k * CLOCK;
    MulMono(1, g.taps, g.m);
    assert CLOCK == c * g.Len() by { assert CLOCK == (CLOCK / g.Len()) * g.Len() + CLOCK % g.Len(); }
    Reassociate(k, c, g.taps, g.m);
    SlotShift(g, a + j, k * c);
    DivModShift(a + j, k * c * g.taps, g.m);
  }

  lemma Reassociate(k: int, c: int, t: int, m: int)
    ensures k * (c * (t * m)) == (k * c) * (t * m) == (k * c * t) * m
  {
  }

  lemma StartsEmpty(d: Design, s: PfbState)
    requires d.Valid() && s.d == d
    requires |s.history| == 2 * d.g.Len() && |s.historyPos| == d.g.m
    requires forall i :: 0 <= i < |s.history| ==> s.history[i] == Zero
    requires forall i :: 0 <= i < |s.historyPos| ==> s.historyPos[i] == 0
    requires s.phase == 0 && s.inputSamples == 0 && s.outputGroups == 0
    ensures s.After([])
  {
    DivModUnique(0, d.g.hop, 0, 0);
    forall n | 0 - d.g.Len() <= n < 0
      ensures RowHolds(d.g, s.history, n, At([], n))
    {
      SlotRange(d.g, n);
    }
    forall b, i | 0 <= b < d.g.m && 0 <= i < d.g.taps
      ensures BranchHolds(d.g, s.history, s.historyPos[b], [], b, i)
    {
      BranchCell(d.g, b, (0 + i) % d.g.taps);
    }
  }
}

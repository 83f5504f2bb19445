/** One fine channel behind the filter bank: column selection, the decimating
    kernel, and the raw-sample clock of its outputs. */
module FineChannel {
  import opened Arith
  import opened Complex
  import opened Channelizer
  import opened Narrow
  import opened Fir
  import opened Pfb
  import Oscillator
  import P = PfbPool

  /** One ordered filter-bank result. */
  datatype PfbOutput = PfbOutput(seqno: nat, stamp: nat, inputIndex: nat, epoch: nat, groups: nat, iq: seq<C>)

  datatype FineOutput = FineOutput(channelId: nat, epoch: nat, bin: nat, seqno: nat, stamp: nat,
                                   inputIndex: nat, outputIndex: nat, iq: seq<C>)

  datatype Error = Sequence | Shape | ClockOverflow
  datatype Result = Err(error: Error) | Ok(output: FineOutput)

  // ---------------------------------------------------------- column choice

  ghost predicate Shaped(p: PfbOutput, columns: nat) { |p.iq| == p.groups * columns }

  /** The samples of one column of a time-major packet. */
  ghost function Column(iq: seq<C>, columns: nat, column: nat, groups: nat): (s: seq<C>)
    requires |iq| == groups * columns && column < columns
    ensures |s| == groups
  {
    seq(groups, g requires 0 <= g < groups =>
      BankCell(groups, columns, g, column);
      iq[g * columns + column])
  }

  /** The copy loop of process: one sample of every group. */
  method PickColumn(iq: seq<C>, columns: nat, column: nat, groups: nat) returns (s: seq<C>)
    requires |iq| == groups * columns && column < columns
    ensures s == Column(iq, columns, column, groups)
  {
    s := [];
    for g := 0 to groups
      invariant s == Column(iq, columns, column, groups)[..g]
    {
      BankCell(groups, columns, g, column);
      s := s + [iq[g * columns + column]];
    }
  }

  /** A column of the filter bank's output is the direct mixer of its bin: what a
      channel receives depends on its bin only, not on the selection around it. */
  lemma ColumnIsBin(g: Geometry, h: seq<real>, w: C, x: seq<C>, first: nat, groups: nat, bins: seq<nat>, column: nat)
    requires g.m > 0 && column < |bins|
    ensures |Bank(g, h, w, x, first, groups, bins)| == groups * |bins|
    ensures Column(Bank(g, h, w, x, first, groups, bins), |bins|, column, groups)
            == seq(groups, i => Mixer(g, h, w, x, bins[column], GroupInstant(g, first + i)))
  {
    hide Mixer;
    forall i | 0 <= i < groups
      ensures Column(Bank(g, h, w, x, first, groups, bins), |bins|, column, groups)[i]
              == Mixer(g, h, w, x, bins[column], GroupInstant(g, first + i))
    {
      BankCell(groups, |bins|, i, column);
    }
  }

  /** After a selection change with the columns moved accordingly, a channel that
      follows its bin receives the same samples. */
  lemma RemappedColumn(g: Geometry, h: seq<real>, w: C, x: seq<C>, first: nat, groups: nat,
                       bins: seq<nat>, column: nat, bins': seq<nat>, column': nat)
    requires g.m > 0 && column < |bins| && column' < |bins'| && bins[column] == bins'[column']
    ensures |Bank(g, h, w, x, first, groups, bins)| == groups * |bins|
    ensures |Bank(g, h, w, x, first, groups, bins')| == groups * |bins'|
    ensures Column(Bank(g, h, w, x, first, groups, bins), |bins|, column, groups)
            == Column(Bank(g, h, w, x, first, groups, bins'), |bins'|, column', groups)
  {
    ColumnIsBin(g, h, w, x, first, groups, bins, column);
    ColumnIsBin(g, h, w, x, first, groups, bins', column');
  }

  // --------------------------------------------------------------- the clock

  /** Raw index at which output k of a channel that joined after g0 groups is
      complete. */
  ghost function OutputInstant(hop: nat, g0: nat, decimate: nat, k: nat): int { (g0 + (k + 1) * decimate) * hop - 1 }

  /** The clock that process reports is exact: after g0 + consumed groups the next
      output is number consumed / decimate, and it completes at that instant. */
  lemma ReportedClock(hop: nat, g0: nat, decimate: nat, consumed: nat, index: nat)
    requires hop > 0 && decimate > 0 && index / hop == g0 + consumed
    ensures index + (hop - 1 - index % hop) + (decimate - 1 - consumed % decimate) * hop
            == OutputInstant(hop, g0, decimate, Count(consumed, decimate))
  {
    var k, low := Count(consumed, decimate), consumed % decimate;
    assert consumed == k * decimate + low;
    assert index == (index / hop) * hop + index % hop;
    ClockAlgebra(hop, g0, decimate, k, low);
  }

  lemma ClockAlgebra(hop: int, g0: int, d: int, k: int, low: int)
    ensures (g0 + (k * d + low)) * hop + (hop - 1) + (d - 1 - low) * hop == (g0 + (k + 1) * d) * hop - 1
  {
    assert (g0 + (k * d + low)) * hop + (d - low) * hop == (g0 + (k * d + low) + (d - low)) * hop;
    assert (d - 1 - low) * hop == (d - low) * hop - hop;
    assert (k + 1) * d == k * d + d;
  }

  /** Consecutive filter-bank packets keep a channel in step, also across packets
      that complete no group. */
  lemma StaysInStep(g: Geometry, g0: nat, consumed: nat, index: nat, samples: nat)
    requires g.hop > 0 && index / g.hop == g0 + consumed
    ensures GroupCount(g, index, samples) >= 0
    ensures (index + samples) / g.hop == g0 + consumed + GroupCount(g, index, samples)
  {
    GroupCountBound(g, index, samples);
  }

  /** The ordered pool outputs are such packets. */
  lemma PoolStaysInStep(d: Design, emitIq: bool, packets: seq<P.Packet>, i: nat, g0: nat, consumed: nat)
    requires d.g.m > 0 && d.g.hop > 0 && i + 1 < |packets|
    requires P.Serial(d, emitIq, packets, i).inputIndex / d.g.hop == g0 + consumed
    ensures P.Serial(d, emitIq, packets, i + 1).inputIndex / d.g.hop
            == g0 + consumed + P.Serial(d, emitIq, packets, i).groups
  {
    hide P.Input, Bank;
    assert packets[..i + 1] == packets[..i] + [packets[i]];
    P.InputStep(packets[..i], packets[i]);
    StaysInStep(d.g, g0, consumed, |P.Input(packets[..i])|, |packets[i].iq|);
  }

  // --------------------------------------------------------------- kernels

  /** The down-converter behind a channel: the (fused or two-stage) pair or a
      planned cascade. */
  datatype Kernel = Pair(channel: Channel) | Planned(cascade: Cascade) {
    ghost function Repr(): set<object> {
      match this
      case Pair(c) => {c, c.r1, c.r2}
      case Planned(c) => {c} + c.Repr()
    }

    ghost predicate After(x: seq<C>)
      reads Repr()
    {
      match this
      case Pair(c) => c.After(x)
      case Planned(c) => c.After(x)
    }

    ghost predicate Configured() {
      match this
      case Pair(c) => c.Configured()
      case Planned(c) => c.Wired()
    }

    /** Coarse samples per output. */
    ghost function Decimation(): nat {
      match this
      case Pair(c) => c.d1 * c.d2
      case Planned(c) => c.decimate
    }

    /** The rotation of one coarse sample. */
    ghost function Step(): C {
      match this
      case Pair(c) => c.step
      case Planned(c) => c.step
    }

    /** Whole-stream meaning of the kernel: rotation, filters, decimation. */
    ghost function Meaning(x: seq<C>): seq<C>
      requires Configured()
    {
      match this
      case Pair(c) => c.Meaning(x)
      case Planned(c) => c.Meaning(x)
    }
  }

  lemma KernelFacts(k: Kernel, x: seq<C>)
    requires k.After(x)
    ensures k.Configured() && k.Decimation() > 0 && |k.Meaning(x)| == |x| / k.Decimation()
    ensures k.Pair? ==> k.channel.inputSamples == |x| && k.channel.outputSamples == |k.Meaning(x)|
    ensures k.Planned? ==> k.cascade.inputSamples == |x| && k.cascade.outputSamples == |k.Meaning(x)|
  {
    match k
    case Pair(c) =>
      MulMono(1, c.d1, c.d2);
    case Planned(c) =>
      ChainLength(c.specs, Oscillator.Mixed(c.step, x));
  }

  /** channel_clock. */
  method ChannelClock(k: Kernel, ghost x: seq<C>) returns (consumed: nat, produced: nat)
    requires k.After(x)
    ensures k.Configured() && consumed == |x| && produced == |k.Meaning(x)|
  {
    KernelFacts(k, x);
    match k
    case Pair(c) =>
      consumed, produced := c.inputSamples, c.outputSamples;
    case Planned(c) =>
      consumed, produced := c.inputSamples, c.outputSamples;
  }

  /** channel_process_float, with the room a channel always has: it cannot fail. */
  method RunKernel(k: Kernel, iq: seq<C>, out: array<C>, ghost x: seq<C>) returns (count: nat)
    requires k.After(x) && out !in k.Repr() && |iq| <= MAX_PACKET
    requires k.Decimation() > 0 ==> Capacity(|iq|, k.Decimation()) <= out.Length
    modifies k.Repr(), out
    ensures k.After(x + iq) && k.Configured() && count <= out.Length
    ensures k.Meaning(x + iq) == k.Meaning(x) + out[..count]
  {
    KernelFacts(k, x);
    var code;
    match k {
      case Pair(c) =>
        code := c.Process(iq, out, x);
      case Planned(c) =>
        code := c.Process(iq, out, x);
    }
    KernelFacts(k, x + iq);
    if code < 0 { assert false; }
    count := code;
  }

  lemma CapacityGrows(n: nat, limit: nat, d: nat)
    requires d > 0 && n <= limit
    ensures Capacity(n, d) <= Capacity(limit, d)
  {
    DivMono(n, limit, d);
  }

  // --------------------------------------------------------------- channels

  class FineChannel {
    const id: nat
    const epoch: nat
    const bin: nat
    const inputHop: nat
    const decimate: nat
    const kernel: Kernel
    const output: array<C>
    const maxGroups: nat
    const outputRate: real
    var column: nat
    var columns: nat
    var expectedSeq: nat
    /** Coarse samples since the channel joined, and the groups before that. */
    ghost var fed: seq<C>
    ghost const joined: nat

    ghost const repr: set<object>

    ghost predicate Valid()
      reads this, repr
    {
      && repr == {this, output} + kernel.Repr()
      && kernel.After(fed) && kernel.Decimation() == decimate > 0
      && this !in kernel.Repr() && output !in kernel.Repr()
      && inputHop > 0 && column < columns && 0 < maxGroups <= MAX_PACKET
      && output.Length == Capacity(maxGroups, decimate)
    }

    constructor (id: nat, epoch: nat, bin: nat, column: nat, columns: nat, firstSeq: nat, inputHop: nat,
                 decimate: nat, maxGroups: nat, outputRate: real, kernel: Kernel, ghost joined: nat)
      requires kernel.After([]) && kernel.Decimation() == decimate > 0
      requires inputHop > 0 && column < columns && 0 < maxGroups <= MAX_PACKET
      ensures Valid() && fed == [] && this.joined == joined && fresh(output)
      ensures this.id == id && this.epoch == epoch && this.bin == bin && this.inputHop == inputHop
      ensures this.decimate == decimate && this.outputRate == outputRate && this.kernel == kernel
      ensures this.column == column && this.columns == columns && expectedSeq == firstSeq
      ensures this.maxGroups == maxGroups && fresh(repr - kernel.Repr()) && this in repr
    {
      this.id, this.epoch, this.bin, this.inputHop, this.decimate := id, epoch, bin, inputHop, decimate;
      this.kernel, this.maxGroups, this.outputRate := kernel, maxGroups, outputRate;
      this.column, this.columns, expectedSeq := column, columns, firstSeq;
      this.joined, fed := joined, [];
      output := new C[maxGroups / decimate + 2](_ => Zero);
      repr := {this, output} + kernel.Repr();
    }

    /** Follows the channel's bin to another column; nothing else changes. */
    method Remap(at: nat, width: nat)
      requires Valid() && at < width
      modifies this`column, this`columns
      ensures Valid() && column == at && columns == width
    {
      column, columns := at, width;
    }

    /** The packet fits the channel: its sequence, epoch, shape and group bound. */
    ghost predicate Accepts(p: PfbOutput)
      reads this
    {
      p.epoch == epoch && p.seqno == expectedSeq && p.groups <= maxGroups && Shaped(p, columns)
    }

    /** The raw index of the next output, from the packet's start and the groups
        consumed before it; fails exactly when it does not fit 64 bits. */
    method ReportIndex(start: nat, consumed: nat) returns (index: Option<nat>)
      requires inputHop > 0 && decimate > 0 && start < CLOCK
      ensures index.Some? ==> index.value < CLOCK
      ensures start / inputHop == joined + consumed ==>
                var exact := OutputInstant(inputHop, joined, decimate, Count(consumed, decimate));
                && (index.Some? <==> exact < CLOCK)
                && (index.Some? ==> index.value == exact)
    {
      var firstCoarse := inputHop - 1 - start % inputHop;
      var fineOffset := (decimate - 1 - consumed % decimate) * inputHop;
      MulMono(0, decimate - 1 - consumed % decimate, inputHop);
      if start / inputHop == joined + consumed { ReportedClock(inputHop, joined, decimate, consumed, start); }
      if fineOffset >= CLOCK || start + firstCoarse >= CLOCK || start + firstCoarse + fineOffset >= CLOCK {
        return None;
      }
      index := Some(start + firstCoarse + fineOffset);
    }

    /** The packet starts where the channel's consumption stands. */
    ghost predicate InStep(p: PfbOutput)
      reads this
    {
      inputHop > 0 && p.inputIndex / inputHop == joined + |fed|
    }

    /** Takes in one ordered packet. Outputs continue the kernel's meaning of the
        channel's own column, and the reported clock is exact. */
    method Process(p: PfbOutput) returns (r: Result)
      requires Valid() && p.inputIndex < CLOCK
      modifies repr
      ensures Valid()
      ensures !old(Accepts(p)) ==>
                r == Err(if p.epoch != epoch || p.seqno != old(expectedSeq) then Sequence else Shape)
      ensures r.Err? && old(Accepts(p)) ==> r.error.ClockOverflow?
      ensures r.Err? ==> fed == old(fed) && expectedSeq == old(expectedSeq)
      ensures column == old(column) && columns == old(columns)
      ensures r.Ok? ==> old(Accepts(p)) && expectedSeq == old(expectedSeq) + 1 && kernel.Configured()
      ensures r.Ok? ==> fed == old(fed) + Column(p.iq, columns, column, p.groups)
      ensures r.Ok? ==>
                var o := r.output;
                && o.channelId == id && o.epoch == epoch && o.bin == bin && o.seqno == p.seqno && o.stamp == p.stamp
                && decimate > 0 && o.outputIndex == Count(|old(fed)|, decimate)
                && kernel.Meaning(fed) == kernel.Meaning(old(fed)) + o.iq
      ensures r.Ok? && old(InStep(p)) ==>
                r.output.inputIndex == OutputInstant(inputHop, joined, decimate, r.output.outputIndex)
      ensures r.Err? && r.error.ClockOverflow? && old(InStep(p)) ==>
                decimate > 0 && OutputInstant(inputHop, joined, decimate, Count(|old(fed)|, decimate)) >= CLOCK
    {
      hide OutputInstant, Column, Kernel.After, Kernel.Repr, Kernel.Meaning, Kernel.Decimation;
      if p.epoch != epoch || p.seqno != expectedSeq { return Err(Sequence); }
      if p.groups > maxGroups || |p.iq| != p.groups * columns { return Err(Shape); }
      var scratch := PickColumn(p.iq, columns, column, p.groups);
      var consumed, outputIndex := Clocks();
      var index := ReportIndex(p.inputIndex, consumed);
      if index.None? { return Err(ClockOverflow); }
      var iq := Consume(scratch);
      expectedSeq := expectedSeq + 1;
      r := Ok(FineOutput(id, epoch, bin, p.seqno, p.stamp, index.value, outputIndex, iq));
    }

    method Clocks() returns (consumed: nat, produced: nat)
      requires Valid()
      ensures consumed == |fed| && produced == Count(|fed|, decimate)
    {
      KernelFacts(kernel, fed);
      consumed, produced := ChannelClock(kernel, fed);
    }

    /** Runs the kernel on the channel's next coarse samples. */
    method Consume(scratch: seq<C>) returns (iq: seq<C>)
      requires Valid() && |scratch| <= maxGroups
      modifies this`fed, output, kernel.Repr()
      ensures Valid() && fed == old(fed) + scratch
      ensures kernel.Configured() && kernel.Meaning(fed) == kernel.Meaning(old(fed)) + iq
      ensures expectedSeq == old(expectedSeq) && column == old(column) && columns == old(columns)
    {
      CapacityGrows(|scratch|, maxGroups, decimate);
      hide Kernel.After, Kernel.Meaning, Kernel.Decimation, Kernel.Repr, Kernel.Configured, Capacity;
      var count := RunKernel(kernel, scratch, output, fed);
      fed := fed + scratch;
      iq := output[..count];
    }
  }
}

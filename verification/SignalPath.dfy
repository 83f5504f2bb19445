/** The whole path of one channel: ordered pool outputs through column selection and
    the fine kernel, against one definition over the raw capture stream. */
module SignalPath {
  import opened Arith
  import opened Complex
  import opened Channelizer
  import opened Fir
  import opened Pfb
  import P = PfbPool
  import F = FineChannel

  /** Coarse samples of one bin: groups first, first + 1, ... of the raw stream x. */
  ghost function BinStream(d: Design, x: seq<C>, bin: nat, first: nat, groups: nat): (s: seq<C>)
    requires d.g.m > 0
    ensures |s| == groups
  {
    seq(groups, i => Mixer(d.g, d.h, d.w, x, bin, GroupInstant(d.g, first + i)))
  }

  /** Groups already due do not change; the rest follow behind them. */
  lemma BinStreamNext(d: Design, x: seq<C>, v: seq<C>, bin: nat, first: nat, n: nat, k: nat)
    requires d.g.m > 0 && d.g.hop > 0 && |x| / d.g.hop == first + n
    ensures BinStream(d, x + v, bin, first, n + k)
            == BinStream(d, x, bin, first, n) + BinStream(d, x + v, bin, first + n, k)
  {
    forall i | 0 <= i < n
      ensures BinStream(d, x + v, bin, first, n + k)[i] == BinStream(d, x, bin, first, n)[i]
    {
      MulMono(first + i + 1, first + n, d.g.hop);
      MixerStable(d.g, d.h, d.w, x, v, bin, GroupInstant(d.g, first + i));
    }
    hide Mixer, GroupInstant;
    var whole, late := BinStream(d, x + v, bin, first, n + k), BinStream(d, x + v, bin, first + n, k);
    forall i | n <= i < n + k
      ensures whole[i] == late[i - n]
    {
      assert first + i == first + n + (i - n);
    }
  }

  /** What the pool hands out for packet i of its log. */
  ghost predicate IsOutput(d: Design, packets: seq<P.Packet>, i: nat, epoch: nat, p: F.PfbOutput)
    requires i < |packets| && d.g.m > 0 && d.g.hop > 0
  {
    var r := P.Serial(d, true, packets, i);
    p == F.PfbOutput(r.seqno, r.stamp, r.inputIndex, epoch, r.groups, r.iq)
  }

  /** Packet i has the channel's bin in the channel's column, and not too many groups. */
  ghost predicate Carries(d: Design, p: P.Packet, before: nat, bin: nat, column: nat, columns: nat, maxGroups: nat)
    requires d.g.hop > 0
  {
    && |p.bins| == columns && column < columns && p.bins[column] == bin
    && GroupCount(d.g, before, |p.iq|) <= maxGroups
  }

  /** The raw stream before packet i, and the groups it completes. */
  ghost function Before(packets: seq<P.Packet>, i: nat): seq<C>
    requires i <= |packets|
  {
    P.Input(packets[..i])
  }

  lemma BeforeNext(packets: seq<P.Packet>, i: nat)
    requires i < |packets|
    ensures Before(packets, i + 1) == Before(packets, i) + packets[i].iq
  {
    P.InputNext(packets, i);
  }

  /** The samples of consecutive outputs, end to end. */
  function Samples(outputs: seq<F.FineOutput>): seq<C> {
    if outputs == [] then [] else Samples(outputs[..|outputs| - 1]) + outputs[|outputs| - 1].iq
  }

  lemma SamplesNext(outputs: seq<F.FineOutput>, o: F.FineOutput)
    ensures Samples(outputs + [o]) == Samples(outputs) + o.iq
  {
    assert (outputs + [o])[..|outputs|] == outputs;
  }

  /** A pool output brings the channel the next groups of its bin. */
  lemma ColumnOfOutput(d: Design, packets: seq<P.Packet>, i: nat, epoch: nat, p: F.PfbOutput,
                       bin: nat, column: nat, columns: nat, maxGroups: nat)
    requires i < |packets| && d.g.m > 0 && d.g.hop > 0 && IsOutput(d, packets, i, epoch, p)
    requires Carries(d, packets[i], |Before(packets, i)|, bin, column, columns, maxGroups)
    ensures p.seqno == i && p.epoch == epoch && p.inputIndex == |Before(packets, i)| && p.groups <= maxGroups
    ensures p.groups == GroupCount(d.g, |Before(packets, i)|, |packets[i].iq|)
    ensures F.Shaped(p, columns) && |Before(packets, i)| / d.g.hop >= 0
    ensures F.Column(p.iq, columns, column, p.groups)
            == BinStream(d, Before(packets, i + 1), bin, |Before(packets, i)| / d.g.hop, p.groups)
  {
    hide Mixer, GroupInstant;
    var x := Before(packets, i);
    BeforeNext(packets, i);
    DivGe(|x|, d.g.hop, 0);
    F.ColumnIsBin(d.g, d.h, d.w, x + packets[i].iq, |x| / d.g.hop, p.groups, packets[i].bins, column);
  }

  /** The channel stands after the first i packets of the log: it has consumed exactly
      its bin's groups since it joined, and given exactly their filtered samples. */
  ghost predicate Standing(ch: F.FineChannel, d: Design, packets: seq<P.Packet>, i: nat, results: seq<F.FineOutput>)
    requires i <= |packets| && d.g.m > 0 && d.g.hop > 0
    reads ch, ch.repr
  {
    && ch.Valid() && ch.inputHop == d.g.hop && ch.expectedSeq == i
    && |Before(packets, i)| / d.g.hop == ch.joined + |ch.fed|
    && ch.fed == BinStream(d, Before(packets, i), ch.bin, ch.joined, |ch.fed|)
    && ch.kernel.Configured() && Samples(results) == ch.kernel.Meaning(ch.fed)
  }

  /** The next packet's groups of the bin continue what the channel was fed. */
  lemma NextGroups(d: Design, packets: seq<P.Packet>, i: nat, bin: nat, joined: nat, fed: seq<C>, groups: nat)
    requires i < |packets| && d.g.m > 0 && d.g.hop > 0 && |Before(packets, i)| / d.g.hop == joined + |fed|
    requires fed == BinStream(d, Before(packets, i), bin, joined, |fed|)
    requires groups == GroupCount(d.g, |Before(packets, i)|, |packets[i].iq|)
    ensures |Before(packets, i + 1)| / d.g.hop == joined + |fed| + groups
    ensures fed + BinStream(d, Before(packets, i + 1), bin, joined + |fed|, groups)
            == BinStream(d, Before(packets, i + 1), bin, joined, |fed| + groups)
  {
    hide BinStream, Before;
    BeforeNext(packets, i);
    F.StaysInStep(d.g, joined, |fed|, |Before(packets, i)|, |packets[i].iq|);
    BinStreamNext(d, Before(packets, i), packets[i].iq, bin, joined, |fed|, groups);
  }

  /** p is the output for packet i, it starts inside the clock, and it has the bin in
      the given column. */
  ghost predicate Brings(d: Design, packets: seq<P.Packet>, i: nat, p: F.PfbOutput, epoch: nat,
                         bin: nat, column: nat, columns: nat, maxGroups: nat)
    requires i < |packets| && d.g.m > 0 && d.g.hop > 0
  {
    && IsOutput(d, packets, i, epoch, p) && |Before(packets, i)| < CLOCK
    && Carries(d, packets[i], |Before(packets, i)|, bin, column, columns, maxGroups)
  }

  /** What standing says of the stream that a channel was fed, without its state. */
  ghost predicate Fed(ch: F.FineChannel, fed: seq<C>, d: Design, packets: seq<P.Packet>, i: nat,
                      results: seq<F.FineOutput>)
    requires i <= |packets| && d.g.m > 0 && d.g.hop > 0
  {
    && ch.inputHop == d.g.hop && |Before(packets, i)| / d.g.hop == ch.joined + |fed|
    && fed == BinStream(d, Before(packets, i), ch.bin, ch.joined, |fed|)
    && ch.kernel.Configured() && Samples(results) == ch.kernel.Meaning(fed)
    && ch.decimate > 0 && |ch.kernel.Meaning(fed)| == Count(|fed|, ch.decimate)
  }

  lemma StandingFed(ch: F.FineChannel, d: Design, packets: seq<P.Packet>, i: nat, results: seq<F.FineOutput>)
    requires i <= |packets| && d.g.m > 0 && d.g.hop > 0 && Standing(ch, d, packets, i, results)
    ensures Fed(ch, ch.fed, d, packets, i, results) && ch.Valid() && ch.expectedSeq == i
    ensures |Samples(results)| == Count(|ch.fed|, ch.decimate) && ch.inputHop == d.g.hop
  {
    F.KernelFacts(ch.kernel, ch.fed);
  }

  lemma FedStanding(ch: F.FineChannel, d: Design, packets: seq<P.Packet>, i: nat, results: seq<F.FineOutput>)
    requires i <= |packets| && d.g.m > 0 && d.g.hop > 0
    requires ch.Valid() && ch.expectedSeq == i && Fed(ch, ch.fed, d, packets, i, results)
    ensures Standing(ch, d, packets, i, results)
  {
  }

  /** A packet that starts where the channel stands. */
  lemma StartsInStep(ch: F.FineChannel, fed: seq<C>, d: Design, packets: seq<P.Packet>, i: nat, p: F.PfbOutput,
                     results: seq<F.FineOutput>)
    requires i <= |packets| && d.g.m > 0 && d.g.hop > 0 && Fed(ch, fed, d, packets, i, results)
    requires ch.fed == fed && p.inputIndex == |Before(packets, i)|
    ensures ch.InStep(p)
  {
  }

  /** A channel that was fed its column of packet i, and gave the next samples, stands. */
  lemma Continues(ch: F.FineChannel, before: seq<C>, p: F.PfbOutput, o: F.FineOutput, maxGroups: nat,
                  d: Design, packets: seq<P.Packet>, i: nat, results: seq<F.FineOutput>)
    requires i < |packets| && d.g.m > 0 && d.g.hop > 0 && Fed(ch, before, d, packets, i, results)
    requires ch.Valid() && ch.expectedSeq == i + 1 && IsOutput(d, packets, i, p.epoch, p)
    requires Carries(d, packets[i], |Before(packets, i)|, ch.bin, ch.column, ch.columns, maxGroups)
    requires F.Shaped(p, ch.columns) && ch.column < ch.columns
    requires ch.fed == before + F.Column(p.iq, ch.columns, ch.column, p.groups)
    requires ch.kernel.Configured() && ch.kernel.Meaning(ch.fed) == ch.kernel.Meaning(before) + o.iq
    ensures Standing(ch, d, packets, i + 1, results + [o])
  {
    hide BinStream, Before, IsOutput, Carries, F.Column, F.OutputInstant, P.Serial, GroupCount, F.Kernel.Meaning,
         Samples, F.FineChannel.Valid;
    ColumnOfOutput(d, packets, i, p.epoch, p, ch.bin, ch.column, ch.columns, maxGroups);
    SamplesNext(results, o);
    NextGroups(d, packets, i, ch.bin, ch.joined, before, p.groups);
  }

  /** One ordered packet; it fails only when the next raw index does not fit 64 bits. */
  method FollowOne(ch: F.FineChannel, p: F.PfbOutput, results: seq<F.FineOutput>,
                   ghost d: Design, ghost packets: seq<P.Packet>, ghost i: nat)
    returns (r: F.Result)
    requires i < |packets| && d.g.m > 0 && d.g.hop > 0 && Standing(ch, d, packets, i, results)
    requires Brings(d, packets, i, p, ch.epoch, ch.bin, ch.column, ch.columns, ch.maxGroups)
    modifies ch.repr
    ensures ch.column == old(ch.column) && ch.columns == old(ch.columns)
    ensures r.Ok? ==> Standing(ch, d, packets, i + 1, results + [r.output])
    ensures r.Ok? ==> r.output.outputIndex == |Samples(results)|
    ensures r.Ok? ==> r.output.inputIndex == F.OutputInstant(d.g.hop, ch.joined, ch.decimate, |Samples(results)|)
    ensures r.Err? ==> Standing(ch, d, packets, i, results)
    ensures r.Err? ==> F.OutputInstant(d.g.hop, ch.joined, ch.decimate, |Samples(results)|) >= CLOCK
  {
    hide Fed, BinStream, Before, IsOutput, Carries, F.Column, F.OutputInstant, P.Serial, GroupCount,
         F.FineChannel.Valid, F.FineChannel.InStep, Samples, Standing, F.Kernel.Meaning;
    ghost var fed := ch.fed;
    StandingFed(ch, d, packets, i, results);
    ColumnOfOutput(d, packets, i, ch.epoch, p, ch.bin, ch.column, ch.columns, ch.maxGroups);
    StartsInStep(ch, fed, d, packets, i, p, results);
    r := ch.Process(p);
    if r.Err? {
      FedStanding(ch, d, packets, i, results);
    } else {
      Continues(ch, fed, p, r.output, ch.maxGroups, d, packets, i, results);
    }
  }

  /** Output k is numbered by the samples before it and reported at its exact raw index. */
  ghost predicate Clocked(results: seq<F.FineOutput>, hop: nat, joined: nat, decimate: nat) {
    forall k :: 0 <= k < |results| ==>
      && results[k].outputIndex == |Samples(results[..k])|
      && results[k].inputIndex == F.OutputInstant(hop, joined, decimate, |Samples(results[..k])|)
  }

  lemma NothingClocked(hop: nat, joined: nat, decimate: nat)
    ensures Clocked([], hop, joined, decimate)
  {
  }

  lemma ClockedNext(results: seq<F.FineOutput>, o: F.FineOutput, hop: nat, joined: nat, decimate: nat)
    requires Clocked(results, hop, joined, decimate) && o.outputIndex == |Samples(results)|
    requires o.inputIndex == F.OutputInstant(hop, joined, decimate, |Samples(results)|)
    ensures Clocked(results + [o], hop, joined, decimate)
  {
    hide Samples, F.OutputInstant;
    assert (results + [o])[..|results|] == results;
    assert forall k :: 0 <= k < |results| ==> (results + [o])[..k] == results[..k];
  }

  /** From the packet at which it joined, a channel that is fed the ordered pool
      outputs gives its kernel's rotation and filtering of the direct mixer of its bin,
      and its k-th output is reported at raw index
      (joined + (k + 1) * decimate) * hop - 1. */
  method Follow(ch: F.FineChannel, outputs: seq<F.PfbOutput>,
                ghost d: Design, ghost packets: seq<P.Packet>, ghost from: nat)
    returns (ok: bool, results: seq<F.FineOutput>)
    requires d.g.m > 0 && d.g.hop > 0 && from + |outputs| == |packets|
    requires ch.Valid() && ch.fed == [] && ch.expectedSeq == from && ch.inputHop == d.g.hop
    requires |Before(packets, from)| / d.g.hop == ch.joined
    requires forall i :: 0 <= i < |outputs| ==>
               Brings(d, packets, from + i, outputs[i], ch.epoch, ch.bin, ch.column, ch.columns, ch.maxGroups)
    modifies ch.repr
    ensures |results| <= |outputs| && (ok ==> |results| == |outputs|)
    ensures Standing(ch, d, packets, from + |results|, results)
    ensures Clocked(results, d.g.hop, ch.joined, ch.decimate)
    ensures !ok ==> F.OutputInstant(d.g.hop, ch.joined, ch.decimate, |Samples(results)|) >= CLOCK
  {
    hide Standing, Brings, Before, Clocked, F.OutputInstant, Samples;
    ok, results := true, [];
    NothingClocked(d.g.hop, ch.joined, ch.decimate);
    Joining(ch, d, packets, from);
    while |results| < |outputs|
      invariant |results| <= |outputs| && Standing(ch, d, packets, from + |results|, results)
      invariant ch.column == old(ch.column) && ch.columns == old(ch.columns)
      invariant Clocked(results, d.g.hop, ch.joined, ch.decimate)
      decreases |outputs| - |results|
    {
      var r := FollowOne(ch, outputs[|results|], results, d, packets, from + |results|);
      if r.Err? { return false, results; }
      ClockedNext(results, r.output, d.g.hop, ch.joined, ch.decimate);
      results := results + [r.output];
    }
  }

  lemma Joining(ch: F.FineChannel, d: Design, packets: seq<P.Packet>, from: nat)
    requires d.g.m > 0 && d.g.hop > 0 && from <= |packets|
    requires ch.Valid() && ch.fed == [] && ch.expectedSeq == from && ch.inputHop == d.g.hop
    requires |Before(packets, from)| / d.g.hop == ch.joined
    ensures Standing(ch, d, packets, from, [])
  {
    F.KernelFacts(ch.kernel, []);
  }
}

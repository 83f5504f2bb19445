/** The whole path of a bank: ordered pool outputs served to all its channels, across
    changes of the bin selection. */
module BankPath {
  import opened Arith
  import opened Complex
  import opened Channelizer
  import opened Fir
  import opened Pfb
  import opened SignalPath
  import B = FineBank
  import F = FineChannel
  import P = PfbPool

  /** Every channel of the bank stands after the first i packets of the log, with exactly
      numbered and clocked outputs. */
  ghost predicate BankStanding(bank: B.FineBank, d: Design, packets: seq<P.Packet>, i: nat,
                               results: seq<seq<F.FineOutput>>)
    requires i <= |packets| && d.g.m > 0 && d.g.hop > 0
    reads bank, bank.channels, bank.Footprint()
  {
    && bank.Valid() && !bank.failed && bank.nextSeq == i && |results| == |bank.channels|
    && forall c :: 0 <= c < |results| ==> Stands(bank.channels[c], d, packets, i, results[c])
  }

  ghost predicate Stands(ch: F.FineChannel, d: Design, packets: seq<P.Packet>, i: nat, results: seq<F.FineOutput>)
    requires i <= |packets| && d.g.m > 0 && d.g.hop > 0
    reads ch, ch.repr
  {
    Standing(ch, d, packets, i, results) && Clocked(results, d.g.hop, ch.joined, ch.decimate)
  }

  /** A channel that stood after i packets and was served packet i stands after it. */
  lemma ServedStands(ch: F.FineChannel, before: seq<C>, p: F.PfbOutput, out: F.FineOutput,
                     d: Design, packets: seq<P.Packet>, i: nat, results: seq<F.FineOutput>)
    requires i < |packets| && d.g.m > 0 && d.g.hop > 0 && Heard(ch, before, d, packets, i, results)
    requires ch.Valid() && ch.expectedSeq == i + 1 && B.Served(ch, before, true, p, out)
    requires IsOutput(d, packets, i, p.epoch, p) && |packets[i].bins| == ch.columns
    requires ch.column < ch.columns && packets[i].bins[ch.column] == ch.bin
    ensures Stands(ch, d, packets, i + 1, results + [out])
  {
    hide BinStream, Before, IsOutput, F.Column, F.OutputInstant, P.Serial, GroupCount, Clocked, F.Kernel.Meaning,
         Samples;
    OutputGroups(d, packets, i, p.epoch, p);
    Continues(ch, before, p, out, p.groups, d, packets, i, results);
    ClockedNext(results, out, d.g.hop, ch.joined, ch.decimate);
  }

  lemma OutputGroups(d: Design, packets: seq<P.Packet>, i: nat, epoch: nat, p: F.PfbOutput)
    requires i < |packets| && d.g.m > 0 && d.g.hop > 0 && IsOutput(d, packets, i, epoch, p)
    ensures p.groups == GroupCount(d.g, |Before(packets, i)|, |packets[i].iq|) && p.seqno == i
    ensures p.inputIndex == |Before(packets, i)| && p.epoch == epoch
  {
  }

  /** The results with one more output per channel. */
  function Extended(results: seq<seq<F.FineOutput>>, outs: seq<F.FineOutput>): (more: seq<seq<F.FineOutput>>)
    requires |outs| == |results|
    ensures |more| == |results| && forall c :: 0 <= c < |more| ==> more[c] == results[c] + [outs[c]]
  {
    seq(|results|, c requires 0 <= c < |results| => results[c] + [outs[c]])
  }

  /** What a channel was fed, and exactly numbered and clocked outputs. */
  ghost predicate Heard(ch: F.FineChannel, fed: seq<C>, d: Design, packets: seq<P.Packet>, i: nat,
                        results: seq<F.FineOutput>)
    requires i <= |packets| && d.g.m > 0 && d.g.hop > 0
  {
    Fed(ch, fed, d, packets, i, results) && Clocked(results, d.g.hop, ch.joined, ch.decimate)
  }

  /** In a bank that has delivered the packet, a channel that was served stands after it. */
  lemma ChannelStands(bank: B.FineBank, c: nat, before: seq<C>, p: F.PfbOutput, out: F.FineOutput,
                      d: Design, packets: seq<P.Packet>, i: nat, results: seq<F.FineOutput>)
    requires i < |packets| && d.g.m > 0 && d.g.hop > 0 && c < |bank.channels|
    requires bank.Valid() && !bank.failed && bank.nextSeq == i + 1 && packets[i].bins == bank.bins
    requires Heard(bank.channels[c], before, d, packets, i, results) && IsOutput(d, packets, i, p.epoch, p)
    requires B.Served(bank.channels[c], before, true, p, out)
    ensures Stands(bank.channels[c], d, packets, i + 1, results + [out])
  {
    hide IsOutput, B.Served, Heard, Stands, B.Account.Ok, B.FineBank.Apart, F.FineChannel.Valid;
    assert bank.InLockstep(bank.channels[c]);
    ServedStands(bank.channels[c], before, p, out, d, packets, i, results);
  }

  lemma BankApart(bank: B.FineBank)
    requires bank.Valid()
    ensures bank !in bank.Footprint()
    ensures forall c :: 0 <= c < |bank.channels| ==> bank.channels[c] in bank.Footprint()
  {
    forall c | 0 <= c < |bank.channels|
      ensures bank.channels[c] in bank.Footprint()
    {
      assert bank.channels[c] in bank.channels[c].repr;
    }
  }

  /** A delivery to channels that are all in step. */
  method DeliverInStep(bank: B.FineBank, p: F.PfbOutput, ghost before: seq<seq<C>>)
    returns (ok: bool, outs: seq<F.FineOutput>)
    requires bank.Valid() && !bank.failed && p.epoch == bank.epoch && p.seqno == bank.nextSeq && p.inputIndex < CLOCK
    requires |before| == |bank.channels|
    requires forall c :: 0 <= c < |before| ==> bank.channels[c].fed == before[c] && bank.channels[c].InStep(p)
    modifies bank`nextSeq, bank`failed, bank.Footprint()
    ensures bank.Valid() && bank.bins == old(bank.bins) && (ok <==> !bank.failed)
    ensures ok ==> bank.nextSeq == old(bank.nextSeq) + 1 && |outs| == |bank.channels|
    ensures ok ==> forall c :: 0 <= c < |outs| ==> B.Served(bank.channels[c], before[c], true, p, outs[c])
  {
    hide B.Served, B.FineBank.Valid, F.FineChannel.InStep;
    BankApart(bank);
    ok, outs := bank.Deliver(p);
    if ok {
      forall c | 0 <= c < |outs|
        ensures B.Served(bank.channels[c], before[c], true, p, outs[c])
      {
        assert B.Served(bank.channels[c], old(bank.channels[c].fed), old(bank.channels[c].InStep(p)), p, outs[c]);
      }
    }
  }

  /** What every channel was fed. */
  ghost function Feeds(chs: seq<F.FineChannel>): (r: seq<seq<C>>)
    reads chs
    ensures |r| == |chs| && forall c :: 0 <= c < |chs| ==> r[c] == chs[c].fed
  {
    seq(|chs|, c requires 0 <= c < |chs| reads chs => chs[c].fed)
  }

  lemma AllInStep(bank: B.FineBank, before: seq<seq<C>>, p: F.PfbOutput, d: Design, packets: seq<P.Packet>, i: nat,
                  results: seq<seq<F.FineOutput>>)
    requires i < |packets| && d.g.m > 0 && d.g.hop > 0 && BankStanding(bank, d, packets, i, results)
    requires |before| == |bank.channels| && forall c :: 0 <= c < |before| ==> bank.channels[c].fed == before[c]
    requires p.inputIndex == |Before(packets, i)|
    ensures forall c :: 0 <= c < |before| ==> Heard(bank.channels[c], before[c], d, packets, i, results[c])
    ensures forall c :: 0 <= c < |before| ==> bank.channels[c].InStep(p)
  {
    hide Before, Fed, Clocked, Standing, B.FineBank.Valid, F.FineChannel.InStep;
    forall c | 0 <= c < |before|
      ensures Heard(bank.channels[c], before[c], d, packets, i, results[c]) && bank.channels[c].InStep(p)
    {
      StandingFed(bank.channels[c], d, packets, i, results[c]);
      StartsInStep(bank.channels[c], before[c], d, packets, i, p, results[c]);
    }
  }

  /** One ordered packet for the whole bank. */
  method BankStep(bank: B.FineBank, p: F.PfbOutput, results: seq<seq<F.FineOutput>>,
                  ghost d: Design, ghost packets: seq<P.Packet>, ghost i: nat)
    returns (ok: bool, more: seq<seq<F.FineOutput>>)
    requires i < |packets| && d.g.m > 0 && d.g.hop > 0 && BankStanding(bank, d, packets, i, results)
    requires IsOutput(d, packets, i, bank.epoch, p) && packets[i].bins == bank.bins && p.inputIndex < CLOCK
    modifies bank`nextSeq, bank`failed, bank.Footprint()
    ensures bank.Valid() && bank.bins == old(bank.bins) && (ok <==> !bank.failed)
    ensures ok ==> BankStanding(bank, d, packets, i + 1, more)
  {
    OutputGroups(d, packets, i, bank.epoch, p);
    hide IsOutput, Before, Fed, Clocked, Standing, B.Served, B.FineBank.Valid, F.FineChannel.InStep;
    ghost var before := Feeds(bank.channels);
    AllInStep(bank, before, p, d, packets, i, results);
    BankApart(bank);
    var outs;
    ok, outs := DeliverInStep(bank, p, before);
    more := results;
    if ok {
      more := Extended(results, outs);
      forall c | 0 <= c < |more|
        ensures Stands(bank.channels[c], d, packets, i + 1, more[c])
      {
        ChannelStands(bank, c, before[c], p, outs[c], d, packets, i, results[c]);
      }
    }
  }

  /** A change of the selection between two packets disturbs no channel. */
  method Reselect(bank: B.FineBank, selection: seq<nat>, ghost results: seq<seq<F.FineOutput>>,
                  ghost d: Design, ghost packets: seq<P.Packet>, ghost i: nat)
    returns (ok: bool)
    requires i <= |packets| && d.g.m > 0 && d.g.hop > 0 && BankStanding(bank, d, packets, i, results)
    modifies bank`bins, bank.channels
    ensures BankStanding(bank, d, packets, i, results)
    ensures ok <==> Selects(bank, selection)
    ensures bank.bins == if ok then selection else old(bank.bins)
  {
    hide Before, Fed, Clocked, Standing, B.FineBank.Valid, F.FineChannel.Valid, B.Selection;
    ghost var before := Feeds(bank.channels);
    forall c | 0 <= c < |results|
      ensures Heard(bank.channels[c], before[c], d, packets, i, results[c])
    {
      StandingFed(bank.channels[c], d, packets, i, results[c]);
    }
    ok := bank.RemapBins(selection);
    forall c | 0 <= c < |results|
      ensures Stands(bank.channels[c], d, packets, i, results[c])
    {
      ChannelIsValid(bank, c);
      FedStanding(bank.channels[c], d, packets, i, results[c]);
    }
  }

  lemma ChannelIsValid(bank: B.FineBank, c: nat)
    requires bank.Valid() && !bank.failed && c < |bank.channels|
    ensures bank.channels[c].Valid() && bank.channels[c].expectedSeq == bank.nextSeq
  {
    assert bank.InLockstep(bank.channels[c]);
  }

  /** A selection that the bank can follow: usable, with the bin of every channel. */
  predicate Selects(bank: B.FineBank, selection: seq<nat>)
    reads bank
  {
    && B.Selection(selection, bank.binCount)
    && forall c :: 0 <= c < |bank.channels| ==> bank.channels[c].bin in selection
  }

  /** One packet and, before it, the selection that it was made with. */
  method BankNext(bank: B.FineBank, p: F.PfbOutput, selection: seq<nat>, results: seq<seq<F.FineOutput>>,
                  ghost d: Design, ghost packets: seq<P.Packet>, ghost i: nat)
    returns (ok: bool, more: seq<seq<F.FineOutput>>)
    requires i < |packets| && d.g.m > 0 && d.g.hop > 0 && BankStanding(bank, d, packets, i, results)
    requires IsOutput(d, packets, i, bank.epoch, p) && packets[i].bins == selection && p.inputIndex < CLOCK
    modifies bank`nextSeq, bank`failed, bank`bins, bank.Footprint()
    ensures bank.Valid() && (ok ==> !bank.failed)
    ensures !bank.failed ==> BankStanding(bank, d, packets, if ok then i + 1 else i, more)
    ensures !ok && !bank.failed ==> bank.bins != selection && !Selects(bank, selection)
  {
    hide Before, Stands, B.FineBank.Valid, F.FineChannel.Valid, Selects, IsOutput;
    BankApart(bank);
    more := results;
    if bank.bins != selection {
      ok := Reselect(bank, selection, results, d, packets, i);
      if !ok { return; }
    }
    ok, more := BankStep(bank, p, results, d, packets, i);
  }

  /** outputs are the pool's from packet `from` of its log on, and start in the clock. */
  ghost predicate Ordered(outputs: seq<F.PfbOutput>, selections: seq<seq<nat>>, epoch: nat,
                          d: Design, packets: seq<P.Packet>, from: nat)
  {
    && d.g.m > 0 && d.g.hop > 0 && from + |outputs| == |packets| && |selections| == |outputs|
    && forall k :: 0 <= k < |outputs| ==>
         && IsOutput(d, packets, from + k, epoch, outputs[k]) && outputs[k].inputIndex < CLOCK
         && packets[from + k].bins == selections[k]
  }

  /** A bank that is given the ordered pool outputs, and the selection of each packet when
      it changes. After n packets every channel has given its kernel's rotation and
      filtering of the direct mixer of its own bin, with exact numbers and clocks, whatever
      the selections were. It stops early only when it fails or a selection loses a bin. */
  method FollowBank(bank: B.FineBank, outputs: seq<F.PfbOutput>, selections: seq<seq<nat>>,
                    ghost d: Design, ghost packets: seq<P.Packet>, ghost from: nat)
    returns (n: nat, results: seq<seq<F.FineOutput>>)
    requires Ordered(outputs, selections, bank.epoch, d, packets, from)
    requires bank.Valid() && !bank.failed && bank.nextSeq == from
    requires forall c :: 0 <= c < |bank.channels| ==>
               var ch := bank.channels[c];
               ch.fed == [] && ch.inputHop == d.g.hop && |Before(packets, from)| / d.g.hop == ch.joined
    modifies bank`nextSeq, bank`failed, bank`bins, bank.Footprint()
    ensures bank.Valid() && n <= |outputs|
    ensures !bank.failed ==> BankStanding(bank, d, packets, from + n, results)
    ensures n < |outputs| && !bank.failed ==> bank.bins != selections[n] && !Selects(bank, selections[n])
  {
    hide Before, BankStanding, Stands, B.FineBank.Valid, F.FineChannel.Valid, Selects, IsOutput;
    n, results := 0, seq(|bank.channels|, _ => []);
    JoiningBank(bank, d, packets, from);
    BankApart(bank);
    while n < |outputs|
      invariant n <= |outputs| && bank.Valid() && BankStanding(bank, d, packets, from + n, results)
      decreases |outputs| - n
    {
      var ok, more := BankNext(bank, outputs[n], selections[n], results, d, packets, from + n);
      results := more;
      if !ok { return; }
      n := n + 1;
    }
  }

  lemma JoiningBank(bank: B.FineBank, d: Design, packets: seq<P.Packet>, from: nat)
    requires d.g.m > 0 && d.g.hop > 0 && from <= |packets|
    requires bank.Valid() && !bank.failed && bank.nextSeq == from
    requires forall c :: 0 <= c < |bank.channels| ==>
               var ch := bank.channels[c];
               ch.fed == [] && ch.inputHop == d.g.hop && |Before(packets, from)| / d.g.hop == ch.joined
    ensures BankStanding(bank, d, packets, from, seq(|bank.channels|, _ => []))
  {
    hide Before, B.FineBank.Valid, F.FineChannel.Valid, Standing;
    forall c | 0 <= c < |bank.channels|
      ensures Stands(bank.channels[c], d, packets, from, [])
    {
      ChannelIsValid(bank, c);
      Joining(bank.channels[c], d, packets, from);
      NothingClocked(d.g.hop, bank.channels[c].joined, bank.channels[c].decimate);
    }
  }
}

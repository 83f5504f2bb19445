/** The coalescing framer: one fine channel's samples as ordered wire frames. */
module Framer {
  import opened Arith
  import opened Channelizer
  import opened ClockRate
  import opened Wire

  /** One delivery of the fine bank; iq holds interleaved binary32 words. */
  datatype FineOutput = FineOutput(channelId: nat, epoch: nat, seqno: nat, inputIndex: nat, outputIndex: nat,
                                   outputRate: F64, delay: F64, iq: seq<nat>) {
    predicate Valid() {
      && channelId < CLOCK && epoch < CLOCK && seqno < CLOCK && inputIndex < CLOCK && outputIndex < CLOCK
      && outputRate.Valid() && delay.Valid()
      && forall i :: 0 <= i < |iq| ==> iq[i] < WORD
    }
  }

  ghost function ScaledAll(iq: seq<nat>): (r: seq<nat>)
    ensures |r| == |iq|
  {
    seq(|iq|, i requires 0 <= i < |iq| => Scaled(iq[i]))
  }

  lemma ScaledJoin(a: seq<nat>, b: seq<nat>)
    ensures ScaledAll(a + b) == ScaledAll(a) + ScaledAll(b)
  {
  }

  datatype Frame = Frame(header: Header, payload: seq<nat>)

  ghost function Bytes(f: Frame): seq<Byte> { EncodeHeader(f.header) + EncodeWords(f.payload) }

  ghost function AllBytes(fs: seq<Frame>): seq<seq<Byte>> { seq(|fs|, i requires 0 <= i < |fs| => Bytes(fs[i])) }

  /** The payloads of all frames, end to end. */
  function Payloads(fs: seq<Frame>): seq<nat> {
    if fs == [] then [] else Payloads(fs[..|fs| - 1]) + fs[|fs| - 1].payload
  }

  lemma PayloadsAppend(fs: seq<Frame>, f: Frame)
    ensures Payloads(fs + [f]) == Payloads(fs) + f.payload
  {
    assert (fs + [f])[..|fs|] == fs;
  }

  /** A push that brought samples: where in the accepted stream they begin. */
  datatype Source = Source(offset: nat, inputIndex: nat, delay: F64)

  /** The payload that begins at `offset` carries the clock of the push that
      brought its first sample; that sample is the first one of the push. */
  ghost predicate Supplied(sources: seq<Source>, offset: nat, inputIndex: nat, delay: F64) {
    Source(offset, inputIndex, delay) in sources
  }

  ghost predicate FrameSupplied(sources: seq<Source>, fs: seq<Frame>, i: nat)
    requires i < |fs|
  {
    Supplied(sources, |Payloads(fs[..i])|, fs[i].header.inputIndex, fs[i].header.delay)
  }

  datatype Config = Config(channelId: nat, magic: Magic, epoch: nat, center: F64, rate: F64, blockSamples: nat) {
    predicate Valid() {
      && center.Valid() && center.Finite() && rate.Valid() && InClockRange(rate)
      && 0 < channelId < WORD && 0 < epoch < WORD && 1 <= blockSamples <= MAX_SAMPLES
    }
  }

  ghost predicate SentFrame(c: Config, f: Frame, i: nat) {
    && Encodable(f.header, f.payload) && f.header.Fits()
    && (forall k :: 0 <= k < |f.payload| ==> f.payload[k] < WORD)
    && f.header.seqno == i && f.header.samples == |f.payload| / 2 && f.header.magic == c.magic
    && f.header.channel == c.channelId && f.header.epoch == c.epoch
    && f.header.rate == c.rate && f.header.center == c.center
  }

  /** What a reader finds in the bytes of frame number i. */
  ghost predicate ReadsBack(c: Config, bytes: seq<Byte>, i: nat, payload: seq<nat>) {
    && Decode(bytes).Some? && Decode(bytes).value.1 == payload
    && var h := Decode(bytes).value.0;
       && h.magic == c.magic && h.channel == c.channelId && h.epoch == c.epoch
       && h.rate == c.rate && h.center == c.center && h.seqno == i && h.samples == |payload| / 2
  }

  /** The byte strings are the frames from number n on, and each reads back with its own
      number and payload. */
  ghost predicate Handed(c: Config, list: seq<seq<Byte>>, fs: seq<Frame>, n: nat) {
    && n <= |fs| && |list| == |fs| - n
    && forall k :: 0 <= k < |list| ==> ReadsBack(c, list[k], n + k, fs[n + k].payload)
  }

  /** What is on the wire and what is still pending, by value. */
  datatype Line = Line(c: Config, started: bool, wireSeq: nat, pending: seq<nat>, inputIndex: nat, delay: F64,
                       accepted: seq<nat>, sources: seq<Source>, sent: seq<Frame>) {
    ghost predicate Ok() {
      && c.Valid() && wireSeq < WORD
      && Conserved() && Numbered() && ClockTrue()
    }

    /** Payloads and pending samples are exactly the accepted samples, in order. */
    ghost predicate Conserved() {
      && Payloads(sent) + pending == ScaledAll(accepted)
      && |pending| % 2 == 0 && |Payloads(sent)| % 2 == 0
      && |pending| / 2 <= MAX_SAMPLES
      && (forall i :: 0 <= i < |pending| ==> pending[i] < WORD && Finite32(pending[i]))
    }

    /** Frames are numbered 0, 1, 2, ... and frame 0 announces an empty stream. */
    ghost predicate Numbered() {
      && (started <==> sent != []) && (!started ==> wireSeq == 0 && accepted == [])
      && |sent| == (if started then wireSeq + 1 else 0)
      && forall i :: 0 <= i < |sent| ==> SentFrame(c, sent[i], i)
    }

    ghost predicate ClockTrue() {
      && (pending != [] ==>
            && Supplied(sources, |Payloads(sent)|, inputIndex, delay)
            && inputIndex < CLOCK - 1 && delay.Valid() && delay.Finite() && NotNegative(delay))
      && forall i :: 0 <= i < |sent| ==> FrameSupplied(sources, sent, i)
    }
  }

  /** Appending one more frame to the wire. */
  lemma Framed(l: Line, l': Line, f: Frame)
    requires l.Ok() && l' == l.(sent := l.sent + [f], pending := [], wireSeq := l.wireSeq + 1)
    requires l.started && l.pending != [] && l.wireSeq + 1 < WORD
    requires f == Frame(Header(l.c.magic, l.wireSeq + 1, |l.pending| / 2, l.c.rate, l.c.center, l.c.channelId,
                               l.c.epoch, l.inputIndex, l.delay), l.pending)
    ensures l'.Ok() && Encodable(f.header, f.payload)
  {
    PayloadsAppend(l.sent, f);
    assert Encodable(f.header, f.payload);
    forall i | 0 <= i < |l'.sent|
      ensures FrameSupplied(l'.sources, l'.sent, i)
    {
      assert l'.sent[..i] == l.sent[..i];
      if i < |l.sent| { assert FrameSupplied(l.sources, l.sent, i); }
      assert l.sent[..|l.sent|] == l.sent;
    }
    forall i | 0 <= i < |l'.sent|
      ensures SentFrame(l'.c, l'.sent[i], i)
    {
      if i < |l.sent| { assert SentFrame(l.c, l.sent[i], i); }
    }
  }

  /** The announcement frame, sent with the first samples. */
  lemma Announced(l: Line, l': Line, f: Frame, s: Source)
    requires l.Ok() && !l.started && l.pending == [] && s.inputIndex < CLOCK - 1
    requires s.offset == 0 && s.delay.Valid() && s.delay.Finite() && NotNegative(s.delay)
    requires f == Frame(Header(l.c.magic, 0, 0, l.c.rate, l.c.center, l.c.channelId, l.c.epoch,
                               s.inputIndex, s.delay), [])
    requires l' == l.(sent := [f], started := true, sources := l.sources + [s],
                      inputIndex := s.inputIndex, delay := s.delay)
    ensures l'.Ok() && Encodable(f.header, f.payload)
  {
    assert l.sent == [];
    assert [f] == [] + [f];
    PayloadsAppend([], f);
    assert l'.sent[..0] == [];
    assert FrameSupplied(l'.sources, l'.sent, 0);
  }

  /** New samples join the pending ones; the clock of the pending block is the
      clock of the push that began it. */
  lemma Joined(l: Line, l': Line, iq: seq<nat>, s: Source)
    requires l.Ok() && l.started && |iq| % 2 == 0 && iq != [] && (|l.pending| + |iq|) / 2 <= MAX_SAMPLES
    requires forall i :: 0 <= i < |iq| ==> iq[i] < WORD && Finite32(iq[i])
    requires l.pending == [] ==> s.offset == |Payloads(l.sent)| && l'.inputIndex == s.inputIndex && l'.delay == s.delay
    requires l.pending != [] ==> l'.inputIndex == l.inputIndex && l'.delay == l.delay
    requires s.inputIndex < CLOCK - 1 && s.delay.Valid() && s.delay.Finite() && NotNegative(s.delay)
    requires l' == l.(pending := l.pending + ScaledAll(iq), accepted := l.accepted + iq,
                      sources := l.sources + [s], inputIndex := l'.inputIndex, delay := l'.delay)
    ensures l'.Ok()
  {
    JoinedConserved(l, l', iq);
    StillSupplied(l.sources, s, l.sent);
    hide Line.Conserved, Payloads, SentFrame, FrameSupplied, InClockRange;
  }

  lemma JoinedConserved(l: Line, l': Line, iq: seq<nat>)
    requires l.Conserved() && |iq| % 2 == 0 && (|l.pending| + |iq|) / 2 <= MAX_SAMPLES
    requires forall i :: 0 <= i < |iq| ==> iq[i] < WORD && Finite32(iq[i])
    requires l'.sent == l.sent && l'.pending == l.pending + ScaledAll(iq) && l'.accepted == l.accepted + iq
    ensures l'.Conserved()
  {
    ScaledJoin(l.accepted, iq);
    ScaledFinite(iq);
    hide Scaled, ScaledAll, Finite32, Payloads;
    assert Payloads(l.sent) + (l.pending + ScaledAll(iq)) == (Payloads(l.sent) + l.pending) + ScaledAll(iq);
  }

  lemma ScaledFinite(iq: seq<nat>)
    requires forall i :: 0 <= i < |iq| ==> iq[i] < WORD && Finite32(iq[i])
    ensures forall i :: 0 <= i < |iq| ==> ScaledAll(iq)[i] < WORD && Finite32(ScaledAll(iq)[i])
  {
    forall i | 0 <= i < |iq|
      ensures ScaledAll(iq)[i] < WORD && Finite32(ScaledAll(iq)[i])
    {
      ScaledValue(iq[i]);
    }
  }

  lemma StillSupplied(sources: seq<Source>, s: Source, fs: seq<Frame>)
    requires forall i :: 0 <= i < |fs| ==> FrameSupplied(sources, fs, i)
    ensures forall i :: 0 <= i < |fs| ==> FrameSupplied(sources + [s], fs, i)
    ensures forall o, k, d :: Supplied(sources, o, k, d) ==> Supplied(sources + [s], o, k, d)
  {
    forall i | 0 <= i < |fs|
      ensures FrameSupplied(sources + [s], fs, i)
    {
      assert FrameSupplied(sources, fs, i);
    }
  }

  /** One more frame is one more entry of the list that push returns. */
  lemma OneMore(mid: seq<Frame>, after: seq<Frame>, n: nat)
    requires mid <= after && |after| == |mid| + 1 && n <= |mid|
    ensures AllBytes(after[n..]) == AllBytes(mid[n..]) + [Bytes(after[|mid|])]
  {
    assert after[n..] == mid[n..] + [after[|mid|]];
  }

  /** Every frame on the wire reads back as its own header and payload. */
  lemma StreamReadsBack(l: Line, i: nat)
    requires l.Ok() && i < |l.sent|
    ensures Decode(Bytes(l.sent[i])) == Some((l.sent[i].header, l.sent[i].payload))
    ensures ReadsBack(l.c, Bytes(l.sent[i]), i, l.sent[i].payload)
    ensures FrameSupplied(l.sources, l.sent, i)
  {
    assert SentFrame(l.c, l.sent[i], i);
    FrameRoundTrip(l.sent[i].header, l.sent[i].payload);
    hide Decode, Bytes;
  }

  lemma AllReadBack(l: Line, n: nat)
    requires l.Ok() && n <= |l.sent|
    ensures Handed(l.c, AllBytes(l.sent[n..]), l.sent, n)
  {
    hide Line.Ok, ReadsBack, FrameSupplied, Bytes;
    forall k | 0 <= k < |l.sent| - n
      ensures ReadsBack(l.c, AllBytes(l.sent[n..])[k], n + k, l.sent[n + k].payload)
    {
      StreamReadsBack(l, n + k);
    }
  }

  datatype PushResult = Rejected | Overflow | Frames(list: seq<seq<Byte>>)

  class BasebandFramer {
    const c: Config
    var nextPacket: Option<nat>
    var nextSample: Option<nat>
    var wireSeq: nat
    var started: bool
    var pending: seq<nat>
    var pendingInputIndex: nat
    var pendingDelay: F64
    var finished: bool
    ghost var accepted: seq<nat>
    ghost var sources: seq<Source>
    ghost var sent: seq<Frame>
    /** The wire sequence ran out. */
    ghost var exhausted: bool

    ghost function View(): Line
      reads this
    {
      Line(c, started, wireSeq, pending, pendingInputIndex, pendingDelay, accepted, sources, sent)
    }

    ghost predicate Valid()
      reads this
    {
      View().Ok() && (!exhausted ==> |pending| / 2 < c.blockSamples)
    }

    constructor (c: Config)
      requires c.Valid()
      ensures Valid() && this.c == c && accepted == [] && sent == [] && !finished && !exhausted
      ensures nextPacket.None? && nextSample.None?
    {
      this.c := c;
      nextPacket, nextSample, wireSeq, started, pending := None, None, 0, false, [];
      pendingInputIndex, pendingDelay, finished := 0, F64(false, 0, 0), false;
      accepted, sources, sent, exhausted := [], [], [], false;
    }

    /** The guard of push. */
    ghost predicate Admits(o: FineOutput)
      reads this
    {
      && !finished && o.channelId == c.channelId && o.epoch == c.epoch && o.outputRate == c.rate
      && |o.iq| % 2 == 0 && (|pending| + |o.iq|) / 2 <= MAX_SAMPLES
      && (forall i :: 0 <= i < |o.iq| ==> Finite32(o.iq[i]))
      && o.inputIndex != CLOCK - 1 && o.delay.Finite() && NotNegative(o.delay)
      && (nextSample.Some? ==> o.outputIndex == nextSample.value)
      && (nextPacket.Some? ==> o.seqno == nextPacket.value)
    }

    lemma Admitted(o: FineOutput)
      requires Admits(o)
      ensures |o.iq| % 2 == 0 && (|pending| + |o.iq|) / 2 <= MAX_SAMPLES && o.inputIndex != CLOCK - 1
      ensures o.delay.Finite() && NotNegative(o.delay) && forall i :: 0 <= i < |o.iq| ==> Finite32(o.iq[i])
    {
    }

    /** With the delivery a whole block is pending. */
    ghost predicate Fills(o: FineOutput)
      reads this`pending
    {
      (|pending| + |o.iq|) / 2 >= c.blockSamples
    }

    /** The guard of push, sample by sample. */
    method Refuse(o: FineOutput) returns (refused: bool)
      ensures refused <==> !Admits(o)
    {
      refused := finished || o.channelId != c.channelId || o.epoch != c.epoch || o.outputRate != c.rate
                 || |o.iq| % 2 != 0 || (|pending| + |o.iq|) / 2 > 65536
                 || (exists i :: 0 <= i < |o.iq| && o.iq[i] / 0x80_0000 % 256 == 255)
                 || o.inputIndex == 0xFFFF_FFFF_FFFF_FFFF
                 || o.delay.exponent == 2047 || (o.delay.negative && o.delay.Mantissa() != 0)
                 || (nextSample.Some? && o.outputIndex != nextSample.value)
                 || (nextPacket.Some? && o.seqno != nextPacket.value);
    }

    /** Accepts one delivery and gives the frames it completes. */
    method Push(o: FineOutput) returns (r: PushResult)
      requires Valid() && o.Valid()
      modifies this
      ensures Valid() && finished == old(finished)
      ensures r.Rejected? <==> !old(Admits(o))
      ensures r.Rejected? ==> unchanged(this)
      ensures r.Frames? ==> accepted == old(accepted) + o.iq && old(sent) <= sent
                            && r.list == AllBytes(sent[|old(sent)|..])
      ensures r.Frames? ==> nextPacket == Some(o.seqno + 1) && nextSample == Some(o.outputIndex + |o.iq| / 2)
      ensures r.Frames? ==> Handed(c, r.list, sent, |old(sent)|)
      // a frame goes out exactly when a block is full, after the announcement of the first
      ensures r.Frames? && o.iq == [] ==> r.list == [] && pending == old(pending)
      ensures r.Frames? && o.iq != [] ==>
                && pending == (if old(Fills(o)) then [] else old(pending) + ScaledAll(o.iq))
                && |r.list| == (if old(started) then 0 else 1) + (if old(Fills(o)) then 1 else 0)
      ensures r.Overflow? ==> sent == old(sent)
      // an accepted delivery overflows a counter exactly when its packet or sample number has
      // no successor, or it fills a block and the wire sequence has run out
      ensures r.Overflow? <==>
              && old(Admits(o))
              && (o.seqno + 1 >= CLOCK || o.outputIndex + |o.iq| / 2 >= CLOCK
                  || (o.iq != [] && old(Fills(o)) && old(wireSeq) + 1 >= WORD))
      ensures exhausted ==> old(exhausted) || wireSeq + 1 == WORD
    {
      hide BasebandFramer.Admits, Line.Ok, AllBytes, Handed, Finite32, NotNegative;
      var refused := Refuse(o);
      if refused { return Rejected; }
      Admitted(o);
      if o.seqno + 1 >= CLOCK { return Overflow; }
      nextPacket := Some(o.seqno + 1);
      if o.outputIndex + |o.iq| / 2 >= CLOCK { return Overflow; }
      nextSample := Some(o.outputIndex + |o.iq| / 2);
      NothingMore(sent);
      if |o.iq| == 0 {
        AllReadBack(View(), |sent|);
        return Frames([]);
      }
      r := Deliver(o);
      AllReadBack(View(), |old(sent)|);
    }

    /** The part of push that has samples to place. */
    method Deliver(o: FineOutput) returns (r: PushResult)
      requires View().Ok() && o.Valid() && o.inputIndex < CLOCK - 1 && o.delay.Finite() && NotNegative(o.delay)
      requires |o.iq| % 2 == 0 && o.iq != [] && (|pending| + |o.iq|) / 2 <= MAX_SAMPLES
      requires forall i :: 0 <= i < |o.iq| ==> Finite32(o.iq[i])
      modifies this`wireSeq, this`started, this`pending, this`pendingInputIndex, this`pendingDelay
      modifies this`accepted, this`sources, this`sent, this`exhausted
      ensures View().Ok() && !r.Rejected?
      ensures r.Frames? ==> accepted == old(accepted) + o.iq && old(sent) <= sent
                            && r.list == AllBytes(sent[|old(sent)|..])
                            && |pending| / 2 < c.blockSamples && exhausted == old(exhausted)
      ensures r.Frames? ==>
                && pending == (if old(Fills(o)) then [] else old(pending) + ScaledAll(o.iq))
                && |r.list| == (if old(started) then 0 else 1) + (if old(Fills(o)) then 1 else 0)
      ensures r.Overflow? <==> old(Fills(o)) && old(wireSeq) + 1 >= WORD
      ensures r.Overflow? ==> sent == old(sent) && wireSeq + 1 == WORD && exhausted
    {
      hide Line.Ok, Payloads, ScaledAll, Bytes, AllBytes, Finite32, NotNegative;
      ConfigOf(View());
      NoFirstFrame(View());
      ghost var before := sent;
      ghost var source := Source(|accepted|, o.inputIndex, o.delay);
      var frames := Announce(o, source);
      Join(o, source);
      if |pending| / 2 >= c.blockSamples {
        if wireSeq + 1 >= WORD {
          exhausted := true;
          return Overflow;
        }
        ghost var mid := sent;
        var frame := EmitPending();
        OneMore(mid, sent, |before|);
        frames := frames + [frame];
      }
      r := Frames(frames);
    }

    /** Sends the announcement when nothing has been sent yet. */
    method Announce(o: FineOutput, ghost source: Source) returns (frames: seq<seq<Byte>>)
      requires View().Ok() && source == Source(|accepted|, o.inputIndex, o.delay)
      requires o.inputIndex < CLOCK - 1 && o.delay.Valid() && o.delay.Finite() && NotNegative(o.delay)
      modifies this`pendingInputIndex, this`pendingDelay, this`started, this`sent, this`sources
      ensures View().Ok() && started && old(sent) <= sent && frames == AllBytes(sent[|old(sent)|..])
      ensures pending == [] ==> pendingInputIndex == o.inputIndex && pendingDelay == o.delay
      ensures pending != [] ==> pendingInputIndex == old(pendingInputIndex) && pendingDelay == old(pendingDelay)
      ensures |frames| == (if old(started) then 0 else 1) && (old(started) ==> sent == old(sent))
    {
      ghost var l := View();
      if pending == [] { pendingInputIndex, pendingDelay := o.inputIndex, o.delay; }
      if started {
        assert sent[|sent|..] == [];
        return [];
      }
      assert l.pending == [] && l.accepted == [];
      var header := Header(c.magic, 0, 0, c.rate, c.center, c.channelId, c.epoch, pendingInputIndex, pendingDelay);
      var bytes := EncodeBaseband(header, []);
      ghost var f := Frame(header, []);
      started := true;
      sent, sources := [f], sources + [source];
      Announced(l, View(), f, source);
      if bytes.None? { assert false; }
      frames := [bytes.value];
      assert sent[|l.sent|..] == [f];
    }

    method Join(o: FineOutput, ghost source: Source)
      requires View().Ok() && started && source == Source(|accepted|, o.inputIndex, o.delay)
      requires o.Valid() && o.inputIndex < CLOCK - 1 && o.delay.Finite() && NotNegative(o.delay)
      requires |o.iq| % 2 == 0 && o.iq != [] && (|pending| + |o.iq|) / 2 <= MAX_SAMPLES
      requires forall i :: 0 <= i < |o.iq| ==> Finite32(o.iq[i])
      requires pending == [] ==> pendingInputIndex == o.inputIndex && pendingDelay == o.delay
      modifies this`pending, this`accepted, this`sources
      ensures View().Ok() && accepted == old(accepted) + o.iq && pending != []
      ensures pending == old(pending) + ScaledAll(o.iq)
    {
      ghost var l := View();
      assert |Payloads(sent)| + |pending| == |accepted|;
      for i := 0 to |o.iq|
        invariant pending == l.pending + ScaledAll(o.iq[..i])
        invariant accepted == l.accepted && sources == l.sources
      {
        assert ScaledAll(o.iq[..i + 1]) == ScaledAll(o.iq[..i]) + [Scaled(o.iq[i])];
        pending := pending + [Scaled(o.iq[i])];
      }
      assert o.iq[..|o.iq|] == o.iq;
      accepted, sources := accepted + o.iq, sources + [source];
      hide Line.Ok;
      Joined(l, View(), o.iq, source);
    }

    /** Frames everything pending. */
    method EmitPending() returns (bytes: seq<Byte>)
      requires View().Ok() && started && pending != [] && wireSeq + 1 < WORD
      modifies this`wireSeq, this`pending, this`sent
      ensures View().Ok() && pending == [] && |sent| == |old(sent)| + 1 && old(sent) <= sent
      ensures bytes == Bytes(sent[|old(sent)|])
    {
      ghost var l := View();
      wireSeq := wireSeq + 1;
      var header := Header(c.magic, wireSeq, |pending| / 2, c.rate, c.center, c.channelId, c.epoch,
                           pendingInputIndex, pendingDelay);
      ghost var f := Frame(header, pending);
      var frame := EncodeBaseband(header, pending);
      sent, pending := sent + [f], [];
      hide Line.Ok;
      Framed(l, View(), f);
      if frame.None? { assert false; }
      bytes := frame.value;
    }

    /** Ends the stream: the tail frame carries whatever is pending. */
    method Finish() returns (r: PushResult)
      requires Valid()
      modifies this
      ensures Valid() && finished && accepted == old(accepted)
      ensures r.Rejected? <==> old(finished)
      ensures r.Overflow? <==> !old(finished) && old(pending) != [] && old(wireSeq) + 1 >= WORD
      ensures r.Frames? ==> pending == [] && Payloads(sent) == ScaledAll(accepted)
      ensures r.Frames? ==> |r.list| == (if old(pending) == [] then 0 else 1) && old(sent) <= sent
                            && r.list == AllBytes(sent[|old(sent)|..])
      ensures r.Frames? ==> Handed(c, r.list, sent, |old(sent)|)
    {
      hide Line.Ok, AllBytes, Handed;
      if finished { return Rejected; }
      finished := true;
      Everything(View());
      NothingMore(sent);
      if pending == [] {
        AllReadBack(View(), |sent|);
        return Frames([]);
      }
      if wireSeq + 1 >= WORD { return Overflow; }
      ghost var before := sent;
      var frame := EmitPending();
      Everything(View());
      OneMore(before, sent, |before|);
      AllReadBack(View(), |before|);
      r := Frames([frame]);
    }
  }

  lemma NothingMore(fs: seq<Frame>)
    ensures AllBytes(fs[|fs|..]) == []
  {
  }

  lemma ConfigOf(l: Line)
    requires l.Ok()
    ensures l.c.blockSamples >= 1
  {
  }

  lemma Everything(l: Line)
    requires l.Ok()
    ensures l.pending == [] ==> Payloads(l.sent) == ScaledAll(l.accepted)
    ensures l.pending != [] ==> l.started
    ensures |l.pending| % 2 == 0 && l.wireSeq < WORD
  {
  }

  /** A stream whose sequence has run out announced itself long ago. */
  lemma NoFirstFrame(l: Line)
    requires l.Ok()
    ensures !l.started ==> l.wireSeq == 0
  {
  }
}

/**
 * From the encoder to the muxer (ffmpeg.c, write_packet and check_init_output_file):
 * the limit on the number of packets, the queue that holds packets until the header
 * has been written, and the repair of timestamps.
 *
 * A stream's `accepted`, `reached` and `scaled` are not in the program: they log the
 * packets that were let through, and those that reached the muxing stage, each with the
 * time base that its timestamps were in, and were taken to be in; and the latter with
 * their timestamps in the stream's own time base, before any repair.
 */
module Muxing {
  import opened Arithmetic
  import opened Timestamps
  import opened Wrappers

  /** AV_NOPTS_VALUE. */
  const NO_PTS: int := -0x8000_0000_0000_0000

  datatype Kind = Video | Audio | Subtitle | Other

  datatype Packet = Packet(id: int, pts: int, dts: int, duration: int)

  /** The muxer's flags and the options that concern every stream. */
  datatype Muxer = Muxer(
    noTimestamps: bool, nonStrict: bool,
    videoDropsTimes: bool, audioDropsTimes: bool,  // VSYNC_DROP; a negative -async
    exitOnError: bool)
  {
    /** The least step from one dts to the next. */
    function Gap(): (r: int) {
      if nonStrict then 0 else 1
    }
  }

  datatype Entry = Entry(pkt: Packet, timeBase: Rational)

  datatype Stream = Stream(
    kind: Kind, encoding: bool, vp9Copy: bool, cfrRate: Option<Rational>,
    maxFrames: int, maxQueue: int,
    initialized: bool, muxTimeBase: Rational, timeBase: Rational,
    frameNumber: int, queue: seq<Packet>, room: nat,
    lastMuxDts: int, muxed: seq<Packet>,
    accepted: seq<Entry>, reached: seq<Entry>, scaled: seq<Packet>)
  {
    predicate Valid() {
      muxTimeBase.Positive() && timeBase.Positive() && (cfrRate.Some? ==> cfrRate.value.Positive())
    }

    /** Are its packets counted here, rather than where its frames are encoded? */
    predicate CountedHere() {
      !(kind.Video? && encoding)
    }

    /** Does its dts have to rise? */
    predicate Rises(m: Muxer) {
      !m.noTimestamps && !kind.Other? && !vp9Copy
    }

    predicate DropsTimes(m: Muxer) {
      (kind.Video? && m.videoDropsTimes) || (kind.Audio? && m.audioDropsTimes)
    }
  }

  // ---- timestamps ---------------------------------------------------------------------

  function RescaleTime(t: int, from: Rational, to: Rational): (r: int)
    requires from.Positive() && to.Positive()
  {
    if t == NO_PTS then t else Rescale(t, from, to)
  }

  /** The packet with its timestamps in the stream's own time base. */
  function InTimeBase(m: Muxer, s: Stream, p: Packet): (r: Packet)
    requires s.Valid()
  {
    var t := if s.DropsTimes(m) then p.(pts := NO_PTS, dts := NO_PTS) else p;
    var d := if s.kind.Video? && s.cfrRate.Some?
             then t.(duration := Rescale(1, s.cfrRate.value.Inverse(), s.muxTimeBase))
             else t;
    Packet(d.id, RescaleTime(d.pts, s.muxTimeBase, s.timeBase), RescaleTime(d.dts, s.muxTimeBase, s.timeBase),
           if d.duration > 0 then Rescale(d.duration, s.muxTimeBase, s.timeBase) else d.duration)
  }

  /** For a dts after the pts: the sum of three times without the least and the greatest. */
  function Guess(pts: int, dts: int, next: int): (r: int) {
    pts + dts + next - Min(Min(pts, dts), next) - Max(Max(pts, dts), next)
  }

  function PtsRepaired(m: Muxer, last: int, p: Packet): (r: Packet) {
    if !m.noTimestamps && p.dts != NO_PTS && p.pts != NO_PTS && p.dts > p.pts then
      var guess := Guess(p.pts, p.dts, last + 1);
      p.(pts := guess, dts := guess)
    else p
  }

  /** Must the dts be raised to keep it rising? */
  predicate Late(m: Muxer, rises: bool, last: int, p: Packet) {
    rises && p.dts != NO_PTS && last != NO_PTS && p.dts < last + m.Gap()
  }

  function DtsRepaired(m: Muxer, rises: bool, last: int, p: Packet): (q: Packet) {
    if Late(m, rises, last, p) then
      var least := last + m.Gap();
      p.(pts := if p.pts >= p.dts then Max(p.pts, least) else p.pts, dts := least)
    else p
  }

  /** A packet as the muxer gets it, after one with this dts. */
  function Repaired(m: Muxer, rises: bool, last: int, p: Packet): (q: Packet) {
    DtsRepaired(m, rises, last, PtsRepaired(m, last, p))
  }

  // ---- write_packet and check_init_output_file -------------------------------------------

  /** The muxing stage, or None if the program exits. */
  function Mux(m: Muxer, s: Stream, p: Packet): (r: Option<Stream>)
    requires s.Valid()
    ensures r.Some? ==> r.value.Valid()
  {
    var scaled := InTimeBase(m, s, p);
    if m.exitOnError && Late(m, s.Rises(m), s.lastMuxDts, PtsRepaired(m, s.lastMuxDts, scaled)) then None
    else
      var q := Repaired(m, s.Rises(m), s.lastMuxDts, scaled);
      Some(s.(lastMuxDts := q.dts, muxed := s.muxed + [q],
              reached := s.reached + [Entry(p, s.muxTimeBase)], scaled := s.scaled + [scaled]))
  }

  /** The queue of packets before the header: it doubles up to its limit, and then the program exits. */
  function Enqueue(s: Stream, p: Packet): (r: Option<Stream>) {
    if |s.queue| < s.room then Some(s.(queue := s.queue + [p]))
    else
      var size := Min(2 * |s.queue|, s.maxQueue);
      if size <= |s.queue| then None
      else Some(s.(queue := s.queue + [p], room := size))
  }

  /** write_packet, except that a packet from the queue is neither counted nor logged again. */
  function Write(m: Muxer, header: bool, s: Stream, p: Packet): (r: Option<Stream>)
    requires s.Valid()
    ensures r.Some? ==> r.value.Valid()
  {
    if s.CountedHere() && s.frameNumber >= s.maxFrames then Some(s)
    else
      var t := s.(frameNumber := if s.CountedHere() then s.frameNumber + 1 else s.frameNumber,
                  accepted := s.accepted + [Entry(p, s.muxTimeBase)]);
      if header then Mux(m, t, p) else Enqueue(t, p)
  }

  /** The whole queue goes to the muxing stage. */
  function Unqueue(m: Muxer, s: Stream): (r: Option<Stream>)
    requires s.Valid()
    ensures r.Some? ==> r.value.Valid()
    decreases |s.queue|
  {
    if s.queue == [] then Some(s)
    else
      match Mux(m, s.(queue := s.queue[1..]), s.queue[0])
      case None => None
      case Some(t) => Unqueue(m, t)
  }

  /** A stream when the header has been written, which may have changed its time base. */
  function Open(m: Muxer, s: Stream, timeBase: Rational): (r: Option<Stream>)
    requires s.Valid() && timeBase.Positive()
    ensures r.Some? ==> r.value.Valid()
  {
    Unqueue(m, s.(timeBase := timeBase, muxTimeBase := if s.queue == [] then timeBase else s.muxTimeBase))
  }

  /** The first n streams opened, one after the other. */
  function Opened(m: Muxer, streams: seq<Stream>, timeBases: seq<Rational>, n: nat): (r: Option<seq<Stream>>)
    requires n <= |streams| == |timeBases|
    requires forall i :: 0 <= i < |streams| ==> streams[i].Valid() && timeBases[i].Positive()
    ensures r.Some? ==> |r.value| == |streams| && r.value[n..] == streams[n..]
    ensures r.Some? ==> forall i :: 0 <= i < n ==> Open(m, streams[i], timeBases[i]) == Some(r.value[i])
    ensures r.None? ==> exists i :: 0 <= i < n && Open(m, streams[i], timeBases[i]).None?
  {
    if n == 0 then Some(streams)
    else
      match (Opened(m, streams, timeBases, n - 1), Open(m, streams[n - 1], timeBases[n - 1]))
      case (Some(before), Some(s)) => Some(before[n - 1 := s])
      case _ => None
  }

  lemma OpenedNext(m: Muxer, streams: seq<Stream>, timeBases: seq<Rational>, n: nat, before: seq<Stream>)
    requires n < |streams| == |timeBases|
    requires forall i :: 0 <= i < |streams| ==> streams[i].Valid() && timeBases[i].Positive()
    requires Opened(m, streams, timeBases, n) == Some(before)
    ensures |before| == |streams| && before[n] == streams[n]
    ensures var s := Open(m, streams[n], timeBases[n]);
            Opened(m, streams, timeBases, n + 1) == if s.Some? then Some(before[n := s.value]) else None
  {
    assert before[n] == before[n..][0] == streams[n];
    hide Open;
  }

  lemma {:induction false} OpenedFails(m: Muxer, streams: seq<Stream>, timeBases: seq<Rational>, i: nat, n: nat)
    requires i < n <= |streams| == |timeBases|
    requires forall k :: 0 <= k < |streams| ==> streams[k].Valid() && timeBases[k].Positive()
    requires Open(m, streams[i], timeBases[i]).None?
    ensures Opened(m, streams, timeBases, n).None?
  {
    if i < n - 1 {
      OpenedFails(m, streams, timeBases, i, n - 1);
    }
  }

  datatype Output = Output(header: bool, streams: seq<Stream>) {
    predicate Valid() {
      forall i :: 0 <= i < |streams| ==> streams[i].Valid()
    }
  }

  class OutputFile {
    const muxer: Muxer
    var headerWritten: bool
    var streams: seq<Stream>

    constructor (muxer: Muxer, streams: seq<Stream>)
      ensures this.muxer == muxer && Contents() == Output(false, streams)
    {
      this.muxer, this.streams, headerWritten := muxer, streams, false;
    }

    function Contents(): (r: Output)
      reads this
    {
      Output(headerWritten, streams)
    }

    /** With unqueue for a packet from the queue. False if the program exits. */
    method WritePacket(i: nat, p: Packet, unqueue: bool) returns (ok: bool)
      requires Contents().Valid() && i < |streams| && streams[i].initialized && (unqueue ==> headerWritten)
      modifies this`streams
      ensures Contents().Valid()
      ensures var s := old(streams)[i];
              var r := if unqueue then Mux(muxer, s, p) else Write(muxer, headerWritten, s, p);
              && ok == r.Some?
              && (ok ==> streams == old(streams)[i := r.value])
    {
      hide PtsRepaired, DtsRepaired, Late, Min, InTimeBase;
      var s := streams[i];
      if !(s.kind.Video? && s.encoding) && !unqueue {
        if s.frameNumber >= s.maxFrames {
          return true;
        }
        s := s.(frameNumber := s.frameNumber + 1);
      }
      if !unqueue {
        s := s.(accepted := s.accepted + [Entry(p, s.muxTimeBase)]);
      }
      if !headerWritten {
        if s.room <= |s.queue| {
          var size := Min(2 * |s.queue|, s.maxQueue);
          if size <= |s.queue| {
            return false;
          }
          s := s.(room := size);
        }
        streams := streams[i := s.(queue := s.queue + [p])];
        return true;
      }
      var pkt := ScaleTimes(s, p);
      s := s.(scaled := s.scaled + [pkt]);
      ok, pkt := RepairTimes(s, pkt);
      if !ok {
        return;
      }
      s := s.(lastMuxDts := pkt.dts, muxed := s.muxed + [pkt], reached := s.reached + [Entry(p, s.muxTimeBase)]);
      streams := streams[i := s];
      return true;
    }

    /** The part of write_packet that takes the timestamps to the stream's own time base. */
    method ScaleTimes(s: Stream, p: Packet) returns (pkt: Packet)
      requires s.Valid()
      ensures pkt == InTimeBase(muxer, s, p)
    {
      hide Rescale;
      pkt := p;
      if (s.kind.Video? && muxer.videoDropsTimes) || (s.kind.Audio? && muxer.audioDropsTimes) {
        pkt := pkt.(pts := NO_PTS, dts := NO_PTS);
      }
      if s.kind.Video? && s.cfrRate.Some? {
        pkt := pkt.(duration := Rescale(1, s.cfrRate.value.Inverse(), s.muxTimeBase));
      }
      pkt := pkt.(pts := RescaleTime(pkt.pts, s.muxTimeBase, s.timeBase),
                  dts := RescaleTime(pkt.dts, s.muxTimeBase, s.timeBase));
      if pkt.duration > 0 {
        pkt := pkt.(duration := Rescale(pkt.duration, s.muxTimeBase, s.timeBase));
      }
    }

    /** The part of write_packet about timestamps in the wrong order. False if the program exits. */
    method RepairTimes(s: Stream, p: Packet) returns (ok: bool, pkt: Packet)
      ensures var q := PtsRepaired(muxer, s.lastMuxDts, p);
              && ok == !(muxer.exitOnError && Late(muxer, s.Rises(muxer), s.lastMuxDts, q))
              && (ok ==> pkt == DtsRepaired(muxer, s.Rises(muxer), s.lastMuxDts, q))
    {
      hide Guess, Max;
      pkt := p;
      if !muxer.noTimestamps {
        if pkt.dts != NO_PTS && pkt.pts != NO_PTS && pkt.dts > pkt.pts {
          var guess := Guess(pkt.pts, pkt.dts, s.lastMuxDts + 1);
          pkt := pkt.(pts := guess, dts := guess);
        }
        if (s.kind.Audio? || s.kind.Video? || s.kind.Subtitle?) &&
           pkt.dts != NO_PTS && !s.vp9Copy && s.lastMuxDts != NO_PTS {
          var max := s.lastMuxDts + if muxer.nonStrict then 0 else 1;
          if pkt.dts < max {
            if muxer.exitOnError {
              return false, pkt;
            }
            if pkt.pts >= pkt.dts {
              pkt := pkt.(pts := Max(pkt.pts, max));
            }
            pkt := pkt.(dts := max);
          }
        }
      }
      ok := true;
    }

    /** The part of check_init_output_file that empties one stream's queue. False if the program exits. */
    method SendQueued(i: nat) returns (ok: bool)
      requires Contents().Valid() && headerWritten && i < |streams| && streams[i].initialized
      modifies this`streams
      ensures Contents().Valid()
      ensures var r := Unqueue(muxer, old(streams)[i]);
              ok == r.Some? && (ok ==> streams == old(streams)[i := r.value])
    {
      hide Mux;
      while streams[i].queue != []
        invariant Contents().Valid() && |streams| == |old(streams)|
        invariant streams[i].initialized && streams == old(streams)[i := streams[i]]
        invariant Unqueue(muxer, streams[i]) == Unqueue(muxer, old(streams)[i])
        decreases |streams[i].queue|
      {
        var p := streams[i].queue[0];
        streams := streams[i := streams[i].(queue := streams[i].queue[1..])];
        ghost var taken := streams[i];
        ok := WritePacket(i, p, true);
        if !ok {
          return;
        }
        MuxLogs(muxer, taken, p);
      }
      ok := true;
    }

    /** The part of check_init_output_file after the header: every stream opened. False if the program exits. */
    method FlushQueues(timeBases: seq<Rational>) returns (ok: bool)
      requires Contents().Valid() && |timeBases| == |streams| && headerWritten
      requires forall i :: 0 <= i < |timeBases| ==> timeBases[i].Positive() && streams[i].initialized
      modifies this`streams
      ensures var r := Opened(muxer, old(streams), timeBases, |timeBases|);
              ok == r.Some? && (ok ==> streams == r.value)
    {
      hide Unqueue;
      for i := 0 to |streams|
        invariant headerWritten && |streams| == |timeBases|
        invariant Contents().Valid() && Opened(muxer, old(streams), timeBases, i) == Some(streams)
      {
        ghost var before := streams;
        OpenedNext(muxer, old(streams), timeBases, i, before);
        hide Opened;
        var s := streams[i].(timeBase := timeBases[i]);
        if s.queue == [] {
          s := s.(muxTimeBase := s.timeBase);
        }
        streams := streams[i := s];
        ok := SendQueued(i);
        if !ok {
          OpenedFails(muxer, old(streams), timeBases, i, |timeBases|);
          return;
        }
        assert streams == before[i := streams[i]];
      }
      ok := true;
    }

    /**
     * Once every stream is initialized: writes the header, which may change the
     * streams' time bases, and sends the queued packets to the muxing stage. False for
     * an error of the header, or if the program exits.
     */
    method CheckInitOutputFile(headerOk: bool, timeBases: seq<Rational>) returns (ok: bool)
      requires Contents().Valid() && |timeBases| == |streams|
      requires forall i :: 0 <= i < |timeBases| ==> timeBases[i].Positive()
      modifies this
      ensures var all := forall i :: 0 <= i < |old(streams)| ==> old(streams)[i].initialized;
              && (!all ==> ok && Contents() == old(Contents()))
              && (all && !headerOk ==> !ok && Contents() == old(Contents()))
              && (all && headerOk ==> ok == Opened(muxer, old(streams), timeBases, |timeBases|).Some?)
              && (all && ok ==> Contents() == Output(true, Opened(muxer, old(streams), timeBases, |timeBases|).value))
    {
      hide Opened;
      for i := 0 to |streams|
        invariant Contents() == old(Contents())
        invariant forall k :: 0 <= k < i ==> streams[k].initialized
      {
        if !streams[i].initialized {
          return true;
        }
      }
      if !headerOk {
        return false;
      }
      headerWritten := true;
      ok := FlushQueues(timeBases);
    }
  }

  // ---- what the repair does to a packet ---------------------------------------------------

  /** The guess is one of the three times, with one of the others on each side: their median. */
  lemma GuessIsMedian(pts: int, dts: int, next: int)
    ensures var g := Guess(pts, dts, next);
            || (g == pts && (dts <= pts <= next || next <= pts <= dts))
            || (g == dts && (pts <= dts <= next || next <= dts <= pts))
            || (g == next && (pts <= next <= dts || dts <= next <= pts))
  {
  }

  /** Timestamps in order are left alone. */
  lemma InOrderUnchanged(m: Muxer, rises: bool, last: int, p: Packet)
    requires p.pts != NO_PTS && p.dts != NO_PTS ==> p.dts <= p.pts
    requires !Late(m, rises, last, p)
    ensures Repaired(m, rises, last, p) == p
  {
  }

  /** What the muxer gets: dts no later than pts, and after the last dts by the least amount that needs. */
  lemma RepairedInOrder(m: Muxer, rises: bool, last: int, p: Packet)
    ensures var r := PtsRepaired(m, last, p);
            var q := Repaired(m, rises, last, p);
            && (!m.noTimestamps && q.pts != NO_PTS && q.dts != NO_PTS ==> q.dts <= q.pts)
            && (rises && r.dts != NO_PTS && last != NO_PTS ==> q.dts == Max(r.dts, last + m.Gap()))
            && (r.pts != NO_PTS && r.dts != NO_PTS && !m.noTimestamps ==> q.pts == Max(r.pts, q.dts))
            && q.id == p.id && q.duration == p.duration
  {
    GuessIsMedian(p.pts, p.dts, last + 1);
    hide Guess;
  }

  // ---- whole runs ---------------------------------------------------------------------------

  /** A step of the program, for stream i where it has one. */
  datatype Op =
    | Initialize(i: nat, timeBase: Rational)  // of the encoder, or of the input for a stream copy
    | Put(i: nat, pkt: Packet)
    | Header(timeBases: seq<Rational>)

  predicate AllInitialized(o: Output) {
    forall i :: 0 <= i < |o.streams| ==> o.streams[i].initialized
  }

  /** Streams are initialized once, before their packets; the header is written once; nothing follows an exit. */
  function Apply(m: Muxer, o: Output, op: Op): (r: Option<Output>)
    requires o.Valid()
    ensures r.Some? ==> r.value.Valid() && |r.value.streams| == |o.streams|
  {
    match op
    case Initialize(i, tb) =>
      if i >= |o.streams| || o.streams[i].initialized || !tb.Positive() then None
      else Some(o.(streams := o.streams[i := o.streams[i].(initialized := true, muxTimeBase := tb)]))
    case Put(i, p) =>
      if i >= |o.streams| || !o.streams[i].initialized then None
      else
        (match Write(m, o.header, o.streams[i], p)
         case None => None
         case Some(s) => Some(o.(streams := o.streams[i := s])))
    case Header(bases) =>
      if o.header || |bases| != |o.streams| || exists i :: 0 <= i < |bases| && !bases[i].Positive() then None
      else if !AllInitialized(o) then Some(o)
      else
        (match Opened(m, o.streams, bases, |bases|)
         case None => None
         case Some(streams) => Some(Output(true, streams)))
  }

  function Run(m: Muxer, o: Output, ops: seq<Op>): (r: Option<Output>)
    requires o.Valid()
    ensures r.Some? ==> r.value.Valid() && |r.value.streams| == |o.streams|
  {
    if ops == [] then Some(o)
    else
      match Run(m, o, ops[..|ops| - 1])
      case None => None
      case Some(before) => Apply(m, before, ops[|ops| - 1])
  }

  function Tagged(pkts: seq<Packet>, tb: Rational): (r: seq<Entry>)
    ensures |r| == |pkts| && forall i :: 0 <= i < |r| ==> r[i] == Entry(pkts[i], tb)
  {
    seq(|pkts|, i requires 0 <= i < |pkts| => Entry(pkts[i], tb))
  }

  /** Accepted packets are those that reached the muxing stage and then those in the queue, and keep their time base. */
  predicate Logged(s: Stream) {
    && s.accepted == s.reached + Tagged(s.queue, s.muxTimeBase)
    && |s.muxed| == |s.reached| == |s.scaled|
    && forall k :: 0 <= k < |s.muxed| ==> s.muxed[k].id == s.reached[k].pkt.id
  }

  predicate Within(s: Stream) {
    && |s.queue| <= s.room <= Max(8, s.maxQueue) && s.room >= 8
    && (s.CountedHere() ==> s.frameNumber == |s.accepted| <= s.maxFrames)
    && (!s.initialized ==> s.accepted == [])
  }

  /** The dts that the stream had when its k-th packet came. */
  function LastDts(s: Stream, k: nat): (dts: int)
    requires k <= |s.muxed|
  {
    if k == 0 then NO_PTS else s.muxed[k - 1].dts
  }

  /** Each packet in the muxer is the repair of what reached it, after the dts of the one before. */
  ghost predicate InOrder(m: Muxer, s: Stream) {
    && s.lastMuxDts == LastDts(s, |s.muxed|) && |s.scaled| == |s.muxed|
    && forall k :: 0 <= k < |s.muxed| ==> s.muxed[k] == Repaired(m, s.Rises(m), LastDts(s, k), s.scaled[k])
  }

  ghost predicate StreamOk(m: Muxer, s: Stream) {
    s.Valid() && Logged(s) && Within(s) && InOrder(m, s)
  }

  ghost predicate OutputOk(m: Muxer, o: Output) {
    forall i :: 0 <= i < |o.streams| ==>
      && StreamOk(m, o.streams[i])
      && if o.header then o.streams[i].queue == [] else o.streams[i].reached == []
  }

  predicate Fresh(s: Stream) {
    && s.Valid() && !s.initialized && s.maxFrames >= 0 && s.frameNumber == 0
    && s.queue == [] && s.room == 8 && s.lastMuxDts == NO_PTS && s.muxed == []
    && s.accepted == [] && s.reached == [] && s.scaled == []
  }

  predicate Start(o: Output) {
    !o.header && forall i :: 0 <= i < |o.streams| ==> Fresh(o.streams[i])
  }

  lemma MuxKeepsOrder(m: Muxer, s: Stream, p: Packet)
    requires s.Valid() && InOrder(m, s) && Mux(m, s, p).Some?
    ensures InOrder(m, Mux(m, s, p).value)
  {
    var t := Mux(m, s, p).value;
    MuxAppends(m, s, p);
    hide Mux, InTimeBase, Repaired, LastDts;
    LastDtsKept(s, t, |s.muxed|);
    LastDtsIs(t);
    forall k | 0 <= k < |t.muxed| ensures t.muxed[k] == Repaired(m, t.Rises(m), LastDts(t, k), t.scaled[k]) {
      LastDtsKept(s, t, k);
      if k < |s.muxed| {
        assert t.muxed[k] == s.muxed[k] && t.scaled[k] == s.scaled[k];
      }
    }
  }

  lemma LastDtsKept(s: Stream, t: Stream, k: nat)
    requires k <= |s.muxed| && s.muxed <= t.muxed
    ensures LastDts(t, k) == LastDts(s, k)
  {
  }

  lemma LastDtsIs(s: Stream)
    requires s.muxed != []
    ensures LastDts(s, |s.muxed|) == s.muxed[|s.muxed| - 1].dts
  {
  }

  lemma MuxAppends(m: Muxer, s: Stream, p: Packet)
    requires s.Valid() && Mux(m, s, p).Some?
    ensures var t, scaled := Mux(m, s, p).value, InTimeBase(m, s, p);
            var q := Repaired(m, s.Rises(m), s.lastMuxDts, scaled);
            && t.lastMuxDts == q.dts && t.muxed == s.muxed + [q] && t.scaled == s.scaled + [scaled]
            && t.Rises(m) == s.Rises(m)
  {
    hide InTimeBase, Repaired, PtsRepaired, Late;
  }

  /** InOrder is about the muxed packets, and what never changes of a stream. */
  lemma SameOrder(m: Muxer, s: Stream, t: Stream)
    requires InOrder(m, s) && t.muxed == s.muxed && t.scaled == s.scaled && t.lastMuxDts == s.lastMuxDts
    requires t.kind == s.kind && t.vp9Copy == s.vp9Copy
    ensures InOrder(m, t)
  {
    hide LastDts, Repaired;
    LastDtsKept(s, t, |s.muxed|);
    forall k | 0 <= k < |t.muxed| ensures t.muxed[k] == Repaired(m, t.Rises(m), LastDts(t, k), t.scaled[k]) {
      LastDtsKept(s, t, k);
    }
  }

  /** The first packet of the queue reaches the muxing stage. */
  lemma TakeKeeps(m: Muxer, s: Stream)
    requires StreamOk(m, s) && s.queue != []
    requires Mux(m, s.(queue := s.queue[1..]), s.queue[0]).Some?
    ensures StreamOk(m, Mux(m, s.(queue := s.queue[1..]), s.queue[0]).value)
  {
    var u := s.(queue := s.queue[1..]);
    SameOrder(m, s, u);
    MuxKeepsOrder(m, u, s.queue[0]);
    MuxLogs(m, u, s.queue[0]);
    var t := Mux(m, u, s.queue[0]).value;
    TakeLogged(s, t);
    hide InOrder, Mux, Tagged, Logged;
  }

  lemma MoveFirst(a: seq<Entry>, e: Entry, b: seq<Entry>)
    ensures a + ([e] + b) == (a + [e]) + b
  {
  }

  lemma TakeLogged(s: Stream, t: Stream)
    requires Logged(s) && s.queue != [] && t.queue == s.queue[1..] && t.muxTimeBase == s.muxTimeBase
    requires t.accepted == s.accepted && t.reached == s.reached + [Entry(s.queue[0], s.muxTimeBase)]
    requires |t.scaled| == |s.scaled| + 1
    requires |t.muxed| == |s.muxed| + 1 && t.muxed[..|s.muxed|] == s.muxed && t.muxed[|s.muxed|].id == s.queue[0].id
    ensures Logged(t)
  {
    var tb := s.muxTimeBase;
    assert Tagged(s.queue, tb) == [Entry(s.queue[0], tb)] + Tagged(t.queue, tb);
    MoveFirst(s.reached, Entry(s.queue[0], tb), Tagged(t.queue, tb));
    hide Tagged;
    forall k | 0 <= k < |t.muxed| ensures t.muxed[k].id == t.reached[k].pkt.id {
      assert k < |s.muxed| ==> t.muxed[k] == t.muxed[..|s.muxed|][k] == s.muxed[k];
    }
  }

  /** What the muxing stage does but for the timestamps. */
  lemma MuxLogs(m: Muxer, s: Stream, p: Packet)
    requires s.Valid() && Mux(m, s, p).Some?
    ensures var t := Mux(m, s, p).value;
            && t == s.(lastMuxDts := t.lastMuxDts, muxed := t.muxed, scaled := t.scaled,
                       reached := s.reached + [Entry(p, s.muxTimeBase)])
            && |t.scaled| == |s.scaled| + 1
            && |t.muxed| == |s.muxed| + 1 && t.muxed[..|s.muxed|] == s.muxed && t.muxed[|s.muxed|].id == p.id
  {
  }

  lemma {:induction false} UnqueueKeeps(m: Muxer, s: Stream)
    requires StreamOk(m, s) && Unqueue(m, s).Some?
    ensures StreamOk(m, Unqueue(m, s).value) && Unqueue(m, s).value.queue == []
    decreases |s.queue|
  {
    if s.queue != [] {
      TakeKeeps(m, s);
      hide StreamOk, Mux;
      UnqueueKeeps(m, Mux(m, s.(queue := s.queue[1..]), s.queue[0]).value);
    }
  }

  lemma PutKeeps(m: Muxer, header: bool, s: Stream, p: Packet)
    requires StreamOk(m, s) && s.initialized && Write(m, header, s, p).Some?
    requires if header then s.queue == [] else s.reached == []
    ensures var t := Write(m, header, s, p).value;
            StreamOk(m, t) && if header then t.queue == [] else t.reached == []
  {
    hide InOrder, Mux, Enqueue, Tagged, Max;
    if !(s.CountedHere() && s.frameNumber >= s.maxFrames) {
      var u := s.(frameNumber := if s.CountedHere() then s.frameNumber + 1 else s.frameNumber,
                  accepted := s.accepted + [Entry(p, s.muxTimeBase)]);
      SameOrder(m, s, u);
      if header {
        DirectKeeps(m, u, p);
      } else {
        EnqueueKeeps(m, u, p);
      }
    }
  }

  /** The newest of the accepted packets goes on to the muxing stage, with none in the queue before it. */
  lemma DirectKeeps(m: Muxer, s: Stream, p: Packet)
    requires s.Valid() && s.initialized && InOrder(m, s) && Within(s) && Mux(m, s, p).Some?
    requires s.queue == [] && s.accepted == s.reached + [Entry(p, s.muxTimeBase)]
    requires |s.muxed| == |s.reached| == |s.scaled|
    requires forall k :: 0 <= k < |s.muxed| ==> s.muxed[k].id == s.reached[k].pkt.id
    ensures StreamOk(m, Mux(m, s, p).value) && Mux(m, s, p).value.queue == []
  {
    hide InOrder, Mux, Max;
    MuxKeepsOrder(m, s, p);
    MuxLogs(m, s, p);
    var t := Mux(m, s, p).value;
    forall k | 0 <= k < |t.muxed| ensures t.muxed[k].id == t.reached[k].pkt.id {
      assert k < |s.muxed| ==> t.muxed[k] == t.muxed[..|s.muxed|][k] == s.muxed[k];
    }
  }

  /** The newest of the accepted packets goes into the queue. */
  lemma EnqueueKeeps(m: Muxer, s: Stream, p: Packet)
    requires s.Valid() && s.initialized && InOrder(m, s) && Within(s) && Enqueue(s, p).Some?
    requires s.reached == [] && s.muxed == [] && s.scaled == []
    requires s.accepted == Tagged(s.queue, s.muxTimeBase) + [Entry(p, s.muxTimeBase)]
    ensures StreamOk(m, Enqueue(s, p).value) && Enqueue(s, p).value.reached == []
  {
    var t := Enqueue(s, p).value;
    hide Max;
    assert t.queue == s.queue + [p];
    assert Tagged(t.queue, s.muxTimeBase) == Tagged(s.queue, s.muxTimeBase) + [Entry(p, s.muxTimeBase)];
  }

  lemma OpenKeeps(m: Muxer, s: Stream, tb: Rational)
    requires StreamOk(m, s) && tb.Positive() && Open(m, s, tb).Some?
    ensures StreamOk(m, Open(m, s, tb).value) && Open(m, s, tb).value.queue == []
  {
    var u := s.(timeBase := tb, muxTimeBase := if s.queue == [] then tb else s.muxTimeBase);
    RebasedKeeps(m, s, u);
    hide StreamOk;
    UnqueueKeeps(m, u);
  }

  /** Time bases may change where no packet is queued; so may what the invariant does not speak of. */
  lemma RebasedKeeps(m: Muxer, s: Stream, u: Stream)
    requires StreamOk(m, s) && u.Valid() && (u.muxTimeBase == s.muxTimeBase || s.queue == [])
    requires u == s.(timeBase := u.timeBase, muxTimeBase := u.muxTimeBase, initialized := u.initialized)
    requires s.initialized ==> u.initialized
    ensures StreamOk(m, u)
  {
    SameOrder(m, s, u);
  }

  /** No packet is queued before its stream is initialized. */
  lemma InitializeKeeps(m: Muxer, s: Stream, tb: Rational)
    requires StreamOk(m, s) && !s.initialized && tb.Positive()
    ensures StreamOk(m, s.(initialized := true, muxTimeBase := tb))
  {
    RebasedKeeps(m, s, s.(initialized := true, muxTimeBase := tb));
  }

  lemma ApplyKeeps(m: Muxer, o: Output, op: Op)
    requires o.Valid() && OutputOk(m, o) && Apply(m, o, op).Some?
    ensures OutputOk(m, Apply(m, o, op).value)
  {
    var t := Apply(m, o, op).value;
    hide StreamOk, Write, Open;
    forall i | 0 <= i < |t.streams|
      ensures StreamOk(m, t.streams[i]) && if t.header then t.streams[i].queue == [] else t.streams[i].reached == []
    {
      assert StreamOk(m, o.streams[i]);
      StreamKeeps(m, o, op, i);
    }
  }

  lemma StreamKeeps(m: Muxer, o: Output, op: Op, i: nat)
    requires o.Valid() && i < |o.streams| && StreamOk(m, o.streams[i]) && Apply(m, o, op).Some?
    requires if o.header then o.streams[i].queue == [] else o.streams[i].reached == []
    ensures var t := Apply(m, o, op).value;
            && StreamOk(m, t.streams[i])
            && if t.header then t.streams[i].queue == [] else t.streams[i].reached == []
  {
    hide StreamOk, Write, Open;
    match op
    case Initialize(j, tb) =>
      if i == j {
        InitializeKeeps(m, o.streams[i], tb);
      }
    case Put(j, p) =>
      if i == j {
        PutKeeps(m, o.header, o.streams[i], p);
      }
    case Header(bases) =>
      if AllInitialized(o) {
        OpenKeeps(m, o.streams[i], bases[i]);
      }
  }

  lemma {:induction false} RunKeeps(m: Muxer, o: Output, ops: seq<Op>)
    requires o.Valid() && Start(o) && Run(m, o, ops).Some?
    ensures OutputOk(m, Run(m, o, ops).value)
    decreases |ops|
  {
    if ops == [] {
      assert forall i :: 0 <= i < |o.streams| ==> Fresh(o.streams[i]);
    } else {
      hide OutputOk, Apply;
      RunKeeps(m, o, ops[..|ops| - 1]);
      ApplyKeeps(m, Run(m, o, ops[..|ops| - 1]).value, ops[|ops| - 1]);
    }
  }

  /** All packets that are given to stream i. */
  function Given(ops: seq<Op>, i: nat): (r: seq<Packet>) {
    if ops == [] then []
    else
      var op := ops[|ops| - 1];
      Given(ops[..|ops| - 1], i) + if op.Put? && op.i == i then [op.pkt] else []
  }

  /** These packets were accepted: all that were given, or the first up to the limit on their number. */
  predicate FirstAccepted(s: Stream, given: seq<Packet>) {
    var n := if s.kind.Video? && s.encoding then |given| else Min(|given|, s.maxFrames);
    |s.accepted| == n && forall k :: 0 <= k < n ==> s.accepted[k].pkt == given[k]
  }

  lemma {:induction false} UnqueueAccepted(m: Muxer, s: Stream)
    requires s.Valid() && Unqueue(m, s).Some?
    ensures var t := Unqueue(m, s).value;
            t.accepted == s.accepted && t.CountedHere() == s.CountedHere() && t.maxFrames == s.maxFrames
    decreases |s.queue|
  {
    if s.queue != [] {
      var u := s.(queue := s.queue[1..]);
      MuxLogs(m, u, s.queue[0]);
      hide Mux;
      UnqueueAccepted(m, Mux(m, u, s.queue[0]).value);
    }
  }

  lemma WriteAccepts(m: Muxer, header: bool, s: Stream, p: Packet, given: seq<Packet>)
    requires s.Valid() && Within(s) && FirstAccepted(s, given) && Write(m, header, s, p).Some?
    ensures FirstAccepted(Write(m, header, s, p).value, given + [p])
  {
    var t := Write(m, header, s, p).value;
    hide Mux, Min;
    if !(s.CountedHere() && s.frameNumber >= s.maxFrames) {
      var u := s.(frameNumber := if s.CountedHere() then s.frameNumber + 1 else s.frameNumber,
                  accepted := s.accepted + [Entry(p, s.muxTimeBase)]);
      if header {
        MuxLogs(m, u, p);
      }
      assert t.accepted == u.accepted && t.CountedHere() == s.CountedHere() && t.maxFrames == s.maxFrames;
      assert Min(|given|, s.maxFrames) == |given| || !s.CountedHere();
    }
    assert Min(|given| + 1, s.maxFrames) == if |given| < s.maxFrames then |given| + 1 else s.maxFrames;
  }

  /**
   * A stream accepts every packet that it is given, in order: all of them, or if they are
   * counted here those up to the limit.
   */
  lemma {:induction false} AcceptedAreFirst(m: Muxer, o: Output, ops: seq<Op>, i: nat)
    requires o.Valid() && Start(o) && Run(m, o, ops).Some? && i < |o.streams|
    ensures FirstAccepted(Run(m, o, ops).value.streams[i], Given(ops, i))
    decreases |ops|
  {
    if ops != [] {
      var before, op := ops[..|ops| - 1], ops[|ops| - 1];
      RunKeeps(m, o, before);
      var u := Run(m, o, before).value;
      AcceptedAreFirst(m, o, before, i);
      assert StreamOk(m, u.streams[i]);
      hide Write, Open, FirstAccepted, Run, OutputOk, InOrder, Logged, Within;
      ApplyAccepts(m, u, op, i, Given(before, i));
    } else {
      assert Fresh(o.streams[i]);
    }
  }

  lemma ApplyAccepts(m: Muxer, o: Output, op: Op, i: nat, given: seq<Packet>)
    requires o.Valid() && i < |o.streams| && StreamOk(m, o.streams[i]) && Apply(m, o, op).Some?
    requires FirstAccepted(o.streams[i], given)
    ensures FirstAccepted(Apply(m, o, op).value.streams[i],
                          given + if op.Put? && op.i == i then [op.pkt] else [])
  {
    var s, t := o.streams[i], Apply(m, o, op).value.streams[i];
    hide Write, Unqueue, Logged, InOrder;
    match op
    case Initialize(j, tb) =>
      SameAccepted(s, t, given);
    case Put(j, p) =>
      if i == j {
        WriteAccepts(m, o.header, s, p, given);
      } else {
        SameAccepted(s, t, given);
      }
    case Header(bases) =>
      if AllInitialized(o) {
        UnqueueAccepted(m, s.(timeBase := bases[i], muxTimeBase := if s.queue == [] then bases[i] else s.muxTimeBase));
      }
      SameAccepted(s, t, given);
  }

  lemma SameAccepted(s: Stream, t: Stream, given: seq<Packet>)
    requires FirstAccepted(s, given)
    requires t.accepted == s.accepted && t.CountedHere() == s.CountedHere() && t.maxFrames == s.maxFrames
    ensures FirstAccepted(t, given + [])
  {
    assert given + [] == given;
  }

  // ---- when the header is written ------------------------------------------------------------

  ghost predicate Began(ops: seq<Op>, i: nat) {
    exists k :: 0 <= k < |ops| && ops[k].Initialize? && ops[k].i == i
  }

  /** Did the n-th step try to write the header, with all streams initialized? */
  ghost predicate AllBegan(o: Output, ops: seq<Op>, n: nat)
    requires n < |ops|
  {
    ops[n].Header? && forall i :: 0 <= i < |o.streams| ==> Began(ops[..n], i)
  }

  lemma BeganNext(ops: seq<Op>, i: nat)
    requires ops != []
    ensures var op := ops[|ops| - 1];
            Began(ops, i) <==> Began(ops[..|ops| - 1], i) || (op.Initialize? && op.i == i)
  {
    var before := ops[..|ops| - 1];
    assert forall k :: 0 <= k < |before| ==> before[k] == ops[k];
    if Began(before, i) {
      var k :| 0 <= k < |before| && before[k].Initialize? && before[k].i == i;
      assert ops[k].Initialize?;
    }
  }

  lemma {:induction false} UnqueueInitialized(m: Muxer, s: Stream)
    requires s.Valid() && Unqueue(m, s).Some?
    ensures Unqueue(m, s).value.initialized == s.initialized
    decreases |s.queue|
  {
    if s.queue != [] {
      var u := s.(queue := s.queue[1..]);
      MuxLogs(m, u, s.queue[0]);
      hide Mux;
      UnqueueInitialized(m, Mux(m, u, s.queue[0]).value);
    }
  }

  lemma ApplyInitializes(m: Muxer, o: Output, op: Op, i: nat)
    requires o.Valid() && i < |o.streams| && Apply(m, o, op).Some?
    ensures Apply(m, o, op).value.streams[i].initialized <==>
            o.streams[i].initialized || (op.Initialize? && op.i == i)
  {
    hide Mux, Unqueue;
    match op
    case Initialize(_, _) =>
    case Put(j, p) =>
      if i == j && o.header {
        var s := o.streams[i];
        if !(s.CountedHere() && s.frameNumber >= s.maxFrames) {
          MuxLogs(m, s.(frameNumber := if s.CountedHere() then s.frameNumber + 1 else s.frameNumber,
                        accepted := s.accepted + [Entry(p, s.muxTimeBase)]), p);
        }
      }
    case Header(bases) =>
      if AllInitialized(o) {
        var s, base := o.streams[i], bases[i];
        UnqueueInitialized(m, s.(timeBase := base, muxTimeBase := if s.queue == [] then base else s.muxTimeBase));
      }
  }

  lemma {:induction false} InitializedIff(m: Muxer, o: Output, ops: seq<Op>, i: nat)
    requires o.Valid() && Start(o) && Run(m, o, ops).Some? && i < |o.streams|
    ensures Run(m, o, ops).value.streams[i].initialized <==> Began(ops, i)
    decreases |ops|
  {
    if ops == [] {
      assert Fresh(o.streams[i]);
    } else {
      var before := ops[..|ops| - 1];
      hide Apply, Began;
      InitializedIff(m, o, before, i);
      BeganNext(ops, i);
      ApplyInitializes(m, Run(m, o, before).value, ops[|ops| - 1], i);
    }
  }

  /** Over every run, the header has been written exactly if it was tried once all streams were initialized. */
  lemma {:induction false} HeaderIff(m: Muxer, o: Output, ops: seq<Op>)
    requires o.Valid() && Start(o) && Run(m, o, ops).Some?
    ensures Run(m, o, ops).value.header <==> exists n :: 0 <= n < |ops| && AllBegan(o, ops, n)
    decreases |ops|
  {
    if ops != [] {
      var before := ops[..|ops| - 1];
      var u := Run(m, o, before).value;
      HeaderIff(m, o, before);
      forall i | 0 <= i < |o.streams| ensures u.streams[i].initialized <==> Began(before, i) {
        InitializedIff(m, o, before, i);
      }
      forall n | 0 <= n < |before| ensures AllBegan(o, ops, n) <==> AllBegan(o, before, n) {
        assert ops[..n] == before[..n] && ops[n] == before[n];
      }
      hide Run, Began, Write, Opened, Start;
      ApplyHeader(m, u, ops[|ops| - 1]);
      assert AllBegan(o, ops, |before|) <==> ops[|before|].Header? && AllInitialized(u);
    }
  }

  lemma ApplyHeader(m: Muxer, o: Output, op: Op)
    requires o.Valid() && Apply(m, o, op).Some?
    ensures Apply(m, o, op).value.header <==> o.header || (op.Header? && AllInitialized(o))
  {
    hide Write, Opened;
  }

  // ---- the same times, in the time base of the stream ----------------------------------------

  /** A timestamp of the stream is the time that it was, to the nearest tick; or none. */
  predicate SameTimestamp(tb: Rational, t: int, from: Rational, was: int)
    requires tb.Positive() && from.Positive()
  {
    if was == NO_PTS then t == NO_PTS else WithinHalfTick(t, tb, Seconds(was, from))
  }

  /** At a constant frame rate a packet lasts for one frame, to the nearest tick of the time base that it came in. */
  predicate FrameDuration(rate: Rational, from: Rational, ticks: int)
    requires rate.Positive() && from.Positive()
  {
    WithinHalfTick(ticks, from, rate.den as real / rate.num as real)
  }

  /** A duration of the stream is that of before, to the nearest tick, if it was positive. */
  predicate SameDuration(tb: Rational, d: int, from: Rational, was: int)
    requires tb.Positive() && from.Positive()
  {
    if was > 0 then WithinHalfTick(d, tb, Seconds(was, from)) else d == was
  }

  /** A packet as it came to the muxing stage, and with its times in the time base of the stream. */
  ghost predicate SameTimes(m: Muxer, s: Stream, e: Entry, p: Packet)
    requires s.Valid()
  {
    && e.timeBase.Positive() && p.id == e.pkt.id
    && (if (s.kind.Video? && m.videoDropsTimes) || (s.kind.Audio? && m.audioDropsTimes) then p.pts == p.dts == NO_PTS
        else SameTimestamp(s.timeBase, p.pts, e.timeBase, e.pkt.pts)
             && SameTimestamp(s.timeBase, p.dts, e.timeBase, e.pkt.dts))
    && (if s.kind.Video? && s.cfrRate.Some?
        then exists ticks :: && FrameDuration(s.cfrRate.value, e.timeBase, ticks)
                             && SameDuration(s.timeBase, p.duration, e.timeBase, ticks)
        else SameDuration(s.timeBase, p.duration, e.timeBase, e.pkt.duration))
  }

  lemma RescaledTimestamp(t: int, from: Rational, to: Rational)
    requires from.Positive() && to.Positive()
    ensures SameTimestamp(to, RescaleTime(t, from, to), from, t)
  {
    RescaleNearest(t, from, to);
    hide Rescale, WithinHalfTick;
  }

  lemma RescaledFrame(rate: Rational, tb: Rational)
    requires rate.Positive() && tb.Positive()
    ensures FrameDuration(rate, tb, Rescale(1, rate.Inverse(), tb))
  {
    RescaleNearest(1, rate.Inverse(), tb);
    hide Rescale, WithinHalfTick;
  }

  lemma InTimeBaseSame(m: Muxer, s: Stream, p: Packet)
    requires s.Valid()
    ensures SameTimes(m, s, Entry(p, s.muxTimeBase), InTimeBase(m, s, p))
  {
    var from, to := s.muxTimeBase, s.timeBase;
    var ticks := if s.kind.Video? && s.cfrRate.Some? then Rescale(1, s.cfrRate.value.Inverse(), from) else p.duration;
    RescaledTimestamp(p.pts, from, to);
    RescaledTimestamp(p.dts, from, to);
    RescaleNearest(ticks, from, to);
    if s.cfrRate.Some? {
      RescaledFrame(s.cfrRate.value, from);
    }
    hide Rescale, RescaleTime, WithinHalfTick, FrameDuration, SameTimestamp;
    assert SameDuration(to, InTimeBase(m, s, p).duration, from, ticks);
    if s.DropsTimes(m) {
      NoTimesDropped(m, s, p);
    }
  }

  lemma NoTimesDropped(m: Muxer, s: Stream, p: Packet)
    requires s.Valid() && s.DropsTimes(m)
    ensures InTimeBase(m, s, p).pts == InTimeBase(m, s, p).dts == NO_PTS
  {
  }

  ghost predicate KeepsTimes(m: Muxer, s: Stream) {
    && s.Valid() && |s.scaled| == |s.reached|
    && forall k :: 0 <= k < |s.scaled| ==> SameTimes(m, s, s.reached[k], s.scaled[k])
  }

  /** What SameTimes says of a stream does not change once packets reach its muxing stage. */
  lemma SameTimesSame(m: Muxer, s: Stream, t: Stream, e: Entry, p: Packet)
    requires s.Valid() && t.Valid() && SameTimes(m, s, e, p)
    requires t.kind == s.kind && t.cfrRate == s.cfrRate && t.timeBase == s.timeBase
    ensures SameTimes(m, t, e, p)
  {
    hide SameTimestamp, FrameDuration, SameDuration;
  }

  lemma KeepsTimesSame(m: Muxer, s: Stream, t: Stream)
    requires KeepsTimes(m, s) && t.Valid() && t.scaled == s.scaled && t.reached == s.reached
    requires t.kind == s.kind && t.cfrRate == s.cfrRate && (t.timeBase == s.timeBase || s.reached == [])
    ensures KeepsTimes(m, t)
  {
    hide SameTimes;
    forall k | 0 <= k < |t.scaled| ensures SameTimes(m, t, t.reached[k], t.scaled[k]) {
      SameTimesSame(m, s, t, s.reached[k], s.scaled[k]);
    }
  }

  lemma MuxKeepsTimes(m: Muxer, s: Stream, p: Packet)
    requires KeepsTimes(m, s) && Mux(m, s, p).Some?
    ensures KeepsTimes(m, Mux(m, s, p).value)
  {
    var t, e := Mux(m, s, p).value, Entry(p, s.muxTimeBase);
    MuxAppends(m, s, p);
    MuxLogs(m, s, p);
    InTimeBaseSame(m, s, p);
    hide SameTimes, Mux, InTimeBase, Repaired;
    forall k | 0 <= k < |t.scaled| ensures SameTimes(m, t, t.reached[k], t.scaled[k]) {
      if k < |s.scaled| {
        SameTimesSame(m, s, t, s.reached[k], s.scaled[k]);
      } else {
        SameTimesSame(m, s, t, e, InTimeBase(m, s, p));
      }
    }
  }

  lemma {:induction false} UnqueueKeepsTimes(m: Muxer, s: Stream)
    requires KeepsTimes(m, s) && Unqueue(m, s).Some?
    ensures KeepsTimes(m, Unqueue(m, s).value)
    decreases |s.queue|
  {
    if s.queue != [] {
      var u := s.(queue := s.queue[1..]);
      KeepsTimesSame(m, s, u);
      MuxKeepsTimes(m, u, s.queue[0]);
      MuxLogs(m, u, s.queue[0]);
      hide KeepsTimes, Mux;
      UnqueueKeepsTimes(m, Mux(m, u, s.queue[0]).value);
    }
  }

  lemma WriteKeepsTimes(m: Muxer, header: bool, s: Stream, p: Packet)
    requires KeepsTimes(m, s) && Write(m, header, s, p).Some?
    ensures KeepsTimes(m, Write(m, header, s, p).value)
  {
    hide Mux, KeepsTimes, Min;
    if !(s.CountedHere() && s.frameNumber >= s.maxFrames) {
      var u := s.(frameNumber := if s.CountedHere() then s.frameNumber + 1 else s.frameNumber,
                  accepted := s.accepted + [Entry(p, s.muxTimeBase)]);
      IsValid(m, s);
      KeepsTimesSame(m, s, u);
      if header {
        MuxKeepsTimes(m, u, p);
      } else {
        KeepsTimesSame(m, u, Enqueue(u, p).value);
      }
    }
  }

  lemma IsValid(m: Muxer, s: Stream)
    requires KeepsTimes(m, s)
    ensures s.Valid()
  {
  }

  lemma OpenKeepsTimes(m: Muxer, s: Stream, tb: Rational)
    requires KeepsTimes(m, s) && tb.Positive() && s.reached == [] && Open(m, s, tb).Some?
    ensures KeepsTimes(m, Open(m, s, tb).value)
  {
    var u := s.(timeBase := tb, muxTimeBase := if s.queue == [] then tb else s.muxTimeBase);
    KeepsTimesSame(m, s, u);
    UnqueueKeepsTimes(m, u);
  }

  ghost predicate AllKeepTimes(m: Muxer, o: Output) {
    forall i :: 0 <= i < |o.streams| ==> KeepsTimes(m, o.streams[i])
  }

  lemma ApplyKeepsTimes(m: Muxer, o: Output, op: Op)
    requires o.Valid() && OutputOk(m, o) && AllKeepTimes(m, o) && Apply(m, o, op).Some?
    ensures AllKeepTimes(m, Apply(m, o, op).value)
  {
    var t := Apply(m, o, op).value;
    hide KeepsTimes, StreamOk, Apply;
    forall i | 0 <= i < |t.streams| ensures KeepsTimes(m, t.streams[i]) {
      assert KeepsTimes(m, o.streams[i]) && StreamOk(m, o.streams[i]);
      StreamKeepsTimes(m, o, op, i);
    }
  }

  lemma StreamKeepsTimes(m: Muxer, o: Output, op: Op, i: nat)
    requires o.Valid() && i < |o.streams| && StreamOk(m, o.streams[i]) && KeepsTimes(m, o.streams[i])
    requires !o.header ==> o.streams[i].reached == []
    requires Apply(m, o, op).Some?
    ensures KeepsTimes(m, Apply(m, o, op).value.streams[i])
  {
    IsValid(m, o.streams[i]);
    hide KeepsTimes, StreamOk, Write, Open;
    match op
    case Initialize(j, tb) =>
      if i == j {
        NoneReached(m, o.streams[i]);
        KeepsTimesSame(m, o.streams[i], Apply(m, o, op).value.streams[i]);
      }
    case Put(j, p) =>
      if i == j {
        WriteKeepsTimes(m, o.header, o.streams[i], p);
      }
    case Header(bases) =>
      if AllInitialized(o) {
        OpenKeepsTimes(m, o.streams[i], bases[i]);
      }
  }

  lemma NoneReached(m: Muxer, s: Stream)
    requires StreamOk(m, s) && !s.initialized
    ensures s.reached == []
  {
    hide InOrder;
  }

  lemma {:induction false} RunKeepsTimes(m: Muxer, o: Output, ops: seq<Op>)
    requires o.Valid() && Start(o) && Run(m, o, ops).Some?
    ensures AllKeepTimes(m, Run(m, o, ops).value)
    decreases |ops|
  {
    if ops == [] {
      assert forall i :: 0 <= i < |o.streams| ==> Fresh(o.streams[i]);
    } else {
      RunKeeps(m, o, ops[..|ops| - 1]);
      hide OutputOk, AllKeepTimes, Apply;
      RunKeepsTimes(m, o, ops[..|ops| - 1]);
      ApplyKeepsTimes(m, Run(m, o, ops[..|ops| - 1]).value, ops[|ops| - 1]);
    }
  }

  /**
   * Over every run: a packet keeps its times when they are taken from the time base that
   * it came in to that of its stream, each to within half a tick, unless the stream drops
   * its timestamps; so does its duration, or that of a frame at a constant frame rate.
   */
  lemma TimesKept(m: Muxer, o: Output, ops: seq<Op>, i: nat, k: nat)
    requires o.Valid() && Start(o) && Run(m, o, ops).Some? && i < |o.streams|
    requires k < |Run(m, o, ops).value.streams[i].scaled|
    ensures var s := Run(m, o, ops).value.streams[i];
            s.Valid() && |s.reached| == |s.scaled| && SameTimes(m, s, s.reached[k], s.scaled[k])
  {
    RunKeepsTimes(m, o, ops);
    hide Run, Start, SameTimes;
    assert KeepsTimes(m, Run(m, o, ops).value.streams[i]);
  }

  /**
   * Timestamps are lost only where they are dropped: a time that lies more than half a
   * tick after the number that stands for none is not taken for it.
   */
  lemma TimestampsStay(m: Muxer, o: Output, ops: seq<Op>, i: nat, k: nat)
    requires o.Valid() && Start(o) && Run(m, o, ops).Some? && i < |o.streams|
    requires k < |Run(m, o, ops).value.streams[i].scaled|
    ensures var s := Run(m, o, ops).value.streams[i];
            && s.Valid() && |s.reached| == |s.scaled| && s.reached[k].timeBase.Positive()
            && var e, p := s.reached[k], s.scaled[k];
               && (2.0 * (Seconds(e.pkt.pts, e.timeBase) - Seconds(NO_PTS, s.timeBase)) > Seconds(1, s.timeBase) ==>
                     (p.pts == NO_PTS <==> e.pkt.pts == NO_PTS || s.DropsTimes(m)))
               && (2.0 * (Seconds(e.pkt.dts, e.timeBase) - Seconds(NO_PTS, s.timeBase)) > Seconds(1, s.timeBase) ==>
                     (p.dts == NO_PTS <==> e.pkt.dts == NO_PTS || s.DropsTimes(m)))
  {
    TimesKept(m, o, ops, i, k);
    hide Run, Start, Seconds, FrameDuration, SameDuration;
  }

  /**
   * Before and after the header: the packets of a stream reach the muxing stage in the
   * order in which they were accepted, each once, with their timestamps taken to be in
   * the time base that they were in; those that have not are in the queue, in order.
   */
  lemma EachOnceInOrder(m: Muxer, o: Output, ops: seq<Op>, i: nat)
    requires o.Valid() && Start(o) && Run(m, o, ops).Some? && i < |o.streams|
    ensures var t := Run(m, o, ops).value;
            var s := t.streams[i];
            && s.accepted == s.reached + Tagged(s.queue, s.muxTimeBase)
            && |s.muxed| == |s.reached|
            && (forall k :: 0 <= k < |s.muxed| ==> s.muxed[k].id == s.reached[k].pkt.id)
            && if t.header then s.queue == [] else s.reached == []
  {
    RunKeeps(m, o, ops);
  }

  /** The queue stays within its limit, or the 8 packets it begins with; accepted packets are counted, up to theirs. */
  lemma CountsWithinLimits(m: Muxer, o: Output, ops: seq<Op>, i: nat)
    requires o.Valid() && Start(o) && Run(m, o, ops).Some? && i < |o.streams|
    ensures var s := Run(m, o, ops).value.streams[i];
            && |s.queue| <= Max(8, s.maxQueue)
            && (s.CountedHere() ==> s.frameNumber == |s.accepted| <= s.maxFrames)
  {
    RunKeeps(m, o, ops);
  }

  /** In every run each packet leaves as the repair of what reached the muxing stage, after the dts before it. */
  lemma MuxedAreRepaired(m: Muxer, o: Output, ops: seq<Op>, i: nat, k: nat)
    requires o.Valid() && Start(o) && Run(m, o, ops).Some? && i < |o.streams|
    requires k < |Run(m, o, ops).value.streams[i].muxed|
    ensures var s := Run(m, o, ops).value.streams[i];
            |s.scaled| == |s.muxed| && s.muxed[k] == Repaired(m, s.Rises(m), LastDts(s, k), s.scaled[k])
  {
    RunKeeps(m, o, ops);
  }

  /** In every run no packet leaves with a dts after its pts. */
  lemma PtsNotBeforeDts(m: Muxer, o: Output, ops: seq<Op>, i: nat, k: nat)
    requires o.Valid() && Start(o) && Run(m, o, ops).Some? && i < |o.streams| && !m.noTimestamps
    requires k < |Run(m, o, ops).value.streams[i].muxed|
    ensures var q := Run(m, o, ops).value.streams[i].muxed[k];
            q.pts != NO_PTS && q.dts != NO_PTS ==> q.dts <= q.pts
  {
    MuxedAreRepaired(m, o, ops, i, k);
    var s := Run(m, o, ops).value.streams[i];
    RepairedInOrder(m, s.Rises(m), LastDts(s, k), s.scaled[k]);
  }

  /** The dts rises from each packet to the next as long as packets have one; it may stay, if the muxer allows that. */
  lemma {:induction false} DtsRises(m: Muxer, o: Output, ops: seq<Op>, i: nat, a: nat, b: nat)
    requires o.Valid() && Start(o) && Run(m, o, ops).Some? && i < |o.streams|
    requires var s := Run(m, o, ops).value.streams[i];
             s.Rises(m) && a <= b < |s.muxed| && forall k :: a <= k <= b ==> s.muxed[k].dts != NO_PTS
    ensures var s := Run(m, o, ops).value.streams[i];
            s.muxed[a].dts + (if m.nonStrict then 0 else b - a) <= s.muxed[b].dts
    decreases b
  {
    if a < b {
      DtsRises(m, o, ops, i, a, b - 1);
      MuxedAreRepaired(m, o, ops, i, b);
      var s := Run(m, o, ops).value.streams[i];
      hide Run, Start;
      RepairedRises(m, LastDts(s, b), s.scaled[b]);
    }
  }

  lemma RepairedRises(m: Muxer, last: int, p: Packet)
    requires last != NO_PTS && Repaired(m, true, last, p).dts != NO_PTS
    ensures Repaired(m, true, last, p).dts >= last + m.Gap()
  {
  }

  // ---- what leaves for what came ------------------------------------------------------------

  /** The one with one of the others on each side. */
  function Median(a: int, b: int, c: int): (r: int) {
    if b <= a <= c || c <= a <= b then a else if a <= b <= c || c <= b <= a then b else c
  }

  predicate Swapped(m: Muxer, p: Packet) {
    !m.noTimestamps && p.pts != NO_PTS && p.dts != NO_PTS && p.pts < p.dts
  }

  /** The dts, or for one after the pts the median of the two and the next dts that would do. */
  function DtsFor(m: Muxer, last: int, p: Packet): (dts: int) {
    if Swapped(m, p) then Median(p.pts, p.dts, last + 1) else p.dts
  }

  /** Is the dts not after the last one, where it has to be? */
  predicate TooLow(m: Muxer, s: Stream, last: int, dts: int) {
    && !m.noTimestamps && (s.kind.Video? || s.kind.Audio? || s.kind.Subtitle?) && !s.vp9Copy
    && dts != NO_PTS && last != NO_PTS && if m.nonStrict then dts < last else dts <= last
  }

  /** After a packet with this dts, q is what leaves for p. */
  predicate LeavesFor(m: Muxer, s: Stream, last: int, p: Packet, q: Packet) {
    var dts := DtsFor(m, last, p);
    var pts := if Swapped(m, p) then dts else p.pts;
    && q.id == p.id && q.duration == p.duration
    && if !TooLow(m, s, last, dts) then q.dts == dts && q.pts == pts
       else
         && q.dts == (if m.nonStrict then last else last + 1)
         && q.pts == if dts <= pts < q.dts then q.dts else pts
  }

  lemma RepairedLeaves(m: Muxer, s: Stream, last: int, p: Packet)
    ensures LeavesFor(m, s, last, p, Repaired(m, s.Rises(m), last, p))
    ensures Late(m, s.Rises(m), last, PtsRepaired(m, last, p)) <==> TooLow(m, s, last, DtsFor(m, last, p))
  {
    GuessIsMedian(p.pts, p.dts, last + 1);
    hide Guess;
  }

  /** Over every run, packet k leaves for what came to the muxing stage as the k-th, after the dts of the one before. */
  lemma LeavesAs(m: Muxer, o: Output, ops: seq<Op>, i: nat, k: nat)
    requires o.Valid() && Start(o) && Run(m, o, ops).Some? && i < |o.streams|
    requires k < |Run(m, o, ops).value.streams[i].muxed|
    ensures var s := Run(m, o, ops).value.streams[i];
            |s.scaled| == |s.muxed| && LeavesFor(m, s, LastDts(s, k), s.scaled[k], s.muxed[k])
  {
    MuxedAreRepaired(m, o, ops, i, k);
    var s := Run(m, o, ops).value.streams[i];
    hide Run, Start, LeavesFor, Repaired;
    RepairedLeaves(m, s, LastDts(s, k), s.scaled[k]);
  }

  /** Has the stream had all the packets that it may have? */
  predicate Complete(s: Stream) {
    !(s.kind.Video? && s.encoding) && |s.accepted| >= s.maxFrames
  }

  /** Is the dts of the packet too low after the last one that left? */
  predicate ComesTooLow(m: Muxer, s: Stream, p: Packet)
    requires s.Valid()
  {
    var last := LastDts(s, |s.muxed|);
    TooLow(m, s, last, DtsFor(m, last, InTimeBase(m, s, p)))
  }

  /**
   * In every run, a packet makes the program exit exactly if the stream may have it, and
   * before the header the queue is full; after it, the dts is too low and that is an error.
   */
  lemma PutExitsIff(m: Muxer, o: Output, ops: seq<Op>, i: nat, p: Packet)
    requires o.Valid() && Start(o) && Run(m, o, ops).Some? && i < |o.streams|
    requires Run(m, o, ops).value.streams[i].initialized
    ensures var t := Run(m, o, ops).value;
            var s := t.streams[i];
            s.Valid() &&
            (Apply(m, t, Put(i, p)).None? <==>
               && !Complete(s)
               && if t.header then m.exitOnError && ComesTooLow(m, s, p) else |s.queue| == Max(8, s.maxQueue))
  {
    RunKeeps(m, o, ops);
    var t := Run(m, o, ops).value;
    assert StreamOk(m, t.streams[i]);
    hide Run, OutputOk;
    WriteExitsIff(m, t.header, t.streams[i], p);
  }

  lemma WriteExitsIff(m: Muxer, header: bool, s: Stream, p: Packet)
    requires StreamOk(m, s)
    ensures Write(m, header, s, p).None? <==>
            !Complete(s) && if header then m.exitOnError && ComesTooLow(m, s, p) else |s.queue| == Max(8, s.maxQueue)
  {
    RepairedLeaves(m, s, s.lastMuxDts, InTimeBase(m, s, p));
    hide InTimeBase, Late, PtsRepaired, Repaired, TooLow, DtsFor, Logged, LeavesFor;
  }

  /** Right after a packet without dts, a packet leaves with its pts repaired and nothing else. */
  lemma AfterNoDts(m: Muxer, o: Output, ops: seq<Op>, i: nat, k: nat)
    requires o.Valid() && Start(o) && Run(m, o, ops).Some? && i < |o.streams|
    requires k < |Run(m, o, ops).value.streams[i].muxed| && LastDts(Run(m, o, ops).value.streams[i], k) == NO_PTS
    ensures var s := Run(m, o, ops).value.streams[i];
            |s.scaled| == |s.muxed| && s.muxed[k] == PtsRepaired(m, NO_PTS, s.scaled[k])
  {
    MuxedAreRepaired(m, o, ops, i, k);
  }

  /**
   * Packet k follows packet e, the last one before it with a dts. Its dts has risen
   * exactly if nothing came between them, or if its own dts, guessed or not, already had:
   * a packet without dts makes the muxing stage forget.
   */
  lemma DtsRisesIff(m: Muxer, o: Output, ops: seq<Op>, i: nat, e: nat, k: nat)
    requires o.Valid() && Start(o) && Run(m, o, ops).Some? && i < |o.streams|
    requires var s := Run(m, o, ops).value.streams[i];
             && s.Rises(m) && e < k < |s.muxed| && s.muxed[e].dts != NO_PTS && s.muxed[k].dts != NO_PTS
             && forall n :: e < n < k ==> s.muxed[n].dts == NO_PTS
    ensures var s := Run(m, o, ops).value.streams[i];
            && |s.scaled| == |s.muxed|
            && (s.muxed[k].dts >= s.muxed[e].dts + m.Gap() <==>
                  e == k - 1 || PtsRepaired(m, NO_PTS, s.scaled[k]).dts >= s.muxed[e].dts + m.Gap())
  {
    var s := Run(m, o, ops).value.streams[i];
    hide Run, Start, PtsRepaired;
    MuxedAreRepaired(m, o, ops, i, k);
    if e == k - 1 {
      RepairedRises(m, LastDts(s, k), s.scaled[k]);
    } else {
      AfterNoDts(m, o, ops, i, k);
    }
  }

  /** A packet without a dts lets the next one fall back. */
  lemma NoDtsForgets()
    ensures var m, tb := Muxer(false, false, false, false, false), Rational(1, 1);
            var s := Stream(Audio, false, false, None, 100, 128, true, tb, tb, 0, [], 8, NO_PTS, [], [], [], []);
            var t1 := Write(m, true, s, Packet(1, 10, 10, 0)).value;
            var t2 := Write(m, true, t1, Packet(2, NO_PTS, NO_PTS, 0)).value;
            var t3 := Write(m, true, t2, Packet(3, 5, 5, 0)).value;
            t3.muxed == [Packet(1, 10, 10, 0), Packet(2, NO_PTS, NO_PTS, 0), Packet(3, 5, 5, 0)]
  {
    var tb := Rational(1, 1);
    assert Rescale(10, tb, tb) == 10 && Rescale(5, tb, tb) == 5;
  }
}

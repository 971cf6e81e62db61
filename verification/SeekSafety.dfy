/**
 * ffplay's protection against showing old frames after a seek: packet queues
 * with serial numbers, between the demuxing thread, a decoder thread with its
 * codec and filter graph, and the consumer (ffplay.c, packet_queue_*,
 * decoder_decode_frame, video_thread, the serial checks of video_refresh and
 * audio_decode_frame, the seek step of read_thread). The frame queue appears as
 * the queue that FrameRing shows it to be.
 *
 * A step is one critical section of the packet queue or one unlocked access to
 * the queue's serial. `epoch` counts the successful seeks in the file; packets
 * carry the epoch they were read in, frames the packets they may depend on.
 */
module SeekSafety {
  import opened Wrappers

  datatype Packet = Packet(id: int, flush: bool, serial: int, epoch: nat)

  datatype Frame = Frame(serial: int, sources: set<Packet>)

  /** The demuxing thread: reading, or inside a seek between repositioning and the flush packet. */
  datatype DemuxerAt = Reading | MustFlush | MustPutFlush

  /** The decoder thread: decoder_decode_frame, then the loop of its caller. */
  datatype DecoderAt =
    | Top                              // d->queue->serial == d->pkt_serial ?
    | Receive                          // avcodec_receive_frame
    | Get                              // the next packet: pending or from the queue
    | Check(pkt: Packet)               // d->queue->serial != d->pkt_serial ?
    | Process(pkt: Packet)             // flush or avcodec_send_packet
    | Filter(sources: set<Packet>)     // a frame for the filter graph
    | Drain                            // av_buffersink_get_frame
    | Push(frame: Frame)               // into the frame queue
    | Stopped

  /** A frame the consumer has used, and the queue's serial when it was checked. */
  datatype Shown = Shown(frame: Frame, serial: int)

  datatype State = State(
    demuxer: DemuxerAt, epoch: nat,
    queue: seq<Packet>, serial: int, abort: bool,
    decoder: DecoderAt, pktSerial: int, pending: Option<Packet>, codec: set<Packet>,
    lastSerial: int, graph: set<Packet>,
    frames: seq<Frame>, shown: seq<Shown>,
    codecSerial: int)  // the serial of the flush packet the codec was last flushed for; not in the program

  /** After packet_queue_start and decoder_init. */
  function Init(id: int): (r: State) {
    State(Reading, 0, [Packet(id, true, 1, 0)], 1, false, Top, -1, None, {}, -1, {}, [], [], -1)
  }

  datatype Step =
    | PutPacket(id: int)
    | Seek                   // avformat_seek_file succeeds
    | FlushQueue             // packet_queue_flush
    | PutFlush(id: int)      // packet_queue_put of the flush packet
    | Abort
    | Decoder(outcome: Outcome)
    | Consumer

  /** What the codec or the filter graph answers. */
  datatype Outcome = Gives | Again | Eof | Fails

  /** The demuxing thread. Nothing is put in an aborted queue. */
  function StepDemuxer(s: State, step: Step): (r: Option<State>) {
    match (step, s.demuxer)
    case (PutPacket(id), Reading) =>
      Some(if s.abort then s else s.(queue := s.queue + [Packet(id, false, s.serial, s.epoch)]))
    case (Seek, Reading) => Some(s.(demuxer := MustFlush, epoch := s.epoch + 1))
    case (FlushQueue, MustFlush) => Some(s.(demuxer := MustPutFlush, queue := []))
    case (PutFlush(id), MustPutFlush) =>
      Some(if s.abort then s.(demuxer := Reading)
           else s.(demuxer := Reading, serial := s.serial + 1,
                   queue := s.queue + [Packet(id, true, s.serial + 1, s.epoch)]))
    case (Abort, _) => Some(s.(abort := true))
    case _ => None
  }

  /** The decoder thread in decoder_decode_frame, or None while it waits for a packet. */
  function StepDecode(s: State, outcome: Outcome): (r: Option<State>) {
    match s.decoder
    case Top => Some(s.(decoder := if s.serial == s.pktSerial then Receive else Get))
    case Receive =>
      if s.abort then Some(s.(decoder := Stopped))
      else
        (match outcome
         case Gives => Some(s.(decoder := Filter(s.codec)))
         case Again => Some(s.(decoder := Get))
         case Eof => Some(s.(decoder := Top, codec := {}))
         case Fails => Some(s))
    case Get =>
      if s.pending.Some? then Some(s.(decoder := Check(s.pending.value), pending := None))
      else if s.abort then Some(s.(decoder := Stopped))
      else if s.queue == [] then None
      else Some(s.(decoder := Check(s.queue[0]), queue := s.queue[1..], pktSerial := s.queue[0].serial))
    case Check(pkt) => Some(s.(decoder := if s.serial != s.pktSerial then Get else Process(pkt)))
    case Process(pkt) =>
      if pkt.flush then Some(s.(decoder := Top, codec := {}, codecSerial := s.pktSerial))
      else if outcome.Again? then Some(s.(decoder := Top, pending := Some(pkt)))
      else Some(s.(decoder := Top, codec := s.codec + {pkt}))
    case _ => None
  }

  /** The decoder thread with a decoded frame, in the loop of video_thread or audio_thread. */
  function StepOutput(s: State, outcome: Outcome): (r: Option<State>) {
    match s.decoder
    case Filter(sources) =>
      (match outcome
       case Gives =>
         // the graph is set up anew when the serial has changed
         Some(s.(decoder := Drain, lastSerial := s.pktSerial,
                 graph := (if s.lastSerial != s.pktSerial then {} else s.graph) + sources))
       case Fails => Some(s.(decoder := Stopped))
       case _ => Some(s.(decoder := Top)))  // dropped for being late
    case Drain => Some(s.(decoder := if outcome.Gives? then Push(Frame(s.pktSerial, s.graph)) else Top))
    case Push(frame) =>
      Some(s.(frames := s.frames + [frame], decoder := if s.serial != s.pktSerial then Top else Drain))
    case _ => None
  }

  /** The consumer takes the next frame: it is dropped unless its serial is the queue's. */
  function StepConsumer(s: State): (r: Option<State>) {
    if s.frames == [] then None
    else
      var f := s.frames[0];
      Some(s.(frames := s.frames[1..],
              shown := if f.serial != s.serial then s.shown else s.shown + [Shown(f, s.serial)]))
  }

  predicate Decoding(s: State) {
    !(s.decoder.Filter? || s.decoder.Drain? || s.decoder.Push?)
  }

  function Apply(s: State, step: Step): (r: Option<State>) {
    match step
    case Decoder(outcome) => if Decoding(s) then StepDecode(s, outcome) else StepOutput(s, outcome)
    case Consumer => StepConsumer(s)
    case _ => StepDemuxer(s, step)
  }

  function Run(s: State, steps: seq<Step>): (r: Option<State>)
    decreases steps
  {
    if steps == [] then Some(s)
    else match Apply(s, steps[0])
         case None => None
         case Some(s') => Run(s', steps[1..])
  }

  // ---- the invariant -------------------------------------------------------------

  /** A packet was read in the epoch that its serial stands for. */
  predicate Genuine(p: Packet) {
    p.epoch + 1 == p.serial
  }

  /** All from one serial, and from the epoch that this serial stands for. */
  ghost predicate AllOf(ps: set<Packet>, serial: int) {
    forall p :: p in ps ==> p.serial == serial && Genuine(p)
  }

  ghost predicate FrameOk(f: Frame) {
    AllOf(f.sources, f.serial)
  }

  /** The serial of the packet before the i-th of the queue: of the one last taken, for the first. */
  function Before(s: State, i: nat): (r: int)
    requires i <= |s.queue|
  {
    if i == 0 then s.pktSerial else s.queue[i - 1].serial
  }

  /** A packet that follows one of serial prev: only a flush packet raises the serial. */
  predicate Follows(p: Packet, prev: int) {
    Genuine(p) && (if p.flush then prev < p.serial else p.serial == prev)
  }

  ghost predicate QueueOk(s: State) {
    && (forall i {:trigger s.queue[i]} :: 0 <= i < |s.queue| ==> Follows(s.queue[i], Before(s, i)))
    && Before(s, |s.queue|) <= s.serial
    && (s.demuxer.MustPutFlush? ==> s.queue == [])
    && (!s.abort && !s.demuxer.MustPutFlush? ==> Before(s, |s.queue|) == s.serial)
    && (!s.abort ==> s.serial == if s.demuxer.Reading? then s.epoch + 1 else s.epoch)
  }

  function Held(s: State): (r: Option<Packet>) {
    if s.decoder.Check? || s.decoder.Process? then Some(s.decoder.pkt) else None
  }

  /** Of the codec: flushed for the serial of the packet last taken, unless that is out of date. */
  ghost predicate DecoderOk(s: State) {
    && s.pktSerial <= s.serial
    && AllOf(s.codec, s.codecSerial)
    && (s.codecSerial == s.pktSerial || s.pktSerial < s.serial || (Held(s).Some? && Held(s).value.flush))
    && (Held(s).Some? ==> Held(s).value.serial == s.pktSerial && Genuine(Held(s).value) && s.pending.None?)
    && (s.decoder.Process? && !s.decoder.pkt.flush ==> s.codecSerial == s.pktSerial)
    && (s.decoder.Receive? ==> s.codecSerial == s.pktSerial)
    && (s.pending.Some? ==> s.pending.value.serial == s.pktSerial && Genuine(s.pending.value) && !s.pending.value.flush)
  }

  /** Of the filter graph and the frame under way. */
  ghost predicate OutputOk(s: State) {
    && AllOf(s.graph, s.lastSerial)
    && (s.decoder.Filter? ==> AllOf(s.decoder.sources, s.pktSerial))
    && (s.decoder.Drain? || s.decoder.Push? ==> s.lastSerial == s.pktSerial)
    && (s.decoder.Push? ==> FrameOk(s.decoder.frame))
  }

  ghost predicate FramesOk(s: State) {
    && (forall i :: 0 <= i < |s.frames| ==> FrameOk(s.frames[i]))
    && (forall i :: 0 <= i < |s.shown| ==> FrameOk(s.shown[i].frame) && s.shown[i].frame.serial == s.shown[i].serial)
  }

  ghost predicate Inv(s: State) {
    QueueOk(s) && DecoderOk(s) && OutputOk(s) && FramesOk(s)
  }

  lemma InitInv(id: int)
    ensures Inv(Init(id))
  {
    var s := Init(id);
    assert Before(s, 1) == s.queue[0].serial;
  }

  lemma PutKeeps(s: State, p: Packet)
    requires QueueOk(s) && Follows(p, Before(s, |s.queue|)) && !s.abort
    requires s.epoch + 1 == p.serial
    ensures QueueOk(s.(queue := s.queue + [p], serial := p.serial, demuxer := Reading))
  {
    var t := s.(queue := s.queue + [p], serial := p.serial, demuxer := Reading);
    forall i | 0 <= i < |t.queue| ensures Follows(t.queue[i], Before(t, i)) {
      assert i < |s.queue| ==> t.queue[i] == s.queue[i] && Before(t, i) == Before(s, i);
      assert i == |s.queue| ==> Before(t, i) == Before(s, i);
    }
  }

  lemma DemuxerKeepsQueue(s: State, step: Step)
    requires QueueOk(s) && StepDemuxer(s, step).Some?
    requires s.pktSerial <= s.serial
    ensures QueueOk(StepDemuxer(s, step).value)
  {
    var t := StepDemuxer(s, step).value;
    if t.queue == s.queue {
      assert forall i :: 0 <= i <= |s.queue| ==> Before(t, i) == Before(s, i);
    } else if step.PutPacket? {
      PutKeeps(s, Packet(step.id, false, s.serial, s.epoch));
    } else if step.PutFlush? {
      PutKeeps(s, Packet(step.id, true, s.serial + 1, s.epoch));
    }
  }

  lemma DemuxerKeeps(s: State, step: Step)
    requires Inv(s) && StepDemuxer(s, step).Some?
    ensures Inv(StepDemuxer(s, step).value)
  {
    DemuxerKeepsQueue(s, step);
    hide QueueOk, AllOf, Genuine;
  }

  lemma TakeKeeps(s: State)
    requires QueueOk(s) && s.queue != []
    ensures QueueOk(s.(queue := s.queue[1..], pktSerial := s.queue[0].serial))
  {
    var t := s.(queue := s.queue[1..], pktSerial := s.queue[0].serial);
    assert forall i :: 0 <= i < |s.queue| ==> Before(t, i) == Before(s, i + 1);
    assert forall i :: 0 <= i < |t.queue| ==> t.queue[i] == s.queue[i + 1];
  }

  /** QueueOk is about the queue and the demuxing thread, and the serial last taken. */
  lemma QueueOkSame(s: State, t: State)
    requires QueueOk(s)
    requires t.queue == s.queue && t.pktSerial == s.pktSerial && t.serial == s.serial
    requires t.demuxer == s.demuxer && t.abort == s.abort && t.epoch == s.epoch
    ensures QueueOk(t)
  {
    assert forall i :: 0 <= i <= |s.queue| ==> Before(t, i) == Before(s, i);
  }

  lemma DecodeKeepsQueue(s: State, outcome: Outcome)
    requires QueueOk(s) && StepDecode(s, outcome).Some?
    ensures QueueOk(StepDecode(s, outcome).value)
  {
    hide QueueOk;
    var t := StepDecode(s, outcome).value;
    if s.decoder.Get? && s.pending.None? && !s.abort {
      TakeKeeps(s);
      QueueOkSame(s.(queue := s.queue[1..], pktSerial := s.queue[0].serial), t);
    } else {
      QueueOkSame(s, t);
    }
  }

  lemma HeadFollows(s: State)
    requires QueueOk(s) && s.queue != []
    ensures Follows(s.queue[0], s.pktSerial) && s.queue[0].serial <= s.serial
  {
    TakeKeeps(s);
    SerialsRise(s.(queue := s.queue[1..], pktSerial := s.queue[0].serial));
  }

  lemma {:induction false} SerialsRise(s: State)
    requires QueueOk(s)
    ensures s.pktSerial <= s.serial
    decreases |s.queue|
  {
    if s.queue != [] {
      TakeKeeps(s);
      SerialsRise(s.(queue := s.queue[1..], pktSerial := s.queue[0].serial));
      assert Follows(s.queue[0], Before(s, 0));
    }
  }

  lemma DecodeKeepsDecoder(s: State, outcome: Outcome)
    requires QueueOk(s) && DecoderOk(s) && StepDecode(s, outcome).Some?
    ensures DecoderOk(StepDecode(s, outcome).value)
  {
    if s.decoder.Get? && s.pending.None? && !s.abort {
      HeadFollows(s);
    }
    hide QueueOk;
  }

  lemma DecodeKeepsOutput(s: State, outcome: Outcome)
    requires DecoderOk(s) && OutputOk(s) && StepDecode(s, outcome).Some?
    ensures OutputOk(StepDecode(s, outcome).value)
  {
    hide AllOf;
  }

  lemma DecodeKeeps(s: State, outcome: Outcome)
    requires Inv(s) && StepDecode(s, outcome).Some?
    ensures Inv(StepDecode(s, outcome).value)
  {
    DecodeKeepsQueue(s, outcome);
    DecodeKeepsDecoder(s, outcome);
    DecodeKeepsOutput(s, outcome);
    hide QueueOk, DecoderOk, OutputOk, FrameOk;
  }

  lemma OutputKeepsOutput(s: State, outcome: Outcome)
    requires OutputOk(s) && StepOutput(s, outcome).Some?
    ensures OutputOk(StepOutput(s, outcome).value)
  {
  }

  lemma OutputKeeps(s: State, outcome: Outcome)
    requires Inv(s) && StepOutput(s, outcome).Some?
    ensures Inv(StepOutput(s, outcome).value)
  {
    OutputKeepsOutput(s, outcome);
    var t := StepOutput(s, outcome).value;
    hide QueueOk, FrameOk, AllOf;
    QueueOkSame(s, t);
    assert FramesOk(t);
  }

  lemma ConsumerKeeps(s: State)
    requires Inv(s) && StepConsumer(s).Some?
    ensures Inv(StepConsumer(s).value)
  {
    var t := StepConsumer(s).value;
    hide QueueOk, FrameOk, AllOf;
    QueueOkSame(s, t);
    assert FrameOk(s.frames[0]);
  }

  lemma StepKeepsInv(s: State, step: Step)
    requires Inv(s) && Apply(s, step).Some?
    ensures Inv(Apply(s, step).value)
  {
    hide Inv, StepDecode, StepOutput, StepConsumer, StepDemuxer;
    match step
    case Decoder(outcome) =>
      if Decoding(s) {
        DecodeKeeps(s, outcome);
      } else {
        OutputKeeps(s, outcome);
      }
    case Consumer => ConsumerKeeps(s);
    case _ => DemuxerKeeps(s, step);
  }

  lemma {:induction false} RunKeepsInv(s: State, steps: seq<Step>)
    requires Inv(s) && Run(s, steps).Some?
    ensures Inv(Run(s, steps).value)
    decreases steps
  {
    hide Inv, Apply;
    if steps != [] {
      StepKeepsInv(s, steps[0]);
      RunKeepsInv(Apply(s, steps[0]).value, steps[1..]);
    }
  }

  // ---- seek safety ---------------------------------------------------------------

  /**
   * However the threads interleave: a frame that passed the consumer's check
   * carried the queue's serial of that moment, and every packet it depends on was
   * queued under that serial and read after the seek that the serial stands for,
   * before the next one.
   */
  lemma SeekSafety(id: int, steps: seq<Step>, i: nat)
    requires Run(Init(id), steps).Some?
    requires i < |Run(Init(id), steps).value.shown|
    ensures var x := Run(Init(id), steps).value.shown[i];
            && x.frame.serial == x.serial
            && forall p :: p in x.frame.sources ==> p.serial == x.serial && p.epoch + 1 == x.serial
  {
    InitInv(id);
    RunKeepsInv(Init(id), steps);
  }
}

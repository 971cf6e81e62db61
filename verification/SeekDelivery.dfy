/**
 * What ffplay's threads do deliver (ffplay.c): an observer of a run notes the packets that
 * are queued, taken, checked and sent to the codec, and the frames that are pushed and
 * taken; over every run nothing is lost but what the seeks make out of date, and a player
 * that has not been stopped can always show a new frame.
 */
module SeekDelivery {
  import opened SeekSafety
  import opened Wrappers

  // ---- the observer: what a step does, by the state before it -----------------------------

  /** A packet that is put in the queue. */
  function Puts(s: State, step: Step): (r: seq<Packet>) {
    match (step, s.demuxer)
    case (PutPacket(id), Reading) => if s.abort then [] else [Packet(id, false, s.serial, s.epoch)]
    case (PutFlush(id), MustPutFlush) => if s.abort then [] else [Packet(id, true, s.serial + 1, s.epoch)]
    case _ => []
  }

  /** The decoder thread takes the first packet of the queue. */
  function Gets(s: State, step: Step): (r: seq<Packet>) {
    if step.Decoder? && s.decoder.Get? && s.pending.None? && !s.abort && s.queue != [] then [s.queue[0]] else []
  }

  /** What becomes of a packet, and the queue's serial when it was checked last. */
  datatype Fate = OutOfDate | Flushes | Sent

  datatype Resolved = Resolved(pkt: Packet, fate: Fate, serial: int)

  /** The decoder thread is done with a packet; `checked` is the queue's serial at its last check. */
  function Resolves(s: State, step: Step, checked: int): (r: seq<Resolved>) {
    match (step, s.decoder)
    case (Decoder(_), Check(pkt)) => if s.serial != s.pktSerial then [Resolved(pkt, OutOfDate, s.serial)] else []
    case (Decoder(outcome), Process(pkt)) =>
      if pkt.flush then [Resolved(pkt, Flushes, checked)]
      else if outcome.Again? then []
      else [Resolved(pkt, Sent, checked)]
    case _ => []
  }

  function Checked(s: State, step: Step, checked: int): (r: int) {
    if step.Decoder? && s.decoder.Check? then s.serial else checked
  }

  /** A frame that is put in the frame queue. */
  function Pushes(s: State, step: Step): (r: seq<Frame>) {
    if step.Decoder? && s.decoder.Push? then [s.decoder.frame] else []
  }

  /** The frame that the consumer takes, and the queue's serial at that moment. */
  function Takes(s: State, step: Step): (r: seq<Shown>) {
    if step.Consumer? && s.frames != [] then [Shown(s.frames[0], s.serial)] else []
  }

  // ---- whole runs -----------------------------------------------------------------------------

  function AllPut(s: State, steps: seq<Step>): (r: seq<Packet>)
    requires Run(s, steps).Some?
    decreases steps
  {
    if steps == [] then [] else Puts(s, steps[0]) + AllPut(Apply(s, steps[0]).value, steps[1..])
  }

  function AllGot(s: State, steps: seq<Step>): (r: seq<Packet>)
    requires Run(s, steps).Some?
    decreases steps
  {
    if steps == [] then [] else Gets(s, steps[0]) + AllGot(Apply(s, steps[0]).value, steps[1..])
  }

  function AllResolved(s: State, steps: seq<Step>, checked: int): (r: seq<Resolved>)
    requires Run(s, steps).Some?
    decreases steps
  {
    if steps == [] then []
    else
      Resolves(s, steps[0], checked) +
      AllResolved(Apply(s, steps[0]).value, steps[1..], Checked(s, steps[0], checked))
  }

  function AllPushed(s: State, steps: seq<Step>): (r: seq<Frame>)
    requires Run(s, steps).Some?
    decreases steps
  {
    if steps == [] then [] else Pushes(s, steps[0]) + AllPushed(Apply(s, steps[0]).value, steps[1..])
  }

  function AllTaken(s: State, steps: seq<Step>): (r: seq<Shown>)
    requires Run(s, steps).Some?
    decreases steps
  {
    if steps == [] then [] else Takes(s, steps[0]) + AllTaken(Apply(s, steps[0]).value, steps[1..])
  }

  // ---- frames ---------------------------------------------------------------------------------

  /** The frames that carried the queue's serial when they were taken. */
  function Current(taken: seq<Shown>): (r: seq<Shown>) {
    if taken == [] then []
    else CurrentOnly(taken[0]) + Current(taken[1..])
  }

  function CurrentOnly(x: Shown): (r: seq<Shown>) {
    if x.frame.serial == x.serial then [x] else []
  }

  function FramesOf(taken: seq<Shown>): (r: seq<Frame>)
    ensures |r| == |taken| && forall k :: 0 <= k < |taken| ==> r[k] == taken[k].frame
  {
    seq(|taken|, k requires 0 <= k < |taken| => taken[k].frame)
  }

  function ConsumerSteps(steps: seq<Step>): (n: nat) {
    if steps == [] then 0 else (if steps[0].Consumer? then 1 else 0) + ConsumerSteps(steps[1..])
  }

  /** One step: what is shown, pushed and taken. */
  lemma FrameStep(s: State, step: Step)
    requires Apply(s, step).Some?
    ensures var t := Apply(s, step).value;
            && t.shown == s.shown + Current(Takes(s, step))
            && s.frames + Pushes(s, step) == FramesOf(Takes(s, step)) + t.frames
            && |Takes(s, step)| == if step.Consumer? then 1 else 0
  {
    var t := Apply(s, step).value;
    NoneBeside(s.shown);
    NoneBeside(s.frames);
    NoneBeside(t.frames);
    NoneTaken();
    if step.Consumer? {
      OneTaken(Shown(s.frames[0], s.serial));
      FirstBack(s.frames);
    }
    hide Current, FramesOf;
  }

  lemma NoneTaken()
    ensures Current([]) == [] && FramesOf([]) == []
  {
  }

  lemma OneTaken(x: Shown)
    ensures Current([x]) == CurrentOnly(x) && FramesOf([x]) == [x.frame]
  {
    assert [x][1..] == [];
  }

  lemma FirstBack<T>(a: seq<T>)
    requires a != []
    ensures [a[0]] + a[1..] == a
  {
  }

  lemma {:induction false} CurrentAppend(a: seq<Shown>, b: seq<Shown>)
    ensures Current(a + b) == Current(a) + Current(b)
    decreases |a|
  {
    if a == [] {
      assert a + b == b;
    } else {
      assert (a + b)[1..] == a[1..] + b && (a + b)[0] == a[0];
      assert Current(a + b) == CurrentOnly(a[0]) + Current(a[1..] + b);
      assert Current(a) == CurrentOnly(a[0]) + Current(a[1..]);
      hide Current, CurrentOnly;
      CurrentAppend(a[1..], b);
      Regroup(CurrentOnly(a[0]), Current(a[1..]), Current(b));
    }
  }

  lemma FramesAppend(a: seq<Shown>, b: seq<Shown>)
    ensures FramesOf(a + b) == FramesOf(a) + FramesOf(b)
  {
  }

  lemma Regroup<T>(a: seq<T>, b: seq<T>, c: seq<T>)
    ensures (a + b) + c == a + (b + c)
  {
  }

  /**
   * Over every run: each consumer step takes one frame. What is shown is exactly the taken
   * frames that carried the queue's serial of that moment, in order; and the frames taken
   * and those still queued are all that were pushed, in order.
   */
  lemma {:induction false} ShownAreTaken(s: State, steps: seq<Step>)
    requires Run(s, steps).Some?
    ensures var t := Run(s, steps).value;
            && t.shown == s.shown + Current(AllTaken(s, steps))
            && s.frames + AllPushed(s, steps) == FramesOf(AllTaken(s, steps)) + t.frames
            && |AllTaken(s, steps)| == ConsumerSteps(steps)
    decreases steps
  {
    if steps != [] {
      var step, rest := steps[0], steps[1..];
      var u := Apply(s, step).value;
      var t := Run(s, steps).value;
      FrameStep(s, step);
      ShownAreTaken(u, rest);
      var taken, more := Takes(s, step), AllTaken(u, rest);
      hide Apply, Takes, Pushes, Current, FramesOf;
      CurrentAppend(taken, more);
      FramesAppend(taken, more);
      Regroup(s.shown, Current(taken), Current(more));
      Regroup(s.frames, Pushes(s, step), AllPushed(u, rest));
      Regroup(FramesOf(taken), u.frames, AllPushed(u, rest));
      Regroup(FramesOf(taken), FramesOf(more), t.frames);
    } else {
      assert Current([]) == [] && FramesOf([]) == [];
      assert s.shown + [] == s.shown && s.frames + [] == [] + s.frames;
    }
  }

  // ---- packets in the queue ---------------------------------------------------------------------

  /** a is b with some elements left out. */
  ghost predicate Subsequence<T(!new)>(a: seq<T>, b: seq<T>) {
    if b == [] then a == []
    else (a != [] && a[0] == b[0] && Subsequence(a[1..], b[1..])) || Subsequence(a, b[1..])
  }

  lemma SubsequenceCons<T(!new)>(x: T, a: seq<T>, b: seq<T>)
    requires Subsequence(a, b)
    ensures Subsequence([x] + a, [x] + b)
  {
    assert ([x] + a)[1..] == a && ([x] + b)[1..] == b;
  }

  lemma {:induction false} SubsequenceLater<T(!new)>(a: seq<T>, c: seq<T>, b: seq<T>)
    requires Subsequence(a, b)
    ensures Subsequence(a, c + b)
    decreases |c|
  {
    if c == [] {
      assert c + b == b;
    } else {
      SubsequenceLater(a, c[1..], b);
      assert (c + b)[1..] == c[1..] + b;
    }
  }

  lemma {:induction false} SubsequenceSame<T(!new)>(a: seq<T>)
    ensures Subsequence(a, a)
    decreases |a|
  {
    if a != [] {
      SubsequenceSame(a[1..]);
    }
  }

  /** One step: packets are appended, the first one is taken, or the queue is emptied. */
  lemma QueueStep(s: State, step: Step)
    requires Apply(s, step).Some?
    ensures var t := Apply(s, step).value;
            if step.FlushQueue? then t.queue == [] && Puts(s, step) == [] == Gets(s, step)
            else s.queue + Puts(s, step) == Gets(s, step) + t.queue && (Puts(s, step) == [] || Gets(s, step) == [])
  {
    hide *;
    QueueChange(s, step);
    var t := Apply(s, step).value;
    NoneBeside(s.queue);
    NoneBeside(t.queue);
    if |Gets(s, step)| > 0 {
      FirstBack(s.queue);
    }
  }

  lemma QueueChange(s: State, step: Step)
    requires Apply(s, step).Some?
    ensures var t := Apply(s, step).value;
            if step.FlushQueue? then t.queue == [] && Puts(s, step) == [] == Gets(s, step)
            else if |Gets(s, step)| > 0 then
              s.queue != [] && Puts(s, step) == [] && t.queue == s.queue[1..] && Gets(s, step) == [s.queue[0]]
            else Gets(s, step) == [] && t.queue == s.queue + Puts(s, step)
  {
    NoneBeside(s.queue);
    hide Apply, Puts, Gets;
    if step.Decoder? || step.Consumer? {
      DecoderQueue(s, step);
    } else {
      DemuxerQueue(s, step);
    }
  }

  lemma DecoderQueue(s: State, step: Step)
    requires Apply(s, step).Some? && (step.Decoder? || step.Consumer?)
    ensures var t := Apply(s, step).value;
            && Puts(s, step) == []
            && if |Gets(s, step)| > 0 then s.queue != [] && t.queue == s.queue[1..] && Gets(s, step) == [s.queue[0]]
               else Gets(s, step) == [] && t.queue == s.queue
  {
  }

  lemma DemuxerQueue(s: State, step: Step)
    requires Apply(s, step).Some? && !step.Decoder? && !step.Consumer?
    ensures var t := Apply(s, step).value;
            && Gets(s, step) == []
            && if step.FlushQueue? then t.queue == [] && Puts(s, step) == []
               else if Puts(s, step) == [] then t.queue == s.queue
               else t.queue == s.queue + Puts(s, step)
  {
  }

  lemma NoneBeside<T>(a: seq<T>)
    ensures a + [] == a == [] + a
  {
  }

  /**
   * Over every run: packets are taken in the order in which they were put, each at most
   * once; those that have not are in the queue, and without packet_queue_flush that is all.
   */
  lemma {:induction false} TakenInOrder(s: State, steps: seq<Step>)
    requires Run(s, steps).Some?
    ensures var all, left := s.queue + AllPut(s, steps), AllGot(s, steps) + Run(s, steps).value.queue;
            Subsequence(left, all) && ((forall k :: 0 <= k < |steps| ==> !steps[k].FlushQueue?) ==> left == all)
    decreases steps
  {
    if steps == [] {
      NoneBeside(s.queue);
      SubsequenceSame(s.queue);
    } else {
      var step, rest := steps[0], steps[1..];
      var u := Apply(s, step).value;
      QueueStep(s, step);
      TakenInOrder(u, rest);
      assert forall k :: 0 <= k < |rest| ==> rest[k] == steps[k + 1];
      hide Apply, Puts, Gets, Subsequence;
      TakenNext(s.queue, Puts(s, step), AllPut(u, rest), Gets(s, step), AllGot(u, rest), u.queue,
                Run(s, steps).value.queue, step.FlushQueue?);
    }
  }

  lemma TakenNext(queue: seq<Packet>, put: seq<Packet>, allPut: seq<Packet>, got: seq<Packet>, allGot: seq<Packet>,
                  next: seq<Packet>, last: seq<Packet>, flush: bool)
    requires Subsequence(allGot + last, next + allPut) && |got| <= 1
    requires if flush then next == [] && put == [] && got == [] else queue + put == got + next
    ensures Subsequence((got + allGot) + last, queue + (put + allPut))
    ensures !flush && allGot + last == next + allPut ==> (got + allGot) + last == queue + (put + allPut)
  {
    hide *;
    Regroup(got, allGot, last);
    if flush {
      NoneBeside(allPut);
      NoneBeside(allGot + last);
      SubsequenceLater(allGot + last, queue, allPut);
    } else {
      Regroup(queue, put, allPut);
      Regroup(got, next, allPut);
      SubsequenceAfter(got, allGot + last, next + allPut);
    }
  }

  lemma SubsequenceAfter(got: seq<Packet>, a: seq<Packet>, b: seq<Packet>)
    requires Subsequence(a, b) && |got| <= 1
    ensures Subsequence(got + a, got + b)
  {
    hide Subsequence;
    if |got| == 0 {
      assert got == [];
      NoneBeside(a);
      NoneBeside(b);
    } else {
      assert got == [got[0]];
      SubsequenceCons(got[0], a, b);
    }
  }

  // ---- from the queue to the codec ----------------------------------------------------------------

  /** The packet that the decoder thread holds or keeps for later. */
  function InHand(s: State): (r: seq<Packet>) {
    if s.pending.Some? then [s.pending.value]
    else if s.decoder.Check? || s.decoder.Process? then [s.decoder.pkt]
    else []
  }

  function PacketsOf(rs: seq<Resolved>): (r: seq<Packet>)
    ensures |r| == |rs| && forall k :: 0 <= k < |rs| ==> r[k] == rs[k].pkt
  {
    seq(|rs|, k requires 0 <= k < |rs| => rs[k].pkt)
  }

  /** What becomes of a packet depends on whether its serial was the queue's when it was checked last. */
  predicate Fair(r: Resolved) {
    r.fate == if r.pkt.serial != r.serial then OutOfDate else if r.pkt.flush then Flushes else Sent
  }

  /** Between check and processing a packet is known to be current. */
  predicate KnownCurrent(s: State, checked: int) {
    s.decoder.Process? ==> checked == s.pktSerial
  }

  /** One step: a packet is taken in hand, or done with. */
  lemma HandStep(s: State, step: Step, checked: int)
    requires DecoderOk(s) && Apply(s, step).Some? && KnownCurrent(s, checked)
    ensures var t, resolved := Apply(s, step).value, Resolves(s, step, checked);
            && InHand(s) + Gets(s, step) == PacketsOf(resolved) + InHand(t)
            && KnownCurrent(t, Checked(s, step, checked))
            && forall r :: r in resolved ==> Fair(r)
  {
    hide *;
    HandChange(s, step, checked);
    HandFair(s, step, checked);
    OneResolved(Resolves(s, step, checked));
    NoneBeside(InHand(s));
    NoneBeside(InHand(Apply(s, step).value));
    NoneBeside(Gets(s, step));
  }

  /** A packet is taken in hand by an empty one, done with, or nothing changes. */
  lemma HandChange(s: State, step: Step, checked: int)
    requires DecoderOk(s) && Apply(s, step).Some?
    ensures var t, resolved := Apply(s, step).value, Resolves(s, step, checked);
            && |resolved| <= 1
            && if |resolved| == 1 then Gets(s, step) == [] == InHand(t) && InHand(s) == [resolved[0].pkt]
               else if |Gets(s, step)| > 0 then InHand(s) == [] && InHand(t) == Gets(s, step)
               else Gets(s, step) == [] && InHand(t) == InHand(s)
  {
    hide AllOf, Genuine;
  }

  lemma HandFair(s: State, step: Step, checked: int)
    requires DecoderOk(s) && Apply(s, step).Some? && KnownCurrent(s, checked)
    ensures KnownCurrent(Apply(s, step).value, Checked(s, step, checked))
    ensures forall r :: r in Resolves(s, step, checked) ==> Fair(r)
  {
    hide AllOf, Genuine;
  }

  lemma OneResolved(rs: seq<Resolved>)
    requires |rs| <= 1
    ensures PacketsOf(rs) == (if rs == [] then [] else [rs[0].pkt]) && forall r :: r in rs ==> r == rs[0]
  {
  }

  lemma PacketsAppend(a: seq<Resolved>, b: seq<Resolved>)
    ensures PacketsOf(a + b) == PacketsOf(a) + PacketsOf(b)
  {
  }

  /**
   * Over every run: the packets taken from the queue are those that the decoder thread is
   * done with, in order and each once, and then the one in hand. A packet was sent to the
   * codec exactly if it was no flush packet and its serial was the queue's at its last check.
   */
  lemma {:induction false} TakenAreResolved(s: State, steps: seq<Step>, checked: int)
    requires Inv(s) && Run(s, steps).Some? && KnownCurrent(s, checked)
    ensures var resolved := AllResolved(s, steps, checked);
            && InHand(s) + AllGot(s, steps) == PacketsOf(resolved) + InHand(Run(s, steps).value)
            && forall r :: r in resolved ==> Fair(r)
    decreases steps
  {
    if steps == [] {
      assert InHand(s) + [] == [] + InHand(s) && PacketsOf([]) == [];
    } else {
      var step, rest := steps[0], steps[1..];
      var u, checked' := Apply(s, step).value, Checked(s, step, checked);
      StepKeepsInv(s, step);
      HandStep(s, step, checked);
      hide Inv, Apply, Gets, Resolves, Checked, KnownCurrent, Fair, PacketsOf, InHand;
      TakenAreResolved(u, rest, checked');
      var now, later := Resolves(s, step, checked), AllResolved(u, rest, checked');
      PacketsAppend(now, later);
      Regroup(InHand(s), Gets(s, step), AllGot(u, rest));
      Regroup(PacketsOf(now), InHand(u), AllGot(u, rest));
      Regroup(PacketsOf(now), PacketsOf(later), InHand(Run(s, steps).value));
    }
  }

  /** The same for a player from its start. */
  lemma PlayerDelivers(id: int, steps: seq<Step>)
    requires Run(Init(id), steps).Some?
    ensures var s, t := Init(id), Run(Init(id), steps).value;
            var resolved := AllResolved(s, steps, 0);
            && AllGot(s, steps) == PacketsOf(resolved) + InHand(t)
            && (forall r :: r in resolved ==> Fair(r))
            && Subsequence(AllGot(s, steps) + t.queue, s.queue + AllPut(s, steps))
            && t.shown == Current(AllTaken(s, steps))
            && AllPushed(s, steps) == FramesOf(AllTaken(s, steps)) + t.frames
  {
    var s := Init(id);
    InitInv(id);
    TakenAreResolved(s, steps, 0);
    TakenInOrder(s, steps);
    ShownAreTaken(s, steps);
    assert InHand(s) + AllGot(s, steps) == AllGot(s, steps);
    assert s.shown + Current(AllTaken(s, steps)) == Current(AllTaken(s, steps));
    assert s.frames + AllPushed(s, steps) == AllPushed(s, steps);
    hide *;
  }

  // ---- without a seek ---------------------------------------------------------------------------------

  predicate Undisturbed(steps: seq<Step>) {
    forall k :: 0 <= k < |steps| ==> !steps[k].Seek? && !steps[k].Abort?
  }

  /** Nothing but the first serial. */
  ghost predicate Calm(s: State) {
    && s.demuxer.Reading? && !s.abort && s.serial == 1
    && (forall k :: 0 <= k < |s.queue| ==> s.queue[k].serial == 1)
    && (s.pending.Some? ==> s.pktSerial == 1)
    && (s.decoder.Check? || s.decoder.Process? ==> s.pktSerial == 1)
  }

  lemma CalmStep(s: State, step: Step, checked: int)
    requires Calm(s) && Apply(s, step).Some? && !step.Seek? && !step.Abort?
    ensures Calm(Apply(s, step).value) && !step.FlushQueue?
    ensures forall r :: r in Resolves(s, step, checked) ==> !r.fate.OutOfDate?
  {
  }

  lemma {:induction false} CalmRun(s: State, steps: seq<Step>, checked: int)
    requires Calm(s) && Run(s, steps).Some? && Undisturbed(steps)
    ensures forall r :: r in AllResolved(s, steps, checked) ==> !r.fate.OutOfDate?
    ensures forall k :: 0 <= k < |steps| ==> !steps[k].FlushQueue?
    decreases steps
  {
    if steps != [] {
      var step, rest := steps[0], steps[1..];
      CalmStep(s, step, checked);
      assert forall k :: 0 <= k < |rest| ==> rest[k] == steps[k + 1];
      hide Calm, Apply, Resolves, Checked;
      CalmRun(Apply(s, step).value, rest, Checked(s, step, checked));
      assert forall k :: 0 < k < |steps| ==> steps[k] == rest[k - 1];
    }
  }

  /**
   * Without a seek or an abort no packet is lost between the demuxer and the codec: the
   * packets put are, in order, those sent to the codec, the one in hand and those in the
   * queue. (The first of all is the flush packet of the start.)
   */
  lemma NothingLost(id: int, steps: seq<Step>)
    requires Run(Init(id), steps).Some? && Undisturbed(steps)
    ensures var t, resolved := Run(Init(id), steps).value, AllResolved(Init(id), steps, 0);
            && Init(id).queue + AllPut(Init(id), steps) == PacketsOf(resolved) + InHand(t) + t.queue
            && forall r :: r in resolved ==> r.fate == if r.pkt.flush then Flushes else Sent
  {
    var s := Init(id);
    PlayerDelivers(id, steps);
    CalmRun(s, steps, 0);
    TakenInOrder(s, steps);
    hide Run, AllResolved, AllPut, AllGot, InHand, PacketsOf;
  }

  // ---- a frame can always be shown ----------------------------------------------------------------------

  /** The demuxer reads, and nobody has been stopped. */
  predicate Alive(s: State) {
    !s.abort && !s.decoder.Stopped?
  }

  lemma {:induction false} RunThen(s: State, a: seq<Step>, b: seq<Step>)
    requires Run(s, a).Some? && Run(Run(s, a).value, b).Some?
    ensures Run(s, a + b) == Run(Run(s, a).value, b)
    decreases a
  {
    if a == [] {
      assert a + b == b;
    } else {
      assert (a + b)[0] == a[0] && (a + b)[1..] == a[1..] + b;
      hide Apply;
      RunThen(Apply(s, a[0]).value, a[1..], b);
    }
  }

  lemma RunStep(s: State, step: Step)
    requires Apply(s, step).Some?
    ensures Run(s, [step]) == Apply(s, step)
  {
    hide Apply;
    assert [step][1..] == [];
  }

  /** A seek that is under way is completed. */
  lemma ToReading(s: State) returns (steps: seq<Step>)
    requires Alive(s)
    ensures Run(s, steps).Some? && Undisturbed(steps)
    ensures var t := Run(s, steps).value; Alive(t) && t.demuxer.Reading? && t.shown == s.shown
  {
    match s.demuxer
    case Reading =>
      steps := [];
    case MustPutFlush =>
      steps := [PutFlush(0)];
      RunStep(s, PutFlush(0));
    case MustFlush =>
      steps := [FlushQueue] + [PutFlush(0)];
      var u := Apply(s, FlushQueue).value;
      RunStep(s, FlushQueue);
      RunStep(u, PutFlush(0));
      RunThen(s, [FlushQueue], [PutFlush(0)]);
  }

  /** The decoder thread waits for a packet. */
  predicate Waiting(s: State) {
    s.decoder.Get? && s.pending.None? && s.queue == []
  }

  /** How the decoder thread gets there soonest. */
  function Hurry(s: State): (step: Step) {
    Decoder(if s.decoder.Process? then Gives else Again)
  }

  /** How far it has to go at most. */
  function ToGo(s: State): (n: nat) {
    20 * |s.queue| + (if s.pending.Some? then 20 else 0) +
    match s.decoder
    case Top => 4
    case Receive => 3
    case Get => 0
    case Check(_) => 15
    case Process(_) => 10
    case Filter(_) => 6
    case Drain => 5
    case Push(_) => 6
    case Stopped => 0
  }

  lemma HurryStep(s: State)
    requires Alive(s) && s.demuxer.Reading? && !Waiting(s)
    ensures Apply(s, Hurry(s)).Some?
    ensures var t := Apply(s, Hurry(s)).value;
            Alive(t) && t.demuxer.Reading? && t.shown == s.shown && ToGo(t) < ToGo(s)
  {
  }

  lemma {:induction false} ToWaiting(s: State) returns (steps: seq<Step>)
    requires Alive(s) && s.demuxer.Reading?
    ensures Run(s, steps).Some? && Undisturbed(steps)
    ensures var t := Run(s, steps).value;
            Alive(t) && t.demuxer.Reading? && t.shown == s.shown && Waiting(t)
    decreases ToGo(s)
  {
    if Waiting(s) {
      steps := [];
    } else {
      HurryStep(s);
      var step := Hurry(s);
      assert !step.Seek? && !step.Abort?;
      hide Apply, Waiting, ToGo, Hurry;
      RunStep(s, step);
      var rest := ToWaiting(Apply(s, step).value);
      RunThen(s, [step], rest);
      steps := [step] + rest;
    }
  }

  /** A new packet goes all the way to the frame queue. */
  function Through(id: int): (steps: seq<Step>) {
    [PutPacket(id)] + [Decoder(Gives), Decoder(Gives), Decoder(Gives), Decoder(Gives)] +
    [Decoder(Gives), Decoder(Gives), Decoder(Gives), Decoder(Gives)]
  }

  /** The frame is queued last; it depends on the packet and carries the queue's serial. */
  predicate LastFrom(t: State, p: Packet) {
    t.frames != [] && p in t.frames[|t.frames| - 1].sources && t.frames[|t.frames| - 1].serial == t.serial
  }

  lemma GoesThrough(s: State, id: int)
    requires Alive(s) && s.demuxer.Reading? && Waiting(s)
    ensures Run(s, Through(id)).Some? && Undisturbed(Through(id))
    ensures var t := Run(s, Through(id)).value;
            Alive(t) && t.shown == s.shown && LastFrom(t, Packet(id, false, s.serial, s.epoch))
  {
    var p := Packet(id, false, s.serial, s.epoch);
    var a, b := [Decoder(Gives), Decoder(Gives), Decoder(Gives), Decoder(Gives)], [PutPacket(id)];
    var s1 := Apply(s, PutPacket(id)).value;
    RunStep(s, PutPacket(id));
    assert s1.queue == [p] && s1 == s.(queue := [p]);
    hide Apply, Waiting;
    var s2 := ToReceive(s1, p);
    var s3 := ToFrames(s2, p);
    RunThen(s, b, a);
    RunThen(s, b + a, a);
  }

  /** The packet goes to the codec. */
  lemma ToReceive(s: State, p: Packet) returns (t: State)
    requires Alive(s) && s.decoder.Get? && s.pending.None? && s.queue == [p] && p.serial == s.serial && !p.flush
    ensures Run(s, [Decoder(Gives), Decoder(Gives), Decoder(Gives), Decoder(Gives)]) == Some(t)
    ensures t == s.(queue := [], pktSerial := p.serial, decoder := Receive, codec := s.codec + {p})
  {
    t := FourSteps(s);
  }

  /** What the codec holds becomes a frame, and goes to the frame queue. */
  lemma ToFrames(s: State, p: Packet) returns (t: State)
    requires Alive(s) && s.decoder.Receive? && p in s.codec && s.pktSerial == s.serial
    ensures Run(s, [Decoder(Gives), Decoder(Gives), Decoder(Gives), Decoder(Gives)]) == Some(t)
    ensures Alive(t) && t.shown == s.shown && t.serial == s.serial && LastFrom(t, p)
  {
    t := FourSteps(s);
  }

  /** Four steps of the decoder thread in which it always succeeds. */
  lemma FourSteps(s: State) returns (t: State)
    requires var g := Decoder(Gives);
             && Apply(s, g).Some? && Apply(Apply(s, g).value, g).Some?
             && Apply(Apply(Apply(s, g).value, g).value, g).Some?
             && Apply(Apply(Apply(Apply(s, g).value, g).value, g).value, g).Some?
    ensures var g := Decoder(Gives);
            && Run(s, [g, g, g, g]) == Some(t)
            && Apply(Apply(Apply(Apply(s, g).value, g).value, g).value, g) == Some(t)
  {
    var g := Decoder(Gives);
    var s1 := Apply(s, g).value;
    var s2 := Apply(s1, g).value;
    var s3 := Apply(s2, g).value;
    t := Apply(s3, g).value;
    RunStep(s3, g);
    assert [g, g][1..] == [g] && [g, g, g][1..] == [g, g] && [g, g, g, g][1..] == [g, g, g];
    hide Apply;
    assert Run(s2, [g, g]) == Some(t);
    assert Run(s1, [g, g, g]) == Some(t);
  }

  /** The consumer takes everything, and shows the last. */
  lemma {:induction false} TakesAll(s: State, p: Packet) returns (steps: seq<Step>)
    requires Alive(s) && LastFrom(s, p)
    ensures Run(s, steps).Some? && Undisturbed(steps)
    ensures var t := Run(s, steps).value;
            && s.shown <= t.shown && |t.shown| > |s.shown| && p in t.shown[|t.shown| - 1].frame.sources
    decreases |s.frames|
  {
    var t := Apply(s, Consumer).value;
    RunStep(s, Consumer);
    if |s.frames| == 1 {
      steps := [Consumer];
    } else {
      assert t.frames[|t.frames| - 1] == s.frames[|s.frames| - 1];
      hide Apply;
      var rest := TakesAll(t, p);
      RunThen(s, [Consumer], rest);
      steps := [Consumer] + rest;
    }
  }

  lemma UndisturbedBoth(a: seq<Step>, b: seq<Step>)
    requires Undisturbed(a) && Undisturbed(b)
    ensures Undisturbed(a + b)
  {
  }

  /**
   * From every state in which the threads have not been stopped, a packet that is read next
   * can be shown: some way on, without a further seek, a frame that depends on it is shown.
   */
  lemma NextIsShown(s: State, id: int) returns (steps: seq<Step>, p: Packet)
    requires Alive(s)
    ensures Run(s, steps).Some? && Undisturbed(steps) && p in AllPut(s, steps) && p.id == id && !p.flush
    ensures var t := Run(s, steps).value;
            && s.shown <= t.shown && |t.shown| > |s.shown| && p in t.shown[|t.shown| - 1].frame.sources
  {
    hide Apply, Waiting, LastFrom, Undisturbed, Through, Alive;
    var a := ToReading(s);
    var s1 := Run(s, a).value;
    var b := ToWaiting(s1);
    var s2 := Run(s1, b).value;
    GoesThrough(s2, id);
    var c := Through(id);
    p := Packet(id, false, s2.serial, s2.epoch);
    var s3 := Run(s2, c).value;
    var d := TakesAll(s3, p);
    RunThen(s2, c, d);
    RunThen(s1, b, c + d);
    RunThen(s, a, b + (c + d));
    UndisturbedBoth(c, d);
    UndisturbedBoth(b, c + d);
    UndisturbedBoth(a, b + (c + d));
    steps := a + (b + (c + d));
    PutOnTheWay(s2, id, d);
    AllPutThen(s1, b, c + d);
    AllPutThen(s, a, b + (c + d));
  }

  lemma PutOnTheWay(s: State, id: int, d: seq<Step>)
    requires Alive(s) && s.demuxer.Reading? && Run(s, Through(id) + d).Some?
    ensures Packet(id, false, s.serial, s.epoch) in AllPut(s, Through(id) + d)
  {
    var steps := Through(id) + d;
    assert steps[0] == PutPacket(id);
    assert Puts(s, steps[0]) == [Packet(id, false, s.serial, s.epoch)];
  }

  lemma {:induction false} AllPutThen(s: State, a: seq<Step>, b: seq<Step>)
    requires Run(s, a).Some? && Run(Run(s, a).value, b).Some?
    ensures Run(s, a + b).Some? && AllPut(s, a + b) == AllPut(s, a) + AllPut(Run(s, a).value, b)
    decreases a
  {
    RunThen(s, a, b);
    if a == [] {
      assert a + b == b;
      NoneBeside(AllPut(s, b));
    } else {
      assert (a + b)[0] == a[0] && (a + b)[1..] == a[1..] + b;
      hide Apply, Puts;
      var u := Apply(s, a[0]).value;
      AllPutThen(u, a[1..], b);
      Regroup(Puts(s, a[0]), AllPut(u, a[1..]), AllPut(Run(s, a).value, b));
    }
  }
}

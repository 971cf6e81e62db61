/**
 * The bitstream filters of an output stream (ffmpeg.c, output_packet): one loop
 * with a moving index drives a chain of filters. A filter is any deterministic
 * transducer: what it gives out depends on all the packets it has been given. It
 * takes input only when it has been drained, answers "again" when it needs more
 * input and "end of file" when it has given out what it had delayed.
 */
module BsfChain {
  import opened Wrappers

  datatype Packet = Packet(data: seq<int>)

  /** What a filter gives out for a packet, after the packets before it; and what it has delayed at the end. */
  datatype Filter = Filter(
    feed: (seq<Packet>, Packet) -> seq<Packet>,
    flush: seq<Packet> -> seq<Packet>)

  /** A filter's context: the packets it was given, what it has not yet given out, and whether it was told the end. */
  datatype Context = Context(history: seq<Packet>, ready: seq<Packet>, eof: bool)

  datatype Answer = Got(pkt: Packet) | Again | Eof

  /** av_bsf_send_packet, with None for NULL; or None for its errors. */
  function SendPacket(f: Filter, c: Context, pkt: Option<Packet>): (r: Option<Context>) {
    match pkt
    case None => Some(if c.eof then c else c.(ready := c.ready + f.flush(c.history), eof := true))
    case Some(p) =>
      if c.eof || c.ready != [] then None
      else Some(Context(c.history + [p], f.feed(c.history, p), false))
  }

  /** av_bsf_receive_packet. */
  function ReceivePacket(c: Context): (r: (Answer, Context)) {
    if c.ready != [] then (Got(c.ready[0]), c.(ready := c.ready[1..]))
    else (if c.eof then Eof else Again, c)
  }

  // ---- what the filters make of a whole stream -------------------------------------

  function Fed(f: Filter, inputs: seq<Packet>): (r: seq<Packet>) {
    if inputs == [] then []
    else
      var before := inputs[..|inputs| - 1];
      Fed(f, before) + f.feed(before, inputs[|inputs| - 1])
  }

  function Produced(f: Filter, inputs: seq<Packet>, eof: bool): (r: seq<Packet>) {
    Fed(f, inputs) + if eof then f.flush(inputs) else []
  }

  /** The composed filters: the first i of them, one after the other, each on a whole stream. */
  function Stage(fs: seq<Filter>, inputs: seq<Packet>, eof: bool, i: nat): (r: seq<Packet>)
    requires i <= |fs|
  {
    if i == 0 then inputs else Produced(fs[i - 1], Stage(fs, inputs, eof, i - 1), eof)
  }

  function Composed(fs: seq<Filter>, inputs: seq<Packet>, eof: bool): (r: seq<Packet>) {
    Stage(fs, inputs, eof, |fs|)
  }

  lemma FedStep(f: Filter, inputs: seq<Packet>, p: Packet)
    ensures Fed(f, inputs + [p]) == Fed(f, inputs) + f.feed(inputs, p)
  {
    assert (inputs + [p])[..|inputs|] == inputs;
  }

  lemma {:induction false} FedPrefix(f: Filter, a: seq<Packet>, b: seq<Packet>)
    requires a <= b
    ensures Fed(f, a) <= Fed(f, b)
    decreases |b|
  {
    if |a| < |b| {
      FedPrefix(f, a, b[..|b| - 1]);
    } else {
      assert a == b;
    }
  }

  /** What has come out stays: more input, or the end, only adds to it. */
  lemma {:induction false} ComposedGrows(fs: seq<Filter>, a: seq<Packet>, b: seq<Packet>, eof: bool, i: nat)
    requires a <= b && i <= |fs|
    ensures Stage(fs, a, false, i) <= Stage(fs, b, eof, i)
  {
    if i > 0 {
      ComposedGrows(fs, a, b, eof, i - 1);
      FedPrefix(fs[i - 1], Stage(fs, a, false, i - 1), Stage(fs, b, eof, i - 1));
    }
  }

  /** A chain in two parts is the second part after the first. */
  lemma {:induction false} ComposedInOrder(fs: seq<Filter>, gs: seq<Filter>, inputs: seq<Packet>, eof: bool)
    ensures Composed(fs + gs, inputs, eof) == Composed(gs, Composed(fs, inputs, eof), eof)
  {
    StageOfFirst(fs, gs, inputs, eof, |fs|);
    StageOfSecond(fs, gs, inputs, eof, |gs|);
  }

  lemma {:induction false} StageOfFirst(fs: seq<Filter>, gs: seq<Filter>, inputs: seq<Packet>, eof: bool, i: nat)
    requires i <= |fs|
    ensures Stage(fs + gs, inputs, eof, i) == Stage(fs, inputs, eof, i)
  {
    if i > 0 {
      StageOfFirst(fs, gs, inputs, eof, i - 1);
    }
  }

  lemma {:induction false} StageOfSecond(fs: seq<Filter>, gs: seq<Filter>, inputs: seq<Packet>, eof: bool, i: nat)
    requires i <= |gs|
    ensures Stage(fs + gs, inputs, eof, |fs| + i) == Stage(gs, Composed(fs, inputs, eof), eof, i)
  {
    if i == 0 {
      StageOfFirst(fs, gs, inputs, eof, |fs|);
    } else {
      StageOfSecond(fs, gs, inputs, eof, i - 1);
      assert (fs + gs)[|fs| + i - 1] == gs[i - 1];
    }
  }

  // ---- the chain in the middle of a call ---------------------------------------------

  /** The packets given to the filter at place i, or to the muxer after the last one. */
  function Given(bsf: seq<Context>, written: seq<Packet>, i: nat): (r: seq<Packet>)
    requires i <= |bsf|
  {
    if i < |bsf| then bsf[i].history else written
  }

  /** Nothing is lost between filter i and the next. */
  predicate LinkedAt(fs: seq<Filter>, bsf: seq<Context>, written: seq<Packet>, i: nat)
    requires i < |bsf| == |fs|
  {
    && Produced(fs[i], bsf[i].history, bsf[i].eof) == Given(bsf, written, i + 1) + bsf[i].ready
    && (i + 1 < |bsf| && bsf[i + 1].eof ==> bsf[i].eof && bsf[i].ready == [])
  }

  ghost predicate Linked(fs: seq<Filter>, bsf: seq<Context>, written: seq<Packet>) {
    |bsf| == |fs| && forall i :: 0 <= i < |fs| ==> LinkedAt(fs, bsf, written, i)
  }

  ghost predicate DrainedFrom(bsf: seq<Context>, idx: nat) {
    forall i :: idx <= i < |bsf| ==> bsf[i].ready == []
  }

  /** In the middle of a call: the filters at and after idx are drained, and have been told of no end. */
  ghost predicate Walking(fs: seq<Filter>, bsf: seq<Context>, written: seq<Packet>, idx: nat) {
    && idx <= |fs| && Linked(fs, bsf, written)
    && DrainedFrom(bsf, idx)
    && forall i :: idx <= i < |bsf| ==> !bsf[i].eof
  }

  lemma LinkedSame(fs: seq<Filter>, bsf: seq<Context>, written: seq<Packet>,
                   bsf': seq<Context>, written': seq<Packet>, i: nat)
    requires i < |bsf| == |bsf'| == |fs| && LinkedAt(fs, bsf, written, i)
    requires bsf'[i] == bsf[i] && Given(bsf', written', i + 1) == Given(bsf, written, i + 1)
    requires i + 1 < |fs| ==> bsf'[i + 1].eof == bsf[i + 1].eof
    ensures LinkedAt(fs, bsf', written', i)
  {
  }

  /** A packet moves from filter idx - 1 to the next, which is ready for it. */
  lemma MovePacket(fs: seq<Filter>, bsf: seq<Context>, written: seq<Packet>, idx: nat)
    requires Walking(fs, bsf, written, idx) && 0 < idx < |fs| && ReceivePacket(bsf[idx - 1]).0.Got?
    ensures var (answer, from) := ReceivePacket(bsf[idx - 1]);
            var to := SendPacket(fs[idx], bsf[idx], Some(answer.pkt));
            to.Some? && Walking(fs, bsf[idx - 1 := from][idx := to.value], written, idx + 1)
  {
    var (answer, from) := ReceivePacket(bsf[idx - 1]);
    var to := SendPacket(fs[idx], bsf[idx], Some(answer.pkt)).value;
    var next := bsf[idx - 1 := from][idx := to];
    assert DrainedFrom(next, idx + 1);
    forall i | 0 <= i < |fs| ensures LinkedAt(fs, next, written, i) {
      assert LinkedAt(fs, bsf, written, i);
      if i == idx - 1 {
        MovedFrom(fs, bsf, written, idx);
      } else if i == idx {
        MovedTo(fs, bsf, written, idx);
      } else {
        hide LinkedAt;
        LinkedSame(fs, bsf, written, next, written, i);
      }
    }
  }

  lemma MovedFrom(fs: seq<Filter>, bsf: seq<Context>, written: seq<Packet>, idx: nat)
    requires 0 < idx < |fs| == |bsf| && LinkedAt(fs, bsf, written, idx - 1) && bsf[idx].ready == [] && !bsf[idx].eof
    requires ReceivePacket(bsf[idx - 1]).0.Got?
    ensures var (answer, from) := ReceivePacket(bsf[idx - 1]);
            var to := SendPacket(fs[idx], bsf[idx], Some(answer.pkt)).value;
            LinkedAt(fs, bsf[idx - 1 := from][idx := to], written, idx - 1)
  {
    TakenOne(bsf[idx].history, bsf[idx - 1].ready);
    hide Produced;
  }

  lemma MovedTo(fs: seq<Filter>, bsf: seq<Context>, written: seq<Packet>, idx: nat)
    requires 0 < idx < |fs| == |bsf| && LinkedAt(fs, bsf, written, idx) && bsf[idx].ready == [] && !bsf[idx].eof
    requires ReceivePacket(bsf[idx - 1]).0.Got?
    ensures var (answer, from) := ReceivePacket(bsf[idx - 1]);
            var to := SendPacket(fs[idx], bsf[idx], Some(answer.pkt)).value;
            LinkedAt(fs, bsf[idx - 1 := from][idx := to], written, idx)
  {
    ProducedMore(fs[idx], bsf[idx], ReceivePacket(bsf[idx - 1]).0.pkt);
    hide Produced;
  }

  lemma ProducedMore(f: Filter, c: Context, p: Packet)
    requires !c.eof
    ensures Produced(f, c.history + [p], false) == Produced(f, c.history, false) + f.feed(c.history, p)
  {
    FedStep(f, c.history, p);
    assert Produced(f, c.history, false) == Fed(f, c.history);
  }

  lemma TakenOne(given: seq<Packet>, ready: seq<Packet>)
    requires ready != []
    ensures given + ready == (given + [ready[0]]) + ready[1..]
  {
  }

  /** The same from the last filter, to the muxer. */
  lemma WritePacket(fs: seq<Filter>, bsf: seq<Context>, written: seq<Packet>)
    requires |fs| > 0 && Walking(fs, bsf, written, |fs|) && ReceivePacket(bsf[|fs| - 1]).0.Got?
    ensures var (answer, from) := ReceivePacket(bsf[|fs| - 1]);
            Walking(fs, bsf[|fs| - 1 := from], written + [answer.pkt], |fs|)
  {
    var (answer, from) := ReceivePacket(bsf[|fs| - 1]);
    var next := bsf[|fs| - 1 := from];
    forall i | 0 <= i < |fs| ensures LinkedAt(fs, next, written + [answer.pkt], i) {
      assert LinkedAt(fs, bsf, written, i);
      if i == |fs| - 1 {
        TakenOne(written, bsf[i].ready);
      }
    }
  }

  /** The end moves from filter idx - 1 to the next, which gives out what it has delayed. */
  lemma MoveEof(fs: seq<Filter>, bsf: seq<Context>, written: seq<Packet>, idx: nat)
    requires Walking(fs, bsf, written, idx) && 0 < idx < |fs| && ReceivePacket(bsf[idx - 1]).0.Eof?
    ensures var to := SendPacket(fs[idx], bsf[idx], None);
            to.Some? && to.value.eof && Walking(fs, bsf[idx := to.value], written, idx + 1)
  {
    var to := SendPacket(fs[idx], bsf[idx], None).value;
    var next := bsf[idx := to];
    assert LinkedAt(fs, bsf, written, idx);
    forall i | 0 <= i < |fs| ensures LinkedAt(fs, next, written, i) {
      assert LinkedAt(fs, bsf, written, i);
      if i == idx {
        var given := Given(bsf, written, i + 1);
        assert Fed(fs[i], bsf[i].history) == Produced(fs[i], bsf[i].history, false) == given;
        assert to.ready == fs[i].flush(bsf[i].history);
      }
    }
  }

  // ---- how far the walk has to go ------------------------------------------------------

  /** What a filter has been given is the beginning of what it will have been given in the end. */
  lemma {:induction false} GivenIsPrefix(fs: seq<Filter>, bsf: seq<Context>, written: seq<Packet>, eof: bool, i: nat)
    requires Linked(fs, bsf, written) && |fs| > 0 && i <= |fs|
    requires bsf[0].eof ==> eof
    ensures var final := Stage(fs, bsf[0].history, eof, i);
            && Given(bsf, written, i) <= final
            && (i < |bsf| && bsf[i].eof ==> eof && Given(bsf, written, i) == final)
  {
    if i > 0 {
      var k := i - 1;
      GivenIsPrefix(fs, bsf, written, eof, k);
      assert LinkedAt(fs, bsf, written, k);
      ProducedPrefix(fs[k], bsf[k], Stage(fs, bsf[0].history, eof, k), eof);
      assert Given(bsf, written, i) <= Produced(fs[k], bsf[k].history, bsf[k].eof);
      if i < |bsf| && bsf[i].eof {
        assert bsf[k].eof && bsf[k].ready == [];
      }
    }
  }

  lemma ProducedPrefix(f: Filter, c: Context, all: seq<Packet>, eof: bool)
    requires c.history <= all && (c.eof ==> eof && c.history == all)
    ensures Produced(f, c.history, c.eof) <= Produced(f, all, eof)
  {
    FedPrefix(f, c.history, all);
  }

  /** With every filter drained, and all of them or none told of the end, nothing is under way. */
  lemma {:induction false} AllGiven(fs: seq<Filter>, bsf: seq<Context>, written: seq<Packet>, eof: bool, i: nat)
    requires Linked(fs, bsf, written) && DrainedFrom(bsf, 0) && |fs| > 0 && i <= |fs|
    requires forall k :: 0 <= k < |bsf| ==> bsf[k].eof == eof
    ensures Given(bsf, written, i) == Stage(fs, bsf[0].history, eof, i)
  {
    if i > 0 {
      AllGiven(fs, bsf, written, eof, i - 1);
      assert LinkedAt(fs, bsf, written, i - 1) && bsf[i - 1].ready == [] && bsf[i - 1].eof == eof;
    }
  }

  /** Packets and ends still to be moved past filter i and later. */
  function ToMove(fs: seq<Filter>, bsf: seq<Context>, written: seq<Packet>, eof: bool, i: nat): (r: int)
    requires |bsf| == |fs| && 0 < |fs| && i < |fs|
    decreases |fs| - i
  {
    |Stage(fs, bsf[0].history, eof, i + 1)| - |Given(bsf, written, i + 1)|
    + (if i + 1 == |fs| then 0 else (if bsf[i + 1].eof then 0 else 1) + ToMove(fs, bsf, written, eof, i + 1))
  }

  lemma {:induction false} ToMoveIsNat(fs: seq<Filter>, bsf: seq<Context>, written: seq<Packet>, eof: bool, i: nat)
    requires Linked(fs, bsf, written) && i < |fs|
    requires bsf[0].eof ==> eof
    ensures 0 <= ToMove(fs, bsf, written, eof, i)
    decreases |fs| - i
  {
    assert |Given(bsf, written, i + 1)| <= |Stage(fs, bsf[0].history, eof, i + 1)| by {
      GivenIsPrefix(fs, bsf, written, eof, i + 1);
    }
    if i + 1 < |fs| {
      ToMoveIsNat(fs, bsf, written, eof, i + 1);
    }
    hide Linked, Stage, Given;
  }

  /** One packet or one end moved past filter k, to the next filter or to the muxer. */
  lemma {:induction false} ToMoveFalls(fs: seq<Filter>, bsf: seq<Context>, written: seq<Packet>,
                                       bsf': seq<Context>, written': seq<Packet>, eof: bool, k: nat, i: nat)
    requires |bsf| == |bsf'| == |fs| && i < |fs| && k < |fs| && bsf'[0].history == bsf[0].history
    requires forall j :: 1 <= j <= |fs| && j != k + 1 ==> Given(bsf', written', j) == Given(bsf, written, j)
    requires forall j :: 1 <= j < |fs| && j != k + 1 ==> bsf'[j].eof == bsf[j].eof
    requires (k + 1 < |fs| && bsf'[k + 1].history == bsf[k + 1].history && bsf'[k + 1].eof && !bsf[k + 1].eof)
             || (|Given(bsf', written', k + 1)| == |Given(bsf, written, k + 1)| + 1
                 && (k + 1 < |fs| ==> bsf'[k + 1].eof == bsf[k + 1].eof))
    ensures ToMove(fs, bsf', written', eof, i) == ToMove(fs, bsf, written, eof, i) - if i <= k then 1 else 0
    decreases |fs| - i
  {
    if i + 1 < |fs| {
      ToMoveFalls(fs, bsf, written, bsf', written', eof, k, i + 1);
    }
  }

  /** Between two calls. */
  ghost predicate Resting(fs: seq<Filter>, bsf: seq<Context>, written: seq<Packet>, eof: bool) {
    && Linked(fs, bsf, written) && DrainedFrom(bsf, 0)
    && forall i :: 0 <= i < |bsf| ==> bsf[i].eof == eof
  }

  /** A call gives the first filter the new packet, or tells it of the end. */
  lemma BeginWalk(fs: seq<Filter>, bsf: seq<Context>, written: seq<Packet>, pkt: Option<Packet>)
    requires Resting(fs, bsf, written, false) && |fs| > 0
    ensures var to := SendPacket(fs[0], bsf[0], pkt);
            to.Some? && Walking(fs, bsf[0 := to.value], written, 1)
  {
    var to := SendPacket(fs[0], bsf[0], pkt).value;
    var next := bsf[0 := to];
    assert LinkedAt(fs, bsf, written, 0);
    forall i | 0 <= i < |fs| ensures LinkedAt(fs, next, written, i) {
      assert LinkedAt(fs, bsf, written, i);
      if i == 0 {
        assert Fed(fs[0], bsf[0].history) == Produced(fs[0], bsf[0].history, false) == Given(bsf, written, 1);
        if pkt.Some? {
          FedStep(fs[0], bsf[0].history, pkt.value);
          assert Produced(fs[0], to.history, false) == Fed(fs[0], to.history);
        } else {
          assert to.ready == fs[0].flush(bsf[0].history);
        }
      }
    }
  }

  /** A walk that is over leaves the chain at rest: either it came back to the start, or the end went all the way. */
  lemma EndWalk(fs: seq<Filter>, bsf: seq<Context>, written: seq<Packet>, idx: nat, eof: bool)
    requires Walking(fs, bsf, written, idx) && |fs| > 0
    requires if eof then idx == |fs| && ReceivePacket(bsf[idx - 1]).0.Eof?
             else idx == 0 && forall i :: 0 <= i < |bsf| ==> !bsf[i].eof
    ensures Resting(fs, bsf, written, eof)
  {
    if eof {
      EofReachedAll(fs, bsf, written, |fs| - 1);
    }
  }

  lemma {:induction false} EofReachedAll(fs: seq<Filter>, bsf: seq<Context>, written: seq<Packet>, i: nat)
    requires Linked(fs, bsf, written) && i < |fs| && bsf[i].eof && bsf[i].ready == []
    ensures forall k :: 0 <= k <= i ==> bsf[k].eof && bsf[k].ready == []
  {
    if i > 0 {
      assert LinkedAt(fs, bsf, written, i - 1);
      EofReachedAll(fs, bsf, written, i - 1);
    }
  }

  /**
   * At the head of the loop: on a walk that takes a packet (or the end, with eof) down
   * the chain; or, when the filters had already been told of the end, on one that finds
   * nothing more.
   */
  ghost predicate InLoop(fs: seq<Filter>, bsf: seq<Context>, written: seq<Packet>, idx: nat, eof: bool, again: bool) {
    && |bsf| == |fs| && 0 < |fs| && idx <= |fs| && bsf[0].eof == eof
    && (if again then eof && idx > 0 && Resting(fs, bsf, written, true) else Walking(fs, bsf, written, idx))
    && (!eof ==> forall i :: 0 <= i < |bsf| ==> !bsf[i].eof)
  }

  /** The loop's measure: what is still to be moved, then the way the index has to go. */
  ghost function Measure(fs: seq<Filter>, bsf: seq<Context>, written: seq<Packet>, eof: bool): (n: nat)
    requires Linked(fs, bsf, written) && 0 < |fs| && bsf[0].eof == eof
  {
    ToMoveIsNat(fs, bsf, written, eof, 0);
    ToMove(fs, bsf, written, eof, 0)
  }

  lemma BeginLoop(fs: seq<Filter>, bsf: seq<Context>, written: seq<Packet>, pkt: Option<Packet>, ended: bool)
    requires Resting(fs, bsf, written, ended) && |fs| > 0
    ensures var to := SendPacket(fs[0], bsf[0], pkt);
            && (to.Some? <==> pkt.None? || !ended)
            && (to.Some? ==>
                  && InLoop(fs, bsf[0 := to.value], written, 1, pkt.None?, ended)
                  && to.value.history == bsf[0].history + if pkt.Some? then [pkt.value] else [])
  {
    var to := SendPacket(fs[0], bsf[0], pkt);
    if ended {
      assert to.Some? ==> bsf[0 := to.value] == bsf;
    } else {
      BeginWalk(fs, bsf, written, pkt);
    }
  }

  lemma InLoopLinked(fs: seq<Filter>, bsf: seq<Context>, written: seq<Packet>, idx: nat, eof: bool, again: bool)
    requires InLoop(fs, bsf, written, idx, eof, again)
    ensures Linked(fs, bsf, written) && |bsf| == |fs| && idx <= |fs| && bsf[0].eof == eof && (again ==> idx > 0)
  {
  }

  lemma StepBack(fs: seq<Filter>, bsf: seq<Context>, written: seq<Packet>, idx: nat, eof: bool, again: bool)
    requires InLoop(fs, bsf, written, idx, eof, again) && idx > 0 && ReceivePacket(bsf[idx - 1]).0.Again?
    ensures !again && InLoop(fs, bsf, written, idx - 1, eof, again)
  {
  }

  /** One turn of the loop that reaches the next filter. */
  lemma StepMove(fs: seq<Filter>, bsf: seq<Context>, written: seq<Packet>, idx: nat, eof: bool, again: bool)
    requires InLoop(fs, bsf, written, idx, eof, again) && 0 < idx < |fs| && !ReceivePacket(bsf[idx - 1]).0.Again?
    ensures var (answer, from) := ReceivePacket(bsf[idx - 1]);
            var to := SendPacket(fs[idx], bsf[idx], if answer.Eof? then None else Some(answer.pkt));
            && to.Some?
            && var next := bsf[idx - 1 := from][idx := to.value];
            && InLoop(fs, next, written, idx + 1, eof, again)
            && next[0].history == bsf[0].history
            && ToMove(fs, next, written, eof, 0) == ToMove(fs, bsf, written, eof, 0) - if again then 0 else 1
  {
    var (answer, from) := ReceivePacket(bsf[idx - 1]);
    if again {
      assert bsf[idx - 1 := from][idx := bsf[idx]] == bsf;
    } else if answer.Eof? {
      MoveEof(fs, bsf, written, idx);
      var to := SendPacket(fs[idx], bsf[idx], None).value;
      assert bsf[idx - 1 := from] == bsf;
      ToMoveFalls(fs, bsf, written, bsf[idx := to], written, eof, idx - 1, 0);
    } else {
      MovePacket(fs, bsf, written, idx);
      var to := SendPacket(fs[idx], bsf[idx], Some(answer.pkt)).value;
      ToMoveFalls(fs, bsf, written, bsf[idx - 1 := from][idx := to], written, eof, idx - 1, 0);
    }
  }

  /** One turn of the loop that writes a packet. */
  lemma StepWrite(fs: seq<Filter>, bsf: seq<Context>, written: seq<Packet>, eof: bool, again: bool)
    requires InLoop(fs, bsf, written, |fs|, eof, again) && |fs| > 0 && ReceivePacket(bsf[|fs| - 1]).0.Got?
    ensures var (answer, from) := ReceivePacket(bsf[|fs| - 1]);
            var next := bsf[|fs| - 1 := from];
            && !again
            && InLoop(fs, next, written + [answer.pkt], |fs|, eof, again)
            && next[0].history == bsf[0].history
            && ToMove(fs, next, written + [answer.pkt], eof, 0) == ToMove(fs, bsf, written, eof, 0) - 1
  {
    var (answer, from) := ReceivePacket(bsf[|fs| - 1]);
    WritePacket(fs, bsf, written);
    ToMoveFalls(fs, bsf, written, bsf[|fs| - 1 := from], written + [answer.pkt], eof, |fs| - 1, 0);
  }

  lemma EndTakesNothing(c: Context)
    requires ReceivePacket(c).0.Eof?
    ensures ReceivePacket(c).1 == c
  {
  }

  /** The loop ends with the chain at rest. */
  lemma StepEnd(fs: seq<Filter>, bsf: seq<Context>, written: seq<Packet>, idx: nat, eof: bool, again: bool)
    requires InLoop(fs, bsf, written, idx, eof, again)
    requires idx == 0 || (idx == |fs| && ReceivePacket(bsf[idx - 1]).0.Eof?)
    ensures Resting(fs, bsf, written, eof)
  {
    if !again {
      EndWalk(fs, bsf, written, idx, eof);
    }
  }

  class OutputStream {
    const filters: seq<Filter>
    var bsf: seq<Context>
    var written: seq<Packet>         // by write_packet
    ghost var accepted: seq<Packet>  // the packets of all calls so far
    ghost var ended: bool            // a call has told the filters of the end

    ghost predicate Valid()
      reads this
    {
      && Resting(filters, bsf, written, ended)
      && accepted == Given(bsf, written, 0)
    }

    constructor (filters: seq<Filter>)
      ensures Valid() && this.filters == filters && written == accepted == [] && !ended
    {
      this.filters := filters;
      bsf := seq(|filters|, i => Context([], [], false));
      written := [];
      accepted := [];
      ended := false;
      new;
      assert Linked(filters, bsf, written) by {
        forall i | 0 <= i < |filters| ensures LinkedAt(filters, bsf, written, i) {
        }
      }
    }

    /** What has been written is always the composed filters applied to what has been accepted. */
    lemma WrittenIsComposed()
      requires Valid()
      ensures written == Composed(filters, accepted, ended)
    {
      if filters != [] {
        AllGiven(filters, bsf, written, ended, |filters|);
      }
    }

    /** The loop of output_packet: moves on all that the filters have to give. */
    method MovePackets(eof: bool, ghost again: bool)
      requires InLoop(filters, bsf, written, 1, eof, again)
      modifies this`bsf, this`written
      ensures |bsf| == |filters| && Resting(filters, bsf, written, eof)
      ensures bsf[0].history == old(bsf)[0].history
    {
      hide Linked, Stage, Walking, Resting, ToMove, InLoop, SendPacket, ReceivePacket, Given;
      var idx := 1;
      InLoopLinked(filters, bsf, written, idx, eof, again);
      while idx > 0
        invariant 0 <= idx <= |filters| == |bsf|
        invariant bsf[0].history == old(bsf)[0].history && bsf[0].eof == eof
        invariant Linked(filters, bsf, written) && InLoop(filters, bsf, written, idx, eof, again)
        invariant again ==> idx > 0
        decreases Measure(filters, bsf, written, eof), if again then |filters| - idx else idx
      {
        ghost var before := bsf;
        var (answer, from) := ReceivePacket(bsf[idx - 1]);
        if answer.Again? {
          StepBack(filters, bsf, written, idx, eof, again);
          idx := idx - 1;
          continue;
        }
        bsf := bsf[idx - 1 := from];
        if idx < |filters| {
          StepMove(filters, before, written, idx, eof, again);
          var next := SendPacket(filters[idx], bsf[idx], if answer.Eof? then None else Some(answer.pkt));
          if next.None? {
            assert false;  // every filter the walk comes to is ready
          }
          bsf := bsf[idx := next.value];
          idx := idx + 1;
        } else if answer.Eof? {
          assert bsf == before by {
            EndTakesNothing(before[idx - 1]);
          }
          break;
        } else {
          StepWrite(filters, before, written, eof, again);
          written := written + [answer.pkt];
        }
        InLoopLinked(filters, bsf, written, idx, eof, again);
      }
      StepEnd(filters, bsf, written, idx, eof, again);
    }

    /**
     * Gives a packet, or the end, to the filters, and writes all that comes out.
     * It fails only for a packet after the end; then it changes nothing.
     */
    method OutputPacket(pkt: Packet, eof: bool) returns (ok: bool)
      requires Valid()
      modifies this
      ensures Valid()
      ensures ok == (eof || filters == [] || !old(ended))
      ensures ended == (old(ended) || (eof && filters != []))
      ensures accepted == old(accepted) + if eof || !ok then [] else [pkt]
      ensures written == Composed(filters, accepted, ended)
    {
      ok := true;
      if filters == [] {
        if !eof {
          written := written + [pkt];
          accepted := accepted + [pkt];
        }
        WrittenIsComposed();
        return;
      }
      ghost var again, input := ended, if eof then None else Some(pkt);
      BeginLoop(filters, bsf, written, input, ended);
      var to := SendPacket(filters[0], bsf[0], if eof then None else Some(pkt));
      if to.None? {
        ok := false;
        WrittenIsComposed();
        return;
      }
      hide Linked, Stage, Walking, Resting, InLoop, SendPacket, ReceivePacket, Composed;
      bsf := bsf[0 := to.value];
      accepted, ended := to.value.history, eof;
      InLoopLinked(filters, bsf, written, 1, eof, again);
      MovePackets(eof, again);
      WrittenIsComposed();
    }
  }
}

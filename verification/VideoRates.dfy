/**
 * What the sync methods of do_video_out make of pictures and their times (ffmpeg.c): which
 * picture is encoded how often, and at what tick, for variable and for constant frame rate.
 */
module VideoRates {
  import opened Arithmetic
  import opened VideoSync
  import opened Wrappers

  /** r is the nearest integer to x, the even one of two. */
  predicate Nearest(r: int, x: real) {
    && -0.5 <= x - r as real <= 0.5
    && (x - r as real == 0.5 || x - r as real == -0.5 ==> r % 2 == 0)
  }

  lemma LrintNearest(x: real)
    ensures Nearest(Lrint(x), x)
  {
  }

  /** No integer on one side of x has its nearest integer on the other. */
  lemma NearestAtLeast(r: int, x: real, n: int)
    requires Nearest(r, x) && x >= n as real
    ensures r >= n
  {
  }

  // ---- what is encoded ------------------------------------------------------------------------

  /** n frames of one picture, one tick after the other. */
  function Repeated(picture: Picture, pts: int, n: int): (r: seq<Encoded>)
    decreases n
  {
    if n <= 0 then [] else [Encoded(picture, pts)] + Repeated(picture, pts + 1, n - 1)
  }

  lemma RepeatedAppend(a: seq<Encoded>, picture: Picture, pts: int, n: int)
    requires n > 0
    ensures (a + [Encoded(picture, pts)]) + Repeated(picture, pts + 1, n - 1) == a + Repeated(picture, pts, n)
  {
    var rest := Repeated(picture, pts + 1, n - 1);
    assert (a + [Encoded(picture, pts)]) + rest == a + ([Encoded(picture, pts)] + rest);
  }

  /** With frames i to nb left, those before nb0 show the previous picture. */
  function Shows(previous: Picture, next: Picture, pts: int, i: int, nb0: int, nb: int): (r: seq<Encoded>) {
    Repeated(previous, pts, nb0 - i) + Repeated(next, pts + Max(0, nb0 - i), nb - Max(i, nb0))
  }

  lemma ShowsNext(a: seq<Encoded>, previous: Picture, next: Picture, pts: int, i: int, nb0: int, nb: int)
    requires i < nb && nb0 <= nb
    ensures (a + [Encoded(if i < nb0 then previous else next, pts)]) + Shows(previous, next, pts + 1, i + 1, nb0, nb)
         == a + Shows(previous, next, pts, i, nb0, nb)
  {
    if i < nb0 {
      var after := Repeated(next, pts + (nb0 - i), nb - nb0);
      RepeatedAppend(a, previous, pts, nb0 - i);
      var b, c := Repeated(previous, pts + 1, nb0 - i - 1), Repeated(previous, pts, nb0 - i);
      assert (a + [Encoded(previous, pts)]) + (b + after) == ((a + [Encoded(previous, pts)]) + b) + after;
      assert a + (c + after) == (a + c) + after;
    } else {
      var none := Repeated(previous, pts, nb0 - i);
      assert none == [] && Repeated(previous, pts + 1, nb0 - i - 1) == [];
      RepeatedAppend(a, next, pts, nb - i);
      var b, c := Repeated(next, pts + 1, nb - i - 1), Repeated(next, pts, nb - i);
      assert none + b == b && none + c == c;
    }
  }

  /** The picture before, or the new one where there is none. */
  function Previous(s: State, next: Picture): (r: Picture) {
    if s.lastFrame.Some? then s.lastFrame.value else next
  }

  /** Without a recording time all planned frames are encoded. */
  lemma {:induction false} EncodeShows(cfg: Config, s: State, i: int, p: Plan, next: Picture)
    requires cfg.cutoff.None? && 0 <= i <= p.nb && p.nb0 <= p.nb
    ensures Encode(cfg, s, i, p, Some(next)) ==
              (s.(encoded := s.encoded + Shows(Previous(s, next), next, s.syncOpts, i, p.nb0, p.nb),
                  syncOpts := s.syncOpts + (p.nb - i), frameNumber := s.frameNumber + (p.nb - i)), true)
    decreases p.nb - i
  {
    EncodeNext(cfg, s, i, p, Some(next));
    if i < p.nb {
      var picture := if i < p.nb0 then Previous(s, next) else next;
      var t := s.(encoded := s.encoded + [Encoded(picture, s.syncOpts)],
                  syncOpts := s.syncOpts + 1, frameNumber := s.frameNumber + 1);
      ShowsNext(s.encoded, Previous(s, next), next, s.syncOpts, i, p.nb0, p.nb);
      hide Encode, Shows;
      EncodeShows(cfg, t, i + 1, p, next);
    } else {
      NothingShown(Previous(s, next), next, s.syncOpts, i, p.nb0, p.nb);
      assert s.encoded + [] == s.encoded;
    }
  }

  lemma NothingShown(previous: Picture, next: Picture, pts: int, i: int, nb0: int, nb: int)
    requires nb0 <= nb <= i
    ensures Shows(previous, next, pts, i, nb0, nb) == []
  {
  }

  /** One unhindered picture: the plan is carried out. */
  lemma StepShows(cfg: Config, s: State, call: Call)
    requires Bounded(cfg, s) && Unhindered(cfg, s, call)
    ensures var p, t := PlanFrame(cfg, s, call.ipts, call.duration), Step(cfg, s, call);
            && 0 <= p.nb0 && 0 <= p.nb && t.lastFrame == Some(call.picture)
            && t.encoded == s.encoded + Shows(Previous(s, call.picture), call.picture, p.syncOpts, 0,
                                              Min(p.nb0, p.nb), p.nb)
            && t.syncOpts == p.syncOpts + p.nb && t.frameNumber == s.frameNumber + p.nb
  {
    PlanIsFrame(cfg, s, call);
    var p := PlanOf(cfg, s, call);
    EncodeShows(cfg, Settled(s, call, p), 0, p, call.picture);
    hide PlanFrame, PlanOf, Encode, Shows, Min, Bounded;
  }

  lemma PlanIsFrame(cfg: Config, s: State, call: Call)
    requires Bounded(cfg, s) && Unhindered(cfg, s, call)
    ensures call.Frame?
    ensures var p := PlanFrame(cfg, s, call.ipts, call.duration);
            && 0 <= p.nb0 && 0 <= p.nb
            && PlanOf(cfg, s, call) == Plan(p.nb, Min(p.nb0, p.nb), p.syncOpts)
            && !TooMany(cfg, s, PlanOf(cfg, s, call)) && cfg.cutoff.None?
  {
  }

  lemma ShowsOne(previous: Picture, next: Picture, pts: int)
    ensures Shows(previous, next, pts, 0, 0, 1) == [Encoded(next, pts)]
    ensures Shows(previous, next, pts, 0, 0, 0) == []
  {
    assert Repeated(next, pts, 1) == [Encoded(next, pts)] + Repeated(next, pts + 1, 0);
  }

  // ---- variable frame rate ----------------------------------------------------------------------

  /** The tick at which a picture is encoded when the next free tick is `free`. */
  predicate VfrTick(pts: int, free: int, ipts: real, end: real) {
    if end - free as real > 0.6 then Nearest(pts, if ipts < free as real then free as real else ipts)
    else pts == free
  }

  /**
   * A picture that ends 0.6 ticks before the next free one, or earlier, is not encoded. Any
   * other is encoded once: at the nearest tick to its time, or to the free one if it
   * began before that; or at the free one if it ends no more than 0.6 ticks after it.
   */
  lemma VfrStep(cfg: Config, s: State, call: Call)
    requires cfg.format.Vfr? && Bounded(cfg, s) && Unhindered(cfg, s, call)
    ensures var t := Step(cfg, s, call);
            if EndTime(call) - s.syncOpts as real <= -0.6
            then t.encoded == s.encoded && t.syncOpts == s.syncOpts
            else && t.encoded == s.encoded + [Encoded(call.picture, t.syncOpts - 1)]
                 && VfrTick(t.syncOpts - 1, s.syncOpts, call.ipts, EndTime(call)) && t.syncOpts - 1 >= s.syncOpts
  {
    var p := PlanFrame(cfg, s, call.ipts, call.duration);
    StepShows(cfg, s, call);
    ShowsOne(Previous(s, call.picture), call.picture, p.syncOpts);
    VfrPlan(cfg, s, call);
    hide *;
    NothingMore(s.encoded);
  }

  lemma NothingMore(a: seq<Encoded>)
    ensures a + [] == a
  {
  }

  lemma VfrPlan(cfg: Config, s: State, call: Call)
    requires cfg.format.Vfr? && call.Frame?
    ensures var p, free := PlanFrame(cfg, s, call.ipts, call.duration), s.syncOpts;
            && p.nb0 == 0 && Min(p.nb0, p.nb) == 0
            && if EndTime(call) - free as real <= -0.6 then p.nb == 0 && p.syncOpts == free
               else p.nb == 1 && VfrTick(p.syncOpts, free, call.ipts, EndTime(call)) && p.syncOpts >= free
  {
    var at := if call.ipts < s.syncOpts as real then s.syncOpts as real else call.ipts;
    LrintNearest(at);
    hide Lrint;
    NearestAtLeast(Lrint(at), at, s.syncOpts);
  }

  /** Each timestamp is greater than the one before, and the next free tick than all. */
  ghost predicate Rising(s: State) {
    && (forall k :: 0 <= k < |s.encoded| ==> s.encoded[k].pts < s.syncOpts)
    && forall j, k :: 0 <= j < k < |s.encoded| ==> s.encoded[j].pts < s.encoded[k].pts
  }

  /** What was encoded stays; Run only appends. */
  lemma RunLast(cfg: Config, calls: seq<Call>)
    requires calls != [] && cfg.maxFrames >= 0 && UnhinderedRun(cfg, calls)
    ensures var before, call := calls[..|calls| - 1], calls[|calls| - 1];
            var s := Run(cfg, Fresh(), before);
            && call.Frame? && calls == before + [call]
            && UnhinderedRun(cfg, before) && Bounded(cfg, s) && Unhindered(cfg, s, call)
            && Run(cfg, Fresh(), calls) == Step(cfg, s, call)
  {
    hide *;
    var before := calls[..|calls| - 1];
    LastCall(calls);
    UnhinderedBefore(cfg, calls);
    UnhinderedFrame(cfg, Run(cfg, Fresh(), before), calls[|calls| - 1]);
    RunOne(cfg, before, calls[|calls| - 1]);
    FreshBounded(cfg);
    RunBalance(cfg, Fresh(), before, 0);
  }

  lemma LastCall(calls: seq<Call>)
    requires calls != []
    ensures calls == calls[..|calls| - 1] + [calls[|calls| - 1]]
  {
  }

  lemma UnhinderedFrame(cfg: Config, s: State, call: Call)
    requires Unhindered(cfg, s, call)
    ensures call.Frame?
  {
  }

  lemma FreshBounded(cfg: Config)
    requires cfg.maxFrames >= 0
    ensures Bounded(cfg, Fresh())
  {
  }

  lemma RisingMore(s: State, t: State, picture: Picture)
    requires Rising(s) && t.encoded == s.encoded + [Encoded(picture, t.syncOpts - 1)] && t.syncOpts > s.syncOpts
    ensures Rising(t)
  {
  }

  lemma RisingSame(s: State, t: State)
    requires Rising(s) && t.encoded == s.encoded && t.syncOpts == s.syncOpts
    ensures Rising(t)
  {
  }

  lemma NothingRises(cfg: Config, calls: seq<Call>)
    requires |calls| == 0
    ensures Rising(Run(cfg, Fresh(), calls)) && Run(cfg, Fresh(), calls).encoded == []
  {
  }

  /** Over every unhindered run at a variable frame rate the timestamps strictly rise. */
  lemma {:induction false} VfrRises(cfg: Config, calls: seq<Call>)
    requires cfg.format.Vfr? && cfg.maxFrames >= 0 && UnhinderedRun(cfg, calls)
    ensures Rising(Run(cfg, Fresh(), calls))
    decreases |calls|
  {
    hide *;
    if |calls| == 0 {
      NothingRises(cfg, calls);
    } else {
      var before, call := calls[..|calls| - 1], calls[|calls| - 1];
      var s := Run(cfg, Fresh(), before);
      RunLast(cfg, calls);
      VfrRises(cfg, before);
      VfrStep(cfg, s, call);
      if EndTime(call) - s.syncOpts as real <= -0.6 {
        RisingSame(s, Step(cfg, s, call));
      } else {
        RisingMore(s, Step(cfg, s, call), call.picture);
      }
    }
  }

  /**
   * What a run at a variable frame rate makes of each of its pictures: none or one of the
   * frames encoded in the end, by the next free tick when the picture came.
   */
  predicate VfrMakes(all: seq<Encoded>, s: State, t: State, call: Call)
    requires call.Frame?
  {
    && s.encoded <= t.encoded <= all
    && if EndTime(call) - s.syncOpts as real <= -0.6 then |t.encoded| == |s.encoded|
       else && |t.encoded| == |s.encoded| + 1
            && t.encoded[|s.encoded|] == Encoded(call.picture, t.syncOpts - 1)
            && VfrTick(t.syncOpts - 1, s.syncOpts, call.ipts, EndTime(call))
  }

  lemma {:induction false} VfrRun(cfg: Config, calls: seq<Call>, k: nat)
    requires cfg.format.Vfr? && cfg.maxFrames >= 0 && UnhinderedRun(cfg, calls) && k < |calls|
    ensures calls[k].Frame?
    ensures VfrMakes(Run(cfg, Fresh(), calls).encoded, Run(cfg, Fresh(), calls[..k]), Run(cfg, Fresh(), calls[..k + 1]),
                     calls[k])
    decreases |calls|
  {
    hide *;
    var n := |calls| - 1;
    var before, call := calls[..n], calls[n];
    var s, t := Run(cfg, Fresh(), before), Run(cfg, Fresh(), calls);
    RunLast(cfg, calls);
    VfrStep(cfg, s, call);
    if k < n {
      assert before[..k] == calls[..k] && before[..k + 1] == calls[..k + 1];
      VfrRun(cfg, before, k);
      VfrMore(s.encoded, t.encoded, Run(cfg, Fresh(), calls[..k]), Run(cfg, Fresh(), calls[..k + 1]), calls[k]);
    } else {
      assert calls[..n + 1] == calls;
      VfrLast(s, t, call);
    }
  }

  lemma VfrMore(all: seq<Encoded>, more: seq<Encoded>, s: State, t: State, call: Call)
    requires call.Frame? && VfrMakes(all, s, t, call) && (more == all || exists e :: more == all + [e])
    ensures VfrMakes(more, s, t, call)
  {
    hide VfrTick;
  }

  lemma VfrLast(s: State, t: State, call: Call)
    requires call.Frame?
    requires if EndTime(call) - s.syncOpts as real <= -0.6 then t.encoded == s.encoded
             else && t.encoded == s.encoded + [Encoded(call.picture, t.syncOpts - 1)]
                  && VfrTick(t.syncOpts - 1, s.syncOpts, call.ipts, EndTime(call))
    ensures VfrMakes(t.encoded, s, t, call)
  {
    hide VfrTick;
  }

  // ---- timestamps as they are -------------------------------------------------------------------

  predicate AsTheyAre(f: Format) {
    f.Passthrough? || f.DropTimes?
  }

  /** Every picture is encoded once, at the tick nearest to its time. */
  lemma PassStep(cfg: Config, s: State, call: Call)
    requires AsTheyAre(cfg.format) && Bounded(cfg, s) && Unhindered(cfg, s, call)
    ensures var t := Step(cfg, s, call);
            t.encoded == s.encoded + [Encoded(call.picture, t.syncOpts - 1)] && Nearest(t.syncOpts - 1, call.ipts)
  {
    var p := PlanFrame(cfg, s, call.ipts, call.duration);
    StepShows(cfg, s, call);
    ShowsOne(Previous(s, call.picture), call.picture, p.syncOpts);
    LrintNearest(call.ipts);
    assert p == Plan(1, 0, Lrint(call.ipts)) && Min(0, 1) == 0;
    hide *;
  }

  /** Over every unhindered run each picture is encoded once, in order, at the tick nearest to its time. */
  lemma {:induction false} PassRun(cfg: Config, calls: seq<Call>)
    requires AsTheyAre(cfg.format) && cfg.maxFrames >= 0 && UnhinderedRun(cfg, calls)
    ensures AllAtTheirTime(Run(cfg, Fresh(), calls).encoded, calls)
    decreases |calls|
  {
    hide *;
    if |calls| == 0 {
      NothingRises(cfg, calls);
      NoneAtTheirTime(Run(cfg, Fresh(), calls).encoded, calls);
    } else {
      var before, call := calls[..|calls| - 1], calls[|calls| - 1];
      var s := Run(cfg, Fresh(), before);
      RunLast(cfg, calls);
      PassRun(cfg, before);
      PassStep(cfg, s, call);
      MoreAtTheirTime(s.encoded, before, call, Step(cfg, s, call).syncOpts - 1);
    }
  }

  /** As many frames as pictures, in order, each at the tick nearest to its time. */
  ghost predicate AllAtTheirTime(encoded: seq<Encoded>, calls: seq<Call>) {
    && |encoded| == |calls|
    && forall k :: 0 <= k < |calls| ==>
         calls[k].Frame? && encoded[k].picture == calls[k].picture && Nearest(encoded[k].pts, calls[k].ipts)
  }

  lemma NoneAtTheirTime(encoded: seq<Encoded>, calls: seq<Call>)
    requires |encoded| == |calls| == 0
    ensures AllAtTheirTime(encoded, calls)
  {
  }

  lemma MoreAtTheirTime(encoded: seq<Encoded>, calls: seq<Call>, call: Call, pts: int)
    requires AllAtTheirTime(encoded, calls) && call.Frame? && Nearest(pts, call.ipts)
    ensures AllAtTheirTime(encoded + [Encoded(call.picture, pts)], calls + [call])
  {
    hide Nearest;
  }

  // ---- constant frame rate ------------------------------------------------------------------------

  predicate Constant(f: Format) {
    f.Cfr? || f.VsCfr?
  }

  /** The first picture, at least half a tick late, sets the start where that is not 0. */
  predicate Starts(cfg: Config, s: State, call: Call) {
    cfg.format.VsCfr? && s.frameNumber == 0 && call.Frame? && call.ipts - s.syncOpts as real >= 0.5
  }

  /** How many frames a picture gets whose end is `missing` ticks after the output. */
  predicate FrameCount(cfg: Config, s: State, nb: int, missing: real) {
    if missing < -1.1 || (cfg.dropThreshold != 0.0 && missing < cfg.dropThreshold && s.frameNumber != 0) then nb == 0
    else if missing <= 1.1 then nb == 1
    else nb >= 1 && Nearest(nb, missing)
  }

  /** Within half a tick. */
  predicate Near(r: int, x: real) {
    -0.5 <= x - r as real <= 0.5
  }

  /**
   * At a constant frame rate nb frames are encoded for a picture, at consecutive ticks:
   * first nb0 times the one before, and then the new one. The one before is repeated for a
   * picture that is late, until about half a tick before its time, and for no other.
   */
  lemma CfrShows(cfg: Config, s: State, call: Call) returns (nb: int, nb0: int)
    requires Constant(cfg.format) && Bounded(cfg, s) && Unhindered(cfg, s, call) && !Starts(cfg, s, call)
    ensures var t, late := Step(cfg, s, call), call.ipts - s.syncOpts as real;
            && 0 <= nb0 <= nb && t.syncOpts == s.syncOpts + nb
            && t.encoded == s.encoded + Repeated(Previous(s, call.picture), s.syncOpts, nb0)
                                      + Repeated(call.picture, s.syncOpts + nb0, nb - nb0)
            && FrameCount(cfg, s, nb, late + call.duration)
            && (if nb > 0 && late > 1.1 && late + call.duration > 1.1
                then nb0 == nb || Near(s.syncOpts + nb0, call.ipts - 0.6)
                else nb0 == 0)
  {
    hide *;
    PlanIsFrame(cfg, s, call);
    var p := PlanFrame(cfg, s, call.ipts, call.duration);
    CfrPlan(cfg, s, call);
    StepShows(cfg, s, call);
    nb, nb0 := p.nb, Min(p.nb0, p.nb);
    ShowsTwo(Previous(s, call.picture), call.picture, s.syncOpts, nb0, nb, s.encoded);
  }

  lemma ShowsTwo(previous: Picture, next: Picture, pts: int, nb0: int, nb: int, a: seq<Encoded>)
    requires 0 <= nb0 <= nb
    ensures a + Shows(previous, next, pts, 0, nb0, nb)
         == a + Repeated(previous, pts, nb0) + Repeated(next, pts + nb0, nb - nb0)
  {
  }

  lemma CfrPlan(cfg: Config, s: State, call: Call)
    requires Constant(cfg.format) && call.Frame? && !Starts(cfg, s, call)
    requires var p := PlanFrame(cfg, s, call.ipts, call.duration); 0 <= p.nb0 && 0 <= p.nb
    ensures var p, late := PlanFrame(cfg, s, call.ipts, call.duration), call.ipts - s.syncOpts as real;
            && p.syncOpts == s.syncOpts && 0 <= Min(p.nb0, p.nb) <= p.nb
            && FrameCount(cfg, s, p.nb, late + call.duration)
            && (if p.nb > 0 && late > 1.1 && late + call.duration > 1.1
                then Min(p.nb0, p.nb) == p.nb || Near(s.syncOpts + Min(p.nb0, p.nb), call.ipts - 0.6)
                else Min(p.nb0, p.nb) == 0)
  {
    var late := call.ipts - s.syncOpts as real;
    LrintNearest(late + call.duration);
    if late + call.duration > 1.1 {
      NearestAtLeast(Lrint(late + call.duration), late + call.duration, 1);
    }
    NearMoved(Lrint(late - 0.6), late - 0.6, s.syncOpts);
    hide Lrint, Nearest, Near;
  }

  lemma NearMoved(r: int, x: real, n: int)
    requires Near(r, x)
    ensures Near(n + r, n as real + x)
  {
  }

  /** The bounds of StepDrift hold at any constant frame rate, once the start is set. */
  lemma ConstantDrift(cfg: Config, s: State, call: Call)
    requires Constant(cfg.format) && Bounded(cfg, s) && Unhindered(cfg, s, call) && !Starts(cfg, s, call)
    ensures var t := Step(cfg, s, call);
            && Drift(t, EndTime(call)) <= Ceiling(cfg)
            && (Drift(t, EndTime(call)) >= -2.1 <==> Drift(s, EndTime(call)) >= -2.1)
  {
    StepShows(cfg, s, call);
    hide Step, Shows;
    DriftPlan(cfg, s, call);
    hide PlanFrame;
  }

  lemma DriftPlan(cfg: Config, s: State, call: Call)
    requires Constant(cfg.format) && call.Frame? && !Starts(cfg, s, call)
    ensures var p := PlanFrame(cfg, s, call.ipts, call.duration);
            var drift := EndTime(call) - (p.syncOpts + p.nb) as real;
            && drift <= Ceiling(cfg) && (drift >= -2.1 <==> Drift(s, EndTime(call)) >= -2.1)
  {
    hide Lrint;
  }

  /** The picture that sets the start is first shown at the nearest tick to its time. */
  lemma StartShows(cfg: Config, s: State, call: Call) returns (nb: int)
    requires Bounded(cfg, s) && Unhindered(cfg, s, call) && Starts(cfg, s, call) && call.duration >= 0.0
    ensures var t := Step(cfg, s, call);
            && nb >= 1 && t.frameNumber == nb && Nearest(t.syncOpts - nb, call.ipts)
            && t.encoded == s.encoded + Repeated(call.picture, t.syncOpts - nb, nb)
            && (nb > 1 ==> Nearest(nb, call.duration))
            && -2.1 <= Drift(t, EndTime(call)) <= 1.0
  {
    hide *;
    PlanIsFrame(cfg, s, call);
    var p := PlanFrame(cfg, s, call.ipts, call.duration);
    StartPlan(cfg, s, call);
    StepShows(cfg, s, call);
    nb := p.nb;
    ShowsTwo(Previous(s, call.picture), call.picture, p.syncOpts, 0, nb, s.encoded);
    NothingRepeated(Previous(s, call.picture), p.syncOpts, s.encoded);
    DriftIs(cfg, s, call);
  }

  lemma DriftIs(cfg: Config, s: State, call: Call)
    requires call.Frame?
    ensures Drift(s, EndTime(call)) == call.ipts + call.duration - s.syncOpts as real
    ensures Drift(Step(cfg, s, call), EndTime(call)) == call.ipts + call.duration - Step(cfg, s, call).syncOpts as real
  {
    hide Step;
  }

  lemma NothingRepeated(picture: Picture, pts: int, a: seq<Encoded>)
    ensures a + Repeated(picture, pts, 0) == a
  {
  }

  lemma StartPlan(cfg: Config, s: State, call: Call)
    requires Bounded(cfg, s) && Starts(cfg, s, call) && call.duration >= 0.0
    ensures var p := PlanFrame(cfg, s, call.ipts, call.duration);
            && p.nb >= 1 && p.nb0 == 0 && Min(p.nb0, p.nb) == 0 && s.frameNumber == 0
            && Nearest(p.syncOpts, call.ipts) && p.syncOpts >= s.syncOpts
            && (p.nb > 1 ==> Nearest(p.nb, call.duration))
            && -2.1 <= call.ipts + call.duration - (p.syncOpts + p.nb) as real <= 1.0
  {
    LrintNearest(call.ipts);
    LrintNearest(call.duration);
    NearestAtLeast(Lrint(call.ipts), call.ipts, s.syncOpts);
    hide Lrint;
  }

  ghost predicate DurationsPositive(calls: seq<Call>) {
    forall k :: 0 <= k < |calls| ==> calls[k].Frame? && calls[k].duration >= 0.0
  }

  /** How much later than the output the picture just encoded may end. */
  function Latest(cfg: Config, s: State, call: Call): (r: real) {
    if Starts(cfg, s, call) then 1.0 else Ceiling(cfg)
  }

  /**
   * With a start of its own, too, the output never runs away: after every picture of the
   * run its end and the next tick differ by at most 2.1 one way, and by the ceiling the
   * other, or by one tick for the picture that sets the start.
   */
  lemma {:induction false} VsCfrDrift(cfg: Config, calls: seq<Call>)
    requires Constant(cfg.format) && cfg.maxFrames >= 0 && calls != []
    requires EndsInOrder(calls) && DurationsPositive(calls) && UnhinderedRun(cfg, calls)
    ensures var s, t := Run(cfg, Fresh(), calls[..|calls| - 1]), Run(cfg, Fresh(), calls);
            var call := calls[|calls| - 1];
            call.Frame? && -2.1 <= Drift(t, EndTime(call)) <= Latest(cfg, s, call)
    decreases |calls|
  {
    hide *;
    var n := |calls| - 1;
    var before, call := calls[..n], calls[n];
    var s := Run(cfg, Fresh(), before);
    RunLast(cfg, calls);
    EndsBefore(calls);
    PositiveBefore(calls);
    if n > 0 {
      VsCfrDrift(cfg, before);
      DriftAfter(cfg, s, call, EndTime(before[n - 1]));
    } else {
      StartOfRun(cfg, before, call);
      DriftAfter(cfg, s, call, -2.1);
    }
  }

  lemma PositiveBefore(calls: seq<Call>)
    requires calls != [] && DurationsPositive(calls)
    ensures DurationsPositive(calls[..|calls| - 1])
    ensures calls[|calls| - 1].Frame? && calls[|calls| - 1].duration >= 0.0
  {
  }

  lemma StartOfRun(cfg: Config, before: seq<Call>, call: Call)
    requires |before| == 0 && call.Frame? && EndTime(call) >= -2.1
    ensures Drift(Run(cfg, Fresh(), before), -2.1) >= -2.1
  {
  }

  lemma DriftAfter(cfg: Config, s: State, call: Call, last: real)
    requires Constant(cfg.format) && Bounded(cfg, s) && Unhindered(cfg, s, call) && call.Frame?
    requires call.duration >= 0.0 && Drift(s, last) >= -2.1 && EndTime(call) >= last
    ensures -2.1 <= Drift(Step(cfg, s, call), EndTime(call)) <= Latest(cfg, s, call)
  {
    hide Step, Bounded, Unhindered, Starts;
    if Starts(cfg, s, call) {
      var nb := StartShows(cfg, s, call);
    } else {
      ConstantDrift(cfg, s, call);
    }
  }

  // ---- consecutive timestamps -----------------------------------------------------------------------

  /** The timestamps are consecutive, and the next free tick follows them. */
  ghost predicate Consecutive(s: State) {
    && |s.encoded| == s.frameNumber
    && forall k :: 0 <= k < |s.encoded| ==> s.encoded[k].pts == s.syncOpts - |s.encoded| + k
  }

  lemma {:induction false} EncodeConsecutive(cfg: Config, s: State, i: int, p: Plan, next: Option<Picture>)
    requires Consecutive(s)
    ensures Consecutive(Encode(cfg, s, i, p, next).0)
    ensures Encode(cfg, s, i, p, next).0.frameNumber >= s.frameNumber
    decreases p.nb - i
  {
    EncodeNext(cfg, s, i, p, next);
    if i < p.nb {
      var picture := if i < p.nb0 && s.lastFrame.Some? then s.lastFrame else next;
      if picture.Some? && Recording(cfg, s.syncOpts) {
        hide Encode;
        EncodeConsecutive(cfg, s.(encoded := s.encoded + [Encoded(picture.value, s.syncOpts)],
                                  syncOpts := s.syncOpts + 1, frameNumber := s.frameNumber + 1), i + 1, p, next);
      }
    }
  }

  lemma PlanKeepsTick(cfg: Config, s: State, call: Call)
    requires Constant(cfg.format)
    ensures PlanOf(cfg, s, call).syncOpts == s.syncOpts || s.frameNumber == 0
  {
    hide Lrint, MidPred;
  }

  lemma ConsecutiveStep(cfg: Config, s: State, call: Call)
    requires Constant(cfg.format) && Consecutive(s)
    ensures Consecutive(Step(cfg, s, call))
  {
    var p := PlanOf(cfg, s, call);
    PlanKeepsTick(cfg, s, call);
    if !TooMany(cfg, s, p) {
      assert Consecutive(Settled(s, call, p));
      EncodeConsecutive(cfg, Settled(s, call, p), 0, p, NextPicture(call));
    }
    hide PlanOf, Encode, TooMany;
  }

  /** Over every run at a constant frame rate, hindered or not, no tick is left out and none used twice. */
  lemma {:induction false} CfrConsecutive(cfg: Config, calls: seq<Call>)
    requires Constant(cfg.format)
    ensures Consecutive(Run(cfg, Fresh(), calls))
    decreases |calls|
  {
    hide Step, Consecutive;
    if calls != [] {
      CfrConsecutive(cfg, calls[..|calls| - 1]);
      ConsecutiveStep(cfg, Run(cfg, Fresh(), calls[..|calls| - 1]), calls[|calls| - 1]);
    } else {
      FreshConsecutive();
    }
  }

  lemma FreshConsecutive()
    ensures Consecutive(Fresh())
  {
  }

  // ---- the end --------------------------------------------------------------------------------------

  /** One of the three, with one of the others on each side. */
  predicate Median(m: int, a: int, b: int, c: int) {
    || (m == a && (b <= a <= c || c <= a <= b))
    || (m == b && (a <= b <= c || c <= b <= a))
    || (m == c && (a <= c <= b || b <= c <= a))
  }

  /** At the end the last picture is repeated as often as the one before it was at the median of the last three. */
  lemma FlushShows(cfg: Config, s: State) returns (m: int)
    requires Bounded(cfg, s) && cfg.cutoff.None? && !Skipped(cfg, s, Flush) && s.lastFrame.Some?
    ensures Median(m, s.lastNb0.0, s.lastNb0.1, s.lastNb0.2)
    ensures Step(cfg, s, Flush).encoded ==
              s.encoded + Repeated(s.lastFrame.value, s.syncOpts, Min(m, cfg.maxFrames - s.frameNumber))
  {
    m := MidPred(s.lastNb0.0, s.lastNb0.1, s.lastNb0.2);
    var p := PlanOf(cfg, s, Flush);
    var n := Min(m, cfg.maxFrames - s.frameNumber);
    assert p == Plan(n, n, s.syncOpts) && n >= 0;
    FlushEncodes(cfg, Settled(s, Flush, p), 0, n);
    hide MidPred, PlanOf, Encode, Repeated, Min;
  }

  lemma {:induction false} FlushEncodes(cfg: Config, s: State, i: int, n: int)
    requires cfg.cutoff.None? && s.lastFrame.Some? && 0 <= i <= n
    ensures var (t, done) := Encode(cfg, s, i, Plan(n, n, s.syncOpts - i), None);
            done && t.encoded == s.encoded + Repeated(s.lastFrame.value, s.syncOpts, n - i)
    decreases n - i
  {
    var p := Plan(n, n, s.syncOpts - i);
    EncodeNext(cfg, s, i, p, None);
    if i < n {
      var t := s.(encoded := s.encoded + [Encoded(s.lastFrame.value, s.syncOpts)],
                  syncOpts := s.syncOpts + 1, frameNumber := s.frameNumber + 1);
      RepeatedAppend(s.encoded, s.lastFrame.value, s.syncOpts, n - i);
      hide Encode, Repeated;
      FlushEncodes(cfg, t, i + 1, n);
    } else {
      NothingRepeated(s.lastFrame.value, s.syncOpts, s.encoded);
    }
  }
}

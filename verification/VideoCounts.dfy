/**
 * What the report of do_video_out counts (ffmpeg.c): drops are pictures of which no frame is
 * encoded, and duplicates are frames of a picture beyond its first, by looking at the frames
 * that were encoded. The counts are both one too high in one case, a first picture late.
 */
module VideoCounts {
  import opened Arithmetic
  import opened VideoRates
  import opened VideoSync
  import opened Wrappers

  // ---- counting frames ----------------------------------------------------------------------

  /** How many of the frames are of this picture. */
  function Times(encoded: seq<Encoded>, picture: Picture): (n: nat) {
    if encoded == [] then 0
    else Times(encoded[..|encoded| - 1], picture) + One(encoded[|encoded| - 1].picture == picture)
  }

  lemma {:induction false} TimesAppend(a: seq<Encoded>, b: seq<Encoded>, picture: Picture)
    ensures Times(a + b, picture) == Times(a, picture) + Times(b, picture)
    decreases |b|
  {
    if b == [] {
      assert a + b == a;
    } else {
      var all := a + b;
      assert all[..|all| - 1] == a + b[..|b| - 1] && all[|all| - 1] == b[|b| - 1];
      TimesAppend(a, b[..|b| - 1], picture);
    }
  }

  lemma {:induction false} TimesRepeated(of: Picture, pts: int, n: int, picture: Picture)
    ensures Times(Repeated(of, pts, n), picture) == if of == picture then Max(0, n) else 0
    decreases n
  {
    if n > 0 {
      TimesRepeated(of, pts + 1, n - 1, picture);
      TimesAppend([Encoded(of, pts)], Repeated(of, pts + 1, n - 1), picture);
      TimesOne(of, pts, picture);
    }
  }

  lemma TimesOne(of: Picture, pts: int, picture: Picture)
    ensures Times([Encoded(of, pts)], picture) == One(of == picture)
  {
    assert [Encoded(of, pts)][..0] == [];
  }

  lemma TimesShows(a: seq<Encoded>, previous: Picture, next: Picture, pts: int, nb0: int, nb: int, picture: Picture)
    requires 0 <= nb0 <= nb
    ensures Times(a + Shows(previous, next, pts, 0, nb0, nb), picture) ==
            Times(a, picture) + (if previous == picture then nb0 else 0) + if next == picture then nb - nb0 else 0
  {
    var b, c := Repeated(previous, pts, nb0), Repeated(next, pts + nb0, nb - nb0);
    assert Shows(previous, next, pts, 0, nb0, nb) == b + c;
    MaxOf(nb0);
    MaxOf(nb - nb0);
    hide Shows, Repeated, Times, Max;
    TimesAppend(a, b + c, picture);
    TimesAppend(b, c, picture);
    TimesRepeated(previous, pts, nb0, picture);
    TimesRepeated(next, pts + nb0, nb - nb0, picture);
  }

  // ---- the counts of the report -----------------------------------------------------------------

  /** Every picture comes once. */
  ghost predicate Distinct(calls: seq<Call>)
    requires AllPictures(calls)
  {
    forall j, k :: 0 <= j < k < |calls| ==> calls[j].picture != calls[k].picture
  }

  /** Pictures without a frame. */
  function Unshown(calls: seq<Call>, encoded: seq<Encoded>): (n: nat)
    requires AllPictures(calls)
  {
    if calls == [] then 0
    else Unshown(calls[..|calls| - 1], encoded) + One(Times(encoded, calls[|calls| - 1].picture) == 0)
  }

  /** Frames beyond the first of each picture. */
  function Repeats(calls: seq<Call>, encoded: seq<Encoded>): (n: nat)
    requires AllPictures(calls)
  {
    if calls == [] then 0
    else Repeats(calls[..|calls| - 1], encoded) + Max(0, Times(encoded, calls[|calls| - 1].picture) - 1)
  }

  lemma {:induction false} SameTimes(calls: seq<Call>, a: seq<Encoded>, b: seq<Encoded>)
    requires AllPictures(calls)
    requires forall k :: 0 <= k < |calls| ==> Times(a, calls[k].picture) == Times(b, calls[k].picture)
    ensures Unshown(calls, a) == Unshown(calls, b) && Repeats(calls, a) == Repeats(calls, b)
    decreases |calls|
  {
    if calls != [] {
      SameTimes(calls[..|calls| - 1], a, b);
    }
  }

  /**
   * Was the first picture encoded only in place of one before it that there was not, and
   * not repeated by the second call? It is then taken for dropped.
   */
  ghost predicate Misjudged(cfg: Config, calls: seq<Call>) {
    && calls != []
    && var p := PlanOf(cfg, Fresh(), calls[0]);
    p.nb == p.nb0 > 0 && (|calls| > 1 ==> PlanOf(cfg, Run(cfg, Fresh(), calls[..1]), calls[1]).nb0 == 0)
  }

  /** The counts, with the last picture if it is still to be counted, against the frames of each. */
  ghost predicate CountsAre(cfg: Config, calls: seq<Call>, s: State)
    requires AllPictures(calls)
  {
    var e := One(Misjudged(cfg, calls));
    && s.drop + One(s.lastDropped) == Unshown(calls, s.encoded) + e
    && s.dup == Repeats(calls, s.encoded) + e
  }

  /** One call that is not skipped, without a recording time. */
  lemma StepCounts(cfg: Config, s: State, call: Call)
    requires Bounded(cfg, s) && cfg.cutoff.None? && !Skipped(cfg, s, call) && call.Frame?
    ensures var p, t := PlanOf(cfg, s, call), Step(cfg, s, call);
            && 0 <= p.nb0 <= p.nb && t.lastFrame == Some(call.picture) && t.lastDropped == (p.nb == p.nb0)
            && t.drop == s.drop + One(p.nb0 == 0 && s.lastDropped)
            && t.dup == s.dup + p.nb - One(p.nb0 != 0 && s.lastDropped) - One(p.nb > p.nb0)
            && t.encoded == s.encoded + Shows(Previous(s, call.picture), call.picture, p.syncOpts, 0, p.nb0, p.nb)
            && t.lastNb0 == (p.nb0, s.lastNb0.0, s.lastNb0.1)
  {
    PlanBounds(cfg, s, call);
    var p := PlanOf(cfg, s, call);
    EncodeShows(cfg, Settled(s, call, p), 0, p, call.picture);
    hide PlanFrame, PlanOf, Encode, Shows, Min, Bounded;
  }

  // ---- one call at a time -----------------------------------------------------------------------

  ghost predicate Among(calls: seq<Call>, picture: Picture)
    requires AllPictures(calls)
  {
    exists k :: 0 <= k < |calls| && calls[k].picture == picture
  }

  /** Only pictures that came have frames; the last one is kept, and taken for dropped if it has none. */
  ghost predicate Kept(cfg: Config, calls: seq<Call>, s: State)
    requires AllPictures(calls)
  {
    && (forall picture :: !Among(calls, picture) ==> Times(s.encoded, picture) == 0)
    && if calls == [] then s == Fresh()
       else
         var last := calls[|calls| - 1].picture;
         && s.lastFrame == Some(last)
         && (s.lastDropped <==> Times(s.encoded, last) == 0 || (|calls| == 1 && Misjudged(cfg, calls)))
         && (|calls| == 1 && Misjudged(cfg, calls) ==> Times(s.encoded, last) > 0)
  }

  /** The frames that a call adds, for every picture. */
  ghost predicate Adds(a: seq<Encoded>, b: seq<Encoded>, previous: Picture, next: Picture, nb0: int, nb: int) {
    && 0 <= nb0 <= nb
    && forall picture :: Times(b, picture) ==
         Times(a, picture) + (if previous == picture then nb0 else 0) + if next == picture then nb - nb0 else 0
  }

  lemma StepAdds(cfg: Config, s: State, call: Call)
    requires Bounded(cfg, s) && cfg.cutoff.None? && !Skipped(cfg, s, call) && call.Frame?
    ensures var p := PlanOf(cfg, s, call);
            Adds(s.encoded, Step(cfg, s, call).encoded, Previous(s, call.picture), call.picture, p.nb0, p.nb)
  {
    StepCounts(cfg, s, call);
    var p, b := PlanOf(cfg, s, call), Step(cfg, s, call).encoded;
    var previous, next := Previous(s, call.picture), call.picture;
    hide *;
    assert 0 <= p.nb0 <= p.nb;
    forall picture
      ensures Times(b, picture) == Times(s.encoded, picture) + (if previous == picture then p.nb0 else 0)
                                   + if next == picture then p.nb - p.nb0 else 0
    {
      TimesShows(s.encoded, previous, next, p.syncOpts, p.nb0, p.nb, picture);
    }
    AddsIs(s.encoded, b, previous, next, p.nb0, p.nb);
  }

  lemma AddsIs(a: seq<Encoded>, b: seq<Encoded>, previous: Picture, next: Picture, nb0: int, nb: int)
    requires 0 <= nb0 <= nb
    requires forall picture :: Times(b, picture) ==
               Times(a, picture) + (if previous == picture then nb0 else 0) + if next == picture then nb - nb0 else 0
    ensures Adds(a, b, previous, next, nb0, nb)
  {
  }

  /** The sums over all pictures, for those before the last two as they were. */
  lemma NextSums(before: seq<Call>, call: Call, a: seq<Encoded>, b: seq<Encoded>, nb0: int, nb: int)
    requires AllPictures(before) && call.Frame? && AllPictures(before + [call]) && Distinct(before + [call])
    requires before != [] && Adds(a, b, before[|before| - 1].picture, call.picture, nb0, nb)
    requires Times(a, call.picture) == 0
    ensures var n := Times(a, before[|before| - 1].picture);
            && Unshown(before + [call], b) ==
               Unshown(before, a) - One(n == 0) + One(n == 0 && nb0 == 0) + One(nb == nb0)
            && Repeats(before + [call], b) ==
               Repeats(before, a) - Max(0, n - 1) + Max(0, n + nb0 - 1) + Max(0, nb - nb0 - 1)
  {
    var all := before + [call];
    var front := before[..|before| - 1];
    assert all[..|all| - 1] == before && all[|all| - 1] == call;
    forall k | 0 <= k < |front| ensures Times(a, front[k].picture) == Times(b, front[k].picture) {
      assert all[k] == front[k] && all[|before| - 1] == before[|before| - 1];
    }
    hide Times;
    SameTimes(front, a, b);
    assert before[|before| - 1] == all[|before| - 1];
  }

  lemma FirstSums(call: Call, b: seq<Encoded>, nb0: int, nb: int)
    requires call.Frame? && Adds([], b, call.picture, call.picture, nb0, nb)
    ensures AllPictures([call])
    ensures Unshown([call], b) == One(nb == 0) && Repeats([call], b) == Max(0, nb - 1)
  {
    assert [call][..0] == [];
    assert Times(b, call.picture) == nb;
  }

  lemma MisjudgedNext(cfg: Config, before: seq<Call>, call: Call)
    requires before != []
    ensures Misjudged(cfg, before + [call]) <==>
            Misjudged(cfg, before)
            && (|before| == 1 ==> PlanOf(cfg, Run(cfg, Fresh(), before), call).nb0 == 0)
  {
    var all := before + [call];
    assert all[0] == before[0] && all[..1] == before[..1];
    assert |before| == 1 ==> before[..1] == before && all[1] == call;
    assert |before| > 1 ==> all[1] == before[1];
    hide PlanOf, Run;
  }

  lemma MisjudgedFirst(cfg: Config, call: Call)
    ensures var p := PlanOf(cfg, Fresh(), call);
            Misjudged(cfg, [call]) <==> p.nb == p.nb0 > 0
  {
    hide PlanOf, Run;
  }

  lemma AmongMore(before: seq<Call>, call: Call, picture: Picture)
    requires AllPictures(before) && call.Frame? && AllPictures(before + [call])
    ensures Among(before, picture) || call.picture == picture ==> Among(before + [call], picture)
  {
    var all := before + [call];
    assert all[|before|] == call;
    forall k | 0 <= k < |before| && before[k].picture == picture ensures all[k].picture == picture {
    }
  }

  lemma KeptNext(cfg: Config, before: seq<Call>, call: Call, s: State, t: State, nb0: int, nb: int)
    requires AllPictures(before) && call.Frame? && AllPictures(before + [call]) && Distinct(before + [call])
    requires Kept(cfg, before, s) && t.lastFrame == Some(call.picture) && t.lastDropped == (nb == nb0)
    requires Adds(s.encoded, t.encoded, Previous(s, call.picture), call.picture, nb0, nb)
    requires before == [] ==> (Misjudged(cfg, [call]) <==> nb == nb0 > 0)
    ensures Times(s.encoded, call.picture) == 0 && Kept(cfg, before + [call], t)
  {
    var all := before + [call];
    hide Times, Misjudged;
    assert all[|all| - 1] == call;
    assert !Among(before, call.picture) by {
      forall k | 0 <= k < |before| ensures before[k].picture != call.picture {
        assert all[k] == before[k] && all[|before|] == call;
      }
    }
    forall picture | !Among(all, picture) ensures Times(t.encoded, picture) == 0 {
      AmongMore(before, call, picture);
      assert before != [] ==> all[|before| - 1] == before[|before| - 1];
    }
    if before != [] {
      assert all[|before| - 1] == before[|before| - 1];
      assert Previous(s, call.picture) != call.picture;
    } else {
      assert all == [call];
    }
  }

  lemma NextCount(cfg: Config, before: seq<Call>, call: Call, s: State, t: State, nb0: int, nb: int)
    requires AllPictures(before) && call.Frame? && AllPictures(before + [call]) && Distinct(before + [call])
    requires Kept(cfg, before, s) && Times(s.encoded, call.picture) == 0 && 0 <= nb0 <= nb
    requires before != [] ==> CountsAre(cfg, before, s) && (Misjudged(cfg, before + [call]) <==>
                                Misjudged(cfg, before) && (|before| == 1 ==> nb0 == 0))
    requires before == [] ==> (Misjudged(cfg, [call]) <==> nb == nb0 > 0)
    requires Adds(s.encoded, t.encoded, Previous(s, call.picture), call.picture, nb0, nb)
    requires t.lastDropped == (nb == nb0) && t.drop == s.drop + One(nb0 == 0 && s.lastDropped)
    requires t.dup == s.dup + nb - One(nb0 != 0 && s.lastDropped) - One(nb > nb0)
    ensures CountsAre(cfg, before + [call], t)
  {
    hide Times, Misjudged, Unshown, Repeats, Adds;
    if before == [] {
      FirstSums(call, t.encoded, nb0, nb);
      assert before + [call] == [call];
    } else {
      NextSums(before, call, s.encoded, t.encoded, nb0, nb);
    }
  }

  lemma AllBefore(calls: seq<Call>)
    requires AllPictures(calls) && calls != [] && Distinct(calls)
    ensures var before := calls[..|calls| - 1];
            && AllPictures(before) && Distinct(before) && calls == before + [calls[|calls| - 1]]
            && calls[|calls| - 1].Frame?
  {
    var before := calls[..|calls| - 1];
    assert forall k :: 0 <= k < |before| ==> before[k] == calls[k];
  }

  lemma {:induction false} RunCounts(cfg: Config, calls: seq<Call>)
    requires cfg.maxFrames >= 0 && cfg.cutoff.None?
    requires AllPictures(calls) && NeverSkips(cfg, calls) && Distinct(calls)
    ensures var s := Run(cfg, Fresh(), calls);
            Bounded(cfg, s) && Kept(cfg, calls, s) && CountsAre(cfg, calls, s)
    decreases |calls|
  {
    hide *;
    NothingLost(cfg, calls);
    if |calls| == 0 {
      NoCounts(cfg, calls);
    } else {
      var before, call := calls[..|calls| - 1], calls[|calls| - 1];
      var s := Run(cfg, Fresh(), before);
      AllBefore(calls);
      NeverSkipsBefore(cfg, calls);
      RunCounts(cfg, before);
      RunNext(cfg, calls);
      StepCounts(cfg, s, call);
      StepAdds(cfg, s, call);
      var p, t := PlanOf(cfg, s, call), Step(cfg, s, call);
      if |before| == 0 {
        assert before == [];
        RunNone(cfg);
        MisjudgedFirst(cfg, call);
        assert [] + [call] == [call];
      } else {
        MisjudgedNext(cfg, before, call);
      }
      KeptNext(cfg, before, call, s, t, p.nb0, p.nb);
      NextCount(cfg, before, call, s, t, p.nb0, p.nb);
    }
  }

  lemma RunNext(cfg: Config, calls: seq<Call>)
    requires calls != []
    ensures Run(cfg, Fresh(), calls) == Step(cfg, Run(cfg, Fresh(), calls[..|calls| - 1]), calls[|calls| - 1])
  {
    hide Step, Fresh;
  }

  lemma NoCounts(cfg: Config, calls: seq<Call>)
    requires |calls| == 0
    ensures AllPictures(calls) && Kept(cfg, calls, Run(cfg, Fresh(), calls))
    ensures CountsAre(cfg, calls, Run(cfg, Fresh(), calls))
  {
  }

  // ---- the report ---------------------------------------------------------------------------------

  /**
   * For any pictures, none twice, without recording time and skip: drops are the pictures
   * without a frame and duplicates the frames beyond each one's first, as the encoder got
   * them; but both are one more if the first picture was misjudged. The last picture may
   * still have to be counted.
   */
  lemma CountsMean(cfg: Config, calls: seq<Call>)
    requires cfg.maxFrames >= 0 && cfg.cutoff.None?
    requires AllPictures(calls) && NeverSkips(cfg, calls) && Distinct(calls)
    ensures var s := Run(cfg, Fresh(), calls);
            && s.drop + One(s.lastDropped) == Unshown(calls, s.encoded) + One(Misjudged(cfg, calls))
            && s.dup == Repeats(calls, s.encoded) + One(Misjudged(cfg, calls))
  {
    RunCounts(cfg, calls);
    hide Run, Misjudged, Kept, Fresh;
  }

  // ---- the flush ------------------------------------------------------------------------------------

  /** How often the n-th call from the end repeats the picture before its own. */
  function RepeatsBefore(cfg: Config, calls: seq<Call>, n: nat): (r: int) {
    if n >= |calls| then 0
    else
      var k := |calls| - 1 - n;
      PlanOf(cfg, Run(cfg, Fresh(), calls[..k]), calls[k]).nb0
  }

  lemma RepeatsBeforeNext(cfg: Config, before: seq<Call>, call: Call, n: nat)
    ensures RepeatsBefore(cfg, before + [call], 0) == PlanOf(cfg, Run(cfg, Fresh(), before), call).nb0
    ensures RepeatsBefore(cfg, before + [call], n + 1) == RepeatsBefore(cfg, before, n)
  {
    var all := before + [call];
    hide PlanOf, Run;
    assert all[..|before|] == before && all[|before|] == call;
    if n < |before| {
      var k := |before| - 1 - n;
      assert all[..k] == before[..k] && all[k] == before[k];
    }
  }

  lemma NoThree(cfg: Config, calls: seq<Call>)
    requires |calls| == 0
    ensures Run(cfg, Fresh(), calls).lastNb0 ==
            (RepeatsBefore(cfg, calls, 0), RepeatsBefore(cfg, calls, 1), RepeatsBefore(cfg, calls, 2))
  {
  }

  lemma RunBounded(cfg: Config, calls: seq<Call>)
    requires cfg.maxFrames >= 0
    ensures Bounded(cfg, Run(cfg, Fresh(), calls))
  {
    RunBalance(cfg, Fresh(), calls, 0);
  }

  /** What is kept of the last three calls. */
  lemma {:induction false} LastThree(cfg: Config, calls: seq<Call>)
    requires cfg.maxFrames >= 0
    ensures Run(cfg, Fresh(), calls).lastNb0 ==
            (RepeatsBefore(cfg, calls, 0), RepeatsBefore(cfg, calls, 1), RepeatsBefore(cfg, calls, 2))
    decreases |calls|
  {
    hide *;
    if |calls| == 0 {
      NoThree(cfg, calls);
    } else {
      var before, call := calls[..|calls| - 1], calls[|calls| - 1];
      assert calls == before + [call];
      LastThree(cfg, before);
      RunBounded(cfg, before);
      RunNext(cfg, calls);
      StepLastNb0(cfg, Run(cfg, Fresh(), before), call);
      RepeatsBeforeNext(cfg, before, call, 0);
      RepeatsBeforeNext(cfg, before, call, 1);
    }
  }

  /**
   * After any pictures the flush repeats the last one as often as the one before it was
   * repeated at the median of the last three calls, as far as frames are left.
   */
  lemma FlushRepeats(cfg: Config, calls: seq<Call>) returns (m: int)
    requires cfg.maxFrames >= 0 && cfg.cutoff.None? && calls != []
    requires AllPictures(calls) && NeverSkips(cfg, calls + [Flush])
    ensures VideoRates.Median(m, RepeatsBefore(cfg, calls, 0), RepeatsBefore(cfg, calls, 1),
                              RepeatsBefore(cfg, calls, 2))
    ensures var s := Run(cfg, Fresh(), calls);
            Run(cfg, Fresh(), calls + [Flush]).encoded ==
            s.encoded + Repeated(calls[|calls| - 1].picture, s.syncOpts, Min(m, cfg.maxFrames - |s.encoded|))
  {
    hide *;
    var s := Run(cfg, Fresh(), calls);
    FlushReady(cfg, calls);
    LastThree(cfg, calls);
    LastIs(cfg, calls);
    m := FlushShows(cfg, s);
    RunOne(cfg, calls, Flush);
  }

  lemma FlushReady(cfg: Config, calls: seq<Call>)
    requires cfg.maxFrames >= 0 && cfg.cutoff.None? && AllPictures(calls) && NeverSkips(cfg, calls + [Flush])
    ensures var s := Run(cfg, Fresh(), calls);
            && NeverSkips(cfg, calls) && !Skipped(cfg, s, Flush)
            && Bounded(cfg, s) && s.frameNumber == |s.encoded|
  {
    var all := calls + [Flush];
    assert all[..|calls|] == calls;
    NeverSkipsBefore(cfg, all);
    hide Run, Skipped, NeverSkips, Fresh;
    NothingLost(cfg, calls);
  }

  lemma LastIs(cfg: Config, calls: seq<Call>)
    requires cfg.maxFrames >= 0 && cfg.cutoff.None? && calls != [] && AllPictures(calls) && NeverSkips(cfg, calls)
    ensures calls[|calls| - 1].Frame? && Run(cfg, Fresh(), calls).lastFrame == Some(calls[|calls| - 1].picture)
  {
    hide *;
    var before, call := calls[..|calls| - 1], calls[|calls| - 1];
    PicturesBefore(calls);
    NeverSkipsBefore(cfg, calls);
    NothingLost(cfg, before);
    RunNext(cfg, calls);
    StepCounts(cfg, Run(cfg, Fresh(), before), call);
  }

  lemma PicturesBefore(calls: seq<Call>)
    requires AllPictures(calls) && calls != []
    ensures AllPictures(calls[..|calls| - 1]) && calls[|calls| - 1].Frame?
  {
  }

  /** Is the first picture still taken for dropped at the end? */
  ghost predicate MisjudgedAtEnd(cfg: Config, calls: seq<Call>) {
    Misjudged(cfg, calls) && (|calls| == 1 ==> PlanOf(cfg, Run(cfg, Fresh(), calls), Flush).nb == 0)
  }

  lemma FlushCounts(cfg: Config, s: State)
    requires Bounded(cfg, s) && cfg.cutoff.None? && !Skipped(cfg, s, Flush) && s.lastFrame.Some?
    ensures var n, t := PlanOf(cfg, s, Flush).nb, Step(cfg, s, Flush);
            && n >= 0 && !t.lastDropped
            && t.drop == s.drop + One(n == 0 && s.lastDropped)
            && t.dup == s.dup + n - One(n != 0 && s.lastDropped)
            && t.encoded == s.encoded + Repeated(s.lastFrame.value, s.syncOpts, n)
  {
    PlanBounds(cfg, s, Flush);
    var p := PlanOf(cfg, s, Flush);
    EncodeCounts(cfg, Settled(s, Flush, p), 0, p, None);
    FlushEncodes(cfg, Settled(s, Flush, p), 0, p.nb);
    assert p == Plan(p.nb, p.nb, s.syncOpts - 0);
    hide PlanOf, Encode, Repeated, Min, Bounded;
  }

  lemma FlushSums(calls: seq<Call>, a: seq<Encoded>, b: seq<Encoded>, n: nat)
    requires AllPictures(calls) && Distinct(calls) && calls != []
    requires forall picture :: Times(b, picture) ==
               Times(a, picture) + if calls[|calls| - 1].picture == picture then n else 0
    ensures var k := Times(a, calls[|calls| - 1].picture);
            && Unshown(calls, b) == Unshown(calls, a) - One(k == 0) + One(k == 0 && n == 0)
            && Repeats(calls, b) == Repeats(calls, a) - Max(0, k - 1) + Max(0, k + n - 1)
  {
    hide Times;
    SameTimes(calls[..|calls| - 1], a, b);
  }

  /** The report, when the flush has counted the last picture. */
  lemma ReportMeans(cfg: Config, calls: seq<Call>)
    requires cfg.maxFrames >= 0 && cfg.cutoff.None? && calls != []
    requires AllPictures(calls) && NeverSkips(cfg, calls + [Flush]) && Distinct(calls)
    ensures var t := Run(cfg, Fresh(), calls + [Flush]);
            && t.drop == Unshown(calls, t.encoded) + One(MisjudgedAtEnd(cfg, calls))
            && t.dup == Repeats(calls, t.encoded) + One(MisjudgedAtEnd(cfg, calls))
  {
    hide *;
    var s := Run(cfg, Fresh(), calls);
    FlushReady(cfg, calls);
    RunCounts(cfg, calls);
    LastIs(cfg, calls);
    RunOne(cfg, calls, Flush);
    FlushCounts(cfg, s);
    var n, b := PlanOf(cfg, s, Flush).nb, Step(cfg, s, Flush).encoded;
    var last := calls[|calls| - 1].picture;
    forall picture ensures Times(b, picture) == Times(s.encoded, picture) + if last == picture then n else 0 {
      TimesAppend(s.encoded, Repeated(last, s.syncOpts, n), picture);
      TimesRepeated(last, s.syncOpts, n, picture);
      MaxOf(n);
    }
    FlushSums(calls, s.encoded, b, n);
    FlushSettles(cfg, calls, s, Step(cfg, s, Flush), n);
  }

  lemma MaxOf(n: nat)
    ensures Max(0, n) == n
  {
  }

  lemma FlushSettles(cfg: Config, calls: seq<Call>, s: State, t: State, n: nat)
    requires AllPictures(calls) && calls != [] && Kept(cfg, calls, s) && CountsAre(cfg, calls, s)
    requires s == Run(cfg, Fresh(), calls) && n == PlanOf(cfg, s, Flush).nb
    requires t.drop == s.drop + One(n == 0 && s.lastDropped) && t.dup == s.dup + n - One(n != 0 && s.lastDropped)
    requires var k := Times(s.encoded, calls[|calls| - 1].picture);
             && Unshown(calls, t.encoded) == Unshown(calls, s.encoded) - One(k == 0) + One(k == 0 && n == 0)
             && Repeats(calls, t.encoded) == Repeats(calls, s.encoded) - Max(0, k - 1) + Max(0, k + n - 1)
    ensures t.drop == Unshown(calls, t.encoded) + One(MisjudgedAtEnd(cfg, calls))
    ensures t.dup == Repeats(calls, t.encoded) + One(MisjudgedAtEnd(cfg, calls))
  {
    hide Run, PlanOf, Times, Unshown, Repeats, Misjudged, Fresh;
  }

  /**
   * One picture at tick 10, of which one frame may be encoded, and is: the report has one
   * drop and one duplicate.
   */
  lemma LateFirst(cfg: Config, id: int)
    requires cfg.format.Cfr? && cfg.dropThreshold == 0.0 && cfg.maxFrames == 1 && cfg.dupLimit >= 1.0
    requires cfg.cutoff.None?
    ensures var t := Run(cfg, Fresh(), [Frame(Picture(id), 10.0, 1.0)] + [Flush]);
            t.encoded == [Encoded(Picture(id), 0)] && t.drop == 1 && t.dup == 1
  {
    hide *;
    var call, picture := Frame(Picture(id), 10.0, 1.0), Picture(id);
    var s := Step(cfg, Fresh(), call);
    FreshIs(cfg, picture);
    LatePlanned(cfg, call);
    StepCounts(cfg, Fresh(), call);
    StepLastNb0(cfg, Fresh(), call);
    StepTicks(cfg, Fresh(), call);
    ShowsPlaced(picture);
    assert [] + [Encoded(picture, 0)] == [Encoded(picture, 0)];
    NoneLeft(cfg, s);
    FlushCounts(cfg, s);
    RepeatedNothing(picture, s.encoded, s.syncOpts);
    RunNone(cfg);
    RunOne(cfg, [], call);
    assert [] + [call] == [call];
    RunOne(cfg, [call], Flush);
    OnePicture();
  }

  lemma OnePicture()
    ensures One(true) == 1 && One(false) == 0
  {
  }

  lemma FreshIs(cfg: Config, picture: Picture)
    requires cfg.maxFrames >= 0
    ensures Bounded(cfg, Fresh()) && Fresh() == State(0, 0, (0, 0, 0), false, None, [], 0, 0)
    ensures Previous(Fresh(), picture) == picture
  {
  }

  lemma StepTicks(cfg: Config, s: State, call: Call)
    requires Bounded(cfg, s) && !Skipped(cfg, s, call)
    ensures Bounded(cfg, Step(cfg, s, call))
  {
    StepBalance(cfg, s, call, 0);
  }

  /** No frame is left, and there is none to repeat. */
  lemma NoneLeft(cfg: Config, s: State)
    requires Bounded(cfg, s) && |s.encoded| == cfg.maxFrames
    ensures PlanOf(cfg, s, Flush).nb == 0 && !Skipped(cfg, s, Flush)
  {
    PlanBounds(cfg, s, Flush);
    hide PlanOf, Bounded;
  }

  lemma RepeatedNothing(picture: Picture, a: seq<Encoded>, pts: int)
    ensures a + Repeated(picture, pts, 0) == a
  {
  }

  lemma LatePlanned(cfg: Config, call: Call)
    requires cfg.format.Cfr? && cfg.dropThreshold == 0.0 && cfg.maxFrames == 1 && cfg.dupLimit >= 1.0
    requires call.Frame? && call.ipts == 10.0 && call.duration == 1.0
    ensures PlanOf(cfg, Fresh(), call) == Plan(1, 1, 0) && !Skipped(cfg, Fresh(), call)
  {
    assert Lrint(11.0) == 11 && Lrint(9.4) == 9;
  }

  lemma ShowsPlaced(picture: Picture)
    ensures Shows(picture, picture, 0, 0, 1, 1) == [Encoded(picture, 0)]
  {
    assert Repeated(picture, 0, 1) == [Encoded(picture, 0)] + Repeated(picture, 1, 0);
  }
}

/** Runs of the time-shift reader that show where its promises end. */
module TimeShiftRuns {
  import opened Options
  import opened TimeIndex
  import opened TimeShift
  import opened TrickPlay

  // ----- building runs -----

  lemma RunSnoc(actions: seq<Action>, a: Action, cfg: Config, s: TSB, r: TSB) returns (longer: seq<Action>)
    requires cfg.Valid() && Run(actions, cfg) == Some(s) && Allowed(s, a) && Inv(s, cfg) && Do(s, cfg, a) == r
    ensures Run(longer, cfg) == Some(r) && Inv(r, cfg)
  {
    hide Do, Inv, Allowed;
    longer := actions + [a];
    assert longer[..|actions|] == actions;
    DoKeeps(s, cfg, a);
  }

  lemma RunOpen(cfg: Config) returns (actions: seq<Action>, s: TSB)
    requires cfg.Valid()
    ensures s == START.(streaming := true) && Run(actions, cfg) == Some(s) && Inv(s, cfg)
  {
    assert Run([], cfg) == Some(START) && Inv(START, cfg);
    hide Run, Inv, Post, SetSeek, Tick, GetSeek;
    s := START.(streaming := true);
    actions := RunSnoc([], Open, cfg, START, s);
  }

  /** A post while playing with every chunk sampled. */
  lemma RunPost(actions: seq<Action>, now: nat, cfg: Config, s: TSB) returns (longer: seq<Action>, r: TSB)
    requires cfg.Valid() && cfg.ratio == 1 && |s.ix.ring| < cfg.capacity
    requires Run(actions, cfg) == Some(s) && Inv(s, cfg) && s.streaming && !s.paused
    requires s.ix.ring != [] ==> s.ix.ring[|s.ix.ring| - 1].time <= now
    ensures r == s.(ix := s.ix.(count := s.ix.count + 1, ring := s.ix.ring + [Sample(now, s.total + cfg.chunk)]),
                    total := s.total + cfg.chunk)
    ensures Run(longer, cfg) == Some(r) && Inv(r, cfg)
  {
    hide Run, Inv;
    r := Do(s, cfg, DoPost(now));
    longer := RunSnoc(actions, DoPost(now), cfg, s, r);
  }

  /** Samples that may follow `ring` when chunks of ten bytes are posted. */
  predicate Follows(tail: seq<Sample>, ring: seq<Sample>, total: nat) {
    && (forall i :: 0 <= i < |tail| ==> tail[i].bytes == total + 10 * i + 10)
    && (forall i, j :: 0 <= i < j < |tail| ==> tail[i].time <= tail[j].time)
    && (ring != [] && tail != [] ==> ring[|ring| - 1].time <= tail[0].time)
  }

  /** One post after the other. */
  lemma {:induction false} RunPosts(actions: seq<Action>, tail: seq<Sample>, cfg: Config, s: TSB)
      returns (longer: seq<Action>, r: TSB)
    requires cfg.Valid() && cfg.ratio == 1 && cfg.chunk == 10 && |s.ix.ring| + |tail| <= cfg.capacity
    requires Follows(tail, s.ix.ring, s.total)
    requires Run(actions, cfg) == Some(s) && Inv(s, cfg) && s.streaming && !s.paused
    ensures r == s.(ix := s.ix.(count := s.ix.count + |tail|, ring := s.ix.ring + tail), total := s.total + 10 * |tail|)
    ensures Run(longer, cfg) == Some(r) && Inv(r, cfg)
    decreases |tail|
  {
    hide Run, Inv;
    if tail == [] {
      longer, r := actions, s;
      assert s.ix.ring + tail == s.ix.ring;
    } else {
      var n := |tail| - 1;
      longer, r := RunPosts(actions, tail[..n], cfg, s);
      assert r.ix.ring != [] ==> r.ix.ring[|r.ix.ring| - 1].time <= tail[n].time;
      longer, r := RunPost(longer, tail[n].time, cfg, r);
      assert s.ix.ring + tail[..n] + [tail[n]] == s.ix.ring + tail;
    }
  }

  /** A seek that lands on sample `j`. */
  lemma RunSeek(actions: seq<Action>, ms: nat, cfg: Config, s: TSB, j: nat) returns (longer: seq<Action>, r: TSB)
    requires cfg.Valid() && Run(actions, cfg) == Some(s) && Inv(s, cfg)
    requires s.ix.ring != [] && 0 < ms && s.ix.lastOffset.0 != 1000 * ms && s.reader.None?
    requires FrontIndex(s.ix.ring, cfg.tsb) <= j < |s.ix.ring| - 1
    requires s.ix.ring[j].time + 1000 * ms <= Back(s.ix.ring).time < s.ix.ring[j + 1].time + 1000 * ms
    ensures var x := Back(s.ix.ring).bytes - s.ix.ring[j].bytes;
            r == s.(ix := s.ix.(lastOffset := (1000 * ms, x)), seek := x, pauseUs := 0)
    ensures Run(longer, cfg) == Some(r) && Inv(r, cfg)
  {
    hide Run, IndexInv, OffsetForTime;
    IndexInvMeans(s.ix, cfg, s.total);
    assert s.ix.ring[FrontIndex(s.ix.ring, cfg.tsb)].time <= s.ix.ring[j].time;
    var k := OffsetIsLastSample(s.ix.ring, cfg.tsb, 1000 * ms);
    assert k == j;
    SeekSucceedsExactly(s, cfg, ms);
    r := Do(s, cfg, DoSeek(ms));
    longer := RunSnoc(actions, DoSeek(ms), cfg, s, r);
  }

  lemma RunSpeed(actions: seq<Action>, speed: int, cfg: Config, s: TSB) returns (longer: seq<Action>, r: TSB)
    requires cfg.Valid() && Run(actions, cfg) == Some(s) && Inv(s, cfg) && speed != 0
    ensures r == s.(speed := speed) && Run(longer, cfg) == Some(r) && Inv(r, cfg)
  {
    hide Run, Inv, Post, SetSeek, Tick, GetSeek;
    r := s.(speed := speed);
    longer := RunSnoc(actions, DoSetSpeed(speed), cfg, s, r);
  }

  // ----- trick play that never ends -----

  /** A rewind that never ends. One second of the channel is indexed and sought back; 300 ms later the
      rewind asks for that second again, is sent to the remembered offset, which is 300 ms old by now,
      and asks for the same second with the next tick. */
  lemma RewindCanGoOnForEver() returns (actions: seq<Action>)
    ensures var cfg := Config(1, 3, 3, 10);
            && Run(actions, cfg).Some?
            && var s := Run(actions, cfg).value;
               && s.speed == -1 && s.pauseUs == 0 && |s.ix.ring| == 3
               && forall n :: RunTrick(s, cfg, n).None?
  {
    hide Run, Inv, RunTrick;
    var cfg := Config(1, 3, 3, 10);
    var s: TSB;
    actions, s := RunOpen(cfg);
    actions, s := RunPosts(actions, [Sample(0, 10), Sample(1000000, 20)], cfg, s);
    actions, s := RunSeek(actions, 1000, cfg, s, 0);
    actions, s := RunPosts(actions, [Sample(1300000, 30)], cfg, s);
    actions, s := RunSpeed(actions, -1, cfg, s);
    RewindCircles(s, cfg);
  }

  lemma RewindCircles(s: TSB, cfg: Config)
    requires cfg == Config(1, 3, 3, 10) && Inv(s, cfg) && s.speed == -1 && s.pauseUs == 0
    requires |s.ix.ring| == 3 && s.ix.ring[0] == Sample(0, 10)
    requires s.ix.ring[1] == Sample(1000000, 20) && s.ix.ring[2] == Sample(1300000, 30)
    requires s.ix.lastOffset == (1000000, 10) && s.ix.lastTime.0 == 0 && s.seek == 10
    ensures forall n :: RunTrick(s, cfg, n).None?
  {
    hide IndexInv, RunTrick, TimeForOffset, Growing, Ordered, OffsetForTime;
    ReachableIsWinding(s, cfg);
    AgeOfSample(s.ix.ring, cfg.tsb, 1);
    RewindStopsExactly(s, cfg);
  }

  /** A fast forward that never ends, though no sample is more than 625 ms from the next: 200 ms are sought
      back, and 1250 ms later the fast forward asks for 200 ms again. */
  lemma ForwardCanGoOnForEver() returns (actions: seq<Action>)
    ensures var cfg := Config(1, 5, 5, 10);
            && Run(actions, cfg).Some?
            && var s := Run(actions, cfg).value;
               && s.speed == 2 && s.pauseUs == 0 && s.ix.ring != [] && Close(s.ix.ring, cfg.tsb, 626)
               && forall n :: RunTrick(s, cfg, n).None?
  {
    hide Run, Inv, RunTrick, Close;
    var cfg := Config(1, 5, 5, 10);
    var s: TSB;
    actions, s := RunOpen(cfg);
    actions, s := RunPosts(actions, [Sample(0, 10), Sample(100000, 20), Sample(200000, 30)], cfg, s);
    actions, s := RunSeek(actions, 200, cfg, s, 0);
    actions, s := RunPosts(actions, [Sample(825000, 40), Sample(1450000, 50)], cfg, s);
    actions, s := RunSpeed(actions, 2, cfg, s);
    ForwardCircles(s, cfg);
  }

  lemma ForwardCircles(s: TSB, cfg: Config)
    requires cfg == Config(1, 5, 5, 10) && Inv(s, cfg) && s.speed == 2 && s.pauseUs == 0 && |s.ix.ring| == 5
    requires s.ix.ring[0].time == 0 && s.ix.ring[1].time == 100000 && s.ix.ring[2] == Sample(200000, 30)
    requires s.ix.ring[3].time == 825000 && s.ix.ring[4] == Sample(1450000, 50)
    requires s.ix.lastOffset == (200000, 20) && s.ix.lastTime.0 == 0 && s.seek == 20
    ensures Close(s.ix.ring, cfg.tsb, 626) && forall n :: RunTrick(s, cfg, n).None?
  {
    hide IndexInv, RunTrick, TimeForOffset, Growing, Ordered, OffsetForTime;
    ReachableIsWinding(s, cfg);
    AgeOfSample(s.ix.ring, cfg.tsb, 2);
    CloserIsClose(s.ix.ring, cfg.tsb, 626, 1050);
    CloseForward(s, cfg);
  }

  /** A fast forward that never ends with nothing answered from memory: the two samples are 3000 ms apart,
      and from the first a tick aims at the time between them. */
  lemma ForwardCanBeStuck() returns (actions: seq<Action>)
    ensures var cfg := Config(1, 2, 2, 10);
            && Run(actions, cfg).Some?
            && var s := Run(actions, cfg).value;
               && s.speed == 2 && s.pauseUs == 0 && |s.ix.ring| == 2
               && Stuck(s.ix.ring, 0, Leap(2)) && !HeldBack(s, cfg)
               && forall n :: RunTrick(s, cfg, n).None?
  {
    hide Run, Inv, RunTrick, HeldBack, Stuck;
    var cfg := Config(1, 2, 2, 10);
    var s: TSB;
    actions, s := RunOpen(cfg);
    actions, s := RunPosts(actions, [Sample(0, 10), Sample(3000000, 20)], cfg, s);
    actions, s := RunSeek(actions, 3000, cfg, s, 0);
    actions, s := RunSpeed(actions, 2, cfg, s);
    StuckAtFirst(s, cfg);
  }

  lemma StuckAtFirst(s: TSB, cfg: Config)
    requires cfg == Config(1, 2, 2, 10) && Inv(s, cfg) && s.speed == 2 && s.pauseUs == 0
    requires |s.ix.ring| == 2 && s.ix.ring[0] == Sample(0, 10) && s.ix.ring[1] == Sample(3000000, 20)
    requires s.ix.lastOffset == (3000000, 10) && s.ix.lastTime.0 == 0 && s.seek == 10
    ensures Stuck(s.ix.ring, 0, Leap(2)) && !HeldBack(s, cfg) && forall n :: RunTrick(s, cfg, n).None?
  {
    hide IndexInv, RunTrick, TimeForOffset, Growing, Ordered, OffsetForTime, HangsFrom;
    ReachableIsWinding(s, cfg);
    AgeOfSample(s.ix.ring, cfg.tsb, 0);
    LandingSample(s.ix.ring, cfg.tsb, 1950);
    ForwardStopsExactly(s, cfg);
  }

  // ----- from one channel to the next -----

  /** On the second channel: two samples, and the answer remembered from the first. */
  predicate SecondChannel(s: TSB) {
    && s.ix.ring == [Sample(10000, 60), Sample(15000, 70)]
    && s == START.(ix := Index(2, s.ix.ring, (5000, 40), (0, 0)), total := 70, streaming := true)
  }

  lemma ToSecondChannel(cfg: Config) returns (actions: seq<Action>, s: TSB)
    requires cfg == Config(1, 5, 5, 10)
    ensures SecondChannel(s) && Run(actions, cfg) == Some(s) && Inv(s, cfg)
  {
    hide Run, Inv;
    actions, s := RunOpen(cfg);
    actions, s := RunPosts(actions,
      [Sample(0, 10), Sample(5000, 20), Sample(5000, 30), Sample(5000, 40), Sample(5000, 50)], cfg, s);
    actions, s := RunSeek(actions, 5, cfg, s, 0);
    actions, s := NextChannel(actions, cfg, s);
    actions, s := RunPosts(actions, [Sample(10000, 60), Sample(15000, 70)], cfg, s);
  }

  lemma NextChannel(actions: seq<Action>, cfg: Config, s: TSB) returns (longer: seq<Action>, r: TSB)
    requires cfg.Valid() && Run(actions, cfg) == Some(s) && Inv(s, cfg) && s.reader.None?
    ensures r == s.(ix := Clear(s.ix), seek := 0, speed := 1, pauseUs := 0, paused := false, streaming := true)
    ensures Run(longer, cfg) == Some(r) && Inv(r, cfg)
  {
    hide Run, Inv, Post, SetSeek, Tick, GetSeek;
    var t := Reset(s.(streaming := false));
    longer := RunSnoc(actions, EndOfStream, cfg, s, t);
    r := t.(streaming := true);
    longer := RunSnoc(longer, Open, cfg, t, r);
  }

  /** The index is cleared without its remembered answers: a seek by 5 ms on one channel reaches 40 bytes
      back, and on the next channel, of which only 10 bytes are exposed, it does so again. */
  lemma RememberedOffsetCanReachFurther() returns (actions: seq<Action>)
    ensures var cfg := Config(1, 5, 5, 10);
            && Run(actions, cfg).Some?
            && var s := Run(actions, cfg).value;
               SizeInBytes(s.ix.ring, cfg.tsb) == 10 && MaxSeekMs(s, cfg) == 5 && SetSeek(s, cfg, 5).0.seek == 40
  {
    hide Run, Inv, OffsetForTime;
    var s: TSB;
    actions, s := ToSecondChannel(Config(1, 5, 5, 10));
  }

  /** Going on from there: the reader reads up to the live point, is paused, and the next post cuts the
      seek offset to the 20 bytes exposed by then. The next read is 10 bytes ahead of the live point. */
  lemma ReaderCanGetAhead() returns (actions: seq<Action>)
    ensures var cfg := Config(1, 5, 5, 10);
            && Run(actions, cfg).Some?
            && var s := Run(actions, cfg).value;
               s.reader.Some? && Position(s) == 90 && s.total == 80
  {
    hide Run, Inv;
    var cfg := Config(1, 5, 5, 10);
    var s: TSB;
    actions, s := ToSecondChannel(cfg);
    actions, s := PauseAtLive(actions, cfg, s);
    actions, s := PausedPost(actions, cfg, s);
  }

  lemma PauseAtLive(actions: seq<Action>, cfg: Config, s: TSB) returns (longer: seq<Action>, r: TSB)
    requires cfg == Config(1, 5, 5, 10) && SecondChannel(s) && Run(actions, cfg) == Some(s) && Inv(s, cfg)
    ensures r == s.(seek := 40, reader := Some(110), player := PAUSED, paused := true)
    ensures Run(longer, cfg) == Some(r) && Inv(r, cfg)
  {
    hide Run, Inv, Post, Tick, GetSeek, OffsetForTime;
    var a := s.(seek := 40);
    longer := RunSnoc(actions, DoSeek(5), cfg, s, a);
    hide SetSeek;
    var b := a.(reader := Some(110));
    longer := RunSnoc(longer, DoRead(40), cfg, a, b);
    var c := b.(player := PAUSED);
    longer := RunSnoc(longer, DoSetPlayer(PAUSED), cfg, b, c);
    r := c.(paused := true);
    longer := RunSnoc(longer, Watchdog(true), cfg, c, r);
  }

  lemma PausedPost(actions: seq<Action>, cfg: Config, s: TSB) returns (longer: seq<Action>, r: TSB)
    requires cfg == Config(1, 5, 5, 10) && s.ix.ring == [Sample(10000, 60), Sample(15000, 70)] && s.ix.count == 2
    requires s.total == 70 && s.seek == 40 && s.reader == Some(110) && s.player == PAUSED && s.paused && s.streaming
    requires Run(actions, cfg) == Some(s) && Inv(s, cfg)
    ensures r.reader == Some(110) && r.seek == 20 && r.total == 80
    ensures Run(longer, cfg) == Some(r)
  {
    hide Run, Inv, Tick, GetSeek, SetSeek;
    r := Do(s, cfg, DoPost(20000));
    assert r.ix.ring == [Sample(10000, 60), Sample(15000, 70), Sample(20000, 80)];
    longer := RunSnoc(actions, DoPost(20000), cfg, s, r);
  }
}

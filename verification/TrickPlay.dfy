/** Trick play on an index that does not change while it runs. The index answers a repeated question from
    memory, also when the answer has changed since; the theorems say exactly when winding still ends. */
module TrickPlay {
  import opened Options
  import opened TimeIndex
  import opened TimeShift

  /** The state at the tick that stops trick play, if that is among the first `n` ticks. */
  function RunTrick(s: TSB, cfg: Config, n: nat): Option<TSB>
    requires cfg.Valid() && Ordered(s.ix.ring)
    decreases n
  {
    if n == 0 then None
    else
      TickKeepsRing(s, cfg);
      var (s', stop) := Tick(s, cfg);
      if stop then Some(s') else RunTrick(s', cfg, n - 1)
  }

  lemma TickKeepsRing(s: TSB, cfg: Config)
    requires cfg.Valid() && Ordered(s.ix.ring)
    ensures Tick(s, cfg).0.ix.ring == s.ix.ring
  {
    hide TimeForOffset, OffsetForTime, Ordered;
  }

  /** Winding through a non-empty index of growing samples, with no pause time to be spent. */
  ghost predicate Winding(s: TSB, cfg: Config) {
    && cfg.Valid() && s.ix.ring != [] && Ordered(s.ix.ring) && Growing(s.ix.ring)
    && (s.ix.lastOffset.0 == 0 ==> s.ix.lastOffset.1 == 0)
    && s.pauseUs == 0 && s.speed != 1
  }

  /** Every reachable state with samples, a trick-play speed and no pause time is one of winding. */
  lemma ReachableIsWinding(s: TSB, cfg: Config)
    requires Inv(s, cfg) && s.ix.ring != [] && s.pauseUs == 0 && s.speed != 1
    ensures Winding(s, cfg)
  {
    IndexGrows(s.ix, cfg, s.total);
  }

  // ----- the samples -----

  /** The seek time in milliseconds that belongs to a byte offset. */
  function AgeMs(ring: seq<Sample>, tsb: nat, offset: nat): nat
    requires ring != [] && tsb > 0 && Ordered(ring)
  {
    TimeForOffset(ring, tsb, offset).value / 1000
  }

  /** The byte offset a seek to `ms` milliseconds lands on. */
  function Landing(ring: seq<Sample>, tsb: nat, ms: nat): nat
    requires ring != [] && tsb > 0 && Ordered(ring)
  {
    OffsetForTime(ring, tsb, ms * 1000).value
  }

  function MaxMs(ring: seq<Sample>, tsb: nat): nat
    requires tsb > 0 && Ordered(ring)
  {
    SizeInTime(ring, tsb) / 1000
  }

  lemma AgeWithinMax(ring: seq<Sample>, tsb: nat, offset: nat)
    requires ring != [] && tsb > 0 && Ordered(ring)
    ensures AgeMs(ring, tsb, offset) <= MaxMs(ring, tsb)
  {
    hide TimeForOffset, Ordered;
    TimeForOffsetBounded(ring, tsb, offset);
  }

  lemma LandingLive(ring: seq<Sample>, tsb: nat)
    requires ring != [] && tsb > 0 && Ordered(ring)
    ensures Landing(ring, tsb, 0) == 0
  {
  }

  /** A seek to an age lands at least as far back. */
  lemma LandsNoYounger(ring: seq<Sample>, tsb: nat, ms: nat)
    requires ring != [] && tsb > 0 && Ordered(ring) && Growing(ring)
    requires 0 < ms <= MaxMs(ring, tsb)
    ensures AgeMs(ring, tsb, Landing(ring, tsb, ms)) >= ms
    ensures TimeForOffset(ring, tsb, Landing(ring, tsb, ms)).value >= ms * 1000
  {
    hide TimeForOffset, OffsetForTime, Ordered, Growing;
    var j := SeekRoundTrip(ring, tsb, ms * 1000);
  }

  // ----- one tick, whatever is remembered -----

  /** The time reported for the seek offset, from memory if it was the last one asked for. */
  function ReportedUs(s: TSB, cfg: Config): nat
    requires cfg.Valid() && s.ix.ring != [] && Ordered(s.ix.ring)
  {
    if s.seek == s.ix.lastTime.0 then s.ix.lastTime.1 else TimeForOffset(s.ix.ring, cfg.tsb, s.seek).value
  }

  function Reported(s: TSB, cfg: Config): nat
    requires cfg.Valid() && s.ix.ring != [] && Ordered(s.ix.ring)
  {
    ReportedUs(s, cfg) / 1000
  }

  /** The offset found for a time, from memory if it was the last one asked for. */
  function Found(s: TSB, cfg: Config, ms: nat): nat
    requires cfg.Valid() && s.ix.ring != [] && Ordered(s.ix.ring)
  {
    if ms * 1000 == s.ix.lastOffset.0 then s.ix.lastOffset.1 else Landing(s.ix.ring, cfg.tsb, ms)
  }

  /** How far a tick moves. */
  function Leap(speed: int): nat {
    TRICK_PLAY_RATE_MS * ((if speed < 0 then 0 - speed else speed) + 1)
  }

  /** Where a tick aims. */
  function Aim(s: TSB, cfg: Config): int
    requires cfg.Valid() && s.ix.ring != [] && Ordered(s.ix.ring)
  {
    if s.speed < 0 then Reported(s, cfg) + Leap(s.speed) else Reported(s, cfg) - Leap(s.speed)
  }

  /** The tick reaches the end it winds to. */
  predicate Arrives(s: TSB, cfg: Config)
    requires cfg.Valid() && s.ix.ring != [] && Ordered(s.ix.ring)
  {
    if s.speed < 0 then Aim(s, cfg) >= MaxMs(s.ix.ring, cfg.tsb) else Aim(s, cfg) <= 0
  }

  /** The time the tick asks an offset for. */
  function Asked(s: TSB, cfg: Config): nat
    requires cfg.Valid() && s.ix.ring != [] && Ordered(s.ix.ring)
  {
    var max := MaxMs(s.ix.ring, cfg.tsb);
    if Aim(s, cfg) <= 0 then 0 else if Aim(s, cfg) > max then max else Aim(s, cfg)
  }

  /** A tick: it moves to the offset found and remembers both its questions. */
  lemma TickMeans(s: TSB, cfg: Config)
    requires Winding(s, cfg)
    ensures var (r, stop) := Tick(s, cfg);
            var x := Found(s, cfg, Asked(s, cfg));
            && stop == Arrives(s, cfg)
            && r.ix == s.ix.(lastTime := (s.seek, ReportedUs(s, cfg)), lastOffset := (Asked(s, cfg) * 1000, x))
            && r.seek == x && r.speed == (if stop then 1 else s.speed) && r.pauseUs == 0
  {
    TickIsSeek(s, cfg);
    AskMeans(s, cfg);
    var s1 := GetSeek(s, cfg).0;
    SeekMeans(s1, cfg, TickTarget(s, cfg));
    hide Tick, GetSeek, SetSeek, TimeForOffset, OffsetForTime, Ordered, Growing, SizeInTime;
  }

  lemma AskMeans(s: TSB, cfg: Config)
    requires cfg.Valid() && s.ix.ring != [] && Ordered(s.ix.ring) && s.pauseUs == 0
    ensures GetSeek(s, cfg) == (s.(ix := s.ix.(lastTime := (s.seek, ReportedUs(s, cfg)))), Reported(s, cfg))
  {
    hide TimeForOffset, Ordered;
  }

  lemma SeekMeans(s: TSB, cfg: Config, ms: int)
    requires cfg.Valid() && s.ix.ring != [] && Ordered(s.ix.ring)
    ensures var (r, ok) := SetSeek(s, cfg, ms);
            var t := CutMs(s, cfg, ms);
            && ok && r.ix == s.ix.(lastOffset := (t * 1000, Found(s, cfg, t)))
            && r.seek == Found(s, cfg, t) && r.pauseUs == 0 && r.speed == s.speed
  {
    SeekSucceedsExactly(s, cfg, ms);
    hide OffsetForTime, Ordered;
  }

  /** Pause time counts for one tick only: if that one does not stop, winding goes on without. */
  lemma PauseIsSpentAtOnce(s: TSB, cfg: Config)
    requires Inv(s, cfg) && s.ix.ring != [] && s.speed != 1
    ensures var (r, stop) := Tick(s, cfg); r.ix.ring == s.ix.ring && (stop || (Winding(r, cfg) && r.speed == s.speed))
  {
    hide Tick, GetSeek, SetSeek, Ordered, IndexInv, Growing;
    IndexInvMeans(s.ix, cfg, s.total);
    TickIsSeek(s, cfg);
    TickKeepsRing(s, cfg);
    GetKeepsRing(s, cfg);
    SeekMeans(GetSeek(s, cfg).0, cfg, TickTarget(s, cfg));
    TickKeeps(s, cfg);
    var (r, stop) := Tick(s, cfg);
    if !stop {
      ReachableIsWinding(r, cfg);
    }
  }

  /** The state from which winding goes on once pause time is spent. */
  function Begin(s: TSB, cfg: Config): TSB
    requires cfg.Valid() && Ordered(s.ix.ring)
  {
    if s.pauseUs == 0 then s else Tick(s, cfg).0
  }

  /** The tick that spends the pause time is the last one. */
  predicate EndsWithPause(s: TSB, cfg: Config)
    requires cfg.Valid() && Ordered(s.ix.ring)
  {
    s.pauseUs != 0 && Tick(s, cfg).1
  }

  ghost predicate Ends(s: TSB, cfg: Config)
    requires cfg.Valid() && Ordered(s.ix.ring)
  {
    exists n :: RunTrick(s, cfg, n).Some?
  }

  /** Winding ends with the pause time or as it does from there. */
  lemma BeginMeans(s: TSB, cfg: Config)
    requires Inv(s, cfg) && s.ix.ring != [] && s.speed != 1
    ensures EndsWithPause(s, cfg) ==> Ends(s, cfg)
    ensures var b := Begin(s, cfg);
            !EndsWithPause(s, cfg) ==>
              && Winding(b, cfg) && b.ix.ring == s.ix.ring && b.speed == s.speed
              && (Ends(s, cfg) <==> Ends(b, cfg))
  {
    hide Tick, Ordered, Growing, IndexInv, Ends;
    IndexInvMeans(s.ix, cfg, s.total);
    PauseIsSpentAtOnce(s, cfg);
    EndsAfterTick(s, cfg);
    if s.pauseUs == 0 {
      ReachableIsWinding(s, cfg);
    }
  }

  lemma TickThenRun(s: TSB, cfg: Config, n: nat)
    requires cfg.Valid() && Ordered(s.ix.ring)
    ensures var (r, stop) := Tick(s, cfg);
            r.ix.ring == s.ix.ring && RunTrick(s, cfg, n + 1) == if stop then Some(r) else RunTrick(r, cfg, n)
  {
    hide Tick, Ordered;
    TickKeepsRing(s, cfg);
  }

  lemma EndsAfterTick(s: TSB, cfg: Config)
    requires cfg.Valid() && Ordered(s.ix.ring)
    ensures var (r, stop) := Tick(s, cfg); r.ix.ring == s.ix.ring && (Ends(s, cfg) <==> stop || Ends(r, cfg))
  {
    hide Tick, Ordered, RunTrick;
    TickThenRun(s, cfg, 0);
    NoTickNoEnd(s, cfg);
    var r := Tick(s, cfg).0;
    if Ends(s, cfg) {
      var n: nat :| RunTrick(s, cfg, n).Some?;
      TickThenRun(s, cfg, n - 1);
    }
    if Ends(r, cfg) {
      var n: nat :| RunTrick(r, cfg, n).Some?;
      TickThenRun(s, cfg, n);
    }
  }

  /** Without samples the first tick is the last. */
  lemma EmptyEnds(s: TSB, cfg: Config)
    requires Inv(s, cfg) && s.ix.ring == []
    ensures Ends(s, cfg)
  {
    EndsAfterTick(s, cfg);
    TickIsSeek(s, cfg);
    hide Tick, Ends, SetSeek;
  }

  lemma NoTickNoEnd(s: TSB, cfg: Config)
    requires cfg.Valid() && Ordered(s.ix.ring)
    ensures RunTrick(s, cfg, 0).None?
  {
  }

  // ----- going round in a circle -----

  /** The tick comes to an offset that has the reported time it started from. */
  predicate Circles(s: TSB, cfg: Config)
    requires cfg.Valid() && s.ix.ring != [] && Ordered(s.ix.ring)
  {
    var x := Found(s, cfg, Asked(s, cfg));
    x == s.seek || AgeMs(s.ix.ring, cfg.tsb, x) == Reported(s, cfg)
  }

  /** What the tick after this one sees. */
  lemma NextTick(s: TSB, cfg: Config)
    requires Winding(s, cfg) && !Arrives(s, cfg)
    ensures var (r, stop) := Tick(s, cfg);
            && !stop && Winding(r, cfg) && r.ix.ring == s.ix.ring && r.speed == s.speed
            && Reported(r, cfg) == (if r.seek == s.seek then Reported(s, cfg) else AgeMs(s.ix.ring, cfg.tsb, r.seek))
            && r.seek == Found(s, cfg, Asked(s, cfg))
            && r.ix.lastOffset == (Asked(s, cfg) * 1000, r.seek)
            && r.ix.lastTime.0 == s.seek
  {
    TickMeans(s, cfg);
    LandingLive(s.ix.ring, cfg.tsb);
    hide Tick, TimeForOffset, OffsetForTime, Ordered, Growing, Arrives, Asked, Landing;
  }

  /** A tick in a circle is followed by one in the same circle: trick play never stops. */
  lemma {:induction false} CirclesForEver(s: TSB, cfg: Config, n: nat)
    requires Winding(s, cfg) && !Arrives(s, cfg) && Circles(s, cfg)
    ensures RunTrick(s, cfg, n).None?
    decreases n
  {
    hide Tick, Ordered, Growing, AgeMs, MaxMs, Landing, ReportedUs;
    if n > 0 {
      NextTick(s, cfg);
      var r := Tick(s, cfg).0;
      assert Aim(r, cfg) == Aim(s, cfg) by { hide Found, Leap; }
      CirclesForEver(r, cfg, n - 1);
    }
  }

  /** What the index would answer now for the questions of the next tick is what it does answer. */
  predicate Fresh(s: TSB, cfg: Config)
    requires cfg.Valid() && s.ix.ring != [] && Ordered(s.ix.ring)
  {
    && ReportedUs(s, cfg) == TimeForOffset(s.ix.ring, cfg.tsb, s.seek).value
    && Found(s, cfg, Asked(s, cfg)) == Landing(s.ix.ring, cfg.tsb, Asked(s, cfg))
  }

  /** Both remembered answers are what the index would answer now. */
  ghost predicate Settled(s: TSB, cfg: Config) {
    && Winding(s, cfg)
    && s.ix.lastTime.1 == TimeForOffset(s.ix.ring, cfg.tsb, s.ix.lastTime.0).value
    && s.ix.lastOffset.1 == OffsetForTime(s.ix.ring, cfg.tsb, s.ix.lastOffset.0).value
  }

  lemma SettledIsFresh(s: TSB, cfg: Config)
    requires Settled(s, cfg)
    ensures Fresh(s, cfg)
  {
    hide TimeForOffset, OffsetForTime, Ordered, Growing, Asked;
  }

  lemma SettledIsWinding(s: TSB, cfg: Config)
    requires Settled(s, cfg)
    ensures Winding(s, cfg)
  {
  }

  /** A tick outside a circle asks two new questions next. */
  lemma LeavesMemory(s: TSB, cfg: Config)
    requires Winding(s, cfg) && !Arrives(s, cfg) && !Circles(s, cfg)
    ensures var r := Tick(s, cfg).0; Winding(r, cfg) && r.ix.ring == s.ix.ring && Fresh(r, cfg)
  {
    NextTick(s, cfg);
    var r := Tick(s, cfg).0;
    AgeWithinMax(s.ix.ring, cfg.tsb, r.seek);
    LandingLive(s.ix.ring, cfg.tsb);
    hide Tick, TimeForOffset, OffsetForTime, Ordered, Growing, Landing, MaxMs;
    assert Reported(r, cfg) == AgeMs(s.ix.ring, cfg.tsb, r.seek) != Reported(s, cfg);
    if Asked(r, cfg) == Asked(s, cfg) {
      assert Asked(r, cfg) == 0;
    }
  }

  /** From fresh answers on, everything remembered is current. */
  lemma FreshTick(s: TSB, cfg: Config)
    requires Winding(s, cfg) && Fresh(s, cfg)
    ensures var (r, stop) := Tick(s, cfg);
            && stop == Arrives(s, cfg) && r.ix.ring == s.ix.ring
            && r.seek == Landing(s.ix.ring, cfg.tsb, Asked(s, cfg))
            && r.speed == (if stop then 1 else s.speed)
            && (!stop ==> Settled(r, cfg))
  {
    TickMeans(s, cfg);
    LandingLive(s.ix.ring, cfg.tsb);
    hide Tick, TimeForOffset, Ordered, Growing, Arrives, Asked;
    hide OffsetForTime;
  }

  /** The next tick is answered from memory and comes back to where it started: either the remembered
      offset is the present one or one of the reported age, or the remembered time hides that the
      present offset is the one sought. */
  predicate HeldBack(s: TSB, cfg: Config)
    requires cfg.Valid() && s.ix.ring != [] && Ordered(s.ix.ring)
  {
    if s.ix.lastOffset.0 == Asked(s, cfg) * 1000
    then s.ix.lastOffset.1 == s.seek || AgeMs(s.ix.ring, cfg.tsb, s.ix.lastOffset.1) == Reported(s, cfg)
    else s.ix.lastTime.0 == s.seek && Landing(s.ix.ring, cfg.tsb, Asked(s, cfg)) == s.seek
  }

  // ----- rewind -----

  /** Rewinding goes in a circle exactly when it is held back by memory. */
  lemma RewindCirclesExactly(s: TSB, cfg: Config)
    requires Winding(s, cfg) && s.speed < 0 && !Arrives(s, cfg)
    ensures Circles(s, cfg) <==> HeldBack(s, cfg)
  {
    LandsNoYounger(s.ix.ring, cfg.tsb, Asked(s, cfg));
    hide TimeForOffset, OffsetForTime, Ordered, Growing, Landing, MaxMs;
  }

  lemma {:induction false} RewindStopsWithin(s: TSB, cfg: Config, n: nat)
    requires Winding(s, cfg) && Fresh(s, cfg) && s.speed < 0 && n > 0
    requires AgeMs(s.ix.ring, cfg.tsb, s.seek) + 700 * n >= MaxMs(s.ix.ring, cfg.tsb)
    ensures var r := RunTrick(s, cfg, n);
            && r.Some? && r.value.speed == 1 && r.value.ix.ring == s.ix.ring
            && r.value.seek == Landing(s.ix.ring, cfg.tsb, MaxMs(s.ix.ring, cfg.tsb))
    decreases n
  {
    FreshTick(s, cfg);
    hide Landing, AgeMs, MaxMs, Tick, Ordered, Growing, TimeForOffset, Found;
    var (r, stop) := Tick(s, cfg);
    assert Reported(s, cfg) == AgeMs(s.ix.ring, cfg.tsb, s.seek) by { ReportedFresh(s, cfg); }
    if !stop {
      SettledIsFresh(r, cfg);
      LandsNoYounger(s.ix.ring, cfg.tsb, Asked(s, cfg));
      RewindStopsWithin(r, cfg, n - 1);
    }
  }

  lemma ReportedFresh(s: TSB, cfg: Config)
    requires Winding(s, cfg) && Fresh(s, cfg)
    ensures Reported(s, cfg) == AgeMs(s.ix.ring, cfg.tsb, s.seek)
  {
    hide TimeForOffset, Ordered, Growing, Asked;
  }

  /** Every rewind either arrives, or is held back by memory and never stops, or stops at the oldest end
      within max/700 + 2 ticks with the speed back at 1. */
  lemma RewindStopsExactly(s: TSB, cfg: Config)
    requires Winding(s, cfg) && s.speed < 0
    ensures var max := MaxMs(s.ix.ring, cfg.tsb);
            if !Arrives(s, cfg) && HeldBack(s, cfg) then forall n :: RunTrick(s, cfg, n).None?
            else
              var r := RunTrick(s, cfg, max / 700 + 2);
              && r.Some? && r.value.speed == 1 && r.value.ix.ring == s.ix.ring
              && r.value.seek == if Arrives(s, cfg) then Found(s, cfg, max) else Landing(s.ix.ring, cfg.tsb, max)
  {
    hide HeldBack, Circles, Tick, Landing, Ordered, Growing, AgeMs, MaxMs, Reported;
    var max := MaxMs(s.ix.ring, cfg.tsb);
    if Arrives(s, cfg) {
      TickMeans(s, cfg);
      LeapIsPositive(s.speed);
    } else {
      RewindCirclesExactly(s, cfg);
      if Circles(s, cfg) {
        forall n: nat ensures RunTrick(s, cfg, n).None? { CirclesForEver(s, cfg, n); }
      } else {
        NextTick(s, cfg);
        LeavesMemory(s, cfg);
        hide Arrives, Found, Fresh, Reported, Asked;
        RewindStopsWithin(Tick(s, cfg).0, cfg, max / 700 + 1);
      }
    }
  }

  /** The oldest end, up to a millisecond. */
  lemma OldestEnd(ring: seq<Sample>, tsb: nat)
    requires ring != [] && tsb > 0 && Ordered(ring) && Growing(ring)
    ensures SizeInTime(ring, tsb) - TimeForOffset(ring, tsb, Landing(ring, tsb, MaxMs(ring, tsb))).value < 1000
  {
    var max := MaxMs(ring, tsb);
    if max > 0 {
      LandsNoYounger(ring, tsb, max);
    }
    hide TimeForOffset, Landing, Ordered, Growing;
  }

  /** Of every reachable state: a rewind ends if and only if, once pause time is spent, its first tick
      arrives or is not held back by what the index remembers. */
  lemma RewindInRuns(actions: seq<Action>, cfg: Config)
    requires cfg.Valid() && Run(actions, cfg).Some?
    ensures var s := Run(actions, cfg).value;
            var b := Begin(s, cfg);
            s.speed < 0 ==> if s.ix.ring == [] then Ends(s, cfg) else
              && b.ix.ring == s.ix.ring
              && (Ends(s, cfg) <==> EndsWithPause(s, cfg) || Arrives(b, cfg) || !HeldBack(b, cfg))
  {
    hide RunTrick, Arrives, HeldBack, Run;
    var s := Run(actions, cfg).value;
    if s.ix.ring == [] && s.speed < 0 {
      EmptyEnds(s, cfg);
    } else if s.speed < 0 {
      BeginMeans(s, cfg);
      PauseIsSpentAtOnce(s, cfg);
      hide Begin, EndsWithPause, IndexInv, Growing;
      if !EndsWithPause(s, cfg) {
        RewindStopsExactly(Begin(s, cfg), cfg);
      }
    }
  }

  // ----- fast forward -----

  predicate Exposed(ring: seq<Sample>, tsb: nat, j: nat) {
    FrontIndex(ring, tsb) <= j < |ring|
  }

  predicate AtSample(s: TSB, j: nat) {
    j < |s.ix.ring| && s.seek == Back(s.ix.ring).bytes - s.ix.ring[j].bytes
  }

  /** The age of a sample in milliseconds. */
  function SampleMs(ring: seq<Sample>, j: nat): nat
    requires j < |ring| && Ordered(ring)
  {
    (Back(ring).time - ring[j].time) / 1000
  }

  lemma AgeOfSample(ring: seq<Sample>, tsb: nat, j: nat)
    requires ring != [] && tsb > 0 && Ordered(ring) && Growing(ring) && Exposed(ring, tsb, j)
    ensures AgeMs(ring, tsb, Back(ring).bytes - ring[j].bytes) == SampleMs(ring, j)
    ensures SampleMs(ring, j) <= MaxMs(ring, tsb)
  {
    hide TimeForOffset;
    TimeOfSample(ring, tsb, j);
  }

  /** The last exposed sample that is at least `ms` milliseconds old. */
  function SampleFor(ring: seq<Sample>, tsb: nat, ms: nat): (k: nat)
    requires ring != [] && tsb > 0 && Ordered(ring) && 0 < ms <= MaxMs(ring, tsb)
    ensures Exposed(ring, tsb, k) && k + 1 < |ring|
    ensures ring[k].time <= Back(ring).time - 1000 * ms < ring[k + 1].time
  {
    var i := FirstAbove(ring, ByTime, FrontIndex(ring, tsb), Back(ring).time - 1000 * ms);
    assert KeyOf(ByTime, ring[i - 1]) <= Back(ring).time - 1000 * ms;
    i - 1
  }

  lemma LandingSample(ring: seq<Sample>, tsb: nat, ms: nat)
    requires ring != [] && tsb > 0 && Ordered(ring) && 0 < ms <= MaxMs(ring, tsb)
    ensures Landing(ring, tsb, ms) == Back(ring).bytes - ring[SampleFor(ring, tsb, ms)].bytes
  {
    hide OffsetForTime, Ordered;
    var k := OffsetIsLastSample(ring, tsb, ms * 1000);
  }

  /** A tick from sample `j` aims at a time before the next sample and lands on `j` again. */
  predicate Stuck(ring: seq<Sample>, j: nat, leap: nat)
    requires j < |ring| && Ordered(ring)
  {
    && j + 1 < |ring| && SampleMs(ring, j) > leap
    && Back(ring).time - 1000 * (SampleMs(ring, j) - leap) < ring[j + 1].time
  }

  lemma SameOrYounger(ring: seq<Sample>, tsb: nat, j: nat, leap: nat)
    requires tsb > 0 && Ordered(ring) && Exposed(ring, tsb, j) && 0 < leap < SampleMs(ring, j) <= MaxMs(ring, tsb)
    ensures var k := SampleFor(ring, tsb, SampleMs(ring, j) - leap);
            if Stuck(ring, j, leap) then k == j else k > j
  {
    var target := SampleMs(ring, j) - leap;
    var k := SampleFor(ring, tsb, target);
    assert ring[j].time <= Back(ring).time - 1000 * target;
    assert j <= k;
  }

  /** Winding forward from sample `j`, from sample to sample, runs into a stuck one. */
  predicate Hangs(ring: seq<Sample>, tsb: nat, j: nat, leap: nat)
    requires tsb > 0 && Ordered(ring) && Exposed(ring, tsb, j) && leap > 0
    decreases |ring| - j
  {
    || Stuck(ring, j, leap)
    || (&& leap < SampleMs(ring, j) <= MaxMs(ring, tsb)
        && var k := SampleFor(ring, tsb, SampleMs(ring, j) - leap);
           k > j && Hangs(ring, tsb, k, leap))
  }

  /** Winding forward from an age does: the next tick lands on a sample from which it hangs. */
  predicate HangsFrom(ring: seq<Sample>, tsb: nat, age: nat, leap: nat)
    requires ring != [] && tsb > 0 && Ordered(ring) && leap > 0
  {
    leap < age <= MaxMs(ring, tsb) && Hangs(ring, tsb, SampleFor(ring, tsb, age - leap), leap)
  }

  /** A forward tick on fresh answers stops at the live point or lands on a sample. */
  lemma ForwardLands(s: TSB, cfg: Config)
    requires Winding(s, cfg) && Fresh(s, cfg) && s.speed >= 0
    ensures var ring, leap := s.ix.ring, Leap(s.speed);
            var age := AgeMs(ring, cfg.tsb, s.seek);
            var (r, stop) := Tick(s, cfg);
            && r.ix.ring == ring && stop == (age <= leap) && age <= MaxMs(ring, cfg.tsb)
            && (stop ==> r.seek == 0 && r.speed == 1)
            && (!stop ==> && r.speed == s.speed && Winding(r, cfg) && Fresh(r, cfg)
                          && AtSample(r, SampleFor(ring, cfg.tsb, age - leap)))
  {
    hide Tick, Ordered, Growing, AgeMs, MaxMs, Landing, Reported, Fresh, Settled, SampleFor, Leap;
    var ring := s.ix.ring;
    FreshTick(s, cfg);
    ReportedFresh(s, cfg);
    AgeWithinMax(ring, cfg.tsb, s.seek);
    LandingLive(ring, cfg.tsb);
    if !Arrives(s, cfg) {
      LandingSample(ring, cfg.tsb, Asked(s, cfg));
      SettledIsWinding(Tick(s, cfg).0, cfg);
      SettledIsFresh(Tick(s, cfg).0, cfg);
    }
  }

  lemma {:induction false} ForwardFrom(s: TSB, cfg: Config, j: nat, n: nat)
    requires Winding(s, cfg) && Fresh(s, cfg) && s.speed >= 0
    requires Exposed(s.ix.ring, cfg.tsb, j) && AtSample(s, j)
    ensures Hangs(s.ix.ring, cfg.tsb, j, Leap(s.speed)) ==> RunTrick(s, cfg, n).None?
    ensures !Hangs(s.ix.ring, cfg.tsb, j, Leap(s.speed)) && n >= |s.ix.ring| - j ==>
              var r := RunTrick(s, cfg, n); r.Some? && r.value.seek == 0 && r.value.speed == 1
    decreases n
  {
    hide Tick, Ordered, Growing, AgeMs, MaxMs, Fresh, SampleFor, SampleMs, Leap, Stuck;
    var ring, leap := s.ix.ring, Leap(s.speed);
    assert leap > 0 by { LeapIsPositive(s.speed); }
    ForwardLands(s, cfg);
    AgeOfSample(ring, cfg.tsb, j);
    if leap < SampleMs(ring, j) && n > 0 {
      SameOrYounger(ring, cfg.tsb, j, leap);
      ForwardFrom(Tick(s, cfg).0, cfg, SampleFor(ring, cfg.tsb, SampleMs(ring, j) - leap), n - 1);
    } else if n > 0 {
      NotStuckNear(ring, j, leap);
    }
  }

  lemma LeapIsPositive(speed: int)
    ensures Leap(speed) > 0
  {
  }

  lemma NotStuckNear(ring: seq<Sample>, j: nat, leap: nat)
    requires j < |ring| && Ordered(ring) && SampleMs(ring, j) <= leap
    ensures !Stuck(ring, j, leap)
  {
  }

  lemma ForwardFromAge(s: TSB, cfg: Config, n: nat)
    requires Winding(s, cfg) && Fresh(s, cfg) && s.speed >= 0
    ensures var hangs := HangsFrom(s.ix.ring, cfg.tsb, AgeMs(s.ix.ring, cfg.tsb, s.seek), Leap(s.speed));
            && (hangs ==> RunTrick(s, cfg, n).None?)
            && (!hangs && n > |s.ix.ring| ==>
                  var r := RunTrick(s, cfg, n); r.Some? && r.value.seek == 0 && r.value.speed == 1)
  {
    hide Tick, Ordered, Growing, AgeMs, MaxMs, Fresh, SampleFor, Leap, Hangs;
    var ring, leap := s.ix.ring, Leap(s.speed);
    assert leap > 0 by { LeapIsPositive(s.speed); }
    var age := AgeMs(ring, cfg.tsb, s.seek);
    ForwardLands(s, cfg);
    if leap < age && n > 0 {
      ForwardFrom(Tick(s, cfg).0, cfg, SampleFor(ring, cfg.tsb, age - leap), n - 1);
    }
  }

  /** Fast forward never ends: its first tick goes in a circle, or winding on from where it lands hangs. */
  predicate ForwardHangs(s: TSB, cfg: Config)
    requires cfg.Valid() && s.ix.ring != [] && Ordered(s.ix.ring)
  {
    && !Arrives(s, cfg)
    && (|| Circles(s, cfg)
        || HangsFrom(s.ix.ring, cfg.tsb, AgeMs(s.ix.ring, cfg.tsb, Found(s, cfg, Asked(s, cfg))), Leap(s.speed)))
  }

  /** Every fast forward either hangs and never stops, or reaches the live point with the speed back at 1. */
  lemma ForwardStopsExactly(s: TSB, cfg: Config)
    requires Winding(s, cfg) && s.speed >= 0
    ensures if ForwardHangs(s, cfg) then forall n :: RunTrick(s, cfg, n).None?
            else var r := RunTrick(s, cfg, |s.ix.ring| + 2); r.Some? && r.value.seek == 0 && r.value.speed == 1
  {
    if Arrives(s, cfg) {
      TickMeans(s, cfg);
      LandingLive(s.ix.ring, cfg.tsb);
      hide Tick, Ordered, Growing, ReportedUs, MaxMs, Landing, Circles, HangsFrom, AgeMs;
    } else if Circles(s, cfg) {
      hide Circles, Arrives, RunTrick;
      forall n: nat ensures RunTrick(s, cfg, n).None? { CirclesForEver(s, cfg, n); }
    } else {
      NextTick(s, cfg);
      LeavesMemory(s, cfg);
      hide Circles, Arrives, HangsFrom, Tick, Ordered, Growing, AgeMs, Found, Fresh, Asked;
      var r := Tick(s, cfg).0;
      forall n: nat ensures RunTrick(s, cfg, n + 1) == RunTrick(r, cfg, n) {}
      ForwardFromAge(r, cfg, |s.ix.ring| + 1);
      if HangsFrom(s.ix.ring, cfg.tsb, AgeMs(s.ix.ring, cfg.tsb, r.seek), Leap(s.speed)) {
        forall n: nat ensures RunTrick(s, cfg, n).None? {
          if n > 0 {
            ForwardFromAge(r, cfg, n - 1);
          }
        }
      }
    }
  }

  /** Of every reachable state: a fast forward ends if and only if, once pause time is spent, it does not
      hang. */
  lemma ForwardInRuns(actions: seq<Action>, cfg: Config)
    requires cfg.Valid() && Run(actions, cfg).Some?
    ensures var s := Run(actions, cfg).value;
            var b := Begin(s, cfg);
            s.speed >= 2 ==> if s.ix.ring == [] then Ends(s, cfg) else
              && b.ix.ring == s.ix.ring
              && (Ends(s, cfg) <==> EndsWithPause(s, cfg) || !ForwardHangs(b, cfg))
  {
    hide RunTrick, ForwardHangs, Run;
    var s := Run(actions, cfg).value;
    if s.ix.ring == [] && s.speed >= 2 {
      EmptyEnds(s, cfg);
    } else if s.speed >= 2 {
      BeginMeans(s, cfg);
      PauseIsSpentAtOnce(s, cfg);
      hide Begin, EndsWithPause, IndexInv, Growing;
      if !EndsWithPause(s, cfg) {
        ForwardStopsExactly(Begin(s, cfg), cfg);
      }
    }
  }

  /** Neighbouring exposed samples are less than a leap apart. */
  predicate Close(ring: seq<Sample>, tsb: nat, leap: nat) {
    forall i, j :: FrontIndex(ring, tsb) <= i && j == i + 1 < |ring| ==> ring[j].time - ring[i].time < 1000 * leap
  }

  lemma CloseNotStuck(ring: seq<Sample>, tsb: nat, j: nat, leap: nat)
    requires Ordered(ring) && Exposed(ring, tsb, j) && Close(ring, tsb, leap)
    ensures !Stuck(ring, j, leap)
  {
    if j + 1 < |ring| {
      assert ring[j + 1].time - ring[j].time < 1000 * leap;
    }
  }

  lemma {:induction false} CloseNeverHangs(ring: seq<Sample>, tsb: nat, j: nat, leap: nat)
    requires tsb > 0 && Ordered(ring) && Exposed(ring, tsb, j) && leap > 0 && Close(ring, tsb, leap)
    ensures !Hangs(ring, tsb, j, leap)
    decreases |ring| - j
  {
    CloseNotStuck(ring, tsb, j, leap);
    hide Close, Ordered, Stuck, SampleMs, SampleFor, MaxMs;
    if leap < SampleMs(ring, j) <= MaxMs(ring, tsb) {
      var k := SampleFor(ring, tsb, SampleMs(ring, j) - leap);
      if k > j {
        CloseNeverHangs(ring, tsb, k, leap);
      }
    }
  }

  /** Among close samples a seek forward by a leap lands younger. */
  lemma LandsYounger(ring: seq<Sample>, tsb: nat, ms: nat, leap: nat)
    requires ring != [] && tsb > 0 && Ordered(ring) && Growing(ring) && Close(ring, tsb, leap)
    requires 0 < ms <= MaxMs(ring, tsb)
    ensures AgeMs(ring, tsb, Landing(ring, tsb, ms)) < ms + leap
  {
    LandingSample(ring, tsb, ms);
    var k := SampleFor(ring, tsb, ms);
    AgeOfSample(ring, tsb, k);
    hide AgeMs, Landing, Ordered, Growing;
    assert ring[k + 1].time - ring[k].time < 1000 * leap;
  }

  /** With close samples fast forward, too, goes in a circle exactly when it is held back by memory. */
  lemma ForwardCirclesExactly(s: TSB, cfg: Config)
    requires Winding(s, cfg) && s.speed >= 0 && !Arrives(s, cfg) && Close(s.ix.ring, cfg.tsb, Leap(s.speed))
    ensures Circles(s, cfg) <==> HeldBack(s, cfg)
  {
    var ring, max := s.ix.ring, MaxMs(s.ix.ring, cfg.tsb);
    if max > 0 {
      LandsYounger(ring, cfg.tsb, Asked(s, cfg), Leap(s.speed));
    }
    LandingLive(ring, cfg.tsb);
    AgeLive(ring, cfg.tsb);
    AgeWithinMax(ring, cfg.tsb, Landing(ring, cfg.tsb, Asked(s, cfg)));
    AgeWithinMax(ring, cfg.tsb, s.seek);
    hide TimeForOffset, OffsetForTime, Ordered, Growing, Landing, MaxMs, Close;
  }

  lemma AgeLive(ring: seq<Sample>, tsb: nat)
    requires ring != [] && tsb > 0 && Ordered(ring)
    ensures AgeMs(ring, tsb, 0) == 0
  {
  }

  /** When neighbouring exposed samples are less than 1050 ms apart, a fast forward, at any speed and from
      any reachable state, ends if and only if, once pause time is spent, its first tick arrives or is not
      held back by what the index remembers. */
  lemma CloseForwardInRuns(actions: seq<Action>, cfg: Config)
    requires cfg.Valid() && Run(actions, cfg).Some?
    ensures var s := Run(actions, cfg).value;
            var b := Begin(s, cfg);
            s.ix.ring != [] && s.speed >= 2 && Close(s.ix.ring, cfg.tsb, 1050) ==>
              && b.ix.ring == s.ix.ring
              && (Ends(s, cfg) <==> EndsWithPause(s, cfg) || Arrives(b, cfg) || !HeldBack(b, cfg))
  {
    hide RunTrick, Arrives, HeldBack, Run, Circles, Close;
    var s := Run(actions, cfg).value;
    if s.ix.ring != [] && s.speed >= 2 && Close(s.ix.ring, cfg.tsb, 1050) {
      BeginMeans(s, cfg);
      PauseIsSpentAtOnce(s, cfg);
      hide Begin, EndsWithPause, IndexInv, Growing;
      if !EndsWithPause(s, cfg) {
        CloseForward(Begin(s, cfg), cfg);
      }
    }
  }

  /** Where it ends: at the live point, with the speed back at 1. */
  lemma CloseForward(s: TSB, cfg: Config)
    requires Winding(s, cfg) && s.speed >= 2 && Close(s.ix.ring, cfg.tsb, 1050)
    ensures if !Arrives(s, cfg) && HeldBack(s, cfg) then forall n :: RunTrick(s, cfg, n).None?
            else var r := RunTrick(s, cfg, |s.ix.ring| + 2); r.Some? && r.value.seek == 0 && r.value.speed == 1
  {
    hide RunTrick, Arrives, HeldBack, Circles, Ordered, Growing, Close, Hangs, AgeMs, Leap, Found, Asked, MaxMs;
    var ring, leap := s.ix.ring, Leap(s.speed);
    LeapAtLeast(s.speed);
    CloserIsClose(ring, cfg.tsb, 1050, leap);
    ForwardStopsExactly(s, cfg);
    if !Arrives(s, cfg) {
      ForwardCirclesExactly(s, cfg);
      var age := AgeMs(ring, cfg.tsb, Found(s, cfg, Asked(s, cfg)));
      if leap < age <= MaxMs(ring, cfg.tsb) {
        CloseNeverHangs(ring, cfg.tsb, SampleFor(ring, cfg.tsb, age - leap), leap);
      }
    }
  }

  lemma LeapAtLeast(speed: int)
    requires speed >= 2
    ensures Leap(speed) >= 1050
  {
  }

  lemma CloserIsClose(ring: seq<Sample>, tsb: nat, a: nat, b: nat)
    requires Close(ring, tsb, a) && a <= b
    ensures Close(ring, tsb, b)
  {
  }

  // ----- seeking by hand -----

  /** Of every reachable state: a seek within the range and the report that follows it, when neither is
      answered from memory, agree up to the gap between the two samples around the time sought. */
  lemma SeekThenAskInRuns(actions: seq<Action>, cfg: Config, s: TSB, ms: nat)
    requires cfg.Valid() && Run(actions, cfg) == Some(s)
    requires 0 < ms <= MaxMs(s.ix.ring, cfg.tsb) && ms * 1000 != s.ix.lastOffset.0
    ensures var r := SetSeek(s, cfg, ms).0;
            var j := SampleFor(s.ix.ring, cfg.tsb, ms);
            && r.ix.ring == s.ix.ring
            && (r.seek != s.ix.lastTime.0 ==>
                  var back := GetSeek(r, cfg).1;
                  ms <= back && 1000 * back < 1000 * ms + (s.ix.ring[j + 1].time - s.ix.ring[j].time))
  {
    hide Run;
    IndexGrows(s.ix, cfg, s.total);
    SeekThenAsk(s, cfg, ms);
  }

  lemma SeekThenAsk(s: TSB, cfg: Config, ms: nat)
    requires cfg.Valid() && s.ix.ring != [] && Ordered(s.ix.ring) && Growing(s.ix.ring)
    requires 0 < ms <= MaxMs(s.ix.ring, cfg.tsb) && ms * 1000 != s.ix.lastOffset.0
    ensures var r := SetSeek(s, cfg, ms).0;
            var j := SampleFor(s.ix.ring, cfg.tsb, ms);
            && r.ix.ring == s.ix.ring
            && (r.seek != s.ix.lastTime.0 ==>
                  var back := GetSeek(r, cfg).1;
                  ms <= back && 1000 * back < 1000 * ms + (s.ix.ring[j + 1].time - s.ix.ring[j].time))
  {
    hide SetSeek, GetSeek, Ordered, Growing, TimeForOffset, Landing, SampleFor, SizeInTime;
    var j := SampleFor(s.ix.ring, cfg.tsb, ms);
    SeekMeans(s, cfg, ms);
    var r := SetSeek(s, cfg, ms).0;
    AskMeans(r, cfg);
    LandingSample(s.ix.ring, cfg.tsb, ms);
    TimeOfSample(s.ix.ring, cfg.tsb, j);
  }
}

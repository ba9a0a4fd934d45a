/** How far back a seek can reach, and how far ahead a reader can get, in every run. */
module TimeShiftReach {
  import opened Options
  import opened TimeIndex
  import opened TimeShift

  /** The exposed bytes are one sampling step per exposed sample but the first. */
  lemma {:induction false} SpacedDistance(ring: seq<Sample>, step: nat, j: nat)
    requires Spaced(ring, step) && j < |ring|
    ensures Back(ring).bytes - ring[j].bytes == (|ring| - 1 - j) * step
    decreases |ring| - j
  {
    if j < |ring| - 1 {
      SpacedDistance(ring, step, j + 1);
      assert (|ring| - 1 - j) * step == (|ring| - 2 - j) * step + step;
    }
  }

  lemma SizeOfSpaced(ring: seq<Sample>, tsb: nat, step: nat)
    requires ring != [] && tsb > 0 && Ordered(ring) && Spaced(ring, step)
    ensures SizeInBytes(ring, tsb) == (IndexSize(ring, tsb) - 1) * step
  {
    SpacedDistance(ring, step, FrontIndex(ring, tsb));
  }

  /** What getBufferCapacityByteSize reports. */
  function CapacityInBytes(cfg: Config): int {
    (cfg.tsb - 1) * cfg.Step()
  }

  /** After any run the exposed index is at most as long as the reported capacity. */
  lemma IndexWithinCapacity(ix: Index, cfg: Config, total: nat)
    requires IndexInv(ix, cfg, total)
    ensures SizeInBytes(ix.ring, cfg.tsb) <= CapacityInBytes(cfg)
  {
    hide Ordered, Spaced;
    if ix.ring == [] {
      TimesMonotone(0, cfg.tsb - 1, 1);
      ProductBetween(cfg.Step(), 0, cfg.tsb - 1);
    } else {
      SizeOfSpaced(ix.ring, cfg.tsb, cfg.Step());
      ProductBetween(cfg.Step(), IndexSize(ix.ring, cfg.tsb) - 1, cfg.tsb - 1);
    }
  }

  /** After any run, no seek answered from the samples reaches back further than the reported capacity. */
  lemma FreshSeekWithinCapacity(s: TSB, cfg: Config, time: nat)
    requires Inv(s, cfg) && s.ix.ring != []
    ensures OffsetForTime(s.ix.ring, cfg.tsb, time).value <= CapacityInBytes(cfg)
  {
    hide Ordered, Spaced, OffsetForTime;
    OffsetForTimeBounded(s.ix.ring, cfg.tsb, time);
    IndexWithinCapacity(s.ix, cfg, s.total);
  }

  /** Registering never shortens the exposed index. */
  lemma RegisterNeverShortens(ix: Index, cfg: Config, now: nat, total: nat)
    requires IndexInv(ix, cfg, total) && (ix.ring != [] ==> Back(ix.ring).time <= now)
    ensures IndexInv(Register(ix, cfg, now, total + cfg.chunk), cfg, total + cfg.chunk)
    ensures SizeInBytes(ix.ring, cfg.tsb) <= SizeInBytes(Register(ix, cfg, now, total + cfg.chunk).ring, cfg.tsb)
  {
    hide Ordered, Spaced;
    var r := Register(ix, cfg, now, total + cfg.chunk);
    RegisterKeeps(ix, cfg, now, total);
    if ix.ring != [] {
      SizeOfSpaced(ix.ring, cfg.tsb, cfg.Step());
      SizeOfSpaced(r.ring, cfg.tsb, cfg.Step());
      ProductBetween(cfg.Step(), IndexSize(ix.ring, cfg.tsb) - 1, IndexSize(r.ring, cfg.tsb) - 1);
    }
  }

  /** With a pool of `tsbSize` chunks, a reader one capacity behind the live point leaves the whole tail
      and one sampling step of the pool between itself and the bytes that are overwritten next. */
  lemma CapacityLeavesTail(tsbSize: nat, tailSize: nat, ratio: nat, chunk: nat)
    requires tailSize <= tsbSize && ratio > 0 && (tsbSize - tailSize) / ratio > 0
    ensures var cfg := Configure(tsbSize, tailSize, ratio, chunk);
            CapacityInBytes(cfg) + (tailSize + ratio) * chunk <= tsbSize * chunk
  {
    var exposed := tsbSize - tailSize;
    var tsb := exposed / ratio;
    assert exposed == tsb * ratio + exposed % ratio;
    assert (tsb - 1) * ratio + ratio == tsb * ratio;
    var used := (tsb - 1) * ratio + (tailSize + ratio);
    assert used <= tsbSize;
    ProductBetween(chunk, used, tsbSize);
    assert (tsb - 1) * (ratio * chunk) == (tsb - 1) * ratio * chunk;
    assert used * chunk == (tsb - 1) * ratio * chunk + (tailSize + ratio) * chunk;
  }

  /** The plugin's own numbers: 218 chunks with a tail of 100, one sample in four. */
  lemma DefaultConfiguration(chunk: nat)
    requires chunk > 0
    ensures var cfg := Configure(218, 100, 4, chunk); cfg.Valid() && cfg.tsb == 29 && cfg.capacity == 54
  {
  }

  /** A seek stays within the exposed bytes exactly when it is not answered from a remembered offset that
      reaches further. */
  lemma SeekStaysExposedExactly(s: TSB, cfg: Config, ms: int)
    requires Inv(s, cfg) && s.ix.ring != []
    ensures SetSeek(s, cfg, ms).0.seek <= SizeInBytes(s.ix.ring, cfg.tsb) <==> !FarAnswer(s, cfg, ms)
  {
    SeekSucceedsExactly(s, cfg, ms);
    hide Ordered, Spaced, OffsetForTime;
    OffsetForTimeBounded(s.ix.ring, cfg.tsb, CutMs(s, cfg, ms) * 1000);
  }

  /** The seek is answered from memory, with an offset beyond the exposed bytes. */
  predicate FarAnswer(s: TSB, cfg: Config, ms: int)
    requires cfg.Valid() && Ordered(s.ix.ring)
  {
    && s.ix.ring != []
    && CutMs(s, cfg, ms) * 1000 == s.ix.lastOffset.0
    && s.ix.lastOffset.1 > SizeInBytes(s.ix.ring, cfg.tsb)
  }

  // ----- what a seek is bounded by -----

  /** Seek offset and remembered offset reach back at most `b` bytes. */
  predicate Reaches(s: TSB, b: int) {
    s.seek <= b && s.ix.lastOffset.1 <= b
  }

  /** The reader is not ahead of the live point. */
  predicate NotAhead(s: TSB) {
    s.reader.Some? ==> Position(s) <= s.total
  }

  lemma SetSeekReaches(s: TSB, cfg: Config, ms: int, b: int)
    requires Inv(s, cfg) && Reaches(s, b) && SizeInBytes(s.ix.ring, cfg.tsb) <= b
    ensures var r := SetSeek(s, cfg, ms).0; Inv(r, cfg) && r.ix.ring == s.ix.ring && Reaches(r, b)
  {
    SetSeekKeeps(s, cfg, ms);
    hide IndexInv, SizeInBytes, OffsetForTime, Ordered;
    IndexInvMeans(s.ix, cfg, s.total);
    if s.ix.ring != [] {
      OffsetForTimeBounded(s.ix.ring, cfg.tsb, CutMs(s, cfg, ms) * 1000);
    }
  }

  lemma TickReaches(s: TSB, cfg: Config, b: int)
    requires Inv(s, cfg) && Reaches(s, b) && SizeInBytes(s.ix.ring, cfg.tsb) <= b
    ensures var r := Tick(s, cfg).0; r.ix.ring == s.ix.ring && Reaches(r, b)
  {
    hide IndexInv, GetSeek, SetSeek, Tick, SizeInBytes;
    IndexInvMeans(s.ix, cfg, s.total);
    TickIsSeek(s, cfg);
    GetSeekKeeps(s, cfg);
    GetKeepsRing(s, cfg);
    SetSeekReaches(GetSeek(s, cfg).0, cfg, TickTarget(s, cfg), b);
  }

  lemma RegisterRemembers(ix: Index, cfg: Config, now: nat, bytes: nat)
    requires cfg.Valid()
    ensures Register(ix, cfg, now, bytes).lastOffset == ix.lastOffset
  {
  }

  /** A post bounds the seek offset by the exposed bytes or leaves it. */
  lemma PostReaches(s: TSB, cfg: Config, now: nat)
    requires Inv(s, cfg) && Allowed(s, DoPost(now))
    ensures var r := Do(s, cfg, DoPost(now));
            && Inv(r, cfg) && r.ix.lastOffset == s.ix.lastOffset
            && SizeInBytes(s.ix.ring, cfg.tsb) <= SizeInBytes(r.ix.ring, cfg.tsb)
            && (r.seek == s.seek || r.seek <= SizeInBytes(r.ix.ring, cfg.tsb))
  {
    hide IndexInv, SizeInBytes, Ordered, Register, PushBack, Tick, SetSeek, GetSeek, Reset;
    DoKeeps(s, cfg, DoPost(now));
    IndexInvMeans(s.ix, cfg, s.total);
    RegisterNeverShortens(s.ix, cfg, now, s.total);
    RegisterRemembers(s.ix, cfg, now, s.total + cfg.chunk);
  }

  lemma DoReaches(s: TSB, cfg: Config, a: Action)
    requires Inv(s, cfg) && Allowed(s, a) && Reaches(s, CapacityInBytes(cfg))
    ensures Reaches(Do(s, cfg, a), CapacityInBytes(cfg))
  {
    hide Register, Tick, SetSeek, Post, IndexInv, SizeInBytes, CapacityInBytes, TimeForOffset;
    IndexInvMeans(s.ix, cfg, s.total);
    var cap := CapacityInBytes(cfg);
    IndexWithinCapacity(s.ix, cfg, s.total);
    match a
    case DoPost(now) =>
      PostReaches(s, cfg, now);
      var r := Do(s, cfg, a);
      IndexWithinCapacity(r.ix, cfg, r.total);
    case DoSeek(ms) => SetSeekReaches(s, cfg, ms, cap);
    case AskSeek => GetKeepsRing(s, cfg);
    case DoTick => TickReaches(s, cfg, cap);
    case _ =>
  }

  /** In every run, over any number of channels, no seek reaches back further than the reported capacity. */
  lemma {:induction false} RunWithinCapacity(actions: seq<Action>, cfg: Config)
    requires cfg.Valid() && Run(actions, cfg).Some?
    ensures Reaches(Run(actions, cfg).value, CapacityInBytes(cfg))
  {
    hide Do, Inv, Allowed;
    if actions == [] {
      ProductBetween(cfg.Step(), 0, cfg.tsb - 1);
    } else {
      var n := |actions| - 1;
      RunWithinCapacity(actions[..n], cfg);
      DoReaches(Run(actions[..n], cfg).value, cfg, actions[n]);
    }
  }

  // ----- staying within the exposed bytes -----

  predicate Exposes(s: TSB, cfg: Config)
    requires cfg.Valid() && Ordered(s.ix.ring)
  {
    s.seek <= SizeInBytes(s.ix.ring, cfg.tsb)
  }

  /** The step is a seek, by hand or by trick play, that gets a far answer. */
  predicate ReachesTooFar(s: TSB, cfg: Config, a: Action)
    requires cfg.Valid() && Ordered(s.ix.ring)
  {
    || (a.DoSeek? && FarAnswer(s, cfg, a.ms))
    || (a.DoTick? && FarAnswer(s, cfg, TickTarget(s, cfg)))
  }

  lemma SeekExposedExactly(s: TSB, cfg: Config, ms: int)
    requires Inv(s, cfg) && Exposes(s, cfg)
    ensures Exposes(SetSeek(s, cfg, ms).0, cfg) <==> !FarAnswer(s, cfg, ms)
  {
    hide IndexInv, SizeInBytes, OffsetForTime, Ordered;
    IndexInvMeans(s.ix, cfg, s.total);
    SeekSucceedsExactly(s, cfg, ms);
    if s.ix.ring != [] {
      SeekStaysExposedExactly(s, cfg, ms);
    }
  }

  lemma TickExposedExactly(s: TSB, cfg: Config)
    requires Inv(s, cfg) && Exposes(s, cfg)
    ensures Ordered(Tick(s, cfg).0.ix.ring)
    ensures Exposes(Tick(s, cfg).0, cfg) <==> !FarAnswer(s, cfg, TickTarget(s, cfg))
  {
    hide IndexInv, SizeInBytes, SetSeek, Tick, FindTime, Ordered;
    IndexInvMeans(s.ix, cfg, s.total);
    TickIsSeek(s, cfg);
    TickKeeps(s, cfg);
    GetSeekKeeps(s, cfg);
    GetKeepsRing(s, cfg);
    var s1 := GetSeek(s, cfg).0;
    IndexInvMeans(Tick(s, cfg).0.ix, cfg, Tick(s, cfg).0.total);
    SetSeekKeeps(s1, cfg, TickTarget(s, cfg));
    SeekExposedExactly(s1, cfg, TickTarget(s, cfg));
  }

  lemma StepExposedExactly(s: TSB, cfg: Config, a: Action)
    requires Inv(s, cfg) && Allowed(s, a) && Exposes(s, cfg)
    ensures Inv(Do(s, cfg, a), cfg)
    ensures Exposes(Do(s, cfg, a), cfg) <==> !ReachesTooFar(s, cfg, a)
  {
    DoKeeps(s, cfg, a);
    hide IndexInv, SizeInBytes, SetSeek, Tick, Register, Post, FindTime, FarAnswer, TickTarget;
    IndexInvMeans(s.ix, cfg, s.total);
    match a
    case DoPost(now) => PostReaches(s, cfg, now);
    case DoSeek(ms) => SeekExposedExactly(s, cfg, ms);
    case AskSeek => GetKeepsRing(s, cfg);
    case DoTick => TickExposedExactly(s, cfg);
    case _ =>
  }

  /** After every action of the run the seek offset is within the exposed bytes. */
  ghost predicate AlwaysExposed(actions: seq<Action>, cfg: Config)
    requires cfg.Valid() && Run(actions, cfg).Some?
  {
    && Exposes(Run(actions, cfg).value, cfg)
    && (actions != [] ==> AlwaysExposed(actions[..|actions| - 1], cfg))
  }

  ghost predicate NoFarSeek(actions: seq<Action>, cfg: Config)
    requires cfg.Valid() && Run(actions, cfg).Some?
  {
    actions != [] ==>
      var n := |actions| - 1;
      NoFarSeek(actions[..n], cfg) && !ReachesTooFar(Run(actions[..n], cfg).value, cfg, actions[n])
  }

  /** In every run, over any number of channels, the seek offset stays within the exposed bytes throughout
      if and only if no seek is answered from a remembered offset that reaches further. */
  lemma {:induction false} AlwaysExposedExactly(actions: seq<Action>, cfg: Config)
    requires cfg.Valid() && Run(actions, cfg).Some?
    ensures AlwaysExposed(actions, cfg) <==> NoFarSeek(actions, cfg)
  {
    hide Do, Allowed, ReachesTooFar, IndexInv;
    if actions == [] {
      assert Exposes(START, cfg);
    } else {
      var n := |actions| - 1;
      AlwaysExposedExactly(actions[..n], cfg);
      var s := Run(actions[..n], cfg).value;
      IndexInvMeans(s.ix, cfg, s.total);
      if Exposes(s, cfg) {
        StepExposedExactly(s, cfg, actions[n]);
      }
    }
  }

  lemma DoReachesSize(s: TSB, cfg: Config, a: Action)
    requires Inv(s, cfg) && Allowed(s, a) && Reaches(s, SizeInBytes(s.ix.ring, cfg.tsb)) && a != EndOfStream
    ensures var r := Do(s, cfg, a); Inv(r, cfg) && Reaches(r, SizeInBytes(r.ix.ring, cfg.tsb))
  {
    hide Register, Tick, SetSeek, Post, IndexInv, SizeInBytes, TimeForOffset;
    IndexInvMeans(s.ix, cfg, s.total);
    DoKeeps(s, cfg, a);
    var size := SizeInBytes(s.ix.ring, cfg.tsb);
    match a
    case DoPost(now) => PostReaches(s, cfg, now);
    case DoSeek(ms) => SetSeekReaches(s, cfg, ms, size);
    case AskSeek => GetKeepsRing(s, cfg);
    case DoTick => TickReaches(s, cfg, size);
    case _ =>
  }

  /** Only an end of stream can leave a remembered offset behind that reaches further than the exposed
      bytes. */
  lemma {:induction false} MemoryIsLeftByEndOfStream(actions: seq<Action>, cfg: Config)
    requires cfg.Valid() && Run(actions, cfg).Some?
    ensures var s := Run(actions, cfg).value;
            EndOfStream in actions || Reaches(s, SizeInBytes(s.ix.ring, cfg.tsb))
  {
    hide Do, Inv, Allowed;
    if actions == [] {
      assert Reaches(START, SizeInBytes(START.ix.ring, cfg.tsb));
    } else {
      var n := |actions| - 1;
      MemoryIsLeftByEndOfStream(actions[..n], cfg);
      if EndOfStream !in actions {
        DoReachesSize(Run(actions[..n], cfg).value, cfg, actions[n]);
      }
    }
  }

  // ----- staying behind the live point -----

  /** A paused post that finds the reader so far ahead that cutting the seek offset to the exposed bytes
      puts the read position past the live point. */
  predicate Overruns(s: TSB, cfg: Config, a: Action)
    requires Inv(s, cfg) && Allowed(s, a)
  {
    && a.DoPost? && s.streaming && s.player == PAUSED && s.paused
    && var live := s.total + cfg.chunk;
       RegisterKeeps(s.ix, cfg, a.now, s.total);
       s.reader.value > live + SizeInBytes(Register(s.ix, cfg, a.now, live).ring, cfg.tsb)
  }

  lemma StepAheadExactly(s: TSB, cfg: Config, a: Action)
    requires Inv(s, cfg) && Allowed(s, a) && NotAhead(s)
    ensures NotAhead(Do(s, cfg, a)) <==> !Overruns(s, cfg, a)
  {
    DoKeeps(s, cfg, a);
    hide IndexInv, SizeInBytes, Register, FindOffset, FindTime, SizeInTime, Ordered;
    IndexInvMeans(s.ix, cfg, s.total);
    if a.DoTick? {
      TickNotAhead(s, cfg);
    }
    if a.AskSeek? {
      GetKeepsRing(s, cfg);
    }
    hide Tick, GetSeek;
  }

  lemma TickNotAhead(s: TSB, cfg: Config)
    requires cfg.Valid() && Ordered(s.ix.ring) && NotAhead(s)
    ensures NotAhead(Tick(s, cfg).0)
  {
    hide Tick, FindOffset, FindTime, SizeInTime, Ordered, TickTarget;
    TickIsSeek(s, cfg);
  }

  /** After every action of the run the reader is at or behind the live point. */
  ghost predicate NeverAhead(actions: seq<Action>, cfg: Config)
    requires cfg.Valid() && Run(actions, cfg).Some?
  {
    NotAhead(Run(actions, cfg).value) && (actions != [] ==> NeverAhead(actions[..|actions| - 1], cfg))
  }

  ghost predicate NoOverrun(actions: seq<Action>, cfg: Config)
    requires cfg.Valid() && Run(actions, cfg).Some?
  {
    actions != [] ==>
      var n := |actions| - 1;
      NoOverrun(actions[..n], cfg) && !Overruns(Run(actions[..n], cfg).value, cfg, actions[n])
  }

  /** In every run, over any number of channels, no read position is ahead of the live point at any time if
      and only if no paused post overruns. */
  lemma {:induction false} NeverAheadExactly(actions: seq<Action>, cfg: Config)
    requires cfg.Valid() && Run(actions, cfg).Some?
    ensures NeverAhead(actions, cfg) <==> NoOverrun(actions, cfg)
  {
    hide Do, Allowed, Inv, Overruns;
    if actions != [] {
      var n := |actions| - 1;
      NeverAheadExactly(actions[..n], cfg);
      var s := Run(actions[..n], cfg).value;
      if NotAhead(s) {
        StepAheadExactly(s, cfg, actions[n]);
      }
    }
  }

  /** A post overruns only after a seek beyond the exposed bytes. */
  lemma OverrunNeedsFarSeek(s: TSB, cfg: Config, a: Action)
    requires Inv(s, cfg) && Allowed(s, a) && NotAhead(s) && Overruns(s, cfg, a)
    ensures !Exposes(s, cfg)
  {
    hide IndexInv, SizeInBytes, Do, Ordered, Register;
    IndexInvMeans(s.ix, cfg, s.total);
    RegisterNeverShortens(s.ix, cfg, a.now, s.total);
  }

  /** In every run without a far seek, over any number of channels, no read position is ever ahead of the live
      point. */
  lemma NeverAheadWithoutFarSeek(actions: seq<Action>, cfg: Config)
    requires cfg.Valid() && Run(actions, cfg).Some? && NoFarSeek(actions, cfg)
    ensures NeverAhead(actions, cfg)
  {
    hide Run;
    AlwaysExposedExactly(actions, cfg);
    ExposedNeverOverruns(actions, cfg);
    NeverAheadExactly(actions, cfg);
  }

  lemma {:induction false} ExposedNeverOverruns(actions: seq<Action>, cfg: Config)
    requires cfg.Valid() && Run(actions, cfg).Some? && AlwaysExposed(actions, cfg)
    ensures NoOverrun(actions, cfg)
  {
    hide Do, Allowed, Inv, Overruns, Exposes;
    if actions != [] {
      var n := |actions| - 1;
      ExposedNeverOverruns(actions[..n], cfg);
      NeverAheadExactly(actions[..n], cfg);
      var s := Run(actions[..n], cfg).value;
      if Overruns(s, cfg, actions[n]) {
        OverrunNeedsFarSeek(s, cfg, actions[n]);
      }
    }
  }
}

/** The time-shift reader as functions on its state: the index with its remembered answers, the bytes
    posted so far, the seek offset, the reader's position and the player's state. */
module TimeShift {
  import opened Options
  import opened TimeIndex

  const TRICK_PLAY_RATE_MS := 350

  // ----- the index over time -----

  /** What the constructor fixes: sampling ratio, exposed samples, ring capacity, chunk size. */
  datatype Config = Config(ratio: nat, tsb: nat, capacity: nat, chunk: nat) {
    predicate Valid() {
      ratio > 0 && chunk > 0 && 0 < tsb <= capacity
    }

    /** Bytes between two samples. */
    function Step(): nat {
      ratio * chunk
    }
  }

  /** A pool of `tsbSize` chunks whose last `tailSize` are not exposed. */
  function Configure(tsbSize: nat, tailSize: nat, ratio: nat, chunk: nat): Config
    requires tailSize <= tsbSize && ratio > 0
  {
    Config(ratio, (tsbSize - tailSize) / ratio, tsbSize / ratio, chunk)
  }

  /** The ring, how many chunks were registered since it was cleared, and the last question and answer
      of each of the two lookups. */
  datatype Index = Index(count: nat, ring: seq<Sample>, lastOffset: (nat, nat), lastTime: (nat, nat))

  const EMPTY_INDEX := Index(0, [], (0, 0), (0, 0))

  /** push_back on a boost::circular_buffer: a full ring drops its oldest sample. */
  function PushBack(ring: seq<Sample>, capacity: nat, s: Sample): seq<Sample> {
    if capacity == 0 then ring
    else if |ring| >= capacity then ring[1..] + [s]
    else ring + [s]
  }

  function Register(ix: Index, cfg: Config, now: nat, bytes: nat): Index
    requires cfg.Valid()
  {
    if ix.count % cfg.ratio == 0
    then ix.(count := ix.count + 1, ring := PushBack(ix.ring, cfg.capacity, Sample(now, bytes)))
    else ix.(count := ix.count + 1)
  }

  /** getByteOffsetFromTimeUs: the last question is answered from memory. */
  function FindOffset(ix: Index, cfg: Config, time: nat): (Index, Answer)
    requires cfg.Valid() && Ordered(ix.ring)
  {
    if ix.ring == [] then (ix, Answer(BUF_EMPTY, 0))
    else if time == ix.lastOffset.0 then (ix, Answer(BUF_OK, ix.lastOffset.1))
    else
      var a := OffsetForTime(ix.ring, cfg.tsb, time);
      (ix.(lastOffset := (time, a.value)), a)
  }

  /** getTimeUsFromByteOffset: the last question is answered from memory. */
  function FindTime(ix: Index, cfg: Config, offset: nat): (Index, Answer)
    requires cfg.Valid() && Ordered(ix.ring)
  {
    if ix.ring == [] then (ix, Answer(BUF_EMPTY, 0))
    else if offset == ix.lastTime.0 then (ix, Answer(BUF_OK, ix.lastTime.1))
    else
      var a := TimeForOffset(ix.ring, cfg.tsb, offset);
      (ix.(lastTime := (offset, a.value)), a)
  }

  /** A repeated question gets the same answer but never the error code. */
  lemma RepeatedQuestionSucceeds(ix: Index, cfg: Config, time: nat)
    requires cfg.Valid() && Ordered(ix.ring) && ix.ring != []
    ensures var (ix', first) := FindOffset(ix, cfg, time);
            FindOffset(ix', cfg, time) == (ix', Answer(BUF_OK, first.value))
    ensures time != ix.lastOffset.0 && time != 0 && !InTimeRange(ix.ring, cfg.tsb, time)
            ==> FindOffset(ix, cfg, time).1.err == BUF_OUT_OF_RANGE
  {
  }

  /** The ring and the count go, the remembered answers stay. */
  function Clear(ix: Index): Index {
    ix.(count := 0, ring := [])
  }

  // ----- the reader -----

  datatype PlayerState = UNDEF | READY | PLAYING | PAUSED

  /** `total` counts the bytes posted since start-up, `reader` is the read offset of the one open handle,
      `pauseUs` the time accumulated while paused. */
  datatype TSB = TSB(ix: Index, total: nat, seek: nat, reader: Option<nat>, player: PlayerState,
                     paused: bool, speed: int, pauseUs: nat, streaming: bool)

  const START := TSB(EMPTY_INDEX, 0, 0, None, UNDEF, false, 1, 0, false)

  /** The paused branch of post reads the first handle without looking whether there is one. */
  predicate PostSafe(s: TSB) {
    s.streaming && s.player == PAUSED && s.paused ==> s.reader.Some?
  }

  function Post(s: TSB, cfg: Config, now: nat): TSB
    requires cfg.Valid() && PostSafe(s)
    requires Ordered(Register(s.ix, cfg, now, s.total + cfg.chunk).ring)
  {
    if !s.streaming then s
    else
      var total := s.total + cfg.chunk;
      var ix := Register(s.ix, cfg, now, total);
      if s.player == PAUSED && s.paused then
        var read := s.reader.value;
        var delta := if total > read then total - read else 0;
        var max := SizeInBytes(ix.ring, cfg.tsb);
        var seek := s.seek + delta;
        s.(ix := ix, total := total, reader := Some(read + delta), seek := if max < seek then max else seek)
      else s.(ix := ix, total := total)
  }

  function MaxSeekMs(s: TSB, cfg: Config): nat
    requires cfg.Valid() && Ordered(s.ix.ring)
  {
    SizeInTime(s.ix.ring, cfg.tsb) / 1000
  }

  /** Out-of-range times, among them negative ones, are cut to the oldest position. */
  function CutMs(s: TSB, cfg: Config, ms: int): nat
    requires cfg.Valid() && Ordered(s.ix.ring)
  {
    if ms < 0 || ms > MaxSeekMs(s, cfg) then MaxSeekMs(s, cfg) else ms
  }

  /** setSeekTime. */
  function SetSeek(s: TSB, cfg: Config, ms: int): (TSB, bool)
    requires cfg.Valid() && Ordered(s.ix.ring)
  {
    var (ix, a) := FindOffset(s.ix, cfg, CutMs(s, cfg, ms) * 1000);
    if a.err != BUF_OK then (s.(ix := ix), false)
    else
      (s.(ix := ix, seek := a.value, pauseUs := 0, reader := if s.reader.Some? then Some(s.total) else None), true)
  }

  /** getSeekTime, in milliseconds. */
  function GetSeek(s: TSB, cfg: Config): (TSB, nat)
    requires cfg.Valid() && Ordered(s.ix.ring)
  {
    var (ix, a) := FindTime(s.ix, cfg, s.seek);
    (s.(ix := ix), (a.value + s.pauseUs) / 1000)
  }

  /** Where the next read starts. */
  function Position(s: TSB): int
    requires s.reader.Some?
  {
    s.reader.value - s.seek
  }

  /** readData, for which the pool has `n` bytes; a new handle starts at the live point. */
  function Read(s: TSB, n: nat): TSB {
    s.(reader := Some((if s.reader.Some? then s.reader.value else s.total) + n))
  }

  function Reset(s: TSB): TSB {
    s.(reader := if s.seek != 0 && s.reader.Some? then Some(s.total) else s.reader,
       seek := 0, speed := 1, ix := Clear(s.ix), pauseUs := 0, paused := false)
  }

  /** updateTrickPlayPosition; the second result says whether trick play stops. */
  function Tick(s: TSB, cfg: Config): (TSB, bool)
    requires cfg.Valid() && Ordered(s.ix.ring)
  {
    var (s1, current) := GetSeek(s, cfg);
    if s.speed == 1 then (SetSeek(s1, cfg, current).0, true)
    else
      var delta := TRICK_PLAY_RATE_MS * s.speed;
      if delta < 0 then
        var target := current - delta + TRICK_PLAY_RATE_MS;
        if target < MaxSeekMs(s1, cfg) then (SetSeek(s1, cfg, target).0, false)
        else (SetSeek(s1, cfg, target).0.(speed := 1), true)
      else
        var target := current - delta - TRICK_PLAY_RATE_MS;
        if target > 0 then (SetSeek(s1, cfg, target).0, false)
        else (SetSeek(s1, cfg, 0).0.(speed := 1), true)
  }

  /** What a tick seeks: a rate step per unit of speed and one more for the live data that came meanwhile,
      forward not past the live point. */
  function TickTarget(s: TSB, cfg: Config): int
    requires cfg.Valid() && Ordered(s.ix.ring)
  {
    var current := GetSeek(s, cfg).1;
    if s.speed == 1 then current
    else if s.speed < 0 then current - TRICK_PLAY_RATE_MS * s.speed + TRICK_PLAY_RATE_MS
    else
      var target := current - TRICK_PLAY_RATE_MS * s.speed - TRICK_PLAY_RATE_MS;
      if target > 0 then target else 0
  }

  /** A tick is a seek from the reported time; at its end trick play is over or goes on. */
  lemma TickIsSeek(s: TSB, cfg: Config)
    requires cfg.Valid() && Ordered(s.ix.ring)
    ensures var (r, stop) := Tick(s, cfg);
            && GetSeek(s, cfg).0.ix.ring == s.ix.ring
            && r == SetSeek(GetSeek(s, cfg).0, cfg, TickTarget(s, cfg)).0.(speed := if stop then 1 else s.speed)
            && stop == (|| s.speed == 1
                        || (s.speed < 0 && TickTarget(s, cfg) >= MaxSeekMs(s, cfg))
                        || (s.speed >= 0 && TickTarget(s, cfg) == 0))
  {
    hide FindOffset, FindTime, Ordered, SizeInTime;
    GetKeepsRing(s, cfg);
  }

  lemma GetKeepsRing(s: TSB, cfg: Config)
    requires cfg.Valid() && Ordered(s.ix.ring)
    ensures GetSeek(s, cfg).0 == s.(ix := s.ix.(lastTime := GetSeek(s, cfg).0.ix.lastTime))
  {
    hide TimeForOffset, Ordered;
  }

  function SetPlayer(s: TSB, p: PlayerState): TSB {
    match p
    case PLAYING => s.(player := PLAYING, paused := false)
    case PAUSED => s.(player := PAUSED)
    case _ => s
  }

  /** A seek fails only on an empty index: the cut to the oldest position comes first, so that the lookup
      never sees a time out of range. */
  lemma SeekSucceedsExactly(s: TSB, cfg: Config, ms: int)
    requires cfg.Valid() && Ordered(s.ix.ring)
    ensures SetSeek(s, cfg, ms).1 <==> s.ix.ring != []
    ensures s.ix.ring != [] ==> FindOffset(s.ix, cfg, CutMs(s, cfg, ms) * 1000).1.err == BUF_OK
  {
    if s.ix.ring != [] {
      InRangeIsOk(s.ix.ring, cfg.tsb, CutMs(s, cfg, ms) * 1000);
    }
    hide OffsetForTime, Ordered;
  }

  lemma InRangeIsOk(ring: seq<Sample>, tsb: nat, time: nat)
    requires ring != [] && tsb > 0 && Ordered(ring) && time <= SizeInTime(ring, tsb)
    ensures OffsetForTime(ring, tsb, time).err == BUF_OK
  {
    hide Segment, InterpolatedIndex;
  }

  // ----- runs -----

  datatype Action =
    | DoPost(now: nat)
    | DoSeek(ms: int)
    | AskSeek
    | DoTick
    | DoRead(n: nat)
    | CloseReader
    | DoSetPlayer(p: PlayerState)
    | DoSetSpeed(speed: int)
    | Watchdog(expired: bool)
    | PauseClock(us: nat)
    | EndOfStream
    | Open

  /** What the surroundings guarantee: time does not go backwards, a paused player has its handle open, the
      pool hands out bytes it has, and pause time accrues only in posts, behind a registration. */
  predicate Allowed(s: TSB, a: Action) {
    match a
    case DoPost(now) => PostSafe(s) && (s.ix.ring != [] ==> Back(s.ix.ring).time <= now)
    case DoRead(n) => n == 0 || (if s.reader.Some? then Position(s) else s.total - s.seek) + n <= s.total
    case PauseClock(us) => us == 0 || s.ix.ring != []
    case _ => true
  }

  function Do(s: TSB, cfg: Config, a: Action): TSB
    requires Inv(s, cfg) && Allowed(s, a)
  {
    match a
    case DoPost(now) =>
      RegisterKeeps(s.ix, cfg, now, s.total);
      Post(s, cfg, now)
    case DoSeek(ms) => SetSeek(s, cfg, ms).0
    case AskSeek => GetSeek(s, cfg).0
    case DoTick => Tick(s, cfg).0
    case DoRead(n) => Read(s, n)
    case CloseReader => s.(reader := None)
    case DoSetPlayer(p) => SetPlayer(s, p)
    case DoSetSpeed(speed) => if speed != 0 && speed != s.speed then s.(speed := speed) else s
    case Watchdog(expired) => s.(paused := expired)
    case PauseClock(us) => s.(pauseUs := us)
    case EndOfStream => Reset(s.(streaming := false))
    case Open => s.(streaming := true)
  }

  // ----- what every step keeps -----

  /** Consecutive samples are one sampling step apart. */
  ghost predicate Spaced(ring: seq<Sample>, step: nat) {
    forall i, j :: 0 <= i < j < |ring| && j == i + 1 ==> ring[j].bytes == ring[i].bytes + step
  }

  /** The index covers the last bytes posted: the newest sample is as many chunks back as were registered
      since. */
  ghost predicate IndexInv(ix: Index, cfg: Config, total: nat) {
    && cfg.Valid()
    && Ordered(ix.ring) && Spaced(ix.ring, cfg.Step()) && |ix.ring| <= cfg.capacity
    && (ix.ring == [] <==> ix.count == 0)
    && (ix.ring != [] ==> Back(ix.ring).bytes + ((ix.count - 1) % cfg.ratio) * cfg.chunk == total)
    && ix.lastOffset.1 <= total
    && (ix.lastOffset.0 == 0 ==> ix.lastOffset.1 == 0)
  }

  /** The seek offset never exceeds the read offset it is subtracted from, nor the bytes posted; there is
      pause time only with samples. */
  ghost predicate Inv(s: TSB, cfg: Config) {
    && IndexInv(s.ix, cfg, s.total)
    && s.seek <= s.total
    && (s.reader.Some? ==> s.seek <= s.reader.value)
    && (s.ix.ring == [] ==> s.pauseUs == 0)
  }

  lemma PushKeepsSpacing(ring: seq<Sample>, capacity: nat, s: Sample, step: nat)
    requires capacity > 0 && |ring| <= capacity && Ordered(ring) && Spaced(ring, step)
    requires ring != [] ==> Back(ring).time <= s.time && Back(ring).bytes + step == s.bytes
    ensures var r := PushBack(ring, capacity, s);
            && Ordered(r) && Spaced(r, step) && 0 < |r| <= capacity && Back(r) == s
  {
    var kept := if |ring| >= capacity then ring[1..] else ring;
    assert PushBack(ring, capacity, s) == kept + [s];
    if kept != [] {
      assert Back(kept) == Back(ring);
    }
    AppendKeepsOrder(kept, s);
    AppendKeepsSpacing(kept, s, step);
  }

  lemma AppendKeepsOrder(ring: seq<Sample>, s: Sample)
    requires Ordered(ring)
    requires ring != [] ==> Back(ring).time <= s.time && Back(ring).bytes <= s.bytes
    ensures Ordered(ring + [s])
  {
    forall i | 0 <= i < |ring| ensures ring[i].time <= s.time && ring[i].bytes <= s.bytes {
      KeysAscend(ring, ByTime, i, |ring| - 1);
      KeysAscend(ring, ByBytes, i, |ring| - 1);
    }
  }

  lemma AppendKeepsSpacing(ring: seq<Sample>, s: Sample, step: nat)
    requires Spaced(ring, step) && (ring != [] ==> Back(ring).bytes + step == s.bytes)
    ensures Spaced(ring + [s], step)
  {
  }

  /** Registrations since the newest sample, modulo the sampling ratio. */
  lemma PhaseAdvances(count: nat, ratio: nat)
    requires count > 0 && ratio > 0
    ensures count % ratio == 0 ==> (count - 1) % ratio == ratio - 1
    ensures count % ratio != 0 ==> count % ratio == (count - 1) % ratio + 1
  {
    var q, r := (count - 1) / ratio, (count - 1) % ratio;
    assert count - 1 == q * ratio + r;
    if r == ratio - 1 {
      assert count == (q + 1) * ratio + 0;
      RemainderIs(q + 1, ratio, 0);
    } else {
      assert count == q * ratio + (r + 1);
      RemainderIs(q, ratio, r + 1);
    }
  }

  lemma RemainderIs(q: int, d: int, r: int)
    requires d > 0 && 0 <= r < d
    ensures (q * d + r) % d == r
  {
    DivideExactly(q, d, r);
    var x := q * d + r;
    assert x == x / d * d + x % d;
  }

  /** A registration keeps the index in step with the bytes posted. */
  lemma RegisterKeeps(ix: Index, cfg: Config, now: nat, total: nat)
    requires IndexInv(ix, cfg, total) && (ix.ring != [] ==> Back(ix.ring).time <= now)
    ensures IndexInv(Register(ix, cfg, now, total + cfg.chunk), cfg, total + cfg.chunk)
  {
    hide Ordered, Spaced, PushBack;
    var r := Register(ix, cfg, now, total + cfg.chunk);
    if ix.count == 0 {
      FirstSample(cfg, Sample(now, total + cfg.chunk));
      RemainderIs(0, cfg.ratio, 0);
    } else {
      PhaseAdvances(ix.count, cfg.ratio);
      var phase := (ix.count - 1) % cfg.ratio;
      assert (phase + 1) * cfg.chunk == phase * cfg.chunk + cfg.chunk;
      if ix.count % cfg.ratio == 0 {
        assert Back(ix.ring).bytes + cfg.Step() == total + cfg.chunk;
        PushKeepsSpacing(ix.ring, cfg.capacity, Sample(now, total + cfg.chunk), cfg.Step());
      }
    }
  }

  lemma FirstSample(cfg: Config, s: Sample)
    requires cfg.Valid()
    ensures PushBack([], cfg.capacity, s) == [s] && Ordered([s]) && Spaced([s], cfg.Step())
  {
  }

  // ----- positions -----

  lemma OffsetsStayBehind(ix: Index, cfg: Config, total: nat, time: nat)
    requires IndexInv(ix, cfg, total)
    ensures var (ix', a) := FindOffset(ix, cfg, time); IndexInv(ix', cfg, total) && a.value <= total
  {
    hide Spaced, Ordered, OffsetForTime;
    if ix.ring != [] {
      ProductBetween(cfg.chunk, 0, (ix.count - 1) % cfg.ratio);
      OffsetForTimeBounded(ix.ring, cfg.tsb, time);
    }
  }

  lemma TimeKeepsIndex(ix: Index, cfg: Config, total: nat, offset: nat)
    requires IndexInv(ix, cfg, total)
    ensures IndexInv(FindTime(ix, cfg, offset).0, cfg, total)
  {
    hide Spaced, Ordered;
  }

  /** Lookups leave the ring alone, and registering does not empty it. */
  lemma RingStays(ix: Index, cfg: Config, x: nat, now: nat)
    requires cfg.Valid() && Ordered(ix.ring)
    ensures FindOffset(ix, cfg, x).0.ring == ix.ring && FindTime(ix, cfg, x).0.ring == ix.ring
    ensures Register(ix, cfg, now, x).ring == [] ==> ix.ring == []
  {
    hide Ordered, OffsetForTime, TimeForOffset;
  }

  lemma SetSeekKeeps(s: TSB, cfg: Config, ms: int)
    requires Inv(s, cfg)
    ensures Inv(SetSeek(s, cfg, ms).0, cfg)
  {
    hide IndexInv, FindOffset;
    assert cfg.Valid() && Ordered(s.ix.ring) by { IndexInvMeans(s.ix, cfg, s.total); }
    OffsetsStayBehind(s.ix, cfg, s.total, CutMs(s, cfg, ms) * 1000);
    RingStays(s.ix, cfg, CutMs(s, cfg, ms) * 1000, 0);
  }

  lemma IndexInvMeans(ix: Index, cfg: Config, total: nat)
    requires IndexInv(ix, cfg, total)
    ensures cfg.Valid() && Ordered(ix.ring)
  {
  }

  lemma GetSeekKeeps(s: TSB, cfg: Config)
    requires Inv(s, cfg)
    ensures Inv(GetSeek(s, cfg).0, cfg)
  {
    hide IndexInv, FindTime;
    IndexInvMeans(s.ix, cfg, s.total);
    TimeKeepsIndex(s.ix, cfg, s.total, s.seek);
    RingStays(s.ix, cfg, s.seek, 0);
  }

  lemma TickKeeps(s: TSB, cfg: Config)
    requires Inv(s, cfg)
    ensures Inv(Tick(s, cfg).0, cfg)
  {
    hide IndexInv, GetSeek, SetSeek, MaxSeekMs;
    IndexInvMeans(s.ix, cfg, s.total);
    GetSeekKeeps(s, cfg);
    var (s1, current) := GetSeek(s, cfg);
    IndexInvMeans(s1.ix, cfg, s1.total);
    var d := TRICK_PLAY_RATE_MS * s.speed;
    SetSeekKeeps(s1, cfg, current);
    SetSeekKeeps(s1, cfg, current - d + TRICK_PLAY_RATE_MS);
    SetSeekKeeps(s1, cfg, current - d - TRICK_PLAY_RATE_MS);
    SetSeekKeeps(s1, cfg, 0);
  }

  lemma PostKeeps(s: TSB, cfg: Config, now: nat)
    requires Inv(s, cfg) && Allowed(s, DoPost(now))
    ensures Ordered(Register(s.ix, cfg, now, s.total + cfg.chunk).ring)
    ensures Inv(Post(s, cfg, now), cfg)
  {
    hide Register, IndexInv, SizeInBytes, Ordered;
    RegisterKeeps(s.ix, cfg, now, s.total);
    IndexInvMeans(s.ix, cfg, s.total);
    RingStays(s.ix, cfg, s.total + cfg.chunk, now);
    IndexInvMeans(Register(s.ix, cfg, now, s.total + cfg.chunk), cfg, s.total + cfg.chunk);
  }

  /** While paused, a post keeps the reader where it is, unless the bytes there leave the exposed index:
      then the reader is moved forward to the oldest exposed byte. */
  lemma PausedPostHolds(s: TSB, cfg: Config, now: nat)
    requires Inv(s, cfg) && Allowed(s, DoPost(now))
    requires s.streaming && s.player == PAUSED && s.paused
    ensures Ordered(Register(s.ix, cfg, now, s.total + cfg.chunk).ring)
    ensures var r := Post(s, cfg, now);
            && r.reader.Some?
            && var oldest := r.reader.value - SizeInBytes(r.ix.ring, cfg.tsb);
               Position(r) == (if Position(s) >= oldest then Position(s) else oldest)
  {
    PostKeeps(s, cfg, now);
    hide Register, IndexInv, SizeInBytes, Ordered;
  }

  lemma DoKeeps(s: TSB, cfg: Config, a: Action)
    requires Inv(s, cfg) && Allowed(s, a)
    ensures Inv(Do(s, cfg, a), cfg)
  {
    hide Register, Tick, SetSeek, GetSeek, Post, IndexInv;
    IndexInvMeans(s.ix, cfg, s.total);
    match a
    case DoPost(now) => PostKeeps(s, cfg, now);
    case DoSeek(ms) => SetSeekKeeps(s, cfg, ms);
    case AskSeek => GetSeekKeeps(s, cfg);
    case DoTick => TickKeeps(s, cfg);
    case EndOfStream => ClearKeeps(s.ix, cfg, s.total);
    case _ =>
  }

  lemma ClearKeeps(ix: Index, cfg: Config, total: nat)
    requires IndexInv(ix, cfg, total)
    ensures IndexInv(Clear(ix), cfg, total)
  {
  }

  function Run(actions: seq<Action>, cfg: Config): (r: Option<TSB>)
    requires cfg.Valid()
    ensures r.Some? ==> Inv(r.value, cfg)
  {
    if actions == [] then Some(START)
    else
      var n := |actions| - 1;
      match Run(actions[..n], cfg)
      case None => None
      case Some(s) => if Allowed(s, actions[n]) then DoKeeps(s, cfg, actions[n]); Some(Do(s, cfg, actions[n])) else None
  }

  /** In every reachable index the byte counts grow from sample to sample. */
  lemma IndexGrows(ix: Index, cfg: Config, total: nat)
    requires IndexInv(ix, cfg, total)
    ensures Growing(ix.ring)
  {
    var ring, step := ix.ring, cfg.Step();
    assert step > 0 by { ProductBetween(cfg.chunk, 1, cfg.ratio); }
    forall i, j | 0 <= i < j < |ring| ensures ring[i].bytes < ring[j].bytes {
      assert ring[i + 1].bytes == ring[i].bytes + step;
      KeysAscend(ring, ByBytes, i + 1, j);
    }
  }
}

/** The indexer and the time-shift reader as they run: objects whose methods update their fields. */
module TimeShiftConsumer {
  import opened Options
  import opened TimeIndex
  import opened TimeShift

  /** The bisection of std::upper_bound as it runs: half the range at a time, until nothing is left. */
  method FindUpperBound(ring: seq<Sample>, k: Key, start: nat, target: nat) returns (first: nat)
    requires start <= |ring| && Ordered(ring)
    ensures first == FirstAbove(ring, k, start, target) == UpperBound(ring, k, start, |ring| - start, target)
  {
    hide Ordered, KeyOf, FirstAbove, UpperBound;
    BisectionIsScan(ring, k, start, target);
    first := start;
    var len: nat := |ring| - start;
    ghost var found := UpperBound(ring, k, start, len, target);
    while len > 0
      invariant first + len <= |ring| && UpperBound(ring, k, first, len, target) == found
      decreases len
    {
      UpperBoundStep(ring, k, first, len, target);
      var half := len / 2;
      var middle := first + half;
      if target < KeyOf(k, ring[middle]) {
        len := half;
      } else {
        first := middle + 1;
        len := len - half - 1;
      }
    }
  }

  /** The search for a byte offset: what the last sample up to the target holds. The iterator never is the
      end of the ring. */
  method SearchOffset(ring: seq<Sample>, tsb: nat, time: nat) returns (a: Answer)
    requires ring != [] && tsb > 0 && Ordered(ring) && InTimeRange(ring, tsb, time)
    ensures a == OffsetForTime(ring, tsb, time)
    ensures a == ScannedOffset(ring, tsb, time)
  {
    hide OffsetForTime, UpperBound, FirstAbove, Ordered, InterpolatedIndex;
    ghost var j := OffsetIsLastSample(ring, tsb, time);
    BackIsLast(ring, j);
    var i := FindUpperBound(ring, ByTime, FrontIndex(ring, tsb), Back(ring).time - time);
    if i == |ring| {
      assert false;
    }
    var gap, past := ring[i].time - ring[i - 1].time, time - (Back(ring).time - ring[i].time);
    InterpolationLands(i, gap, past);
    a := Answer(BUF_OK, Back(ring).bytes - ring[InterpolatedIndex(i, gap, past)].bytes);
  }

  /** The search for a time: interpolated between the last sample up to the target and the next one. */
  method SearchTime(ring: seq<Sample>, tsb: nat, byteOffset: nat) returns (a: Answer)
    requires ring != [] && tsb > 0 && Ordered(ring) && 0 < byteOffset <= SizeInBytes(ring, tsb)
    ensures a == TimeForOffset(ring, tsb, byteOffset)
    ensures a == ScannedTime(ring, tsb, byteOffset)
  {
    hide UpperBound, Ordered, TimeAt;
    var target := Back(ring).bytes - byteOffset;
    SegmentExists(ring, ByBytes, FrontIndex(ring, tsb), target);
    var i := FindUpperBound(ring, ByBytes, FrontIndex(ring, tsb), target);
    if i == |ring| {
      assert false;
    }
    TimeAtInside(ring, i, target);
    BackIsLast(ring, i);
    a := Answer(BUF_OK, Back(ring).time - TimeAt(ring, i, target));
  }

  class BufferIndexer {
    const cfg: Config
    var mBufferCount: nat
    var mBufInd: seq<Sample>
    var mLastByteOffsetFromTimeUs: (nat, nat)
    var mLastTimeUsFromByteOffset: (nat, nat)

    ghost function View(): Index
      reads this
    {
      Index(mBufferCount, mBufInd, mLastByteOffsetFromTimeUs, mLastTimeUsFromByteOffset)
    }

    ghost predicate Valid()
      reads this
    {
      cfg.Valid() && Ordered(mBufInd)
    }

    constructor (tsbSize: nat, tailSize: nat, ratio: nat, chunk: nat)
      requires tailSize <= tsbSize && ratio > 0 && chunk > 0 && (tsbSize - tailSize) / ratio > 0
      ensures Valid() && View() == EMPTY_INDEX && cfg == Configure(tsbSize, tailSize, ratio, chunk)
    {
      DivideMonotone(tsbSize - tailSize, tsbSize, ratio);
      cfg := Configure(tsbSize, tailSize, ratio, chunk);
      mBufferCount, mBufInd := 0, [];
      mLastByteOffsetFromTimeUs, mLastTimeUsFromByteOffset := (0, 0), (0, 0);
    }

    /** Neither the clock nor the byte count may go backwards. */
    method RegisterBufferCount(bufferCount: nat, now: nat) returns (registered: bool, size: nat)
      requires Valid()
      requires mBufInd != [] ==> Back(mBufInd).time <= now && Back(mBufInd).bytes <= bufferCount
      modifies this
      ensures Valid() && View() == Register(old(View()), cfg, now, bufferCount)
      ensures registered <==> old(mBufferCount) % cfg.ratio == 0
      ensures size == |mBufInd|
    {
      registered := mBufferCount % cfg.ratio == 0;
      mBufferCount := mBufferCount + 1;
      if registered {
        var kept := if |mBufInd| >= cfg.capacity then mBufInd[1..] else mBufInd;
        assert kept != [] ==> Back(kept) == Back(mBufInd);
        AppendKeepsOrder(kept, Sample(now, bufferCount));
        mBufInd := kept + [Sample(now, bufferCount)];
      }
      size := |mBufInd|;
    }

    /** A time within the range that was not the last one asked for gives the offset of the last exposed
        sample that is old enough. */
    method GetByteOffsetFromTimeUs(time: nat) returns (a: Answer)
      requires Valid()
      modifies this
      ensures Valid() && (View(), a) == FindOffset(old(View()), cfg, time) && mBufInd == old(mBufInd)
      ensures mBufInd != [] && time != old(mLastByteOffsetFromTimeUs.0) && InTimeRange(mBufInd, cfg.tsb, time) ==>
                a == ScannedOffset(mBufInd, cfg.tsb, time)
    {
      hide Ordered, Segment, InterpolatedIndex, ScannedOffset;
      if mBufInd == [] {
        return Answer(BUF_EMPTY, 0);
      }
      if time == mLastByteOffsetFromTimeUs.0 {
        return Answer(BUF_OK, mLastByteOffsetFromTimeUs.1);
      }
      var front, back := Front(mBufInd, cfg.tsb), Back(mBufInd);
      BackIsLast(mBufInd, FrontIndex(mBufInd, cfg.tsb));
      if time == 0 {
        a := Answer(BUF_OK, 0);
      } else if front.time + time > back.time {
        a := Answer(BUF_OUT_OF_RANGE, back.bytes - front.bytes);
      } else {
        a := SearchOffset(mBufInd, cfg.tsb, time);
      }
      mLastByteOffsetFromTimeUs := (time, a.value);
    }

    /** An exposed offset that was not the last one asked for gives the age interpolated between the two
        samples around it. */
    method GetTimeUsFromByteOffset(byteOffset: nat) returns (a: Answer)
      requires Valid()
      modifies this
      ensures Valid() && (View(), a) == FindTime(old(View()), cfg, byteOffset) && mBufInd == old(mBufInd)
      ensures && mBufInd != [] && byteOffset != old(mLastTimeUsFromByteOffset.0)
              && 0 < byteOffset <= SizeInBytes(mBufInd, cfg.tsb) ==>
                a == ScannedTime(mBufInd, cfg.tsb, byteOffset)
    {
      hide Ordered, Segment, TimeAt, ScannedTime;
      if mBufInd == [] {
        return Answer(BUF_EMPTY, 0);
      }
      if byteOffset == mLastTimeUsFromByteOffset.0 {
        return Answer(BUF_OK, mLastTimeUsFromByteOffset.1);
      }
      var front, back := Front(mBufInd, cfg.tsb), Back(mBufInd);
      BackIsLast(mBufInd, FrontIndex(mBufInd, cfg.tsb));
      if byteOffset == 0 {
        a := Answer(BUF_OK, 0);
      } else if front.bytes + byteOffset > back.bytes {
        a := Answer(BUF_OUT_OF_RANGE, back.time - front.time);
      } else {
        a := SearchTime(mBufInd, cfg.tsb, byteOffset);
      }
      mLastTimeUsFromByteOffset := (byteOffset, a.value);
    }

    method GetTimestampUsForByteIndex(byteIndex: nat) returns (a: Answer)
      requires Valid()
      ensures a == TimestampForIndex(mBufInd, byteIndex)
    {
      hide UpperBound, Ordered, TimeAt, FirstAbove;
      if mBufInd == [] {
        return Answer(BUF_EMPTY, 0);
      }
      if mBufInd[0].bytes >= byteIndex {
        return Answer(if mBufInd[0].bytes > byteIndex then BUF_OUT_OF_RANGE else BUF_OK, mBufInd[0].time);
      }
      if Back(mBufInd).bytes <= byteIndex {
        return Answer(if Back(mBufInd).bytes < byteIndex then BUF_OUT_OF_RANGE else BUF_OK, Back(mBufInd).time);
      }
      SegmentExists(mBufInd, ByBytes, 0, byteIndex);
      var i := FindUpperBound(mBufInd, ByBytes, 0, byteIndex);
      if i == |mBufInd| {
        assert false;
      }
      TimeAtInside(mBufInd, i, byteIndex);
      return Answer(BUF_OK, TimeAt(mBufInd, i, byteIndex));
    }

    method Clear()
      requires Valid()
      modifies this
      ensures Valid() && View() == TimeShift.Clear(old(View()))
    {
      mBufferCount, mBufInd := 0, [];
    }
  }

  class TimeShiftBufferConsumer {
    const mBufIndexer: BufferIndexer
    var mTotal: nat
    var mSeekByteOffset: nat
    var mReadOffset: Option<nat>
    var mPlayerState: PlayerState
    var mIsPaused: bool
    var mTrickPlaySpeed: int
    var mPauseUs: nat
    var mIsStreaming: bool

    ghost function View(): TSB
      reads this, mBufIndexer
    {
      TSB(mBufIndexer.View(), mTotal, mSeekByteOffset, mReadOffset, mPlayerState, mIsPaused, mTrickPlaySpeed,
          mPauseUs, mIsStreaming)
    }

    ghost predicate Valid()
      reads this, mBufIndexer
    {
      Inv(View(), mBufIndexer.cfg)
    }

    constructor (tsbSize: nat, tailSize: nat, ratio: nat, chunk: nat)
      requires tailSize <= tsbSize && ratio > 0 && chunk > 0 && (tsbSize - tailSize) / ratio > 0
      ensures Valid() && View() == START && fresh(mBufIndexer)
      ensures mBufIndexer.cfg == Configure(tsbSize, tailSize, ratio, chunk)
    {
      mBufIndexer := new BufferIndexer(tsbSize, tailSize, ratio, chunk);
      mTotal, mSeekByteOffset, mReadOffset, mPlayerState := 0, 0, None, UNDEF;
      mIsPaused, mTrickPlaySpeed, mPauseUs, mIsStreaming := false, 1, 0, false;
    }

    method Post(now: nat)
      requires Valid() && Allowed(View(), DoPost(now))
      modifies this, mBufIndexer
      ensures Valid() && View() == Do(old(View()), mBufIndexer.cfg, DoPost(now))
      ensures mIsStreaming && mPlayerState == PAUSED && mIsPaused ==>
                && mReadOffset.Some?
                && var oldest := mReadOffset.value - SizeInBytes(mBufIndexer.mBufInd, mBufIndexer.cfg.tsb);
                   Position(View()) == if Position(old(View())) >= oldest then Position(old(View())) else oldest
    {
      hide IndexInv, Ordered, Register, SizeInBytes, Tick, SetSeek, GetSeek, Reset;
      DoKeeps(View(), mBufIndexer.cfg, DoPost(now));
      if mIsStreaming && mPlayerState == PAUSED && mIsPaused {
        PausedPostHolds(View(), mBufIndexer.cfg, now);
      }
      IndexInvMeans(mBufIndexer.View(), mBufIndexer.cfg, mTotal);
      if !mIsStreaming {
        return;
      }
      IndexBehind(View(), mBufIndexer.cfg);
      mTotal := mTotal + mBufIndexer.cfg.chunk;
      var registered, size := mBufIndexer.RegisterBufferCount(mTotal, now);
      if mPlayerState == PAUSED && mIsPaused {
        var livePos, actualPos, deltaBytes := mTotal, mReadOffset.value, 0;
        if livePos > actualPos {
          deltaBytes := livePos - actualPos;
        }
        mReadOffset := Some(actualPos + deltaBytes);
        mSeekByteOffset := mSeekByteOffset + deltaBytes;
        var maxSize := SizeInBytes(mBufIndexer.mBufInd, mBufIndexer.cfg.tsb);
        if maxSize < mSeekByteOffset {
          mSeekByteOffset := maxSize;
        }
      }
    }

    method SetSeekTime(ms: int) returns (ok: bool)
      requires Valid()
      modifies this, mBufIndexer
      ensures Valid() && (View(), ok) == SetSeek(old(View()), mBufIndexer.cfg, ms)
      ensures ok <==> mBufIndexer.mBufInd != []
      ensures mTrickPlaySpeed == old(mTrickPlaySpeed)
    {
      hide IndexInv, Ordered, FindOffset, SizeInTime;
      IndexInvMeans(mBufIndexer.View(), mBufIndexer.cfg, mTotal);
      SetSeekKeeps(View(), mBufIndexer.cfg, ms);
      SeekSucceedsExactly(View(), mBufIndexer.cfg, ms);
      var maxSeekTime := SizeInTime(mBufIndexer.mBufInd, mBufIndexer.cfg.tsb) / 1000;
      var seekTime := if ms < 0 || ms > maxSeekTime then maxSeekTime else ms;
      assert seekTime == CutMs(View(), mBufIndexer.cfg, ms);
      var a := mBufIndexer.GetByteOffsetFromTimeUs(seekTime * 1000);
      if a.err != BUF_OK {
        return false;
      }
      mSeekByteOffset := a.value;
      mPauseUs := 0;
      if mReadOffset.Some? {
        mReadOffset := Some(mTotal);
      }
      return true;
    }

    method GetSeekTime() returns (ms: nat)
      requires Valid()
      modifies this, mBufIndexer
      ensures Valid() && (View(), ms) == GetSeek(old(View()), mBufIndexer.cfg)
      ensures mTrickPlaySpeed == old(mTrickPlaySpeed)
    {
      hide IndexInv, Ordered, FindTime;
      IndexInvMeans(mBufIndexer.View(), mBufIndexer.cfg, mTotal);
      GetSeekKeeps(View(), mBufIndexer.cfg);
      var a := mBufIndexer.GetTimeUsFromByteOffset(mSeekByteOffset);
      return (a.value + mPauseUs) / 1000;
    }

    method UpdateTrickPlayPosition() returns (stopTrickPlay: bool)
      requires Valid()
      modifies this, mBufIndexer
      ensures Valid() && (View(), stopTrickPlay) == Tick(old(View()), mBufIndexer.cfg)
    {
      hide IndexInv, Ordered, GetSeek, SetSeek, SizeInTime;
      stopTrickPlay := true;
      IndexInvMeans(mBufIndexer.View(), mBufIndexer.cfg, mTotal);
      var currentSeek := GetSeekTime();
      IndexInvMeans(mBufIndexer.View(), mBufIndexer.cfg, mTotal);
      var newSeek := 0;
      var speed := mTrickPlaySpeed;
      if mTrickPlaySpeed == 1 {
        newSeek := currentSeek;
      } else {
        var deltaSeek := TRICK_PLAY_RATE_MS * mTrickPlaySpeed;
        if deltaSeek < 0 {
          newSeek := currentSeek - deltaSeek + TRICK_PLAY_RATE_MS;
          if newSeek < SizeInTime(mBufIndexer.mBufInd, mBufIndexer.cfg.tsb) / 1000 {
            stopTrickPlay := false;
          } else {
            speed := 1;
          }
        } else {
          newSeek := currentSeek - deltaSeek - TRICK_PLAY_RATE_MS;
          if newSeek > 0 {
            stopTrickPlay := false;
          } else {
            newSeek := 0;
            speed := 1;
          }
        }
      }
      var ok := SetSeekTime(newSeek);
      mTrickPlaySpeed := speed;
    }

    /** Reads `available` bytes of the pool at `position`; the subtraction cannot underflow. */
    method ReadData(size: nat, available: nat) returns (position: nat, readSize: nat)
      requires Valid() && available <= size && Allowed(View(), DoRead(available))
      modifies this
      ensures Valid() && View() == Do(old(View()), mBufIndexer.cfg, DoRead(available))
      ensures readSize == available
      ensures position == if old(mReadOffset).Some? then Position(old(View())) else mTotal - mSeekByteOffset
    {
      if mReadOffset.None? {
        mReadOffset := Some(mTotal);
      }
      position := mReadOffset.value - mSeekByteOffset;
      readSize := available;
      mReadOffset := Some(mReadOffset.value + readSize);
    }

    method OnEndOfStream()
      requires Valid()
      modifies this, mBufIndexer
      ensures Valid() && View() == Do(old(View()), mBufIndexer.cfg, EndOfStream)
    {
      hide IndexInv, Ordered;
      IndexInvMeans(mBufIndexer.View(), mBufIndexer.cfg, mTotal);
      DoKeeps(View(), mBufIndexer.cfg, EndOfStream);
      mIsStreaming := false;
      if mSeekByteOffset != 0 && mReadOffset.Some? {
        mReadOffset := Some(mTotal);
      }
      mSeekByteOffset, mTrickPlaySpeed, mPauseUs, mIsPaused := 0, 1, 0, false;
      mBufIndexer.Clear();
    }
  }

  lemma IndexBehind(s: TSB, cfg: Config)
    requires Inv(s, cfg)
    ensures s.ix.ring != [] ==> Back(s.ix.ring).bytes <= s.total
  {
    if s.ix.ring != [] {
      ProductBetween(cfg.chunk, 0, (s.ix.count - 1) % cfg.ratio);
    }
  }
}

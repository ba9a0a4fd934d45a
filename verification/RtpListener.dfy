/** The RTP listener as it runs: one object whose methods walk and edit the cache in place. */
module RtpListener {
  import opened Options
  import opened RtpSequence
  import opened RtpReorder

  class RtpStreamListener {
    var mNextSequenceNumber: int
    var mBufferCache: seq<Packet>
    var mQueued: seq<Packet>  // what has gone to the buffer queue

    ghost function View(): State
      reads this
    {
      State(mNextSequenceNumber, mBufferCache, mQueued)
    }

    ghost predicate Valid()
      reads this
    {
      Quiet(View())
    }

    constructor ()
      ensures Valid() && View() == INITIAL
    {
      mNextSequenceNumber, mBufferCache, mQueued := UNSYNCED, [], [];
    }

    method PushBufferToBQ(p: Packet)
      modifies this
      ensures View() == Push(old(View()), p)
    {
      mQueued := mQueued + [p];
      mNextSequenceNumber := Succ(p.seqNum);
    }

    /** Never aborts: with the object valid, the full-cache branch cannot be reached. */
    method ProcessRtpPacket(p: Packet)
      requires Valid()
      modifies this
      ensures Valid()
      ensures Arrive(old(View()), p) == Some(View())
      ensures Packets(View()) == Packets(old(View())) + multiset{p}
    {
      ArriveKeepsQuiet(View(), p);
      var cachedBuffersPresent := |mBufferCache| > 0;
      if p.seqNum == mNextSequenceNumber || mNextSequenceNumber == UNSYNCED {
        PushBufferToBQ(p);
      } else if IsDiscontinuity(mNextSequenceNumber, p.seqNum) {
        FlushCache();
        PushBufferToBQ(p);
        cachedBuffersPresent := false;
      } else if |mBufferCache| < MAX_RTP_BUFFER_CACHE {
        InsertIntoCache(p);
      } else {
        assert false;
      }
      if cachedBuffersPresent {
        ProcessCachedBuffers();
      }
    }

    method FlushCache()
      modifies this
      ensures View() == PushAll(old(View()), old(mBufferCache)).(cache := [])
    {
      while mBufferCache != []
        invariant PushAll(View(), mBufferCache).(cache := []) == PushAll(old(View()), old(mBufferCache)).(cache := [])
        decreases |mBufferCache|
      {
        PushAllDelivers(View(), mBufferCache);
        PushBufferToBQ(mBufferCache[0]);
        PushAllDelivers(View(), mBufferCache[1..]);
        mBufferCache := mBufferCache[1..];
        PushAllDelivers(View(), mBufferCache);
      }
    }

    method InsertIntoCache(p: Packet)
      modifies this`mBufferCache
      ensures mBufferCache == Insert(old(mBufferCache), p)
    {
      var i := 0;
      while i < |mBufferCache| && DiffSequenceNumber(mBufferCache[i].seqNum, p.seqNum) <= 0
        invariant i <= |mBufferCache| && mBufferCache == old(mBufferCache)
        invariant forall k :: 0 <= k < i ==> DiffSequenceNumber(mBufferCache[k].seqNum, p.seqNum) <= 0
      {
        i := i + 1;
      }
      InsertAt(mBufferCache, p, i);
      mBufferCache := mBufferCache[..i] + [p] + mBufferCache[i..];
    }

    method ProcessCachedBuffers()
      requires Synced(View())
      modifies this
      ensures View() == Drain(old(View()))
    {
      var continueLoop := true;
      while continueLoop
        invariant Synced(View())
        invariant continueLoop ==> Drain(View()) == Drain(old(View()))
        invariant !continueLoop ==> View() == Drain(old(View()))
        decreases continueLoop, |mBufferCache|, Nearest(mNextSequenceNumber, mBufferCache)
      {
        ghost var s := View();
        var pushed := WalkCache();
        if |mBufferCache| > 0 && pushed {
          continueLoop := true;
        } else if |mBufferCache| == MAX_RTP_BUFFER_CACHE {
          NearestShrinks(s.next, s.cache);
          mNextSequenceNumber := Succ(mNextSequenceNumber);
          continueLoop := true;
        } else {
          continueLoop := false;
        }
      }
    }

    /** One walk over the cache; erasing moves the later packets up. */
    method WalkCache() returns (pushed: bool)
      requires Synced(View())
      modifies this
      ensures View() == Pass(old(View()))
      ensures pushed <==> |mBufferCache| < |old(mBufferCache)|
    {
      pushed := false;
      var i := 0;
      while i < |mBufferCache|
        invariant i <= |mBufferCache| <= |old(mBufferCache)| && Synced(View())
        invariant pushed <==> |mBufferCache| < |old(mBufferCache)|
        invariant var r := Pass(View().(cache := mBufferCache[i..]));
                  Pass(old(View())) == r.(cache := mBufferCache[..i] + r.cache)
        decreases |mBufferCache| - i
      {
        ghost var before := View();
        if mBufferCache[i].seqNum == mNextSequenceNumber {
          PushBufferToBQ(mBufferCache[i]);
          mBufferCache := mBufferCache[..i] + mBufferCache[i + 1..];
          pushed := true;
          assert mBufferCache[i..] == before.cache[i..][1..];
          assert mBufferCache[..i] == before.cache[..i];
        } else {
          i := i + 1;
          assert mBufferCache[i..] == before.cache[i - 1..][1..];
          assert before.cache[..i] == before.cache[..i - 1] + [before.cache[i - 1]];
        }
      }
    }
  }
}

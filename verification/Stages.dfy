/** The three stages a byte passes on its way to the packet parser: the HTTP demuxer's buffers, the
    consumer loop's chunks and the transport-stream window over the last two chunks. */
module Stages {
  import opened Bytes
  import opened Framing

  const FEIP_DEFAULT_BUFFER_COUNT := 64

  class HttpDemuxer {
    var httpBuffer: array<byte>   // the buffer being filled, from the pool
    var mCurrentOffset: nat
    var mHttpBufCount: nat
    var pushed: seq<seq<byte>>    // what has gone to the buffer queue

    ghost predicate Valid()
      reads this
    {
      httpBuffer.Length == FEIP_BUFFER_SIZE && mCurrentOffset < FEIP_BUFFER_SIZE
      && mHttpBufCount < FEIP_DEFAULT_BUFFER_COUNT
    }

    ghost function Held(): seq<byte>
      requires Valid()
      reads this, httpBuffer
    {
      httpBuffer[..mCurrentOffset]
    }

    constructor ()
      ensures Valid() && Held() == [] && pushed == [] && fresh(httpBuffer)
    {
      httpBuffer := new byte[FEIP_BUFFER_SIZE];
      mCurrentOffset, mHttpBufCount, pushed := 0, 0, [];
    }

    /** Copies a piece that fits behind the held bytes, into a fresh buffer if none is begun; a full
        buffer is pushed. */
    method Append(piece: seq<byte>)
      requires Valid() && 0 < |piece| <= FEIP_BUFFER_SIZE - mCurrentOffset
      modifies this, httpBuffer
      ensures Valid() && fresh({httpBuffer} - {old(httpBuffer)})
      ensures if old(mCurrentOffset) + |piece| == FEIP_BUFFER_SIZE
              then mCurrentOffset == 0 && pushed == old(pushed) + [old(Held()) + piece]
              else mCurrentOffset > 0 && pushed == old(pushed) && Held() == old(Held()) + piece
    {
      if mCurrentOffset == 0 {
        httpBuffer := new byte[FEIP_BUFFER_SIZE];
      }
      CopyInto(httpBuffer, mCurrentOffset, piece);
      mCurrentOffset := mCurrentOffset + |piece|;
      if mCurrentOffset == FEIP_BUFFER_SIZE {
        assert httpBuffer[..] == httpBuffer[..mCurrentOffset];
        pushed := pushed + [httpBuffer[..]];
        mCurrentOffset := 0;
        mHttpBufCount := if mHttpBufCount + 1 == FEIP_DEFAULT_BUFFER_COUNT then 0 else mHttpBufCount + 1;
      }
    }

    /** Splits the written data over full buffers; the rest stays in the buffer being filled. */
    method Write(data: seq<byte>) returns (n: nat)
      requires Valid()
      modifies this, httpBuffer
      ensures Valid() && fresh({httpBuffer} - {old(httpBuffer)})
      ensures n == |data|
      ensures pushed == old(pushed) + Blocks(old(Held()) + data, FEIP_BUFFER_SIZE)
      ensures Held() == Tail(old(Held()) + data, FEIP_BUFFER_SIZE)
    {
      var totalSize := |data|;
      var remaining := totalSize;
      ghost var held, cut: seq<seq<byte>> := Held(), [];
      assert held + data[..0] == held;
      while remaining > 0
        invariant Valid() && fresh({httpBuffer} - {old(httpBuffer)})
        invariant 0 <= remaining <= totalSize
        invariant pushed == old(pushed) + cut && AllOfSize(cut, FEIP_BUFFER_SIZE)
        invariant Flatten(cut) + Held() == held + data[..totalSize - remaining]
      {
        var done := totalSize - remaining;
        var free := FEIP_BUFFER_SIZE - mCurrentOffset;
        var writeLength := if free < remaining then free else remaining;
        ghost var before := Held();
        ghost var filled := before + data[done..done + writeLength];
        Append(data[done..done + writeLength]);
        Grow(Flatten(cut), before, held, data, done, writeLength, filled);
        if mCurrentOffset == 0 {
          FlattenSnoc(cut, filled);
          cut := cut + [filled];
        }
        remaining := remaining - writeLength;
      }
      assert data[..totalSize] == data;
      BlocksUnique(cut, Held(), held + data, FEIP_BUFFER_SIZE);
      return totalSize;
    }
  }

  /** memcpy into a buffer. */
  method CopyInto(a: array<byte>, at: nat, data: seq<byte>)
    requires at + |data| <= a.Length
    modifies a
    ensures a[..at + |data|] == old(a[..at]) + data
    ensures a[at + |data|..] == old(a[at + |data|..])
  {
    forall i | 0 <= i < |data| {
      a[at + i] := data[i];
    }
  }

  /** Bookkeeping of one copy: what has been cut, with what is held, is the stream read so far. */
  lemma Grow(cut: seq<byte>, before: seq<byte>, held: seq<byte>, data: seq<byte>, done: nat, n: nat, filled: seq<byte>)
    requires done + n <= |data|
    requires cut + before == held + data[..done]
    requires filled == before + data[done..done + n]
    ensures cut + filled == held + data[..done + n]
  {
    assert data[..done + n] == data[..done] + data[done..done + n];
    assert cut + filled == (cut + before) + data[done..done + n];
  }

  lemma WrapAround(sum: nat, size: nat)
    requires 0 < size && sum <= size
    ensures sum % size == if sum == size then 0 else sum
  {
  }

  class ChunkConsumer {
    const chunk: array<byte>
    var offset: nat
    var posted: seq<seq<byte>>

    ghost predicate Valid()
      reads this
    {
      offset < chunk.Length
    }

    ghost function Held(): seq<byte>
      requires Valid()
      reads this, chunk
    {
      chunk[..offset]
    }

    constructor (chunkSize: nat)
      requires chunkSize > 0
      ensures Valid() && chunk.Length == chunkSize && Held() == [] && posted == []
    {
      chunk := new byte[chunkSize];
      offset, posted := 0, [];
    }

    /** Copies a piece that fits behind the held bytes; a full chunk is posted. */
    method Append(piece: seq<byte>)
      requires Valid() && 0 < |piece| <= chunk.Length - offset
      modifies this, chunk
      ensures Valid()
      ensures if old(offset) + |piece| == chunk.Length
              then offset == 0 && posted == old(posted) + [old(Held()) + piece]
              else posted == old(posted) && Held() == old(Held()) + piece
    {
      CopyInto(chunk, offset, piece);
      if |piece| + offset == chunk.Length {
        assert chunk[..offset + |piece|] == chunk[..];
        posted := posted + [chunk[..]];
      }
      WrapAround(offset + |piece|, chunk.Length);
      offset := (offset + |piece|) % chunk.Length;
    }

    /** One buffer through the consumer loop: full chunks are posted, the rest stays in the chunk. */
    method Consume(buffer: seq<byte>)
      requires Valid()
      modifies this, chunk
      ensures Valid()
      ensures posted == old(posted) + Blocks(old(Held()) + buffer, chunk.Length)
      ensures Held() == Tail(old(Held()) + buffer, chunk.Length)
    {
      hide Flatten, Blocks, Tail;
      var start, remaining := 0, |buffer|;
      ghost var held, cut: seq<seq<byte>> := Held(), [];
      NothingCut(held, buffer);
      while remaining > 0
        invariant Valid() && 0 <= start && 0 <= remaining && start + remaining == |buffer|
        invariant posted == old(posted) + cut && AllOfSize(cut, chunk.Length)
        invariant Flatten(cut) + Held() == held + buffer[..start]
      {
        var room := chunk.Length - offset;
        var copyBytes := if room < remaining then room else remaining;
        ghost var filled := Held() + buffer[start..start + copyBytes];
        Grow(Flatten(cut), Held(), held, buffer, start, copyBytes, filled);
        Append(buffer[start..start + copyBytes]);
        if |filled| == chunk.Length {
          FlattenSnoc(cut, filled);
          cut := cut + [filled];
        }
        start := start + copyBytes;
        remaining := remaining - copyBytes;
      }
      assert buffer[..start] == buffer;
      BlocksUnique(cut, Held(), held + buffer, chunk.Length);
    }
  }

  lemma NothingCut(held: seq<byte>, data: seq<byte>)
    ensures Flatten([]) + held == held + data[..0]
  {
  }

  datatype TSDataError = OK | NOT_ENOUGH_DATA | DATA_CC_ERROR

  /** The window over the last two chunks. */
  class TSStream {
    const chunkSize: nat
    var mCircBuf: seq<seq<byte>>
    var mPointer: nat

    ghost predicate Valid()
      reads this
    {
      && chunkSize >= TS_PACKAGE_SIZE
      && |mCircBuf| <= 2 && AllOfSize(mCircBuf, chunkSize)
      && mPointer < chunkSize
      && (mCircBuf == [] ==> mPointer == 0)
    }

    /** The bytes not yet taken as packets. */
    ghost function Pending(): (s: seq<byte>)
      requires Valid()
      reads this
    {
      if |mCircBuf| == 0 then []
      else if |mCircBuf| == 1 then mCircBuf[0][mPointer..]
      else mCircBuf[0][mPointer..] + mCircBuf[1]
    }

    constructor (chunkSize: nat)
      requires chunkSize >= TS_PACKAGE_SIZE
      ensures Valid() && this.chunkSize == chunkSize && Pending() == []
    {
      this.chunkSize := chunkSize;
      mCircBuf, mPointer := [], 0;
    }

    method InsertChunk(chunk: seq<byte>) returns (ok: bool)
      requires Valid() && |chunk| == chunkSize
      modifies this
      ensures Valid()
      ensures ok <==> |old(Pending())| <= chunkSize
      ensures Pending() == old(Pending()) + if ok then chunk else []
    {
      if |mCircBuf| == 2 {
        return false;
      }
      mCircBuf := mCircBuf + [chunk];
      return true;
    }

    /** Takes the next 188 bytes, wherever the chunk boundary falls. */
    method GetNextPacket() returns (err: TSDataError, packet: seq<byte>)
      requires Valid()
      modifies this
      ensures Valid()
      ensures err == NOT_ENOUGH_DATA <==> |old(Pending())| < TS_PACKAGE_SIZE
      ensures err == NOT_ENOUGH_DATA ==> Pending() == old(Pending())
      ensures err != NOT_ENOUGH_DATA ==>
                && packet == old(Pending())[..TS_PACKAGE_SIZE]
                && Pending() == old(Pending())[TS_PACKAGE_SIZE..]
                && (err == DATA_CC_ERROR <==> packet[0] != SYNC_BYTE)
    {
      packet := [];
      ghost var was := Pending();
      if |mCircBuf| == 0 || (|mCircBuf| == 1 && chunkSize - mPointer < TS_PACKAGE_SIZE) {
        return NOT_ENOUGH_DATA, packet;
      }
      if chunkSize - mPointer >= TS_PACKAGE_SIZE {
        packet := mCircBuf[0][mPointer..mPointer + TS_PACKAGE_SIZE];
        mPointer := mPointer + TS_PACKAGE_SIZE;
        if mPointer == chunkSize {
          mCircBuf := mCircBuf[1..];
          mPointer := 0;
        }
      } else {
        var firstSeq := chunkSize - mPointer;
        var secondSeq := TS_PACKAGE_SIZE - firstSeq;
        packet := mCircBuf[0][mPointer..mPointer + firstSeq] + mCircBuf[1][..secondSeq];
        mPointer := secondSeq;
        mCircBuf := mCircBuf[1..];
      }
      assert packet == was[..TS_PACKAGE_SIZE];
      assert Pending() == was[TS_PACKAGE_SIZE..];
      err := if packet[0] != SYNC_BYTE then DATA_CC_ERROR else OK;
    }

    /** One chunk through the parser's loop; `taken` are the packets the loop took, the parser gets
        those that start with the sync byte. */
    method ProcessChunk(chunk: seq<byte>) returns (ok: bool, taken: seq<seq<byte>>, handed: seq<seq<byte>>)
      requires Valid() && |chunk| == chunkSize
      modifies this
      ensures Valid()
      ensures ok <==> |old(Pending())| <= chunkSize
      ensures var p := old(Pending()) + if ok then chunk else [];
              taken == Taken(p) && Pending() == LeftPending(p)
      ensures handed == InSync(taken)
    {
      hide Taken, LeftPending, InSync, Pending;
      ok := InsertChunk(chunk);
      taken, handed := [], [];
      NoneTaken();
      ghost var p := Pending();
      var more := true;
      while more
        invariant Valid() && handed == InSync(taken)
        invariant more ==> Taken(p) == taken + Taken(Pending()) && LeftPending(p) == LeftPending(Pending())
        invariant !more ==> taken == Taken(p) && Pending() == LeftPending(p)
        decreases more, |Pending()|
      {
        TakeOne(Pending());
        ghost var now := Pending();
        var err, packet := GetNextPacket();
        if err == NOT_ENOUGH_DATA {
          more := false;
        } else {
          InSyncSnoc(taken, packet);
          taken := taken + [packet];
          if err == DATA_CC_ERROR {
            more := false;
          } else {
            handed := handed + [packet];
          }
        }
      }
    }
  }
}

/** Cutting a byte stream into blocks of one size, which every stage of the pipeline does. */
module Framing {
  import opened Bytes

  const SYNC_BYTE: byte := 0x47
  const FEIP_BUFFER_SIZE := 32 * 7 * 188

  /** The full blocks of `n` bytes at the head of `s`. */
  function Blocks(s: seq<byte>, n: nat): seq<seq<byte>>
    requires n > 0
    decreases |s|
  {
    if |s| < n then [] else [s[..n]] + Blocks(s[n..], n)
  }

  /** What is left of `s` behind its full blocks. */
  function Tail(s: seq<byte>, n: nat): (t: seq<byte>)
    requires n > 0
    ensures |t| < n
    decreases |s|
  {
    if |s| < n then s else Tail(s[n..], n)
  }

  predicate AllOfSize(blocks: seq<seq<byte>>, n: nat) {
    forall i :: 0 <= i < |blocks| ==> |blocks[i]| == n
  }

  lemma {:induction false} BlocksAndTail(s: seq<byte>, n: nat)
    requires n > 0
    ensures Flatten(Blocks(s, n)) + Tail(s, n) == s
    ensures AllOfSize(Blocks(s, n), n)
    decreases |s|
  {
    if |s| >= n {
      BlocksAndTail(s[n..], n);
      var bs := Blocks(s[n..], n);
      assert ([s[..n]] + bs)[1..] == bs;
      assert s == s[..n] + s[n..];
    }
  }

  /** A stream has only one decomposition into blocks of `n` and a shorter rest. */
  lemma {:induction false} BlocksUnique(blocks: seq<seq<byte>>, rest: seq<byte>, s: seq<byte>, n: nat)
    requires n > 0 && AllOfSize(blocks, n) && |rest| < n
    requires Flatten(blocks) + rest == s
    ensures blocks == Blocks(s, n) && rest == Tail(s, n)
    decreases |blocks|
  {
    if blocks == [] {
      assert s == rest;
    } else {
      var more := blocks[1..];
      assert Flatten(blocks) == blocks[0] + Flatten(more);
      assert s[..n] == blocks[0];
      assert s[n..] == Flatten(more) + rest;
      BlocksUnique(more, rest, s[n..], n);
      assert blocks == [blocks[0]] + more;
    }
  }

  // ----- taking transport-stream packets -----

  /** The packets taken from `pending`: as many as there are, up to and including the first one that
      does not start with the sync byte. */
  function Taken(pending: seq<byte>): seq<seq<byte>>
    decreases |pending|
  {
    if |pending| < TS_PACKAGE_SIZE then []
    else if pending[0] != SYNC_BYTE then [pending[..TS_PACKAGE_SIZE]]
    else [pending[..TS_PACKAGE_SIZE]] + Taken(pending[TS_PACKAGE_SIZE..])
  }

  function LeftPending(pending: seq<byte>): seq<byte>
    decreases |pending|
  {
    if |pending| < TS_PACKAGE_SIZE then pending
    else if pending[0] != SYNC_BYTE then pending[TS_PACKAGE_SIZE..]
    else LeftPending(pending[TS_PACKAGE_SIZE..])
  }

  /** The packets that are handed to the parser. */
  function InSync(packets: seq<seq<byte>>): seq<seq<byte>> {
    if packets == [] then []
    else if packets[0] != [] && packets[0][0] == SYNC_BYTE then [packets[0]] + InSync(packets[1..])
    else InSync(packets[1..])
  }

  lemma NoneTaken()
    ensures InSync([]) == []
  {
  }

  lemma TakeOne(pending: seq<byte>)
    ensures |pending| < TS_PACKAGE_SIZE ==> Taken(pending) == [] && LeftPending(pending) == pending
    ensures |pending| >= TS_PACKAGE_SIZE ==>
              var p, rest := pending[..TS_PACKAGE_SIZE], pending[TS_PACKAGE_SIZE..];
              && p[0] == pending[0]
              && Taken(pending) == [p] + (if p[0] == SYNC_BYTE then Taken(rest) else [])
              && LeftPending(pending) == if p[0] == SYNC_BYTE then LeftPending(rest) else rest
  {
  }

  lemma InSyncSnoc(packets: seq<seq<byte>>, p: seq<byte>)
    requires p != []
    ensures InSync(packets + [p]) == InSync(packets) + if p[0] == SYNC_BYTE then [p] else []
  {
    InSyncConcat(packets, [p]);
  }

  /** Every full slice of `s` starts with the sync byte. */
  predicate Aligned(s: seq<byte>) {
    |s| < TS_PACKAGE_SIZE || (s[0] == SYNC_BYTE && Aligned(s[TS_PACKAGE_SIZE..]))
  }

  lemma {:induction false} TakenAndLeft(pending: seq<byte>)
    ensures Flatten(Taken(pending)) + LeftPending(pending) == pending
    ensures AllOfSize(Taken(pending), TS_PACKAGE_SIZE)
    decreases |pending|
  {
    if |pending| >= TS_PACKAGE_SIZE {
      var p, rest := pending[..TS_PACKAGE_SIZE], pending[TS_PACKAGE_SIZE..];
      assert pending == p + rest;
      if pending[0] != SYNC_BYTE {
        assert Flatten([p]) == p + Flatten([]);
      } else {
        TakenAndLeft(rest);
        assert ([p] + Taken(rest))[1..] == Taken(rest);
      }
    }
  }

  /** From an aligned stretch all full slices are taken, all of them in sync. */
  lemma {:induction false} TakenAligned(pending: seq<byte>)
    requires Aligned(pending)
    ensures Taken(pending) == Blocks(pending, TS_PACKAGE_SIZE)
    ensures LeftPending(pending) == Tail(pending, TS_PACKAGE_SIZE)
    ensures InSync(Taken(pending)) == Taken(pending)
    decreases |pending|
  {
    if |pending| >= TS_PACKAGE_SIZE {
      var rest := pending[TS_PACKAGE_SIZE..];
      TakenAligned(rest);
      assert ([pending[..TS_PACKAGE_SIZE]] + Taken(rest))[1..] == Taken(rest);
    }
  }

  lemma {:induction false} AlignedPrefix(s: seq<byte>, k: nat)
    requires Aligned(s) && k <= |s|
    ensures Aligned(s[..k])
    decreases |s|
  {
    if k >= TS_PACKAGE_SIZE {
      assert s[..k][TS_PACKAGE_SIZE..] == s[TS_PACKAGE_SIZE..][..k - TS_PACKAGE_SIZE];
      AlignedPrefix(s[TS_PACKAGE_SIZE..], k - TS_PACKAGE_SIZE);
    }
  }

  lemma {:induction false} InSyncConcat(a: seq<seq<byte>>, b: seq<seq<byte>>)
    ensures InSync(a + b) == InSync(a) + InSync(b)
  {
    if a == [] {
      assert a + b == b;
    } else {
      assert (a + b)[1..] == a[1..] + b;
      InSyncConcat(a[1..], b);
    }
  }

  lemma {:induction false} FlattenSize(blocks: seq<seq<byte>>, n: nat)
    requires AllOfSize(blocks, n)
    ensures |Flatten(blocks)| == n * |blocks|
  {
    if blocks != [] {
      FlattenSize(blocks[1..], n);
      assert n * |blocks| == n + n * (|blocks| - 1);
    }
  }

  /** Packets out of sync are left out. */
  lemma {:induction false} InSyncShorter(packets: seq<seq<byte>>)
    ensures |InSync(packets)| <= |packets|
    ensures |InSync(packets)| == |packets| <==> InSync(packets) == packets
    ensures AllOfSize(packets, TS_PACKAGE_SIZE) ==> AllOfSize(InSync(packets), TS_PACKAGE_SIZE)
  {
    if packets != [] {
      InSyncShorter(packets[1..]);
      assert packets == [packets[0]] + packets[1..];
    }
  }

  /** If all packets taken are in sync, less than a packet is left. */
  lemma {:induction false} InSyncLeavesLittle(pending: seq<byte>)
    ensures InSync(Taken(pending)) == Taken(pending) ==> |LeftPending(pending)| < TS_PACKAGE_SIZE
    decreases |pending|
  {
    if |pending| >= TS_PACKAGE_SIZE {
      TakeOne(pending);
      var p, rest := pending[..TS_PACKAGE_SIZE], pending[TS_PACKAGE_SIZE..];
      if p[0] == SYNC_BYTE {
        InSyncLeavesLittle(rest);
        assert ([p] + Taken(rest))[1..] == Taken(rest);
      } else {
        assert Taken(pending) == [p] && InSync([p]) == InSync([p][1..]) == [];
      }
    }
  }

  /** Packets are in sync exactly when their bytes are aligned. */
  lemma {:induction false} AlignedPackets(packets: seq<seq<byte>>)
    requires AllOfSize(packets, TS_PACKAGE_SIZE)
    ensures Aligned(Flatten(packets)) <==> InSync(packets) == packets
  {
    if packets != [] {
      var s, more := Flatten(packets), packets[1..];
      AlignedPackets(more);
      InSyncShorter(more);
      assert s[TS_PACKAGE_SIZE..] == Flatten(more) && s[0] == packets[0][0];
      assert packets == [packets[0]] + more;
    }
  }

  /** What is not aligned stays so when it grows. */
  lemma AlignedShorter(s: seq<byte>, k: nat, n: nat)
    requires k <= n <= |s| && !Aligned(s[..k])
    ensures !Aligned(s[..n])
  {
    assert s[..n][..k] == s[..k];
    if Aligned(s[..n]) {
      AlignedPrefix(s[..n], k);
    }
  }
}

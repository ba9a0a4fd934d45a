/** HTTP writes, the buffer queue, the consumer loop, the chunk queue and the packet window as one
    system whose stages run in any interleaving. */
module Pipeline {
  import opened Bytes
  import opened Framing

  datatype Pipe = Pipe(
    written: seq<byte>,          // everything handed to the HTTP demuxer
    http: seq<byte>,             // in the buffer being filled
    queue: seq<seq<byte>>,       // full buffers waiting for the consumer loop
    chunk: seq<byte>,            // in the chunk being filled
    chunks: seq<seq<byte>>,      // chunks waiting for the parser thread
    pending: seq<byte>,          // in the packet window
    taken: seq<seq<byte>>,       // packets taken from the window
    refused: nat)                // chunks the window had no room for

  const START := Pipe([], [], [], [], [], [], [], 0)

  datatype Action =
    | Write(data: seq<byte>)     // HttpDemuxer.Write
    | Consume                    // ChunkConsumer.Consume on the oldest buffer
    | Process                    // TSStream.ProcessChunk on the oldest chunk

  /** A stage with nothing to work on leaves everything as it is. */
  function Step(p: Pipe, a: Action, chunkSize: nat): Pipe
    requires chunkSize > 0
  {
    match a
    case Write(data) =>
      var s := p.http + data;
      p.(written := p.written + data, queue := p.queue + Blocks(s, FEIP_BUFFER_SIZE), http := Tail(s, FEIP_BUFFER_SIZE))
    case Consume =>
      if p.queue == [] then p
      else
        var s := p.chunk + p.queue[0];
        p.(queue := p.queue[1..], chunks := p.chunks + Blocks(s, chunkSize), chunk := Tail(s, chunkSize))
    case Process =>
      if p.chunks == [] then p
      else
        var room := |p.pending| <= chunkSize;
        var s := p.pending + if room then p.chunks[0] else [];
        p.(chunks := p.chunks[1..], taken := p.taken + Taken(s), pending := LeftPending(s),
           refused := if room then p.refused else p.refused + 1)
  }

  function Run(actions: seq<Action>, chunkSize: nat): Pipe
    requires chunkSize > 0
  {
    if actions == [] then START
    else Step(Run(actions[..|actions| - 1], chunkSize), actions[|actions| - 1], chunkSize)
  }

  /** The packets the parser has been given. */
  function Handed(p: Pipe): seq<seq<byte>> {
    InSync(p.taken)
  }

  /** Everything in the system, oldest byte first. */
  function InFlight(p: Pipe): seq<byte> {
    Flatten(p.taken) + p.pending + Flatten(p.chunks) + p.chunk + Flatten(p.queue) + p.http
  }

  predicate Sized(p: Pipe, chunkSize: nat) {
    && AllOfSize(p.queue, FEIP_BUFFER_SIZE) && |p.http| < FEIP_BUFFER_SIZE
    && AllOfSize(p.chunks, chunkSize) && |p.chunk| < chunkSize
    && AllOfSize(p.taken, TS_PACKAGE_SIZE)
  }

  /** The number of packets taken so far, in bytes. */
  function Reached(p: Pipe): nat {
    TS_PACKAGE_SIZE * |p.taken|
  }

  /** Everything the parser has got and everything still on its way to it, oldest byte first. */
  function Delivered(p: Pipe): seq<byte> {
    Flatten(Handed(p)) + p.pending + Flatten(p.chunks) + p.chunk + Flatten(p.queue) + p.http
  }

  /** While nothing was refused no byte is lost, doubled or reordered; each refusal loses a chunk. Nothing is
      refused while every packet taken was in sync, and once a chunk was refused, the slices written so far
      as packets were taken are not aligned. */
  predicate Intact(p: Pipe, chunkSize: nat) {
    && Sized(p, chunkSize)
    && |InFlight(p)| + p.refused * chunkSize == |p.written|
    && (p.refused == 0 ==> InFlight(p) == p.written)
    && (Handed(p) == p.taken ==> p.refused == 0 && |p.pending| < TS_PACKAGE_SIZE)
    && (p.refused > 0 ==> Reached(p) <= |p.written| && !Aligned(p.written[..Reached(p)]))
  }

  // Moving bytes from one place of the system to the next keeps their order.

  lemma WriteBytes(front: seq<byte>, queue: seq<byte>, cut: seq<byte>, rest: seq<byte>,
                   http: seq<byte>, data: seq<byte>)
    requires cut + rest == http + data
    ensures front + (queue + cut) + rest == front + queue + http + data
  {
    assert front + (queue + cut) + rest == front + queue + (cut + rest);
  }

  lemma ConsumeBytes(front: seq<byte>, chunks: seq<byte>, cut: seq<byte>, rest: seq<byte>,
                     chunk: seq<byte>, first: seq<byte>, later: seq<byte>, http: seq<byte>)
    requires cut + rest == chunk + first
    ensures front + (chunks + cut) + rest + later + http == front + chunks + chunk + (first + later) + http
  {
    assert front + (chunks + cut) + rest == front + chunks + (cut + rest);
    assert front + chunks + chunk + (first + later) == front + chunks + (chunk + first) + later;
  }

  lemma ProcessBytes(taken: seq<byte>, packets: seq<byte>, rest: seq<byte>, s: seq<byte>, pending: seq<byte>,
                     first: seq<byte>, later: seq<byte>, back: seq<byte>)
    requires packets + rest == s && s == pending + first
    ensures (taken + packets) + rest + later + back == taken + pending + (first + later) + back
    ensures taken + pending + (first + later) + back == taken + s + (later + back)
  {
    assert (taken + packets) + rest == taken + (packets + rest);
    assert taken + pending + (first + later) == taken + (pending + first) + later;
  }

  lemma WriteIntact(p: Pipe, data: seq<byte>, chunkSize: nat)
    requires chunkSize >= TS_PACKAGE_SIZE && Intact(p, chunkSize)
    ensures Intact(Step(p, Write(data), chunkSize), chunkSize)
  {
    hide Flatten, Blocks, Tail, Aligned, InSync;
    var q := Step(p, Write(data), chunkSize);
    var s := p.http + data;
    var cut, rest := Blocks(s, FEIP_BUFFER_SIZE), Tail(s, FEIP_BUFFER_SIZE);
    BlocksAndTail(s, FEIP_BUFFER_SIZE);
    FlattenConcat(p.queue, cut);
    WriteBytes(Flatten(p.taken) + p.pending + Flatten(p.chunks) + p.chunk, Flatten(p.queue), Flatten(cut), rest,
               p.http, data);
    assert InFlight(q) == InFlight(p) + data;
    assert p.refused > 0 ==> q.written[..Reached(q)] == p.written[..Reached(p)];
  }

  lemma ConsumeIntact(p: Pipe, chunkSize: nat)
    requires chunkSize >= TS_PACKAGE_SIZE && Intact(p, chunkSize)
    ensures Intact(Step(p, Consume, chunkSize), chunkSize)
  {
    if p.queue != [] {
      hide Flatten, Blocks, Tail, Aligned, InSync;
      FlattenHead(p.queue);
      var s := p.chunk + p.queue[0];
      var cut, rest := Blocks(s, chunkSize), Tail(s, chunkSize);
      BlocksAndTail(s, chunkSize);
      FlattenConcat(p.chunks, cut);
      ConsumeBytes(Flatten(p.taken) + p.pending, Flatten(p.chunks), Flatten(cut), rest,
                   p.chunk, p.queue[0], Flatten(p.queue[1..]), p.http);
    }
  }

  lemma ProcessIntact(p: Pipe, chunkSize: nat)
    requires chunkSize >= TS_PACKAGE_SIZE && Intact(p, chunkSize)
    ensures Intact(Step(p, Process, chunkSize), chunkSize)
  {
    if p.chunks != [] {
      hide Flatten, Taken, LeftPending, Aligned, InSync, InFlight, Intact;
      if |p.pending| <= chunkSize {
        AcceptedIntact(p, chunkSize);
      } else {
        RefusedIntact(p, chunkSize);
      }
    }
  }

  /** The window after it has worked through `s`. */
  function Worked(p: Pipe, s: seq<byte>): Pipe
    requires p.chunks != []
  {
    p.(chunks := p.chunks[1..], taken := p.taken + Taken(s), pending := LeftPending(s))
  }

  lemma AcceptedIntact(p: Pipe, chunkSize: nat)
    requires chunkSize >= TS_PACKAGE_SIZE && Intact(p, chunkSize) && p.chunks != []
    ensures Intact(Worked(p, p.pending + p.chunks[0]), chunkSize)
  {
    hide Flatten, Taken, LeftPending, Aligned, InSync, InFlight, AllOfSize;
    var s := p.pending + p.chunks[0];
    var q := Worked(p, s);
    WorkedSized(p, s, chunkSize);
    ProcessInSync(p, s);
    ProcessKeepsBytes(p, s);
    ReachedIsWritten(q, chunkSize);
    if p.refused > 0 {
      AlignedShorter(p.written, Reached(p), Reached(q));
    }
  }

  lemma RefusedIntact(p: Pipe, chunkSize: nat)
    requires chunkSize >= TS_PACKAGE_SIZE && Intact(p, chunkSize) && p.chunks != [] && |p.pending| > chunkSize
    ensures Intact(Worked(p, p.pending + []).(refused := p.refused + 1), chunkSize)
  {
    hide Flatten, Taken, LeftPending, Aligned, InSync, InFlight, AllOfSize;
    assert p.pending + [] == p.pending;
    var q := Worked(p, p.pending);
    var r := q.(refused := p.refused + 1);
    WorkedSized(p, p.pending, chunkSize);
    ProcessInSync(p, p.pending);
    RefusalLosesChunk(p, p.pending, chunkSize);
    assert InFlight(r) == InFlight(q) by { InFlightSplit(q); InFlightSplit(r); }
    assert (p.refused + 1) * chunkSize == p.refused * chunkSize + chunkSize;
    ReachedIsWritten(r, chunkSize);
    if p.refused == 0 {
      ReachedIsWritten(p, chunkSize);
      TakenIsReached(p, chunkSize);
    }
    AlignedShorter(p.written, Reached(p), Reached(r));
  }

  lemma WorkedSized(p: Pipe, s: seq<byte>, chunkSize: nat)
    requires Sized(p, chunkSize) && p.chunks != []
    ensures Sized(Worked(p, s), chunkSize)
  {
    hide Taken, LeftPending;
    TakenAndLeft(s);
  }

  /** The parser's loop stops short only behind a packet out of sync. */
  lemma ProcessInSync(p: Pipe, s: seq<byte>)
    ensures var all := p.taken + Taken(s);
            InSync(all) == all ==> InSync(p.taken) == p.taken && |LeftPending(s)| < TS_PACKAGE_SIZE
  {
    hide Taken, LeftPending, InSync;
    InSyncConcat(p.taken, Taken(s));
    InSyncShorter(p.taken);
    InSyncShorter(Taken(s));
    InSyncLeavesLittle(s);
  }

  /** What waits behind the chunk queue. */
  function Behind(p: Pipe): seq<byte> {
    p.chunk + Flatten(p.queue) + p.http
  }

  lemma ProcessKeepsBytes(p: Pipe, s: seq<byte>)
    requires p.chunks != [] && s == p.pending + p.chunks[0]
    ensures InFlight(Worked(p, s)) == InFlight(p)
  {
    hide Flatten, Taken, LeftPending;
    FlattenHead(p.chunks);
    TakenAndLeft(s);
    FlattenConcat(p.taken, Taken(s));
    InFlightSplit(p);
    InFlightSplit(Worked(p, s));
    ProcessBytes(Flatten(p.taken), Flatten(Taken(s)), LeftPending(s), s, p.pending,
                 p.chunks[0], Flatten(p.chunks[1..]), Behind(p));
  }

  lemma RefusalLosesChunk(p: Pipe, s: seq<byte>, chunkSize: nat)
    requires Sized(p, chunkSize) && p.chunks != [] && s == p.pending
    ensures |InFlight(Worked(p, s))| + chunkSize == |InFlight(p)|
  {
    hide Flatten, Taken, LeftPending;
    FlattenHead(p.chunks);
    TakenAndLeft(s);
    FlattenConcat(p.taken, Taken(s));
  }

  lemma InFlightSplit(p: Pipe)
    ensures InFlight(p) == Flatten(p.taken) + p.pending + Flatten(p.chunks) + Behind(p)
  {
    hide Flatten;
  }

  /** The packets taken are no more than what was written. */
  lemma ReachedIsWritten(p: Pipe, chunkSize: nat)
    requires Sized(p, chunkSize) && |InFlight(p)| + p.refused * chunkSize == |p.written|
    ensures Reached(p) == |Flatten(p.taken)| <= |p.written|
    ensures p.refused > 0 ==> p.refused * chunkSize >= chunkSize
  {
    hide Flatten;
    FlattenSize(p.taken, TS_PACKAGE_SIZE);
    assert p.refused > 0 ==> p.refused * chunkSize == (p.refused - 1) * chunkSize + chunkSize;
  }

  /** While nothing was refused the packets taken are the slices written, so that they are in sync exactly
      when these are aligned. */
  lemma TakenIsReached(p: Pipe, chunkSize: nat)
    requires Sized(p, chunkSize) && InFlight(p) == p.written && Reached(p) == |Flatten(p.taken)| <= |p.written|
    ensures Aligned(p.written[..Reached(p)]) <==> Handed(p) == p.taken
  {
    hide Flatten, Aligned, InSync;
    InFlightSplit(p);
    assert p.written[..Reached(p)] == Flatten(p.taken);
    AlignedPackets(p.taken);
  }

  /** Over every interleaving of writes of any sizes with the work of the two threads. */
  lemma {:induction false} RunIntact(actions: seq<Action>, chunkSize: nat)
    requires chunkSize >= TS_PACKAGE_SIZE
    ensures Intact(Run(actions, chunkSize), chunkSize)
  {
    if actions == [] {
      assert InFlight(START) == [];
    } else {
      hide Intact, Step;
      var n := |actions| - 1;
      var p := Run(actions[..n], chunkSize);
      RunIntact(actions[..n], chunkSize);
      match actions[n]
      case Write(data) => WriteIntact(p, data, chunkSize);
      case Consume => ConsumeIntact(p, chunkSize);
      case Process => ProcessIntact(p, chunkSize);
    }
  }

  /** In every run: the packets taken and the bytes held in the stages are, in order, the bytes written, if
      and only if no chunk was refused. */
  lemma NothingRefusedExactly(actions: seq<Action>, chunkSize: nat)
    requires chunkSize >= TS_PACKAGE_SIZE
    ensures var p := Run(actions, chunkSize); InFlight(p) == p.written <==> p.refused == 0
  {
    hide Run, InFlight, InSync, Aligned;
    RunIntact(actions, chunkSize);
    ReachedIsWritten(Run(actions, chunkSize), chunkSize);
  }

  /** In every run: the packets the parser has got and the bytes held in the stages are, in order, the bytes
      written, if and only if every 188-byte slice written, as far as packets were taken, starts with 0x47;
      and then no chunk was refused and the packets are these slices. */
  lemma DeliveredExactly(actions: seq<Action>, chunkSize: nat)
    requires chunkSize >= TS_PACKAGE_SIZE
    ensures var p := Run(actions, chunkSize);
            && Reached(p) <= |p.written|
            && (Delivered(p) == p.written <==> Aligned(p.written[..Reached(p)]))
            && (Delivered(p) == p.written ==>
                  && p.refused == 0 && |p.pending| < TS_PACKAGE_SIZE
                  && Handed(p) == Blocks(p.written[..Reached(p)], TS_PACKAGE_SIZE))
  {
    hide Run, Flatten, Aligned, InSync, Blocks;
    RunIntact(actions, chunkSize);
    var p := Run(actions, chunkSize);
    ReachedIsWritten(p, chunkSize);
    InSyncShorter(p.taken);
    FlattenSize(p.taken, TS_PACKAGE_SIZE);
    FlattenSize(Handed(p), TS_PACKAGE_SIZE);
    InFlightSplit(p);
    if p.refused == 0 {
      TakenIsReached(p, chunkSize);
      assert p.written[..Reached(p)] == Flatten(p.taken) + [];
      BlocksUnique(p.taken, [], p.written[..Reached(p)], TS_PACKAGE_SIZE);
    }
  }

  /** If every 188-byte slice written starts with 0x47, all of that holds at any time. */
  lemma AlignedIsDelivered(actions: seq<Action>, chunkSize: nat)
    requires chunkSize >= TS_PACKAGE_SIZE && Aligned(Run(actions, chunkSize).written)
    ensures var p := Run(actions, chunkSize);
            Delivered(p) == p.written && p.refused == 0 && Handed(p) == p.taken && |p.pending| < TS_PACKAGE_SIZE
  {
    hide Run, Flatten, Aligned, InSync, Blocks;
    DeliveredExactly(actions, chunkSize);
    var p := Run(actions, chunkSize);
    AlignedPrefix(p.written, Reached(p));
    RunIntact(actions, chunkSize);
    TakenIsReached(p, chunkSize) by { ReachedIsWritten(p, chunkSize); }
  }

  /** Once the queues are empty, the parser has got every full slice of what left the open buffers. */
  lemma DrainedRunIsComplete(actions: seq<Action>, chunkSize: nat)
    requires chunkSize >= TS_PACKAGE_SIZE
    requires var p := Run(actions, chunkSize); Aligned(p.written) && p.queue == [] && p.chunks == []
    ensures var p := Run(actions, chunkSize);
            && |p.pending| + |p.chunk| + |p.http| < TS_PACKAGE_SIZE + chunkSize + FEIP_BUFFER_SIZE
            && p.written == Flatten(Handed(p)) + p.pending + p.chunk + p.http
            && Handed(p) == Blocks(Flatten(Handed(p)) + p.pending, TS_PACKAGE_SIZE)
  {
    hide Run, Aligned, InSync;
    var p := Run(actions, chunkSize);
    RunIntact(actions, chunkSize);
    AlignedIsDelivered(actions, chunkSize);
    assert Flatten(p.taken) + p.pending + [] + p.chunk + [] + p.http == Flatten(p.taken) + p.pending + p.chunk + p.http;
    BlocksUnique(p.taken, p.pending, Flatten(p.taken) + p.pending, TS_PACKAGE_SIZE);
  }

  // ----- losing sync -----

  /** A chunk processed out of sync: one packet is taken and dropped, the rest waits. */
  lemma ProcessOutOfSync(p: Pipe, chunkSize: nat)
    requires chunkSize >= TS_PACKAGE_SIZE && p.chunks != [] && |p.chunks[0]| == chunkSize
    requires p.pending != [] ==> p.pending[0] != SYNC_BYTE
    requires p.pending == [] ==> p.chunks[0][0] != SYNC_BYTE
    requires p.pending == [] || |p.pending| >= TS_PACKAGE_SIZE
    ensures var q := Step(p, Process, chunkSize);
            var s := p.pending + if |p.pending| <= chunkSize then p.chunks[0] else [];
            && |s| >= TS_PACKAGE_SIZE && q.pending == s[TS_PACKAGE_SIZE..] && q.chunks == p.chunks[1..]
            && q.refused == p.refused + if |p.pending| <= chunkSize then 0 else 1
  {
  }

  lemma RunSnoc(actions: seq<Action>, a: Action, chunkSize: nat)
    requires chunkSize > 0
    ensures Run(actions + [a], chunkSize) == Step(Run(actions, chunkSize), a, chunkSize)
  {
    assert (actions + [a])[..|actions|] == actions;
  }

  lemma FirstBlocks(z: seq<byte>, n: nat)
    requires n > 0 && |z| >= 3 * n
    ensures var bs := Blocks(z, n);
            |bs| >= 3 && bs[0] == z[..n] && bs[1] == z[n..2 * n] && bs[2] == z[2 * n..3 * n]
  {
    var r1, r2 := z[n..], z[n..][n..];
    assert Blocks(z, n) == [z[..n]] + Blocks(r1, n);
    assert Blocks(r1, n) == [r1[..n]] + Blocks(r2, n);
    assert Blocks(r2, n) == [r2[..n]] + Blocks(r2[n..], n);
  }

  lemma OneBlock(z: seq<byte>, n: nat)
    requires |z| == n > 0
    ensures Blocks(z, n) == [z]
  {
    assert Flatten([z]) + [] == z by { FlattenHead([z]); }
    BlocksUnique([z], [], z, n);
  }

  /** A full buffer is written and cut into chunks. */
  lemma WriteAndConsume(p: Pipe, z: seq<byte>, chunkSize: nat)
    requires p == START && |z| == FEIP_BUFFER_SIZE && 0 < chunkSize && 3 * chunkSize <= |z|
    ensures var q := Step(Step(p, Write(z), chunkSize), Consume, chunkSize);
            && q.written == z && q.pending == [] && q.refused == 0
            && Cut(q.chunks, z, chunkSize)
  {
    hide Blocks, Tail;
    var q := Step(p, Write(z), chunkSize);
    assert [] + z == z;
    OneBlock(z, FEIP_BUFFER_SIZE);
    assert q.queue == [] + [z] == [z] && q.chunk == [] && q.chunks == [];
    FirstBlocks(z, chunkSize);
    assert [] + Blocks(z, chunkSize) == Blocks(z, chunkSize);
  }

  /** The first three chunks are the first bytes. */
  predicate Cut(chunks: seq<seq<byte>>, z: seq<byte>, n: nat)
    requires 3 * n <= |z|
  {
    && |chunks| >= 3
    && chunks[0] == z[..n] && chunks[1] == z[n..2 * n] && chunks[2] == z[2 * n..3 * n]
  }

  /** Two chunks wait, the third is refused. */
  lemma ThreeChunksOutOfSync(p: Pipe, z: seq<byte>, n: nat)
    requires n > 2 * TS_PACKAGE_SIZE && 3 * n <= |z| && forall i :: 0 <= i < |z| ==> z[i] != SYNC_BYTE
    requires p.pending == [] && p.refused == 0 && Cut(p.chunks, z, n)
    ensures var q := Step(Step(Step(p, Process, n), Process, n), Process, n);
            q.refused == 1 && q.written == p.written
  {
    ProcessOutOfSync(p, n);
    var p1 := Step(p, Process, n);
    assert p1.pending == z[TS_PACKAGE_SIZE..n];
    ProcessOutOfSync(p1, n);
    var p2 := Step(p1, Process, n);
    assert z[TS_PACKAGE_SIZE..n] + z[n..2 * n] == z[TS_PACKAGE_SIZE..2 * n];
    assert p2.pending == z[2 * TS_PACKAGE_SIZE..2 * n];
    ProcessOutOfSync(p2, n);
  }

  function OutOfSyncRun(z: seq<byte>): seq<Action> {
    [] + [Write(z)] + [Consume] + [Process] + [Process] + [Process]
  }

  /** A buffer without sync bytes, with chunks of any size above two packets and up to a third of the
      buffer: the third chunk finds the first two still waiting and is lost. */
  lemma OutOfSyncLosesChunk(z: seq<byte>, chunkSize: nat)
    requires |z| == FEIP_BUFFER_SIZE && forall i :: 0 <= i < |z| ==> z[i] != SYNC_BYTE
    requires 2 * TS_PACKAGE_SIZE < chunkSize && 3 * chunkSize <= FEIP_BUFFER_SIZE
    ensures var p := Run(OutOfSyncRun(z), chunkSize);
            p.written == z && p.refused == 1 && InFlight(p) != z && Delivered(p) != z
  {
    var n := chunkSize;
    assert Run([], n) == START;
    hide Run, InFlight, Delivered;
    WriteAndConsume(START, z, n);
    ThreeChunksOutOfSync(Step(Step(START, Write(z), n), Consume, n), z, n);
    hide Step, Cut;
    var a := [] + [Write(z)] + [Consume];
    RunSnoc([], Write(z), n);
    RunSnoc([] + [Write(z)], Consume, n);
    RunSnoc(a, Process, n);
    RunSnoc(a + [Process], Process, n);
    RunSnoc(a + [Process] + [Process], Process, n);
    NothingRefusedExactly(OutOfSyncRun(z), n);
    DeliveredExactly(OutOfSyncRun(z), n);
  }
}

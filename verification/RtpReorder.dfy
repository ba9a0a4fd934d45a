/** The reorder buffer of the RTP listener as functions on its state: the expected number, the
    cache of early packets and the packets delivered so far. */
module RtpReorder {
  import opened Bytes
  import opened Options
  import opened RtpSequence

  const MAX_RTP_BUFFER_CACHE := 5
  const UNSYNCED := -1

  datatype Packet = Packet(seqNum: SeqNum, payload: seq<byte>)

  datatype State = State(next: int, cache: seq<Packet>, out: seq<Packet>)

  predicate Synced(s: State) {
    0 <= s.next < MODULUS
  }

  const INITIAL := State(UNSYNCED, [], [])

  /** Deliver `p` and expect the number after it. */
  function Push(s: State, p: Packet): State {
    State(Succ(p.seqNum), s.cache, s.out + [p])
  }

  /** Deliver every packet of `ps` in list order. */
  function PushAll(s: State, ps: seq<Packet>): State
    decreases |ps|
  {
    if ps == [] then s else PushAll(Push(s, ps[0]), ps[1..])
  }

  /** Place `p` before the first cached packet that compares greater. */
  function Insert(cache: seq<Packet>, p: Packet): (r: seq<Packet>)
    ensures |r| == |cache| + 1
  {
    if cache == [] then [p]
    else if DiffSequenceNumber(cache[0].seqNum, p.seqNum) > 0 then [p] + cache
    else [cache[0]] + Insert(cache[1..], p)
  }

  lemma {:induction false} InsertConserves(cache: seq<Packet>, p: Packet)
    ensures multiset(Insert(cache, p)) == multiset(cache) + multiset{p}
  {
    if cache != [] {
      assert cache == [cache[0]] + cache[1..];
      InsertConserves(cache[1..], p);
    }
  }

  /** Where the walk for the insertion stops. */
  lemma {:induction false} InsertAt(cache: seq<Packet>, p: Packet, i: nat)
    requires i <= |cache|
    requires forall k :: 0 <= k < i ==> DiffSequenceNumber(cache[k].seqNum, p.seqNum) <= 0
    requires i < |cache| ==> DiffSequenceNumber(cache[i].seqNum, p.seqNum) > 0
    ensures Insert(cache, p) == cache[..i] + [p] + cache[i..]
  {
    hide DiffSequenceNumber;
    if i > 0 {
      InsertAt(cache[1..], p, i - 1);
      assert cache[1..][i - 1..] == cache[i..];
      assert cache[..i] == [cache[0]] + cache[1..][..i - 1];
    }
  }

  /** One walk over the cache, delivering each packet that is the expected one when reached. */
  function Pass(s: State): (r: State)
    requires Synced(s)
    ensures Synced(r)
    ensures |r.cache| <= |s.cache|
    ensures |r.cache| == |s.cache| ==> r == s && forall p <- s.cache :: p.seqNum != s.next
    decreases |s.cache|
  {
    if s.cache == [] then s
    else
      var c, rest := s.cache[0], s.cache[1..];
      if c.seqNum == s.next then Pass(State(Succ(c.seqNum), rest, s.out + [c]))
      else
        var r := Pass(s.(cache := rest));
        r.(cache := [c] + r.cache)
  }

  /** The packets of a state, delivered or cached. */
  function Packets(s: State): multiset<Packet> {
    multiset(s.out) + multiset(s.cache)
  }

  lemma {:induction false} PassConserves(s: State)
    requires Synced(s)
    ensures Packets(Pass(s)) == Packets(s)
    decreases |s.cache|
  {
    if s.cache != [] {
      var c, rest := s.cache[0], s.cache[1..];
      assert s.cache == [c] + rest;
      if c.seqNum == s.next {
        PassConserves(State(Succ(c.seqNum), rest, s.out + [c]));
      } else {
        PassConserves(s.(cache := rest));
        var r := Pass(s.(cache := rest));
        assert Pass(s) == State(r.next, [c] + r.cache, r.out);
        assert Packets(Pass(s)) == multiset{c} + Packets(r);
        assert Packets(s) == multiset{c} + Packets(s.(cache := rest));
      }
    }
  }

  /** Steps from `next` to the nearest cached number. */
  function Nearest(next: SeqNum, cache: seq<Packet>): nat {
    if cache == [] then 0
    else if |cache| == 1 || Ahead(next, cache[0].seqNum) <= Nearest(next, cache[1..])
    then Ahead(next, cache[0].seqNum)
    else Nearest(next, cache[1..])
  }

  /** Stepping over a number that is not cached brings the nearest cached one closer. */
  lemma {:induction false} NearestShrinks(next: SeqNum, cache: seq<Packet>)
    requires cache != []
    requires forall p <- cache :: p.seqNum != next
    ensures Nearest(Succ(next), cache) == Nearest(next, cache) - 1
  {
    assert Ahead(Succ(next), cache[0].seqNum) == Ahead(next, cache[0].seqNum) - 1;
    if |cache| > 1 {
      NearestShrinks(next, cache[1..]);
    }
  }

  /** Walk the cache until nothing more can go, stepping over the expected number while the cache
      is full. */
  function Drain(s: State): (r: State)
    requires Synced(s)
    ensures Synced(r)
    ensures |r.cache| <= |s.cache|
    ensures |r.cache| != MAX_RTP_BUFFER_CACHE
    ensures forall p <- r.cache :: p.seqNum != r.next
    decreases |s.cache|, Nearest(s.next, s.cache)
  {
    var p := Pass(s);
    if p.cache != [] && |p.cache| < |s.cache| then Drain(p)
    else if |p.cache| == MAX_RTP_BUFFER_CACHE then
      NearestShrinks(s.next, s.cache);
      Drain(p.(next := Succ(p.next)))
    else p
  }

  lemma {:induction false} DrainConserves(s: State)
    requires Synced(s)
    ensures Packets(Drain(s)) == Packets(s)
    decreases |s.cache|, Nearest(s.next, s.cache)
  {
    var p := Pass(s);
    PassConserves(s);
    if p.cache != [] && |p.cache| < |s.cache| {
      DrainConserves(p);
    } else if |p.cache| == MAX_RTP_BUFFER_CACHE {
      NearestShrinks(s.next, s.cache);
      DrainConserves(p.(next := Succ(p.next)));
    }
  }

  /** One arrival. None is the branch that calls abort(). */
  function Arrive(s: State, p: Packet): Option<State>
    requires s.next == UNSYNCED || Synced(s)
  {
    var cached := s.cache != [];
    if p.seqNum == s.next || s.next == UNSYNCED then
      var r := Push(s, p);
      Some(if cached then Drain(r) else r)
    else if IsDiscontinuity(s.next, p.seqNum) then
      Some(Push(PushAll(s, s.cache).(cache := []), p))
    else if |s.cache| < MAX_RTP_BUFFER_CACHE then
      var r := s.(cache := Insert(s.cache, p));
      Some(if cached then Drain(r) else r)
    else None
  }

  /** What holds between arrivals. */
  predicate Quiet(s: State) {
    && (s.next == UNSYNCED || Synced(s))
    && (s.next == UNSYNCED ==> s == INITIAL)
    && |s.cache| < MAX_RTP_BUFFER_CACHE
    && forall p <- s.cache :: p.seqNum != s.next
  }

  lemma {:induction false} PushAllDelivers(s: State, ps: seq<Packet>)
    ensures PushAll(s, ps).out == s.out + ps
    ensures PushAll(s, ps).cache == s.cache
    ensures PushAll(s, ps).next == if ps == [] then s.next else Succ(ps[|ps| - 1].seqNum)
    decreases |ps|
  {
    if ps != [] {
      PushAllDelivers(Push(s, ps[0]), ps[1..]);
      assert s.out + [ps[0]] + ps[1..] == s.out + ps;
    }
  }

  /** One arrival never aborts, leaves fewer than five packets cached, none of them the expected
      one, and neither loses nor duplicates a packet. */
  lemma ArriveKeepsQuiet(s: State, p: Packet)
    requires Quiet(s)
    ensures Arrive(s, p).Some?
    ensures Quiet(Arrive(s, p).value)
    ensures Packets(Arrive(s, p).value) == Packets(s) + multiset{p}
  {
    if p.seqNum == s.next || s.next == UNSYNCED {
      DrainConserves(Push(s, p));
    } else if IsDiscontinuity(s.next, p.seqNum) {
      PushAllDelivers(s, s.cache);
    } else {
      InsertConserves(s.cache, p);
      DrainConserves(s.(cache := Insert(s.cache, p)));
    }
  }

  /** A whole run, from the listener's initial state. */
  function Run(arrivals: seq<Packet>): Option<State>
    ensures Run(arrivals).Some? ==> Run(arrivals).value.next == UNSYNCED || Synced(Run(arrivals).value)
  {
    if arrivals == [] then Some(INITIAL)
    else
      var n := |arrivals| - 1;
      match Run(arrivals[..n])
      case None => None
      case Some(s) => Arrive(s, arrivals[n])
  }

  /** Over every run: no abort, at most four packets cached between arrivals, none of them expected,
      and the delivered and cached packets are together exactly the packets that arrived. */
  lemma {:induction false} RunConserves(arrivals: seq<Packet>)
    ensures Run(arrivals).Some?
    ensures Quiet(Run(arrivals).value)
    ensures Packets(Run(arrivals).value) == multiset(arrivals)
  {
    if arrivals != [] {
      var n := |arrivals| - 1;
      assert arrivals == arrivals[..n] + [arrivals[n]];
      RunConserves(arrivals[..n]);
      ArriveKeepsQuiet(Run(arrivals[..n]).value, arrivals[n]);
    }
  }
}

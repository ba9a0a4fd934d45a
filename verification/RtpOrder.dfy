/** The order in which the reorder buffer delivers: over runs without late, duplicate or
    discontinuous arrivals, and over runs that permute a consecutive stretch of packets. */
module RtpOrder {
  import opened Options
  import opened RtpSequence
  import opened RtpReorder

  /** The cache holds numbers `low` to ten ahead of `next`, strictly ascending in serial order. */
  predicate Ascending(next: SeqNum, cache: seq<Packet>, low: nat) {
    cache == [] ||
    var d := Ahead(next, cache[0].seqNum);
    low <= d <= MAX_SEQNUM_DIFF_FOR_DISCONTINUITY && Ascending(next, cache[1..], d + 1)
  }

  /** Ascending, spelt out by position. */
  lemma {:induction false} AscendingByPosition(next: SeqNum, cache: seq<Packet>, low: nat, i: nat)
    requires Ascending(next, cache, low) && i < |cache|
    ensures low + i <= Ahead(next, cache[i].seqNum) <= MAX_SEQNUM_DIFF_FOR_DISCONTINUITY
    ensures i > 0 ==> Ahead(next, cache[i - 1].seqNum) < Ahead(next, cache[i].seqNum)
  {
    if i > 0 {
      AscendingByPosition(next, cache[1..], Ahead(next, cache[0].seqNum) + 1, i - 1);
    }
  }

  lemma {:induction false} AscendingWeaken(next: SeqNum, cache: seq<Packet>, low: nat, lower: nat)
    requires Ascending(next, cache, low) && lower <= low
    ensures Ascending(next, cache, lower)
    ensures forall p <- cache :: low <= Ahead(next, p.seqNum) <= MAX_SEQNUM_DIFF_FOR_DISCONTINUITY
  {
    if cache != [] {
      assert cache == [cache[0]] + cache[1..];
      AscendingWeaken(next, cache[1..], Ahead(next, cache[0].seqNum) + 1, low);
    }
  }

  /** Moving `next` one up brings every cached number one closer. */
  lemma {:induction false} AscendingShift(next: SeqNum, cache: seq<Packet>, low: nat)
    requires Ascending(next, cache, low + 1)
    ensures Ascending(Succ(next), cache, low)
  {
    if cache != [] {
      AscendingShift(next, cache[1..], Ahead(next, cache[0].seqNum));
    }
  }

  /** Inserting a number that is ahead and not yet cached keeps the cache ascending. */
  lemma {:induction false} InsertAscending(next: SeqNum, cache: seq<Packet>, p: Packet, low: nat)
    requires Ascending(next, cache, low)
    requires low <= Ahead(next, p.seqNum) <= MAX_SEQNUM_DIFF_FOR_DISCONTINUITY
    requires forall c <- cache :: c.seqNum != p.seqNum
    ensures Ascending(next, Insert(cache, p), low)
  {
    if cache != [] {
      var c, rest := cache[0], cache[1..];
      assert cache == [c] + rest;
      if DiffSequenceNumber(c.seqNum, p.seqNum) > 0 {
        assert ([p] + cache)[1..] == cache;
      } else {
        InsertAscending(next, rest, p, Ahead(next, c.seqNum) + 1);
        assert ([c] + Insert(rest, p))[1..] == Insert(rest, p);
      }
    }
  }

  /** How many packets at the head of the cache carry `next` and its successors without a gap. */
  function Consecutive(next: SeqNum, cache: seq<Packet>): (k: nat)
    ensures k <= |cache|
    decreases |cache|
  {
    if cache == [] || cache[0].seqNum != next then 0 else 1 + Consecutive(Succ(next), cache[1..])
  }

  /** One walk over an ascending cache delivers exactly its gapless head. */
  lemma {:induction false} PassDelivers(s: State)
    requires Synced(s) && Ascending(s.next, s.cache, 0)
    ensures var k := Consecutive(s.next, s.cache);
            && Pass(s).cache == s.cache[k..]
            && Pass(s).out == s.out + s.cache[..k]
            && Pass(s).next == (if k == 0 then s.next else Succ(s.cache[k - 1].seqNum))
    decreases |s.cache|
  {
    if s.cache != [] {
      var c, rest := s.cache[0], s.cache[1..];
      if c.seqNum == s.next {
        var t := State(Succ(c.seqNum), rest, s.out + [c]);
        AscendingShift(s.next, rest, 0);
        assert Pass(s) == Pass(t) && Consecutive(s.next, s.cache) == Consecutive(t.next, rest) + 1;
        PassDelivers(t);
        hide *;
        var k := Consecutive(t.next, rest);
        assert s.cache[k + 1..] == rest[k..];
        assert s.out + s.cache[..k + 1] == t.out + rest[..k];
        assert k > 0 ==> rest[k - 1] == s.cache[k];
      } else {
        AheadKeepsAll(s);
        assert s.out + s.cache[..0] == s.out;
      }
    }
  }

  lemma AheadKeepsAll(s: State)
    requires Synced(s) && Ascending(s.next, s.cache, 0)
    requires s.cache != [] && s.cache[0].seqNum != s.next
    ensures Pass(s) == s && Ascending(s.next, s.cache, 1)
  {
    AscendingWeaken(s.next, s.cache, 1, 1);
    PassKeepsAll(s);
  }

  lemma {:induction false} PassAscending(s: State)
    requires Synced(s) && Ascending(s.next, s.cache, 0)
    ensures Ascending(Pass(s).next, Pass(s).cache, 1)
    decreases |s.cache|
  {
    if s.cache != [] {
      if s.cache[0].seqNum == s.next {
        AscendingShift(s.next, s.cache[1..], 0);
        PassAscending(State(Succ(s.next), s.cache[1..], s.out + [s.cache[0]]));
      } else {
        AheadKeepsAll(s);
      }
    }
  }

  lemma {:induction false} PassKeepsAll(s: State)
    requires Synced(s)
    requires forall p <- s.cache :: p.seqNum != s.next
    ensures Pass(s) == s
    decreases |s.cache|
  {
    if s.cache != [] {
      assert s.cache == [s.cache[0]] + s.cache[1..];
      PassKeepsAll(s.(cache := s.cache[1..]));
    }
  }

  /** A walk delivers nothing and changes nothing exactly when the expected number is not cached. */
  lemma PassIdleExactly(s: State)
    requires Synced(s)
    ensures Pass(s) == s <==> forall p <- s.cache :: p.seqNum != s.next
    ensures |Pass(s).cache| == |s.cache| <==> Pass(s) == s
  {
    if forall p <- s.cache :: p.seqNum != s.next {
      PassKeepsAll(s);
    }
  }

  /** Draining an ascending cache that is not stuck full is one walk. */
  lemma DrainRoomy(s: State)
    requires Synced(s) && Ascending(s.next, s.cache, 0)
    requires |s.cache| <= MAX_RTP_BUFFER_CACHE
    requires |s.cache| < MAX_RTP_BUFFER_CACHE || s.cache[0].seqNum == s.next
    ensures Drain(s) == Pass(s)
  {
    PassAscending(s);
    var r := Pass(s);
    AscendingWeaken(r.next, r.cache, 1, 0);
    PassKeepsAll(r);
  }

  /** Draining a full ascending cache steps over the numbers before its first packet, at most six
      and none of them cached, and then walks once. */
  lemma {:induction false} DrainFull(s: State)
    requires Synced(s) && Ascending(s.next, s.cache, 0)
    requires |s.cache| == MAX_RTP_BUFFER_CACHE
    ensures Ahead(s.next, s.cache[0].seqNum) <= 6
    ensures forall p <- s.cache :: Ahead(s.next, p.seqNum) >= Ahead(s.next, s.cache[0].seqNum)
    ensures Ascending(s.cache[0].seqNum, s.cache, 0)
    ensures Drain(s) == Pass(s.(next := s.cache[0].seqNum))
    decreases Ahead(s.next, s.cache[0].seqNum)
  {
    var d := Ahead(s.next, s.cache[0].seqNum);
    AscendingByPosition(s.next, s.cache[1..], d + 1, 3);
    AscendingWeaken(s.next, s.cache, d, d);
    if d == 0 {
      DrainRoomy(s);
    } else {
      AscendingShift(s.next, s.cache, d - 1);
      var t := s.(next := Succ(s.next));
      AscendingWeaken(t.next, t.cache, d - 1, 0);
      DrainFull(t);
      PassKeepsAll(s);
    }
  }

  // ----- runs without late, duplicate or discontinuous arrivals -----

  /** Each delivered number follows the one before it by one to seven. */
  predicate Forward(out: seq<Packet>) {
    forall i {:trigger out[i]} :: 0 <= i < |out| - 1 ==> 1 <= Ahead(out[i].seqNum, out[i + 1].seqNum) <= 7
  }

  /** `p` is at most ten ahead of the expected number and not cached yet. */
  predicate Regular(s: State, p: Packet) {
    Synced(s) ==>
      && Ahead(s.next, p.seqNum) <= MAX_SEQNUM_DIFF_FOR_DISCONTINUITY
      && forall c <- s.cache :: c.seqNum != p.seqNum
  }

  predicate Orderly(s: State) {
    && Quiet(s)
    && Forward(s.out)
    && (Synced(s) ==>
      && s.out != []
      && s.next == Succ(s.out[|s.out| - 1].seqNum)
      && Ascending(s.next, s.cache, 1))
  }

  /** A walk that starts at most six numbers past the last delivered one keeps the output forward. */
  lemma {:induction false} PassForward(s: State)
    requires Synced(s) && Ascending(s.next, s.cache, 0)
    requires s.out != [] && Forward(s.out)
    requires 1 <= Ahead(s.out[|s.out| - 1].seqNum, s.next) <= 7
    ensures Pass(s).out != [] && Forward(Pass(s).out)
    ensures (s.cache != [] && s.cache[0].seqNum == s.next)
            || s.next == Succ(s.out[|s.out| - 1].seqNum)
            ==> Pass(s).next == Succ(Pass(s).out[|Pass(s).out| - 1].seqNum)
    decreases |s.cache|
  {
    if s.cache != [] {
      if s.cache[0].seqNum == s.next {
        var t := State(Succ(s.next), s.cache[1..], s.out + [s.cache[0]]);
        AscendingShift(s.next, t.cache, 0);
        PassForward(t);
      } else {
        AheadKeepsAll(s);
      }
    }
  }

  /** What a walk leaves behind when it delivers something or starts right after the last delivery. */
  lemma PassSettles(s: State)
    requires Synced(s) && Ascending(s.next, s.cache, 0)
    requires s.out != [] && Forward(s.out)
    requires 1 <= Ahead(s.out[|s.out| - 1].seqNum, s.next) <= 7
    requires (s.cache != [] && s.cache[0].seqNum == s.next) || s.next == Succ(s.out[|s.out| - 1].seqNum)
    requires |Pass(s).cache| < MAX_RTP_BUFFER_CACHE
    ensures Orderly(Pass(s))
  {
    hide Pass, Ascending, Forward;
    PassAscending(s);
    PassForward(s);
    AscendingWeaken(Pass(s).next, Pass(s).cache, 1, 1);
  }

  lemma DrainOrderly(s: State)
    requires Synced(s) && Ascending(s.next, s.cache, 0)
    requires |s.cache| <= MAX_RTP_BUFFER_CACHE
    requires s.out != [] && Forward(s.out) && s.next == Succ(s.out[|s.out| - 1].seqNum)
    ensures Orderly(Drain(s))
  {
    if |s.cache| == MAX_RTP_BUFFER_CACHE {
      DrainFull(s);
      PassSettles(s.(next := s.cache[0].seqNum));
    } else {
      DrainRoomy(s);
      PassSettles(s);
    }
  }

  lemma ArriveOrderly(s: State, p: Packet)
    requires Orderly(s) && Regular(s, p)
    ensures Arrive(s, p).Some? && Orderly(Arrive(s, p).value)
  {
    hide Drain, Insert;
    ArriveKeepsQuiet(s, p);
    if s.next == UNSYNCED {
      assert Arrive(s, p).value == Push(s, p);
    } else if p.seqNum == s.next {
      ExpectedOrderly(s, p);
    } else {
      EarlyOrderly(s, p);
    }
  }

  lemma ExpectedOrderly(s: State, p: Packet)
    requires Orderly(s) && Synced(s) && p.seqNum == s.next
    ensures Arrive(s, p).Some? && Orderly(Arrive(s, p).value)
  {
    hide Drain, Insert;
    AscendingShift(s.next, s.cache, 0);
    if s.cache != [] {
      DrainOrderly(Push(s, p));
    }
  }

  lemma EarlyOrderly(s: State, p: Packet)
    requires Orderly(s) && Synced(s) && Regular(s, p) && p.seqNum != s.next
    ensures Arrive(s, p).Some? && Orderly(Arrive(s, p).value)
  {
    hide Drain, Forward, Ascending;
    InsertAscending(s.next, s.cache, p, 1);
    DiscontinuityExactly(s.next, p.seqNum);
    var t := s.(cache := Insert(s.cache, p));
    AscendingWeaken(t.next, t.cache, 1, 0);
    if s.cache != [] {
      DrainOrderly(t);
    }
  }

  /** The state after a run; the run cannot have aborted. */
  function After(arrivals: seq<Packet>): (s: State)
    ensures Run(arrivals) == Some(s) && Quiet(s)
  {
    RunConserves(arrivals);
    Run(arrivals).value
  }

  predicate RegularRun(arrivals: seq<Packet>) {
    arrivals == [] ||
    var n := |arrivals| - 1;
    RegularRun(arrivals[..n]) && Regular(After(arrivals[..n]), arrivals[n])
  }

  /** While no arrival is late, duplicate or discontinuous: the cached numbers are one to ten ahead
      of the expected one in ascending order, and every delivered number is one to seven after the
      one delivered before it, however often the numbers wrap. */
  lemma {:induction false} RegularRunIsOrderly(arrivals: seq<Packet>)
    requires RegularRun(arrivals)
    ensures Orderly(After(arrivals))
  {
    if arrivals != [] {
      var n := |arrivals| - 1;
      RegularRunIsOrderly(arrivals[..n]);
      ArriveOrderly(After(arrivals[..n]), arrivals[n]);
    }
  }

  /** After a regular run, a discontinuity delivers the cache in serial order, then the newcomer. */
  lemma FlushInOrder(s: State, p: Packet)
    requires Orderly(s) && Synced(s) && IsDiscontinuity(s.next, p.seqNum)
    ensures Arrive(s, p) == Some(State(Succ(p.seqNum), [], s.out + s.cache + [p]))
    ensures forall i, j :: 0 <= i < j < |s.cache| ==>
              Ahead(s.next, s.cache[i].seqNum) < Ahead(s.next, s.cache[j].seqNum)
  {
    PushAllDelivers(s, s.cache);
    forall i, j | 0 <= i < j < |s.cache|
      ensures Ahead(s.next, s.cache[i].seqNum) < Ahead(s.next, s.cache[j].seqNum)
    {
      AscendingPair(s.next, s.cache, 1, i, j);
    }
  }

  lemma {:induction false} AscendingPair(next: SeqNum, cache: seq<Packet>, low: nat, i: nat, j: nat)
    requires Ascending(next, cache, low) && i < j < |cache|
    ensures Ahead(next, cache[i].seqNum) < Ahead(next, cache[j].seqNum)
    decreases j
  {
    AscendingByPosition(next, cache, low, j);
    if i < j - 1 {
      AscendingPair(next, cache, low, i, j - 1);
    }
  }

  // ----- runs that permute a consecutive stretch -----

  /** The sequence number of the `n`-th packet of a stretch that starts at `base`. */
  function Number(base: SeqNum, n: nat): SeqNum {
    (base + n) % MODULUS
  }

  /** `orig` carries consecutive numbers from `base` on, wrapping as often as its length asks. */
  predicate Consecutively(orig: seq<Packet>, base: SeqNum) {
    forall n :: 0 <= n < |orig| ==> orig[n].seqNum == Number(base, n)
  }

  lemma NumberAhead(base: SeqNum, m: nat, n: nat)
    requires m <= n <= m + MAX_SEQNUM_DIFF_FOR_DISCONTINUITY
    ensures Ahead(Number(base, m), Number(base, n)) == n - m
    ensures Number(base, m + 1) == Succ(Number(base, m))
  {
  }

  function From(a: seq<nat>, k: nat): set<nat> {
    set x | x in a && x >= k
  }

  lemma NumberOrder(base: SeqNum, m: nat, h: nat, n: nat)
    requires m <= h <= m + MAX_SEQNUM_DIFF_FOR_DISCONTINUITY
    requires m <= n <= m + MAX_SEQNUM_DIFF_FOR_DISCONTINUITY
    ensures DiffSequenceNumber(Number(base, h), Number(base, n)) > 0 <==> h > n
  {
    NumberAhead(base, m, h);
    NumberAhead(base, m, n);
  }

  /** The least number from `k` on that does not occur in `a`. */
  function FirstMissing(a: seq<nat>, k: nat): (m: nat)
    ensures k <= m && m !in a
    ensures forall x :: k <= x < m ==> x in a
    decreases From(a, k)
  {
    if k in a then
      assert k in From(a, k) && k !in From(a, k + 1);
      FirstMissing(a, k + 1)
    else k
  }

  lemma FirstMissingIs(a: seq<nat>, m: nat)
    requires m !in a && forall x: nat :: x < m ==> x in a
    ensures FirstMissing(a, 0) == m
  {
  }

  /** The order `a` in which the packets 0, 1, 2, ... of a stretch arrive: 0 first, none twice, none
      more than ten past the first missing one, and never more than four waiting for it. */
  predicate Reorderable(a: seq<nat>) {
    a == [] ||
    var k := |a| - 1;
    && Reorderable(a[..k])
    && (k == 0 ==> a[0] == 0)
    && a[k] !in a[..k]
    && a[k] <= FirstMissing(a[..k], 0) + MAX_SEQNUM_DIFF_FOR_DISCONTINUITY
    && |a| - FirstMissing(a, 0) <= 4
  }

  // The receiver on unbounded numbers: `m` comes next, `held` waits in ascending order.
  datatype Ideal = Ideal(m: nat, held: seq<nat>)

  function Advance(m: nat, held: seq<nat>): Ideal
    decreases |held|
  {
    if held != [] && held[0] == m then Advance(m + 1, held[1..]) else Ideal(m, held)
  }

  function Place(held: seq<nat>, n: nat): seq<nat> {
    if held == [] || held[0] > n then [n] + held else [held[0]] + Place(held[1..], n)
  }

  function IdealArrive(i: Ideal, n: nat): Ideal {
    if n == i.m then Advance(i.m + 1, i.held) else Ideal(i.m, Place(i.held, n))
  }

  function IdealRun(a: seq<nat>): Ideal {
    if a == [] then Ideal(0, []) else IdealArrive(IdealRun(a[..|a| - 1]), a[|a| - 1])
  }

  predicate AscendingFrom(m: nat, held: seq<nat>, low: nat) {
    held == [] ||
    (&& low <= held[0] <= m + MAX_SEQNUM_DIFF_FOR_DISCONTINUITY
     && AscendingFrom(m, held[1..], held[0] + 1))
  }

  predicate Within(held: seq<nat>, orig: seq<Packet>) {
    forall k :: 0 <= k < |held| ==> held[k] < |orig|
  }

  function Pick(orig: seq<Packet>, held: seq<nat>): (ps: seq<Packet>)
    requires Within(held, orig)
    ensures |ps| == |held|
  {
    if held == [] then [] else
      [orig[held[0]]] + Pick(orig, held[1..])
  }

  /** The listener state that an ideal state stands for. */
  function Image(orig: seq<Packet>, base: SeqNum, i: Ideal): State
    requires i.m <= |orig| && Within(i.held, orig)
  {
    State(Number(base, i.m), Pick(orig, i.held), orig[..i.m])
  }

  lemma {:induction false} PickAscending(orig: seq<Packet>, base: SeqNum, m: nat, held: seq<nat>, low: nat)
    requires Consecutively(orig, base) && Within(held, orig)
    requires AscendingFrom(m, held, m + low)
    ensures Ascending(Number(base, m), Pick(orig, held), low)
  {
    if held != [] {
      assert held == [held[0]] + held[1..];
      NumberAhead(base, m, held[0]);
      PickAscending(orig, base, m, held[1..], held[0] + 1 - m);
    }
  }

  /** A walk over the cache is the ideal receiver's advance. */
  lemma {:induction false} PassIsAdvance(orig: seq<Packet>, base: SeqNum, m: nat, held: seq<nat>)
    requires Consecutively(orig, base) && m <= |orig| && Within(held, orig)
    requires AscendingFrom(m, held, m)
    ensures var i := Advance(m, held);
            && i.m <= |orig| && Within(i.held, orig)
            && Pass(Image(orig, base, Ideal(m, held))) == Image(orig, base, i)
    decreases |held|
  {
    var s := Image(orig, base, Ideal(m, held));
    PickAscending(orig, base, m, held, 0);
    if held != [] {
      assert held == [held[0]] + held[1..];
      NumberAhead(base, m, held[0]);
      if held[0] == m {
        Loosen(m, held[1..], m + 1);
        PassIsAdvance(orig, base, m + 1, held[1..]);
        assert orig[..m] + [orig[m]] == orig[..m + 1];
        assert Pick(orig, held)[1..] == Pick(orig, held[1..]);
      } else {
        AscendingWeaken(s.next, s.cache, 0, 0);
        PickAscending(orig, base, m, held, 1);
        AscendingWeaken(s.next, s.cache, 1, 0);
        PassKeepsAll(s);
      }
    }
  }

  /** Raising the base keeps an ascending list within reach. */
  lemma {:induction false} Loosen(m: nat, held: seq<nat>, low: nat)
    requires AscendingFrom(m, held, low)
    ensures AscendingFrom(m + 1, held, low)
  {
    if held != [] {
      Loosen(m, held[1..], held[0] + 1);
    }
  }

  lemma {:induction false} PlaceMeans(m: nat, held: seq<nat>, n: nat, low: nat)
    requires AscendingFrom(m, held, low) && low <= n <= m + MAX_SEQNUM_DIFF_FOR_DISCONTINUITY
    requires n !in held
    ensures AscendingFrom(m, Place(held, n), low)
    ensures |Place(held, n)| == |held| + 1
    ensures forall x :: x in Place(held, n) <==> x in held || x == n
  {
    if held != [] {
      var h, rest := held[0], held[1..];
      assert held == [h] + rest;
      if h > n {
        assert ([n] + held)[1..] == held;
      } else {
        PlaceMeans(m, rest, n, h + 1);
        assert ([h] + Place(rest, n))[1..] == Place(rest, n);
      }
    }
  }

  /** Inserting into the cache is placing the number among the held ones. */
  lemma {:induction false} InsertIsPlace(orig: seq<Packet>, base: SeqNum, m: nat, held: seq<nat>, n: nat, low: nat)
    requires Consecutively(orig, base) && Within(held, orig) && n < |orig|
    requires AscendingFrom(m, held, low) && m <= low <= n <= m + MAX_SEQNUM_DIFF_FOR_DISCONTINUITY
    requires n !in held
    ensures Within(Place(held, n), orig)
    ensures Pick(orig, Place(held, n)) == Insert(Pick(orig, held), orig[n])
  {
    if held != [] {
      var h, rest := held[0], held[1..];
      assert held == [h] + rest;
      NumberOrder(base, m, h, n);
      assert Pick(orig, held) == [orig[h]] + Pick(orig, rest);
      if h > n {
        assert ([n] + held)[1..] == held;
      } else {
        InsertIsPlace(orig, base, m, rest, n, h + 1);
        assert Place(held, n)[1..] == Place(rest, n);
      }
    }
  }

  /** The expected packet arrives: the listener delivers it and advances like the ideal receiver. */
  lemma ExpectedIsIdeal(orig: seq<Packet>, base: SeqNum, m: nat, held: seq<nat>)
    requires Consecutively(orig, base) && Within(held, orig) && m < |orig|
    requires AscendingFrom(m, held, m + 1) && |held| <= 4
    ensures var j := Advance(m + 1, held);
            && j.m <= |orig| && Within(j.held, orig)
            && Arrive(Image(orig, base, Ideal(m, held)), orig[m]) == Some(Image(orig, base, j))
  {
    hide Drain, Pass, Pick, Advance, Ascending, AscendingFrom, Insert, PushAll, IsDiscontinuity;
    var s := Image(orig, base, Ideal(m, held));
    NumberAhead(base, m, m + 1);
    assert orig[..m] + [orig[m]] == orig[..m + 1];
    var t := Push(s, orig[m]);
    assert t == Image(orig, base, Ideal(m + 1, held));
    Loosen(m, held, m + 1);
    PickAscending(orig, base, m + 1, held, 0);
    PassIsAdvance(orig, base, m + 1, held);
    DrainRoomy(t);
    if held == [] {
      NothingHeld(orig, base, m + 1);
    }
  }

  lemma NothingHeld(orig: seq<Packet>, base: SeqNum, m: nat)
    requires m <= |orig|
    ensures Pass(Image(orig, base, Ideal(m, []))) == Image(orig, base, Ideal(m, []))
    ensures Pick(orig, []) == [] && Advance(m, []) == Ideal(m, [])
  {
  }

  /** An early packet arrives: the listener caches it where the ideal receiver holds it. */
  lemma EarlyIsIdeal(orig: seq<Packet>, base: SeqNum, i: Ideal, n: nat)
    requires Consecutively(orig, base) && Within(i.held, orig) && i.m < n < |orig|
    requires AscendingFrom(i.m, i.held, i.m + 1) && n <= i.m + MAX_SEQNUM_DIFF_FOR_DISCONTINUITY
    requires n !in i.held && |i.held| <= 3
    ensures var held := Place(i.held, n);
            && Within(held, orig)
            && Arrive(Image(orig, base, i), orig[n]) == Some(Image(orig, base, Ideal(i.m, held)))
  {
    hide Drain, Pass, Pick, Place, Ascending, AscendingFrom, Insert, PushAll, IsDiscontinuity, Number;
    var s := Image(orig, base, i);
    NumberAhead(base, i.m, n);
    DiscontinuityExactly(s.next, orig[n].seqNum);
    InsertIsPlace(orig, base, i.m, i.held, n, i.m + 1);
    PlaceMeans(i.m, i.held, n, i.m + 1);
    var t := Image(orig, base, Ideal(i.m, Place(i.held, n)));
    PickAscending(orig, base, i.m, Place(i.held, n), 1);
    AscendingWeaken(t.next, t.cache, 1, 0);
    DrainRoomy(t);
    PassKeepsAll(t);
  }

  /** One arrival at the listener is one arrival at the ideal receiver. */
  lemma ArriveIsIdeal(orig: seq<Packet>, base: SeqNum, i: Ideal, n: nat)
    requires Consecutively(orig, base) && Within(i.held, orig) && i.m <= n < |orig|
    requires AscendingFrom(i.m, i.held, i.m + 1) && n <= i.m + MAX_SEQNUM_DIFF_FOR_DISCONTINUITY
    requires n !in i.held && |i.held| <= 4
    requires n != i.m ==> |i.held| <= 3
    ensures var j := IdealArrive(i, n);
            && j.m <= |orig| && Within(j.held, orig)
            && Arrive(Image(orig, base, i), orig[n]) == Some(Image(orig, base, j))
  {
    hide Arrive, Image, Advance, Place;
    if n == i.m {
      ExpectedIsIdeal(orig, base, i.m, i.held);
    } else {
      EarlyIsIdeal(orig, base, i, n);
    }
  }

  /** Advancing delivers held numbers up to the first gap and keeps the rest. */
  lemma {:induction false} AdvanceStops(b: nat, m: nat, held: seq<nat>)
    requires AscendingFrom(b, held, m) && b <= m
    ensures var r := Advance(m, held);
            && m <= r.m && r.m !in held
            && (forall x :: m <= x < r.m ==> x in held)
            && (forall x :: x in r.held <==> x in held && x > r.m)
            && |r.held| == |held| - (r.m - m)
            && AscendingFrom(r.m, r.held, r.m + 1)
    decreases |held|
  {
    if held != [] {
      var h, rest := held[0], held[1..];
      assert held == [h] + rest;
      Bounded(b, rest, h + 1);
      if h == m {
        AdvanceStops(b, m + 1, rest);
      } else {
        Raise(b, m, held, m + 1);
      }
    }
  }

  lemma {:induction false} Bounded(m: nat, held: seq<nat>, low: nat)
    requires AscendingFrom(m, held, low)
    ensures forall x <- held :: x >= low
  {
    if held != [] {
      assert held == [held[0]] + held[1..];
      Bounded(m, held[1..], held[0] + 1);
    }
  }

  lemma {:induction false} Raise(b: nat, m: nat, held: seq<nat>, low: nat)
    requires AscendingFrom(b, held, m) && b <= m && (held == [] || low <= held[0])
    ensures AscendingFrom(m, held, low)
    decreases |held|
  {
    if held != [] {
      Lift(b, m, held[1..], held[0] + 1);
    }
  }

  lemma {:induction false} Lift(b: nat, m: nat, held: seq<nat>, low: nat)
    requires AscendingFrom(b, held, low) && b <= m
    ensures AscendingFrom(m, held, low)
    decreases m - b
  {
    if b < m {
      Loosen(b, held, low);
      Lift(b + 1, m, held, low);
    }
  }

  /** The ideal receiver waits for the first missing number and holds the arrived ones beyond it. */
  ghost predicate Tracks(i: Ideal, a: seq<nat>) {
    && i.m == FirstMissing(a, 0)
    && (forall x :: x in i.held <==> x in a && x > i.m)
    && |i.held| == |a| - i.m
    && AscendingFrom(i.m, i.held, i.m + 1)
  }

  lemma IdealArriveTracks(i: Ideal, a: seq<nat>, n: nat)
    requires Tracks(i, a) && n !in a && n <= i.m + MAX_SEQNUM_DIFF_FOR_DISCONTINUITY
    ensures Tracks(IdealArrive(i, n), a + [n])
  {
    if n == i.m {
      AdvanceStops(i.m, i.m + 1, i.held);
      FirstMissingIs(a + [n], IdealArrive(i, n).m);
    } else {
      PlaceMeans(i.m, i.held, n, i.m + 1);
      FirstMissingIs(a + [n], i.m);
    }
  }

  lemma {:induction false} IdealRunTracks(a: seq<nat>)
    requires Reorderable(a)
    ensures Tracks(IdealRun(a), a)
  {
    if a != [] {
      var k := |a| - 1;
      assert a == a[..k] + [a[k]];
      IdealRunTracks(a[..k]);
      IdealArriveTracks(IdealRun(a[..k]), a[..k], a[k]);
    }
  }

  lemma {:induction false} PickSnoc(orig: seq<Packet>, a: seq<nat>, k: nat)
    requires Within(a, orig) && k <= |a|
    ensures Pick(orig, a[..k]) == Pick(orig, a)[..k]
    ensures k < |a| ==> Pick(orig, a)[k] == orig[a[k]]
  {
    if k > 0 {
      assert a[..k][1..] == a[1..][..k - 1];
      PickSnoc(orig, a[1..], k - 1);
    }
  }

  lemma {:induction false} ListenerIsIdeal(orig: seq<Packet>, base: SeqNum, a: seq<nat>)
    requires Consecutively(orig, base) && Within(a, orig) && Reorderable(a) && a != []
    ensures IdealRun(a).m <= |orig| && Within(IdealRun(a).held, orig)
    ensures After(Pick(orig, a)) == Image(orig, base, IdealRun(a))
  {
    var k := |a| - 1;
    PickSnoc(orig, a, k);
    IdealRunTracks(a[..k]);
    IdealRunTracks(a);
    var i := IdealRun(a[..k]);
    if k == 0 {
      NumberAhead(base, 0, 1);
      assert orig[..1] == [orig[0]];
      assert After([]) == INITIAL;
    } else {
      ListenerIsIdeal(orig, base, a[..k]);
      assert a[k] >= i.m;
      ArriveIsIdeal(orig, base, i, a[k]);
    }
  }

  /** A stretch of consecutive packets of any length, arriving in any reorderable order, is delivered
      in sequence order up to the first packet still missing; the rest is cached. */
  lemma DeliversInOrder(orig: seq<Packet>, base: SeqNum, a: seq<nat>)
    requires Consecutively(orig, base) && Within(a, orig) && Reorderable(a)
    ensures FirstMissing(a, 0) <= |orig|
    ensures After(Pick(orig, a)).out == orig[..FirstMissing(a, 0)]
    ensures |After(Pick(orig, a)).cache| == |a| - FirstMissing(a, 0)
  {
    IdealRunTracks(a);
    if a != [] {
      ListenerIsIdeal(orig, base, a);
    }
  }

  /** Once all of them have arrived, exactly the originals have been delivered, in sequence order. */
  lemma DeliversEverything(orig: seq<Packet>, base: SeqNum, a: seq<nat>)
    requires Consecutively(orig, base) && Within(a, orig) && Reorderable(a)
    requires forall n: nat :: n < |orig| ==> n in a
    ensures After(Pick(orig, a)).out == orig && After(Pick(orig, a)).cache == []
  {
    DeliversInOrder(orig, base, a);
    var m := FirstMissing(a, 0);
    assert m == |orig|;
    IdealRunTracks(a);
    var i := IdealRun(a);
    if a != [] {
      ListenerIsIdeal(orig, base, a);
      assert forall x <- i.held :: false;
    }
  }
}

/** Where the reorder buffer's promises end: which arrival orders are put right, and what late packets do. */
module RtpLimits {
  import opened Options
  import opened RtpSequence
  import opened RtpReorder
  import opened RtpOrder

  // ----- stepping over missing numbers -----

  /** A cached number that is the expected one is the nearest. */
  lemma {:induction false} NearestIsZero(next: SeqNum, cache: seq<Packet>)
    requires cache != [] && Nearest(next, cache) > 0
    ensures forall p <- cache :: p.seqNum != next
  {
    if |cache| > 1 {
      NearestIsZero(next, cache[1..]);
      assert cache == [cache[0]] + cache[1..];
    } else {
      assert cache == [cache[0]];
    }
  }

  /** A full cache, in whatever order, makes the listener step over all numbers up to the nearest cached one,
      the long way round if it must. */
  lemma {:induction false} DrainSkips(s: State)
    requires Synced(s) && |s.cache| == MAX_RTP_BUFFER_CACHE
    ensures Drain(s) == Drain(s.(next := (s.next + Nearest(s.next, s.cache)) % MODULUS))
    decreases Nearest(s.next, s.cache)
  {
    hide Nearest, Pass;
    if Nearest(s.next, s.cache) > 0 {
      NearestIsZero(s.next, s.cache);
      PassKeepsAll(s);
      NearestShrinks(s.next, s.cache);
      DrainSkips(s.(next := Succ(s.next)));
    }
  }

  // ----- late packets -----

  /** Packets that arrive in sequence are delivered at once. */
  lemma {:induction false} InSequence(orig: seq<Packet>, base: SeqNum)
    requires Consecutively(orig, base) && orig != []
    ensures Run(orig) == Some(State(Number(base, |orig|), [], orig))
  {
    var n := |orig| - 1;
    assert orig == orig[..n] + [orig[n]];
    NumberAhead(base, n, n + 1);
    if n == 0 {
      assert Run([]) == Some(INITIAL);
      assert orig[..0] == [];
    } else {
      InSequence(orig[..n], base);
    }
  }

  lemma RunSnoc(arrivals: seq<Packet>, p: Packet, s: State)
    requires Run(arrivals) == Some(s)
    ensures Run(arrivals + [p]) == Arrive(s, p)
  {
    assert (arrivals + [p])[..|arrivals|] == arrivals;
  }

  /** Ten packets from `base` on, and five with the first numbers of these. */
  predicate Burst(late: seq<Packet>, base: SeqNum) {
    |late| == 5 && forall i :: 0 <= i < 5 ==> late[i].seqNum == base + i
  }

  /** A late packet within ten is cached and waits. */
  lemma LateIsCached(s: State, p: Packet, base: SeqNum)
    requires base + 10 < MODULUS && s.next == base + 10 && |s.cache| < 4
    requires base <= p.seqNum < base + 5
    requires forall c <- s.cache :: base <= c.seqNum < p.seqNum
    ensures Arrive(s, p) == Some(s.(cache := s.cache + [p]))
  {
    InsertLast(s.cache, p);
    var t := s.(cache := s.cache + [p]);
    PassKeepsAll(t);
  }

  lemma {:induction false} InsertLast(cache: seq<Packet>, p: Packet)
    requires forall c <- cache :: 0 <= p.seqNum - c.seqNum < MID_SEQUENCE_NUMBER
    ensures Insert(cache, p) == cache + [p]
  {
    if cache != [] {
      assert cache == [cache[0]] + cache[1..];
      InsertLast(cache[1..], p);
    }
  }

  lemma LateStep(arrivals: seq<Packet>, s: State, p: Packet, base: SeqNum)
    requires Run(arrivals) == Some(s) && base + 10 < MODULUS && s.next == base + 10 && |s.cache| < 4
    requires base <= p.seqNum < base + 5
    requires forall i :: 0 <= i < |s.cache| ==> base <= s.cache[i].seqNum < p.seqNum
    ensures Run(arrivals + [p]) == Some(s.(cache := s.cache + [p]))
  {
    hide Run, Arrive;
    RunSnoc(arrivals, p, s);
    LateIsCached(s, p, base);
  }

  lemma TenInSequence(orig: seq<Packet>, base: SeqNum)
    requires base + 10 < MODULUS && |orig| == 10 && Consecutively(orig, base)
    ensures Run(orig) == Some(State(base + 10, [], orig))
  {
    hide Run, Consecutively;
    InSequence(orig, base);
  }

  /** Up to four late packets are cached. */
  lemma {:induction false} LateOnes(orig: seq<Packet>, late: seq<Packet>, base: SeqNum, k: nat)
    requires base + 10 < MODULUS && |orig| == 10 && Consecutively(orig, base) && Burst(late, base) && k <= 4
    ensures Run(orig + late[..k]) == Some(State(base + 10, late[..k], orig))
  {
    hide Run, Consecutively;
    if k == 0 {
      TenInSequence(orig, base);
      assert orig + late[..0] == orig && late[..0] == [];
    } else {
      LateOnes(orig, late, base, k - 1);
      assert late[..k] == late[..k - 1] + [late[k - 1]];
      assert orig + late[..k] == orig + late[..k - 1] + [late[k - 1]];
      LateStep(orig + late[..k - 1], State(base + 10, late[..k - 1], orig), late[k - 1], base);
    }
  }

  /** The fifth fills the cache; the listener steps all the way round to the first of them. */
  lemma FifthLate(s: State, late: seq<Packet>, base: SeqNum)
    requires base + 10 < MODULUS && Burst(late, base) && s.next == base + 10 && s.cache == late[..4]
    ensures Arrive(s, late[4]) == Some(State(base + 5, [], s.out + late))
  {
    InsertLast(late[..4], late[4]);
    assert late[..4] + [late[4]] == late;
    var t := s.(cache := late);
    NearestOfBurst(late, base);
    DrainSkips(t);
    var u := t.(next := base);
    BurstAscends(late, base);
    DrainRoomy(u);
    PassDelivers(u);
    hide Drain, Pass, Consecutive, Nearest, Ascending;
    assert u.cache[5..] == [] && u.cache[..5] == late;
    assert DiffSequenceNumber(s.next, late[4].seqNum) == 6;
  }

  lemma BurstAscends(late: seq<Packet>, base: SeqNum)
    requires base + 10 < MODULUS && Burst(late, base)
    ensures Ascending(base, late, 0) && Consecutive(base, late) == 5
  {
    BurstFrom(late, base, 0);
  }

  lemma {:induction false} BurstFrom(late: seq<Packet>, base: SeqNum, i: nat)
    requires base + 10 < MODULUS && Burst(late, base) && i <= 5
    ensures Ascending(base, late[i..], i) && Consecutive(base + i, late[i..]) == 5 - i
    decreases 5 - i
  {
    if i < 5 {
      BurstFrom(late, base, i + 1);
      assert late[i..][0] == late[i] && late[i..][1..] == late[i + 1..];
    }
  }

  lemma NearestOfBurst(late: seq<Packet>, base: SeqNum)
    requires base + 10 < MODULUS && Burst(late, base)
    ensures Nearest(base + 10, late) == MODULUS - 10
  {
    NearestFrom(late, base, 0);
  }

  lemma {:induction false} NearestFrom(late: seq<Packet>, base: SeqNum, i: nat)
    requires base + 10 < MODULUS && Burst(late, base) && i < 5
    ensures Nearest(base + 10, late[i..]) == MODULUS - 10 + i
    decreases 5 - i
  {
    assert late[i..][0] == late[i] && late[i..][1..] == late[i + 1..];
    if i < 4 {
      NearestFrom(late, base, i + 1);
    }
  }

  /** Five late duplicates undo the order: they are delivered a second time, and the listener expects again
      what it has delivered long ago. */
  lemma LateBurstRewinds(orig: seq<Packet>, late: seq<Packet>, base: SeqNum)
    requires base + 10 < MODULUS && |orig| == 10 && Consecutively(orig, base) && Burst(late, base)
    ensures Run(orig + late) == Some(State(base + 5, [], orig + late))
  {
    hide Run, Arrive, Consecutively;
    LateOnes(orig, late, base, 4);
    var s := State(base + 10, late[..4], orig);
    RunSnoc(orig + late[..4], late[4], s);
    FifthLate(s, late, base);
    assert orig + late[..4] + [late[4]] == orig + late;
  }

  // ----- which orders are put right -----

  /** Some place of the output holds another packet than the original there, one of the same cycle. */
  ghost predicate Deviates(orig: seq<Packet>, out: seq<Packet>) {
    exists m, h :: 0 <= m < |out| && m < h < |orig| && h < m + MODULUS && out[m] == orig[h]
  }

  lemma DeviatesAt(orig: seq<Packet>, out: seq<Packet>, m: nat, h: nat)
    requires m < |out| && m < h < |orig| && h < m + MODULUS && out[m] == orig[h]
    ensures Deviates(orig, out)
  {
  }

  lemma DeviatesLonger(orig: seq<Packet>, out: seq<Packet>, more: seq<Packet>)
    requires Deviates(orig, out) && out <= more
    ensures Deviates(orig, more)
  {
    var m, h :| 0 <= m < |out| && m < h < |orig| && h < m + MODULUS && out[m] == orig[h];
    DeviatesAt(orig, more, m, h);
  }

  lemma DeviatesIsWrong(orig: seq<Packet>, base: SeqNum, out: seq<Packet>)
    requires Consecutively(orig, base) && Deviates(orig, out)
    ensures out != orig
  {
    hide Number;
    var m, h :| 0 <= m < |out| && m < h < |orig| && h < m + MODULUS && out[m] == orig[h];
    NumbersDiffer(base, m, h);
  }

  lemma NumbersDiffer(base: SeqNum, m: nat, n: nat)
    requires m < n < m + MODULUS
    ensures Number(base, m) != Number(base, n)
  {
  }

  /** What was delivered stays delivered. */
  lemma {:induction false} PassAppends(s: State)
    requires Synced(s)
    ensures s.out <= Pass(s).out
    decreases |s.cache|
  {
    if s.cache != [] {
      var c, rest := s.cache[0], s.cache[1..];
      if c.seqNum == s.next {
        PassAppends(State(Succ(c.seqNum), rest, s.out + [c]));
      } else {
        PassAppends(s.(cache := rest));
      }
    }
  }

  lemma {:induction false} DrainAppends(s: State)
    requires Synced(s)
    ensures s.out <= Drain(s).out
    decreases |s.cache|, Nearest(s.next, s.cache)
  {
    PassAppends(s);
    var p := Pass(s);
    if p.cache != [] && |p.cache| < |s.cache| {
      DrainAppends(p);
    } else if |p.cache| == MAX_RTP_BUFFER_CACHE {
      NearestShrinks(s.next, s.cache);
      DrainAppends(p.(next := Succ(p.next)));
    }
  }

  lemma ArriveAppends(s: State, p: Packet)
    requires Quiet(s)
    ensures Arrive(s, p).Some? && s.out <= Arrive(s, p).value.out
  {
    ArriveKeepsQuiet(s, p);
    if p.seqNum == s.next || s.next == UNSYNCED {
      DrainAppends(Push(s, p));
    } else if IsDiscontinuity(s.next, p.seqNum) {
      PushAllDelivers(s, s.cache);
    } else {
      DrainAppends(s.(cache := Insert(s.cache, p)));
    }
  }

  predicate Distinct(a: seq<nat>) {
    forall i, j :: 0 <= i < j < |a| ==> a[i] != a[j]
  }

  /** No arrival is a cycle less ten, or more, past the first missing packet, where it would pass for a late
      one. */
  predicate WithinCycle(a: seq<nat>) {
    a == [] ||
    var k := |a| - 1;
    WithinCycle(a[..k]) && a[k] < FirstMissing(a[..k], 0) + MODULUS - 10
  }

  /** More than ten ahead, within a cycle less ten, counts as a discontinuity. */
  lemma FarIsDiscontinuity(base: SeqNum, m: nat, n: nat)
    requires m + 10 < n < m + MODULUS - 10
    ensures IsDiscontinuity(Number(base, m), Number(base, n))
  {
    var x, y := Number(base, m), Number(base, n);
    assert Ahead(x, y) == n - m;
    DiscontinuityExactly(x, y);
  }

  /** An arrival too far ahead is delivered, or what is held, before the one that is missing. */
  lemma FarArrivalDeviates(orig: seq<Packet>, base: SeqNum, i: Ideal, n: nat)
    requires Consecutively(orig, base) && Within(i.held, orig) && AscendingFrom(i.m, i.held, i.m + 1)
    requires i.m + 10 < n < |orig| && n < i.m + MODULUS - 10
    ensures var r := Arrive(Image(orig, base, i), orig[n]);
            r.Some? && Deviates(orig, r.value.out)
  {
    hide Drain, Insert, IsDiscontinuity, Number, PushAll;
    var s := Image(orig, base, i);
    assert 0 <= s.next < MODULUS && orig[n].seqNum == Number(base, n) != s.next by { NumbersDiffer(base, i.m, n); }
    FarIsDiscontinuity(base, i.m, n);
    PushAllDelivers(s, s.cache);
    var out := s.out + s.cache + [orig[n]];
    if i.held == [] {
      assert out[i.m] == orig[n];
      DeviatesAt(orig, out, i.m, n);
    } else {
      assert s.cache[0] == orig[i.held[0]];
      assert out[i.m] == s.cache[0];
      DeviatesAt(orig, out, i.m, i.held[0]);
    }
  }

  /** A fifth packet to be held makes the listener give up the one that is missing. */
  lemma FifthHeldDeviates(orig: seq<Packet>, base: SeqNum, i: Ideal, n: nat)
    requires Consecutively(orig, base) && Within(i.held, orig) && i.m < n < |orig| && n <= i.m + 10
    requires AscendingFrom(i.m, i.held, i.m + 1) && n !in i.held && |i.held| == 4
    ensures var r := Arrive(Image(orig, base, i), orig[n]);
            r.Some? && Deviates(orig, r.value.out)
  {
    hide Drain, Pass, Pick, Place, Ascending, Insert, PushAll, IsDiscontinuity, Number;
    var s := Image(orig, base, i);
    NumberAhead(base, i.m, n);
    DiscontinuityExactly(s.next, orig[n].seqNum);
    InsertIsPlace(orig, base, i.m, i.held, n, i.m + 1);
    PlaceMeans(i.m, i.held, n, i.m + 1);
    var held := Place(i.held, n);
    var t := Image(orig, base, Ideal(i.m, held));
    PickAscending(orig, base, i.m, held, 1);
    AscendingWeaken(t.next, t.cache, 1, 0);
    DrainFull(t);
    var u := t.(next := t.cache[0].seqNum);
    PassDelivers(u);
    FirstPicked(orig, held);
    var k := Consecutive(u.next, u.cache);
    var out := t.out + t.cache[..k];
    assert out[i.m] == t.cache[0];
    DeviatesAt(orig, out, i.m, held[0]);
  }

  lemma FirstPicked(orig: seq<Packet>, held: seq<nat>)
    requires held != [] && Within(held, orig)
    ensures Pick(orig, held)[0] == orig[held[0]]
  {
  }

  lemma AfterSnoc(orig: seq<Packet>, a: seq<nat>)
    requires a != [] && Within(a, orig)
    ensures var k := |a| - 1;
            Arrive(After(Pick(orig, a[..k])), orig[a[k]]) == Some(After(Pick(orig, a)))
  {
    hide Arrive, Pick;
    PickSnoc(orig, a, |a| - 1);
  }

  /** The first arrival that breaks the rule makes the output deviate. */
  lemma BadArrivalDeviates(orig: seq<Packet>, base: SeqNum, a: seq<nat>)
    requires Consecutively(orig, base) && Within(a, orig) && Distinct(a) && WithinCycle(a)
    requires a != [] && Reorderable(a[..|a| - 1]) && !Reorderable(a)
    ensures Deviates(orig, After(Pick(orig, a)).out)
  {
    hide Arrive, Deviates, Pick, Consecutively, Run, Quiet, Reorderable;
    var k := |a| - 1;
    if k == 0 {
      FirstArrival(orig, a);
      FirstWithin(a);
      DeviatesAt(orig, [orig[a[0]]], 0, a[0]);
    } else {
      AfterSnoc(orig, a);
      ListenerIsIdeal(orig, base, a[..k]);
      BadIdealArrival(orig, base, a);
    }
  }

  lemma BadIdealArrival(orig: seq<Packet>, base: SeqNum, a: seq<nat>)
    requires Consecutively(orig, base) && Within(a, orig) && Distinct(a) && WithinCycle(a)
    requires |a| > 1 && Reorderable(a[..|a| - 1]) && !Reorderable(a)
    requires var i := IdealRun(a[..|a| - 1]); i.m <= |orig| && Within(i.held, orig)
    ensures var k := |a| - 1;
            var r := Arrive(Image(orig, base, IdealRun(a[..k])), orig[a[k]]);
            r.Some? && Deviates(orig, r.value.out)
  {
    hide Arrive, Image, Deviates, IdealRun, IdealArrive, Consecutively, Reorderable, FirstMissing, AscendingFrom;
    var k := |a| - 1;
    var n, before := a[k], a[..k];
    assert a == before + [n] && n !in before;
    IdealRunTracks(before);
    var i := IdealRun(before);
    assert n >= i.m;
    if n > i.m + 10 {
      FarArrivalDeviates(orig, base, i, n);
    } else {
      IdealArriveTracks(i, before, n);
      FewHeld(i, before, n);
      FifthHeldDeviates(orig, base, i, n);
    }
  }

  lemma FirstArrival(orig: seq<Packet>, a: seq<nat>)
    requires |a| == 1 && Within(a, orig)
    ensures After(Pick(orig, a)).out == [orig[a[0]]]
    ensures a[0] == 0 ==> Reorderable(a)
  {
    var ps := Pick(orig, a);
    assert ps == [orig[a[0]]] && ps[..0] == [] && a[..0] == [];
    assert Run([]) == Some(INITIAL);
  }

  lemma FirstWithin(a: seq<nat>)
    requires |a| == 1 && WithinCycle(a)
    ensures a[0] < MODULUS
  {
    assert a[..0] == [];
  }

  lemma FewHeld(i: Ideal, before: seq<nat>, n: nat)
    requires before != [] && Reorderable(before) && Tracks(i, before) && n !in before && n <= i.m + 10
    requires Tracks(IdealArrive(i, n), before + [n]) && !Reorderable(before + [n])
    ensures n > i.m && |i.held| == 4
  {
    var a := before + [n];
    assert a[..|a| - 1] == before && a[|a| - 1] == n;
    if n == i.m {
      AdvanceStops(i.m, i.m + 1, i.held);
    } else {
      PlaceMeans(i.m, i.held, n, i.m + 1);
    }
  }

  lemma {:induction false} UnorderlyDeviates(orig: seq<Packet>, base: SeqNum, a: seq<nat>)
    requires Consecutively(orig, base) && Within(a, orig) && Distinct(a) && WithinCycle(a) && !Reorderable(a)
    ensures Deviates(orig, After(Pick(orig, a)).out)
  {
    var k := |a| - 1;
    if Reorderable(a[..k]) {
      BadArrivalDeviates(orig, base, a);
    } else {
      UnorderlyDeviates(orig, base, a[..k]);
      AfterSnoc(orig, a);
      hide Arrive, Deviates, Quiet, Pick;
      var s := After(Pick(orig, a[..k]));
      ArriveAppends(s, orig[a[k]]);
      DeviatesLonger(orig, s.out, After(Pick(orig, a)).out);
    }
  }

  /** In a stretch of up to 65526 packets no arrival can be. */
  lemma {:induction false} ShortIsWithinCycle(a: seq<nat>, n: nat)
    requires n <= MODULUS - 10 && forall k :: 0 <= k < |a| ==> a[k] < n
    ensures WithinCycle(a)
  {
    if a != [] {
      ShortIsWithinCycle(a[..|a| - 1], n);
    }
  }

  /** A stretch of consecutive packets of any length that all arrive, none twice and none a cycle ahead: they
      are delivered in sequence order if and only if the first comes first, none is more than ten past the
      first missing one, and never more than four wait for it. */
  lemma DeliversExactly(orig: seq<Packet>, base: SeqNum, a: seq<nat>)
    requires Consecutively(orig, base) && Within(a, orig) && Distinct(a) && WithinCycle(a)
    requires forall n: nat :: n < |orig| ==> n in a
    ensures After(Pick(orig, a)).out == orig <==> Reorderable(a)
  {
    hide Reorderable, Deviates, Run;
    if Reorderable(a) {
      DeliversEverything(orig, base, a);
    } else {
      UnorderlyDeviates(orig, base, a);
      DeviatesIsWrong(orig, base, After(Pick(orig, a)).out);
    }
  }
}

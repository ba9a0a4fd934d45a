/** What the collection of ECM sections gathers in every run: the bytes of all packets that reached it since
    it was begun, whichever PIDs they had and whatever tables came in between. */
module PsiCollect {
  import opened Bytes
  import opened PsiTables
  import opened PsiParser
  import opened PsiRun
  import opened PsiEcm

  /** The packet is given to the collection. */
  predicate Reaches(t: Tables, p: Packet) {
    !t.pat.IsPid(GetPid(p)) && !t.pmt.IsPid(GetPid(p)) && t.ecm.IsPid(GetPid(p))
  }

  /** The length of the section that a starting packet declares. */
  function Declared(p: Packet): nat {
    var t := 5 + AdaptationSize(p);
    At(p, t + 1) % 16 * 256 + At(p, t + 2) + 3
  }

  /** The payload of a packet that continues a section; one with too long an adaptation field has none. */
  function Body(p: Packet): seq<byte> {
    if AdaptationSize(p) > 184 then [] else p[4 + AdaptationSize(p)..]
  }

  /** The payload of a starting packet behind its pointer, and of the packets after it. */
  function Gathered(ps: seq<Packet>): (bytes: seq<byte>)
    requires ps != [] && Room(ps[0]) >= 13
    ensures |bytes| >= 13
  {
    var n := |ps| - 1;
    if n == 0 then ps[0][5 + AdaptationSize(ps[0])..] else Gathered(ps[..n]) + Body(ps[n])
  }

  /** The packets have brought all bytes of the section that the first of them declares. */
  predicate Whole(ps: seq<Packet>)
    requires ps != [] && Room(ps[0]) >= 13
  {
    |Gathered(ps)| >= Declared(ps[0])
  }

  /** These bytes. */
  function SectionOf(ps: seq<Packet>): seq<byte>
    requires ps != [] && Room(ps[0]) >= 13 && Whole(ps)
  {
    Gathered(ps)[..Declared(ps[0])]
  }

  /** The packets of the section under way after one more packet reached the collection. */
  function After(ps: seq<Packet>, p: Packet): seq<Packet>
    requires ps != [] ==> Room(ps[0]) >= 13
  {
    if ps == [] && !StartsVmEcm(p) then []
    else if Whole(ps + [p]) then []
    else ps + [p]
  }

  /** The packets that reached the collection since the section under way was begun. */
  function Since(s: Psi, events: seq<Event>): (ps: seq<Packet>)
    requires Sound(s.ecm)
    ensures ps != [] ==> Room(ps[0]) >= 13
  {
    if events == [] then []
    else
      var n := |events| - 1;
      var before := Since(s, events[..n]);
      match events[n]
      case Opened => []
      case Got(p) => if Reaches(Run(s, events[..n]).tables, p) then After(before, p) else before
  }

  /** The collection holds what these packets brought. */
  predicate Holds(c: Collection, ps: seq<Packet>)
    requires ps != [] ==> Room(ps[0]) >= 13
  {
    && Sound(c) && (c.inProgress <==> ps != [])
    && (ps != [] ==>
          && c.expected == |c.temp| == Declared(ps[0])
          && c.collected == |Gathered(ps)| && c.temp[..c.collected] == Gathered(ps))
  }

  /** A packet completes the section. */
  predicate Completes(ps: seq<Packet>, p: Packet)
    requires ps != [] ==> Room(ps[0]) >= 13
  {
    (ps == [] ==> StartsVmEcm(p)) && Whole(ps + [p])
  }

  function Version(ps: seq<Packet>): nat
    requires ps != [] && Room(ps[0]) >= 13
  {
    VersionBits(Gathered(ps)[5])
  }

  lemma GatheredOne(p: Packet)
    requires Room(p) >= 13
    ensures Gathered([p]) == p[5 + AdaptationSize(p)..] && |Gathered([p])| == Room(p)
  {
  }

  lemma GatheredSnoc(ps: seq<Packet>, p: Packet)
    requires ps != [] && Room(ps[0]) >= 13
    ensures Gathered(ps + [p]) == Gathered(ps) + Body(p)
  {
    assert (ps + [p])[..|ps|] == ps;
  }

  /** What the first copy puts into the space for the section. */
  lemma FirstCopy(p: Packet, len: nat)
    requires Room(p) >= 13
    ensures var t, n, g := 5 + AdaptationSize(p), Min(len, Room(p)), Gathered([p]);
            var temp := Copy(p, t, n) + Zeros(len - n);
            && |g| == Room(p) && g[5] == At(p, t + 5)
            && |temp| == len && temp[..n] == g[..n] && (n == len ==> temp == g[..len])
  {
    hide AdaptationSize, Gathered;
    GatheredOne(p);
    var t, n, g := 5 + AdaptationSize(p), Min(len, Room(p)), Gathered([p]);
    assert Copy(p, t, n) == g[..n];
    assert (Copy(p, t, n) + Zeros(len - n))[..n] == Copy(p, t, n);
    assert n == len ==> Copy(p, t, n) + Zeros(len - n) == g[..len];
  }

  /** A packet that comes first. */
  lemma FirstPacket(ecm: PidInfo, c: Collection, p: Packet)
    requires Holds(c, [])
    ensures var r := ParseEcm(ecm, c, p).1;
            && Holds(r, After([], p))
            && r.table == if Completes([], p) && ecm.IsNew(Version([p])) then SectionOf([p]) else c.table
  {
    hide AdaptationSize, VersionBits, Gathered, Copy, Zeros;
    assert [] + [p] == [p];
    if StartsVmEcm(p) {
      FirstCopy(p, Declared(p));
    }
  }

  /** A packet that comes later. */
  lemma LaterPacket(ecm: PidInfo, c: Collection, ps: seq<Packet>, p: Packet)
    requires ps != [] && Room(ps[0]) >= 13 && Holds(c, ps)
    ensures var r := ParseEcm(ecm, c, p).1;
            && Holds(r, After(ps, p))
            && r.table == if Completes(ps, p) && ecm.IsNew(Version(ps + [p])) then SectionOf(ps + [p]) else c.table
  {
    hide HasAdaptation, VersionBits, Gathered, Declared;
    GatheredSnoc(ps, p);
    var a, q, g := AdaptationSize(p), ps + [p], Gathered(ps);
    assert g[5] == c.temp[5] by { assert c.temp[..c.collected][5] == c.temp[5]; }
    if a <= 184 {
      var n := Min(TS_PACKAGE_SIZE - (4 + a), c.expected - c.collected);
      assert Copy(p, 4 + a, n) == Body(p)[..n];
      var temp := c.temp[..c.collected] + Copy(p, 4 + a, n) + c.temp[c.collected + n..];
      assert temp[..c.collected + n] == (g + Body(p))[..c.collected + n];
      assert c.collected + n == c.expected ==> temp == SectionOf(q);
    } else {
      assert Gathered(q) == g;
    }
  }

  lemma EcmStep(ecm: PidInfo, c: Collection, ps: seq<Packet>, p: Packet)
    requires (ps != [] ==> Room(ps[0]) >= 13) && Holds(c, ps)
    ensures var r := ParseEcm(ecm, c, p).1;
            && Holds(r, After(ps, p))
            && r.table == if Completes(ps, p) && ecm.IsNew(Version(ps + [p])) then SectionOf(ps + [p]) else c.table
  {
    hide ParseEcm, After, Completes, Version, SectionOf;
    if ps == [] {
      assert ps + [p] == [p];
      FirstPacket(ecm, c, p);
    } else {
      LaterPacket(ecm, c, ps, p);
    }
  }

  /** In every run that starts outside a section, over all packets and all openings of channels: the
      collection is under way exactly when packets have reached it since a section was begun, and it
      holds exactly the bytes these have brought, whatever PATs and PMTs came between them. */
  lemma {:induction false} CollectionIsGathered(s: Psi, events: seq<Event>)
    requires Sound(s.ecm) && !s.ecm.inProgress
    ensures Holds(Run(s, events).ecm, Since(s, events))
  {
    if events != [] {
      hide Holds, After;
      var n := |events| - 1;
      CollectionIsGathered(s, events[..n]);
      var m, ps := Run(s, events[..n]), Since(s, events[..n]);
      match events[n]
      case Opened => OpeningHolds(m);
      case Got(p) => StepHolds(m, ps, p);
    } else {
    }
  }

  lemma OpeningHolds(s: Psi)
    ensures Holds(OnOpen(s).ecm, [])
  {
  }

  lemma StepHolds(s: Psi, ps: seq<Packet>, p: Packet)
    requires Sound(s.ecm) && (ps != [] ==> Room(ps[0]) >= 13) && Holds(s.ecm, ps)
    ensures Holds(ParseTsPacket(s, p).0.ecm, if Reaches(s.tables, p) then After(ps, p) else ps)
    ensures ParseTsPacket(s, p).0.ecm.table ==
            if Reaches(s.tables, p) && Completes(ps, p) && s.tables.ecm.IsNew(Version(ps + [p]))
            then SectionOf(ps + [p]) else s.ecm.table
  {
    hide ParsePat, ParsePmt, AfterPat, AfterPmt, ParseEcm, Holds, After, Completes, Version, SectionOf;
    if Reaches(s.tables, p) {
      EcmStep(s.tables.ecm, s.ecm, ps, p);
    }
  }

  /** When the ECM table changes and what it becomes, in every run: exactly when a packet completes a section
      whose version is new by then, and then to the bytes gathered. */
  lemma TableIsGathered(s: Psi, events: seq<Event>, p: Packet)
    requires Sound(s.ecm) && !s.ecm.inProgress
    ensures var m, ps := Run(s, events), Since(s, events);
            Run(s, events + [Got(p)]).ecm.table ==
            if Reaches(m.tables, p) && Completes(ps, p) && m.tables.ecm.IsNew(Version(ps + [p]))
            then SectionOf(ps + [p]) else m.ecm.table
  {
    hide Reaches, Completes, Version, SectionOf, Holds, ParseTsPacket;
    CollectionIsGathered(s, events);
    assert (events + [Got(p)])[..|events|] == events;
    StepHolds(Run(s, events), Since(s, events), p);
  }

  // ----- when that is the section that was sent -----

  /** The packets carry the section: its head, then what follows. Packets without payload do not matter. */
  predicate CarriedBy(section: seq<byte>, ps: seq<Packet>)
    requires ps != [] && Room(ps[0]) >= 13
    decreases |ps|
  {
    var n := |ps| - 1;
    if n == 0 then Starts(ps[0], section)
    else
      var from := |Gathered(ps[..n])|;
      && from < |section| && CarriedBy(section, ps[..n])
      && GoesOn(ps[n], section, from)
  }

  /** The bytes agree as far as both go. */
  predicate Agree(a: seq<byte>, b: seq<byte>) {
    var n := Min(|a|, |b|);
    a[..n] == b[..n]
  }

  /** No packet before the last has brought the whole section. */
  predicate Pending(ps: seq<Packet>, len: nat)
    requires ps != [] && Room(ps[0]) >= 13
  {
    |ps| > 1 ==> |Gathered(ps[..|ps| - 1])| < len && Pending(ps[..|ps| - 1], len)
  }

  lemma AgreeConcat(a: seq<byte>, b: seq<byte>, s: seq<byte>)
    requires |a| < |s|
    ensures var n := Min(|b|, |s| - |a|); Agree(a + b, s) <==> Agree(a, s) && b[..n] == s[|a|..|a| + n]
  {
    var n := Min(|b|, |s| - |a|);
    assert (a + b)[..|a| + n] == a + b[..n];
    assert s[..|a| + n] == s[..|a|] + s[|a|..|a| + n];
    if a + b[..n] == s[..|a|] + s[|a|..|a| + n] {
      assert a == (a + b[..n])[..|a|] && b[..n] == (a + b[..n])[|a|..];
      assert s[..|a|] == s[..|a| + n][..|a|];
    }
  }

  lemma StartsMeans(p: Packet, section: seq<byte>)
    requires Room(p) >= 13
    ensures Starts(p, section) <==> Agree(p[5 + AdaptationSize(p)..], section)
  {
    hide AdaptationSize;
    var t, n := 5 + AdaptationSize(p), Min(|section|, Room(p));
    assert p[t..][..n] == p[t..t + n];
  }

  /** The packet continues the section at `from`, or has nothing to say. */
  predicate GoesOn(p: Packet, section: seq<byte>, from: nat)
    requires from < |section|
  {
    AdaptationSize(p) > 184 || Continues(p, section, from)
  }

  lemma GoesOnMeans(p: Packet, section: seq<byte>, from: nat)
    requires from < |section|
    ensures var n := Min(|Body(p)|, |section| - from);
            GoesOn(p, section, from) <==> Body(p)[..n] == section[from..from + n]
  {
    hide AdaptationSize;
    var a := AdaptationSize(p);
    if a <= 184 {
      var n := Portion(p, section, from);
      assert p[4 + a..][..n] == p[4 + a..4 + a + n];
    }
  }

  /** Packets carry a section exactly when their bytes are its bytes, as far as both go. */
  lemma {:induction false} CarriedExactly(section: seq<byte>, ps: seq<Packet>)
    requires ps != [] && Room(ps[0]) >= 13 && Pending(ps, |section|)
    ensures CarriedBy(section, ps) <==> Agree(Gathered(ps), section)
    decreases |ps|
  {
    hide AdaptationSize, Agree, Starts, GoesOn, Body;
    var n := |ps| - 1;
    if n == 0 {
      StartsMeans(ps[0], section);
    } else {
      var before, p := ps[..n], ps[n];
      CarriedExactly(section, before);
      GoesOnMeans(p, section, |Gathered(before)|);
      AgreeConcat(Gathered(before), Body(p), section);
    }
  }

  /** The table that a packet completes is the section if and only if the packets that reached the collection
      since its beginning, this one included, carried it, and the first declared its length. */
  lemma ReassembledExactly(s: Psi, events: seq<Event>, p: Packet, section: seq<byte>)
    requires Sound(s.ecm) && !s.ecm.inProgress
    requires var ps, m := Since(s, events), Run(s, events);
             Reaches(m.tables, p) && Completes(ps, p) && m.tables.ecm.IsNew(Version(ps + [p]))
    ensures var ps := Since(s, events) + [p];
            Run(s, events + [Got(p)]).ecm.table == section
            <==> |section| == Declared(ps[0]) && CarriedBy(section, ps)
  {
    hide Reaches, Version, Declared, CarriedBy, Run, Gathered;
    TableIsGathered(s, events, p);
    var ps := Since(s, events) + [p];
    assert Room(ps[0]) >= 13;
    if |section| == Declared(ps[0]) {
      SincePending(s, events);
      PendingSnoc(Since(s, events), p, |section|);
      CarriedExactly(section, ps);
    }
  }

  lemma PendingSnoc(ps: seq<Packet>, p: Packet, len: nat)
    requires ps == [] ==> Room(p) >= 13
    requires ps != [] ==> Room(ps[0]) >= 13 && |Gathered(ps)| < len && Pending(ps, len)
    ensures Pending(ps + [p], len)
  {
    assert (ps + [p])[..|ps|] == ps;
  }

  lemma {:induction false} SincePending(s: Psi, events: seq<Event>)
    requires Sound(s.ecm)
    ensures var ps := Since(s, events); ps != [] ==> !Whole(ps) && Pending(ps, Declared(ps[0]))
  {
    hide Reaches, Declared, Run, Gathered;
    if events != [] {
      var n := |events| - 1;
      SincePending(s, events[..n]);
      var before := Since(s, events[..n]);
      match events[n]
      case Opened =>
      case Got(p) =>
        if Reaches(Run(s, events[..n]).tables, p) && After(before, p) != [] {
          PendingSnoc(before, p, Declared((before + [p])[0]));
        }
    }
  }
}

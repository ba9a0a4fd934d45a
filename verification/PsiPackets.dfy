/** Packets made to measure: sections cut into packets that the collection puts together again, and a run in
    which it puts together what does not belong together. */
module PsiPackets {
  import opened Bytes
  import opened Options
  import opened PsiTables
  import opened PsiParser
  import opened PsiRun
  import opened PsiPmt
  import opened PsiEcm
  import opened PsiCollect

  /** A packet with an adaptation field of `a` bytes, its length byte included, and then `body`. */
  function MakePacket(pid: nat, a: nat, body: seq<byte>): Packet
    requires pid <= PSI_MAX_PID && a <= 184 && |body| <= 184 - a
  {
    [0x47, pid / 256, pid % 256, if a > 0 then 0x30 else 0x10]
    + (if a > 0 then [a - 1] + Zeros(a - 1) else []) + body + Zeros(184 - a - |body|)
  }

  lemma MakePacketMeans(pid: nat, a: nat, body: seq<byte>)
    requires pid <= PSI_MAX_PID && a <= 184 && |body| <= 184 - a
    ensures var p := MakePacket(pid, a, body);
            && GetPid(p) == pid && AdaptationSize(p) == a
            && p[4 + a..4 + a + |body|] == body
            && forall i :: 0 <= i < |body| ==> p[4 + a + i] == body[i]
  {
    var p := MakePacket(pid, a, body);
    var head := [0x47, pid / 256, pid % 256, if a > 0 then 0x30 else 0x10];
    var field := if a > 0 then [a - 1] + Zeros(a - 1) else [];
    assert p == head + field + body + Zeros(184 - a - |body|);
    assert p[1] == pid / 256 && p[2] == pid % 256 && p[3] == head[3] && (a > 0 ==> p[4] == a - 1);
    assert |head + field| == 4 + a;
    assert p[4 + a..4 + a + |body|] == body;
    forall i | 0 <= i < |body| ensures p[4 + a + i] == body[i] {
      assert p[4 + a..4 + a + |body|][i] == body[i];
    }
  }

  // ----- cutting a section into packets -----

  /** Adaptation fields of these sizes leave room for the bytes from `from` on, and no packet is left over. */
  predicate Suffice(section: seq<byte>, from: nat, sizes: seq<nat>)
    requires from <= |section|
    decreases |sizes|
  {
    if from == |section| then sizes == []
    else
      && sizes != [] && sizes[0] <= 184
      && Suffice(section, from + Min(184 - sizes[0], |section| - from), sizes[1..])
  }

  function Continuation(pid: nat, section: seq<byte>, from: nat, sizes: seq<nat>): seq<Packet>
    requires pid <= PSI_MAX_PID && from <= |section| && Suffice(section, from, sizes)
    decreases |sizes|
  {
    if from == |section| then []
    else
      var n := Min(184 - sizes[0], |section| - from);
      [MakePacket(pid, sizes[0], section[from..from + n])] + Continuation(pid, section, from + n, sizes[1..])
  }

  /** The first packet has a pointer byte before the section. */
  function Packetise(pid: nat, section: seq<byte>, first: nat, sizes: seq<nat>): seq<Packet>
    requires pid <= PSI_MAX_PID && first <= 170
    requires Suffice(section, Min(|section|, 183 - first), sizes)
  {
    var n := Min(|section|, 183 - first);
    [MakePacket(pid, first, [0] + section[..n])] + Continuation(pid, section, n, sizes)
  }

  lemma {:induction false} ContinuationCarries(t: Tables, section: seq<byte>, from: nat, sizes: seq<nat>)
    requires Routed(t) && t.ecm.pid <= PSI_MAX_PID && from <= |section| && Suffice(section, from, sizes)
    ensures Carry(t, Continuation(t.ecm.pid, section, from, sizes), section, from)
    decreases |sizes|
  {
    hide MakePacket, AdaptationSize, GetPid;
    if from < |section| {
      var n := Min(184 - sizes[0], |section| - from);
      MakePacketMeans(t.ecm.pid, sizes[0], section[from..from + n]);
      ContinuationCarries(t, section, from + n, sizes[1..]);
      var ps := Continuation(t.ecm.pid, section, from, sizes);
      assert ps[1..] == Continuation(t.ecm.pid, section, from + n, sizes[1..]);
    }
  }

  lemma FirstStarts(pid: nat, section: seq<byte>, first: nat)
    requires pid <= PSI_MAX_PID && first <= 170
    ensures var p := MakePacket(pid, first, [0] + section[..Min(|section|, 183 - first)]);
            GetPid(p) == pid && Room(p) == 183 - first && Starts(p, section)
  {
    hide MakePacket, AdaptationSize, GetPid;
    var n := Min(|section|, 183 - first);
    var body := [0] + section[..n];
    MakePacketMeans(pid, first, body);
    var p := MakePacket(pid, first, body);
    assert p[5 + first..5 + first + n] == p[4 + first..4 + first + |body|][1..] == section[..n];
  }

  /** Cutting and collecting: any Verimatrix section of a new version, cut into packets of the ECM PID with
      adaptation fields of any sizes that leave 13 section bytes in the first, becomes the ECM table. */
  lemma PacketiseRoundTrip(s: Psi, section: seq<byte>, first: nat, sizes: seq<nat>)
    requires Sound(s.ecm) && !s.ecm.inProgress && Routed(s.tables) && s.tables.ecm.pid <= PSI_MAX_PID
    requires VmSection(section) && s.tables.ecm.IsNew(SectionVersion(section)) && first <= 170
    requires Suffice(section, Min(|section|, 183 - first), sizes)
    ensures RunPackets(s, Packetise(s.tables.ecm.pid, section, first, sizes)).ecm.table == section
  {
    hide MakePacket, AdaptationSize, GetPid, VmSection, SectionVersion, Starts, Carry, RunPackets, Suffice;
    var pid, n := s.tables.ecm.pid, Min(|section|, 183 - first);
    var ps := Packetise(pid, section, first, sizes);
    FirstStarts(pid, section, first);
    ContinuationCarries(s.tables, section, n, sizes);
    assert ps[1..] == Continuation(pid, section, n, sizes);
    SectionIsReassembled(s, ps, section);
  }

  /** Without adaptation fields, as many packets as the length asks for always do. */
  function Plain(section: seq<byte>, from: nat): (sizes: seq<nat>)
    requires from <= |section|
    ensures Suffice(section, from, sizes)
    decreases |section| - from
  {
    if from == |section| then []
    else [0] + Plain(section, from + Min(184, |section| - from))
  }

  // ----- two sections in one -----

  /** A PAT with one program. */
  function PatPacket(version: nat, pmtPid: nat): Packet
    requires version < 32 && pmtPid <= PSI_MAX_PID
  {
    MakePacket(0, 0, [0, 0, 0xB0, 13, 0, 1, 0xC1 + 2 * version, 0, 0, 0, 1, 0xE0 + pmtPid / 256, pmtPid % 256])
  }

  lemma PatPacketBytes(version: nat, pmtPid: nat)
    requires version < 32 && pmtPid <= PSI_MAX_PID
    ensures var p := PatPacket(version, pmtPid);
            && GetPid(p) == 0 && IsPatSection(p) && PatOffset(p) == 0
            && VersionBits(At(p, 10)) == version && PmtPidOf(p) == pmtPid
  {
    hide MakePacket;
    var body := [0, 0, 0xB0, 13, 0, 1, 0xC1 + 2 * version, 0, 0, 0, 1, 0xE0 + pmtPid / 256, pmtPid % 256];
    MakePacketMeans(0, 0, body);
    var p := PatPacket(version, pmtPid);
    assert p[4 + 0] == body[0] && p[4 + 1] == body[1] && p[4 + 6] == body[6];
    assert p[4 + 9] == body[9] && p[4 + 10] == body[10] && p[4 + 11] == body[11] && p[4 + 12] == body[12];
    assert !HasAdaptation(p) by { NoAdaptation(p); }
  }

  lemma NoAdaptation(p: Packet)
    requires AdaptationSize(p) == 0
    ensures !HasAdaptation(p)
  {
  }

  /** A PMT with one CA descriptor and no streams. */
  function PmtBody(version: nat, ecmPid: nat): seq<byte>
    requires version < 32 && ecmPid <= PSI_MAX_PID
  {
    [0, 2, 0xB0, 19, 0, 1, 0xC1 + 2 * version, 0, 0, 0xE0, 0, 0xF0, 6,
     9, 4, 0x56, 1, 0xE0 + ecmPid / 256, ecmPid % 256, 0, 0, 0, 0]
  }

  function PmtPacket(pid: nat, version: nat, ecmPid: nat): Packet
    requires version < 32 && pid <= PSI_MAX_PID && ecmPid <= PSI_MAX_PID
  {
    MakePacket(pid, 0, PmtBody(version, ecmPid))
  }

  function CaDescriptor(ecmPid: nat): Descriptor
    requires ecmPid <= PSI_MAX_PID
  {
    Descriptor(9, [0x56, 1, 0xE0 + ecmPid / 256, ecmPid % 256])
  }

  lemma PmtPacketBytes(pid: nat, version: nat, ecmPid: nat)
    requires version < 32 && pid <= PSI_MAX_PID && ecmPid <= PSI_MAX_PID
    ensures var p := PmtPacket(pid, version, ecmPid);
            && GetPid(p) == pid && PmtOffset(p) == 0 && SectionLength(p) == 19 && ProgramInfoLength(p) == 6
            && p[5] == 2 && VersionBits(At(p, 10)) == version
            && p[17] == 9 && p[18] == 4 && p[19..23] == CaDescriptor(ecmPid).body
  {
    hide MakePacket;
    var body := PmtBody(version, ecmPid);
    MakePacketMeans(pid, 0, body);
    var p := PmtPacket(pid, version, ecmPid);
    assert p[4 + 1] == body[1] && p[4 + 2] == body[2] && p[4 + 3] == body[3] && p[4 + 6] == body[6];
    assert p[4 + 11] == body[11] && p[4 + 12] == body[12] && p[4 + 13] == body[13] && p[4 + 14] == body[14];
    assert p[4 + 15] == body[15] && p[4 + 16] == body[16] && p[4 + 17] == body[17] && p[4 + 18] == body[18];
    assert !HasAdaptation(p) by { NoAdaptation(p); }
  }

  lemma PmtPacketMeans(pid: nat, version: nat, ecmPid: nat)
    requires version < 32 && pid <= PSI_MAX_PID && ecmPid <= PSI_MAX_PID
    ensures PmtAt(PmtPacket(pid, version, ecmPid), [CaDescriptor(ecmPid)], [])
  {
    PmtPacketBytes(pid, version, ecmPid);
    hide PmtPacket, SectionLength, ProgramInfoLength, PmtOffset;
    var p, d := PmtPacket(pid, version, ecmPid), CaDescriptor(ecmPid);
    assert DescriptorsAt(p, 23, 23, []);
    assert [d][1..] == [];
    assert DescriptorsAt(p, 17, 23, [d]);
  }

  /** A PAT of a new version: the collection is not touched. */
  lemma PatTakesOver(s: Psi, version: nat, pmtPid: nat)
    requires Sound(s.ecm) && version < 32 && pmtPid <= PSI_MAX_PID
    requires s.tables.pat.IsPid(0) && s.tables.pat.IsNew(version)
    ensures var r := ParseTsPacket(s, PatPacket(version, pmtPid)).0;
            && r.ecm == s.ecm && r.tables.ecm == NO_PID
            && r.tables.pat.IsPid(0) && r.tables.pat.versionValid && r.tables.pat.version == version
            && r.tables.pmt.IsPid(pmtPid) && !r.tables.pmt.versionValid
            && r.tables.state == if s.tables.state == NEEDS_PAT then NEEDS_PMT else s.tables.state
  {
    PatPacketBytes(version, pmtPid);
    hide PatPacket, IsPatSection, PatOffset, PmtPidOf, VersionBits, GetPid, ParsePmt, ParseEcm;
  }

  /** A PMT of a new version that names another ECM PID: neither is it touched here. */
  lemma PmtTakesOver(s: Psi, pid: nat, version: nat, ecmPid: nat)
    requires Sound(s.ecm) && version < 32 && pid <= PSI_MAX_PID && ecmPid <= PSI_MAX_PID
    requires s.tables.pmt.IsPid(pid) && s.tables.pmt.IsNew(version) && !s.tables.pat.IsPid(pid)
    requires !s.tables.ecm.IsPid(ecmPid) && (s.tables.state == NEEDS_PMT || s.tables.state == NEEDS_ECM)
    ensures var r := ParseTsPacket(s, PmtPacket(pid, version, ecmPid)).0;
            && r.ecm == s.ecm && r.tables.pat == s.tables.pat && r.tables.pmt.IsPid(pid)
            && r.tables.ecm.IsPid(ecmPid) && !r.tables.ecm.versionValid && r.tables.state == NEEDS_ECM
  {
    PmtPacketBytes(pid, version, ecmPid);
    PmtPacketMeans(pid, version, ecmPid);
    var p, d, t := PmtPacket(pid, version, ecmPid), CaDescriptor(ecmPid), s.tables;
    hide PmtPacket, VersionBits, GetPid, ParsePat, ParseEcm, PmtOffset;
    NamesItsPid(ecmPid);
    hide CaDescriptor;
    hide PmtAt;
    assert NewPmt(t, p) by { PmtAtIsSection(p, [d], []); }
    ParsePmtMeans(t, p, [d], []);
    ParsePmtKeeps(t, p);
    hide ParsePmt, NewPmt;
  }

  lemma PmtAtIsSection(p: Packet, program: seq<Descriptor>, streams: seq<seq<Descriptor>>)
    requires PmtAt(p, program, streams)
    ensures IsPmtSection(p)
  {
  }

  lemma NamesItsPid(ecmPid: nat)
    requires ecmPid <= PSI_MAX_PID
    ensures FirstNamed([CaDescriptor(ecmPid)]) == Some(ecmPid) && AnyCa([CaDescriptor(ecmPid)])
  {
    var d := CaDescriptor(ecmPid);
    assert IsCa([d][0]);
    assert PidOf(d) == ((0xE0 + ecmPid / 256) * 256 + ecmPid % 256) % 0x2000 == ecmPid;
  }

  lemma ParsePmtKeeps(t: Tables, p: Packet)
    requires NewPmt(t, p)
    ensures var r := ParsePmt(t, p).0;
            r.pat == t.pat && r.state == t.state && r.pmt.pid == t.pmt.pid && r.pmt.pidValid && r.pmt.versionValid
  {
    hide ProgramFound, StreamsFound, IsPmtSection, VersionBits, Retarget;
  }

  lemma RunSnoc(s: Psi, events: seq<Event>, e: Event)
    requires Sound(s.ecm)
    ensures Run(s, events + [e]) == Step(Run(s, events), e)
  {
    assert (events + [e])[..|events|] == events;
  }

  /** A section is begun on one ECM PID, then a new PAT and a new PMT give another one. */
  function MixedEvents(section: seq<byte>, other: seq<byte>): seq<Event>
    requires 183 < |section| && |other| == 184
  {
    [Opened] + [Got(PatPacket(0, 0x100))] + [Got(PmtPacket(0x100, 0, 0x200))]
    + [Got(MakePacket(0x200, 0, [0] + section[..183]))]
    + [Got(PatPacket(1, 0x101))] + [Got(PmtPacket(0x101, 0, 0x201))]
    + [Got(MakePacket(0x201, 0, other))]
  }

  /** The parser waits for ECMs on this PID. */
  predicate Waits(t: Tables, pmtPid: nat, ecmPid: nat) {
    && t.pat.IsPid(0) && t.pat.versionValid && t.pmt.IsPid(pmtPid) && t.state == NEEDS_ECM
    && t.ecm.IsPid(ecmPid) && !t.ecm.versionValid
  }

  lemma FirstTables(s: Psi)
    requires Sound(s.ecm)
    ensures var r := Run(s, [Opened] + [Got(PatPacket(0, 0x100))] + [Got(PmtPacket(0x100, 0, 0x200))]);
            Waits(r.tables, 0x100, 0x200) && r.tables.pat.version == 0 && !r.ecm.inProgress
  {
    hide PatPacket, PmtPacket, ParseTsPacket;
    assert [Opened][..0] == [];
    var s1 := OnOpen(s);
    assert Run(s, [Opened]) == s1;
    RunSnoc(s, [Opened], Got(PatPacket(0, 0x100)));
    PatTakesOver(s1, 0, 0x100);
    var s2 := ParseTsPacket(s1, PatPacket(0, 0x100)).0;
    RunSnoc(s, [Opened] + [Got(PatPacket(0, 0x100))], Got(PmtPacket(0x100, 0, 0x200)));
    PmtTakesOver(s2, 0x100, 0, 0x200);
  }

  /** The table that comes out is the begin of one section followed by the bytes of another PID. */
  lemma MixedTable(s: Psi, section: seq<byte>, other: seq<byte>)
    requires Sound(s.ecm) && VmSection(section) && 183 < |section| <= 367 && |other| == 184
    ensures Run(s, MixedEvents(section, other)).ecm.table == section[..183] + other[..|section| - 183]
  {
    FirstTables(s);
    hide PatPacket, PmtPacket, MakePacket, ParseTsPacket, VmSection;
    var e2 := [Opened] + [Got(PatPacket(0, 0x100))] + [Got(PmtPacket(0x100, 0, 0x200))];
    var p3, p6 := MakePacket(0x200, 0, [0] + section[..183]), MakePacket(0x201, 0, other);
    var e3 := e2 + [Got(p3)];
    var e4 := e3 + [Got(PatPacket(1, 0x101))];
    var e5 := e4 + [Got(PmtPacket(0x101, 0, 0x201))];
    RunSnoc(s, e2, Got(p3));
    RunSnoc(s, e3, Got(PatPacket(1, 0x101)));
    RunSnoc(s, e4, Got(PmtPacket(0x101, 0, 0x201)));
    RunSnoc(s, e5, Got(p6));
    hide Run;
    var s2 := Run(s, e2);
    BeginSection(s2, section);
    var s3 := ParseTsPacket(s2, p3).0;
    PatTakesOver(s3, 1, 0x101);
    var s4 := ParseTsPacket(s3, PatPacket(1, 0x101)).0;
    PmtTakesOver(s4, 0x101, 0, 0x201);
    var s5 := ParseTsPacket(s4, PmtPacket(0x101, 0, 0x201)).0;
    EndSection(s5, section, other);
  }

  lemma BeginSection(s: Psi, section: seq<byte>)
    requires Sound(s.ecm) && !s.ecm.inProgress && Waits(s.tables, 0x100, 0x200)
    requires VmSection(section) && 183 < |section|
    ensures var p := MakePacket(0x200, 0, [0] + section[..183]);
            var r := ParseTsPacket(s, p).0;
            && Room(p) >= 13 && Sound(r.ecm) && Holds(r.ecm, [p])
            && Gathered([p]) == section[..183] && Declared(p) == |section|
            && r.tables == s.tables
  {
    hide MakePacket;
    var p := MakePacket(0x200, 0, [0] + section[..183]);
    FirstStarts(0x200, section, 0);
    StartPacket(s, p, section);
    StepKeepsSound(s, p);
    GatheredOne(p);
    assert p[5..] == p[5..188];
    HeadBytes(p, 5, 183, section);
    hide ParseTsPacket, Gathered, AdaptationSize;
  }

  lemma EndSection(s: Psi, section: seq<byte>, other: seq<byte>)
    requires 183 < |section| <= 367 && |other| == 184 && Sound(s.ecm) && Waits(s.tables, 0x101, 0x201)
    requires var p := MakePacket(0x200, 0, [0] + section[..183]);
             Room(p) >= 13 && Holds(s.ecm, [p]) && Gathered([p]) == section[..183] && Declared(p) == |section|
    ensures ParseTsPacket(s, MakePacket(0x201, 0, other)).0.ecm.table == section[..183] + other[..|section| - 183]
  {
    hide MakePacket, ParseTsPacket, Declared, Holds, AdaptationSize, Gathered, GetPid, VersionBits;
    var p, q := MakePacket(0x200, 0, [0] + section[..183]), MakePacket(0x201, 0, other);
    MakePacketMeans(0x201, 0, other);
    StepHolds(s, [p], q);
    GatheredSnoc([p], q);
    assert Body(q) == other;
    assert (section[..183] + other)[..|section|] == section[..183] + other[..|section| - 183];
  }

  /** A section of 300 bytes and a packet of another: the table is neither's. */
  function SomeSection(): seq<byte> {
    [0x80, 0xB1, 0x29, 0, 0, 0xC1, 0, 0] + VMECM + Zeros(287)
  }

  lemma MixedTableIsNoSection(s: Psi)
    requires Sound(s.ecm)
    ensures VmSection(SomeSection())
    ensures Run(s, MixedEvents(SomeSection(), seq(184, _ => 7))).ecm.table != SomeSection()
  {
    var section, other := SomeSection(), seq(184, _ => 7 as byte);
    assert section[8..13] == VMECM;
    MixedTable(s, section, other);
    hide MixedEvents, Run;
    var table := section[..183] + other[..117];
    assert table[183] == 7 && section[183] == 0;
  }
}

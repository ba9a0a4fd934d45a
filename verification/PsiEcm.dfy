/** Collecting an ECM section undoes its distribution over packets. */
module PsiEcm {
  import opened Bytes
  import opened PsiTables
  import opened PsiParser
  import opened PsiRun

  /** A Verimatrix ECM section: its table identifier, its length and its mark. */
  predicate VmSection(s: seq<byte>) {
    && 13 <= |s|
    && (s[0] == 0x80 || s[0] == 0x81)
    && |s| == At(s, 1) % 16 * 256 + At(s, 2) + 3
    && s[8..13] == VMECM
  }

  function SectionVersion(s: seq<byte>): nat {
    VersionBits(At(s, 5))
  }

  /** The first packet carries the head of the section behind adaptation field and pointer: all of it, or
      as much as there is room for, at least 13 bytes. */
  predicate Starts(p: Packet, s: seq<byte>) {
    var t := 5 + AdaptationSize(p);
    Room(p) >= 13 && p[t..t + Min(|s|, Room(p))] == s[..Min(|s|, Room(p))]
  }

  /** A later packet carries what follows the first `from` bytes, as much as there is room for. */
  predicate Continues(p: Packet, s: seq<byte>, from: nat)
    requires from <= |s|
  {
    var a := AdaptationSize(p);
    a <= 184 && p[4 + a..4 + a + Portion(p, s, from)] == s[from..from + Portion(p, s, from)]
  }

  function Portion(p: Packet, s: seq<byte>, from: nat): (n: nat)
    requires from <= |s|
    ensures from + n <= |s|
  {
    if AdaptationSize(p) > 184 then 0 else Min(184 - AdaptationSize(p), |s| - from)
  }

  /** The packets of the ECM PID among `packets` carry the section from byte `from` on, to its end. The
      others are anything that leaves the tables as they are: other streams, repeated PATs and PMTs. */
  predicate Carry(t: Tables, packets: seq<Packet>, s: seq<byte>, from: nat)
    requires from <= |s|
    decreases |packets|
  {
    if packets == [] then from == |s|
    else
      var p := packets[0];
      if Neutral(t, p) then Carry(t, packets[1..], s, from)
      else
        && t.ecm.IsPid(GetPid(p)) && from < |s| && Continues(p, s, from)
        && Carry(t, packets[1..], s, from + Portion(p, s, from))
  }

  /** A packet that is not for the ECM collection and leaves the tables unchanged. */
  predicate Neutral(t: Tables, p: Packet) {
    var pid := GetPid(p);
    if t.pat.IsPid(pid) then AfterPat(ParsePat(t, p).0) == t
    else if t.pmt.IsPid(pid) then AfterPmt(ParsePmt(t, p).0) == t
    else !t.ecm.IsPid(pid)
  }

  /** ECM packets reach the collection: the PID is neither that of the PAT nor that of the PMT, and the
      parser waits for an ECM. */
  predicate Routed(t: Tables) {
    t.ecm.pidValid && !t.pat.IsPid(t.ecm.pid) && !t.pmt.IsPid(t.ecm.pid) && t.state == NEEDS_ECM
  }

  /** The first `from` bytes of the section are collected. */
  predicate Collecting(c: Collection, s: seq<byte>, from: nat) {
    && c.inProgress && 13 <= from < |s| && c.expected == |c.temp| == |s|
    && c.collected == from && c.temp[..from] == s[..from]
  }

  function RunPackets(s: Psi, packets: seq<Packet>): Psi
    requires Sound(s.ecm)
    decreases |packets|
  {
    if packets == [] then s else StepKeepsSound(s, packets[0]); RunPackets(ParseTsPacket(s, packets[0]).0, packets[1..])
  }

  lemma NeutralKeeps(s: Psi, p: Packet)
    requires Sound(s.ecm) && Neutral(s.tables, p)
    ensures ParseTsPacket(s, p).0 == s
  {
    hide ParsePat, ParsePmt, AfterPat, AfterPmt;
  }

  /** The state once the section is complete. */
  function Completed(s: Psi, section: seq<byte>): Psi {
    Psi(s.tables.(ecm := s.tables.ecm.SetVer(SectionVersion(section))), Collection(section, [], false, 0, 0))
  }

  /** One packet that continues the section. */
  lemma ContinuePacket(s: Psi, p: Packet, section: seq<byte>, from: nat)
    requires Sound(s.ecm) && Routed(s.tables) && s.tables.ecm.IsPid(GetPid(p)) && Collecting(s.ecm, section, from)
    requires s.tables.ecm.IsNew(SectionVersion(section)) && Continues(p, section, from)
    ensures var r, n := ParseTsPacket(s, p).0, from + Portion(p, section, from);
            if n == |section| then r == Completed(s, section)
            else r.tables == s.tables && Collecting(r.ecm, section, n) && r.ecm.table == s.ecm.table
  {
    hide ParsePat, ParsePmt, AfterPat, AfterPmt, HasAdaptation, VersionBits;
    var c, n, a := s.ecm, Portion(p, section, from), AdaptationSize(p);
    assert Copy(p, 4 + a, n) == section[from..from + n];
    var temp := c.temp[..from] + Copy(p, 4 + a, n) + c.temp[from + n..];
    assert temp[..from + n] == section[..from + n];
    assert c.temp[..from][5] == section[..from][5];
    assert from + n == |section| ==> temp == section;
  }

  /** A section of a new version, spread over the packets of its PID in order, with any adaptation fields
      and any neutral packets between them, ends up as the ECM table. */
  lemma {:induction false} CollectsRest(s: Psi, packets: seq<Packet>, section: seq<byte>, from: nat)
    requires Sound(s.ecm) && Routed(s.tables) && Collecting(s.ecm, section, from)
    requires s.tables.ecm.IsNew(SectionVersion(section)) && Carry(s.tables, packets, section, from)
    ensures RunPackets(s, packets) == Completed(s, section)
    decreases |packets|
  {
    hide ParseTsPacket, Neutral, Continues, Portion, SectionVersion;
    assert packets != [];
    var p := packets[0];
    if Neutral(s.tables, p) {
      NeutralKeeps(s, p);
      CollectsRest(s, packets[1..], section, from);
    } else {
      ContinuePacket(s, p, section, from);
      StepKeepsSound(s, p);
      var r, n := ParseTsPacket(s, p).0, from + Portion(p, section, from);
      if n == |section| {
        NothingLeft(s, r, packets[1..], section);
      } else {
        CollectsRest(r, packets[1..], section, n);
      }
    }
  }

  /** Behind the end of the section only neutral packets follow. */
  lemma {:induction false} NothingLeft(s: Psi, r: Psi, packets: seq<Packet>, section: seq<byte>)
    requires Sound(r.ecm) && Routed(s.tables) && Carry(s.tables, packets, section, |section|)
    requires r.tables == s.tables.(ecm := r.tables.ecm) && r.tables.ecm == s.tables.ecm.SetVer(SectionVersion(section))
    ensures RunPackets(r, packets) == r
    decreases |packets|
  {
    if packets != [] {
      NeutralAfterVersion(s.tables, packets[0], SectionVersion(section));
      NeutralKeeps(r, packets[0]);
      NothingLeft(s, r, packets[1..], section);
    }
  }

  /** What leaves the tables unchanged still does when only the ECM version has changed. */
  lemma NeutralAfterVersion(t: Tables, p: Packet, v: nat)
    requires Routed(t) && Neutral(t, p)
    ensures Neutral(t.(ecm := t.ecm.SetVer(v)), p)
  {
  }

  /** The packet that starts the section. */
  lemma StartPacket(s: Psi, p: Packet, section: seq<byte>)
    requires Sound(s.ecm) && !s.ecm.inProgress && Routed(s.tables) && s.tables.ecm.IsPid(GetPid(p))
    requires VmSection(section) && s.tables.ecm.IsNew(SectionVersion(section)) && Starts(p, section)
    ensures var r, n := ParseTsPacket(s, p).0, Min(|section|, Room(p));
            if n == |section| then r == Completed(s, section)
            else r.tables == s.tables && Collecting(r.ecm, section, n) && r.ecm.table == s.ecm.table
  {
    hide ParsePat, ParsePmt, HasAdaptation, VersionBits;
    var t, n := 5 + AdaptationSize(p), Min(|section|, Room(p));
    HeadBytes(p, t, n, section);
    assert Copy(p, t, n) == section[..n];
    assert (Copy(p, t, n) + Zeros(|section| - n))[..n] == section[..n];
    assert n == |section| ==> Copy(p, t, n) + Zeros(0) == section;
  }

  /** The first 13 bytes of the section stand in the packet. */
  lemma HeadBytes(p: Packet, t: nat, n: nat, section: seq<byte>)
    requires 13 <= n <= |section| && t + n <= TS_PACKAGE_SIZE && p[t..t + n] == section[..n]
    ensures forall k :: 0 <= k < 13 ==> At(p, t + k) == At(section, k)
    ensures Copy(p, t + 8, 5) == section[8..13]
  {
    forall k | 0 <= k < 13 ensures At(p, t + k) == At(section, k) {
      assert p[t..t + n][k] == section[..n][k];
    }
    forall k | 0 <= k < 5 ensures p[t + 8..t + 13][k] == section[8..13][k] {
      assert p[t..t + n][8 + k] == section[..n][8 + k];
    }
    assert p[t + 8..t + 13] == section[8..13];
  }

  /** Any Verimatrix ECM section of a new version, started by a packet of the ECM PID that leaves at least
      13 bytes of room and carried on by any number of packets with any adaptation fields, with any
      neutral packets in between, becomes the ECM table, whole and unchanged. */
  lemma SectionIsReassembled(s: Psi, packets: seq<Packet>, section: seq<byte>)
    requires Sound(s.ecm) && !s.ecm.inProgress && Routed(s.tables)
    requires VmSection(section) && s.tables.ecm.IsNew(SectionVersion(section))
    requires packets != [] && s.tables.ecm.IsPid(GetPid(packets[0])) && Starts(packets[0], section)
    requires Carry(s.tables, packets[1..], section, Min(|section|, Room(packets[0])))
    ensures RunPackets(s, packets) == Completed(s, section)
    ensures RunPackets(s, packets).ecm.table == section
  {
    hide ParseTsPacket, Carry, Starts, SectionVersion, VmSection;
    var p, n := packets[0], Min(|section|, Room(packets[0]));
    StartPacket(s, p, section);
    StepKeepsSound(s, p);
    var r := ParseTsPacket(s, p).0;
    if n == |section| {
      NothingLeft(s, r, packets[1..], section);
    } else {
      CollectsRest(r, packets[1..], section, n);
    }
  }
}

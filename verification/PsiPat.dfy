/** What parsing a PAT means: a section described by its entries, not by its bytes. */
module PsiPat {
  import opened Bytes
  import opened Options
  import opened PsiTables

  /** One entry of section 2.4.4.3 of ISO/IEC 13818-1: a program number and a PID. Number 0 gives the network PID. */
  datatype Entry = Entry(number: nat, pid: nat)

  /** The packet holds a PAT section with these entries. */
  predicate PatAt(p: Packet, entries: seq<Entry>) {
    && IsPatSection(p) && entries != []
    && PatOffset(p) + 13 + 4 * |entries| <= TS_PACKAGE_SIZE
    && forall i :: 0 <= i < |entries| ==>
         && entries[i].number == Word(p, PatOffset(p) + 13 + 4 * i, 0x10000)
         && entries[i].pid == Word(p, PatOffset(p) + 15 + 4 * i, 0x2000)
  }

  /** The first entry that stands for a program. */
  function FirstProgram(entries: seq<Entry>): Option<nat> {
    if entries == [] then None
    else if entries[0].number != 0 then Some(entries[0].pid)
    else FirstProgram(entries[1..])
  }

  /** The first entry's program number, cut to thirteen bits, is not 0. */
  predicate LeadingProgram(entries: seq<Entry>)
    requires entries != []
  {
    entries[0].number % 0x2000 != 0
  }

  lemma WordCut(p: Packet, i: nat)
    ensures Word(p, i, 0x10000) % 0x2000 == Word(p, i, 0x2000)
  {
    var w := At(p, i) * 256 + At(p, i + 1);
    assert w % 0x10000 == w;
  }

  /** A PAT of a new version forgets the PMT and ECM versions and takes the PMT PID of its first program
      exactly when its first entry is that program, or when the two bytes behind the first entry, which
      are the program number of the second and not its PID, happen to spell that PID. */
  lemma ParsePatMeans(t: Tables, p: Packet, entries: seq<Entry>)
    requires NewPat(t, p) && PatAt(p, entries) && FirstProgram(entries).Some?
    ensures var (r, action) := ParsePat(t, p);
            && action == IGNORE && r.ecm == NO_PID && !r.pmt.versionValid && r.pmt.pidValid
            && r.pat.versionValid && r.pat.pid == t.pat.pid && !NewPat(r, p)
            && (r.pmt.IsPid(FirstProgram(entries).value)
                <==> LeadingProgram(entries) || Word(p, PatOffset(p) + 17, 0x2000) == FirstProgram(entries).value)
            && (!LeadingProgram(entries) && |entries| > 1 ==> r.pmt.pid == entries[1].number % 0x2000)
  {
    hide Word, HasAdaptation;
    WordCut(p, PatOffset(p) + 13);
    assert entries[0].number == Word(p, PatOffset(p) + 13 + 4 * 0, 0x10000);
    assert entries[0].pid == Word(p, PatOffset(p) + 15 + 4 * 0, 0x2000);
    if |entries| > 1 {
      WordCut(p, PatOffset(p) + 17);
      assert entries[1].number == Word(p, PatOffset(p) + 13 + 4 * 1, 0x10000);
    }
    PidsFit(p, PatOffset(p));
  }

  lemma PidsFit(p: Packet, offs: nat)
    ensures Word(p, offs + 15, 0x2000) <= PSI_MAX_PID && Word(p, offs + 17, 0x2000) <= PSI_MAX_PID
  {
  }

  function NetworkFirstPat(): Packet {
    [0x47, 0x40, 0x00, 0x10, 0x00, 0x00, 0xB0, 0x11, 0x00, 0x01, 0xC1, 0x00, 0x00,
     0x00, 0x00, 0xE0, 0x10, 0x00, 0x01, 0xE1, 0x00] + seq(167, _ => 0)
  }

  lemma NetworkFirstBytes()
    ensures var p := NetworkFirstPat();
            && p[3] == 0x10 && p[4] == 0 && p[5] == 0 && p[10] == 0xC1 && p[13] == 0 && p[14] == 0
            && p[15] == 0xE0 && p[16] == 0x10 && p[17] == 0 && p[18] == 1 && p[19] == 0xE1 && p[20] == 0
  {
  }

  /** With the network entry first, program 1 with the PMT PID 0x100 is looked for on PID 1. */
  lemma NetworkEntryFirst(t: Tables)
    requires t.pat.IsNew(0)
    ensures var entries := [Entry(0, 0x10), Entry(1, 0x100)];
            && PatAt(NetworkFirstPat(), entries) && FirstProgram(entries) == Some(0x100)
            && ParsePat(t, NetworkFirstPat()).0.pmt.pid == 1
  {
    NetworkFirstBytes();
    hide NetworkFirstPat;
    var entries := [Entry(0, 0x10), Entry(1, 0x100)];
    assert FirstProgram(entries[1..]) == Some(0x100);
  }
}

/** The stream parser on whole packets: the tables together with the collection of ECM sections. */
module PsiParser {
  import opened Bytes
  import opened PsiTables

  /** The last complete ECM section and the one being collected. */
  datatype Collection = Collection(table: seq<byte>, temp: seq<byte>, inProgress: bool, expected: nat, collected: nat)

  datatype Psi = Psi(tables: Tables, ecm: Collection)

  /** resetCollectionState. */
  function ResetCollection(c: Collection): Collection {
    Collection(c.table, [], false, 0, 0)
  }

  function Zeros(n: nat): (s: seq<byte>)
    ensures |s| == n
  {
    seq(n, _ => 0)
  }

  /** `n` bytes of the packet from `from` on. */
  function Copy(p: Packet, from: nat, n: nat): (s: seq<byte>)
    ensures |s| == n
  {
    if from + n <= |p| then p[from..from + n]
    else if from <= |p| then p[from..] + Zeros(from + n - |p|)
    else Zeros(n)
  }

  /** The adaptation field with its length byte. */
  function AdaptationSize(p: Packet): nat {
    if HasAdaptation(p) then At(p, 4) + 1 else 0
  }

  function Min(a: nat, b: nat): nat {
    if a < b then a else b
  }

  /** A complete section: taken over if its version is new. */
  function Finish(ecm: PidInfo, c: Collection, section: seq<byte>, version: nat, done: ParserAction)
    : (PidInfo, Collection, ParserAction)
  {
    if ecm.IsNew(version) then (ecm.SetVer(version), ResetCollection(c.(table := section)), done)
    else (ecm, ResetCollection(c), IGNORE)
  }

  const VMECM: seq<byte> := [0x56, 0x4D, 0x45, 0x43, 0x4D]

  /** The section bytes behind adaptation field and pointer in a packet that starts one. */
  function Room(p: Packet): int {
    TS_PACKAGE_SIZE - (5 + AdaptationSize(p))
  }

  /** A packet with room for the 13 bytes that identify a Verimatrix ECM section, and with these bytes. */
  predicate StartsVmEcm(p: Packet) {
    var t := 5 + AdaptationSize(p);
    && Room(p) >= 13
    && (At(p, t) == 0x80 || At(p, t) == 0x81)
    && Copy(p, t + 8, 5) == VMECM
  }

  function ParseEcm(ecm: PidInfo, c: Collection, p: Packet): (PidInfo, Collection, ParserAction)
    requires Sound(c)
  {
    if c.inProgress then CollectEcm(ecm, c, p)
    else if !StartsVmEcm(p) then (ecm, c, ERROR)
    else
      var t := 5 + AdaptationSize(p);
      var len := At(p, t + 1) % 16 * 256 + At(p, t + 2) + 3;
      var n := Min(len, Room(p));
      var temp := Copy(p, t, n) + Zeros(len - n);
      if len > n then (ecm, Collection(c.table, temp, true, len, n), IGNORE)
      else Finish(ecm, c, temp, VersionBits(At(p, t + 5)), NEW_ECM)
  }

  /** One more packet of a section whose collection is in progress. */
  function CollectEcm(ecm: PidInfo, c: Collection, p: Packet): (PidInfo, Collection, ParserAction)
    requires Sound(c) && c.inProgress
  {
    var a := AdaptationSize(p);
    if a > 184 then (ecm, c, ERROR)
    else
      var n := Min(TS_PACKAGE_SIZE - (4 + a), c.expected - c.collected);
      var temp := c.temp[..c.collected] + Copy(p, 4 + a, n) + c.temp[c.collected + n..];
      if c.collected + n == c.expected then Finish(ecm, c, temp, VersionBits(At(c.temp, 5)), NEW_ECMT)
      else (ecm, c.(temp := temp, collected := c.collected + n), IGNORE)
  }

  /** While a section is collected: at least the first 13 bytes are there, at least one is missing, and the
      space is the section's. */
  predicate Sound(c: Collection) {
    c.inProgress ==> 13 <= c.collected < c.expected == |c.temp|
  }

  function ParseOther(p: Packet): ParserAction {
    var tsc := At(p, 3) / 64;
    if tsc == 0 then IGNORE else if tsc == 2 then DECRYPT_EVEN else DECRYPT_ODD
  }

  function ParseTsPacket(s: Psi, p: Packet): (Psi, ParserAction)
    requires Sound(s.ecm)
  {
    var pid, t := GetPid(p), s.tables;
    if t.pat.IsPid(pid) then
      var (t', action) := ParsePat(t, p);
      (s.(tables := AfterPat(t')), action)
    else if t.pmt.IsPid(pid) then
      var (t', action) := ParsePmt(t, p);
      (s.(tables := AfterPmt(t')), action)
    else if t.ecm.IsPid(pid) then
      var (ecm, c, action) := ParseEcm(t.ecm, s.ecm, p);
      var t' := t.(ecm := ecm);
      (Psi(if t.state == NEEDS_PMT && ecm.versionValid then t'.(state := GOT_ECM) else t', c), action)
    else (s, ParseOther(p))
  }

  /** onOpen: whether the last stream was clear is not forgotten. */
  function OnOpen(s: Psi): Psi {
    Psi(Tables(NO_PID.SetPid(0), NO_PID, NO_PID, s.tables.clear, NEEDS_PAT), ResetCollection(s.ecm).(table := []))
  }
}

/** The tables of the stream parser: which PIDs carry PAT, PMT and ECM, and how PAT and PMT packets
    change that. Reads behind the 188 bytes of a packet, which the source leaves undefined, read as 0. */
module PsiTables {
  import opened Bytes
  import opened Options

  const PSI_INVALID_PID := 0xFFFF
  const PSI_MAX_PID := 0x1FFF
  const CA_DESC_LEN := 6

  type Packet = p: seq<byte> | |p| == 188 witness seq(188, _ => 0)

  datatype ParserAction =
    ERROR | IGNORE | DROP | DECRYPT_ODD | DECRYPT_EVEN | NEW_ECM | NEW_ECMT | NEW_PAT_PMT

  datatype ParserState = INVALID | NEEDS_PAT | NEEDS_PMT | NEEDS_VMX_PMT | NEEDS_ECM | GOT_ECM | NO_ECM

  function At(p: seq<byte>, i: nat): (b: nat)
    ensures b < 256
  {
    if i < |p| then p[i] else 0
  }

  /** Two bytes, cut to `modulus`. */
  function Word(p: seq<byte>, i: nat, modulus: nat): (w: nat)
    requires modulus > 0
  {
    (At(p, i) * 256 + At(p, i + 1)) % modulus
  }

  function GetPid(p: Packet): nat {
    Word(p, 1, 0x2000)
  }

  /** The packet has both an adaptation field and a payload. */
  predicate HasAdaptation(p: Packet) {
    At(p, 3) / 16 % 4 == 3
  }

  /** The five version bits of a section's sixth byte. */
  function VersionBits(b: nat): nat {
    b / 2 % 32
  }

  // ----- one PID -----

  datatype PidInfo = PidInfo(pid: nat, version: nat, pidValid: bool, versionValid: bool, stored: seq<byte>) {
    function SetPid(p: nat): PidInfo {
      if pidValid then this else this.(pid := p, pidValid := p <= PSI_MAX_PID)
    }

    function SetVer(v: nat): PidInfo {
      if pidValid then this.(version := v, versionValid := true) else this
    }

    predicate IsNew(v: nat) {
      pidValid && (!versionValid || version != v)
    }

    predicate IsPid(p: nat) {
      pidValid && p == pid
    }

    function GetPid(): nat {
      if pidValid then pid else PSI_INVALID_PID
    }

    function Store(p: Packet): PidInfo {
      this.(stored := p[5..])
    }
  }

  const NO_PID := PidInfo(PSI_INVALID_PID, 0, false, false, [])

  datatype Tables = Tables(pat: PidInfo, pmt: PidInfo, ecm: PidInfo, clear: bool, state: ParserState)

  // ----- PAT -----

  function PatOffset(p: Packet): nat {
    if HasAdaptation(p) then At(p, 4) + 1 else At(p, 4)
  }

  /** The PID taken for the program map: that of the first entry, or, if the first entry's program number
      cut to thirteen bits is 0, whatever the two bytes behind the first entry spell. */
  function PmtPidOf(p: Packet): nat {
    var offs := PatOffset(p);
    if Word(p, offs + 13, 0x2000) == 0 then Word(p, offs + 17, 0x2000) else Word(p, offs + 15, 0x2000)
  }

  predicate IsPatSection(p: Packet) {
    PatOffset(p) <= 184 && At(p, PatOffset(p) + 5) == 0
  }

  /** A PAT of a new version. */
  predicate NewPat(t: Tables, p: Packet) {
    IsPatSection(p) && t.pat.IsNew(VersionBits(At(p, PatOffset(p) + 10)))
  }

  function ParsePat(t: Tables, p: Packet): (Tables, ParserAction) {
    if !IsPatSection(p) then (t, ERROR)
    else if NewPat(t, p) then
      (t.(pmt := NO_PID.SetPid(PmtPidOf(p)), ecm := NO_PID,
          pat := t.pat.SetVer(VersionBits(At(p, PatOffset(p) + 10))).Store(p)), IGNORE)
    else (t, IGNORE)
  }

  // ----- PMT -----

  /** A CA descriptor with the system identifier 0x5601 starts at `i`. */
  predicate IsVmx(p: Packet, i: nat) {
    At(p, i) == 0x09 && At(p, i + 2) == 0x56 && At(p, i + 3) == 0x01
  }

  function CaPid(p: Packet, i: nat): nat {
    Word(p, i + 4, 0x2000)
  }

  /** The CA descriptor names the ECM PID: plain, or with an extension of at least two bytes. The parser's
      operator identifier is 0, which accepts every such extension. */
  predicate Accepted(p: Packet, i: nat) {
    var len := At(p, i + 1) + 2;
    len <= CA_DESC_LEN || len - CA_DESC_LEN >= 2
  }

  /** What a walk over a descriptor loop finds: any CA descriptor, the ECM PID to switch to, or a
      descriptor longer than a packet, at which the walk gives up. */
  datatype Found = Found(any: bool, pid: Option<nat>, overrun: bool)

  const NOTHING := Found(false, None, false)

  /** The program-level loop over [lo, hi): up to the first accepted CA descriptor. */
  function ScanProgram(p: Packet, lo: nat, hi: nat): Found
    decreases hi - lo
  {
    if lo >= hi then NOTHING
    else if At(p, lo + 1) + 2 > TS_PACKAGE_SIZE then Found(false, None, true)
    else if IsVmx(p, lo) && Accepted(p, lo) then Found(true, Some(CaPid(p, lo)), false)
    else
      var rest := ScanProgram(p, lo + At(p, lo + 1) + 2, hi);
      if IsVmx(p, lo) then rest.(any := true) else rest
  }

  /** One elementary stream's loop over [lo, hi): up to the first CA descriptor with a PID other than the
      current ECM PID. */
  function ScanStream(p: Packet, lo: nat, hi: nat, ecm: PidInfo): Found
    decreases hi - lo
  {
    if lo + 6 > hi then NOTHING
    else if IsVmx(p, lo) && !ecm.IsPid(CaPid(p, lo)) then Found(true, Some(CaPid(p, lo)), false)
    else
      var rest := ScanStream(p, lo + At(p, lo + 1) + 2, hi, ecm);
      if IsVmx(p, lo) then rest.(any := true) else rest
  }

  function EsInfoLength(p: Packet, lo: nat): nat {
    Word(p, lo + 3, 0x1000)
  }

  /** The elementary streams in [lo, hi), up to the first one that names a new ECM PID. */
  function ScanStreams(p: Packet, lo: nat, hi: nat, ecm: PidInfo): Found
    decreases hi - lo
  {
    if lo >= hi then NOTHING
    else
      var len := EsInfoLength(p, lo);
      var here := ScanStream(p, lo + 5, lo + 5 + len, ecm);
      if here.pid.Some? then here
      else
        var rest := ScanStreams(p, lo + 5 + len, hi, ecm);
        if here.any then rest.(any := true) else rest
  }

  /** Switch to another ECM PID, forgetting the version; the same PID changes nothing. */
  function Retarget(ecm: PidInfo, pid: Option<nat>, p: Packet): PidInfo {
    if pid.None? || ecm.IsPid(pid.value) then ecm else NO_PID.SetPid(pid.value).Store(p)
  }

  function PmtOffset(p: Packet): nat {
    if HasAdaptation(p) then At(p, 4) + 1 else 0
  }

  function SectionLength(p: Packet): nat {
    Word(p, PmtOffset(p) + 6, 0x1000)
  }

  function ProgramInfoLength(p: Packet): nat {
    Word(p, PmtOffset(p) + 15, 0x1000)
  }

  /** Where the program-level descriptors start and end and where the elementary streams end. */
  function ProgramStart(p: Packet): nat {
    PmtOffset(p) + 17
  }

  function StreamsStart(p: Packet): nat {
    ProgramStart(p) + ProgramInfoLength(p)
  }

  function StreamsEnd(p: Packet): int {
    PmtOffset(p) + 8 + SectionLength(p) - 4
  }

  predicate IsPmtSection(p: Packet) {
    PmtOffset(p) <= 184 && At(p, PmtOffset(p) + 5) == 0x2 && ProgramInfoLength(p) <= SectionLength(p)
  }

  predicate NewPmt(t: Tables, p: Packet) {
    IsPmtSection(p) && t.pmt.IsNew(VersionBits(At(p, PmtOffset(p) + 10)))
  }

  /** The two walks over a PMT: at program level, then over the streams with the ECM PID that gives. */
  function ProgramFound(p: Packet): Found {
    ScanProgram(p, ProgramStart(p), StreamsStart(p))
  }

  function StreamsFound(t: Tables, p: Packet): Found {
    if StreamsEnd(p) < 0 then NOTHING
    else ScanStreams(p, StreamsStart(p), StreamsEnd(p), Retarget(t.ecm, ProgramFound(p).pid, p))
  }

  function ParsePmt(t: Tables, p: Packet): (Tables, ParserAction) {
    if !NewPmt(t, p) then (t, ERROR)
    else
      var pmt := t.pmt.SetVer(VersionBits(At(p, PmtOffset(p) + 10)));
      var program := ProgramFound(p);
      if program.overrun then (t.(pmt := pmt), IGNORE)
      else
        var streams := StreamsFound(t, p);
        var ecm := Retarget(Retarget(t.ecm, program.pid, p), streams.pid, p);
        var clear := !(program.any || streams.any);
        (t.(pmt := if clear then pmt.Store(p) else pmt, ecm := ecm, clear := clear),
         if clear then NEW_PAT_PMT else IGNORE)
  }

  /** What a PMT packet does to the parser state, once a PMT version is known. */
  function AfterPmt(t: Tables): Tables {
    if !t.pmt.versionValid then t
    else
      match t.state
      case NEEDS_PMT | NEEDS_VMX_PMT | NO_ECM =>
        if t.clear then t
        else t.(state := if t.ecm.GetPid() != PSI_INVALID_PID then NEEDS_ECM else NEEDS_VMX_PMT)
      case NEEDS_ECM | GOT_ECM =>
        if t.clear then t.(state := NO_ECM, ecm := NO_PID) else t
      case _ => t
  }

  function AfterPat(t: Tables): Tables {
    if t.state == NEEDS_PAT && t.pat.versionValid && t.pmt.GetPid() != PSI_INVALID_PID
    then t.(state := NEEDS_PMT) else t
  }
}

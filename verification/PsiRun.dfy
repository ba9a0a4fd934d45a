/** What holds in every run of the stream parser from the opening of a channel on. */
module PsiRun {
  import opened Options
  import opened PsiTables
  import opened PsiParser

  datatype Event = Opened | Got(p: Packet)

  // ----- the collection stays sound -----

  lemma StepKeepsSound(s: Psi, p: Packet)
    requires Sound(s.ecm)
    ensures Sound(ParseTsPacket(s, p).0.ecm)
  {
    hide ParsePat, ParsePmt, AfterPat, AfterPmt, Copy, StartsVmEcm;
    if s.tables.ecm.IsPid(GetPid(p)) {
      EcmKeepsSound(s.tables.ecm, s.ecm, p);
    }
  }

  lemma EcmKeepsSound(ecm: PidInfo, c: Collection, p: Packet)
    requires Sound(c)
    ensures Sound(ParseEcm(ecm, c, p).1)
  {
    hide Copy;
  }

  function Step(s: Psi, e: Event): (r: Psi)
    requires Sound(s.ecm)
    ensures Sound(r.ecm)
  {
    match e
    case Opened => OnOpen(s)
    case Got(p) => StepKeepsSound(s, p); ParseTsPacket(s, p).0
  }

  /** The state after the events. */
  function Run(s: Psi, events: seq<Event>): (r: Psi)
    requires Sound(s.ecm)
    ensures Sound(r.ecm)
  {
    if events == [] then s else Step(Run(s, events[..|events| - 1]), events[|events| - 1])
  }

  // ----- which PIDs a PMT names -----

  function ProgramPids(p: Packet, lo: nat, hi: nat): set<nat>
    decreases hi - lo
  {
    if lo >= hi then {}
    else (if IsVmx(p, lo) then {CaPid(p, lo)} else {}) + ProgramPids(p, lo + At(p, lo + 1) + 2, hi)
  }

  function StreamPids(p: Packet, lo: nat, hi: nat): set<nat>
    decreases hi - lo
  {
    if lo >= hi then {}
    else ProgramPids(p, lo + 5, lo + 5 + EsInfoLength(p, lo)) + StreamPids(p, lo + 5 + EsInfoLength(p, lo), hi)
  }

  /** The PIDs of all CA descriptors with the identifier 0x5601 in a PMT packet. */
  function PidsNamed(p: Packet): set<nat> {
    ProgramPids(p, ProgramStart(p), StreamsStart(p))
    + if StreamsEnd(p) < 0 then {} else StreamPids(p, StreamsStart(p), StreamsEnd(p))
  }

  /** The PIDs named by the PMTs taken up since the channel was opened or the PAT last changed. */
  function Named(s: Psi, events: seq<Event>): set<nat>
    requires Sound(s.ecm)
  {
    if events == [] then {}
    else
      var n := |events| - 1;
      NamedAfter(Run(s, events[..n]).tables, Named(s, events[..n]), events[n])
  }

  function NamedAfter(t: Tables, named: set<nat>, e: Event): set<nat> {
    match e
    case Opened => {}
    case Got(p) =>
      if t.pat.IsPid(GetPid(p)) then if NewPat(t, p) then {} else named
      else if t.pmt.IsPid(GetPid(p)) && NewPmt(t, p) then named + PidsNamed(p)
      else named
  }

  // ----- the invariant -----

  /** A known ECM PID means that the parser waits for ECMs of a protected stream and that a PMT under the
      current PAT named the PID; the state for a received ECM is never entered. */
  predicate Consistent(t: Tables, named: set<nat>) {
    && (t.ecm.pidValid ==> t.state == NEEDS_ECM && !t.clear && t.ecm.pid in named && t.ecm.pid <= PSI_MAX_PID)
    && (t.pmt.pidValid ==> t.state != NEEDS_PAT && t.pmt.pid <= PSI_MAX_PID)
    && t.state != GOT_ECM && t.state != INVALID
    && t.pat.pidValid
  }

  lemma {:induction false} ScanProgramNames(p: Packet, lo: nat, hi: nat)
    ensures var f := ScanProgram(p, lo, hi);
            f.pid.Some? ==> f.any && f.pid.value in ProgramPids(p, lo, hi) && f.pid.value <= PSI_MAX_PID
    decreases hi - lo
  {
    hide IsVmx, Accepted, At;
    if lo < hi {
      ScanProgramNames(p, lo + At(p, lo + 1) + 2, hi);
    }
  }

  lemma {:induction false} ScanStreamNames(p: Packet, lo: nat, hi: nat, ecm: PidInfo)
    ensures var f := ScanStream(p, lo, hi, ecm);
            f.pid.Some? ==> f.any && f.pid.value in ProgramPids(p, lo, hi) && f.pid.value <= PSI_MAX_PID
    decreases hi - lo
  {
    hide IsVmx, At;
    if lo + 6 <= hi {
      ScanStreamNames(p, lo + At(p, lo + 1) + 2, hi, ecm);
    }
  }

  lemma {:induction false} ScanStreamsNames(p: Packet, lo: nat, hi: nat, ecm: PidInfo)
    ensures var f := ScanStreams(p, lo, hi, ecm);
            f.pid.Some? ==> f.any && f.pid.value in StreamPids(p, lo, hi) && f.pid.value <= PSI_MAX_PID
    decreases hi - lo
  {
    hide ScanStream, ProgramPids, EsInfoLength;
    if lo < hi {
      var len := EsInfoLength(p, lo);
      ScanStreamNames(p, lo + 5, lo + 5 + len, ecm);
      ScanStreamsNames(p, lo + 5 + len, hi, ecm);
    }
  }

  lemma PatKeepsConsistent(t: Tables, named: set<nat>, p: Packet)
    requires Consistent(t, named)
    ensures Consistent(AfterPat(ParsePat(t, p).0), if NewPat(t, p) then {} else named)
  {
    hide At, VersionBits;
  }

  lemma PmtKeepsConsistent(t: Tables, named: set<nat>, p: Packet)
    requires Consistent(t, named) && t.pmt.pidValid
    ensures Consistent(AfterPmt(ParsePmt(t, p).0), if NewPmt(t, p) then named + PidsNamed(p) else named)
  {
    hide At, VersionBits, ScanProgram, ScanStreams, ProgramPids, StreamPids, IsPmtSection;
    ScanProgramNames(p, ProgramStart(p), StreamsStart(p));
    if StreamsEnd(p) >= 0 {
      ScanStreamsNames(p, StreamsStart(p), StreamsEnd(p), Retarget(t.ecm, ProgramFound(p).pid, p));
    }
  }

  lemma EcmKeepsConsistent(s: Psi, named: set<nat>, p: Packet)
    requires Consistent(s.tables, named) && Sound(s.ecm)
    requires s.tables.ecm.IsPid(GetPid(p))
    ensures var ecm := ParseEcm(s.tables.ecm, s.ecm, p).0; ecm.pidValid && ecm.pid == s.tables.ecm.pid
  {
    hide Copy, StartsVmEcm;
  }

  lemma StepKeepsConsistent(s: Psi, named: set<nat>, e: Event)
    requires Sound(s.ecm) && (e.Opened? || Consistent(s.tables, named))
    ensures Consistent(Step(s, e).tables, NamedAfter(s.tables, named, e))
  {
    hide ParsePat, ParsePmt, ParseEcm, AfterPat, AfterPmt, NewPat, NewPmt, PidsNamed;
    if e.Got? {
      var pid := GetPid(e.p);
      if s.tables.pat.IsPid(pid) {
        PatKeepsConsistent(s.tables, named, e.p);
      } else if s.tables.pmt.IsPid(pid) {
        PmtKeepsConsistent(s.tables, named, e.p);
      } else if s.tables.ecm.IsPid(pid) {
        EcmKeepsConsistent(s, named, e.p);
      }
    }
  }

  /** In every run from the opening of a channel on, over all packets: an ECM PID is known only while the
      parser waits for ECMs of a protected stream, and only if a PMT under the current PAT named it; and
      the state for a received ECM is never entered. */
  lemma {:induction false} RunIsConsistent(s: Psi, events: seq<Event>)
    requires Sound(s.ecm) && events != [] && events[0] == Opened
    ensures Consistent(Run(s, events).tables, Named(s, events))
  {
    var n := |events| - 1;
    hide Step, NamedAfter, Consistent;
    if n > 0 {
      RunIsConsistent(s, events[..n]);
    }
    StepKeepsConsistent(Run(s, events[..n]), Named(s, events[..n]), events[n]);
  }
}

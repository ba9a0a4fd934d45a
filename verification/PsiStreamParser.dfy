/** The stream parser as it runs: one object that is fed packet after packet. */
module PsiStreamParser {
  import opened Bytes
  import opened Options
  import opened PsiTables
  import opened PsiParser
  import opened PsiRun
  import opened PsiPmt

  /** The program-level walk over [lo, hi) never steps past `hi`, where the count of the bytes left would
      wrap around: it ends at `hi`, at an accepted CA descriptor or at one longer than a packet. */
  predicate ProgramWalkable(p: Packet, lo: nat, hi: nat)
    decreases hi - lo
  {
    if lo >= hi then lo == hi
    else
      var next := lo + At(p, lo + 1) + 2;
      || next > lo + TS_PACKAGE_SIZE
      || (IsVmx(p, lo) && Accepted(p, lo))
      || (next <= hi && ProgramWalkable(p, next, hi))
  }

  /** The same of the walk over the streams, which may run into the four bytes of the checksum behind `hi`. */
  predicate StreamsWalkable(p: Packet, lo: nat, hi: nat, ecm: PidInfo)
    decreases hi - lo
  {
    if lo >= hi then lo <= hi + 4
    else
      var next := lo + 5 + EsInfoLength(p, lo);
      ScanStream(p, lo + 5, next, ecm).pid.Some? || StreamsWalkable(p, next, hi, ecm)
  }

  predicate Readable(t: Tables, p: Packet) {
    && ProgramWalkable(p, ProgramStart(p), StreamsStart(p))
    && (|| ProgramFound(p).overrun
        || (&& ProgramInfoLength(p) + 9 <= SectionLength(p)
            && StreamsWalkable(p, StreamsStart(p), StreamsEnd(p), Retarget(t.ecm, ProgramFound(p).pid, p))))
  }

  lemma {:induction false} DescriptorsAreWalkable(p: Packet, lo: nat, hi: nat, ds: seq<Descriptor>)
    requires DescriptorsAt(p, lo, hi, ds)
    ensures ProgramWalkable(p, lo, hi)
    decreases |ds|
  {
    hide IsVmx, Accepted;
    if ds != [] {
      DescriptorsAreWalkable(p, lo + At(p, lo + 1) + 2, hi, ds[1..]);
    }
  }

  lemma {:induction false} StreamsAreWalkable(p: Packet, lo: nat, hi: nat, streams: seq<seq<Descriptor>>, ecm: PidInfo)
    requires StreamsAt(p, lo, hi, streams)
    ensures StreamsWalkable(p, lo, hi, ecm)
    decreases |streams|
  {
    hide ScanStream, EsInfoLength, DescriptorsAt;
    if streams != [] {
      StreamsAreWalkable(p, lo + 5 + EsInfoLength(p, lo), hi, streams[1..], ecm);
    }
  }

  /** Every whole PMT section can be read, whatever the parser knows already. */
  lemma WholeSectionIsReadable(t: Tables, p: Packet, program: seq<Descriptor>, streams: seq<seq<Descriptor>>)
    requires PmtAt(p, program, streams)
    ensures Readable(t, p)
  {
    hide ProgramWalkable, StreamsWalkable, DescriptorsAt, StreamsAt, ScanProgram;
    DescriptorsAreWalkable(p, ProgramStart(p), StreamsStart(p), program);
    StreamsAreWalkable(p, StreamsStart(p), StreamsEnd(p), streams, Retarget(t.ecm, ProgramFound(p).pid, p));
  }

  /** The program-level loop: walks descriptor by descriptor, counting down the bytes left. */
  method WalkProgram(p: Packet, start: nat, programInfoLength: nat) returns (r: Found)
    requires ProgramWalkable(p, start, start + programInfoLength)
    ensures r == ScanProgram(p, start, start + programInfoLength)
  {
    hide IsVmx, Accepted, CaPid;
    var end := start + programInfoLength;
    var found := false;
    var pos, pLen := start, programInfoLength;
    while pLen > 0
      invariant 0 <= pLen && pos + pLen == end && ProgramWalkable(p, pos, end)
      invariant var rest := ScanProgram(p, pos, end);
                ScanProgram(p, start, end) == if found then rest.(any := true) else rest
      decreases pLen
    {
      if At(p, pos + 1) + 2 > TS_PACKAGE_SIZE {
        return Found(found, None, true);
      }
      var dtLen := At(p, pos + 1) + 2;
      if IsVmx(p, pos) {
        found := true;
        if Accepted(p, pos) {
          return Found(true, Some(CaPid(p, pos)), false);
        }
      }
      pLen := pLen - dtLen;
      pos := pos + dtLen;
    }
    return Found(found, None, false);
  }

  /** One elementary stream's descriptor loop. */
  method WalkStream(p: Packet, start: nat, esInfoLength: nat, ecm: PidInfo) returns (r: Found)
    ensures r == ScanStream(p, start, start + esInfoLength, ecm)
    ensures !r.overrun && (r.pid.Some? ==> r.any)
  {
    hide IsVmx, CaPid;
    var end := start + esInfoLength;
    var found := false;
    var descOffset := 0;
    while descOffset <= esInfoLength - 6
      invariant 0 <= descOffset
      invariant var rest := ScanStream(p, start + descOffset, end, ecm);
                ScanStream(p, start, end, ecm) == if found then rest.(any := true) else rest
      decreases esInfoLength - descOffset
    {
      var i := start + descOffset;
      if IsVmx(p, i) {
        found := true;
        if !ecm.IsPid(CaPid(p, i)) {
          return Found(true, Some(CaPid(p, i)), false);
        }
      }
      descOffset := descOffset + At(p, i + 1) + 2;
    }
    return Found(found, None, false);
  }

  /** The loop over the elementary streams, down to the four bytes of the checksum; ends with the first
      stream that names a new ECM PID. */
  method WalkStreams(p: Packet, start: nat, sectBytes: nat, ecm: PidInfo) returns (r: Found)
    requires start + sectBytes >= 4 && StreamsWalkable(p, start, start + sectBytes - 4, ecm)
    ensures r == ScanStreams(p, start, start + sectBytes - 4, ecm)
  {
    hide ScanStream, EsInfoLength;
    var end := start + sectBytes - 4;
    var found := false;
    var pos, remSectBytes := start, sectBytes;
    while remSectBytes > 4
      invariant 0 <= remSectBytes && pos + remSectBytes == end + 4 && StreamsWalkable(p, pos, end, ecm)
      invariant var rest := ScanStreams(p, pos, end, ecm);
                ScanStreams(p, start, end, ecm) == if found then rest.(any := true) else rest
      decreases remSectBytes
    {
      var len := EsInfoLength(p, pos);
      var here := WalkStream(p, pos + 5, len, ecm);
      found := found || here.any;
      if here.pid.Some? {
        return Found(true, here.pid, false);
      }
      pos := pos + 5 + len;
      remSectBytes := remSectBytes - (len + 5);
    }
    return Found(found, None, false);
  }

  class PSIParser {
    var mPat: PidInfo
    var mPmt: PidInfo
    var mEcm: PidInfo
    var mIsClearStream: bool
    var mParserState: ParserState
    var mEcmTable: seq<byte>
    var mTempCollectedEcmData: seq<byte>
    var mEcmCollectionInProgress: bool
    var mCollectedEcmDataExpected: nat
    var mCollectedDataLength: nat

    ghost function TablesView(): Tables
      reads this
    {
      Tables(mPat, mPmt, mEcm, mIsClearStream, mParserState)
    }

    ghost function EcmView(): Collection
      reads this
    {
      Collection(mEcmTable, mTempCollectedEcmData, mEcmCollectionInProgress, mCollectedEcmDataExpected,
                 mCollectedDataLength)
    }

    ghost function View(): Psi
      reads this
    {
      Psi(TablesView(), EcmView())
    }

    ghost predicate Valid()
      reads this
    {
      Sound(EcmView())
    }

    /** The PIDs start as valid PID 0, until a channel is opened. */
    constructor ()
      ensures Valid() && !mEcmCollectionInProgress && mEcmTable == []
    {
      var zero := PidInfo(0, 0, true, false, []);
      mPat, mPmt, mEcm, mIsClearStream, mParserState := zero, zero, zero, false, NEEDS_PAT;
      mEcmTable, mTempCollectedEcmData, mEcmCollectionInProgress := [], [], false;
      mCollectedEcmDataExpected, mCollectedDataLength := 0, 0;
    }

    method OnOpen()
      modifies this
      ensures Valid() && View() == PsiParser.OnOpen(old(View()))
    {
      ResetCollectionState();
      mEcmTable := [];
      mEcm, mPmt, mPat := NO_PID, NO_PID, NO_PID.SetPid(0);
      mParserState := NEEDS_PAT;
    }

    method ResetCollectionState()
      modifies this
      ensures EcmView() == ResetCollection(old(EcmView())) && TablesView() == old(TablesView())
    {
      mCollectedDataLength, mCollectedEcmDataExpected := 0, 0;
      mTempCollectedEcmData, mEcmCollectionInProgress := [], false;
    }

    /** The fields read from a PAT or PMT packet must lie inside it, the lengths in a PMT of a
        new version must add up, and a packet that starts an ECM section must not consist of its adaptation field
        alone. */
    method ParseTsPacket(p: Packet) returns (action: ParserAction)
      requires Valid()
      requires mPat.IsPid(GetPid(p)) ==> PatOffset(p) > 184 || PatOffset(p) + 18 < TS_PACKAGE_SIZE
      requires mPmt.IsPid(GetPid(p)) ==> PmtOffset(p) > 184 || PmtOffset(p) + 16 < TS_PACKAGE_SIZE
      requires mPmt.IsPid(GetPid(p)) && NewPmt(TablesView(), p) ==> Readable(TablesView(), p)
      requires mEcm.IsPid(GetPid(p)) && !mEcmCollectionInProgress ==> AdaptationSize(p) != 184
      modifies this
      ensures Valid() && (View(), action) == PsiParser.ParseTsPacket(old(View()), p)
    {
      StepKeepsSound(View(), p);
      hide PsiTables.ParsePat, PsiTables.ParsePmt, PsiParser.ParseEcm, Sound;
      var pid := GetPid(p);
      if mPat.IsPid(pid) {
        action := ParsePat(p);
        if mParserState == NEEDS_PAT && mPat.versionValid && mPmt.GetPid() != PSI_INVALID_PID {
          mParserState := NEEDS_PMT;
        }
      } else if mPmt.IsPid(pid) {
        action := ParsePmt(p);
        if mPmt.versionValid {
          UpdateStateAfterPmt();
        }
      } else if mEcm.IsPid(pid) {
        action := ParseEcm(p);
        if mParserState == NEEDS_PMT && mEcm.versionValid {
          mParserState := GOT_ECM;
        }
      } else {
        action := ParseOther(p);
      }
    }

    method UpdateStateAfterPmt()
      requires mPmt.versionValid
      modifies this
      ensures TablesView() == AfterPmt(old(TablesView())) && EcmView() == old(EcmView())
    {
      match mParserState
      case NEEDS_PMT | NEEDS_VMX_PMT | NO_ECM =>
        if !mIsClearStream {
          mParserState := if mEcm.GetPid() != PSI_INVALID_PID then NEEDS_ECM else NEEDS_VMX_PMT;
        }
      case NEEDS_ECM | GOT_ECM =>
        if mIsClearStream {
          mParserState := NO_ECM;
          mEcm := NO_PID;
        }
      case _ =>
    }

    method ParsePat(p: Packet) returns (action: ParserAction)
      modifies this
      ensures (TablesView(), action) == PsiTables.ParsePat(old(TablesView()), p) && EcmView() == old(EcmView())
    {
      var offs := PatOffset(p);
      if offs > 184 || At(p, offs + 5) != 0 {
        return ERROR;
      }
      var version := VersionBits(At(p, offs + 10));
      if mPat.IsNew(version) {
        mPmt := NO_PID;
        mEcm := NO_PID;
        mPat := mPat.SetVer(version);
        mPmt := mPmt.SetPid(PmtPidOf(p));
        mPat := mPat.Store(p);
      }
      return IGNORE;
    }

    method ParsePmt(p: Packet) returns (action: ParserAction)
      requires NewPmt(TablesView(), p) ==> Readable(TablesView(), p)
      modifies this
      ensures (TablesView(), action) == PsiTables.ParsePmt(old(TablesView()), p) && EcmView() == old(EcmView())
    {
      hide ScanProgram, ScanStreams, ProgramWalkable, StreamsWalkable;
      if !IsPmtSection(p) {
        return ERROR;
      }
      var version := VersionBits(At(p, PmtOffset(p) + 10));
      if !mPmt.IsNew(version) {
        return ERROR;
      }
      mPmt := mPmt.SetVer(version);
      var program := WalkProgram(p, ProgramStart(p), ProgramInfoLength(p));
      if program.overrun {
        return IGNORE;
      }
      mEcm := Retarget(mEcm, program.pid, p);
      var streams := WalkStreams(p, StreamsStart(p), SectionLength(p) - 9 - ProgramInfoLength(p), mEcm);
      mEcm := Retarget(mEcm, streams.pid, p);
      mIsClearStream := !(program.any || streams.any);
      if mIsClearStream {
        mPmt := mPmt.Store(p);
        return NEW_PAT_PMT;
      }
      return IGNORE;
    }

    method ParseEcm(p: Packet) returns (action: ParserAction)
      requires Valid() && (!mEcmCollectionInProgress ==> AdaptationSize(p) != 184)
      modifies this
      ensures (mEcm, EcmView(), action) == PsiParser.ParseEcm(old(mEcm), old(EcmView()), p)
      ensures TablesView() == old(TablesView()).(ecm := mEcm)
    {
      hide VersionBits, HasAdaptation, Copy;
      if mEcmCollectionInProgress {
        action := CollectEcm(p);
        return;
      }
      if AdaptationSize(p) > 184 || Room(p) < 13 {
        return ERROR;
      }
      var t := 5 + AdaptationSize(p);
      var version := VersionBits(At(p, t + 5));
      if !(At(p, t) == 0x80 || At(p, t) == 0x81) || Copy(p, t + 8, 5) != VMECM {
        return ERROR;
      }
      var tableLen := At(p, t + 1) % 16 * 256 + At(p, t + 2) + 3;
      var n := Min(tableLen, Room(p));
      mTempCollectedEcmData := Copy(p, t, n) + Zeros(tableLen - n);
      mEcmCollectionInProgress, mCollectedEcmDataExpected, mCollectedDataLength := true, tableLen, n;
      if mCollectedEcmDataExpected > mCollectedDataLength {
        return IGNORE;
      }
      action := FinishSection(version, NEW_ECM);
    }

    method CollectEcm(p: Packet) returns (action: ParserAction)
      requires Valid() && mEcmCollectionInProgress
      modifies this
      ensures (mEcm, EcmView(), action) == PsiParser.CollectEcm(old(mEcm), old(EcmView()), p)
      ensures TablesView() == old(TablesView()).(ecm := mEcm)
    {
      hide VersionBits, HasAdaptation, Copy;
      var a := AdaptationSize(p);
      if a > 184 {
        return ERROR;
      }
      var n := Min(TS_PACKAGE_SIZE - (4 + a), mCollectedEcmDataExpected - mCollectedDataLength);
      var version := VersionBits(At(mTempCollectedEcmData, 5));
      mTempCollectedEcmData :=
        mTempCollectedEcmData[..mCollectedDataLength] + Copy(p, 4 + a, n)
        + mTempCollectedEcmData[mCollectedDataLength + n..];
      mCollectedDataLength := mCollectedDataLength + n;
      if mCollectedDataLength == mCollectedEcmDataExpected {
        action := FinishSection(version, NEW_ECMT);
      } else {
        action := IGNORE;
      }
    }

    method FinishSection(version: nat, done: ParserAction) returns (action: ParserAction)
      modifies this
      ensures (mEcm, EcmView(), action) == Finish(old(mEcm), old(EcmView()), old(mTempCollectedEcmData), version, done)
      ensures TablesView() == old(TablesView()).(ecm := mEcm)
    {
      if mEcm.IsNew(version) {
        mEcm := mEcm.SetVer(version);
        action := done;
        mEcmTable := mTempCollectedEcmData;
      } else {
        action := IGNORE;
      }
      ResetCollectionState();
    }
  }
}

/** What parsing a PMT means: a section described by its descriptors, not by its bytes. */
module PsiPmt {
  import opened Bytes
  import opened Options
  import opened PsiTables

  datatype Descriptor = Descriptor(tag: nat, body: seq<byte>)

  /** A conditional-access descriptor of the system 0x5601; its body holds system and PID at least. */
  predicate IsCa(d: Descriptor) {
    d.tag == 0x09 && |d.body| >= 4 && d.body[0] == 0x56 && d.body[1] == 0x01
  }

  function PidOf(d: Descriptor): nat
    requires IsCa(d)
  {
    Word(d.body, 2, 0x2000)
  }

  /** A CA descriptor with exactly one byte of extension is noticed but names no PID. */
  predicate NamesPid(d: Descriptor) {
    IsCa(d) && |d.body| != 5
  }

  /** The bytes of [lo, hi) are the descriptors `ds`, one behind the other. A CA descriptor holds at least
      the four bytes of section 2.6.16 of ISO/IEC 13818-1. */
  predicate DescriptorsAt(p: Packet, lo: nat, hi: nat, ds: seq<Descriptor>)
    decreases |ds|
  {
    if ds == [] then lo == hi <= TS_PACKAGE_SIZE
    else
      var n := |ds[0].body|;
      && lo + 2 + n <= hi <= TS_PACKAGE_SIZE
      && p[lo] == ds[0].tag && p[lo + 1] == n && p[lo + 2..lo + 2 + n] == ds[0].body
      && (ds[0].tag == 0x09 ==> n >= 4)
      && DescriptorsAt(p, lo + 2 + n, hi, ds[1..])
  }

  /** The bytes of [lo, hi) are elementary streams with these descriptor loops. */
  predicate StreamsAt(p: Packet, lo: nat, hi: nat, streams: seq<seq<Descriptor>>)
    decreases |streams|
  {
    if streams == [] then lo == hi <= TS_PACKAGE_SIZE
    else
      var next := lo + 5 + EsInfoLength(p, lo);
      && next <= hi <= TS_PACKAGE_SIZE
      && DescriptorsAt(p, lo + 5, next, streams[0])
      && StreamsAt(p, next, hi, streams[1..])
  }

  /** The packet holds a whole PMT section with these program-level and stream-level descriptors. */
  predicate PmtAt(p: Packet, program: seq<Descriptor>, streams: seq<seq<Descriptor>>) {
    && IsPmtSection(p)
    && PmtOffset(p) + 8 + SectionLength(p) <= TS_PACKAGE_SIZE
    && ProgramInfoLength(p) + 13 <= SectionLength(p)
    && DescriptorsAt(p, ProgramStart(p), StreamsStart(p), program)
    && StreamsAt(p, StreamsStart(p), StreamsEnd(p), streams)
  }

  // ----- what the section says -----

  predicate AnyCa(ds: seq<Descriptor>) {
    exists i :: 0 <= i < |ds| && IsCa(ds[i])
  }

  /** The first descriptor that names a PID. */
  function FirstNamed(ds: seq<Descriptor>): Option<nat> {
    if ds == [] then None
    else if NamesPid(ds[0]) then Some(PidOf(ds[0]))
    else FirstNamed(ds[1..])
  }

  /** The first CA descriptor with a PID other than the one in use. */
  function FirstOther(ds: seq<Descriptor>, ecm: PidInfo): Option<nat> {
    if ds == [] then None
    else if IsCa(ds[0]) && !ecm.IsPid(PidOf(ds[0])) then Some(PidOf(ds[0]))
    else FirstOther(ds[1..], ecm)
  }

  function FirstOtherStream(streams: seq<seq<Descriptor>>, ecm: PidInfo): Option<nat> {
    if streams == [] then None
    else if FirstOther(streams[0], ecm).Some? then FirstOther(streams[0], ecm)
    else FirstOtherStream(streams[1..], ecm)
  }

  predicate AnyCaInStreams(streams: seq<seq<Descriptor>>) {
    exists i :: 0 <= i < |streams| && AnyCa(streams[i])
  }

  // ----- the walks find it -----

  /** One descriptor, seen from the bytes. */
  lemma DescriptorBytes(p: Packet, lo: nat, hi: nat, ds: seq<Descriptor>)
    requires ds != [] && DescriptorsAt(p, lo, hi, ds)
    ensures At(p, lo + 1) + 2 == |ds[0].body| + 2 <= TS_PACKAGE_SIZE
    ensures IsVmx(p, lo) <==> IsCa(ds[0])
    ensures IsCa(ds[0]) ==> CaPid(p, lo) == PidOf(ds[0]) && lo + 6 <= hi && (Accepted(p, lo) <==> NamesPid(ds[0]))
    ensures DescriptorsAt(p, lo + At(p, lo + 1) + 2, hi, ds[1..]) && lo < hi
  {
    var d := ds[0];
    var n := |d.body|;
    if d.tag == 0x09 {
      var b := p[lo + 2..lo + 2 + n];
      assert b[0] == p[lo + 2] && b[1] == p[lo + 3] && b[2] == p[lo + 4] && b[3] == p[lo + 5];
    }
  }

  lemma AnyCaHead(ds: seq<Descriptor>)
    requires ds != []
    ensures AnyCa(ds) <==> IsCa(ds[0]) || AnyCa(ds[1..])
  {
    hide IsCa;
    if AnyCa(ds[1..]) {
      var i :| 0 <= i < |ds| - 1 && IsCa(ds[1..][i]);
      assert IsCa(ds[i + 1]);
    }
    if AnyCa(ds) {
      var i :| 0 <= i < |ds| && IsCa(ds[i]);
      assert i > 0 ==> IsCa(ds[1..][i - 1]);
    }
  }

  lemma {:induction false} ScanProgramFinds(p: Packet, lo: nat, hi: nat, ds: seq<Descriptor>)
    requires DescriptorsAt(p, lo, hi, ds)
    ensures ScanProgram(p, lo, hi) == Found(AnyCa(ds), FirstNamed(ds), false)
    decreases |ds|
  {
    hide IsVmx, Accepted, IsCa, AnyCa, CaPid, PidOf;
    if ds == [] {
      NoneIsNoCa();
    } else {
      DescriptorBytes(p, lo, hi, ds);
      AnyCaHead(ds);
      ScanProgramFinds(p, lo + At(p, lo + 1) + 2, hi, ds[1..]);
    }
  }

  lemma NoneIsNoCa()
    ensures !AnyCa([]) && !AnyCaInStreams([])
  {
  }

  /** Fewer than six bytes hold no CA descriptor. */
  lemma {:induction false} ShortLoopHasNoCa(p: Packet, lo: nat, hi: nat, ds: seq<Descriptor>, ecm: PidInfo)
    requires DescriptorsAt(p, lo, hi, ds) && lo + 6 > hi
    ensures !AnyCa(ds) && FirstOther(ds, ecm) == None
    decreases |ds|
  {
    hide IsVmx, Accepted, IsCa, AnyCa, CaPid, PidOf;
    if ds == [] {
      NoneIsNoCa();
    } else {
      DescriptorBytes(p, lo, hi, ds);
      AnyCaHead(ds);
      ShortLoopHasNoCa(p, lo + At(p, lo + 1) + 2, hi, ds[1..], ecm);
    }
  }

  lemma {:induction false} ScanStreamFinds(p: Packet, lo: nat, hi: nat, ds: seq<Descriptor>, ecm: PidInfo)
    requires DescriptorsAt(p, lo, hi, ds)
    ensures ScanStream(p, lo, hi, ecm) == Found(AnyCa(ds), FirstOther(ds, ecm), false)
    decreases |ds|
  {
    hide IsVmx, Accepted, IsCa, AnyCa, CaPid, PidOf;
    if lo + 6 > hi {
      ShortLoopHasNoCa(p, lo, hi, ds, ecm);
    } else {
      assert ds != [];
      DescriptorBytes(p, lo, hi, ds);
      AnyCaHead(ds);
      ScanStreamFinds(p, lo + At(p, lo + 1) + 2, hi, ds[1..], ecm);
    }
  }

  lemma AnyCaInStreamsHead(streams: seq<seq<Descriptor>>)
    requires streams != []
    ensures AnyCaInStreams(streams) <==> AnyCa(streams[0]) || AnyCaInStreams(streams[1..])
  {
    hide AnyCa;
    if AnyCaInStreams(streams[1..]) {
      var i :| 0 <= i < |streams| - 1 && AnyCa(streams[1..][i]);
      assert AnyCa(streams[i + 1]);
    }
    if AnyCaInStreams(streams) {
      var i :| 0 <= i < |streams| && AnyCa(streams[i]);
      assert i > 0 ==> AnyCa(streams[1..][i - 1]);
    }
  }

  lemma {:induction false} OtherIsCa(ds: seq<Descriptor>, ecm: PidInfo)
    ensures FirstOther(ds, ecm).Some? ==> AnyCa(ds)
  {
    hide IsCa, PidOf;
    if ds != [] {
      OtherIsCa(ds[1..], ecm);
      AnyCaHead(ds);
    }
  }

  lemma {:induction false} ScanStreamsFinds(p: Packet, lo: nat, hi: nat, streams: seq<seq<Descriptor>>, ecm: PidInfo)
    requires StreamsAt(p, lo, hi, streams)
    ensures ScanStreams(p, lo, hi, ecm) == Found(AnyCaInStreams(streams), FirstOtherStream(streams, ecm), false)
    decreases |streams|
  {
    hide AnyCa, AnyCaInStreams, ScanStream, DescriptorsAt, EsInfoLength, FirstOther;
    if streams == [] {
      NoneIsNoCa();
    } else {
      var next := lo + 5 + EsInfoLength(p, lo);
      ScanStreamFinds(p, lo + 5, next, streams[0], ecm);
      OtherIsCa(streams[0], ecm);
      AnyCaInStreamsHead(streams);
      ScanStreamsFinds(p, next, hi, streams[1..], ecm);
    }
  }

  /** Parsing a whole PMT of a new version: the stream is clear exactly when no CA descriptor of the system
      0x5601 stands at program level or in any stream, and the ECM PID is the one the first naming
      program-level descriptor gives, unless a stream names another. */
  lemma ParsePmtMeans(t: Tables, p: Packet, program: seq<Descriptor>, streams: seq<seq<Descriptor>>)
    requires NewPmt(t, p) && PmtAt(p, program, streams)
    ensures var (r, action) := ParsePmt(t, p);
            var ecm := Retarget(t.ecm, FirstNamed(program), p);
            && (r.clear <==> !AnyCa(program) && !AnyCaInStreams(streams))
            && r.ecm == Retarget(ecm, FirstOtherStream(streams, ecm), p)
            && action == (if r.clear then NEW_PAT_PMT else IGNORE)
  {
    hide AnyCa, AnyCaInStreams, ScanProgram, ScanStreams, DescriptorsAt, StreamsAt;
    hide FirstNamed, FirstOtherStream, IsPmtSection;
    ScanProgramFinds(p, ProgramStart(p), StreamsStart(p), program);
    ScanStreamsFinds(p, StreamsStart(p), StreamsEnd(p), streams, Retarget(t.ecm, FirstNamed(program), p));
  }
}

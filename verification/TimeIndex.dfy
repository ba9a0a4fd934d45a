/** The index of the time-shift buffer: (time, bytes) samples, searched by bisection and read with
    interpolation. The source's floating-point steps are exact rationals here, truncated where the
    source converts to an integer. */
module TimeIndex {

  datatype BuffErr = BUF_OK | BUF_OUT_OF_RANGE | BUF_EMPTY

  // Time in microseconds and accumulated buffer size in bytes.
  datatype Sample = Sample(time: nat, bytes: nat)

  datatype Key = ByTime | ByBytes

  function KeyOf(k: Key, s: Sample): nat {
    if k == ByTime then s.time else s.bytes
  }

  /** Neither time nor bytes go backwards. */
  predicate Ordered(ring: seq<Sample>) {
    forall i, j :: 0 <= i < j < |ring| ==> ring[i].time <= ring[j].time && ring[i].bytes <= ring[j].bytes
  }

  /** std::upper_bound on the `len` samples from `first` on. */
  function UpperBound(ring: seq<Sample>, k: Key, first: nat, len: nat, target: nat): (r: nat)
    requires first + len <= |ring|
    ensures first <= r <= first + len
    decreases len
  {
    if len == 0 then first
    else
      var half := len / 2;
      if target < KeyOf(k, ring[first + half]) then UpperBound(ring, k, first, half, target)
      else UpperBound(ring, k, first + half + 1, len - half - 1, target)
  }

  lemma UpperBoundStep(ring: seq<Sample>, k: Key, first: nat, len: nat, target: nat)
    requires first + len <= |ring| && len > 0
    ensures var half := len / 2;
            UpperBound(ring, k, first, len, target) ==
            if target < KeyOf(k, ring[first + half]) then UpperBound(ring, k, first, half, target)
            else UpperBound(ring, k, first + half + 1, len - half - 1, target)
  {
  }

  /** The first sample from `i` on with a key above `target`, found one by one. */
  function FirstAbove(ring: seq<Sample>, k: Key, i: nat, target: nat): (r: nat)
    requires i <= |ring|
    ensures i <= r <= |ring|
    ensures forall j :: i <= j < r ==> KeyOf(k, ring[j]) <= target
    ensures r < |ring| ==> target < KeyOf(k, ring[r])
    decreases |ring| - i
  {
    if i == |ring| || target < KeyOf(k, ring[i]) then i else FirstAbove(ring, k, i + 1, target)
  }

  lemma KeysAscend(ring: seq<Sample>, k: Key, i: nat, j: nat)
    requires i <= j < |ring| && Ordered(ring)
    ensures KeyOf(k, ring[i]) <= KeyOf(k, ring[j])
  {
  }

  /** The bisection splits the samples at the target. */
  lemma {:induction false} UpperBoundSplits(ring: seq<Sample>, k: Key, first: nat, len: nat, target: nat, j: nat)
    requires first + len <= |ring| && Ordered(ring) && first <= j < first + len
    ensures j < UpperBound(ring, k, first, len, target) <==> KeyOf(k, ring[j]) <= target
    decreases len
  {
    hide KeyOf, Ordered, UpperBound;
    UpperBoundStep(ring, k, first, len, target);
    var half := len / 2;
    var mid := first + half;
    if target < KeyOf(k, ring[mid]) {
      if j < mid {
        UpperBoundSplits(ring, k, first, half, target, j);
      } else {
        KeysAscend(ring, k, mid, j);
      }
    } else if j > mid {
      UpperBoundSplits(ring, k, mid + 1, len - half - 1, target, j);
    } else {
      KeysAscend(ring, k, j, mid);
    }
  }

  /** The bisection finds what the linear scan finds. */
  lemma BisectionIsScan(ring: seq<Sample>, k: Key, first: nat, target: nat)
    requires first <= |ring| && Ordered(ring)
    ensures UpperBound(ring, k, first, |ring| - first, target) == FirstAbove(ring, k, first, target)
  {
    SplitIsUpperBound(ring, k, first, target, FirstAbove(ring, k, first, target));
  }

  /** Whatever splits the samples at the target is what the bisection finds. */
  lemma SplitIsUpperBound(ring: seq<Sample>, k: Key, first: nat, target: nat, r: nat)
    requires first <= r <= |ring| && Ordered(ring)
    requires r > first ==> KeyOf(k, ring[r - 1]) <= target
    requires r < |ring| ==> target < KeyOf(k, ring[r])
    ensures UpperBound(ring, k, first, |ring| - first, target) == r
  {
    hide KeyOf, UpperBound, Ordered;
    if r > first {
      UpperBoundSplits(ring, k, first, |ring| - first, target, r - 1);
    }
    if r < |ring| {
      UpperBoundSplits(ring, k, first, |ring| - first, target, r);
    }
  }

  // ----- the exposed part of the ring -----

  function IndexSize(ring: seq<Sample>, tsb: nat): nat {
    if |ring| > tsb then tsb else |ring|
  }

  function FrontIndex(ring: seq<Sample>, tsb: nat): nat {
    |ring| - IndexSize(ring, tsb)
  }

  function Front(ring: seq<Sample>, tsb: nat): Sample
    requires ring != [] && tsb > 0
  {
    ring[FrontIndex(ring, tsb)]
  }

  function Back(ring: seq<Sample>): Sample
    requires ring != []
  {
    ring[|ring| - 1]
  }

  lemma BackIsLast(ring: seq<Sample>, i: nat)
    requires i < |ring| && Ordered(ring)
    ensures ring[i].time <= Back(ring).time && ring[i].bytes <= Back(ring).bytes
  {
  }

  function SizeInTime(ring: seq<Sample>, tsb: nat): nat
    requires tsb > 0 && Ordered(ring)
  {
    if ring == [] then 0 else Back(ring).time - Front(ring, tsb).time
  }

  function SizeInBytes(ring: seq<Sample>, tsb: nat): nat
    requires tsb > 0 && Ordered(ring)
  {
    if ring == [] then 0 else Back(ring).bytes - Front(ring, tsb).bytes
  }

  // ----- lookups that are not served from memory -----

  datatype Answer = Answer(err: BuffErr, value: nat)

  /** i plus 1/(earlier - later) times `past`, truncated: the index the interpolation lands on. */
  function InterpolatedIndex(i: nat, gap: nat, past: nat): int
    requires gap > 0
  {
    (i * gap - past) / gap
  }

  /** The target lies among the exposed samples, before the newest one. */
  predicate Inside(ring: seq<Sample>, k: Key, tsb: nat, target: nat) {
    ring != [] && tsb > 0 && KeyOf(k, Front(ring, tsb)) <= target < KeyOf(k, Back(ring))
  }

  /** The first exposed sample above a target inside: it exists and the one before it is exposed. */
  function Segment(ring: seq<Sample>, k: Key, tsb: nat, target: nat): (i: nat)
    requires Ordered(ring) && Inside(ring, k, tsb, target)
    ensures FrontIndex(ring, tsb) < i < |ring|
    ensures KeyOf(k, ring[i - 1]) <= target < KeyOf(k, ring[i])
  {
    var f := FrontIndex(ring, tsb);
    var i := UpperBound(ring, k, f, |ring| - f, target);
    SegmentExists(ring, k, f, target);
    i
  }

  lemma SegmentExists(ring: seq<Sample>, k: Key, f: nat, target: nat)
    requires f < |ring| && Ordered(ring) && KeyOf(k, ring[f]) <= target < KeyOf(k, ring[|ring| - 1])
    ensures var i := UpperBound(ring, k, f, |ring| - f, target);
            f < i < |ring| && KeyOf(k, ring[i - 1]) <= target < KeyOf(k, ring[i])
  {
    hide KeyOf, UpperBound, Ordered;
    var n := |ring| - f;
    var i := UpperBound(ring, k, f, n, target);
    UpperBoundSplits(ring, k, f, n, target, f);
    UpperBoundSplits(ring, k, f, n, target, |ring| - 1);
    UpperBoundSplits(ring, k, f, n, target, i - 1);
    UpperBoundSplits(ring, k, f, n, target, i);
  }

  /** getByteOffsetFromTimeUs without the memory of the last answer. */
  function OffsetForTime(ring: seq<Sample>, tsb: nat, time: nat): Answer
    requires ring != [] && tsb > 0 && Ordered(ring)
  {
    if time == 0 then Answer(BUF_OK, 0)
    else if Front(ring, tsb).time + time > Back(ring).time then
      Answer(BUF_OUT_OF_RANGE, Back(ring).bytes - Front(ring, tsb).bytes)
    else
      var target := Back(ring).time - time;
      var i := Segment(ring, ByTime, tsb, target);
      var gap, past := ring[i].time - ring[i - 1].time, time - (Back(ring).time - ring[i].time);
      InterpolationLands(i, gap, past);
      Answer(BUF_OK, Back(ring).bytes - ring[InterpolatedIndex(i, gap, past)].bytes)
  }

  /** The interpolated index is always the sample before. */
  lemma InterpolationLands(i: nat, gap: nat, past: nat)
    requires i > 0 && 0 < past <= gap
    ensures InterpolatedIndex(i, gap, past) == i - 1
  {
    assert i * gap - past == (i - 1) * gap + (gap - past);
    DivideExactly(i - 1, gap, gap - past);
  }

  lemma DivideExactly(q: int, d: int, r: int)
    requires d > 0 && 0 <= r < d
    ensures (q * d + r) / d == q
  {
    var x := q * d + r;
    QuotientBetween(x, d, q);
  }

  /** The quotient is the only multiple count that leaves a remainder below the divisor. */
  lemma QuotientBetween(x: int, d: int, q: int)
    requires d > 0 && q * d <= x < q * d + d
    ensures x / d == q
  {
    var p := x / d;
    assert p * d + x % d == x;
    TimesMonotone(p + 1, q, d);
    TimesMonotone(q + 1, p, d);
    assert (p + 1) * d == p * d + d && (q + 1) * d == q * d + d;
  }

  lemma TimesMonotone(a: int, b: int, d: int)
    requires d > 0
    ensures a <= b ==> a * d <= b * d
  {
    if a <= b {
      assert (b - a) * d >= 0;
      assert (b - a) * d == b * d - a * d;
    }
  }

  /** The absolute time of byte position `target`, by linear interpolation inside its segment. */
  function TimeAt(ring: seq<Sample>, i: nat, target: nat): int
    requires 0 < i < |ring| && Ordered(ring)
    requires ring[i - 1].bytes <= target < ring[i].bytes
  {
    var dt, db := ring[i].time - ring[i - 1].time, ring[i].bytes - ring[i - 1].bytes;
    ring[i - 1].time + dt * (target - ring[i - 1].bytes) / db
  }

  lemma TimeAtInside(ring: seq<Sample>, i: nat, target: nat)
    requires 0 < i < |ring| && Ordered(ring)
    requires ring[i - 1].bytes <= target < ring[i].bytes
    ensures ring[i - 1].time <= TimeAt(ring, i, target) <= ring[i].time
    ensures target == ring[i - 1].bytes ==> TimeAt(ring, i, target) == ring[i - 1].time
  {
    var dt, db, x := ring[i].time - ring[i - 1].time, ring[i].bytes - ring[i - 1].bytes, target - ring[i - 1].bytes;
    hide Ordered;
    ProductBetween(dt, x, db);
    DivideExactly(dt, db, 0);
    DivideExactly(0, db, 0);
    DivideMonotone(dt * x, dt * db, db);
    DivideMonotone(0, dt * x, db);
  }

  lemma ProductBetween(a: nat, x: nat, y: nat)
    requires x <= y
    ensures 0 <= a * x <= a * y
    ensures x == 0 ==> a * x == 0
  {
    if x > 0 {
      assert a * y == a * x + a * (y - x);
    }
  }

  lemma DivideMonotone(a: int, b: int, d: int)
    requires a <= b && d > 0
    ensures a / d <= b / d
  {
    var p, q := a / d, b / d;
    assert p * d + a % d == a && q * d + b % d == b;
    TimesMonotone(q + 1, p, d);
    assert (q + 1) * d == q * d + d;
  }

  /** getTimeUsFromByteOffset without the memory of the last answer. */
  function TimeForOffset(ring: seq<Sample>, tsb: nat, offset: nat): Answer
    requires ring != [] && tsb > 0 && Ordered(ring)
  {
    if offset == 0 then Answer(BUF_OK, 0)
    else if Front(ring, tsb).bytes + offset > Back(ring).bytes then
      Answer(BUF_OUT_OF_RANGE, Back(ring).time - Front(ring, tsb).time)
    else
      var target := Back(ring).bytes - offset;
      var i := Segment(ring, ByBytes, tsb, target);
      TimeAtInside(ring, i, target);
      Answer(BUF_OK, Back(ring).time - TimeAt(ring, i, target))
  }

  /** getTimestampUsForByteIndex. */
  function TimestampForIndex(ring: seq<Sample>, byteIndex: nat): Answer
    requires Ordered(ring)
  {
    if ring == [] then Answer(BUF_EMPTY, 0)
    else if ring[0].bytes >= byteIndex then
      Answer(if ring[0].bytes > byteIndex then BUF_OUT_OF_RANGE else BUF_OK, ring[0].time)
    else if Back(ring).bytes <= byteIndex then
      Answer(if Back(ring).bytes < byteIndex then BUF_OUT_OF_RANGE else BUF_OK, Back(ring).time)
    else
      var i := UpperBound(ring, ByBytes, 0, |ring|, byteIndex);
      SegmentExists(ring, ByBytes, 0, byteIndex);
      TimeAtInside(ring, i, byteIndex);
      Answer(BUF_OK, TimeAt(ring, i, byteIndex))
  }

  // ----- laws -----

  predicate InTimeRange(ring: seq<Sample>, tsb: nat, time: nat)
    requires ring != [] && tsb > 0
  {
    0 < time && Front(ring, tsb).time + time <= Back(ring).time
  }

  /** The last exposed sample with a key not above a target inside, as a scan from the oldest on finds it. */
  function LastUpTo(ring: seq<Sample>, k: Key, tsb: nat, target: nat): (j: nat)
    requires Ordered(ring) && Inside(ring, k, tsb, target)
    ensures FrontIndex(ring, tsb) <= j < |ring| - 1
    ensures KeyOf(k, ring[j]) <= target < KeyOf(k, ring[j + 1])
  {
    FirstAbove(ring, k, FrontIndex(ring, tsb), target) - 1
  }

  /** What a scan finds for a time in range: the bytes since the last exposed sample that is old enough. */
  function ScannedOffset(ring: seq<Sample>, tsb: nat, time: nat): Answer
    requires ring != [] && tsb > 0 && Ordered(ring) && InTimeRange(ring, tsb, time)
  {
    Answer(BUF_OK, Back(ring).bytes - ring[LastUpTo(ring, ByTime, tsb, Back(ring).time - time)].bytes)
  }

  /** What a scan finds for an exposed offset: the age interpolated between the two samples around it. */
  function ScannedTime(ring: seq<Sample>, tsb: nat, offset: nat): Answer
    requires ring != [] && tsb > 0 && Ordered(ring) && 0 < offset <= SizeInBytes(ring, tsb)
  {
    var target := Back(ring).bytes - offset;
    var i := LastUpTo(ring, ByBytes, tsb, target) + 1;
    TimeAtInside(ring, i, target);
    Answer(BUF_OK, Back(ring).time - TimeAt(ring, i, target))
  }

  /** An in-range seek lands on the last exposed sample not younger than the target time: never before
      the exposed front, never on the newest sample, and the search never falls off the end. */
  lemma OffsetIsLastSample(ring: seq<Sample>, tsb: nat, time: nat) returns (j: nat)
    requires ring != [] && tsb > 0 && Ordered(ring) && InTimeRange(ring, tsb, time)
    ensures FrontIndex(ring, tsb) <= j < |ring| - 1
    ensures ring[j].time <= Back(ring).time - time < ring[j + 1].time
    ensures j + 1 == FirstAbove(ring, ByTime, FrontIndex(ring, tsb), Back(ring).time - time)
    ensures OffsetForTime(ring, tsb, time) == Answer(BUF_OK, Back(ring).bytes - ring[j].bytes)
  {
    hide UpperBound, InterpolatedIndex;
    var target := Back(ring).time - time;
    var i := Segment(ring, ByTime, tsb, target);
    BisectionIsScan(ring, ByTime, FrontIndex(ring, tsb), target);
    InterpolationLands(i, ring[i].time - ring[i - 1].time, ring[i].time - target);
    j := i - 1;
  }

  /** No seek reaches back further than the exposed bytes. */
  lemma OffsetForTimeBounded(ring: seq<Sample>, tsb: nat, time: nat)
    requires ring != [] && tsb > 0 && Ordered(ring)
    ensures OffsetForTime(ring, tsb, time).value <= SizeInBytes(ring, tsb)
    ensures OffsetForTime(ring, tsb, 0) == Answer(BUF_OK, 0)
  {
    hide Segment, InterpolatedIndex;
    if InTimeRange(ring, tsb, time) {
      var j := OffsetIsLastSample(ring, tsb, time);
    }
  }

  /** Byte counts grow from sample to sample. */
  predicate Growing(ring: seq<Sample>) {
    forall i, j :: 0 <= i < j < |ring| ==> ring[i].bytes < ring[j].bytes
  }

  /** Looking up the time of a sample's own offset gives the sample's own age. */
  lemma TimeOfSample(ring: seq<Sample>, tsb: nat, j: nat)
    requires ring != [] && tsb > 0 && Ordered(ring) && Growing(ring)
    requires FrontIndex(ring, tsb) <= j < |ring|
    ensures TimeForOffset(ring, tsb, Back(ring).bytes - ring[j].bytes) == Answer(BUF_OK, Back(ring).time - ring[j].time)
  {
    hide TimeAt, UpperBound;
    if j < |ring| - 1 {
      var f := FrontIndex(ring, tsb);
      var target := ring[j].bytes;
      SplitIsUpperBound(ring, ByBytes, f, target, j + 1);
      TimeAtInside(ring, j + 1, target);
    }
  }

  /** Seeking and asking for the position: the reported time is at least the requested one and exceeds
      it by less than the gap between the two samples around the target. */
  lemma SeekRoundTrip(ring: seq<Sample>, tsb: nat, time: nat) returns (j: nat)
    requires ring != [] && tsb > 0 && Ordered(ring) && Growing(ring) && InTimeRange(ring, tsb, time)
    ensures FrontIndex(ring, tsb) <= j < |ring| - 1
    ensures ring[j].time <= Back(ring).time - time < ring[j + 1].time
    ensures var back := TimeForOffset(ring, tsb, OffsetForTime(ring, tsb, time).value);
            && back == Answer(BUF_OK, Back(ring).time - ring[j].time)
            && time <= back.value < time + (ring[j + 1].time - ring[j].time)
  {
    j := OffsetIsLastSample(ring, tsb, time);
    TimeOfSample(ring, tsb, j);
  }

  lemma {:induction false} TimeAtMonotone(ring: seq<Sample>, i1: nat, t1: nat, i2: nat, t2: nat)
    requires 0 < i1 < |ring| && 0 < i2 < |ring| && Ordered(ring) && t1 <= t2
    requires ring[i1 - 1].bytes <= t1 < ring[i1].bytes
    requires ring[i2 - 1].bytes <= t2 < ring[i2].bytes
    ensures TimeAt(ring, i1, t1) <= TimeAt(ring, i2, t2)
  {
    if i1 == i2 {
      var dt, db := ring[i1].time - ring[i1 - 1].time, ring[i1].bytes - ring[i1 - 1].bytes;
      var x1, x2 := t1 - ring[i1 - 1].bytes, t2 - ring[i1 - 1].bytes;
      ProductBetween(dt, x1, x2);
      DivideMonotone(dt * x1, dt * x2, db);
    } else {
      assert i1 < i2;
      TimeAtInside(ring, i1, t1);
      TimeAtInside(ring, i2, t2);
    }
  }

  /** The reported time never decreases with the byte offset, across segments, the live point and the
      end of the range, and never exceeds the length of the index. */
  lemma TimeForOffsetMonotone(ring: seq<Sample>, tsb: nat, o1: nat, o2: nat)
    requires ring != [] && tsb > 0 && Ordered(ring) && o1 <= o2
    ensures TimeForOffset(ring, tsb, o1).value <= TimeForOffset(ring, tsb, o2).value <= SizeInTime(ring, tsb)
  {
    hide TimeAt, Segment;
    TimeForOffsetBounded(ring, tsb, o1);
    TimeForOffsetBounded(ring, tsb, o2);
    var front, back := Front(ring, tsb), Back(ring);
    if 0 < o1 && front.bytes + o2 <= back.bytes {
      var t1, t2 := back.bytes - o1, back.bytes - o2;
      TimeAtMonotone(ring, Segment(ring, ByBytes, tsb, t2), t2, Segment(ring, ByBytes, tsb, t1), t1);
    }
  }

  lemma TimeForOffsetBounded(ring: seq<Sample>, tsb: nat, o: nat)
    requires ring != [] && tsb > 0 && Ordered(ring)
    ensures TimeForOffset(ring, tsb, o).value <= SizeInTime(ring, tsb)
  {
    hide TimeAt, Segment;
    var front, back := Front(ring, tsb), Back(ring);
    if 0 < o && front.bytes + o <= back.bytes {
      var t := back.bytes - o;
      TimeAtInside(ring, Segment(ring, ByBytes, tsb, t), t);
    }
  }

  /** The timestamp of an exposed byte position and the age of its offset are the same interpolation seen
      from the two ends: they add up to the newest sample's time. */
  lemma TimestampComplementsAge(ring: seq<Sample>, tsb: nat, offset: nat)
    requires ring != [] && tsb > 0 && Ordered(ring)
    requires 0 < offset && Front(ring, tsb).bytes + offset <= Back(ring).bytes
    requires ring[0].bytes + offset < Back(ring).bytes
    ensures TimestampForIndex(ring, Back(ring).bytes - offset).value + TimeForOffset(ring, tsb, offset).value
         == Back(ring).time
  {
    hide TimeAt, UpperBound, Ordered;
    var target := Back(ring).bytes - offset;
    var i := Segment(ring, ByBytes, tsb, target);
    SplitIsUpperBound(ring, ByBytes, 0, target, i);
  }
}

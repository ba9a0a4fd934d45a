/** Sixteen-bit RTP sequence numbers and the comparison the stream listener makes. */
module RtpSequence {

  const MODULUS := 0x10000
  const MID_SEQUENCE_NUMBER := 0x8000
  const MAX_SEQNUM_DIFF_FOR_DISCONTINUITY := 10

  type SeqNum = n: int | 0 <= n < 0x10000

  /** The number after `n`, as the listener computes it by masking to sixteen bits. */
  function Succ(n: SeqNum): SeqNum {
    if n + 1 == MODULUS then 0 else n + 1
  }

  /** How many steps forward, wrapping, lead from `from` to `to`. */
  function Ahead(from: SeqNum, to: SeqNum): (d: nat)
    ensures d < MODULUS
  {
    if from <= to then to - from else to - from + MODULUS
  }

  /** The listener's comparison, with its arithmetic kept as it stands. */
  function DiffSequenceNumber(first: SeqNum, second: SeqNum): int {
    if first > second then
      if first - second > MID_SEQUENCE_NUMBER then -(MODULUS + second - first) else first - second
    else
      if second - first > MID_SEQUENCE_NUMBER then MODULUS + second - first else -(second - first)
  }

  /** The signed cyclic distance from `second` to `first`: the shorter way round. */
  function SerialDistance(first: SeqNum, second: SeqNum): int {
    if Ahead(second, first) < MID_SEQUENCE_NUMBER then Ahead(second, first)
    else if Ahead(second, first) > MID_SEQUENCE_NUMBER then 0 - Ahead(first, second)
    else first - second
  }

  function Abs(x: int): nat {
    if x < 0 then -x else x
  }

  /** An arrival `got` counts as a discontinuity when `next` is expected. */
  predicate IsDiscontinuity(next: SeqNum, got: SeqNum) {
    Abs(DiffSequenceNumber(next, got)) > MAX_SEQNUM_DIFF_FOR_DISCONTINUITY
  }

  /** `got` precedes `next` by at most ten without crossing from 0 back to 65535. */
  predicate ShortlyLate(next: SeqNum, got: SeqNum) {
    got < next && next - got <= MAX_SEQNUM_DIFF_FOR_DISCONTINUITY
  }

  /** The comparison against the serial order of the numbers: its sign is right for every pair not
      exactly half a cycle apart, its magnitude exactly when `second` is not behind `first` across
      the wrap. */
  lemma DiffAgainstSerialOrder(first: SeqNum, second: SeqNum)
    ensures DiffSequenceNumber(first, second) > 0 <==> SerialDistance(first, second) > 0
    ensures DiffSequenceNumber(first, second) == 0 <==> first == second
    ensures DiffSequenceNumber(first, second) == SerialDistance(first, second)
       <==> second - first <= MID_SEQUENCE_NUMBER
  {
  }

  /** Which arrivals reset the stream: all but those at most ten ahead, or at most ten late on the
      same side of the wrap. */
  lemma DiscontinuityExactly(next: SeqNum, got: SeqNum)
    ensures IsDiscontinuity(next, got)
       <==> !(Ahead(next, got) <= MAX_SEQNUM_DIFF_FOR_DISCONTINUITY || ShortlyLate(next, got))
  {
  }

  /** One step late across the wrap is taken for a discontinuity; one step late elsewhere is not. */
  lemma LateAcrossWrapIsDiscontinuity()
    ensures Ahead(65535, 0) == 1 && IsDiscontinuity(0, 65535)
    ensures Ahead(99, 100) == 1 && !IsDiscontinuity(100, 99)
  {
  }
}

/**
 * The quadrature decoder of handleEncoder: each edge on pin A or B of an
 * encoder shifts the two-bit pin sample (A << 1 | B) into a four-bit history
 * (previous sample in the high half, current one in the low half) and looks
 * the history up in a sixteen-entry table of -1, 0 and +1.
 */
module Quadrature {
  import opened FixedWidth

  /** encoder_states: the change for each history (previous << 2 | current). */
  const ENCODER_STATES: seq<int> := [0, -1, 1, 0, 1, 0, 0, -1, -1, 0, 0, 1, 0, 1, -1, 0]

  /** The levels read from pins A and B on one edge (HIGH is true). */
  datatype PinSample = PinSample(a: bool, b: bool)

  /** `(digitalRead(pinA) << 1) | digitalRead(pinB)`. */
  function SampleBits(s: PinSample): (bits: bv8)
    ensures bits < 4
    ensures (bits & 2 == 2) == s.a && (bits & 1 == 1) == s.b
  {
    (if s.a then 2 else 0) | (if s.b then 1 else 0)
  }

  /**
   * The new history register: `((prev << 2) & 0x0F) | sample`. The high half
   * is the low half of the previous history, the low half is the new sample.
   */
  function NextHistory(prev: bv8, s: PinSample): (h: bv8)
    ensures h < 16
    ensures h >> 2 == prev & 3
    ensures h & 3 == SampleBits(s)
  {
    ((prev << 2) & 0x0F) | SampleBits(s)
  }

  /** The table entry for a history register. */
  function Change(h: bv8): (d: int)
    requires h < 16
    ensures -1 <= d <= 1
  {
    ENCODER_STATES[h as int]
  }

  /** Entry of the table for the step from sample `from` to sample `to` (both 0..3). */
  function Step(from: int, to: int): int
    requires 0 <= from < 4 && 0 <= to < 4
  {
    ENCODER_STATES[4 * from + to]
  }

  /** A single-bit change between two two-bit samples: a legal Gray-code step. */
  predicate GrayNeighbours(from: int, to: int)
    requires 0 <= from < 4 && 0 <= to < 4
  {
    from + to == 1 || from + to == 5 || (from == 0 && to == 2) || (from == 2 && to == 0)
      || (from == 1 && to == 3) || (from == 3 && to == 1)
  }

  /**
   * The table: no change (entries 0, 5, 10, 15) and a double step that skips
   * a sample (entries 3, 6, 9, 12) both give 0; every single Gray-code step
   * gives +1 or -1; and undoing a step negates its value.
   */
  lemma {:induction false} TableShape(from: int, to: int)
    requires 0 <= from < 4 && 0 <= to < 4
    ensures from == to ==> Step(from, to) == 0
    ensures from + to == 3 ==> Step(from, to) == 0
    ensures GrayNeighbours(from, to) <==> Step(from, to) != 0
    ensures Step(from, to) != 0 ==> Step(from, to) == 1 || Step(from, to) == -1
    ensures Step(from, to) == -Step(to, from)
  {
    if from == 0 {
      if to == 0 {} else if to == 1 {} else if to == 2 {} else {}
    } else if from == 1 {
      if to == 0 {} else if to == 1 {} else if to == 2 {} else {}
    } else if from == 2 {
      if to == 0 {} else if to == 1 {} else if to == 2 {} else {}
    } else {
      if to == 0 {} else if to == 1 {} else if to == 2 {} else {}
    }
  }

  /** The table lookup on a history register is the step from its high half to its low half. */
  lemma ChangeIsStep(prev: bv8, s: PinSample)
    ensures var h := NextHistory(prev, s);
      Change(h) == Step((prev & 3) as int, SampleBits(s) as int)
  {
    var h := NextHistory(prev, s);
    assert h as int == 4 * ((h >> 2) as int) + (h & 3) as int;
  }

  /** Seeing the sample that is already recorded (noise at rest) changes nothing. */
  lemma RestIsZero(prev: bv8, s: PinSample)
    requires prev & 3 == SampleBits(s)
    ensures Change(NextHistory(prev, s)) == 0
  {
    ChangeIsStep(prev, s);
    TableShape((prev & 3) as int, SampleBits(s) as int);
  }

  /** The history reached and the net change after a run of edges. */
  function Track(h: bv8, samples: seq<PinSample>): (bv8, int)
    decreases |samples|
  {
    if samples == [] then (h, 0)
    else
      var h' := NextHistory(h, samples[0]);
      var (hEnd, net) := Track(h', samples[1..]);
      (hEnd, Change(h') + net)
  }

  /** Tracking two runs one after the other adds their changes. */
  lemma {:induction false} TrackAppend(h: bv8, s1: seq<PinSample>, s2: seq<PinSample>)
    ensures var (h1, n1) := Track(h, s1); var (h2, n2) := Track(h1, s2);
      Track(h, s1 + s2) == (h2, n1 + n2)
    decreases |s1|
  {
    if s1 == [] {
      assert s1 + s2 == s2;
    } else {
      assert (s1 + s2)[1..] == s1[1..] + s2;
      TrackAppend(NextHistory(h, s1[0]), s1[1..], s2);
    }
  }

  const SAMPLE_00: PinSample := PinSample(false, false)
  const SAMPLE_01: PinSample := PinSample(false, true)
  const SAMPLE_11: PinSample := PinSample(true, true)
  const SAMPLE_10: PinSample := PinSample(true, false)

  /**
   * One full Gray-code cycle counts four ticks: 00 -> 01 -> 11 -> 10 -> 00
   * adds -4 and the reverse cycle adds +4, each ending at sample 00.
   */
  lemma FullCycle(h: bv8)
    requires h & 3 == 0
    ensures Track(h, [SAMPLE_01, SAMPLE_11, SAMPLE_10, SAMPLE_00]) == (0x08, -4)
    ensures Track(h, [SAMPLE_10, SAMPLE_11, SAMPLE_01, SAMPLE_00]) == (0x04, 4)
  {
    var cw := [SAMPLE_01, SAMPLE_11, SAMPLE_10, SAMPLE_00];
    assert cw[1..][1..][1..][1..] == [];
    assert Track(0x0E, cw[1..][1..][1..]) == (0x08, -1);
    assert Track(0x07, cw[1..][1..]) == (0x08, -2);
    assert Track(0x01, cw[1..]) == (0x08, -3);
    assert NextHistory(h, SAMPLE_01) == 0x01;
    var ccw := [SAMPLE_10, SAMPLE_11, SAMPLE_01, SAMPLE_00];
    assert ccw[1..][1..][1..][1..] == [];
    assert Track(0x0D, ccw[1..][1..][1..]) == (0x04, 1);
    assert Track(0x0B, ccw[1..][1..]) == (0x04, 2);
    assert Track(0x02, ccw[1..]) == (0x04, 3);
    assert NextHistory(h, SAMPLE_10) == 0x02;
  }

  /**
   * n full cycles in which pin B changes first (00-01-11-10) move the count
   * by -4n, whatever came before.
   */
  lemma {:induction false} Cycles(h: bv8, n: nat)
    requires h & 3 == 0
    ensures Track(h, Repeat(n)).1 == -4 * n
    ensures n > 0 ==> Track(h, Repeat(n)).0 == 0x08
    decreases n
  {
    if n > 0 {
      var cycle := [SAMPLE_01, SAMPLE_11, SAMPLE_10, SAMPLE_00];
      assert Repeat(n) == cycle + Repeat(n - 1);
      TrackAppend(h, cycle, Repeat(n - 1));
      FullCycle(h);
      Cycles(0x08, n - 1);
    }
  }

  /** n Gray-code cycles in which pin B changes first (00-01-11-10), each ending at sample 00. */
  function Repeat(n: nat): (s: seq<PinSample>)
    ensures |s| == 4 * n
  {
    if n == 0 then [] else [SAMPLE_01, SAMPLE_11, SAMPLE_10, SAMPLE_00] + Repeat(n - 1)
  }

  /**
   * The int8_t accumulator of one channel after a run of edges: each nonzero
   * table entry is added with int8_t wrap-around.
   */
  function Accumulate(acc: int8, h: bv8, samples: seq<PinSample>): int8
    decreases |samples|
  {
    if samples == [] then acc
    else
      var h' := NextHistory(h, samples[0]);
      var d := Change(h');
      Accumulate(if d != 0 then WrapInt8(acc + d) else acc, h', samples[1..])
  }

  lemma WrapTwice(x: int, y: int)
    ensures WrapInt8(WrapInt8(x) + y) == WrapInt8(x + y)
  {
  }

  /**
   * Updates commute: the accumulator ends at its start value plus the net
   * change of the run, modulo 256; below 128 ticks in either direction it
   * holds the net change exactly.
   */
  lemma {:induction false} AccumulateIsNet(acc: int8, h: bv8, samples: seq<PinSample>)
    ensures Accumulate(acc, h, samples) == WrapInt8(acc + Track(h, samples).1)
    decreases |samples|
  {
    if samples != [] {
      var h' := NextHistory(h, samples[0]);
      var d := Change(h');
      var acc' := if d != 0 then WrapInt8(acc + d) else acc;
      var rest := Track(h', samples[1..]).1;
      assert Track(h, samples).1 == d + rest;
      assert Accumulate(acc, h, samples) == Accumulate(acc', h', samples[1..]);
      AccumulateIsNet(acc', h', samples[1..]);
      if d != 0 {
        WrapTwice(acc + d, rest);
      }
    }
  }
}

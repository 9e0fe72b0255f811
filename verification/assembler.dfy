/**
  The word assembler: on each rising clock edge one bit per data line is
  shifted into the four accumulators; once `word_length` bits are in, further
  bits of the same word are taken as 0. A word-select flip ends the word and
  restarts assembly.
 */
module WordAssembler {

  import opened Wrappers
  import opened I2sTypes

  /** Every accumulator holds no more significant bits than have been shifted in. */
  predicate Bounded(st: DecoderState) {
    forall i :: 0 <= i < 4 ==> st.acc[i] < Pow2(st.bitcount)
  }

  /** The bits actually shifted in: the data lines, or all zeros once the word is full (overrun guard). */
  function Incoming(bitcount: nat, sd: Lines, wl: WordLength): (r: Lines)
  {
    if bitcount >= wl then [0, 0, 0, 0] else sd
  }

  /** Shifts one bit into each accumulator, most significant bit first. */
  function ShiftIn(acc: Quad, bits: Lines): (r: Quad)
  {
    [2 * acc[0] + bits[0], 2 * acc[1] + bits[1], 2 * acc[2] + bits[2], 2 * acc[3] + bits[3]]
  }

  /** One rising clock edge: accumulate the guarded bits and count one more bit; nothing else changes. */
  function Clock(st: DecoderState, sd: Lines, wl: WordLength): (r: DecoderState)
    ensures r.bitcount == st.bitcount + 1
    ensures st.bitcount < wl ==> forall i :: 0 <= i < 4 ==> r.acc[i] == 2 * st.acc[i] + sd[i]
    ensures st.bitcount >= wl ==> forall i :: 0 <= i < 4 ==> r.acc[i] == 2 * st.acc[i]
    ensures r.oldsck == st.oldsck && r.oldws == st.oldws
    ensures r.received == st.received && r.ssBlock == st.ssBlock
  {
    st.(acc := ShiftIn(st.acc, Incoming(st.bitcount, sd, wl)), bitcount := st.bitcount + 1)
  }

  /** The reset after a word-select flip: empty word, block opened at `num`, new word-select stored. */
  function Restart(st: DecoderState, num: nat, ws: Bit): (r: DecoderState)
    ensures r.bitcount == 0 && forall i :: 0 <= i < 4 ==> r.acc[i] == 0
    ensures r.ssBlock == Some(num) && r.oldws == ws
    ensures r.oldsck == st.oldsck && r.received == st.received
  {
    st.(acc := [0, 0, 0, 0], bitcount := 0, ssBlock := Some(num), oldws := ws)
  }

  /** A rising edge keeps every accumulator below 2 to the power of the bit count. */
  lemma ClockBounded(st: DecoderState, sd: Lines, wl: WordLength)
    requires Bounded(st)
    ensures Bounded(Clock(st, sd, wl))
  {
    var r := Clock(st, sd, wl);
    assert Pow2(r.bitcount) == 2 * Pow2(st.bitcount);
  }

  /** The reset after a flip leaves every accumulator within its (empty) bit count. */
  lemma RestartBounded(st: DecoderState, num: nat, ws: Bit)
    ensures Bounded(Restart(st, num, ws))
  {
    assert Pow2(0) == 1;
  }

  /** The unsigned value of a bit sequence read most significant bit first. */
  function FromBits(bits: seq<Bit>): (r: nat)
    ensures r < Pow2(|bits|)
  {
    if |bits| == 0 then 0 else 2 * FromBits(bits[..|bits| - 1]) + bits[|bits| - 1]
  }

  /** The bits one data line carried over a sequence of edges. */
  function Column(sds: seq<Lines>, i: nat): (r: seq<Bit>)
    requires i < 4
    ensures |r| == |sds|
    ensures forall k :: 0 <= k < |sds| ==> r[k] == sds[k][i]
  {
    seq(|sds|, k requires 0 <= k < |sds| => sds[k][i])
  }

  /** A run of rising edges with no word-select flip, one entry of `sds` per edge. */
  function ClockAll(st: DecoderState, sds: seq<Lines>, wl: WordLength): (r: DecoderState)
    ensures r.bitcount == st.bitcount + |sds|
    ensures r.oldsck == st.oldsck && r.oldws == st.oldws
    ensures r.received == st.received && r.ssBlock == st.ssBlock
  {
    if |sds| == 0 then st else Clock(ClockAll(st, sds[..|sds| - 1], wl), sds[|sds| - 1], wl)
  }

  /** A run of edges is the first edge, then the rest of the run. */
  lemma {:induction false} ClockAllFirst(st: DecoderState, sds: seq<Lines>, wl: WordLength)
    requires |sds| >= 1
    ensures ClockAll(st, sds, wl) == ClockAll(Clock(st, sds[0], wl), sds[1..], wl)
    decreases |sds|
  {
    var n := |sds|;
    if n > 1 {
      var p := sds[..n - 1];
      ClockAllFirst(st, p, wl);
      assert p[1..] == sds[1..][..n - 2];
    }
  }

  /** One line's accumulator after shifting in `bits` from an empty word, with the overrun guard applied. */
  function LaneValue(bits: seq<Bit>, wl: WordLength): (r: nat)
  {
    if |bits| == 0 then 0
    else
      var k := |bits| - 1;
      2 * LaneValue(bits[..k], wl) + (if k < wl then bits[k] else 0)
  }

  /** Each accumulator of a run of edges from an empty word is the lane value of its own line. */
  lemma {:induction false} ClockAllLanes(st: DecoderState, sds: seq<Lines>, wl: WordLength, i: nat)
    requires st.bitcount == 0 && forall j :: 0 <= j < 4 ==> st.acc[j] == 0
    requires i < 4
    ensures ClockAll(st, sds, wl).acc[i] == LaneValue(Column(sds, i), wl)
  {
    var n := |sds|;
    if n > 0 {
      var p := sds[..n - 1];
      ClockAllLanes(st, p, wl, i);
      assert Column(sds, i)[..n - 1] == Column(p, i);
    }
  }

  /** Below the word length, the lane value is the bits read most significant bit first. */
  lemma {:induction false} LaneValueInRange(bits: seq<Bit>, wl: WordLength)
    requires |bits| <= wl
    ensures LaneValue(bits, wl) == FromBits(bits)
  {
    if |bits| > 0 {
      LaneValueInRange(bits[..|bits| - 1], wl);
    }
  }

  /** Past the word length, every further edge doubles the lane value. */
  lemma {:induction false} LaneValueOverrun(bits: seq<Bit>, wl: WordLength)
    requires |bits| >= wl
    ensures LaneValue(bits, wl) == LaneValue(bits[..wl], wl) * Pow2(|bits| - wl)
  {
    var n := |bits|;
    if n > wl {
      var p := bits[..n - 1];
      LaneValueOverrun(p, wl);
      assert p[..wl] == bits[..wl];
      var v := LaneValue(bits[..wl], wl);
      var q := Pow2(n - 1 - wl);
      assert LaneValue(bits, wl) == 2 * LaneValue(p, wl);
      assert Pow2(n - wl) == 2 * q;
      Doubling(v, q);
    } else {
      assert bits[..wl] == bits;
    }
  }

  lemma Doubling(v: nat, q: nat)
    ensures 2 * (v * q) == v * (2 * q)
  {
  }

  /**
    The value a word assembles to. Starting from an empty word, after n edges
    each accumulator holds the first min(n, wl) bits of its line read most
    significant bit first, shifted left by the number of overrun edges.
   */
  lemma {:induction false} AssembledWord(st: DecoderState, sds: seq<Lines>, wl: WordLength, i: nat)
    requires st.bitcount == 0 && forall j :: 0 <= j < 4 ==> st.acc[j] == 0
    requires i < 4
    ensures |sds| <= wl ==> ClockAll(st, sds, wl).acc[i] == FromBits(Column(sds, i))
    ensures |sds| > wl ==>
      ClockAll(st, sds, wl).acc[i] == FromBits(Column(sds[..wl], i)) * Pow2(|sds| - wl)
  {
    ClockAllLanes(st, sds, wl, i);
    var col := Column(sds, i);
    if |sds| <= wl {
      LaneValueInRange(col, wl);
    } else {
      LaneValueOverrun(col, wl);
      LaneValueInRange(col[..wl], wl);
      assert col[..wl] == Column(sds[..wl], i);
    }
  }
}

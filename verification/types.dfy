/**
  The data model of the 4-channel I2S decoder: logic levels, the four-lane
  tuples it works on, the configuration options, one captured sample and the
  per-instance decoder state.
 */
module I2sTypes {

  import opened Wrappers

  /** A logic level as the capture delivers it: 0 or 1. */
  type Bit = b: nat | b <= 1

  /** One level per serial-data line sd0..sd3. */
  type Lines = s: seq<Bit> | |s| == 4 witness [0, 0, 0, 0]

  /** One unsigned accumulator per serial-data line. */
  type Quad = s: seq<nat> | |s| == 4 witness [0, 0, 0, 0]

  /** The word lengths the `word_length` option admits. */
  type WordLength = n: nat | n == 12 || n == 16 || n == 20 || n == 24 || n == 32 witness 16

  /** The three options the decoder reads: `word_length`, `dump_file == 'yes'`, `show_log == 'yes'`. */
  datatype Config = Config(wordLength: WordLength, dumpFile: bool, showLog: bool)

  /** One captured sample: its sample number and the six channels sck, ws, sd0..sd3. */
  datatype Sample = Sample(num: nat, sck: Bit, ws: Bit, sd: Lines)

  /** The stereo side a completed word is tagged with. */
  datatype Channel = L | R

  /**
    The decoder's instance state: last clock and word-select levels, the
    number of bits shifted in since the last boundary, the four accumulators,
    the number of words submitted, and the sample number at which the current
    block began (None until the first word-select flip).
   */
  datatype DecoderState = DecoderState(
    oldsck: Bit,
    oldws: Bit,
    bitcount: nat,
    acc: Quad,
    received: nat,
    ssBlock: Option<nat>)

  /** The state of a freshly constructed decoder. */
  const Initial: DecoderState := DecoderState(1, 1, 0, [0, 0, 0, 0], 0, None)

  /** 2 to the power n. */
  function Pow2(n: nat): (r: nat)
    ensures r >= 1
  {
    if n == 0 then 1 else 2 * Pow2(n - 1)
  }

  /** Pow2 is monotone. */
  lemma {:induction false} Pow2Monotone(a: nat, b: nat)
    requires a <= b
    ensures Pow2(a) <= Pow2(b)
  {
    if a < b {
      Pow2Monotone(a, b - 1);
    }
  }

  /** Pow2 turns addition of exponents into multiplication. */
  lemma {:induction false} Pow2Add(a: nat, b: nat)
    ensures Pow2(a + b) == Pow2(a) * Pow2(b)
  {
    if a > 0 {
      Pow2Add(a - 1, b);
      assert Pow2(a + b) == 2 * Pow2(a - 1 + b);
    }
  }
}

/**
  The edge tracker: a sample is processed further only when the bit clock
  has changed, and then only when it changed to 1 (data is taken on the
  rising edge).
 */
module EdgeTracker {

  import opened I2sTypes

  datatype Edge = Unchanged | Falling | Rising

  /** Classifies the current clock level against the stored one, testing equality first as the decoder does. */
  function Classify(oldsck: Bit, sck: Bit): (e: Edge)
    ensures e == Unchanged <==> oldsck == sck
    ensures e == Falling <==> oldsck == 1 && sck == 0
    ensures e == Rising <==> oldsck == 0 && sck == 1
  {
    if sck == oldsck then Unchanged
    else if sck == 0 then Falling
    else Rising
  }
}

/**
  The word emitter: what the decoder produces when a word ends inside an
  open block. With `show_log` it puts one DATA record and one annotation;
  with `dump_file` it appends one packed record per data line to the raw
  PCM stream of that line and stereo side.
 */
module WordEmitter {

  import opened I2sTypes
  import opened Pcm

  /**
    An output of the decoder, spanning samples [ss, es]: a DATA record on the
    Python output, or an annotation of class `cls` whose text shows the label
    and the four values as hexadecimal numbers of `hexDigits` digits.
   */
  datatype Event =
    | DataRecord(ss: nat, es: nat, channel: Channel, values: Quad)
    | Annotation(ss: nat, es: nat, cls: nat, channel: Channel, values: Quad, hexDigits: nat)

  /** The eight raw PCM byte streams, indexed 2 * line + word-select. */
  type Files = s: seq<seq<Byte>> | |s| == 8 witness [[], [], [], [], [], [], [], []]

  const NoFiles: Files := [[], [], [], [], [], [], [], []]

  /** The label of a word, from the word-select level it was sent under. */
  function ChannelOf(ws: Bit): (c: Channel)
    ensures c == L <==> ws == 1
  {
    if ws == 1 then L else R
  }

  /** The annotation class of a word: 0 ("left") or 1 ("right"). */
  function AnnotationClass(ws: Bit): (k: nat)
    ensures k <= 1
    ensures k == 0 <==> ChannelOf(ws) == L
  {
    if ws == 1 then 0 else 1
  }

  /** The hex width of the annotation text: 4 digits up to 16-bit words, 8 above. */
  function HexDigits(wl: WordLength): (d: nat)
    ensures d == 4 || d == 8
    ensures d == 4 <==> wl <= 16
    ensures wl <= 4 * d
  {
    if wl <= 16 then 4 else 8
  }

  /**
    The two outputs of a submitted word: a DATA record and an annotation,
    both over [ss, es], both labelled from the word-select level `ws` the
    word was sent under and carrying the same four values.
   */
  function LogEvents(ss: nat, es: nat, ws: Bit, vals: Quad, wl: WordLength): (r: seq<Event>)
    ensures |r| == 2
    ensures r[0].DataRecord? && r[1].Annotation?
    ensures forall e :: e in r ==> e.ss == ss && e.es == es && e.values == vals
    ensures forall e :: e in r ==> (e.channel == L <==> ws == 1)
    ensures r[1].cls <= 1 && (r[1].cls == 0 <==> ws == 1)
    ensures r[1].hexDigits == HexDigits(wl)
  {
    var c := ChannelOf(ws);
    [DataRecord(ss, es, c, vals), Annotation(ss, es, AnnotationClass(ws), c, vals, HexDigits(wl))]
  }

  /** The stream a data line writes to for a given word-select level. */
  function StreamIndex(lane: nat, ws: Bit): (k: nat)
    requires lane < 4
    ensures k < 8
    ensures k % 2 == ws && k / 2 == lane
  {
    2 * lane + ws
  }

  /** Whether `struct.pack` accepts `v` in the format chosen for `wl`. */
  predicate Fits(v: nat, wl: WordLength) {
    v < Pow256(PackWidth(wl))
  }

  /**
    `after` is `before` with one record appended to the stream of every line
    in [from, upto) on side `ws`, and every other stream untouched.
   */
  ghost predicate Wrote(before: Files, after: Files, ws: Bit, vals: Quad, wl: WordLength, from: nat, upto: nat)
  {
    && from <= upto <= 4
    && (forall j :: from <= j < upto ==> Fits(vals[j], wl))
    && (forall j :: from <= j < upto ==>
          after[StreamIndex(j, ws)] == before[StreamIndex(j, ws)] + EncodeLE(vals[j], PackWidth(wl)))
    && (forall k :: 0 <= k < 8 && !(k % 2 == ws && from <= k / 2 < upto) ==> after[k] == before[k])
  }

  /** The result of `save_data`: all four records written, or the line whose value `struct.pack` rejected. */
  datatype SaveResult = Saved(files: Files) | PackFailed(files: Files, lane: nat)

  /** Writes the records of lines `lane`..3 in order, stopping at the first value that does not pack. */
  function SaveFrom(files: Files, ws: Bit, vals: Quad, wl: WordLength, lane: nat): (r: SaveResult)
    requires lane <= 4
    ensures r.Saved? <==> forall j :: lane <= j < 4 ==> Fits(vals[j], wl)
    ensures r.Saved? ==> Wrote(files, r.files, ws, vals, wl, lane, 4)
    ensures r.PackFailed? ==>
      && lane <= r.lane < 4
      && !Fits(vals[r.lane], wl)
      && Wrote(files, r.files, ws, vals, wl, lane, r.lane)
    decreases 4 - lane
  {
    if lane == 4 then Saved(files)
    else if !Fits(vals[lane], wl) then PackFailed(files, lane)
    else
      var k := StreamIndex(lane, ws);
      var next := files[k := files[k] + EncodeLE(vals[lane], PackWidth(wl))];
      var r := SaveFrom(next, ws, vals, wl, lane + 1);
      WroteExtend(files, next, r.files, ws, vals, wl, lane, if r.Saved? then 4 else r.lane);
      r
  }

  /** Appending line `lane`'s record, then lines lane+1..upto-1, appends lines lane..upto-1. */
  lemma WroteExtend(files: Files, next: Files, after: Files, ws: Bit, vals: Quad, wl: WordLength, lane: nat, upto: nat)
    requires lane < 4 && Fits(vals[lane], wl)
    requires next == files[StreamIndex(lane, ws) := files[StreamIndex(lane, ws)] + EncodeLE(vals[lane], PackWidth(wl))]
    requires Wrote(next, after, ws, vals, wl, lane + 1, upto)
    ensures Wrote(files, after, ws, vals, wl, lane, upto)
  {
    var k0 := StreamIndex(lane, ws);
    forall j | lane <= j < upto
      ensures after[StreamIndex(j, ws)] == files[StreamIndex(j, ws)] + EncodeLE(vals[j], PackWidth(wl))
    {
      if j != lane {
        assert StreamIndex(j, ws) != k0;
      }
    }
    forall k | 0 <= k < 8 && !(k % 2 == ws && lane <= k / 2 < upto)
      ensures after[k] == files[k]
    {
      assert k != k0;
    }
  }

  /**
    `save_data(ws, d0, d1, d2, d3)`: each value, unshifted, packed into
    `PackWidth(wl)` bytes and appended to stream 2 * line + ws.
   */
  function SaveData(files: Files, ws: Bit, vals: Quad, wl: WordLength): (r: SaveResult)
    ensures r.Saved? <==> forall j :: 0 <= j < 4 ==> Fits(vals[j], wl)
  {
    SaveFrom(files, ws, vals, wl, 0)
  }

  /**
    `save_data` succeeds exactly when all four values pack; it writes one
    record per line up to the first one that does not, touches no other
    stream, and only ever appends.
   */
  lemma SaveDataWrites(files: Files, ws: Bit, vals: Quad, wl: WordLength)
    ensures var r := SaveData(files, ws, vals, wl);
      && (r.Saved? <==> forall j :: 0 <= j < 4 ==> Fits(vals[j], wl))
      && (r.Saved? ==> Wrote(files, r.files, ws, vals, wl, 0, 4))
      && (r.PackFailed? ==> r.lane < 4 && !Fits(vals[r.lane], wl) && Wrote(files, r.files, ws, vals, wl, 0, r.lane))
      && (forall k :: 0 <= k < 8 ==> files[k] <= r.files[k])
  {
    var r := SaveData(files, ws, vals, wl);
    WroteAppends(files, r.files, ws, vals, wl, 0, if r.Saved? then 4 else r.lane);
  }

  /** Writing records only ever appends to a stream. */
  lemma WroteAppends(before: Files, after: Files, ws: Bit, vals: Quad, wl: WordLength, from: nat, upto: nat)
    requires Wrote(before, after, ws, vals, wl, from, upto)
    ensures forall k :: 0 <= k < 8 ==> before[k] <= after[k]
  {
    forall k | 0 <= k < 8
      ensures before[k] <= after[k]
    {
      if k % 2 == ws && from <= k / 2 < upto {
        assert StreamIndex(k / 2, ws) == k;
      }
    }
  }

  /** Each record `save_data` appends decodes back to the value it was given. */
  lemma SavedRecordsDecode(files: Files, ws: Bit, vals: Quad, wl: WordLength, j: nat)
    requires j < 4
    requires forall i :: 0 <= i < 4 ==> Fits(vals[i], wl)
    ensures SaveData(files, ws, vals, wl).Saved?
    ensures var after := SaveData(files, ws, vals, wl).files[StreamIndex(j, ws)];
            var before := files[StreamIndex(j, ws)];
            |after| == |before| + PackWidth(wl) && DecodeLE(after[|before|..]) == vals[j]
  {
    SaveDataWrites(files, ws, vals, wl);
    var after := SaveData(files, ws, vals, wl).files[StreamIndex(j, ws)];
    var before := files[StreamIndex(j, ws)];
    assert after[|before|..] == EncodeLE(vals[j], PackWidth(wl));
  }
}

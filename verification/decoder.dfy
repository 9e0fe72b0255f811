/**
  The decoder's sample loop: the edge tracker, word assembler and word
  emitter composed into one step per captured sample, and the fold of that
  step over a capture.
 */
module Decoder {

  import opened Wrappers
  import opened I2sTypes
  import opened Pcm
  import opened EdgeTracker
  import opened WordAssembler
  import opened WordEmitter

  /** Everything the decoder has produced so far: the events it put and the eight PCM streams. */
  datatype Sinks = Sinks(events: seq<Event>, files: Files)

  datatype Machine = Machine(st: DecoderState, out: Sinks)

  /**
    The outcome of feeding samples: the decoder keeps running, or `struct.pack`
    raised at sample `num` on line `lane`, after the outputs in `out` were made.
   */
  datatype StepResult = Running(m: Machine) | Raised(out: Sinks, num: nat, lane: nat)

  /** A fresh decoder with nothing emitted yet. */
  const Start: Machine := Machine(Initial, Sinks([], NoFiles))

  /** The outputs made by the time a step or run ended, whether it raised or not. */
  function Effects(r: StepResult): Sinks {
    if r.Running? then r.m.out else r.out
  }

  /** `after` only appended to `before`: no event or stream byte is ever changed or removed. */
  ghost predicate Extends(before: Sinks, after: Sinks) {
    && before.events <= after.events
    && forall k :: 0 <= k < 8 ==> before.files[k] <= after.files[k]
  }

  /**
    The end of a word at a word-select flip, given the state after the last
    bit was shifted in: submit the word if a block was open, then start the
    next word at this sample.
   */
  function EndWord(st: DecoderState, out: Sinks, s: Sample, c: Config): (r: StepResult)
    ensures r.Running? ==>
      && r.m.st.bitcount == 0 && (forall i :: 0 <= i < 4 ==> r.m.st.acc[i] == 0)
      && r.m.st.ssBlock == Some(s.num) && r.m.st.oldws == s.ws && r.m.st.oldsck == st.oldsck
    ensures st.ssBlock.None? ==> r.Running? && r.m.out == out && r.m.st.received == st.received
    ensures st.ssBlock.Some? && r.Running? ==> r.m.st.received == st.received + 1
    ensures st.ssBlock.Some? ==>
      Effects(r).events == out.events +
        (if c.showLog then LogEvents(st.ssBlock.value, s.num, st.oldws, st.acc, c.wordLength) else [])
    ensures !c.dumpFile ==> r.Running? && r.m.out.files == out.files
    ensures st.ssBlock.Some? && c.dumpFile ==>
      var saved := SaveData(out.files, st.oldws, st.acc, c.wordLength);
      && Effects(r).files == saved.files
      && (r.Raised? <==> saved.PackFailed?)
    ensures r.Raised? ==> st.ssBlock.Some? && c.dumpFile && r.num == s.num
  {
    if st.ssBlock.None? then
      Running(Machine(Restart(st, s.num, s.ws), out))
    else
      var submitted := st.(received := st.received + 1);
      var events :=
        if c.showLog then out.events + LogEvents(st.ssBlock.value, s.num, st.oldws, st.acc, c.wordLength)
        else out.events;
      if c.dumpFile then
        match SaveData(out.files, st.oldws, st.acc, c.wordLength)
        case Saved(files) => Running(Machine(Restart(submitted, s.num, s.ws), Sinks(events, files)))
        case PackFailed(files, lane) => Raised(Sinks(events, files), s.num, lane)
      else
        Running(Machine(Restart(submitted, s.num, s.ws), Sinks(events, out.files)))
  }

  /** One sample through the decoder loop. */
  function Step(m: Machine, s: Sample, c: Config): (r: StepResult)
    ensures s.sck == m.st.oldsck ==> r == Running(m)
    ensures s.sck != m.st.oldsck && s.sck == 0 ==> r == Running(m.(st := m.st.(oldsck := 0)))
    ensures s.sck != m.st.oldsck && s.sck == 1 && s.ws == m.st.oldws ==>
      && r.Running? && r.m.out == m.out
      && r.m.st == Clock(m.st, s.sd, c.wordLength).(oldsck := 1)
    ensures s.sck != m.st.oldsck && s.sck == 1 && s.ws != m.st.oldws ==>
      r == EndWord(Clock(m.st, s.sd, c.wordLength).(oldsck := 1), m.out, s, c)
  {
    var st := m.st;
    match Classify(st.oldsck, s.sck)
    case Unchanged => Running(m)
    case Falling => Running(m.(st := st.(oldsck := 0)))
    case Rising =>
      var clocked := Clock(st, s.sd, c.wordLength).(oldsck := 1);
      if s.ws == st.oldws then Running(Machine(clocked, m.out))
      else EndWord(clocked, m.out, s, c)
  }

  /** A step only appends to the outputs: nothing already put or written is changed or removed. */
  lemma {:induction false} StepExtends(m: Machine, s: Sample, c: Config)
    ensures Extends(m.out, Effects(Step(m, s, c)))
  {
    var st := m.st;
    if s.sck != st.oldsck && s.sck == 1 && s.ws != st.oldws {
      var clocked := Clock(st, s.sd, c.wordLength).(oldsck := 1);
      if clocked.ssBlock.Some? && c.dumpFile {
        SaveDataWrites(m.out.files, clocked.oldws, clocked.acc, c.wordLength);
      }
    }
  }

  /** Events come in (DATA record, annotation) pairs over the same span, label and values. */
  ghost predicate Paired(ev: seq<Event>) {
    && |ev| % 2 == 0
    && forall k :: 0 <= k < |ev| ==>
         && (ev[k].DataRecord? <==> k % 2 == 0)
         && (k % 2 == 1 ==>
               && ev[k - 1].ss == ev[k].ss && ev[k - 1].es == ev[k].es
               && ev[k - 1].channel == ev[k].channel && ev[k - 1].values == ev[k].values)
  }

  /**
    The number of bytes `n` records take at the width chosen for `wl`. The two
    widths of `PackWidth` are spelled out here and in `WholeRecords` so that
    the invariant multiplies and divides by constants only; `RecordBytesWidth`
    ties the two definitions together.
   */
  function RecordBytes(n: nat, wl: WordLength): nat {
    if wl <= 16 then 2 * n else 4 * n
  }

  /** `n` records take `n` times the record width. */
  lemma RecordBytesWidth(n: nat, wl: WordLength)
    ensures RecordBytes(n, wl) == PackWidth(wl) * n
  {
  }

  /** A stream of `len` bytes holds whole records at the width chosen for `wl`. */
  predicate WholeRecords(len: nat, wl: WordLength) {
    if wl <= 16 then len % 2 == 0 else len % 4 == 0
  }

  /** Streams hold whole records, and the four lines of one side hold equally many. */
  ghost predicate Balanced(f: Files, wl: WordLength) {
    forall k :: 0 <= k < 8 ==> WholeRecords(|f[k]|, wl) && |f[k]| == |f[k % 2]|
  }

  /** With `show_log`, one (DATA, annotation) pair per submitted word; without it, no event. */
  ghost predicate EventsInv(ev: seq<Event>, c: Config, received: nat) {
    if c.showLog then Paired(ev) && |ev| == 2 * received else ev == []
  }

  /**
    With `dump_file`, every submitted word left one whole record on each line
    of its side; without it, every stream is empty.
   */
  ghost predicate FilesInv(f: Files, c: Config, received: nat) {
    if c.dumpFile then Balanced(f, c.wordLength) && |f[0]| + |f[1]| == RecordBytes(received, c.wordLength)
    else f == NoFiles
  }

  /**
    What holds of every running decoder started fresh: accumulators stay
    within the bits counted, nothing was submitted before the first block
    opened, and the events and streams account for every submitted word.
   */
  ghost predicate Inv(m: Machine, c: Config) {
    && Bounded(m.st)
    && (m.st.ssBlock.None? ==> m.st.received == 0)
    && EventsInv(m.out.events, c, m.st.received)
    && FilesInv(m.out.files, c, m.st.received)
  }

  /** A fresh decoder satisfies the invariant. */
  lemma StartInv(c: Config)
    ensures Inv(Start, c)
  {
    assert Bounded(Initial);
  }

  /** Appending one (DATA, annotation) pair keeps the events paired. */
  lemma PairedAppend(ev: seq<Event>, ss: nat, es: nat, ws: Bit, vals: Quad, wl: WordLength)
    requires Paired(ev)
    ensures Paired(ev + LogEvents(ss, es, ws, vals, wl))
  {
    var ev' := ev + LogEvents(ss, es, ws, vals, wl);
    forall k | 0 <= k < |ev'|
      ensures && (ev'[k].DataRecord? <==> k % 2 == 0)
              && (k % 2 == 1 ==>
                    && ev'[k - 1].ss == ev'[k].ss && ev'[k - 1].es == ev'[k].es
                    && ev'[k - 1].channel == ev'[k].channel && ev'[k - 1].values == ev'[k].values)
    {
      if k >= |ev| {
        assert ev'[k] == LogEvents(ss, es, ws, vals, wl)[k - |ev|];
        if k % 2 == 1 {
          assert k - 1 == |ev|;
        }
      } else {
        assert ev'[k] == ev[k];
      }
    }
  }

  /** Appending one whole record to each line of side `ws` keeps the streams balanced. */
  lemma BalancedWrote(before: Files, after: Files, ws: Bit, vals: Quad, wl: WordLength)
    requires Balanced(before, wl)
    requires Wrote(before, after, ws, vals, wl, 0, 4)
    ensures Balanced(after, wl)
    ensures |after[0]| + |after[1]| == |before[0]| + |before[1]| + PackWidth(wl)
  {
    forall k | 0 <= k < 8
      ensures WholeRecords(|after[k]|, wl) && |after[k]| == |after[k % 2]|
    {
      StreamGrowth(before, after, ws, vals, wl, k);
      StreamGrowth(before, after, ws, vals, wl, k % 2);
    }
    StreamGrowth(before, after, ws, vals, wl, 0);
    StreamGrowth(before, after, ws, vals, wl, 1);
  }

  /** How much one stream grows when one record is written to each line of side `ws`. */
  lemma StreamGrowth(before: Files, after: Files, ws: Bit, vals: Quad, wl: WordLength, k: nat)
    requires Wrote(before, after, ws, vals, wl, 0, 4)
    requires k < 8
    ensures |after[k]| == |before[k]| + (if k % 2 == ws then PackWidth(wl) else 0)
  {
    if k % 2 == ws {
      assert StreamIndex(k / 2, ws) == k;
    }
  }

  /** The event part of the invariant survives the end of a word. */
  lemma EndWordEvents(st: DecoderState, out: Sinks, s: Sample, c: Config)
    requires EventsInv(out.events, c, st.received)
    requires EndWord(st, out, s, c).Running?
    ensures EventsInv(EndWord(st, out, s, c).m.out.events, c, EndWord(st, out, s, c).m.st.received)
  {
    if st.ssBlock.Some? && c.showLog {
      PairedAppend(out.events, st.ssBlock.value, s.num, st.oldws, st.acc, c.wordLength);
    }
  }

  /** The stream part of the invariant survives the end of a word. */
  lemma EndWordFiles(st: DecoderState, out: Sinks, s: Sample, c: Config)
    requires FilesInv(out.files, c, st.received)
    requires EndWord(st, out, s, c).Running?
    ensures FilesInv(EndWord(st, out, s, c).m.out.files, c, EndWord(st, out, s, c).m.st.received)
  {
    if st.ssBlock.Some? && c.dumpFile {
      SaveDataWrites(out.files, st.oldws, st.acc, c.wordLength);
      EndWordSaved(st, out, s, c);
    }
  }

  /** A submitted word with `dump_file` set adds one whole record to each line of its side. */
  lemma EndWordSaved(st: DecoderState, out: Sinks, s: Sample, c: Config)
    requires st.ssBlock.Some? && c.dumpFile
    requires FilesInv(out.files, c, st.received)
    requires forall j :: 0 <= j < 4 ==> Fits(st.acc[j], c.wordLength)
    ensures EndWord(st, out, s, c).Running?
    ensures EndWord(st, out, s, c).m.st.received == st.received + 1
    ensures Wrote(out.files, EndWord(st, out, s, c).m.out.files, st.oldws, st.acc, c.wordLength, 0, 4)
    ensures FilesInv(EndWord(st, out, s, c).m.out.files, c, EndWord(st, out, s, c).m.st.received)
  {
    var m' := EndWord(st, out, s, c).m;
    var saved := SaveData(out.files, st.oldws, st.acc, c.wordLength);
    assert saved.Saved? && m'.out.files == saved.files;
    assert Wrote(out.files, m'.out.files, st.oldws, st.acc, c.wordLength, 0, 4);
    assert m'.st.received == st.received + 1;
    FilesInvWrote(out.files, m'.out.files, st.oldws, st.acc, c, st.received);
    assert FilesInv(m'.out.files, c, m'.st.received);
  }

  /** One more word saved keeps the streams accounting for every submitted word. */
  lemma FilesInvWrote(before: Files, after: Files, ws: Bit, vals: Quad, c: Config, n: nat)
    requires c.dumpFile && FilesInv(before, c, n)
    requires Wrote(before, after, ws, vals, c.wordLength, 0, 4)
    ensures FilesInv(after, c, n + 1)
  {
    BalancedWrote(before, after, ws, vals, c.wordLength);
  }

  /** The word-end step keeps the invariant when it does not raise. */
  lemma EndWordInv(st: DecoderState, out: Sinks, s: Sample, c: Config)
    requires Inv(Machine(st, out), c)
    requires EndWord(st, out, s, c).Running?
    ensures Inv(EndWord(st, out, s, c).m, c)
  {
    EndWordEvents(st, out, s, c);
    EndWordFiles(st, out, s, c);
  }

  /** Every step that does not raise keeps the invariant. */
  lemma {:induction false} StepInv(m: Machine, s: Sample, c: Config)
    ensures Inv(m, c) && Step(m, s, c).Running? ==> Inv(Step(m, s, c).m, c)
  {
    if Inv(m, c) && Step(m, s, c).Running? && s.sck != m.st.oldsck && s.sck == 1 && s.ws != m.st.oldws {
      var clocked := Clock(m.st, s.sd, c.wordLength).(oldsck := 1);
      assert Inv(Machine(clocked, m.out), c);
      EndWordInv(clocked, m.out, s, c);
    }
  }

  /**
    `struct.pack` can only raise for a word that overran: if fewer than
    `word_length` bits were in before this edge, the step does not raise.
   */
  lemma {:induction false} StepRaisesOnlyOnOverrun(m: Machine, s: Sample, c: Config)
    requires Inv(m, c)
    requires m.st.bitcount < c.wordLength
    ensures Step(m, s, c).Running?
  {
    var wl := c.wordLength;
    if s.sck != m.st.oldsck && s.sck == 1 && s.ws != m.st.oldws && m.st.ssBlock.Some? && c.dumpFile {
      var clocked := Clock(m.st, s.sd, wl);
      ClockBounded(m.st, s.sd, wl);
      Pow2Monotone(clocked.bitcount, wl);
      forall j | 0 <= j < 4
        ensures Fits(clocked.acc[j], wl)
      {
        InRangeWordPacks(clocked.acc[j], wl);
      }
      SaveDataWrites(m.out.files, m.st.oldws, clocked.acc, wl);
    }
  }

  /** The decoder loop over a capture, stopping where `struct.pack` raises: only `dump_file` can make it raise. */
  function Run(m: Machine, samples: seq<Sample>, c: Config): (r: StepResult)
    ensures r.Raised? ==> c.dumpFile && |samples| >= 1
    decreases |samples|
  {
    if |samples| == 0 then Running(m)
    else
      match Step(m, samples[0], c)
      case Running(next) => Run(next, samples[1..], c)
      case Raised(out, num, lane) => Raised(out, num, lane)
  }

  /** Every prefix of a capture that does not raise leaves the decoder in the invariant. */
  lemma {:induction false} RunInv(m: Machine, samples: seq<Sample>, c: Config)
    requires Inv(m, c)
    ensures Run(m, samples, c).Running? ==> Inv(Run(m, samples, c).m, c)
    decreases |samples|
  {
    if |samples| > 0 {
      StepInv(m, samples[0], c);
      var r := Step(m, samples[0], c);
      if r.Running? {
        RunInv(r.m, samples[1..], c);
      }
    }
  }

  /** The decoder's outputs are append-only: a run never changes or removes what was already put or written. */
  lemma {:induction false} RunExtends(m: Machine, samples: seq<Sample>, c: Config)
    ensures Extends(m.out, Effects(Run(m, samples, c)))
    decreases |samples|
  {
    if |samples| > 0 {
      var r := Step(m, samples[0], c);
      StepExtends(m, samples[0], c);
      if r.Running? {
        RunExtends(r.m, samples[1..], c);
      }
    }
  }

  /**
    From a fresh decoder, whatever a capture does not raise on: one (DATA,
    annotation) pair per submitted word with `show_log` and no events without
    it; with `dump_file`, every submitted word left one whole record on each
    line of its side, and without it every stream stays empty.
   */
  lemma {:induction false} CaptureInvariant(samples: seq<Sample>, c: Config)
    ensures var r := Run(Start, samples, c);
      r.Running? ==>
        && Bounded(r.m.st)
        && (c.showLog ==> |r.m.out.events| == 2 * r.m.st.received && Paired(r.m.out.events))
        && (!c.showLog ==> r.m.out.events == [])
        && (c.dumpFile ==>
              && (forall k :: 0 <= k < 8 ==> |r.m.out.files[k]| == |r.m.out.files[k % 2]|)
              && |r.m.out.files[0]| + |r.m.out.files[1]| == PackWidth(c.wordLength) * r.m.st.received)
        && (!c.dumpFile ==> r.m.out.files == NoFiles)
  {
    StartInv(c);
    RunInv(Start, samples, c);
    var r := Run(Start, samples, c);
    if r.Running? {
      RecordBytesWidth(r.m.st.received, c.wordLength);
    }
  }

  /** Feeds more samples to a decoder that is still running; a raised result stays as it is. */
  function Continue(r: StepResult, samples: seq<Sample>, c: Config): StepResult {
    if r.Running? then Run(r.m, samples, c) else r
  }

  /** Feeding a capture in two parts is feeding it whole. */
  lemma {:induction false} RunAppend(m: Machine, a: seq<Sample>, b: seq<Sample>, c: Config)
    ensures Run(m, a + b, c) == Continue(Run(m, a, c), b, c)
    decreases |a|
  {
    if |a| == 0 {
      assert a + b == b;
    } else {
      assert (a + b)[0] == a[0];
      assert (a + b)[1..] == a[1..] + b;
      var r := Step(m, a[0], c);
      if r.Running? {
        RunAppend(r.m, a[1..], b, c);
      }
    }
  }

  /** A capture that reaches `mid` and then, from `mid`, reaches `fin`, reaches `fin` when fed whole. */
  lemma {:induction false} RunThrough(m: Machine, front: seq<Sample>, mid: Machine, back: seq<Sample>, fin: StepResult, c: Config)
    requires Run(m, front, c) == Running(mid) && Run(mid, back, c) == fin
    ensures Run(m, front + back, c) == fin
  {
    RunAppend(m, front, back, c);
  }

  /** A capture in which the clock never leaves its stored level changes nothing and emits nothing. */
  lemma {:induction false} RunIdleClock(m: Machine, samples: seq<Sample>, c: Config)
    requires forall k :: 0 <= k < |samples| ==> samples[k].sck == m.st.oldsck
    ensures Run(m, samples, c) == Running(m)
    decreases |samples|
  {
    if |samples| > 0 {
      assert samples[0].sck == m.st.oldsck;
      RunIdleClock(m, samples[1..], c);
    }
  }

  /** A capture of one sample is one step. */
  lemma {:induction false} RunOne(m: Machine, s: Sample, c: Config)
    ensures Run(m, [s], c) == Step(m, s, c)
  {
    var r := Step(m, s, c);
    if r.Running? {
      assert [s][1..] == [];
    }
  }

  /** Every sample of `samples` has the clock level `sck`. */
  predicate Level(samples: seq<Sample>, sck: Bit) {
    forall k :: 0 <= k < |samples| ==> samples[k].sck == sck
  }

  /**
    One period of the bit clock as a logic analyzer captures it: the samples
    while the clock is low, the sample at which it rises, and the samples while
    it stays high. Word-select and the data lines are only read at `rise`.
   */
  datatype Period = Period(low: seq<Sample>, rise: Sample, high: seq<Sample>)

  /** The samples of one period, in capture order. */
  function PeriodSamples(p: Period): seq<Sample> {
    p.low + [p.rise] + p.high
  }

  /** A period seen from a high clock: at least one low sample, then the rise, then high samples only. */
  predicate Shaped(p: Period) {
    |p.low| >= 1 && Level(p.low, 0) && p.rise.sck == 1 && Level(p.high, 1)
  }

  /** The samples of a run of periods, in capture order. */
  function Capture(ps: seq<Period>): (r: seq<Sample>)
    decreases |ps|
  {
    if |ps| == 0 then [] else PeriodSamples(ps[0]) + Capture(ps[1..])
  }

  /** The data lines read at each rising edge of a run of periods. */
  function Bits(ps: seq<Period>): (r: seq<Lines>)
    ensures |r| == |ps| && forall j :: 0 <= j < |ps| ==> r[j] == ps[j].rise.sd
  {
    seq(|ps|, j requires 0 <= j < |ps| => ps[j].rise.sd)
  }

  /**
    The periods of one word: every one shaped, every rising edge but the last
    with word-select `ws`, and the last with word-select `next`.
   */
  predicate WordShape(ps: seq<Period>, ws: Bit, next: Bit) {
    && |ps| >= 1
    && forall j :: 0 <= j < |ps| ==> Shaped(ps[j]) && ps[j].rise.ws == (if j == |ps| - 1 then next else ws)
  }

  /** The low half of a period only stores the clock level 0, however many samples it spans. */
  lemma {:induction false} RunLow(st: DecoderState, out: Sinks, low: seq<Sample>, c: Config)
    requires st.oldsck == 1 && |low| >= 1 && Level(low, 0)
    ensures Run(Machine(st, out), low, c) == Running(Machine(st.(oldsck := 0), out))
  {
    var m := Machine(st, out);
    var fallen := Machine(st.(oldsck := 0), out);
    assert low[0].sck == 0;
    RunOne(m, low[0], c);
    assert Level(low[1..], 0) by {
      forall k | 0 <= k < |low[1..]|
        ensures low[1..][k].sck == 0
      {
        assert low[1..][k] == low[k + 1];
      }
    }
    RunIdleClock(fallen, low[1..], c);
    assert [low[0]] + low[1..] == low;
    RunThrough(m, [low[0]], fallen, low[1..], Running(fallen), c);
  }

  /** A period whose rising edge keeps word-select clocks the assembler once and emits nothing. */
  lemma {:induction false} RunPeriod(st: DecoderState, out: Sinks, p: Period, c: Config)
    requires st.oldsck == 1 && Shaped(p) && p.rise.ws == st.oldws
    ensures Run(Machine(st, out), PeriodSamples(p), c) == Running(Machine(Clock(st, p.rise.sd, c.wordLength), out))
  {
    var m := Machine(st, out);
    var fallen := Machine(st.(oldsck := 0), out);
    var clocked := Machine(Clock(st, p.rise.sd, c.wordLength), out);
    RunLow(st, out, p.low, c);
    assert fallen.st.(oldsck := 1) == st;
    RunOne(fallen, p.rise, c);
    RunThrough(m, p.low, fallen, [p.rise], Running(clocked), c);
    RunIdleClock(clocked, p.high, c);
    RunThrough(m, p.low + [p.rise], clocked, p.high, Running(clocked), c);
  }

  /**
    Periods whose rising edges keep word-select only assemble: the state is
    that of the assembler clocked once per period, and nothing is emitted.
   */
  lemma {:induction false} RunPeriods(m: Machine, ps: seq<Period>, c: Config)
    requires m.st.oldsck == 1
    requires forall j :: 0 <= j < |ps| ==> Shaped(ps[j]) && ps[j].rise.ws == m.st.oldws
    ensures Run(m, Capture(ps), c) == Running(Machine(ClockAll(m.st, Bits(ps), c.wordLength), m.out))
    decreases |ps|
  {
    var wl := c.wordLength;
    if |ps| == 0 {
      assert Capture(ps) == [];
    } else {
      var first := Machine(Clock(m.st, ps[0].rise.sd, wl), m.out);
      assert Bits(ps)[0] == ps[0].rise.sd && Bits(ps)[1..] == Bits(ps[1..]);
      var fin := Running(Machine(ClockAll(first.st, Bits(ps[1..]), wl), m.out));
      RunPeriod(m.st, m.out, ps[0], c);
      assert forall j :: 0 <= j < |ps[1..]| ==> ps[1..][j] == ps[j + 1];
      RunPeriods(first, ps[1..], c);
      RunThrough(m, PeriodSamples(ps[0]), first, Capture(ps[1..]), fin, c);
      ClockAllFirst(m.st, Bits(ps), wl);
    }
  }

  /** Samples at the clock level a run ended in change nothing after it, and nothing follows a raise. */
  lemma {:induction false} RunIdleAfter(m: Machine, front: seq<Sample>, r: StepResult, back: seq<Sample>, c: Config)
    requires Run(m, front, c) == r
    requires r.Running? ==> Level(back, r.m.st.oldsck)
    ensures Run(m, front + back, c) == r
  {
    RunAppend(m, front, back, c);
    if r.Running? {
      RunIdleClock(r.m, back, c);
    }
  }

  /** The low half of the last period, then its rising edge with word-select flipped, clock once and end the word. */
  lemma {:induction false} RunFlip(st: DecoderState, out: Sinks, p: Period, c: Config)
    requires st.oldsck == 1 && Shaped(p) && p.rise.ws != st.oldws
    ensures Run(Machine(st, out), p.low + [p.rise], c) == EndWord(Clock(st, p.rise.sd, c.wordLength), out, p.rise, c)
  {
    var fallen := Machine(st.(oldsck := 0), out);
    RunLow(st, out, p.low, c);
    assert fallen.st.(oldsck := 1) == st;
    RunOne(fallen, p.rise, c);
    RunAppend(Machine(st, out), p.low, [p.rise], c);
  }

  /**
    The last period of a word: its rising edge, with word-select flipped,
    clocks the assembler once and ends the word; the high samples after it
    change nothing.
   */
  lemma {:induction false} RunLastPeriod(st: DecoderState, out: Sinks, p: Period, c: Config)
    requires st.oldsck == 1 && Shaped(p) && p.rise.ws != st.oldws
    ensures Run(Machine(st, out), PeriodSamples(p), c) == EndWord(Clock(st, p.rise.sd, c.wordLength), out, p.rise, c)
  {
    var ended := EndWord(Clock(st, p.rise.sd, c.wordLength), out, p.rise, c);
    RunFlip(st, out, p, c);
    RunIdleAfter(Machine(st, out), p.low + [p.rise], ended, p.high, c);
  }

  /** A whole word is the assembler clocked once per period, then the end of the word at the flip edge. */
  lemma {:induction false} RunWord(m: Machine, ps: seq<Period>, next: Bit, c: Config)
    requires m.st.oldsck == 1 && next != m.st.oldws && WordShape(ps, m.st.oldws, next)
    ensures Run(m, Capture(ps), c) == EndWord(ClockAll(m.st, Bits(ps), c.wordLength), m.out, ps[|ps| - 1].rise, c)
    decreases |ps|
  {
    var wl := c.wordLength;
    var n := |ps|;
    assert Bits(ps)[0] == ps[0].rise.sd && Bits(ps)[1..] == Bits(ps[1..]);
    ClockAllFirst(m.st, Bits(ps), wl);
    if n == 1 {
      assert Capture(ps[1..]) == [];
      assert Capture(ps) == PeriodSamples(ps[0]) + [] == PeriodSamples(ps[0]);
      assert Bits(ps[1..]) == [];
      assert ClockAll(m.st, Bits(ps), wl) == Clock(m.st, ps[0].rise.sd, wl);
      RunLastPeriod(m.st, m.out, ps[0], c);
    } else {
      var first := Machine(Clock(m.st, ps[0].rise.sd, wl), m.out);
      var fin := EndWord(ClockAll(m.st, Bits(ps), wl), m.out, ps[n - 1].rise, c);
      assert ps[1..][|ps[1..]| - 1] == ps[n - 1];
      assert WordShape(ps[1..], m.st.oldws, next) by {
        forall j | 0 <= j < |ps[1..]|
          ensures Shaped(ps[1..][j]) && ps[1..][j].rise.ws == (if j == |ps[1..]| - 1 then next else m.st.oldws)
        {
          assert ps[1..][j] == ps[j + 1];
        }
      }
      assert ps[0].rise.ws == m.st.oldws;
      RunPeriod(m.st, m.out, ps[0], c);
      RunWord(first, ps[1..], next, c);
      RunThrough(m, PeriodSamples(ps[0]), first, Capture(ps[1..]), fin, c);
    }
  }

  /** The four words a run of rising edges spells, each line read most significant bit first. */
  function WordValues(sds: seq<Lines>): (r: Quad)
    ensures forall i :: 0 <= i < 4 ==> r[i] == FromBits(Column(sds, i))
  {
    [FromBits(Column(sds, 0)), FromBits(Column(sds, 1)), FromBits(Column(sds, 2)), FromBits(Column(sds, 3))]
  }

  /** A word of at most `word_length` bits assembles to the values its lines spell. */
  lemma {:induction false} AssembledValues(st: DecoderState, sds: seq<Lines>, wl: WordLength)
    requires st.bitcount == 0 && (forall i :: 0 <= i < 4 ==> st.acc[i] == 0)
    requires |sds| <= wl
    ensures ClockAll(st, sds, wl).acc == WordValues(sds)
  {
    var clocked := ClockAll(st, sds, wl);
    forall i | 0 <= i < 4
      ensures clocked.acc[i] == FromBits(Column(sds, i))
    {
      AssembledWord(st, sds, wl, i);
    }
  }


  /**
    End to end: a word of at most `word_length` bits sent inside an open block,
    however many samples each half of its clock periods spans, is submitted
    with each line's bits read most significant bit first, labelled from the
    word-select it was sent under; with `dump_file` each line's record is
    appended to its stream, and the next word starts empty at the flip edge.
   */
  lemma {:induction false} WordIsSubmitted(m: Machine, ps: seq<Period>, next: Bit, c: Config)
    requires m.st.oldsck == 1 && m.st.bitcount == 0 && (forall i :: 0 <= i < 4 ==> m.st.acc[i] == 0)
    requires m.st.ssBlock.Some? && next != m.st.oldws
    requires WordShape(ps, m.st.oldws, next) && |ps| <= c.wordLength
    ensures var r := Run(m, Capture(ps), c);
      var flip := ps[|ps| - 1].rise;
      && r.Running?
      && r.m.st.received == m.st.received + 1
      && r.m.st.ssBlock == Some(flip.num) && r.m.st.oldws == next
      && r.m.st.bitcount == 0 && (forall i :: 0 <= i < 4 ==> r.m.st.acc[i] == 0)
      && r.m.out.events == m.out.events +
           (if c.showLog
            then LogEvents(m.st.ssBlock.value, flip.num, m.st.oldws, WordValues(Bits(ps)), c.wordLength)
            else [])
      && (c.dumpFile ==> Wrote(m.out.files, r.m.out.files, m.st.oldws, WordValues(Bits(ps)), c.wordLength, 0, 4))
      && (!c.dumpFile ==> r.m.out.files == m.out.files)
  {
    var wl := c.wordLength;
    var vals := WordValues(Bits(ps));
    RunWord(m, ps, next, c);
    AssembledValues(m.st, Bits(ps), wl);
    if c.dumpFile {
      forall j | 0 <= j < 4
        ensures Fits(vals[j], wl)
      {
        Pow2Monotone(|Column(Bits(ps), j)|, wl);
        InRangeWordPacks(vals[j], wl);
      }
      SaveDataWrites(m.out.files, m.st.oldws, vals, wl);
    }
  }
}

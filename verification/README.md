# I2S 4-channel decoder: word assembly and PCM record packing

A Dafny model of the sample loop of the sigrok protocol decoder for four I2S
data lines sharing one bit clock (`sck`) and one word-select line (`ws`), and
of the routine that writes each completed word to eight raw PCM streams.

The decoder keeps the last clock and word-select levels, four accumulators,
a bit count, the number of words submitted and the sample number at which the
current block began. For each captured sample:

- a sample whose clock equals the stored clock is ignored; a falling edge only
  stores the new clock level;
- a rising edge shifts one bit per data line into the accumulators (bits past
  `word_length` are taken as 0) and counts one more bit;
- a rising edge at which word-select differs from the stored level ends the
  word. If a block was open, the word is submitted: the received count goes
  up, with `show_log` a DATA record and an annotation are put, and with
  `dump_file` the four values are packed by `save_data`. Then the
  accumulators and bit count are cleared, the block start becomes this
  sample, and the new word-select level is stored.

`save_data` packs each value unshifted as a 2-byte (`H`, word lengths 12 and
16) or 4-byte (`I`, 20, 24 and 32) unsigned record and appends it to stream
`2 * line + ws`. The formats use the host's native size and byte order; the
model takes them as 2 and 4 bytes, little-endian.

The model is functional: `Decoder.Step` maps a machine (decoder state plus
the outputs made so far) and one sample to the next machine, and
`Decoder.Run` folds it over a capture. Outputs are a sequence of events and
eight byte sequences, one per output file. When `struct.pack` rejects a value
(an overrun word too wide for its format), Python raises out of `decode`;
the model returns `Raised` with the outputs made up to that point, and
`Run` stops there.

Modules, in dependency order:

- `Wrappers`: `Option`.
- `I2sTypes`: levels, lanes, options, samples, the decoder state, powers of two.
- `Pcm`: little-endian unsigned encoding, the format width and `struct.pack`.
- `EdgeTracker`: classification of a sample's clock against the stored clock.
- `WordAssembler`: the shift-in with overrun guard, the reset, and runs of edges.
- `WordEmitter`: labels, log events, stream indices and `save_data`.
- `Decoder`: the step, the fold, the invariant of a running decoder, and
  whole-word lemmas.

The shift `(acc << 1) | bit` of the source is modelled as `2 * acc + bit`;
the two agree because the bit is 0 or 1 and the shifted value is even.

## Model

| member | source | states |
|---|---|---|
| EdgeTracker.Classify | pd.py:128-133 | a sample is Unchanged exactly when its clock equals the stored clock, Falling exactly when the clock goes from 1 to 0, and Rising exactly when it goes from 0 to 1 |
| WordAssembler.Clock | pd.py:135-142 | a rising edge counts exactly one more bit; below `word_length` each accumulator becomes twice itself plus its line's bit, and at or past it each accumulator is exactly doubled; levels, received count and block start are unchanged |
| WordAssembler.ClockBounded | pd.py:138-142 | a rising edge keeps every accumulator below 2 to the power of the bit count |
| WordAssembler.Restart | pd.py:168-174 | the reset clears all four accumulators and the bit count, sets the block start to the current sample and stores the new word-select level, keeping clock level and received count |
| WordAssembler.RestartBounded | pd.py:169-170 | after the reset every accumulator is within its (zero) bit count |
| WordAssembler.ClockAll | pd.py:135-142 | a run of rising edges without a flip adds one to the bit count per edge and changes no level, received count or block start |
| WordAssembler.ClockAllFirst | pd.py:135-142 | a run of edges is its first edge followed by the rest of the run |
| WordAssembler.ClockAllLanes | pd.py:135-142 | from an empty word, each accumulator after a run of edges depends only on its own line's bits |
| WordAssembler.LaneValueInRange | pd.py:138-141 | with at most `word_length` bits, a line's value is its bits read most significant bit first |
| WordAssembler.LaneValueOverrun | pd.py:135-141 | every bit past `word_length` doubles the line's value: the value is the first `word_length` bits times 2 to the power of the overrun |
| WordAssembler.AssembledWord | pd.py:135-146 | from an empty word, each accumulator at the end of a run of edges is the line's bits read MSB first, shifted left by the number of overrun bits when the word was longer than `word_length` |
| Pcm.DecodeLE | pd.py:188 | a little-endian byte string decodes to a value below 256 to the power of its length |
| Pcm.EncodeLE | pd.py:188 | an in-range value encodes to exactly `width` bytes that decode back to it |
| Pcm.DecodeEncode | pd.py:188 | encoding the decoded value of any byte string at its own length gives the same bytes back |
| Pcm.EncodeInjective | pd.py:188 | two in-range values with the same encoding are equal |
| Pcm.PackWidth | pd.py:177-186 | the record width is 2 bytes exactly for word lengths up to 16, else 4, and always holds `word_length` bits |
| Pcm.Pack | pd.py:188-191 | `struct.pack` succeeds exactly when the value is below 256 to the power of the width, and then yields `width` bytes that decode to the value |
| Pcm.InRangeWordPacks | pd.py:177-188 | a value of at most `word_length` bits always packs |
| WordEmitter.ChannelOf | pd.py:155 | the label is L exactly when the previous word-select was 1 |
| WordEmitter.AnnotationClass | pd.py:154 | the annotation class is 0 or 1, and 0 exactly when the label is L |
| WordEmitter.HexDigits | pd.py:157-160 | the hex width is 4 digits exactly for word lengths up to 16, else 8, and always covers `word_length` bits |
| WordEmitter.LogEvents | pd.py:153-163 | a submitted word puts exactly two events, a DATA record then an annotation, both over [block start, sample], with the word's four values, labelled L exactly when the previous word-select was 1, class 0 exactly then, with the hex width of the word length |
| WordEmitter.StreamIndex | pd.py:188-191 | line `i` on side `ws` writes stream `2 * i + ws`: the index is below 8, its parity is `ws` and its half is the line |
| WordEmitter.SaveFrom | pd.py:188-191 | writing lines from `lane` on succeeds exactly when each of their values packs; on success each of those lines got its encoded record appended to its stream and no other stream changed; on failure it stopped at a line whose value does not pack, after writing the lines before it |
| WordEmitter.SaveData | pd.py:176-191 | `save_data` succeeds exactly when all four values pack; what it writes is stated by SaveDataWrites and SavedRecordsDecode |
| WordEmitter.SaveDataWrites | pd.py:176-191 | `save_data` succeeds exactly when all four values pack; it appends one encoded record to streams `ws`, `2 + ws`, `4 + ws`, `6 + ws` in line order up to the first failing line, leaves the other streams unchanged, and only ever appends |
| WordEmitter.WroteAppends | pd.py:188-191 | writing records never changes or removes bytes already in a stream |
| WordEmitter.SavedRecordsDecode | pd.py:188-191 | when all four values pack, `save_data` succeeds and the bytes appended to each line's stream are one record of the chosen width that decodes back to the line's value |
| Decoder.EndWord | pd.py:145-174 | at a flip: the state afterwards has empty accumulators, bit count 0, block start at this sample and the new word-select; with no open block nothing is emitted and the received count stays; with an open block the received count goes up by one, the log events are appended exactly when `show_log`, and with `dump_file` the streams are those `save_data` wrote and the step raises exactly when `save_data` failed; without `dump_file` it never raises and no stream changes |
| Decoder.Step | pd.py:125-174 | a sample with the stored clock changes nothing; a falling edge changes only the stored clock; a rising edge without a flip emits nothing and only clocks the assembler; a rising edge with a flip clocks the assembler and then ends the word |
| Decoder.StepExtends | pd.py:148-166 | a step only appends: no event or stream byte already produced is changed or removed |
| Decoder.StartInv | pd.py:71-79 | a freshly constructed decoder satisfies the running invariant |
| Decoder.PairedAppend | pd.py:162-163 | appending one word's DATA record and annotation keeps the events in matched pairs |
| Decoder.StreamGrowth | pd.py:188-191 | one `save_data` grows each stream of side `ws` by one record width and the other side's streams keep their length |
| Decoder.BalancedWrote | pd.py:188-191 | one `save_data` keeps every stream whole records long, with the four lines of a side equally long, and adds one record width to streams 0 and 1 together |
| Decoder.EndWordEvents | pd.py:151-163 | the end of a word keeps exactly one (DATA, annotation) pair per submitted word with `show_log`, and no events without it |
| Decoder.EndWordFiles | pd.py:165-166 | the end of a word keeps the streams accounting for one record per line per submitted word with `dump_file`, and empty without it |
| Decoder.EndWordSaved | pd.py:165-166 | a word whose four values all pack, submitted with `dump_file`, does not raise, adds one to the received count, appends each line's encoded record to that line's stream of its side and changes no other stream, and keeps the streams accounting for every submitted word |
| Decoder.FilesInvWrote | pd.py:188-191 | streams that accounted for `n` words account for `n + 1` after one more successful `save_data` |
| Decoder.EndWordInv | pd.py:145-174 | the end of a word that does not raise keeps the running invariant |
| Decoder.StepInv | pd.py:125-174 | every step that does not raise keeps the running invariant |
| Decoder.StepRaisesOnlyOnOverrun | pd.py:135-142 | a decoder in the invariant whose bit count is below `word_length` cannot raise on the next sample: `struct.pack` can only fail on an overrun word |
| Decoder.Run | pd.py:125-174 | the loop over a capture raises only with `dump_file` and only on a non-empty capture; its invariant, append-only outputs and composition are stated by RunInv, RunExtends and RunAppend |
| Decoder.RunInv | pd.py:125-174 | every run that does not raise, from a decoder in the invariant, ends in the invariant |
| Decoder.RunExtends | pd.py:125-174 | a run only appends to the outputs, whether or not it raised |
| Decoder.CaptureInvariant | pd.py:118-174 | from a fresh decoder, whatever a capture does not raise on leaves accumulators within their bit counts, exactly two events per submitted word with `show_log` (in DATA/annotation pairs) and none without, and with `dump_file` equally long streams on each side holding one record per line per submitted word; without `dump_file` no stream is written |
| Decoder.RunAppend | pd.py:125 | feeding a capture in two parts is feeding it whole, and a run that raised stays raised |
| Decoder.RunThrough | pd.py:125 | a capture that reaches a machine and then, from there, reaches a result, reaches that result fed whole |
| Decoder.RunIdleClock | pd.py:127-129 | a capture in which the clock never leaves the stored level changes nothing and emits nothing |
| Decoder.RunOne | pd.py:125 | a one-sample capture is one step |
| Decoder.RunLow | pd.py:127-133 | the low half of a clock period, however many samples it spans, only stores clock level 0 and emits nothing |
| Decoder.RunPeriod | pd.py:127-146 | one clock period (any number of low samples, the rising edge, any number of high samples) whose rising edge keeps word-select clocks the assembler once with the lines read at the rising edge, and emits nothing |
| Decoder.RunPeriods | pd.py:127-146 | periods whose rising edges keep word-select leave the assembler clocked once per period, with the lines read at each rising edge, and emit nothing |
| Decoder.RunIdleAfter | pd.py:127-129 | samples at the clock level a run ended in change nothing after it, and nothing follows a raise |
| Decoder.RunFlip | pd.py:127-174 | the low half of a period and then a rising edge with word-select flipped clock the assembler once and end the word at that edge |
| Decoder.RunLastPeriod | pd.py:127-174 | the last period of a word clocks the assembler once and ends the word at its rising edge; its high samples change nothing |
| Decoder.RunWord | pd.py:125-174 | a whole word of clock periods ending at a word-select flip is the assembler clocked once per period and then the end of the word at the flip edge |
| Decoder.AssembledValues | pd.py:135-142 | a word of at most `word_length` bits leaves in each accumulator the line's bits read most significant bit first |
| Decoder.WordIsSubmitted | pd.py:118-174 | a word of at most `word_length` bits sent in an open block, with any number of samples in each half of each clock period, is submitted: it does not raise, the received count goes up by one, with `show_log` exactly its DATA record and annotation are appended, carrying each line's bits read MSB first and labelled from the word-select the word was sent under, with `dump_file` each line's record is appended to that line's stream of the word's side and no other stream changes, and the next word starts empty at the flip sample with the new word-select stored |

## Left out

- File opening and the eight file handles (pd.py:81-84): I/O; the streams are eight byte sequences, indexed as `fout` is.
- Output registration and the `put` wrappers (pd.py:86-102): host-framework plumbing; a put is an event appended to a sequence, spanning the block start to the current sample.
- Sample-rate metadata (pd.py:91-93) and the `data.itercnt` counter (pd.py:126): bookkeeping no modelled behaviour depends on.
- `report` (pd.py:104-116): it uses float division, reads `self.wordlength`, which is never set, and `first_sample`, which is never set after construction (pd.py:78).
- The text of the hex strings (pd.py:158-160): only the choice of 4 or 8 digits is modelled, as `hexDigits` on the annotation.
- Native byte order and native size of `struct.pack` (pd.py:188-191): assumed little-endian with 2-byte `H` and 4-byte `I` records; on a big-endian host each record's bytes are reversed, and a platform with another `unsigned int` size would change the `I` width.
- The partial effects of the exception raised by `struct.pack`: `Raised` keeps the events and the streams written before the failing line, but not the decoder's fields (the received count already incremented in Python); `Run` stops there, as `decode` does.
- Decoder.RunWord: stated for words of at least one clock period, each period starting with at least one low sample, and from a decoder whose stored clock is 1 (as after construction or after the previous word's flip edge).
- Decoder.WordIsSubmitted: stated for a word that starts with empty accumulators and an open block, that is one sent right after a word-select flip.

## Notes on the code

Behaviour of the code that the model reproduces as written:

- `save_data` packs each value as assembled (pd.py:188-191): no shift aligns a short word to its record width.
- The `warnings` annotation class and the `wav` binary output are declared (pd.py:57-64) but never used: no word-length warning and no WAV header is produced, and `wrote_wav_header` (pd.py:80) is never read.
- `bitcount` keeps growing past `word_length`, and each extra rising edge doubles every accumulator, because a 0 is shifted in (pd.py:135-142).
- DATA records and annotations are put only when `show_log` is set (pd.py:153-163).
- `ws = 1` is labelled L (pd.py:155) and written to `fout[2 * line + 1]` (pd.py:188-191), the file opened as `ch*R.pcm` (pd.py:81-84); only the index arithmetic is modelled.
- An overrun word too wide for its record format makes `struct.pack` raise out of `decode` (pd.py:166, 188-191); the model returns `Raised`.

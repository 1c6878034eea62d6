# Bitcrusher kernel and note table, modelled in Dafny

A web-audio synthesiser has two small kernels with algorithmic content. This
project models both and proves properties about them.

- **Bitcrusher** (`bitcrusher.dfy`, module `Bitcrusher`) models the
  audio-worklet `process` callback. It walks the first input channel. At
  every index that is a multiple of `sampleRateReduction`, it writes the
  sample quantised to `step * floor(x / step + 0.5)`, where
  `step = 0.5^bitDepth`. At every other index it repeats the output sample it
  has just written. The callback is a method over `array<real>`. It is proved
  against `Crushed`, a pure function defined the way the loop computes. Lemmas
  give the closed form (each output is the quantised first sample of its hold
  group), constant hold groups, the half-step error bound, the grid, and
  idempotence.
- **Notes** (`notes.dfy`, module `Notes`) models `generateNoteFrequencies` and
  `getClosestNoteFromFrequency`. The note map is a JavaScript object with
  non-numeric keys, so it enumerates in insertion order. It is therefore
  modelled as an ordered `seq<NoteEntry>`. Property assignment is modelled by
  `Assign`: an existing key keeps its place, and a new key is appended. Both
  source functions are methods with loops. They are proved against the pure
  functions `NoteTable` and `ClosestNote`.

The frequency of a semitone offset is a parameter of type `Tuning`. In the
source it is `440 * 2^(s/12)`, rounded with `toFixed(2)`. Lemmas that need
facts about these numbers assume `IsEqualTempered`, and only over the offsets
the table uses, -57 (C0) to 62 (B9): the value at offset 0 is 440, every value
in that range is positive, and the values rise strictly with the offset.

On an empty table the lookup returns the empty string
(`src/lib/notes.js:28,39`); `ClosestNote` does the same.

## Model

| member | source | states |
|---|---|---|
| `Bitcrusher.ParameterDescriptors` | src/lib/bitcrusher-processor.js:2-7 | two parameters, `bitDepth` then `sampleRateReduction`; each default lies within its range, and each minimum is at least 1 |
| `Bitcrusher.Step` | src/lib/bitcrusher-processor.js:18 | the step `0.5^bitDepth` is positive and at most 1; for `bitDepth >= 1` it is at most 1/2 |
| `Bitcrusher.StepIsReciprocalOfPow2` | src/lib/bitcrusher-processor.js:18 | `0.5^bitDepth * 2^bitDepth == 1`, so the step is exactly one over a power of two |
| `Bitcrusher.Quantise` | src/lib/bitcrusher-processor.js:22 | the quantised value is an integer multiple of `step`, and `-step/2 < q - x <= step/2` |
| `Bitcrusher.QuantiseOnGrid` | src/lib/bitcrusher-processor.js:22 | a value that is already a multiple of `step` is returned unchanged |
| `Bitcrusher.QuantiseIdempotent` | src/lib/bitcrusher-processor.js:22 | quantising a quantised value changes nothing |
| `Bitcrusher.QuantiseMonotone` | src/lib/bitcrusher-processor.js:22 | `x <= y` implies `Quantise(x) <= Quantise(y)` |
| `Bitcrusher.QuantiseHalfStepRoundsUp` | src/lib/bitcrusher-processor.js:22 | the floor-based rounding sends `+step/2` to `step` and `-step/2` to `0`, so ties go up on both sides of zero |
| `Bitcrusher.Crushed` | src/lib/bitcrusher-processor.js:20-26 | the sample-and-hold output has the input's length; the hold branch only reads an index below the current one, and never index -1 |
| `Bitcrusher.GroupStart` | src/lib/bitcrusher-processor.js:21 | the start of `i`'s hold group is at most `i`, is a multiple of `r`, and lies in the same group as `i` |
| `Bitcrusher.CrushedAt` | src/lib/bitcrusher-processor.js:20-26 | every output sample equals the quantised input sample at the start of its hold group |
| `Bitcrusher.CrushedGroupConstant` | src/lib/bitcrusher-processor.js:20-26 | all output samples in one group `[k*r, k*r + r)` are equal, including a group cut short by the end of the buffer |
| `Bitcrusher.CrushedWithoutReduction` | src/lib/bitcrusher-processor.js:21-22 | with `sampleRateReduction == 1`, output `i` is the quantised input `i`, so nothing is held |
| `Bitcrusher.CrushedError` | src/lib/bitcrusher-processor.js:20-26 | every output sample is on the quantisation grid; at a group start it is within half a step of the input |
| `Bitcrusher.CrushedIdempotent` | src/lib/bitcrusher-processor.js:20-26 | crushing the output again with the same parameters gives the same output |
| `Bitcrusher.CrushedPrefix` | src/lib/bitcrusher-processor.js:20-26 | the output up to an index depends only on the input up to that index |
| `Bitcrusher.Process` | src/lib/bitcrusher-processor.js:9-30 | always returns `true`; with no input channels it writes nothing; otherwise it writes only the first output channel, and only below the input length; that prefix equals `Crushed` of the input, and each sample is the quantised first sample of its group |
| `Notes.Decimal` | src/lib/notes.js:17 | the decimal text of a number is non-empty and all digits, with at least two digits from 10 upwards |
| `Notes.DecimalInjective` | src/lib/notes.js:17 | different numbers have different decimal texts |
| `Notes.NoteNameInjective` | src/lib/notes.js:17 | the key `noteNames[i] + octave` determines both the octave and the pitch-class index |
| `Notes.Assign` | src/lib/notes.js:20 | assigning a new key appends the entry; assigning an existing key replaces its value in place; keys stay distinct |
| `Notes.NoteTable` | src/lib/notes.js:8-22 | the generated table has exactly 120 entries |
| `Notes.NoteTableEntry` | src/lib/notes.js:8-20 | each pair (octave 0..9, pitch class 0..11) has its entry at `12*octave + pitchClass`, with key `noteNames[i] + octave` and the frequency of its semitone offset |
| `Notes.NoteTableOffsets` | src/lib/notes.js:8-11 | in insertion order the semitone offset of entry `k` is `k - 57`, rising by one per entry from C0 (-57) to B9 (62) |
| `Notes.NoteTableDistinct` | src/lib/notes.js:17-20 | all 120 keys are distinct, so no assignment overwrites an earlier entry |
| `Notes.NoteTableIncreasing` | src/lib/notes.js:11-14 | under a tuning that rises strictly over offsets -57 to 62, frequencies rise strictly along the table |
| `Notes.NoteTableA4` | src/lib/notes.js:3-17 | entry 57 is "A4", and its frequency is the reference value 440 |
| `Notes.GenerateNoteFrequencies` | src/lib/notes.js:2-25 | the nested loops build exactly `NoteTable`: 120 entries with distinct keys |
| `Notes.FirstClosestUnique` | src/lib/notes.js:31-35 | at most one entry is the first entry with minimal distance, so the lookup's result is determined |
| `Notes.ClosestIndex` | src/lib/notes.js:31-37 | the left-to-right scan with strict `<` finds an entry whose distance is minimal, and every earlier entry is strictly farther |
| `Notes.ClosestNote` | src/lib/notes.js:27-40 | an empty table gives `""`; otherwise the result is the key of the first entry with minimal distance |
| `Notes.GetClosestNoteFromFrequency` | src/lib/notes.js:27-40 | the loop with running minimum (starting at infinity) returns `""` on an empty table and otherwise the key of the first closest entry |
| `Notes.ClosestToOwnFrequency` | src/lib/notes.js:32-35 | querying an entry's own frequency returns that entry's key, or the key of an earlier entry with the same frequency |
| `Notes.NoteTableRoundTrip` | src/lib/notes.js:27-40 | in the generated table each entry's frequency resolves to that entry's own key |
| `Notes.ClosestToReference` | src/lib/notes.js:27-40 | looking up 440 Hz in the generated table gives "A4" |
| `Notes.ClosestBelowRange` | src/lib/notes.js:27-40 | any query at or below the lowest table frequency resolves to "C0" |
| `Notes.ClosestToZero` | src/lib/notes.js:27-40 | looking up 0 Hz gives "C0" |

## Left out

- `AudioWorkletProcessor`, `registerProcessor` and the host's real-time scheduling of `process` (`src/lib/bitcrusher-processor.js:1,33`) are runtime plumbing. They are not modelled.
- Samples and the step are exact reals. IEEE-754 rounding in `Math.pow`, the division and `Math.floor` is not modelled. Neither are NaN or infinite samples, or the 32-bit storage of typed-array samples.
- The AudioParam arrays are not modelled. `process` reads only element `[0]` of each. The model takes that value as an integer within the declared range `[1, 16]`. Non-integer and out-of-range values are not modelled.
- `Bitcrusher.Process` requires that the first output channel is at least as long as the first input channel. The host passes channels of equal length. A JavaScript typed array silently drops writes past its end; a shorter output channel is not modelled.
- `Bitcrusher.Process` requires that `inputs` has an entry. The host passes one entry per declared input. It does not require that the input channel and the output channel are distinct arrays: the proof covers both cases.
- The values that `440 * Math.pow(2, s / 12)` produces after `toFixed(2)` and `parseFloat` (`src/lib/notes.js:12,14`) are floating-point results. They are not computed. They are the `Tuning` parameter. What the lemmas assume about them is `IsEqualTempered`, over offsets -57 to 62 only: the value at offset 0 is 440, the values are positive, and they increase strictly. This assumption is not proved. Outside that range the rounded values can be zero or equal to a neighbour; the table never uses those offsets.
- Notes.GetClosestNoteFromFrequency: the query is a finite real. A NaN or infinite query is not modelled. In the source such a query returns `''` even on a non-empty table, because the difference is then NaN or Infinity and never below the initial `Infinity` (`src/lib/notes.js:29,32-33`).
- `src/lib/stores.js` holds reactive UI state cells and has no logic. stores.js is not part of this model.

# SVM on Hadoop MapReduce: a Dafny model of its core

`SVM.java` trains a linear support-vector machine as a single Hadoop job.
Four sequential pieces sit inside the framework plumbing, and this project models each of them:

- **`DoubleWritableArray`** is the record passed from the map phase to the reduce phase.
  `write` emits a 4-byte big-endian `int` count, one 8-byte `doubleToLongBits` pattern per feature, and one for the label.
  `readFields` reads the same layout back into a freshly allocated array.
  The module is `RecordCodec`, built on the byte-level `DataOutput`/`DataInput` model in `Java`.
- **`SVMMapper.map`** splits a text line on `\s+`, parses the last token as the label and the tokens before it as the features, and emits the record under the constant key `"data"`. The module is `Mapper`.
- **`SVMReducer.reduce`** collects every record and sizes a zeroed `weights` array by the first record's feature count.
  It then runs the training `while` loop and emits `weight0` .. `weight<d-1>` followed by `bias`. The module is `Reducer`.
- **`SVMReducer.classify`** is the dot product over `weights.length`, plus the bias.

How the Java types are represented:
- A Java `double` is its raw 64-bit pattern (`Java.Double`), and no arithmetic is defined on it.
  Arithmetic and comparison are a `FloatOps` value passed in by the caller.
  `Double.parseDouble` is a parameter `string -> Option<Double>`; `None` stands for `NumberFormatException`.
- Exceptions are values of `Java.Exception` carried by `Result`.
- Stateful code stays stateful: `DoubleWritableArray`, `DataOutput` and `DataInput` are classes, and the weights are an `array`.
  Every loop of the source is a `for` or `while` loop proved against a specification function, either recursive or closed-form: `Encode`/`Decode`, `ParseAll`, `Margin`, `UpdateFrom`, `Step`, `PassFrom`, `TrainFrom` and `Emit`; the collecting and zeroing loops of `reduce` against sequence comprehensions.

The training loop as written never runs, because `numChanged` is 0 when the guard is first tested (line 57).
The model keeps that guard exactly. It proves that `reduce` emits `d + 1` pairs, every one holding `+0.0`, for any non-empty input.

Four behaviours of the code are worth stating plainly:
- **A line with one token** is accepted as a record with no features, its one token being the label (`Mapper.OneTokenLine`).
- **Records of different lengths** are never compared: nothing checks that every record has `d` features. With the loop dead, `Reducer.Reduce` succeeds on records of any mixed lengths.
- **A line that is empty or starts with whitespace** has `""` as its first token (a leading `""` from `split`, or the sole token of the empty line), so `map` fails on it with `Double.parseDouble`'s NumberFormatException (`Mapper.LeadingSpaceFails`). A non-empty line of whitespace only splits to no token and fails with `IndexOutOfBoundsException` at `tokens[tokens.length - 1]` (`Mapper.NoWordLine`, `Mapper.SplitNoToken`).
- **An empty value list** fails with `IndexOutOfBoundsException` from `featureList.get(0)` (line 50).

## Model

| member | source | states |
|---|---|---|
| `Java.FromBigEndianOfBigEndian` | Hadoop_SVM_Implementation/SVM.java:135-139 | reading back the n big-endian bytes of any x below 256^n gives x |
| `Java.BigEndianOfFromBigEndian` | Hadoop_SVM_Implementation/SVM.java:144-149 | every byte string is the big-endian encoding of the number it reads as |
| `Java.IntRoundTrip` | Hadoop_SVM_Implementation/SVM.java:135 | readInt of the four bytes writeInt emits for a negative or non-negative int returns that int (two's complement) |
| `Java.IntBytesRoundTrip` | Hadoop_SVM_Implementation/SVM.java:144 | any four bytes readInt consumes are exactly what writeInt emits for the int it returns |
| `Java.LongRoundTrip` | Hadoop_SVM_Implementation/SVM.java:137 | the eight bytes written for a 64-bit pattern read back as that pattern |
| `Java.LongBytesRoundTrip` | Hadoop_SVM_Implementation/SVM.java:147 | any eight bytes readDouble consumes are what writeLong emits for the pattern read |
| `Java.IntBytes` | Hadoop_SVM_Implementation/SVM.java:135 | writeInt emits four bytes, and the top bit of the first is set exactly when the int is negative |
| `Java.IntOfBytes` | Hadoop_SVM_Implementation/SVM.java:144 | readInt returns a negative int exactly when the top bit of the first byte read is set |
| `Java.LongBytes` | Hadoop_SVM_Implementation/SVM.java:137-139 | writeLong emits eight bytes, the first holding the pattern's top eight bits (big-endian) |
| `Java.LongOfBytes` | Hadoop_SVM_Implementation/SVM.java:147-149 | readLong takes the pattern's top eight bits from the first byte read (big-endian) |
| `Java.DoubleToLongBits` | Hadoop_SVM_Implementation/SVM.java:137 | writeDouble keeps every non-NaN pattern, maps every NaN to the canonical NaN, and preserves NaN-ness |
| `Java.DoubleToLongBitsIdempotent` | Hadoop_SVM_Implementation/SVM.java:137 | canonicalising a pattern twice is the same as once |
| `Java.DecimalString` | Hadoop_SVM_Implementation/SVM.java:79 | concatenating an int renders at least one character, all decimal digits, with no leading zero except for 0 itself |
| `Java.ParseDecimalOfDecimalString` | Hadoop_SVM_Implementation/SVM.java:79 | the decimal digits string concatenation renders for i read back as i |
| `Java.DecimalStringInjective` | Hadoop_SVM_Implementation/SVM.java:79 | distinct indices render as distinct digit strings |
| `Java.DataOutput.WriteInt` | Hadoop_SVM_Implementation/SVM.java:135 | the stream grows by exactly the four big-endian bytes of the int |
| `Java.DataOutput.WriteDouble` | Hadoop_SVM_Implementation/SVM.java:137-139 | the stream grows by exactly the eight bytes of doubleToLongBits of the value |
| `Java.DataInput.ReadBytes` | Hadoop_SVM_Implementation/SVM.java:144-149 | returns the next n bytes and advances by n, or throws EOFException having consumed the rest when fewer remain |
| `Java.DataInput.ReadInt` | Hadoop_SVM_Implementation/SVM.java:144 | returns the two's-complement int of the next four bytes and advances by 4, or throws EOFException |
| `Java.DataInput.ReadDouble` | Hadoop_SVM_Implementation/SVM.java:147-149 | returns the pattern of the next eight bytes unchanged and advances by 8, or throws EOFException |
| `RecordCodec.Encode` | Hadoop_SVM_Implementation/SVM.java:134-140 | write emits 4 + 8n + 8 bytes for a record of n features |
| `RecordCodec.EncodeLayout` | Hadoop_SVM_Implementation/SVM.java:134-140 | write emits 4 + 8n + 8 bytes: the count, then feature i's pattern at offset 4 + 8i for each i in order, then the label's pattern last |
| `RecordCodec.Decode` | Hadoop_SVM_Implementation/SVM.java:143-150 | a successful read consumes 4 + 8n bytes plus 8 for the label, n being the int in the first four bytes; the only failures are EOFException and NegativeArraySizeException |
| `RecordCodec.DecodeFailure` | Hadoop_SVM_Implementation/SVM.java:143-150 | reading fails exactly when fewer than 4 bytes remain, the count is negative, or fewer than 4 + 8n + 8 bytes remain; a negative count throws NegativeArraySizeException |
| `RecordCodec.DecodeEncode` | Hadoop_SVM_Implementation/SVM.java:134-150 | readFields on write's bytes, followed by anything, returns the same length, each element's written pattern and the label's, and consumes exactly the written bytes |
| `RecordCodec.DecodeEncodeExact` | Hadoop_SVM_Implementation/SVM.java:134-150 | for a record without non-canonical NaNs the round trip is the identity |
| `RecordCodec.EncodeDecode` | Hadoop_SVM_Implementation/SVM.java:134-150 | re-writing a record that was read reproduces the consumed bytes exactly when none of them is a non-canonical NaN, in both directions |
| `RecordCodec.DecodeReadsOnlyItsBytes` | Hadoop_SVM_Implementation/SVM.java:143-150 | readFields looks at no byte beyond those it consumes |
| `RecordCodec.DoubleWritableArray.Empty` | Hadoop_SVM_Implementation/SVM.java:124-126 | the no-argument constructor leaves the array null and the label +0.0 |
| `RecordCodec.DoubleWritableArray.constructor` | Hadoop_SVM_Implementation/SVM.java:128-131 | stores the caller's array itself, not a copy, and the label |
| `RecordCodec.DoubleWritableArray.Write` | Hadoop_SVM_Implementation/SVM.java:134-140 | appends exactly the encoding of the held record to the stream; a null array throws NullPointerException and writes nothing |
| `RecordCodec.DoubleWritableArray.WriteElements` | Hadoop_SVM_Implementation/SVM.java:136-138 | the elements' patterns are written in index order |
| `RecordCodec.DoubleWritableArray.ReadElements` | Hadoop_SVM_Implementation/SVM.java:146-148 | fills index j with the pattern at offset 4 + 8j for every j in order, or reports that the stream ends before the label |
| `RecordCodec.DoubleWritableArray.ReadFields` | Hadoop_SVM_Implementation/SVM.java:143-150 | succeeds exactly when the decode does, leaving a fresh array of the decoded length with the decoded record and the stream advanced by the consumed size; otherwise throws the same exception and keeps the label; header failures keep the old array; an end-of-stream failure consumes the stream |
| `Mapper.IsSpace` | Hadoop_SVM_Implementation/SVM.java:21 | every character `\s` matches lies at or below the space, so no character of a number separates tokens |
| `Mapper.TakeWord` | Hadoop_SVM_Implementation/SVM.java:21 | the longest whitespace-free prefix of the line |
| `Mapper.Words` | Hadoop_SVM_Implementation/SVM.java:21 | every piece between whitespace runs is non-empty and whitespace-free |
| `Mapper.Split` | Hadoop_SVM_Implementation/SVM.java:21 | every token after the first is a word; the first is empty exactly when the line is empty or starts with whitespace |
| `Mapper.WordsOfLayout` | Hadoop_SVM_Implementation/SVM.java:21 | words separated by whitespace runs of any length, with any trailing whitespace, tokenise to exactly those words in order |
| `Mapper.SplitLayout` | Hadoop_SVM_Implementation/SVM.java:21 | split of optional leading whitespace, words separated by whitespace runs of any length, and optional trailing whitespace gives exactly those words, preceded by one empty token when there is leading whitespace |
| `Mapper.SplitNoToken` | Hadoop_SVM_Implementation/SVM.java:21 | the empty line splits to the single token ""; a line splits to no token exactly when it is non-empty and all whitespace |
| `Mapper.ConcatWords` | Hadoop_SVM_Implementation/SVM.java:21 | tokenising drops only whitespace: the words concatenated are the line's non-whitespace characters in order |
| `Mapper.ParseAll` | Hadoop_SVM_Implementation/SVM.java:24-26 | succeeds exactly when every token parses, giving feature i from token i; otherwise reports the first token that does not parse |
| `Mapper.FirstFailure` | Hadoop_SVM_Implementation/SVM.java:24-26 | the first unparsable token is the one whose NumberFormatException escapes |
| `Mapper.ParseLine` | Hadoop_SVM_Implementation/SVM.java:21-26 | the line fails with IndexOutOfBoundsException exactly when it has no token; any other failure is a NumberFormatException naming one of its tokens; a record has one feature fewer than the tokens |
| `Mapper.ParseLineSpec` | Hadoop_SVM_Implementation/SVM.java:21-26 | a line succeeds exactly when it has a token and every token parses; then it has tokens.length - 1 features in token order and the label from the last token; no token gives IndexOutOfBoundsException; an unparsable label is reported before any feature |
| `Mapper.NoWordLine` | Hadoop_SVM_Implementation/SVM.java:21-22 | map throws IndexOutOfBoundsException exactly on the non-empty all-whitespace lines; the empty line's one token "" is parsed as the label |
| `Mapper.LeadingSpaceFails` | Hadoop_SVM_Implementation/SVM.java:21-25 | when "" does not parse, the empty line and every line starting with whitespace fail |
| `Mapper.OneTokenLine` | Hadoop_SVM_Implementation/SVM.java:21-26 | a one-token line becomes a record with no features |
| `Mapper.ParseFeatures` | Hadoop_SVM_Implementation/SVM.java:23-26 | fills a fresh array with feature i from token i, in order, exactly when every token parses; otherwise throws the NumberFormatException of the first token rejected |
| `Mapper.Map` | Hadoop_SVM_Implementation/SVM.java:19-29 | emits under key "data" a fresh object with a fresh array holding exactly the parsed record, or throws the exception the line parse gives |
| `Mapper.CollectAll` | Hadoop_SVM_Implementation/SVM.java:28 | a task's output is one (KEY, record) pair per line in order when no line throws, and otherwise the exception of the first line that throws |
| `Mapper.MapAll` | Hadoop_SVM_Implementation/SVM.java:19-29 | one sequential map task succeeds exactly when every line parses, emitting one ("data", record) pair per line in line order; otherwise it fails with the exception of its first failing line |
| `Mapper.ValuesForConstantKey` | Hadoop_SVM_Implementation/SVM.java:28 | with all pairs under "data" the group for "data" is every value in order and every other group is empty |
| `Mapper.SingleReduceGroup` | Hadoop_SVM_Implementation/SVM.java:28 | all records of the input reach the one reduce call for "data", and no other key receives any |
| `Reducer.DotPrefix` | Hadoop_SVM_Implementation/SVM.java:85-88 | the first n terms are the loop's running sum from +0.0, adding w[k]*x[k] for k = 0 .. n-1 in turn |
| `Reducer.Margin` | Hadoop_SVM_Implementation/SVM.java:84-91 | classify is the loop's running sum over the first weights.length features, plus the bias |
| `Reducer.DotPrefixReadsPrefix` | Hadoop_SVM_Implementation/SVM.java:86-88 | the first n terms of the dot product depend only on the first n features |
| `Reducer.MarginReadsOnlyWeightsLength` | Hadoop_SVM_Implementation/SVM.java:84-90 | classify reads features only below weights.length: vectors that agree there classify alike |
| `Reducer.Classify` | Hadoop_SVM_Implementation/SVM.java:84-91 | returns the left-to-right dot product over weights.length plus the bias, or throws IndexOutOfBoundsException when features is shorter than weights |
| `Reducer.UpdateFrom` | Hadoop_SVM_Implementation/SVM.java:67-69 | the update keeps the length and leaves the entries before j alone |
| `Reducer.Update` | Hadoop_SVM_Implementation/SVM.java:67-69 | updates weights in place in index order, each step seeing the weights updated so far |
| `Reducer.Step` | Hadoop_SVM_Implementation/SVM.java:62-72 | one record keeps the weights' length and either changes nothing or bumps the counter by exactly one |
| `Reducer.RunStep` | Hadoop_SVM_Implementation/SVM.java:62-72 | one record on the array matches Step, including both IndexOutOfBoundsException cases, and a failing record leaves the weights untouched |
| `Reducer.PassFrom` | Hadoop_SVM_Implementation/SVM.java:60-73 | a pass keeps the weights' length, counts at most one change per remaining record, and changes nothing when it counts none |
| `Reducer.RunPass` | Hadoop_SVM_Implementation/SVM.java:60-73 | a pass over the array matches PassFrom from a counter reset to 0 |
| `Reducer.TrainFrom` | Hadoop_SVM_Implementation/SVM.java:59-75 | the loop ends with its guard false, the weights' length kept, iter never decreasing and never passing MAX_ITERATIONS, and at least one pass when the guard held on entry |
| `Reducer.Train` | Hadoop_SVM_Implementation/SVM.java:59-75 | the while loop on the array computes TrainFrom, and the array ends holding its weights |
| `Reducer.TrainingNeverRuns` | Hadoop_SVM_Implementation/SVM.java:57-59 | entered with numChanged = 0 and iter = 0, the loop returns its state untouched |
| `Reducer.TrainingRunsAtLeastOnce` | Hadoop_SVM_Implementation/SVM.java:57-75 | entered with a positive counter, the loop runs between 1 and MAX_ITERATIONS passes and stops on a pass with no change or on the cap |
| `Reducer.NumChangedNonNegative` | Hadoop_SVM_Implementation/SVM.java:60-71 | the change counter never goes negative |
| `Reducer.WeightKey` | Hadoop_SVM_Implementation/SVM.java:79 | the key is "weight" followed by decimal digits only, with no leading zero except for index 0, which read back as the index |
| `Reducer.WeightKeyInjective` | Hadoop_SVM_Implementation/SVM.java:79 | distinct indices give distinct "weight" keys |
| `Reducer.Emit` | Hadoop_SVM_Implementation/SVM.java:78-81 | the output has one pair per weight plus one for the bias |
| `Reducer.EmitKeysDistinct` | Hadoop_SVM_Implementation/SVM.java:78-81 | no key is emitted twice |
| `Reducer.EmitLookup` | Hadoop_SVM_Implementation/SVM.java:78-81 | looking up "weight" + i gives weights[i] and "bias" gives the bias |
| `Reducer.Gather` | Hadoop_SVM_Implementation/SVM.java:42-47 | the collected features and labels are the records', in order |
| `Reducer.ZeroWeights` | Hadoop_SVM_Implementation/SVM.java:51-55 | a fresh array of the given length holding +0.0 everywhere |
| `Reducer.Output` | Hadoop_SVM_Implementation/SVM.java:78-81 | the written pairs are ("weight" + i, weights[i]) in ascending i, then ("bias", bias) |
| `Reducer.ReduceWith` | Hadoop_SVM_Implementation/SVM.java:39-82 | an empty list throws IndexOutOfBoundsException; otherwise the output is Emit of the loop's final state from zero weights sized by the first record, or the loop's exception |
| `Reducer.Reduce` | Hadoop_SVM_Implementation/SVM.java:39-82 | as written: any non-empty list yields exactly d + 1 pairs, weight0 .. weight(d-1) all +0.0 then bias +0.0, d being the first record's feature count; an empty list throws |
| `Reducer.ReduceAtLeastOnePass` | Hadoop_SVM_Implementation/SVM.java:39-82 | with the loop run at least once: between 1 and MAX_ITERATIONS passes, then one pair per weight plus the bias |

## Left out

- `Mapper.MapAll` and `Mapper.ValuesFor`: the model runs the map phase as one sequential task and groups values with an order-preserving filter. Hadoop's shuffle sorts by key only, and parallel map tasks make it nondeterministic which failing line's exception ends the job. So the order of the records within the "data" group is the model's choice, and in particular `Reducer.Reduce`'s `d` is the feature count of whichever record Hadoop delivers first.
- `java.io` stream failures other than end of stream: `write` and `readFields` declare `IOException`, but the model's `DataOutput` never fails and its `DataInput` fails only with `EOFException`.
- `main` (lines 95-117) is job submission, argument handling and `System.exit`; it is not modelled.
- The Hadoop framework:
  - `context.write` becomes a returned list of pairs.
  - The values `Iterable` becomes a `seq<Record>`.
  - The shuffle becomes `Mapper.ValuesFor`.
  - Hadoop hands the reducer one `DoubleWritableArray` object, refilled by `readFields` for each value. Since `readFields` allocates a fresh array on every call, the collected arrays are distinct, and the model collects the record values directly.
- `context.getConfiguration().getDouble("C", 1.0)` (line 65) is the parameter `C`.
- `Double.parseDouble` is a parameter; which strings it accepts and what values it gives are not modelled.
- IEEE-754 arithmetic and comparison in `classify` and in the updates (lines 64-70, 86-89) are the abstract `FloatOps`. No claim is made about the numeric values of the weights after a pass.
- The decoding of a `Text` value into a `String` (UTF-8) is not modelled: `map` receives the line as a string.
- `OutOfMemoryError` from `new double[length]` with a huge decoded count is not modelled.
- `RecordCodec.DoubleWritableArray.ReadFields`: when a read fails after the array was allocated, the contract gives the fresh array's length but not its partly filled contents.
- `DoubleWritableArray.getArray` and `getLabel` (lines 152-158) are the field reads `GetArray`/`GetLabel`. They have no contract beyond returning the field. `Reducer.Gather` reads the same two fields of each record.
- The record-index use of `weights[i]` in the update test (lines 65-66) is modelled as written: an `IndexOutOfBoundsException` whenever the test reaches `weights[i]` with `i >= weights.length`. Because of the loop guard, this code is dead as written.

## Findings

| source | as written | input that shows it | evidently intended | confidence | as-written member | corrected member |
|---|---|---|---|---|---|---|
| Hadoop_SVM_Implementation/SVM.java:57-59 | `numChanged` starts at 0, so the guard `iter < MAX_ITERATIONS && numChanged > 0` is false at once, training never runs, and every emitted weight and the bias are +0.0 | any non-empty list of records, e.g. one record with features [1.0] and label 1.0 | the loop runs its first pass unconditionally (counter starting positive, or a do-while) and repeats while a pass changed something, up to MAX_ITERATIONS | not executed | `Reducer.Reduce` (with `Reducer.TrainingNeverRuns`) | `Reducer.ReduceAtLeastOnePass` (with `Reducer.TrainingRunsAtLeastOnce`) |

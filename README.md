# read_wav_files in Dafny

A model of the speech-corpus loader `main.py`. It has three parts:

- a WAV decoder (`read_wavfile`), which reads the channel count, sample rate and bit depth of a
  canonical RIFF/WAVE header and the samples after it;
- a recording loader (`read_recording`), which cuts a digit, a speaker alias and an index out of
  the file name and decodes the file;
- a corpus (`make_corpus` and the `Corpus` class). A corpus holds a dataset path, a set of
  speaker aliases and the recordings of those speakers. Every operation builds a new corpus:
  it computes a new speaker set, then rescans the directory of every speaker in that set.

Files and modules:

| file | module | contents |
|---|---|---|
| results.dfy | Results | the failure values (one per kind of failure the Python code raises), `Option`, `Result`, and `Collect`, which gives the values of a loop that stops at the first failure |
| bytes.dfy | Bytes | little-endian unsigned integers and two's-complement readings |
| wav_decoder.dfy | WavDecoder | numpy's `fromfile` over an open file with a cursor (`OpenFile`), the cursor-driven `ReadWavFile`, the same decoder on absolute positions (`DecodeWav`), and a canonical WAV writer used for the round trip |
| py_strings.dfy | PyStrings | the ASCII parts of `str.find`, slicing, `str.capitalize`, `str.split` and `int()` |
| recording_loader.dfy | RecordingLoader | the file-name parser, `RecordingOf` and `ReadRecording` |
| speech_corpus.dfy | SpeechCorpus | metadata and directories as values, the selection loops, the nested rescan loops, and the `Corpus` class |

The disk is a parameter. A `Disk` maps a dataset path to a `DatasetDir`, which holds two
things:

- the already-parsed metadata file (`None` when the directory has no `.txt` file);
- per speaker sub-directory, its `.wav` files, each a name and its bytes, in directory-listing
  order.

Python iterates over a set in an order the program does not control. So `LoadRecordings`
picks each next speaker nondeterministically and reports, as a ghost out-parameter, an
iteration order of the set that starts with the speakers it visited (all of them when it
succeeds). Its contracts, and those of every corpus operation, hold for that order, and
the lemmas about counts and success hold for every order.

Where the code and its written description disagree, the model follows the code:

- `name[2:4]` never fails: on a short name it gives a shorter or empty alias.
- `int()` accepts surrounding whitespace, a sign and single underscores between digits. So only
  characters outside digits, whitespace, `+`, `-` and `_` are certain to make the index slice
  fail (`ParseRejectsIndex`).
- When the name has no `.`, `find` returns -1 and the index slice stops one character before
  the end.
- A sample rate of zero fails with a division by zero. It is an error path, not a precondition.
- numpy counts the payload items as (size - 44) / (bits/8), truncated toward zero. A file
  that ends fewer than bits/8 bytes before byte 44 therefore has a count of zero, not a
  negative one, and decodes with no samples: 43 bytes at 16 bits, 41 to 43 at 32 bits,
  37 to 43 at 64 bits. A shorter file fails with `NegativeDimensions`.
- A file that ends before byte 36 fails when `int()` sees an empty array (`TruncatedHeader`).

## Model

| member | source | states |
|---|---|---|
| WavDecoder.FromFileSpec | main.py:34-45 | `np.fromfile` on a cursor: it fails, with `NegativeDimensions` and the cursor just past the seek, iff the count is -1 and numpy's truncated item count is negative. The cursor never moves backwards, and a successful read inside the file never leaves it past the end |
| WavDecoder.Items | main.py:39-45 | the items of a byte run: one per whole bits/8-byte item, a trailing partial item dropped (with `ItemAt` giving each item's bytes) |
| WavDecoder.OpenFile.FromFile | main.py:34-45 | one `np.fromfile` call: it seeks `offset` bytes from the cursor, then reads `count` whole items; `count=-1` means all remaining items and fails when numpy's truncated item count is negative. It leaves the cursor after the bytes consumed. The result and the new cursor are `FromFileSpec` of the old cursor |
| WavDecoder.ReadOne | main.py:34-36 | a `count=1` read yields exactly one item iff the whole item lies inside the file. That item is the little-endian value at cursor+offset, and the cursor moves past it |
| WavDecoder.AsScalar | main.py:34-36 | `int()` of a returned array succeeds iff the array has exactly one element, and yields that element |
| WavDecoder.TruncDiv | main.py:39-45 | C division as numpy counts items: the quotient is negative iff the dividend is at most minus the divisor |
| WavDecoder.SampleType | main.py:38-45 | a bit depth has a sample type iff it is 16, 32 or 64; the type is signed and bits/8 bytes wide |
| WavDecoder.DecodeWav | main.py:23-51 | the decoder on absolute positions: it fails with `TruncatedHeader` iff the file ends before byte 36. On success it keeps the file name and has a non-zero rate and a depth of 16, 32 or 64 |
| WavDecoder.ReadWavFile | main.py:23-51 | the chained reads at relative offsets 22, 0, 6 and 8 return exactly what `DecodeWav` returns on the absolute positions 22, 24, 34 and 44, including which error and when |
| WavDecoder.PayloadAgrees | main.py:38-45 | the `count=-1` read at cursor 36 with offset 8 yields exactly the whole items stored after byte 44 |
| WavDecoder.ItemAt | main.py:39-45 | item i of a payload is read from bytes i*w up to (i+1)*w |
| WavDecoder.ItemsOfWholePrefix | main.py:39-45 | cutting off a trailing partial item first does not change the items read |
| WavDecoder.DecodedShape | main.py:34-47 | a successful decode has a supported depth read at byte 34, and its samples are the items after byte 44 |
| WavDecoder.DecodedHeader | main.py:34-51 | a successful decode reports the channel count at 22, a non-zero rate at 24 and a depth of 16, 32 or 64 at 34. Its duration times its rate is its sample count, and that count is the number of whole bits/8-byte items after byte 44 |
| WavDecoder.DecodedSampleAt | main.py:38-45 | sample i is the two's-complement little-endian integer in the bits/8 bytes at 44 + i*bits/8 |
| WavDecoder.DecodeSucceedsIff | main.py:33-51 | decoding succeeds iff the file reaches byte 36, the depth is 16, 32 or 64, numpy's payload item count is not negative, and the rate is non-zero |
| WavDecoder.EncodeItem | main.py:39-45 | the writer's bytes for one sample read back as that sample |
| WavDecoder.ItemsOfEncode | main.py:39-45 | the items of an encoded sample sequence are those samples, in order |
| WavDecoder.CanonicalHeader | main.py:34-36 | the writer's 44-byte header holds the channel count, rate and depth where the decoder reads them |
| WavDecoder.DecodeCanonical | main.py:23-51 | round trip: decoding a canonical file gives back its channel count, rate, depth and samples, and duration = sample count / rate |
| Bytes.LeUnsignedOfEncode | main.py:34-36 | reading back the n-byte little-endian encoding of a value below 256^n gives the value |
| Bytes.LeEncodeOfUnsigned | main.py:34-36 | encoding the value of a byte sequence gives the sequence back |
| Bytes.ToSigned | main.py:39-45 | a two's-complement reading lies in [-2^(8n-1), 2^(8n-1)), is negative iff the unsigned value has its top bit set, and is congruent to the unsigned value modulo 256^n |
| Bytes.ToUnsigned | main.py:39-45 | inverse of `ToSigned` on the signed range |
| PyStrings.Find | main.py:84 | `str.find` gives -1 iff the character is absent, else an index holding it with no earlier occurrence |
| PyStrings.FindIsFirst | main.py:84 | `find` returns an index no later than any occurrence |
| PyStrings.Slice | main.py:83-84 | Python slicing never fails. It agrees with the exact slice when the bounds are in range, is the slice between the normalised bounds when they are in order, and is empty when the normalised bounds cross or meet |
| PyStrings.Capitalize | main.py:163-164 | `str.capitalize` upper-cases the first character and lower-cases the rest |
| PyStrings.CapitalizeAlikeIff | main.py:163-165 | two strings capitalize alike iff they are equal up to case |
| PyStrings.CapitalizeAll | main.py:163 | the list comprehension capitalizes every part, in order |
| PyStrings.Split | main.py:162 | `str.split` gives at least one piece, and no piece contains the separator |
| PyStrings.JoinOfSplit | main.py:162 | joining the pieces of a split gives the string back |
| PyStrings.SplitOfJoin | main.py:162 | splitting a join of separator-free pieces gives the pieces back |
| PyStrings.ParseInt | main.py:82-84 | `int()` in base 10: it succeeds only on a string that holds a digit and holds only digits, whitespace, signs and `_` |
| PyStrings.ParseIntOfDigits | main.py:82-84 | `int()` of a non-empty digit string is its decimal value, leading zeros included |
| PyStrings.ParseIntOfDecimal | main.py:84 | `int(str(n)) == n` |
| PyStrings.ParseIntRejects | main.py:82-84 | a character that is not a digit, whitespace, a sign or `_` makes `int()` fail |
| PyStrings.ParseIntOfChar | main.py:82 | `int()` of one character succeeds iff it is a digit, and yields its value |
| PyStrings.DecimalValueOfDecimal | main.py:84 | the decimal digits of n read back as n |
| RecordingLoader.ParseRecordingName | main.py:82-84 | the three steps of the name parse: an empty name fails with `EmptyFileName` and only it does. A successful parse starts with a digit, which is its digit field; its speaker is `name[2:4]`; and its index is what `int()` makes of `name[5:name.find(".")]` |
| RecordingLoader.LaidOutPieces | main.py:82-84 | in a laid-out name, the three slices recover the digit character, the alias and the index digits |
| RecordingLoader.ParseLaidOutName | main.py:82-84 | a digit, a separator, a 2-character alias, a separator, decimal digits and then `.` parse into that digit, alias and index |
| RecordingLoader.ParseOfFormat | main.py:82-84 | parsing the conventional file name of (digit, alias, index) gives them back |
| RecordingLoader.ParseExample | main.py:82-84 | `"3_jk_07.wav"` parses to digit 3, speaker `"jk"`, index 7 |
| RecordingLoader.ParseFailures | main.py:82-84 | an empty name fails first. Then the name fails on the digit iff its first character is not a digit. Otherwise it succeeds iff `int()` accepts the index slice, and fails with `InvalidIndex` when `int()` rejects it |
| RecordingLoader.ParseRejectsIndex | main.py:84 | a character `int()` never accepts in the index slice makes the parse fail with the index error |
| RecordingLoader.RecordingOf | main.py:72-86 | `read_recording` as a function: a bad name fails with its error whatever the content; a good name on a file that does not decode fails with the decoder's error. It succeeds iff the name parses and the file decodes; then the fields are the parsed name's and the WAV is `DecodeWav`'s, named after the file |
| RecordingLoader.ReadRecording | main.py:72-86 | `read_recording` parses the name before decoding the file and equals `RecordingOf`. On success its fields are the parsed name's, and its WAV is `DecodeWav`'s |
| Results.Collect | main.py:138-140 | a loop that stops at the first failure succeeds iff every step succeeds, and then yields every value, in order; on failure its error is that of the first step that fails |
| Results.CollectKeepsFirstError | main.py:138-140 | once a prefix of the steps has failed, the later steps do not change the outcome |
| SpeechCorpus.AccentSelection | main.py:159-166 | the selection `add_accent` computes: it succeeds iff every record has a first value (else `MissingAttribute(0)`), and then holds exactly the aliases whose record matches the accent |
| SpeechCorpus.GenderSelection | main.py:193-197 | the selection `add_gender` computes: it succeeds iff every record has a third value (else `MissingAttribute(2)`), and then holds exactly the aliases whose third value equals the gender |
| SpeechCorpus.SelectByAccent | main.py:159-166 | the loop over the metadata keys returns `AccentSelection`. It fails if some record has no first value; otherwise it selects exactly the aliases whose capitalized accent parts contain the capitalized accent |
| SpeechCorpus.SelectByGender | main.py:193-197 | the loop returns `GenderSelection`. It fails if some record has no third value; otherwise it selects exactly the aliases whose third value equals the gender, with no case folding |
| SpeechCorpus.AccentMatchesIff | main.py:161-165 | an alias matches iff some `/`-piece of its first value equals the accent up to case |
| SpeechCorpus.AccentIgnoresCase | main.py:163-165 | the accent selection does not change when the accent is re-cased |
| SpeechCorpus.EnglishInAnyCase | main.py:163-165 | `"english"` and `"ENGLISH"` select the same speakers |
| SpeechCorpus.Decoded | main.py:137-139 | one outcome per file of a directory |
| SpeechCorpus.DecodedAt | main.py:137-139 | outcome i is `read_recording` of file i |
| SpeechCorpus.LoadSpeakerFiles | main.py:137-140 | the inner loop decodes the directory's files in order and returns `LoadFiles`: all recordings, or the first failure |
| SpeechCorpus.Scan | main.py:136-140 | the outer loop along a given order with a given per-speaker loader: a failed scan carries the error of some speaker it scanned |
| SpeechCorpus.LoadSpeakers | main.py:136-140 | the rescan of a dataset directory along a given order: a failed rescan has a speaker scanned whose directory does not decode |
| SpeechCorpus.ScanOk | main.py:136-140 | a scan succeeds iff every speaker scanned loads |
| SpeechCorpus.LoadSpeakersOk | main.py:136-140 | a rescan succeeds iff every `.wav` file of every speaker scanned decodes |
| SpeechCorpus.LoadSpeakersCount | main.py:136-140 | a successful rescan yields one recording per file of the directories scanned |
| SpeechCorpus.ScanExtendsFailure | main.py:136-140 | once the scan has failed, scanning more speakers keeps that error |
| SpeechCorpus.ScanSnoc | main.py:136-140 | a speaker that loads appends its recordings to a successful scan |
| SpeechCorpus.ScanFailsAt | main.py:136-140 | a speaker that fails ends the scan with its error, whatever follows |
| SpeechCorpus.LoadRecordings | main.py:136-140 | the nested loops visit every speaker of the set exactly once, in some order. The result is the load-ordered concatenation of their directories' recordings, or the first failure in that order. Whatever the order, it succeeds iff every file of every speaker decodes, and then holds one recording per file |
| SpeechCorpus.SumOfEnumeration | main.py:136-140 | summing directory sizes along any order of a speaker set gives the same total |
| SpeechCorpus.RebuiltFacts | main.py:136-140 | whatever the order, a rescan of a set succeeds iff every file of every speaker decodes, and then yields one recording per file |
| SpeechCorpus.Aliases | main.py:134 | the aliases passed to `add_speakers`, as a set |
| SpeechCorpus.AddingAliasesTwice | main.py:134 | adding the same aliases twice gives the same speaker set as adding them once |
| SpeechCorpus.OutcomeFacts | main.py:132-144 | a corpus operation succeeds iff every file of the new speaker set decodes; the new corpus then holds one recording per file |
| SpeechCorpus.MakeCorpus | main.py:97-111 | `make_corpus` gives a new corpus on the path with no speakers and no recordings |
| SpeechCorpus.Corpus.constructor | main.py:115-123 | a corpus with the given path, recordings and speakers |
| SpeechCorpus.Corpus.Len | main.py:211-216 | `len(corpus)` is the number of distinct speakers, not of recordings |
| SpeechCorpus.Corpus.RecordingsOfConsistent | main.py:136-140 | a corpus whose recordings are a rescan of its speakers holds one recording per file of those speakers |
| SpeechCorpus.Corpus.RebuildWith | main.py:132-144 | the shared tail of every operation: a fresh corpus on the same path with the new speakers, whose recordings are a rescan of all of them |
| SpeechCorpus.Corpus.AddSpeakers | main.py:125-144 | `add_speakers` leaves `self` unchanged. Its result has speakers `self.speakers ∪ xs`, recordings rescanned for the whole union, and `len` equal to the size of the union. For a corpus whose recordings are a rescan of its speakers, re-adding aliases already present succeeds and keeps the speakers and the number of recordings |
| SpeechCorpus.Corpus.AddAccent | main.py:146-178 | `add_accent` leaves `self` unchanged and fails without metadata or with a record lacking a first value. Otherwise its result has speakers `self.speakers ∪` the selected aliases, all rescanned |
| SpeechCorpus.Corpus.AddGender | main.py:180-209 | `add_gender` leaves `self` unchanged and fails without metadata or with a record lacking a third value. Otherwise its result has speakers `self.speakers ∪` the selected aliases, all rescanned |
| SpeechCorpus.Corpus.Intersect | main.py:218-238 | `a & b` leaves both unchanged, uses `a`'s path and has speakers `a.speakers ∩ b.speakers`, rescanned. It cannot fail on a corpus whose recordings are a rescan of its speakers, and `a & a` keeps the speakers and the number of recordings |

## Left out

- The filesystem: `Path.glob` and `Path.open` are replaced by the `Disk` value. Within a speaker directory the files are taken in the order given; nothing is claimed about that order. A missing speaker directory reads as empty, as `glob` on it yields nothing.
- `read_meta_file` and `json.load`: the metadata arrives already parsed, as alias ↦ attribute values in order. A directory without a `.txt` file gives `MetadataNotFound` where the source raises an `IndexError`. With several `.txt` files the source takes the first in listing order; the model holds one.
- JSON values that are not strings, and records that are not objects, are not modelled.
- The double-precision rounding of `duration`: the model's duration is the exact rational sample count / rate.
- The `NotImplemented` return of `__and__` for a non-`Corpus` argument: in Dafny the argument is always a `Corpus`.
- Unicode: `capitalize` and `int()` are modelled on ASCII only. Non-ASCII letters are not case-folded, and non-ASCII digits are not accepted.
- `int()`'s limit on the number of digits and its other bases are not modelled.
- numpy internals: a numpy array is a `seq<int>`, and the byte order is fixed to little-endian.
- File paths: `Path(file_path).name` is the entry's name as listed, and the dataset path is compared as a string.
- Exceptions are values: each failure is an `Error` constructor, and the program is taken to stop there, as an uncaught exception would.
- SpeechCorpus.LoadRecordings: the iteration order of the Python set is chosen by the model, not computed. Its contract holds for the order it reports, and the count and success facts hold for every order.

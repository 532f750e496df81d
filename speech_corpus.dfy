/**
 * The corpus of main.py (make_corpus and the Corpus class). A corpus holds a dataset path,
 * a set of speaker aliases and the recordings of those speakers. Every operation builds a
 * new corpus: it computes the new speaker set, then rescans the directory of EVERY speaker
 * in that set and decodes each .wav file found there.
 *
 * The filesystem is a parameter: a Disk maps a dataset path to what the directory holds,
 * namely the already-parsed metadata file and, per speaker sub-directory, its .wav files in
 * the order the directory listing yields them.
 */
module SpeechCorpus {
  import opened Results
  import opened Bytes
  import opened PyStrings
  import opened RecordingLoader

  /** The metadata file, parsed: speaker alias -> the values of its attribute record, in order. */
  type Metadata = map<string, seq<string>>

  /** A .wav file in a speaker directory: its name and its bytes. */
  datatype WavEntry = WavEntry(name: string, content: seq<byte>)

  /** A dataset directory: the metadata file if there is one, and the speaker sub-directories. */
  datatype DatasetDir = DatasetDir(meta: Option<Metadata>, speakerDirs: map<string, seq<WavEntry>>)

  type Disk = map<string, DatasetDir>

  /** The directory at a path; a path that does not exist reads as an empty directory. */
  function DirAt(disk: Disk, path: string): DatasetDir
  {
    if path in disk then disk[path] else DatasetDir(None, map[])
  }

  /** The .wav files of one speaker; a missing sub-directory has none. */
  function SpeakerFiles(dir: DatasetDir, speaker: string): seq<WavEntry>
  {
    if speaker in dir.speakerDirs then dir.speakerDirs[speaker] else []
  }

  // ---------------------------------------------------------------------------------------
  // Selecting speakers from the metadata
  // ---------------------------------------------------------------------------------------

  /** The first attribute value, split on '/' and capitalized, contains the capitalized accent. */
  predicate AccentMatches(attrs: seq<string>, accent: string)
  {
    |attrs| >= 1 && Capitalize(accent) in CapitalizeAll(Split(attrs[0], '/'))
  }

  /** The aliases add_accent selects; it fails if some record has no first value. */
  function AccentSelection(meta: Metadata, accent: string): (r: Result<set<string>>)
    ensures r.Ok? <==> forall a :: a in meta ==> |meta[a]| >= 1
    ensures r.Err? ==> r.error == MissingAttribute(0)
    ensures r.Ok? ==> forall a :: a in r.value <==> a in meta && AccentMatches(meta[a], accent)
  {
    if exists a :: a in meta && |meta[a]| < 1 then Err(MissingAttribute(0))
    else Ok(set a | a in meta && AccentMatches(meta[a], accent))
  }

  /** The third attribute value equals the gender exactly, with no case folding. */
  predicate GenderMatches(attrs: seq<string>, gender: string)
  {
    |attrs| >= 3 && attrs[2] == gender
  }

  /** The aliases add_gender selects; it fails if some record has no third value. */
  function GenderSelection(meta: Metadata, gender: string): (r: Result<set<string>>)
    ensures r.Ok? <==> forall a :: a in meta ==> |meta[a]| >= 3
    ensures r.Err? ==> r.error == MissingAttribute(2)
    ensures r.Ok? ==> forall a :: a in r.value <==> a in meta && |meta[a]| >= 3 && meta[a][2] == gender
  {
    if exists a :: a in meta && |meta[a]| < 3 then Err(MissingAttribute(2))
    else Ok(set a | a in meta && GenderMatches(meta[a], gender))
  }

  /** A record with no first value makes the accent selection fail. */
  lemma AccentSelectionFails(meta: Metadata, accent: string, alias: string)
    requires alias in meta && |meta[alias]| < 1
    ensures AccentSelection(meta, accent) == Err(MissingAttribute(0))
  {
  }

  /** When every record has a first value, the accent selection is the set of matching aliases. */
  lemma AccentSelectionSucceeds(meta: Metadata, accent: string)
    requires forall a :: a in meta ==> |meta[a]| >= 1
    ensures AccentSelection(meta, accent) == Ok(set a | a in meta && AccentMatches(meta[a], accent))
  {
  }

  /** Visiting one more key adds it to the selection exactly when its record matches. */
  lemma AccentStep(meta: Metadata, accent: string, todo: set<string>, selected: set<string>, alias: string)
    requires alias in todo && todo <= meta.Keys
    requires selected == set a | a in meta && a !in todo && AccentMatches(meta[a], accent)
    ensures (if AccentMatches(meta[alias], accent) then selected + {alias} else selected)
         == set a | a in meta && a !in todo - {alias} && AccentMatches(meta[a], accent)
  {
  }

  /** The selection loop of add_accent over the metadata keys. */
  method SelectByAccent(meta: Metadata, accent: string) returns (r: Result<set<string>>)
    ensures r == AccentSelection(meta, accent)
  {
    var newSpeakers: set<string> := {};
    var todo := meta.Keys;
    while todo != {}
      invariant todo <= meta.Keys
      invariant forall a :: a in meta && a !in todo ==> |meta[a]| >= 1
      invariant newSpeakers == set a | a in meta && a !in todo && AccentMatches(meta[a], accent)
      decreases todo
    {
      var alias :| alias in todo;
      var attrs := meta[alias];
      if |attrs| < 1 {
        AccentSelectionFails(meta, accent, alias);
        return Err(MissingAttribute(0));
      }
      var parts := Split(attrs[0], '/');
      var capitalized := CapitalizeAll(parts);
      var accentCap := Capitalize(accent);
      assert accentCap in capitalized <==> AccentMatches(meta[alias], accent);
      AccentStep(meta, accent, todo, newSpeakers, alias);
      if accentCap in capitalized {
        newSpeakers := newSpeakers + {alias};
      }
      todo := todo - {alias};
    }
    assert newSpeakers == set a | a in meta && AccentMatches(meta[a], accent);
    AccentSelectionSucceeds(meta, accent);
    r := Ok(newSpeakers);
  }

  /** A record with no third value makes the gender selection fail. */
  lemma GenderSelectionFails(meta: Metadata, gender: string, alias: string)
    requires alias in meta && |meta[alias]| < 3
    ensures GenderSelection(meta, gender) == Err(MissingAttribute(2))
  {
  }

  /** When every record has a third value, the gender selection is the set of matching aliases. */
  lemma GenderSelectionSucceeds(meta: Metadata, gender: string)
    requires forall a :: a in meta ==> |meta[a]| >= 3
    ensures GenderSelection(meta, gender) == Ok(set a | a in meta && GenderMatches(meta[a], gender))
  {
  }

  /** The selection loop of add_gender over the metadata keys. */
  method SelectByGender(meta: Metadata, gender: string) returns (r: Result<set<string>>)
    ensures r == GenderSelection(meta, gender)
  {
    var newSpeakers: set<string> := {};
    var todo := meta.Keys;
    while todo != {}
      invariant todo <= meta.Keys
      invariant forall a :: a in meta && a !in todo ==> |meta[a]| >= 3
      invariant newSpeakers == set a | a in meta && a !in todo && GenderMatches(meta[a], gender)
      decreases todo
    {
      var alias :| alias in todo;
      var attrs := meta[alias];
      if |attrs| < 3 {
        GenderSelectionFails(meta, gender, alias);
        return Err(MissingAttribute(2));
      }
      if attrs[2] == gender {
        newSpeakers := newSpeakers + {alias};
      }
      todo := todo - {alias};
    }
    assert newSpeakers == set a | a in meta && GenderMatches(meta[a], gender);
    GenderSelectionSucceeds(meta, gender);
    r := Ok(newSpeakers);
  }

  /** An alias matches an accent exactly when one '/'-piece of its first value equals it up to case. */
  lemma AccentMatchesIff(attrs: seq<string>, accent: string)
    ensures AccentMatches(attrs, accent) <==>
      |attrs| >= 1 && exists p :: p in Split(attrs[0], '/') && LowerAll(p) == LowerAll(accent)
  {
    if |attrs| >= 1 {
      var parts := Split(attrs[0], '/');
      var caps := CapitalizeAll(parts);
      if AccentMatches(attrs, accent) {
        var i :| 0 <= i < |caps| && caps[i] == Capitalize(accent);
        CapitalizeAlikeIff(parts[i], accent);
        assert parts[i] in parts;
      }
      if exists p :: p in parts && LowerAll(p) == LowerAll(accent) {
        var p :| p in parts && LowerAll(p) == LowerAll(accent);
        var i :| 0 <= i < |parts| && parts[i] == p;
        CapitalizeAlikeIff(p, accent);
        assert caps[i] == Capitalize(accent);
      }
    }
  }

  /** The accent selection does not change when the accent is re-cased. */
  lemma AccentIgnoresCase(meta: Metadata, a: string, b: string)
    requires LowerAll(a) == LowerAll(b)
    ensures AccentSelection(meta, a) == AccentSelection(meta, b)
  {
    CapitalizeAlikeIff(a, b);
    forall x | x in meta ensures AccentMatches(meta[x], a) == AccentMatches(meta[x], b) {
    }
    assert (set x | x in meta && AccentMatches(meta[x], a)) == (set x | x in meta && AccentMatches(meta[x], b));
  }

  /** "english" and "ENGLISH" select the same speakers. */
  lemma EnglishInAnyCase(meta: Metadata)
    ensures AccentSelection(meta, "english") == AccentSelection(meta, "ENGLISH")
  {
    assert LowerAll("ENGLISH") == LowerAll("english");
    AccentIgnoresCase(meta, "english", "ENGLISH");
  }

  // ---------------------------------------------------------------------------------------
  // Rebuilding the recordings of a speaker set
  // ---------------------------------------------------------------------------------------

  /** The outcome of read_recording on each file of a directory, in order. */
  function Decoded(files: seq<WavEntry>): (rs: seq<Result<Recording>>)
    ensures |rs| == |files|
  {
    if files == [] then []
    else Decoded(files[..|files| - 1]) + [RecordingOf(files[|files| - 1].name, files[|files| - 1].content)]
  }

  lemma {:induction false} DecodedAt(files: seq<WavEntry>, i: nat)
    requires i < |files|
    ensures Decoded(files)[i] == RecordingOf(files[i].name, files[i].content)
  {
    if i < |files| - 1 {
      DecodedAt(files[..|files| - 1], i);
    }
  }

  /** Decoding a directory's files in order; the first failure is the result. */
  function LoadFiles(files: seq<WavEntry>): Result<seq<Recording>>
  {
    Collect(Decoded(files))
  }

  /** Every .wav file of the speaker's directory decodes. */
  predicate Readable(dir: DatasetDir, speaker: string)
  {
    LoadFiles(SpeakerFiles(dir, speaker)).Ok?
  }

  /** The directory sizes summed along a sequence of speakers. */
  function SumFiles(dir: DatasetDir, order: seq<string>): nat
  {
    if order == [] then 0 else SumFiles(dir, order[..|order| - 1]) + |SpeakerFiles(dir, order[|order| - 1])|
  }

  /** What rescanning one speaker yields: the files of its directory, decoded in order. */
  function SpeakerLoader(dir: DatasetDir): string -> Result<seq<Recording>>
  {
    speaker => LoadFiles(SpeakerFiles(dir, speaker))
  }

  /**
   * Scanning speakers in the given order with a per-speaker loader: the concatenation of
   * what each yields; the first speaker that fails ends the scan with its error.
   */
  function Scan(load: string -> Result<seq<Recording>>, order: seq<string>): (r: Result<seq<Recording>>)
    ensures r.Err? ==> exists i :: 0 <= i < |order| && load(order[i]) == Err(r.error)
  {
    if order == [] then Ok([])
    else
      var prev := Scan(load, order[..|order| - 1]);
      var more := load(order[|order| - 1]);
      if prev.Err? then prev
      else if more.Err? then Err(more.error)
      else Ok(prev.value + more.value)
  }

  /** Rescanning the speakers of a dataset directory in the given order. */
  function LoadSpeakers(dir: DatasetDir, order: seq<string>): (r: Result<seq<Recording>>)
    ensures r.Err? ==> exists i :: 0 <= i < |order| && !Readable(dir, order[i])
  {
    var r := Scan(SpeakerLoader(dir), order);
    assert r.Err? ==> exists i :: 0 <= i < |order| && SpeakerLoader(dir)(order[i]) == Err(r.error);
    r
  }

  /** A scan succeeds exactly when every speaker scanned loads. */
  lemma {:induction false} ScanOk(load: string -> Result<seq<Recording>>, order: seq<string>)
    ensures Scan(load, order).Ok? <==> forall i :: 0 <= i < |order| ==> load(order[i]).Ok?
    decreases |order|
  {
    if order != [] {
      var front := order[..|order| - 1];
      ScanOk(load, front);
      assert forall i :: 0 <= i < |front| ==> front[i] == order[i];
    }
  }

  /** A rescan succeeds exactly when every directory scanned decodes. */
  lemma LoadSpeakersOk(dir: DatasetDir, order: seq<string>)
    ensures LoadSpeakers(dir, order).Ok? <==> forall i :: 0 <= i < |order| ==> Readable(dir, order[i])
  {
    ScanOk(SpeakerLoader(dir), order);
  }

  /** A successful scan yields one recording per file of the directories scanned. */
  lemma {:induction false} LoadSpeakersCount(dir: DatasetDir, order: seq<string>)
    requires LoadSpeakers(dir, order).Ok?
    ensures |LoadSpeakers(dir, order).value| == SumFiles(dir, order)
    decreases |order|
  {
    if order != [] {
      LoadSpeakersCount(dir, order[..|order| - 1]);
    }
  }

  /** order lists the elements of s, each once: one possible iteration order of a Python set. */
  ghost predicate IsEnumeration(order: seq<string>, s: set<string>)
  {
    && (forall i, j :: 0 <= i < j < |order| ==> order[i] != order[j])
    && (forall x :: x in order <==> x in s)
  }

  /** The outcome of rescanning every speaker of s, for SOME iteration order of s. */
  ghost predicate Rebuilt(dir: DatasetDir, s: set<string>, res: Result<seq<Recording>>)
  {
    exists order :: IsEnumeration(order, s) && LoadSpeakers(dir, order) == res
  }

  /** Every .wav file of every speaker in s decodes. */
  predicate AllReadable(dir: DatasetDir, s: set<string>)
  {
    forall x :: x in s ==> Readable(dir, x)
  }

  ghost function Pick(s: set<string>): string
    requires s != {}
  {
    var x :| x in s; x
  }

  /** The number of .wav files over the speaker directories of s, independent of any order. */
  ghost function TotalFiles(dir: DatasetDir, s: set<string>): nat
    decreases s
  {
    if s == {} then 0 else |SpeakerFiles(dir, Pick(s))| + TotalFiles(dir, s - {Pick(s)})
  }

  lemma {:induction false} TotalFilesRemove(dir: DatasetDir, s: set<string>, y: string)
    requires y in s
    ensures TotalFiles(dir, s) == |SpeakerFiles(dir, y)| + TotalFiles(dir, s - {y})
    decreases s
  {
    var x := Pick(s);
    if x != y {
      TotalFilesRemove(dir, s - {x}, y);
      TotalFilesRemove(dir, s - {y}, x);
      assert s - {x} - {y} == s - {y} - {x};
    }
  }

  /** Summing the directory sizes along any enumeration of s gives TotalFiles. */
  lemma {:induction false} SumOfEnumeration(dir: DatasetDir, order: seq<string>, s: set<string>)
    requires IsEnumeration(order, s)
    ensures SumFiles(dir, order) == TotalFiles(dir, s)
    decreases |order|
  {
    if order != [] {
      var last := order[|order| - 1];
      var front := order[..|order| - 1];
      assert last in order;
      assert IsEnumeration(front, s - {last}) by {
        forall x ensures x in front <==> x in s - {last} {
          if x in front {
            var i :| 0 <= i < |front| && front[i] == x;
            assert order[i] == x;
          }
          if x in s - {last} {
            var i :| 0 <= i < |order| && order[i] == x;
            assert i < |order| - 1;
            assert front[i] == x;
          }
        }
      }
      SumOfEnumeration(dir, front, s - {last});
      TotalFilesRemove(dir, s, last);
    }
  }

  /** A rescan succeeds exactly when every file decodes, and then yields one recording per file. */
  lemma RebuiltFacts(dir: DatasetDir, s: set<string>, res: Result<seq<Recording>>)
    requires Rebuilt(dir, s, res)
    ensures res.Ok? <==> AllReadable(dir, s)
    ensures res.Ok? ==> |res.value| == TotalFiles(dir, s)
  {
    var order :| IsEnumeration(order, s) && LoadSpeakers(dir, order) == res;
    if AllReadable(dir, s) {
      forall i | 0 <= i < |order| ensures Readable(dir, order[i]) {
        assert order[i] in s;
      }
    }
    LoadSpeakersOk(dir, order);
    if res.Ok? {
      forall x | x in s ensures Readable(dir, x) {
        var i :| 0 <= i < |order| && order[i] == x;
      }
      LoadSpeakersCount(dir, order);
      SumOfEnumeration(dir, order, s);
    }
  }

  ghost function SeqOf(s: set<string>): (order: seq<string>)
    ensures IsEnumeration(order, s)
    decreases s
  {
    if s == {} then []
    else
      var x := Pick(s);
      var rest := SeqOf(s - {x});
      assert forall j :: 0 <= j < |rest| ==> rest[j] != x by {
        forall j | 0 <= j < |rest| ensures rest[j] != x { assert rest[j] in rest; }
      }
      [x] + rest
  }

  lemma AppendEnumerations(p: seq<string>, a: set<string>, q: seq<string>, b: set<string>)
    requires IsEnumeration(p, a) && IsEnumeration(q, b) && a !! b
    ensures IsEnumeration(p + q, a + b)
  {
    var pq := p + q;
    forall i, j | 0 <= i < j < |pq| ensures pq[i] != pq[j] {
      if i < |p| && j >= |p| {
        assert pq[i] in p && pq[j] in q;
        assert pq[i] in a && pq[j] in b;
      }
      if j < |p| { assert pq[i] == p[i] && pq[j] == p[j]; }
      if i >= |p| { assert pq[i] == q[i - |p|] && pq[j] == q[j - |p|]; }
    }
  }

  /** Once a scan has failed, scanning further speakers keeps its error. */
  lemma {:induction false} ScanExtendsFailure(load: string -> Result<seq<Recording>>, p: seq<string>, q: seq<string>)
    requires Scan(load, p).Err?
    ensures Scan(load, p + q) == Scan(load, p)
    decreases |q|
  {
    if q == [] {
      assert p + q == p;
    } else {
      var front := q[..|q| - 1];
      assert (p + q)[..|p + q| - 1] == p + front;
      ScanExtendsFailure(load, p, front);
    }
  }

  /** The inner loop of every corpus operation: each .wav file of one directory, decoded in order. */
  method LoadSpeakerFiles(files: seq<WavEntry>) returns (r: Result<seq<Recording>>)
    ensures r == LoadFiles(files)
  {
    ghost var outcomes := Decoded(files);
    var recordings: seq<Recording> := [];
    var i := 0;
    while i < |files|
      invariant 0 <= i <= |files|
      invariant Collect(outcomes[..i]) == Ok(recordings)
    {
      var recording := ReadRecording(files[i].name, files[i].content);
      DecodedAt(files, i);
      PrefixSnoc(outcomes, i);
      CollectSnoc(outcomes[..i], outcomes[i]);
      if recording.Err? {
        CollectKeepsFirstError(outcomes, i + 1);
        return Err(recording.error);
      }
      recordings := recordings + [recording.value];
      i := i + 1;
    }
    assert outcomes[..|files|] == outcomes;
    r := Ok(recordings);
  }

  /** One more speaker that loads extends a successful scan. */
  lemma ScanSnoc(load: string -> Result<seq<Recording>>, order: seq<string>, speaker: string,
                 before: seq<Recording>, more: seq<Recording>)
    requires Scan(load, order) == Ok(before) && load(speaker) == Ok(more)
    ensures Scan(load, order + [speaker]) == Ok(before + more)
  {
    assert (order + [speaker])[..|order|] == order;
  }

  /** One more speaker that fails ends a successful scan with that failure, whatever follows. */
  lemma ScanFailsAt(load: string -> Result<seq<Recording>>, order: seq<string>, speaker: string,
                    others: seq<string>, e: Error)
    requires Scan(load, order).Ok? && load(speaker) == Err(e)
    ensures Scan(load, order + [speaker] + others) == Err(e)
  {
    var done := order + [speaker];
    assert done[..|done| - 1] == order;
    ScanExtendsFailure(load, done, others);
  }

  /** A speaker not yet listed, appended to an enumeration. */
  lemma EnumerationSnoc(order: seq<string>, done: set<string>, speaker: string)
    requires IsEnumeration(order, done) && speaker !in done
    ensures IsEnumeration(order + [speaker], done + {speaker})
  {
    AppendEnumerations(order, done, [speaker], {speaker});
  }

  /** The enumeration the scan reports when it stops at speaker: the rest in any order. */
  lemma EnumerationOnFailure(order: seq<string>, speakers: set<string>, rest: set<string>, speaker: string)
    requires rest <= speakers && speaker in rest && IsEnumeration(order, speakers - rest)
    ensures IsEnumeration(order + [speaker] + SeqOf(rest - {speaker}), speakers)
  {
    EnumerationSnoc(order, speakers - rest, speaker);
    AppendEnumerations(order + [speaker], speakers - rest + {speaker}, SeqOf(rest - {speaker}), rest - {speaker});
    assert speakers - rest + {speaker} + (rest - {speaker}) == speakers;
  }

  /** RebuiltFacts for one given enumeration. */
  lemma EnumerationFacts(dir: DatasetDir, s: set<string>, order: seq<string>)
    requires IsEnumeration(order, s)
    ensures LoadSpeakers(dir, order).Ok? <==> AllReadable(dir, s)
    ensures LoadSpeakers(dir, order).Ok? ==> |LoadSpeakers(dir, order).value| == TotalFiles(dir, s)
  {
    assert Rebuilt(dir, s, LoadSpeakers(dir, order));
    RebuiltFacts(dir, s, LoadSpeakers(dir, order));
  }

  /**
   * The outer loop of every corpus operation: each speaker of the set, in the set's
   * iteration order, has its directory decoded and appended. A file that fails to decode
   * ends the scan with its error. The ghost out-parameter is an iteration order of the set
   * that starts with the speakers visited.
   */
  method LoadRecordings(dir: DatasetDir, speakers: set<string>)
    returns (r: Result<seq<Recording>>, ghost order: seq<string>)
    ensures IsEnumeration(order, speakers)
    ensures r == LoadSpeakers(dir, order)
    ensures r.Ok? <==> AllReadable(dir, speakers)
    ensures r.Ok? ==> |r.value| == TotalFiles(dir, speakers)
  {
    var recordings: seq<Recording> := [];
    var rest := speakers;
    order := [];
    while rest != {}
      invariant rest <= speakers
      invariant IsEnumeration(order, speakers - rest)
      invariant LoadSpeakers(dir, order) == Ok(recordings)
      decreases rest
    {
      var speaker :| speaker in rest;
      var loaded := LoadSpeakerFiles(SpeakerFiles(dir, speaker));
      if loaded.Err? {
        ScanFailsAt(SpeakerLoader(dir), order, speaker, SeqOf(rest - {speaker}), loaded.error);
        EnumerationOnFailure(order, speakers, rest, speaker);
        order := order + [speaker] + SeqOf(rest - {speaker});
        EnumerationFacts(dir, speakers, order);
        return Err(loaded.error), order;
      }
      ScanSnoc(SpeakerLoader(dir), order, speaker, recordings, loaded.value);
      EnumerationSnoc(order, speakers - rest, speaker);
      assert speakers - rest + {speaker} == speakers - (rest - {speaker});
      recordings := recordings + loaded.value;
      order := order + [speaker];
      rest := rest - {speaker};
    }
    assert speakers - rest == speakers;
    r := Ok(recordings);
    EnumerationFacts(dir, speakers, order);
  }

  // ---------------------------------------------------------------------------------------
  // The corpus
  // ---------------------------------------------------------------------------------------

  /** s as a set: the aliases passed to add_speakers. */
  function Aliases(xs: seq<string>): (s: set<string>)
    ensures forall x :: x in s <==> x in xs
  {
    set x | x in xs
  }

  /** Adding aliases that are already present changes nothing; so adding twice equals adding once. */
  lemma AddingAliasesTwice(s: set<string>, xs: seq<string>)
    ensures (s + Aliases(xs)) + Aliases(xs) == s + Aliases(xs)
  {
  }

  /**
   * What a corpus-returning operation produced: on success a corpus on the given path with
   * the given speakers, and in every case the result of rescanning those speakers' files
   * in some iteration order of the set.
   */
  ghost predicate Outcome(dir: DatasetDir, path: string, s: set<string>, r: Result<Corpus>)
    reads if r.Ok? then {r.value} else {}
  {
    && (r.Ok? ==> r.value.datasetPath == path && r.value.speakers == s)
    && Rebuilt(dir, s, if r.Ok? then Ok(r.value.recordings) else Err(r.error))
  }

  /** An outcome succeeds exactly when every file decodes, with one recording per file. */
  lemma OutcomeFacts(dir: DatasetDir, path: string, s: set<string>, r: Result<Corpus>)
    requires Outcome(dir, path, s, r)
    ensures r.Ok? <==> AllReadable(dir, s)
    ensures r.Ok? ==> |r.value.recordings| == TotalFiles(dir, s)
  {
    RebuiltFacts(dir, s, if r.Ok? then Ok(r.value.recordings) else Err(r.error));
  }

  /** make_corpus: an empty corpus on a dataset path. */
  method MakeCorpus(datasetPath: string) returns (c: Corpus)
    ensures fresh(c)
    ensures c.datasetPath == datasetPath && c.recordings == [] && c.speakers == {}
  {
    c := new Corpus(datasetPath, [], {});
  }

  class Corpus {
    const datasetPath: string
    var recordings: seq<Recording>
    var speakers: set<string>

    constructor (datasetPath: string, recordings: seq<Recording>, speakers: set<string>)
      ensures this.datasetPath == datasetPath
      ensures this.recordings == recordings && this.speakers == speakers
    {
      this.datasetPath := datasetPath;
      this.recordings := recordings;
      this.speakers := speakers;
    }

    /** The recordings are what rescanning the speakers' directories on this disk yields. */
    ghost predicate Consistent(disk: Disk)
      reads this
    {
      Rebuilt(DirAt(disk, datasetPath), speakers, Ok(recordings))
    }

    /** len(corpus): the number of distinct speakers, not the number of recordings. */
    function Len(): (n: nat)
      reads this
      ensures n == |speakers|
    {
      |speakers|
    }

    /** A consistent corpus holds one recording per .wav file of its speakers. */
    lemma RecordingsOfConsistent(disk: Disk)
      requires Consistent(disk)
      ensures AllReadable(DirAt(disk, datasetPath), speakers)
      ensures |recordings| == TotalFiles(DirAt(disk, datasetPath), speakers)
    {
      RebuiltFacts(DirAt(disk, datasetPath), speakers, Ok(recordings));
    }

    /** The shared tail of every operation: a fresh corpus with these speakers, rescanned. */
    method RebuildWith(newSpeakers: set<string>, disk: Disk) returns (r: Result<Corpus>)
      ensures r.Ok? ==> fresh(r.value)
      ensures Outcome(DirAt(disk, datasetPath), datasetPath, newSpeakers, r)
      ensures r.Ok? <==> AllReadable(DirAt(disk, datasetPath), newSpeakers)
      ensures r.Ok? ==> |r.value.recordings| == TotalFiles(DirAt(disk, datasetPath), newSpeakers)
    {
      var newCorpus := MakeCorpus(datasetPath);
      newCorpus.speakers := newSpeakers;
      var loaded;
      ghost var order;
      loaded, order := LoadRecordings(DirAt(disk, newCorpus.datasetPath), newCorpus.speakers);
      if loaded.Err? {
        r := Err(loaded.error);
        assert IsEnumeration(order, newSpeakers) && LoadSpeakers(DirAt(disk, datasetPath), order) == Err(r.error);
      } else {
        newCorpus.recordings := newCorpus.recordings + loaded.value;
        var c := new Corpus(newCorpus.datasetPath, newCorpus.recordings, newCorpus.speakers);
        r := Ok(c);
        assert c.recordings == loaded.value;
        assert IsEnumeration(order, newSpeakers) && LoadSpeakers(DirAt(disk, datasetPath), order) == Ok(r.value.recordings);
      }
      assert Rebuilt(DirAt(disk, datasetPath), newSpeakers, if r.Ok? then Ok(r.value.recordings) else Err(r.error));
      OutcomeFacts(DirAt(disk, datasetPath), datasetPath, newSpeakers, r);
    }

    /**
     * add_speakers: speakers ∪ aliases, every directory rescanned. Adding aliases the corpus
     * already has gives the same speakers and as many recordings.
     */
    method AddSpeakers(xs: seq<string>, disk: Disk) returns (r: Result<Corpus>)
      ensures unchanged(this)
      ensures r.Ok? ==> fresh(r.value)
      ensures Outcome(DirAt(disk, datasetPath), datasetPath, speakers + Aliases(xs), r)
      ensures r.Ok? <==> AllReadable(DirAt(disk, datasetPath), speakers + Aliases(xs))
      ensures r.Ok? ==> r.value.Len() == |speakers + Aliases(xs)|
      ensures Aliases(xs) <= speakers && Consistent(disk) ==>
        r.Ok? && r.value.speakers == speakers && |r.value.recordings| == |recordings|
    {
      r := RebuildWith(speakers + Aliases(xs), disk);
      if Aliases(xs) <= speakers && Consistent(disk) {
        RecordingsOfConsistent(disk);
        assert speakers + Aliases(xs) == speakers;
      }
    }

    /** add_accent: speakers ∪ the aliases whose accent list names the accent, up to case. */
    method AddAccent(accent: string, disk: Disk) returns (r: Result<Corpus>)
      ensures unchanged(this)
      ensures r.Ok? ==> fresh(r.value)
      ensures DirAt(disk, datasetPath).meta.None? ==> r == Err(MetadataNotFound)
      ensures DirAt(disk, datasetPath).meta.Some? ==>
        var selection := AccentSelection(DirAt(disk, datasetPath).meta.value, accent);
        && (selection.Err? ==> r == Err(selection.error))
        && (selection.Ok? ==> Outcome(DirAt(disk, datasetPath), datasetPath, speakers + selection.value, r))
    {
      var dir := DirAt(disk, datasetPath);
      if dir.meta.None? {
        return Err(MetadataNotFound);
      }
      var selection := SelectByAccent(dir.meta.value, accent);
      if selection.Err? {
        return Err(selection.error);
      }
      r := RebuildWith(speakers + selection.value, disk);
    }

    /** add_gender: speakers ∪ the aliases whose third attribute value is exactly the gender. */
    method AddGender(gender: string, disk: Disk) returns (r: Result<Corpus>)
      ensures unchanged(this)
      ensures r.Ok? ==> fresh(r.value)
      ensures DirAt(disk, datasetPath).meta.None? ==> r == Err(MetadataNotFound)
      ensures DirAt(disk, datasetPath).meta.Some? ==>
        var selection := GenderSelection(DirAt(disk, datasetPath).meta.value, gender);
        && (selection.Err? ==> r == Err(selection.error))
        && (selection.Ok? ==> Outcome(DirAt(disk, datasetPath), datasetPath, speakers + selection.value, r))
    {
      var dir := DirAt(disk, datasetPath);
      if dir.meta.None? {
        return Err(MetadataNotFound);
      }
      var selection := SelectByGender(dir.meta.value, gender);
      if selection.Err? {
        return Err(selection.error);
      }
      r := RebuildWith(speakers + selection.value, disk);
    }

    /**
     * corpus & other: the common speakers, rescanned under this corpus's dataset path.
     * It cannot fail on a consistent corpus, and a consistent corpus intersected with
     * itself keeps its speakers and its number of recordings.
     */
    method Intersect(other: Corpus, disk: Disk) returns (r: Result<Corpus>)
      ensures unchanged(this, other)
      ensures r.Ok? ==> fresh(r.value)
      ensures Outcome(DirAt(disk, datasetPath), datasetPath, speakers * other.speakers, r)
      ensures Consistent(disk) ==> r.Ok?
      ensures other == this && Consistent(disk) ==>
        r.Ok? && r.value.speakers == speakers && |r.value.recordings| == |recordings|
    {
      r := RebuildWith(speakers * other.speakers, disk);
      if Consistent(disk) {
        RecordingsOfConsistent(disk);
        assert speakers * speakers == speakers;
      }
    }
  }
}

/**
 * The recording loader of main.py (read_recording and the Recording record): the digit,
 * speaker and index are cut out of the file name by position, and the file is decoded.
 */
module RecordingLoader {
  import opened Results
  import opened PyStrings
  import opened Bytes
  import opened WavDecoder

  datatype Recording = Recording(digit: int, index: int, speaker: string, wav: WavFile)

  /** The three fields a file name yields. */
  datatype RecordingName = RecordingName(digit: int, speaker: string, index: int)

  /**
   * int(name[0]), name[2:4] and int(name[5:name.find(".")]), in that order. The speaker slice
   * never fails (a short name gives a shorter or empty alias); when the name has no '.' the
   * slice ends one character before the end, as find returns -1.
   */
  function ParseRecordingName(name: string): (r: Result<RecordingName>)
    ensures r == Err(EmptyFileName) <==> |name| == 0
    ensures r.Ok? ==> IsDigit(name[0]) && r.value.digit == DigitValue(name[0])
    ensures r.Ok? ==> r.value.speaker == Slice(name, 2, 4)
    ensures r.Ok? ==> ParseInt(Slice(name, 5, Find(name, '.'))) == Some(r.value.index)
  {
    if |name| == 0 then Err(EmptyFileName)
    else
      ParseIntOfChar(name[0]);
      match ParseInt([name[0]])
      case None => Err(InvalidDigit)
      case Some(digit) =>
        var speaker := Slice(name, 2, 4);
        match ParseInt(Slice(name, 5, Find(name, '.')))
        case None => Err(InvalidIndex)
        case Some(index) => Ok(RecordingName(digit, speaker, index))
  }

  /** The name parser's partner: the file name the corpus convention gives a recording. */
  function FormatRecordingName(digit: nat, speaker: string, index: nat): string
    requires digit < 10
  {
    [DigitChar(digit)] + "_" + speaker + "_" + Decimal(index) + ".wav"
  }

  /** The parse, from what its three steps yield. */
  lemma ParseFromParts(name: string, digit: int, speaker: string, index: int)
    requires |name| > 0 && ParseInt([name[0]]) == Some(digit)
    requires Slice(name, 2, 4) == speaker && ParseInt(Slice(name, 5, Find(name, '.'))) == Some(index)
    ensures ParseRecordingName(name) == Ok(RecordingName(digit, speaker, index))
  {
  }

  /** In a name whose first '.' is at dot, find returns dot. */
  lemma FindFirstDot(name: string, dot: nat)
    requires dot < |name| && name[dot] == '.' && forall i :: 0 <= i < dot ==> name[i] != '.'
    ensures Find(name, '.') == dot
  {
    FindIsFirst(name, '.', dot);
  }

  /** Where the pieces of a laid-out name are found by the three steps of the parse. */
  lemma LaidOutPieces(name: string, d: char, sep1: char, speaker: string, sep2: char, digits: string, ext: string)
    requires name == [d, sep1] + speaker + [sep2] + digits + "." + ext
    requires |speaker| == 2 && d != '.' && sep1 != '.' && sep2 != '.' && '.' !in speaker && '.' !in digits
    ensures |name| > 0 && [name[0]] == [d]
    ensures Slice(name, 2, 4) == speaker
    ensures Slice(name, 5, Find(name, '.')) == digits
  {
    var dot := 5 + |digits|;
    assert name[2..4] == speaker;
    forall i | 0 <= i < dot ensures name[i] != '.' {
      if 2 <= i < 4 { assert name[i] == speaker[i - 2] && speaker[i - 2] in speaker; }
      if 5 <= i { assert name[i] == digits[i - 5] && digits[i - 5] in digits; }
    }
    FindFirstDot(name, dot);
    assert name[5..dot] == digits;
  }

  /**
   * Any name laid out as digit, one character, a two-character alias, one character,
   * decimal digits and a '.' parses into that digit, alias and index.
   */
  lemma ParseLaidOutName(d: char, sep1: char, speaker: string, sep2: char, digits: string, ext: string)
    requires IsDigit(d) && |speaker| == 2 && |digits| > 0 && AllDigits(digits)
    requires sep1 != '.' && sep2 != '.' && '.' !in speaker
    ensures ParseRecordingName([d, sep1] + speaker + [sep2] + digits + "." + ext)
         == Ok(RecordingName(DigitValue(d), speaker, DecimalValue(digits)))
  {
    var name := [d, sep1] + speaker + [sep2] + digits + "." + ext;
    assert '.' !in digits by {
      forall i | 0 <= i < |digits| ensures digits[i] != '.' { assert IsDigit(digits[i]); }
    }
    LaidOutPieces(name, d, sep1, speaker, sep2, digits, ext);
    ParseIntOfChar(d);
    ParseIntOfDigits(digits);
    ParseFromParts(name, DigitValue(d), speaker, DecimalValue(digits));
  }

  /** Parsing a formatted name gives back its digit, alias and index. */
  lemma ParseOfFormat(digit: nat, speaker: string, index: nat)
    requires digit < 10 && |speaker| == 2 && '.' !in speaker
    ensures ParseRecordingName(FormatRecordingName(digit, speaker, index))
         == Ok(RecordingName(digit, speaker, index))
  {
    assert FormatRecordingName(digit, speaker, index)
        == [DigitChar(digit), '_'] + speaker + ['_'] + Decimal(index) + "." + "wav";
    ParseLaidOutName(DigitChar(digit), '_', speaker, '_', Decimal(index), "wav");
    DecimalValueOfDecimal(index);
  }

  /** "3_jk_07.wav" is digit 3, speaker "jk", index 7. */
  lemma ParseExample()
    ensures ParseRecordingName("3_jk_07.wav") == Ok(RecordingName(3, "jk", 7))
  {
    assert "3_jk_07.wav" == ['3', '_'] + "jk" + ['_'] + "07" + "." + "wav";
    ParseLaidOutName('3', '_', "jk", '_', "07", "wav");
    LeadingZero();
  }

  /** The index digits "07" are worth 7. */
  lemma LeadingZero()
    ensures DecimalValue("07") == 7
  {
    assert "07"[..1] == "0";
    assert "0"[..0] == "";
  }

  /** Which failure a name produces: empty name, bad first character, bad index slice. */
  lemma ParseFailures(name: string)
    ensures ParseRecordingName(name) == Err(EmptyFileName) <==> |name| == 0
    ensures |name| > 0 ==> (ParseRecordingName(name) == Err(InvalidDigit) <==> !IsDigit(name[0]))
    ensures |name| > 0 && IsDigit(name[0]) ==>
      (ParseRecordingName(name).Ok? <==> ParseInt(Slice(name, 5, Find(name, '.'))).Some?)
    ensures |name| > 0 && IsDigit(name[0]) && ParseInt(Slice(name, 5, Find(name, '.'))).None? ==>
      ParseRecordingName(name) == Err(InvalidIndex)
  {
    if |name| > 0 {
      ParseIntOfChar(name[0]);
    }
  }

  /** A character in the index slice that int() can never accept makes the parse fail. */
  lemma ParseRejectsIndex(name: string, i: nat)
    requires |name| > 0 && IsDigit(name[0])
    requires var slice := Slice(name, 5, Find(name, '.'));
      i < |slice| && !IsDigit(slice[i]) && !IsSpace(slice[i])
      && slice[i] != '+' && slice[i] != '-' && slice[i] != '_'
    ensures ParseRecordingName(name) == Err(InvalidIndex)
  {
    ParseIntOfChar(name[0]);
    ParseIntRejects(Slice(name, 5, Find(name, '.')), i);
  }

  /** read_recording on a file with this name and content: the name first, then the file. */
  function RecordingOf(name: string, content: seq<byte>): (r: Result<Recording>)
    ensures ParseRecordingName(name).Err? ==> r == Err(ParseRecordingName(name).error)
    ensures ParseRecordingName(name).Ok? && DecodeWav(name, content).Err? ==> r == Err(DecodeWav(name, content).error)
    ensures r.Ok? ==> ParseRecordingName(name) == Ok(RecordingName(r.value.digit, r.value.speaker, r.value.index))
    ensures r.Ok? ==> DecodeWav(name, content) == Ok(r.value.wav) && r.value.wav.fileName == name
    ensures r.Ok? <==> ParseRecordingName(name).Ok? && DecodeWav(name, content).Ok?
  {
    match ParseRecordingName(name)
    case Err(e) => Err(e)
    case Ok(n) =>
      match DecodeWav(name, content)
      case Err(e) => Err(e)
      case Ok(wav) => Ok(Recording(n.digit, n.index, n.speaker, wav))
  }

  /** read_recording, decoding the file with the cursor-driven ReadWavFile. */
  method ReadRecording(name: string, content: seq<byte>) returns (r: Result<Recording>)
    ensures r == RecordingOf(name, content)
    ensures r.Ok? ==> ParseRecordingName(name) == Ok(RecordingName(r.value.digit, r.value.speaker, r.value.index))
    ensures r.Ok? ==> DecodeWav(name, content) == Ok(r.value.wav)
  {
    var n :- ParseRecordingName(name);
    var wav :- ReadWavFile(name, content);
    r := Ok(Recording(n.digit, n.index, n.speaker, wav));
  }
}

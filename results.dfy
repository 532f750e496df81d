/** Failure values shared by the WAV decoder, the recording loader and the corpus. */
module Results {

  /** The exceptions the Python code raises, one constructor per kind of failure. */
  datatype Error =
    | TruncatedHeader              // int() of an empty numpy array: a header field lies past the end of the file
    | NegativeDimensions           // np.fromfile(count=-1) with the cursor a whole item or more past the end
    | UnsupportedBitDepth(bits: int) // `data` is never bound, so the duration line fails
    | ZeroSampleRate               // division by a sample rate of zero in the duration line
    | EmptyFileName                // name[0] of an empty file name
    | InvalidDigit                 // int() rejects the first character of the file name
    | InvalidIndex                 // int() rejects the index slice of the file name
    | MetadataNotFound             // the dataset directory holds no metadata file
    | MissingAttribute(position: nat) // a speaker's attribute record has no value at this position

  datatype Option<T> = None | Some(value: T)

  datatype Result<T> = Ok(value: T) | Err(error: Error) {
    predicate IsFailure() { Err? }

    function PropagateFailure<U>(): Result<U>
      requires Err?
    {
      Err(error)
    }

    function Extract(): T
      requires Ok?
    {
      value
    }
  }

  /**
   * The values of a sequence of outcomes computed one after another by a loop that stops
   * at the first failure: all values when every outcome succeeds, else the first error.
   */
  function Collect<T>(rs: seq<Result<T>>): (r: Result<seq<T>>)
    ensures r.Ok? <==> forall i :: 0 <= i < |rs| ==> rs[i].Ok?
    ensures r.Ok? ==> |r.value| == |rs|
    ensures r.Ok? ==> forall i :: 0 <= i < |rs| ==> r.value[i] == rs[i].value
    ensures r.Err? ==> exists i :: 0 <= i < |rs| && rs[i] == Err(r.error) && forall j :: 0 <= j < i ==> rs[j].Ok?
  {
    if rs == [] then Ok([])
    else
      var front := rs[..|rs| - 1];
      var prev := Collect(front);
      assert forall i :: 0 <= i < |front| ==> front[i] == rs[i];
      if prev.Err? then prev
      else if rs[|rs| - 1].Err? then Err(rs[|rs| - 1].error)
      else Ok(prev.value + [rs[|rs| - 1].value])
  }

  /** A prefix one longer is the prefix and the next element. */
  lemma PrefixSnoc<T>(s: seq<T>, i: nat)
    requires i < |s|
    ensures s[..i + 1] == s[..i] + [s[i]]
  {
  }

  /** One more outcome after a run of successes: its value is appended, or its error ends the run. */
  lemma CollectSnoc<T>(rs: seq<Result<T>>, x: Result<T>)
    requires Collect(rs).Ok?
    ensures Collect(rs + [x]) == if x.Ok? then Ok(Collect(rs).value + [x.value]) else Err(x.error)
  {
    assert (rs + [x])[..|rs|] == rs;
  }

  /** Once a prefix has failed, the outcomes after it do not matter: its error is the result. */
  lemma {:induction false} CollectKeepsFirstError<T>(rs: seq<Result<T>>, i: nat)
    requires i <= |rs| && Collect(rs[..i]).Err?
    ensures Collect(rs) == Collect(rs[..i])
    decreases |rs|
  {
    if i < |rs| {
      var front := rs[..|rs| - 1];
      assert front[..i] == rs[..i];
      CollectKeepsFirstError(front, i);
    } else {
      assert rs[..i] == rs;
    }
  }
}

/**
 * The Python str operations the loader and the corpus rely on, restricted to ASCII:
 * str.find, slicing with clamped and negative indices, str.capitalize, str.split and int().
 */
module PyStrings {
  import opened Results

  /** str.find for one character: the first index of c in s, or -1. */
  function Find(s: string, c: char): (k: int)
    ensures -1 <= k < |s|
    ensures k == -1 <==> c !in s
    ensures k >= 0 ==> s[k] == c && c !in s[..k]
  {
    if s == [] then -1
    else if s[0] == c then 0
    else
      var k := Find(s[1..], c);
      assert s[1..][..k + 1] == s[1..k + 2] by { assert k >= -1; }
      if k == -1 then -1 else k + 1
  }

  /** find returns an index no later than any occurrence. */
  lemma {:induction false} FindIsFirst(s: string, c: char, i: nat)
    requires i < |s| && s[i] == c
    ensures 0 <= Find(s, c) <= i
  {
    if s[0] != c {
      FindIsFirst(s[1..], c, i - 1);
    }
  }

  /** Python's normalisation of a slice bound: negative counts from the end; then clamped. */
  function SliceBound(i: int, n: nat): (j: nat)
    ensures j <= n
    ensures 0 <= i <= n ==> j == i
    ensures i > n ==> j == n
  {
    var k := if i < 0 then i + n else i;
    if k < 0 then 0 else if k > n then n else k
  }

  /** s[start:stop]: never fails; empty when the normalised bounds cross. */
  function Slice(s: string, start: int, stop: int): (r: string)
    ensures 0 <= start <= stop <= |s| ==> r == s[start..stop]
    ensures start >= |s| || stop == 0 ==> r == []
    ensures SliceBound(start, |s|) < SliceBound(stop, |s|) ==>
      r == s[SliceBound(start, |s|)..SliceBound(stop, |s|)]
    ensures SliceBound(start, |s|) >= SliceBound(stop, |s|) ==> r == []
    ensures |r| <= |s|
  {
    var a := SliceBound(start, |s|);
    var b := SliceBound(stop, |s|);
    if a < b then s[a..b] else []
  }

  function Upper(c: char): char {
    if 'a' <= c <= 'z' then (c as int - 32) as char else c
  }

  function Lower(c: char): char {
    if 'A' <= c <= 'Z' then (c as int + 32) as char else c
  }

  /** Two characters are equal up to case exactly when their upper-case forms are equal. */
  lemma UpperLowerAgree(x: char, y: char)
    ensures Upper(x) == Upper(y) <==> Lower(x) == Lower(y)
  {
  }

  function LowerAll(s: string): (r: string)
    ensures |r| == |s| && forall i :: 0 <= i < |s| ==> r[i] == Lower(s[i])
  {
    if s == [] then [] else [Lower(s[0])] + LowerAll(s[1..])
  }

  /** str.capitalize: first character upper case, the rest lower case. */
  function Capitalize(s: string): (r: string)
    ensures |r| == |s|
    ensures |s| > 0 ==> r[0] == Upper(s[0])
    ensures forall i :: 0 < i < |s| ==> r[i] == Lower(s[i])
  {
    if s == [] then [] else [Upper(s[0])] + LowerAll(s[1..])
  }

  /** Two strings capitalize alike exactly when they are equal up to case. */
  lemma CapitalizeAlikeIff(a: string, b: string)
    ensures Capitalize(a) == Capitalize(b) <==> LowerAll(a) == LowerAll(b)
  {
    if |a| == |b| && |a| > 0 {
      UpperLowerAgree(a[0], b[0]);
      if LowerAll(a) == LowerAll(b) {
        forall i | 0 <= i < |a| ensures Capitalize(a)[i] == Capitalize(b)[i] {
          assert Lower(a[i]) == Lower(b[i]);
          if i == 0 { UpperLowerAgree(a[0], b[0]); }
        }
      } else {
        var i :| 0 <= i < |a| && LowerAll(a)[i] != LowerAll(b)[i];
        if i == 0 {
          assert Capitalize(a)[0] != Capitalize(b)[0];
        } else {
          assert Capitalize(a)[i] != Capitalize(b)[i];
        }
      }
    } else if |a| != |b| {
      assert |Capitalize(a)| != |Capitalize(b)|;
      assert |LowerAll(a)| != |LowerAll(b)|;
    }
  }

  /** [x.capitalize() for x in parts] */
  function CapitalizeAll(parts: seq<string>): (r: seq<string>)
    ensures |r| == |parts| && forall i :: 0 <= i < |parts| ==> r[i] == Capitalize(parts[i])
  {
    if parts == [] then [] else [Capitalize(parts[0])] + CapitalizeAll(parts[1..])
  }

  /** str.split(sep) for a one-character separator: never empty, keeps empty pieces. */
  function Split(s: string, sep: char): (parts: seq<string>)
    ensures |parts| >= 1
    ensures forall i :: 0 <= i < |parts| ==> sep !in parts[i]
    decreases |s|
  {
    var k := Find(s, sep);
    if k == -1 then [s] else [s[..k]] + Split(s[k + 1..], sep)
  }

  /** sep.join(parts), the inverse of Split. */
  function Join(parts: seq<string>, sep: char): string
  {
    if parts == [] then []
    else if |parts| == 1 then parts[0]
    else parts[0] + [sep] + Join(parts[1..], sep)
  }

  lemma JoinCons(p: string, rest: seq<string>, sep: char)
    requires rest != []
    ensures Join([p] + rest, sep) == p + [sep] + Join(rest, sep)
  {
    assert ([p] + rest)[1..] == rest;
  }

  /** One piece and the separator found after it, put back in front of the rest. */
  lemma JoinAtFirstSeparator(s: string, sep: char, k: int, rest: seq<string>)
    requires 0 <= k < |s| && s[k] == sep && rest != [] && Join(rest, sep) == s[k + 1..]
    ensures Join([s[..k]] + rest, sep) == s
  {
    JoinCons(s[..k], rest, sep);
    assert s == s[..k] + [sep] + s[k + 1..];
  }

  /** Joining the pieces of a split gives the string back. */
  lemma {:induction false} JoinOfSplit(s: string, sep: char)
    ensures Join(Split(s, sep), sep) == s
    decreases |s|
  {
    var k := Find(s, sep);
    if k != -1 {
      JoinOfSplit(s[k + 1..], sep);
      JoinAtFirstSeparator(s, sep, k, Split(s[k + 1..], sep));
    }
  }

  /** The first separator of p + [sep] + t, when p has none, is right after p. */
  lemma FindAfterPiece(p: string, t: string, sep: char)
    requires sep !in p
    ensures Find(p + [sep] + t, sep) == |p|
  {
    var s := p + [sep] + t;
    assert s[..|p|] == p;
    assert s[|p|] == sep;
  }

  /** Splitting a join of separator-free pieces gives the pieces back. */
  lemma {:induction false} SplitOfJoin(parts: seq<string>, sep: char)
    requires |parts| >= 1
    requires forall i :: 0 <= i < |parts| ==> sep !in parts[i]
    ensures Split(Join(parts, sep), sep) == parts
  {
    if |parts| > 1 {
      var p, rest := parts[0], parts[1..];
      var t := Join(rest, sep);
      assert parts == [p] + rest;
      JoinCons(p, rest, sep);
      var s := p + [sep] + t;
      FindAfterPiece(p, t, sep);
      assert s[..|p|] == p && s[|p| + 1..] == t;
      SplitOfJoin(rest, sep);
    }
  }

  predicate IsDigit(c: char) {
    '0' <= c <= '9'
  }

  /** The characters int() skips around a number: space, \t, \n, \v, \f and \r. */
  predicate IsSpace(c: char) {
    c == ' ' || '\t' <= c <= '\r'
  }

  function DigitValue(c: char): (v: nat)
    requires IsDigit(c)
    ensures v < 10
  {
    c as int - '0' as int
  }

  function DigitChar(v: nat): (c: char)
    requires v < 10
    ensures IsDigit(c) && DigitValue(c) == v
  {
    (v + '0' as int) as char
  }

  predicate AllDigits(s: string) {
    forall i :: 0 <= i < |s| ==> IsDigit(s[i])
  }

  /** The value of a string of decimal digits, most significant first; leading zeros allowed. */
  function DecimalValue(s: string): nat
    requires AllDigits(s)
  {
    if s == [] then 0 else 10 * DecimalValue(s[..|s| - 1]) + DigitValue(s[|s| - 1])
  }

  /** The shortest decimal representation of n (str(n)). */
  function Decimal(n: nat): (s: string)
    ensures |s| > 0 && AllDigits(s)
  {
    if n < 10 then [DigitChar(n)] else Decimal(n / 10) + [DigitChar(n % 10)]
  }

  lemma {:induction false} DecimalValueOfDecimal(n: nat)
    ensures DecimalValue(Decimal(n)) == n
  {
    if n >= 10 {
      var s := Decimal(n);
      assert s[..|s| - 1] == Decimal(n / 10);
      DecimalValueOfDecimal(n / 10);
    }
  }

  /** Drops leading and trailing whitespace. */
  function StripSpace(s: string): (r: string)
    ensures |r| == 0 || (!IsSpace(r[0]) && !IsSpace(r[|r| - 1]))
    ensures forall i :: 0 <= i < |s| && !IsSpace(s[i]) ==> s[i] in r
    ensures forall i :: 0 <= i < |r| ==> r[i] in s
    decreases |s|
  {
    if s == [] then []
    else if IsSpace(s[0]) then StripSpace(s[1..])
    else if IsSpace(s[|s| - 1]) then StripSpace(s[..|s| - 1])
    else s
  }

  /**
   * Digits with single underscores between them, as int() accepts in base 10:
   * no leading, trailing or doubled underscore.
   */
  predicate IsDigitGroup(s: string) {
    && |s| > 0
    && (forall i :: 0 <= i < |s| ==> IsDigit(s[i]) || s[i] == '_')
    && IsDigit(s[|s| - 1])
    && IsDigit(s[0])
    && forall i :: 0 <= i < |s| - 1 ==> IsDigit(s[i]) || (s[i] == '_' && IsDigit(s[i + 1]))
  }

  function RemoveUnderscores(s: string): (r: string)
    ensures (forall i :: 0 <= i < |s| ==> IsDigit(s[i]) || s[i] == '_') ==> AllDigits(r)
    ensures AllDigits(s) ==> r == s
  {
    if s == [] then [] else (if s[0] == '_' then [] else [s[0]]) + RemoveUnderscores(s[1..])
  }

  /**
   * int(s) for an ASCII string s: optional whitespace, an optional sign, a digit group,
   * optional whitespace; anything else is a ValueError (None).
   */
  function ParseInt(s: string): (r: Option<int>)
    ensures r.Some? ==> exists i :: 0 <= i < |s| && IsDigit(s[i])
    ensures r.Some? ==> forall i :: 0 <= i < |s| ==>
      IsDigit(s[i]) || IsSpace(s[i]) || s[i] == '+' || s[i] == '-' || s[i] == '_'
  {
    var t := StripSpace(s);
    var negative := |t| > 0 && t[0] == '-';
    var body := if |t| > 0 && (t[0] == '-' || t[0] == '+') then t[1..] else t;
    if IsDigitGroup(body) then
      assert body[0] in t;
      var v: int := DecimalValue(RemoveUnderscores(body));
      Some(if negative then -v else v)
    else None
  }

  /** int() of a non-empty digit string is its decimal value, leading zeros included. */
  lemma ParseIntOfDigits(s: string)
    requires |s| > 0 && AllDigits(s)
    ensures ParseInt(s) == Some(DecimalValue(s))
  {
    assert !IsSpace(s[0]) && !IsSpace(s[|s| - 1]);
  }

  /** int(str(n)) == n. */
  lemma ParseIntOfDecimal(n: nat)
    ensures ParseInt(Decimal(n)) == Some(n)
  {
    ParseIntOfDigits(Decimal(n));
    DecimalValueOfDecimal(n);
  }

  /** A character other than a digit, whitespace, a sign or '_' makes int() fail. */
  lemma ParseIntRejects(s: string, i: nat)
    requires i < |s| && !IsDigit(s[i]) && !IsSpace(s[i]) && s[i] != '+' && s[i] != '-' && s[i] != '_'
    ensures ParseInt(s) == None
  {
    var t := StripSpace(s);
    assert s[i] in t;
    var body := if |t| > 0 && (t[0] == '-' || t[0] == '+') then t[1..] else t;
    var j :| 0 <= j < |t| && t[j] == s[i];
    if |t| > 0 && (t[0] == '-' || t[0] == '+') {
      assert body[j - 1] == s[i];
    } else {
      assert body[j] == s[i];
    }
  }

  /** int() of one character succeeds exactly on a digit, giving its value. */
  lemma ParseIntOfChar(c: char)
    ensures ParseInt([c]).Some? <==> IsDigit(c)
    ensures IsDigit(c) ==> ParseInt([c]) == Some(DigitValue(c))
  {
    if IsDigit(c) {
      ParseIntOfDigits([c]);
      assert DecimalValue([c]) == DigitValue(c) by {
        assert [c][..0] == [];
      }
    } else if !IsSpace(c) && c != '+' && c != '-' && c != '_' {
      ParseIntRejects([c], 0);
    } else {
      assert StripSpace([c]) == [] || StripSpace([c]) == [c];
    }
  }
}

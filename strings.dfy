/**
 * The parts of java.lang.String, Integer and Apache Commons Lang that the
 * modelled code relies on. Character classes are ASCII: Java's Unicode case
 * mapping, Unicode digits and Unicode letters are not modelled.
 */
module JavaStrings {
  import opened Wrappers

  const MinInt: int := -0x8000_0000
  const MaxInt: int := 0x7fff_ffff

  predicate IsUpper(c: char) { 'A' <= c <= 'Z' }
  predicate IsLower(c: char) { 'a' <= c <= 'z' }
  predicate IsLetter(c: char) { IsUpper(c) || IsLower(c) }
  predicate IsDigit(c: char) { '0' <= c <= '9' }
  /** Character.isWhitespace restricted to ASCII, as in the regex class \s. */
  predicate IsSpace(c: char) { c == ' ' || c == '\t' || c == '\n' || c == '\r' || c == '\U{000C}' || c == '\U{000B}' }

  function LowerChar(c: char): (r: char)
    ensures !IsUpper(r)
    ensures IsLetter(c) <==> IsLetter(r)
    ensures IsDigit(c) <==> IsDigit(r)
    ensures !IsUpper(c) ==> r == c
  {
    if IsUpper(c) then (c as int + 32) as char else c
  }

  function UpperChar(c: char): (r: char)
    ensures !IsLower(r)
    ensures IsLetter(c) <==> IsLetter(r)
    ensures IsDigit(c) <==> IsDigit(r)
    ensures !IsLower(c) ==> r == c
  {
    if IsLower(c) then (c as int - 32) as char else c
  }

  /** String.toLowerCase on ASCII letters. */
  function Lower(s: string): (r: string)
    ensures |r| == |s|
    ensures forall i :: 0 <= i < |s| ==> r[i] == LowerChar(s[i])
  {
    seq(|s|, i requires 0 <= i < |s| => LowerChar(s[i]))
  }

  /** String.toUpperCase on ASCII letters. */
  function Upper(s: string): (r: string)
    ensures |r| == |s|
    ensures forall i :: 0 <= i < |s| ==> r[i] == UpperChar(s[i])
  {
    seq(|s|, i requires 0 <= i < |s| => UpperChar(s[i]))
  }

  lemma LowerIdempotent(s: string)
    ensures Lower(Lower(s)) == Lower(s)
  {
  }

  function TrimStart(s: string): (r: string)
    ensures |r| <= |s| && r == s[|s| - |r|..]
    ensures |r| > 0 ==> r[0] > ' '
    ensures forall i :: 0 <= i < |s| - |r| ==> s[i] <= ' '
  {
    if |s| > 0 && s[0] <= ' ' then TrimStart(s[1..]) else s
  }

  function TrimEnd(s: string): (r: string)
    ensures |r| <= |s| && r == s[..|r|]
    ensures |r| > 0 ==> r[|r| - 1] > ' '
    ensures forall i :: |r| <= i < |s| ==> s[i] <= ' '
  {
    if |s| > 0 && s[|s| - 1] <= ' ' then TrimEnd(s[..|s| - 1]) else s
  }

  /** String.trim: drops leading and trailing characters up to and including the space. */
  function Trim(s: string): (r: string)
    ensures |r| <= |s|
    ensures |r| > 0 ==> r[0] > ' ' && r[|r| - 1] > ' '
  {
    TrimEnd(TrimStart(s))
  }

  lemma TrimIdempotent(s: string)
    ensures Trim(Trim(s)) == Trim(s)
  {
    var t := Trim(s);
    if |t| > 0 {
      assert TrimStart(t) == t;
      assert TrimEnd(t) == t;
    }
  }

  /** A property of every character of a string holds of every character of its trimmed form. */
  lemma TrimKeepsAll(s: string, p: char -> bool)
    requires forall i :: 0 <= i < |s| ==> p(s[i])
    ensures forall i :: 0 <= i < |Trim(s)| ==> p(Trim(s)[i])
  {
    var k := TrimOffset(s);
    forall i | 0 <= i < |Trim(s)|
      ensures p(Trim(s)[i])
    {
      assert Trim(s)[i] == s[k + i];
    }
  }

  /** The trimmed string is the slice of `s` that starts at the returned offset. */
  lemma TrimOffset(s: string) returns (k: nat)
    ensures k + |Trim(s)| <= |s|
    ensures forall i :: 0 <= i < |Trim(s)| ==> Trim(s)[i] == s[k + i]
  {
    var t := TrimStart(s);
    k := |s| - |t|;
    var r := TrimEnd(t);
    assert Trim(s) == r;
    forall i | 0 <= i < |r|
      ensures r[i] == s[k + i]
    {
      assert r[i] == t[i];
    }
  }

  /** Trimming only removes characters up to the space, so it commutes with lower-casing. */
  lemma TrimOfLower(s: string)
    ensures Trim(Lower(s)) == Lower(Trim(s))
  {
    TrimStartOfLower(s);
    TrimEndOfLower(TrimStart(s));
  }

  lemma {:induction false} TrimStartOfLower(s: string)
    ensures TrimStart(Lower(s)) == Lower(TrimStart(s))
    decreases |s|
  {
    if |s| > 0 && s[0] <= ' ' {
      var l := Lower(s);
      LowerTail(s);
      assert l[0] == s[0];
      assert TrimStart(l) == TrimStart(l[1..]);
      TrimStartOfLower(s[1..]);
    } else if |s| > 0 {
      assert Lower(s)[0] > ' ';
    }
  }

  lemma LowerTail(s: string)
    requires |s| > 0
    ensures Lower(s)[1..] == Lower(s[1..])
  {
  }

  lemma LowerInit(s: string)
    requires |s| > 0
    ensures Lower(s)[..|s| - 1] == Lower(s[..|s| - 1])
  {
  }

  lemma {:induction false} TrimEndOfLower(s: string)
    ensures TrimEnd(Lower(s)) == Lower(TrimEnd(s))
    decreases |s|
  {
    if |s| > 0 && s[|s| - 1] <= ' ' {
      var l := Lower(s);
      LowerInit(s);
      assert l[|l| - 1] == s[|s| - 1];
      assert TrimEnd(l) == TrimEnd(l[..|l| - 1]);
      TrimEndOfLower(s[..|s| - 1]);
    } else if |s| > 0 {
      assert Lower(s)[|s| - 1] > ' ';
    }
  }

  predicate StartsWith(s: string, prefix: string)
  {
    |prefix| <= |s| && s[..|prefix|] == prefix
  }

  predicate EndsWith(s: string, suffix: string)
  {
    |suffix| <= |s| && s[|s| - |suffix|..] == suffix
  }

  /** String.contains for a single character. */
  predicate ContainsChar(s: string, c: char)
  {
    c in s
  }

  /** String.replace of one character by another. */
  function ReplaceChar(s: string, from: char, to: char): (r: string)
    ensures |r| == |s|
    ensures from != to ==> from !in r
    ensures forall i :: 0 <= i < |s| ==> r[i] == (if s[i] == from then to else s[i])
  {
    seq(|s|, i requires 0 <= i < |s| => if s[i] == from then to else s[i])
  }

  predicate OccursAt(s: string, pattern: string, j: int)
  {
    0 <= j && j + |pattern| <= |s| && s[j..j + |pattern|] == pattern
  }

  /** The lowest index at which `pattern` occurs in `s`, as String.indexOf. */
  function IndexOf(s: string, pattern: string): (r: Option<nat>)
    requires |pattern| > 0
    ensures r.Some? ==> OccursAt(s, pattern, r.value)
    ensures r.Some? ==> forall j :: 0 <= j < r.value ==> !OccursAt(s, pattern, j)
    ensures r.None? ==> forall j :: !OccursAt(s, pattern, j)
    decreases |s|
  {
    if |s| < |pattern| then None
    else if s[..|pattern|] == pattern then Some(0)
    else
      assert forall j :: 1 <= j ==> (OccursAt(s, pattern, j) <==> OccursAt(s[1..], pattern, j - 1)) by {
        forall j | 1 <= j
          ensures OccursAt(s, pattern, j) <==> OccursAt(s[1..], pattern, j - 1)
        {
          OccursAtShift(s, pattern, j);
        }
      }
      match IndexOf(s[1..], pattern)
      case None => None
      case Some(i) => Some(i + 1)
  }

  /** An occurrence after the first character is an occurrence in the tail, one place earlier. */
  lemma OccursAtShift(s: string, pattern: string, j: int)
    requires |s| > 0 && 1 <= j
    ensures OccursAt(s, pattern, j) <==> OccursAt(s[1..], pattern, j - 1)
  {
    if j + |pattern| <= |s| {
      var a, b := s[j..j + |pattern|], s[1..][j - 1..j - 1 + |pattern|];
      forall k | 0 <= k < |pattern|
        ensures a[k] == b[k]
      {
        assert a[k] == s[j + k];
        assert b[k] == s[1..][j - 1 + k];
      }
      assert a == b;
    }
  }

  /** String.replace of a non-empty literal: left to right, without overlaps. */
  function Replace(s: string, target: string, replacement: string): (r: string)
    requires |target| > 0
    decreases |s|
  {
    match IndexOf(s, target)
    case None => s
    case Some(i) => s[..i] + replacement + Replace(s[i + |target|..], target, replacement)
  }

  /** A pattern that holds a character missing from the text does not occur in it. */
  lemma AbsentCharNoOccurrence(s: string, pattern: string, k: nat)
    requires k < |pattern| && pattern[k] !in s
    ensures IndexOf(s, pattern).None?
  {
  }

  /** Replacing a pattern that does not occur changes nothing. */
  lemma ReplaceAbsent(s: string, pattern: string, k: nat, replacement: string)
    requires k < |pattern| && pattern[k] !in s
    ensures Replace(s, pattern, replacement) == s
  {
    AbsentCharNoOccurrence(s, pattern, k);
  }

  /** The pieces of `s` between non-overlapping occurrences of `delimiter`, trailing empties kept. */
  function SplitPieces(s: string, delimiter: string): (r: seq<string>)
    requires |delimiter| > 0
    ensures |r| > 0
    decreases |s|
  {
    match IndexOf(s, delimiter)
    case None => [s]
    case Some(i) => [s[..i]] + SplitPieces(s[i + |delimiter|..], delimiter)
  }

  function DropTrailingEmpty(pieces: seq<string>): (r: seq<string>)
    ensures |r| <= |pieces| && r == pieces[..|r|]
    ensures |r| > 0 ==> r[|r| - 1] != ""
  {
    if |pieces| > 0 && pieces[|pieces| - 1] == "" then DropTrailingEmpty(pieces[..|pieces| - 1]) else pieces
  }

  /**
   * String.split with a delimiter that contains no regular expression
   * metacharacter: the whole string when the delimiter does not occur,
   * otherwise the pieces with trailing empty strings removed.
   */
  function Split(s: string, delimiter: string): (r: seq<string>)
    requires |delimiter| > 0
    ensures IndexOf(s, delimiter).None? ==> r == [s]
  {
    if IndexOf(s, delimiter).None? then [s] else DropTrailingEmpty(SplitPieces(s, delimiter))
  }

  /** String.join. */
  function Join(parts: seq<string>, separator: string): string
  {
    if |parts| == 0 then ""
    else if |parts| == 1 then parts[0]
    else parts[0] + separator + Join(parts[1..], separator)
  }

  /** String.compareTo: difference of the first differing characters, otherwise of the lengths. */
  function CompareTo(a: string, b: string): int
  {
    if |a| == 0 || |b| == 0 then |a| - |b|
    else if a[0] != b[0] then a[0] as int - b[0] as int
    else CompareTo(a[1..], b[1..])
  }

  lemma {:induction false} CompareToZeroIff(a: string, b: string)
    ensures CompareTo(a, b) == 0 <==> a == b
  {
    if |a| == 0 || |b| == 0 {
    } else if a[0] != b[0] {
    } else {
      CompareToZeroIff(a[1..], b[1..]);
      assert a == [a[0]] + a[1..] && b == [b[0]] + b[1..];
    }
  }

  lemma {:induction false} CompareToAntisymmetric(a: string, b: string)
    ensures CompareTo(b, a) == -CompareTo(a, b)
  {
    if |a| > 0 && |b| > 0 && a[0] == b[0] {
      CompareToAntisymmetric(a[1..], b[1..]);
    }
  }

  lemma {:induction false} CompareToTransitive(a: string, b: string, c: string)
    requires CompareTo(a, b) < 0 && CompareTo(b, c) < 0
    ensures CompareTo(a, c) < 0
  {
    if |a| > 0 && |b| > 0 && |c| > 0 && a[0] == b[0] && b[0] == c[0] {
      CompareToTransitive(a[1..], b[1..], c[1..]);
    }
  }

  predicate AllDigits(s: string)
  {
    forall i :: 0 <= i < |s| ==> IsDigit(s[i])
  }

  /** StringUtils.isNumeric: a non-empty string of digits. */
  predicate IsNumeric(s: string)
  {
    |s| > 0 && AllDigits(s)
  }

  function DigitsValue(s: string): nat
    requires AllDigits(s)
  {
    if |s| == 0 then 0 else DigitsValue(s[..|s| - 1]) * 10 + (s[|s| - 1] as int - '0' as int)
  }

  /** Appending a digit multiplies the value by ten and adds the digit. */
  lemma DigitsValueSnoc(s: string, c: char)
    requires AllDigits(s) && IsDigit(c)
    ensures AllDigits(s + [c]) && DigitsValue(s + [c]) == DigitsValue(s) * 10 + (c as int - '0' as int)
  {
    assert (s + [c])[..|s|] == s;
  }

  /** Integer.parseInt / Integer.valueOf: optional sign, decimal digits, 32-bit range. */
  function ParseInt(s: string): (r: Result<int>)
    ensures r.Success? ==> MinInt <= r.value <= MaxInt
    ensures r.Failure? ==> r.error == NumberFormat
    ensures IsNumeric(s) ==> (r.Success? <==> DigitsValue(s) <= MaxInt)
    ensures IsNumeric(s) && r.Success? ==> r.value == DigitsValue(s)
    ensures r.Success? ==> |s| > 0 && (IsDigit(s[0]) || s[0] == '-' || s[0] == '+')
  {
    if |s| == 0 then Failure(NumberFormat)
    else
      var digits := if s[0] == '-' || s[0] == '+' then s[1..] else s;
      if |digits| == 0 || !AllDigits(digits) then Failure(NumberFormat)
      else
        var v: int := if s[0] == '-' then -(DigitsValue(digits) as int) else DigitsValue(digits);
        if v < MinInt || v > MaxInt then Failure(NumberFormat) else Success(v)
  }

  /** The number of "%s" slots in a format string. */
  function SlotCount(format: string): nat
  {
    if |format| < 2 then 0
    else if format[..2] == "%s" then 1 + SlotCount(format[2..])
    else SlotCount(format[1..])
  }

  /**
   * String.format restricted to "%s" conversions: each slot takes the next
   * argument, missing arguments throw, surplus arguments are ignored.
   */
  function Format(format: string, args: seq<string>): (r: Result<string>)
    ensures r.Success? <==> SlotCount(format) <= |args|
    ensures r.Failure? ==> r.error == MissingFormatArgument
  {
    if |format| < 2 then Success(format)
    else if format[..2] == "%s" then
      if |args| == 0 then Failure(MissingFormatArgument)
      else
        match Format(format[2..], args[1..])
        case Failure(e) => Failure(e)
        case Success(rest) => Success(args[0] + rest)
    else
      match Format(format[1..], args)
      case Failure(e) => Failure(e)
      case Success(rest) => Success([format[0]] + rest)
  }
}

/**
 * Small text helpers: word counting, and reading an integer written in
 * digits or as an English number word.
 */
module NlpUtils {
  import opened Wrappers
  import opened JavaStrings

  /** The default delimiters of java.util.StringTokenizer: space, tab, newline, carriage return, form feed. */
  predicate IsTokenDelimiter(c: char)
  {
    c == ' ' || c == '\t' || c == '\n' || c == '\r' || c == '\U{000C}'
  }

  /** A token starts at `i`: a non-delimiter at the start or after a delimiter. */
  predicate StartsToken(s: string, i: int)
  {
    0 <= i < |s| && !IsTokenDelimiter(s[i]) && (i == 0 || IsTokenDelimiter(s[i - 1]))
  }

  /** StringTokenizer.countTokens: the number of token starts. */
  function TokenCount(s: string): (r: nat)
    ensures r <= |s|
  {
    if |s| == 0 then 0
    else TokenCount(s[..|s| - 1]) + (if StartsToken(s, |s| - 1) then 1 else 0)
  }

  /** wordsCount: zero for a null or empty text, otherwise the number of tokens. */
  function WordsCount(text: Option<string>): (r: nat)
    ensures text.None? || text == Some("") ==> r == 0
    ensures text.Some? ==> r == TokenCount(text.value)
  {
    if text.None? || text.value == "" then 0 else TokenCount(text.value)
  }

  /** Token starts of a prefix are token starts of the whole text, at the same index. */
  lemma StartsTokenOfPrefix(s: string, n: nat, i: int)
    requires n <= |s|
    ensures 0 <= i < n ==> (StartsToken(s[..n], i) <==> StartsToken(s, i))
  {
  }

  /** A text has no token exactly when it is all delimiters. */
  lemma {:induction false} TokenCountZeroIff(s: string)
    ensures TokenCount(s) == 0 <==> forall i :: 0 <= i < |s| ==> IsTokenDelimiter(s[i])
    decreases |s|
  {
    if |s| > 0 {
      var init := s[..|s| - 1];
      TokenCountZeroIff(init);
      forall i | 0 <= i < |init|
        ensures init[i] == s[i]
      {
      }
    }
  }

  /**
   * Joining two texts with a delimiter adds their token counts: a token
   * never spans a delimiter.
   */
  lemma {:induction false} TokenCountJoin(a: string, d: char, b: string)
    requires IsTokenDelimiter(d)
    ensures TokenCount(a + [d] + b) == TokenCount(a) + TokenCount(b)
    decreases |b|
  {
    var s := a + [d] + b;
    if |b| == 0 {
      assert s[..|s| - 1] == a;
    } else {
      var binit := b[..|b| - 1];
      TokenCountJoin(a, d, binit);
      assert s[..|s| - 1] == a + [d] + binit;
      assert s[|s| - 1] == b[|b| - 1];
      if |b| == 1 {
        assert s[|s| - 2] == d;
      } else {
        assert s[|s| - 2] == b[|b| - 2];
      }
      assert StartsToken(s, |s| - 1) <==> StartsToken(b, |b| - 1);
    }
  }

  /** The number words zero to twelve. */
  const NumbersMap: map<string, int> := map[
    "zero" := 0, "one" := 1, "two" := 2, "three" := 3, "four" := 4, "five" := 5, "six" := 6,
    "seven" := 7, "eight" := 8, "nine" := 9, "ten" := 10, "eleven" := 11, "twelve" := 12]

  /** Every number word starts with a lower-case letter. */
  lemma NumberWordsStartWithLetter(w: string)
    requires |w| > 0 && !IsLower(w[0])
    ensures w !in NumbersMap
  {
  }

  /** String.replace of a character by the empty string: every occurrence removed. */
  function RemoveChar(s: string, c: char): (r: string)
    ensures |r| <= |s|
    ensures forall x :: x in r <==> x in s && x != c
  {
    if |s| == 0 then ""
    else if s[0] == c then RemoveChar(s[1..], c)
    else
      assert forall x :: x in s <==> x == s[0] || x in s[1..];
      [s[0]] + RemoveChar(s[1..], c)
  }

  /**
   * cleanText: a text that starts with "(" and ends with ")" loses every
   * parenthesis; then it is lower-cased and trimmed.
   */
  function CleanText(text: string): (r: string)
    ensures |r| > 0 ==> r[0] > ' ' && r[|r| - 1] > ' '
  {
    var stripped := if StartsWith(text, "(") && EndsWith(text, ")") then RemoveChar(RemoveChar(text, '('), ')') else text;
    Trim(Lower(stripped))
  }

  /** Cleaning leaves no upper-case letter, and no parenthesis when the text was wrapped in them. */
  lemma CleanTextProperties(text: string)
    ensures forall i :: 0 <= i < |CleanText(text)| ==> !IsUpper(CleanText(text)[i])
    ensures StartsWith(text, "(") && EndsWith(text, ")") ==> '(' !in CleanText(text) && ')' !in CleanText(text)
    ensures !(StartsWith(text, "(") && EndsWith(text, ")")) ==> CleanText(text) == Trim(Lower(text))
  {
    var wrapped := StartsWith(text, "(") && EndsWith(text, ")");
    var stripped := if wrapped then RemoveChar(RemoveChar(text, '('), ')') else text;
    assert CleanText(text) == Trim(Lower(stripped));
    TrimmedLowerProperties(stripped);
  }

  /** Trimming a lower-cased text leaves no upper-case letter, and brings in no parenthesis. */
  lemma TrimmedLowerProperties(s: string)
    ensures forall i :: 0 <= i < |Trim(Lower(s))| ==> !IsUpper(Trim(Lower(s))[i])
    ensures '(' !in s && ')' !in s ==> '(' !in Trim(Lower(s)) && ')' !in Trim(Lower(s))
  {
    LowerHasNoUpper(s);
    TrimKeepsAll(Lower(s), ch => !IsUpper(ch));
    if '(' !in s && ')' !in s {
      LowerWithoutParentheses(s);
      TrimKeepsAll(Lower(s), ch => ch != '(' && ch != ')');
    }
  }

  lemma LowerHasNoUpper(s: string)
    ensures forall i :: 0 <= i < |Lower(s)| ==> !IsUpper(Lower(s)[i])
  {
  }

  /** Lower-casing brings in no parenthesis. */
  lemma LowerWithoutParentheses(s: string)
    requires '(' !in s && ')' !in s
    ensures forall i :: 0 <= i < |Lower(s)| ==> Lower(s)[i] != '(' && Lower(s)[i] != ')'
  {
    forall i | 0 <= i < |s|
      ensures Lower(s)[i] != '(' && Lower(s)[i] != ')'
    {
      assert s[i] in s;
    }
  }

  /** textToInteger: the value of a number word, after cleaning. */
  function TextToInteger(text: string): (r: Option<int>)
    ensures r.Some? <==> CleanText(text) in NumbersMap
    ensures r.Some? ==> r.value == NumbersMap[CleanText(text)]
  {
    var key := CleanText(text);
    if key in NumbersMap then Some(NumbersMap[key]) else None
  }

  /**
   * integerValueOf once the text is cleaned: digits are parsed as a 32-bit
   * integer; otherwise a number word is looked up; anything else is a
   * number format error.
   */
  function ValueOfCleaned(cleaned: string): (r: Result<int>)
    ensures r.Failure? ==> r.error == NumberFormat
    ensures r.Success? ==> MinInt <= r.value <= MaxInt
    ensures IsNumeric(cleaned) ==>
              (r.Success? <==> DigitsValue(cleaned) <= MaxInt) && (r.Success? ==> r.value == DigitsValue(cleaned))
    ensures !IsNumeric(cleaned) ==>
              (r.Success? <==> cleaned in NumbersMap) && (r.Success? ==> r.value == NumbersMap[cleaned])
  {
    if IsNumeric(cleaned) then ParseInt(cleaned)
    else if cleaned in NumbersMap then Success(NumbersMap[cleaned])
    else Failure(NumberFormat)
  }

  /**
   * integerValueOf: the digit test and the number-word lookup (through
   * textToInteger) both see the text cleaned once.
   */
  function IntegerValueOf(text: string): Result<int>
  {
    var cleaned := CleanText(text);
    if IsNumeric(cleaned) then ParseInt(cleaned)
    else
      match TextToInteger(text)
      case Some(v) => Success(v)
      case None => Failure(NumberFormat)
  }

  lemma IntegerValueOfIsValueOfCleaned(text: string)
    ensures IntegerValueOf(text) == ValueOfCleaned(CleanText(text))
  {
  }

  /**
   * isInteger, as written: the text is cleaned, and then checked for
   * digits, or cleaned a second time inside textToInteger and looked up.
   */
  function IsInteger(text: string): (r: bool)
    ensures r <==> IsNumeric(CleanText(text)) || CleanText(CleanText(text)) in NumbersMap
  {
    var cleaned := CleanText(text);
    LowerOfCleanText(text);
    IsNumeric(Lower(cleaned)) || TextToInteger(cleaned).Some?
  }

  /** A cleaned text is already in lower case. */
  lemma LowerOfCleanText(text: string)
    ensures Lower(CleanText(text)) == CleanText(text)
  {
    CleanTextProperties(text);
    var c := CleanText(text);
    forall i | 0 <= i < |c|
      ensures Lower(c)[i] == c[i]
    {
    }
  }

  /** A text that is its own cleaned form. */
  lemma CleanTextOfClean(t: string)
    requires |t| > 0 && t[0] > ' ' && t[|t| - 1] > ' ' && t[0] != '('
    requires forall i :: 0 <= i < |t| ==> !IsUpper(t[i])
    ensures CleanText(t) == t
  {
    assert !StartsWith(t, "(");
    assert Lower(t) == t;
    assert TrimStart(t) == t;
    assert TrimEnd(t) == t;
  }

  /** Any text that cleans to digits beyond the 32-bit range passes isInteger but fails integerValueOf. */
  lemma IsIntegerOverflows(text: string)
    requires IsNumeric(CleanText(text)) && DigitsValue(CleanText(text)) > MaxInt
    ensures IsInteger(text) && IntegerValueOf(text).Failure?
  {
    IntegerValueOfIsValueOfCleaned(text);
  }

  lemma DigitsOf2147483648()
    ensures IsNumeric("2147483648") && DigitsValue("2147483648") == 2147483648
  {
    DigitsValueSnoc("", '2');
    assert "" + ['2'] == "2";
    DigitsValueSnoc("2", '1');
    assert "2" + ['1'] == "21";
    DigitsValueSnoc("21", '4');
    assert "21" + ['4'] == "214";
    DigitsValueSnoc("214", '7');
    assert "214" + ['7'] == "2147";
    DigitsValueSnoc("2147", '4');
    assert "2147" + ['4'] == "21474";
    DigitsValueSnoc("21474", '8');
    assert "21474" + ['8'] == "214748";
    DigitsValueSnoc("214748", '3');
    assert "214748" + ['3'] == "2147483";
    DigitsValueSnoc("2147483", '6');
    assert "2147483" + ['6'] == "21474836";
    DigitsValueSnoc("21474836", '4');
    assert "21474836" + ['4'] == "214748364";
    DigitsValueSnoc("214748364", '8');
    assert "214748364" + ['8'] == "2147483648";
  }

  /** "2147483648" is an integer for isInteger, but integerValueOf rejects it. */
  lemma IsIntegerOverflow()
    ensures IsInteger("2147483648") && IntegerValueOf("2147483648").Failure?
  {
    CleanTextOfClean("2147483648");
    DigitsOf2147483648();
    IsIntegerOverflows("2147483648");
  }

  lemma CleanTextOfPaddedTwo()
    ensures CleanText(" (two) ") == "(two)"
  {
    var t := " (two) ";
    assert t[0] == ' ';
    assert !StartsWith(t, "(");
    forall i | 0 <= i < |t|
      ensures Lower(t)[i] == t[i]
    {
      assert !IsUpper(t[i]);
    }
    assert Lower(t) == t;
    assert t[1..] == "(two) ";
    assert TrimStart("(two) ") == "(two) ";
    assert TrimStart(t) == "(two) ";
    assert "(two) "[..5] == "(two)";
    assert TrimEnd("(two)") == "(two)";
    assert TrimEnd("(two) ") == "(two)";
  }

  lemma CleanTextOfWrappedTwo()
    ensures CleanText("(two)") == "two"
  {
    var u := "(two)";
    assert StartsWith(u, "(") && EndsWith(u, ")");
    assert RemoveChar(u, '(') == "two)";
    assert RemoveChar("two)", ')') == "two";
    CleanTextOfClean("two");
  }

  /**
   * A text whose single cleaning is neither digits nor a number word, but
   * whose double cleaning is a number word, passes isInteger but fails integerValueOf.
   */
  lemma IsIntegerCleansTwice(text: string)
    requires !IsNumeric(CleanText(text)) && CleanText(text) !in NumbersMap
    requires CleanText(CleanText(text)) in NumbersMap
    ensures IsInteger(text) && IntegerValueOf(text).Failure?
  {
    IntegerValueOfIsValueOfCleaned(text);
  }

  /** " (two) " passes isInteger (cleaned twice) but not integerValueOf (cleaned once). */
  lemma IsIntegerDoubleCleaning()
    ensures IsInteger(" (two) ") && IntegerValueOf(" (two) ").Failure?
  {
    CleanTextOfPaddedTwo();
    CleanTextOfWrappedTwo();
    var u := "(two)";
    assert !IsNumeric(u) by {
      assert !IsDigit(u[0]);
    }
    NumberWordsStartWithLetter(u);
    assert "two" in NumbersMap;
    IsIntegerCleansTwice(" (two) ");
  }

  /**
   * isInteger as evidently intended: exactly the texts integerValueOf
   * accepts, that is digits within the 32-bit range or a number word,
   * after a single cleaning.
   */
  function IsIntegerCorrected(text: string): (r: bool)
  {
    var cleaned := CleanText(text);
    (IsNumeric(cleaned) && DigitsValue(cleaned) <= MaxInt) || (!IsNumeric(cleaned) && cleaned in NumbersMap)
  }

  /** The corrected check agrees with integerValueOf on every text. */
  lemma IsIntegerCorrectedAgrees(text: string)
    ensures IsIntegerCorrected(text) <==> IntegerValueOf(text).Success?
  {
    IntegerValueOfIsValueOfCleaned(text);
  }
}

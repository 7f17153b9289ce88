/**
 * The lifting configuration: how CSV columns become external entities.
 * Every field Jackson may leave unset is an `Option`; the getters supply
 * the documented defaults.
 */
module LiftingConfiguration {
  import opened Wrappers
  import opened JavaStrings

  /** The configuration as read from JSON: the namespace of generated URIs and the column mappings. */
  datatype Configuration = Configuration(namespace: Option<string>, columns: Option<seq<ColumnMapping>>)

  /** ColumnMapping.EntityType */
  datatype EntityKind = INDIVIDUAL | GROUP

  /** One column whose values become entities of one type, with their property mappings. */
  datatype ColumnMapping = ColumnMapping(
    column: Option<string>,
    typeUri: Option<string>,
    entityType: Option<EntityKind>,
    properties: seq<PropertyMapping>)
  {
    /** getEntityType: an unset entity type means INDIVIDUAL. */
    function GetEntityType(): (r: EntityKind)
      ensures entityType.None? ==> r == INDIVIDUAL
      ensures entityType.Some? ==> r == entityType.value
    {
      if entityType.None? then INDIVIDUAL else entityType.value
    }
  }

  /** PropertyMapping.Transformation: a case change applied to every column value. */
  datatype Transformation = UPPERCASE | LOWERCASE | SWAPCASE | CAPITALIZE | UNCAPITALIZE | NONE

  datatype PredefinedProperty = DISPLAY_NAME | SURFACE_FORM | DESCRIPTION | CLAIM_VALUE

  /** PropertyMapping.RangeType */
  datatype RangeType = LITERAL | INDIVIDUAL_RANGE

  datatype CustomProperty = CustomProperty(uri: Option<string>, rangeType: Option<RangeType>, typeUri: Option<string>)
  {
    /** getType: an unset range type means LITERAL. */
    function GetType(): (r: RangeType)
      ensures rangeType.None? ==> r == LITERAL
      ensures rangeType.Some? ==> r == rangeType.value
    {
      if rangeType.None? then LITERAL else rangeType.value
    }
  }

  /** The two subclasses of PropertyMapping, with the property they fill. */
  datatype PropertyTarget =
    | Predefined(property: Option<PredefinedProperty>)
    | Custom(custom: Option<CustomProperty>)

  datatype PropertyMapping = PropertyMapping(
    columns: Option<seq<string>>,
    formatter: Option<string>,
    transformation: Option<Transformation>,
    target: PropertyTarget)
  {
    /** getFormatter: the configured formatter, or the default one. */
    function GetFormatter(): (r: string)
      ensures formatter.Some? ==> r == formatter.value
      ensures formatter.None? ==> r == DefaultFormatter(columns)
    {
      if formatter.None? then DefaultFormatter(columns) else formatter.value
    }
  }

  /** The constructor taking only the columns: no formatter, transformation NONE. */
  function WithColumns(columns: Option<seq<string>>, target: PropertyTarget): (r: PropertyMapping)
    ensures r.columns == columns && r.target == target
    ensures r.formatter.None? && r.transformation == Some(NONE)
  {
    PropertyMapping(columns, None, Some(NONE), target)
  }

  function Slots(n: nat): (r: seq<string>)
    ensures |r| == n && forall i :: 0 <= i < n ==> r[i] == "%s"
  {
    seq(n, _ => "%s")
  }

  /** defaultFormatter: "%s" for a null column list, else one "%s" per column joined by " - ". */
  function DefaultFormatter(columns: Option<seq<string>>): string
  {
    if columns.None? then "%s" else Join(Slots(|columns.value|), " - ")
  }

  function SwapCaseChar(c: char): (r: char)
    ensures IsUpper(c) <==> IsLower(r)
    ensures IsLower(c) <==> IsUpper(r)
    ensures !IsLetter(c) ==> r == c
  {
    if IsUpper(c) then LowerChar(c) else if IsLower(c) then UpperChar(c) else c
  }

  /** StringUtils.swapCase on ASCII letters. */
  function SwapCase(s: string): (r: string)
    ensures |r| == |s|
    ensures forall i :: 0 <= i < |s| ==> r[i] == SwapCaseChar(s[i])
  {
    seq(|s|, i requires 0 <= i < |s| => SwapCaseChar(s[i]))
  }

  /** StringUtils.capitalize: the first character in upper case, the rest unchanged. */
  function Capitalize(s: string): (r: string)
    ensures |r| == |s|
    ensures |s| > 0 ==> r[0] == UpperChar(s[0]) && r[1..] == s[1..]
  {
    if |s| == 0 then s else [UpperChar(s[0])] + s[1..]
  }

  /** StringUtils.uncapitalize: the first character in lower case, the rest unchanged. */
  function Uncapitalize(s: string): (r: string)
    ensures |r| == |s|
    ensures |s| > 0 ==> r[0] == LowerChar(s[0]) && r[1..] == s[1..]
  {
    if |s| == 0 then s else [LowerChar(s[0])] + s[1..]
  }

  /** Transformation.apply */
  function Apply(t: Transformation, text: string): (r: string)
    ensures |r| == |text|
  {
    match t
    case UPPERCASE => Upper(text)
    case LOWERCASE => Lower(text)
    case SWAPCASE => SwapCase(text)
    case CAPITALIZE => Capitalize(text)
    case UNCAPITALIZE => Uncapitalize(text)
    case NONE => text
  }

  /**
   * NONE leaves the text alone; UPPERCASE and LOWERCASE leave no letter of
   * the other case and change nothing but case; every transformation keeps
   * the characters that are not letters.
   */
  lemma ApplyChangesOnlyCase(t: Transformation, text: string)
    ensures t == NONE ==> Apply(t, text) == text
    ensures t == UPPERCASE ==> forall i :: 0 <= i < |text| ==> !IsLower(Apply(t, text)[i])
    ensures t == LOWERCASE ==> forall i :: 0 <= i < |text| ==> !IsUpper(Apply(t, text)[i])
    ensures t == UPPERCASE || t == LOWERCASE ==> Lower(Apply(t, text)) == Lower(text)
    ensures forall i :: 0 <= i < |text| && !IsLetter(text[i]) ==> Apply(t, text)[i] == text[i]
  {
    var r := Apply(t, text);
    if t == CAPITALIZE || t == UNCAPITALIZE {
      forall i | 0 <= i < |text| && !IsLetter(text[i])
        ensures r[i] == text[i]
      {
        if i > 0 {
          assert r[i] == r[1..][i - 1];
        }
      }
    }
  }

  /** Swapping case twice gives the text back. */
  lemma SwapCaseInvolutive(text: string)
    ensures Apply(SWAPCASE, Apply(SWAPCASE, text)) == text
  {
  }

  /** Upper- and lower-casing are idempotent. */
  lemma ApplyIdempotent(t: Transformation, text: string)
    requires t != SWAPCASE
    ensures Apply(t, Apply(t, text)) == Apply(t, text)
  {
  }

  lemma {:induction false} SlotCountOfJoinedSlots(n: nat)
    ensures SlotCount(Join(Slots(n), " - ")) == n
  {
    if n == 1 {
      assert Join(Slots(n), " - ") == "%s" + "";
      SlotCountOfSlot("");
    } else if n >= 2 {
      JoinSlotsStep(n);
      SlotCountOfSlot(" - " + Join(Slots(n - 1), " - "));
      SlotCountOfSeparator(Join(Slots(n - 1), " - "));
      SlotCountOfJoinedSlots(n - 1);
    }
  }

  lemma JoinSlotsStep(n: nat)
    requires n >= 2
    ensures Join(Slots(n), " - ") == "%s" + (" - " + Join(Slots(n - 1), " - "))
  {
    assert Slots(n)[1..] == Slots(n - 1);
  }

  /** A leading "%s" is one slot. */
  lemma SlotCountOfSlot(s: string)
    ensures SlotCount("%s" + s) == 1 + SlotCount(s)
  {
    assert ("%s" + s)[..2] == "%s";
    assert ("%s" + s)[2..] == s;
  }

  /** The separator " - " holds no slot and cannot start one. */
  lemma SlotCountOfSeparator(s: string)
    ensures SlotCount(" - " + s) == SlotCount(s)
  {
    SlotCountOfLiteral(' ', "- " + s);
    SlotCountOfLiteral('-', " " + s);
    SlotCountOfLiteral(' ', s);
    assert " - " + s == [' '] + ("- " + s);
    assert "- " + s == ['-'] + (" " + s);
    assert " " + s == [' '] + s;
  }

  lemma SlotCountOfLiteral(c: char, s: string)
    requires c != '%'
    ensures SlotCount([c] + s) == SlotCount(s)
  {
    if |s| >= 1 {
      assert ([c] + s)[1..] == s;
      assert ([c] + s)[..2][0] == c;
    }
  }

  lemma FormatOfLiteral(c: char, s: string, args: seq<string>)
    requires c != '%'
    ensures Format([c] + s, args) == (match Format(s, args) case Success(v) => Success([c] + v) case Failure(e) => Failure(e))
  {
    if |s| >= 1 {
      assert ([c] + s)[1..] == s;
      assert ([c] + s)[..2][0] == c;
    }
  }

  /** The default formatter has one slot per listed column. */
  lemma DefaultFormatterSlots(columns: seq<string>)
    ensures SlotCount(DefaultFormatter(Some(columns))) == |columns|
  {
    SlotCountOfJoinedSlots(|columns|);
  }

  /** A slot takes the first argument and the rest of the format the remaining ones. */
  lemma FormatOfSlot(s: string, args: seq<string>)
    requires |args| > 0
    ensures Format("%s" + s, args) == (match Format(s, args[1..]) case Success(v) => Success(args[0] + v) case Failure(e) => Failure(e))
  {
    assert ("%s" + s)[..2] == "%s" && ("%s" + s)[2..] == s;
  }

  /** The separator " - " is copied as it is. */
  lemma FormatOfSeparator(s: string, args: seq<string>)
    ensures Format(" - " + s, args) == (match Format(s, args) case Success(v) => Success(" - " + v) case Failure(e) => Failure(e))
  {
    var a := [' '] + s;
    var b := ['-'] + a;
    FormatOfLiteral(' ', s, args);
    FormatOfLiteral('-', a, args);
    FormatOfLiteral(' ', b, args);
    assert " - " + s == [' '] + b;
    if Format(s, args).Success? {
      var v := Format(s, args).value;
      assert Format(a, args) == Success([' '] + v);
      assert Format(b, args) == Success(['-'] + ([' '] + v));
      assert [' '] + (['-'] + ([' '] + v)) == " - " + v;
    }
  }

  /** Formatting one value per column with the default formatter joins the values with " - ". */
  lemma {:induction false} DefaultFormatterJoins(args: seq<string>)
    ensures Format(Join(Slots(|args|), " - "), args) == Success(Join(args, " - "))
    decreases |args|
  {
    if |args| >= 2 {
      DefaultFormatterJoins(args[1..]);
      DefaultFormatterStep(args);
    } else if |args| == 1 {
      DefaultFormatterOfOne(args);
    }
  }

  /** The inductive step: one more column adds a slot and a separator in front. */
  lemma DefaultFormatterStep(args: seq<string>)
    requires |args| >= 2
    requires Format(Join(Slots(|args| - 1), " - "), args[1..]) == Success(Join(args[1..], " - "))
    ensures Format(Join(Slots(|args|), " - "), args) == Success(Join(args, " - "))
  {
    JoinSlotsStep(|args|);
    FormatOfSlotAndSeparator(Join(Slots(|args| - 1), " - "), args, Join(args[1..], " - "));
    JoinOfSeveral(args);
  }

  /** A slot then the separator: the first argument, " - ", then the rest formatted. */
  lemma FormatOfSlotAndSeparator(rest: string, args: seq<string>, formatted: string)
    requires |args| > 0 && Format(rest, args[1..]) == Success(formatted)
    ensures Format("%s" + (" - " + rest), args) == Success(args[0] + (" - " + formatted))
  {
    FormatOfSeparator(rest, args[1..]);
    FormatOfSlot(" - " + rest, args);
  }

  /** Two or more values: the first, the separator, then the rest joined. */
  lemma JoinOfSeveral(args: seq<string>)
    requires |args| >= 2
    ensures Join(args, " - ") == args[0] + (" - " + Join(args[1..], " - "))
  {
  }

  /** A single value is formatted by a single slot. */
  lemma DefaultFormatterOfOne(args: seq<string>)
    requires |args| == 1
    ensures Format(Join(Slots(1), " - "), args) == Success(Join(args, " - "))
  {
    assert Join(Slots(1), " - ") == "%s" + "";
    FormatOfSlot("", args);
    assert args[0] + "" == args[0];
  }
}

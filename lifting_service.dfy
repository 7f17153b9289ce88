/**
 * Lifting external entities from CSV data. A CSV reader holds the header
 * positions and a current line; an entities parser walks the data lines and
 * lets one entity parser per column mapping build an entity from the
 * current line; entities with the same id are merged, the stored one first.
 *
 * The CSV text is taken already split into records (`seq<seq<string>>`,
 * the header record first): OpenCSV's tokenising is not part of this model.
 * The specification functions below state what each step computes; the
 * classes and methods follow the Java objects and loops and are proved
 * equal to them.
 */
module LiftingService {
  import opened Wrappers
  import opened JavaStrings
  import opened ExternalEntities
  import LC = LiftingConfiguration
  import Models
  import ExternalEntityFilesRepository
  import CollectionsUtils

  /** The byte order mark, which header and column names may carry. */
  const BOM: char := '\U{FEFF}'

  /** cleanForComparison: lower case, the byte order mark turned into a space, trimmed. */
  function CleanForComparison(input: string): (r: string)
    ensures |r| > 0 ==> r[0] > ' ' && r[|r| - 1] > ' '
  {
    Trim(ReplaceChar(Lower(input), BOM, ' '))
  }

  /** A cleaned name has no upper-case letter and no byte order mark. */
  lemma CleanedHasNoUpperOrBom(s: string)
    ensures var c := CleanForComparison(s);
      forall i :: 0 <= i < |c| ==> !IsUpper(c[i]) && c[i] != BOM
  {
    var t := ReplaceChar(Lower(s), BOM, ' ');
    LoweredWithoutBom(s);
    TrimKeepsAll(t, ch => !IsUpper(ch) && ch != BOM);
  }

  lemma LoweredWithoutBom(s: string)
    ensures var t := ReplaceChar(Lower(s), BOM, ' ');
      forall i :: 0 <= i < |t| ==> !IsUpper(t[i]) && t[i] != BOM
  {
    var l := Lower(s);
    forall i | 0 <= i < |l|
      ensures !IsUpper(ReplaceChar(l, BOM, ' ')[i])
    {
      assert !IsUpper(l[i]);
    }
  }

  lemma LowerOfUpper(s: string)
    ensures Lower(Upper(s)) == Lower(s)
  {
    forall i | 0 <= i < |s|
      ensures Lower(Upper(s))[i] == Lower(s)[i]
    {
      var c := s[i];
      assert Upper(s)[i] == UpperChar(c);
      assert LowerChar(UpperChar(c)) == LowerChar(c);
    }
  }

  /** Header and column names compare without regard to case. */
  lemma CleanForComparisonIgnoresCase(s: string)
    ensures CleanForComparison(Upper(s)) == CleanForComparison(s)
    ensures CleanForComparison(Lower(s)) == CleanForComparison(s)
  {
    LowerOfUpper(s);
    LowerIdempotent(s);
  }

  /** Cleaning a cleaned name changes nothing. */
  lemma CleanForComparisonIdempotent(s: string)
    ensures CleanForComparison(CleanForComparison(s)) == CleanForComparison(s)
  {
    var t := ReplaceChar(Lower(s), BOM, ' ');
    var c := CleanForComparison(s);
    CleanedHasNoUpperOrBom(s);
    assert Lower(c) == c;
    assert ReplaceChar(c, BOM, ' ') == c;
    TrimIdempotent(t);
  }

  /** The cleaned form of each header name. */
  function CleanedNames(header: seq<string>): (r: seq<string>)
    ensures |r| == |header|
    ensures forall i :: 0 <= i < |header| ==> r[i] == CleanForComparison(header[i])
  {
    seq(|header|, i requires 0 <= i < |header| => CleanForComparison(header[i]))
  }

  /** Each name mapped to its position; for a repeated name the later position wins. */
  function PositionsOf(names: seq<string>): (r: map<string, nat>)
    ensures forall k :: k in r ==> r[k] < |names|
  {
    if |names| == 0 then map[]
    else PositionsOf(names[..|names| - 1])[names[|names| - 1] := |names| - 1]
  }

  /** One more name: its position overrides any earlier one. */
  lemma PositionsOfNext(names: seq<string>, i: nat)
    requires i < |names|
    ensures PositionsOf(names[..i + 1]) == PositionsOf(names[..i])[names[i] := i]
  {
    assert names[..i + 1][..i] == names[..i];
  }

  /** cleanHeaders: the positions of the cleaned header names. */
  function HeaderPositions(header: seq<string>): (r: map<string, nat>)
    ensures forall k :: k in r ==> r[k] < |header|
  {
    PositionsOf(CleanedNames(header))
  }

  lemma {:induction false} PositionsOfKeys(names: seq<string>)
    ensures forall k :: k in PositionsOf(names) <==> k in names
    decreases |names|
  {
    if |names| > 0 {
      var n := |names|;
      var init := names[..n - 1];
      PositionsOfKeys(init);
      assert names == init + [names[n - 1]];
    }
  }

  lemma {:induction false} PositionsOfLastWins(names: seq<string>)
    ensures forall k :: k in PositionsOf(names) ==>
              names[PositionsOf(names)[k]] == k
              && forall j :: PositionsOf(names)[k] < j < |names| ==> names[j] != k
    decreases |names|
  {
    if |names| > 0 {
      var n := |names|;
      var init := names[..n - 1];
      var m := PositionsOf(names);
      PositionsOfLastWins(init);
      forall k | k in m
        ensures names[m[k]] == k
        ensures forall j :: m[k] < j < n ==> names[j] != k
      {
        if k != names[n - 1] {
          var p := PositionsOf(init)[k];
          assert m[k] == p;
          assert names[p] == init[p];
          forall j | p < j < n
            ensures names[j] != k
          {
            if j < n - 1 {
              assert names[j] == init[j];
            }
          }
        }
      }
    }
  }

  /**
   * The header map has a key for each cleaned header name and no other,
   * mapped to the last position whose header cleans to that name.
   */
  lemma HeaderPositionsLastWins(header: seq<string>)
    ensures forall k :: k in HeaderPositions(header) <==>
              exists i :: 0 <= i < |header| && CleanForComparison(header[i]) == k
    ensures forall k :: k in HeaderPositions(header) ==>
              CleanForComparison(header[HeaderPositions(header)[k]]) == k
              && forall j :: HeaderPositions(header)[k] < j < |header| ==> CleanForComparison(header[j]) != k
  {
    var names := CleanedNames(header);
    PositionsOfKeys(names);
    PositionsOfLastWins(names);
    forall k | exists i :: 0 <= i < |header| && CleanForComparison(header[i]) == k
      ensures k in names
    {
      var i :| 0 <= i < |header| && CleanForComparison(header[i]) == k;
      assert names[i] == k;
    }
  }

  /**
   * getValue on a line: an unknown column is empty, a known column past the
   * end of a short line is out of bounds, otherwise the value at the header's position.
   */
  function ValueAt(headers: map<string, nat>, line: seq<string>, column: string): (r: Result<Option<string>>)
    ensures r.Success? && r.value.None? <==> CleanForComparison(column) !in headers
    ensures r.Failure? <==> CleanForComparison(column) in headers && headers[CleanForComparison(column)] >= |line|
    ensures r.Failure? ==> r.error == IndexOutOfBounds
    ensures r.Success? && r.value.Some? ==> r.value.value == line[headers[CleanForComparison(column)]]
  {
    var key := CleanForComparison(column);
    if key !in headers then Success(None)
    else if headers[key] >= |line| then Failure(IndexOutOfBounds)
    else Success(Some(line[headers[key]]))
  }

  /** Column lookup does not depend on the case of the column name. */
  lemma ValueAtIgnoresCase(headers: map<string, nat>, line: seq<string>, column: string)
    ensures ValueAt(headers, line, Upper(column)) == ValueAt(headers, line, column)
    ensures ValueAt(headers, line, Lower(column)) == ValueAt(headers, line, column)
  {
    CleanForComparisonIgnoresCase(column);
  }

  /** CsvTabularDataReader over the records of one CSV input. */
  class CsvTabularDataReader {
    /** The records the CSV reader yields, the header record first. */
    const lines: seq<seq<string>>
    var columnHeadersToPosition: map<string, nat>
    /** The index of the current line in `lines`; `|lines|` once readNext has returned null. */
    var position: nat

    ghost predicate Valid()
      reads this
    {
      0 < |lines| && position <= |lines| && columnHeadersToPosition == HeaderPositions(lines[0])
    }

    /**
     * initReader: the header record is the current line and fills the header
     * map. The Java constructor fails on an input without records; that case
     * is handled by LiftEntities before a reader is made.
     */
    constructor (lines: seq<seq<string>>)
      requires |lines| > 0
      ensures Valid() && this.lines == lines && position == 0
    {
      var headers := CleanHeaders(lines[0]);
      this.lines := lines;
      columnHeadersToPosition := headers;
      position := 0;
    }

    /** cleanHeaders, the loop over the header record. */
    static method CleanHeaders(csvHeaderLine: seq<string>) returns (headerToPosition: map<string, nat>)
      ensures headerToPosition == HeaderPositions(csvHeaderLine)
    {
      headerToPosition := map[];
      ghost var names := CleanedNames(csvHeaderLine);
      for i := 0 to |csvHeaderLine|
        invariant headerToPosition == PositionsOf(names[..i])
      {
        PositionsOfNext(names, i);
        headerToPosition := headerToPosition[CleanForComparison(csvHeaderLine[i]) := i];
      }
      assert names[..|csvHeaderLine|] == names;
    }

    predicate HasCurrentLine()
      reads this
    {
      position < |lines|
    }

    /** moveToNextLine: the next record becomes current; after the last one there is none. */
    method MoveToNextLine()
      requires Valid()
      modifies this
      ensures Valid()
      ensures columnHeadersToPosition == old(columnHeadersToPosition)
      ensures position == if old(position) < |lines| then old(position) + 1 else old(position)
    {
      if position < |lines| {
        position := position + 1;
      }
    }

    /** getValue on the current line. */
    function GetValue(column: string): (r: Result<Option<string>>)
      reads this
      requires Valid() && HasCurrentLine()
      ensures r == ValueAt(columnHeadersToPosition, lines[position], column)
    {
      ValueAt(columnHeadersToPosition, lines[position], column)
    }
  }

  /** normaliseNamespace: trimmed, with "/" appended unless it already ends in "/" or "#". */
  function NormaliseNamespace(namespace: string): (r: string)
    ensures EndsWith(r, "/") || EndsWith(r, "#")
    ensures StartsWith(r, Trim(namespace))
    ensures |r| > 0 && r[0] > ' ' && r[|r| - 1] > ' '
  {
    var trimmed := Trim(namespace);
    if EndsWith(trimmed, "/") || EndsWith(trimmed, "#") then trimmed else trimmed + "/"
  }

  /** Normalising a normalised namespace changes nothing. */
  lemma NormaliseNamespaceIdempotent(namespace: string)
    ensures NormaliseNamespace(NormaliseNamespace(namespace)) == NormaliseNamespace(namespace)
  {
    var r := NormaliseNamespace(namespace);
    assert TrimStart(r) == r;
    assert TrimEnd(r) == r;
  }

  /** The values the predefined properties of one entity collect. */
  datatype Fields = Fields(
    displayName: Option<string>,
    description: Option<string>,
    claimValue: Option<string>,
    surfaceForms: set<string>)

  const NoFields := Fields(None, None, None, {})

  /**
   * getColumnValues for a column list: per column, the value if the column
   * is known, case-transformed. A present value with a null transformation
   * fails, as does a line too short for a known column.
   */
  function ColumnValuesOf(columns: seq<string>, transformation: Option<LC.Transformation>,
                          headers: map<string, nat>, line: seq<string>): (r: Result<seq<string>>)
    ensures r.Success? ==> |r.value| <= |columns|
    ensures r.Failure? ==> r.error == NullPointer || r.error == IndexOutOfBounds
  {
    if |columns| == 0 then Success([])
    else
      var head :- ColumnValue(columns[0], transformation, headers, line);
      var rest :- ColumnValuesOf(columns[1..], transformation, headers, line);
      Success(head + rest)
  }

  /** The contribution of one column: nothing for an unknown column, else its transformed value. */
  function ColumnValue(column: string, transformation: Option<LC.Transformation>,
                       headers: map<string, nat>, line: seq<string>): (r: Result<seq<string>>)
    ensures r.Success? ==> (|r.value| == 1 <==> CleanForComparison(column) in headers) && |r.value| <= 1
    ensures r.Success? && |r.value| == 1 ==>
              transformation.Some? && ValueAt(headers, line, column).Success? && ValueAt(headers, line, column).value.Some?
              && r.value[0] == LC.Apply(transformation.value, ValueAt(headers, line, column).value.value)
    ensures r.Failure? ==> r.error == NullPointer || r.error == IndexOutOfBounds
  {
    var v :- ValueAt(headers, line, column);
    if v.None? then Success([])
    else if transformation.None? then Failure(NullPointer)
    else Success([LC.Apply(transformation.value, v.value)])
  }

  /** getColumnValues: a null column list fails. */
  function ColumnValues(mapping: LC.PropertyMapping, headers: map<string, nat>, line: seq<string>): (r: Result<seq<string>>)
    ensures r.Failure? ==> r.error == NullPointer || r.error == IndexOutOfBounds
  {
    if mapping.columns.None? then Failure(NullPointer)
    else ColumnValuesOf(mapping.columns.value, mapping.transformation, headers, line)
  }

  /** Every column names a known header. */
  predicate AllKnown(columns: seq<string>, headers: map<string, nat>)
  {
    forall i :: 0 <= i < |columns| ==> CleanForComparison(columns[i]) in headers
  }

  lemma AllKnownCons(columns: seq<string>, headers: map<string, nat>)
    requires |columns| > 0
    ensures AllKnown(columns, headers) <==> CleanForComparison(columns[0]) in headers && AllKnown(columns[1..], headers)
  {
    var rest := columns[1..];
    if CleanForComparison(columns[0]) in headers && AllKnown(rest, headers) {
      forall i | 0 <= i < |columns|
        ensures CleanForComparison(columns[i]) in headers
      {
        if i > 0 {
          assert columns[i] == rest[i - 1];
        }
      }
    }
    if AllKnown(columns, headers) {
      forall i | 0 <= i < |rest|
        ensures CleanForComparison(rest[i]) in headers
      {
        assert rest[i] == columns[i + 1];
      }
    }
  }

  /** A value is collected for every column exactly when every column is known. */
  lemma {:induction false} ColumnValuesOfCount(columns: seq<string>, transformation: Option<LC.Transformation>,
                                               headers: map<string, nat>, line: seq<string>)
    requires ColumnValuesOf(columns, transformation, headers, line).Success?
    ensures |ColumnValuesOf(columns, transformation, headers, line).value| == |columns| <==> AllKnown(columns, headers)
    decreases |columns|
  {
    if |columns| > 0 {
      var rest := columns[1..];
      var head := ColumnValue(columns[0], transformation, headers, line);
      var restValues := ColumnValuesOf(rest, transformation, headers, line);
      assert ColumnValuesOf(columns, transformation, headers, line).value == head.value + restValues.value;
      ColumnValuesOfCount(rest, transformation, headers, line);
      AllKnownCons(columns, headers);
    }
  }

  /** `v` is the value of `column` on the line, put through the transformation. */
  predicate IsTransformedValue(transformation: Option<LC.Transformation>, headers: map<string, nat>, line: seq<string>,
                               column: string, v: string)
  {
    && transformation.Some?
    && ValueAt(headers, line, column).Success?
    && ValueAt(headers, line, column).value.Some?
    && v == LC.Apply(transformation.value, ValueAt(headers, line, column).value.value)
  }

  /** When every column is known, the i-th value is the i-th column's value, transformed. */
  lemma {:induction false} ColumnValuesOfContents(columns: seq<string>, transformation: Option<LC.Transformation>,
                                                  headers: map<string, nat>, line: seq<string>)
    requires ColumnValuesOf(columns, transformation, headers, line).Success?
    requires AllKnown(columns, headers)
    ensures var values := ColumnValuesOf(columns, transformation, headers, line).value;
      |values| == |columns|
      && forall i :: 0 <= i < |columns| ==> IsTransformedValue(transformation, headers, line, columns[i], values[i])
    decreases |columns|
  {
    ColumnValuesOfCount(columns, transformation, headers, line);
    if |columns| > 0 {
      var rest := columns[1..];
      var values := ColumnValuesOf(columns, transformation, headers, line).value;
      var head := ColumnValue(columns[0], transformation, headers, line).value;
      var restValues := ColumnValuesOf(rest, transformation, headers, line).value;
      assert values == head + restValues;
      AllKnownCons(columns, headers);
      ColumnValuesOfContents(rest, transformation, headers, line);
      forall i | 0 <= i < |columns|
        ensures IsTransformedValue(transformation, headers, line, columns[i], values[i])
      {
        if i > 0 {
          assert values[i] == restValues[i - 1] && columns[i] == rest[i - 1];
        }
      }
    }
  }

  /** readValueAsString: the column values formatted with the mapping's formatter. */
  function ReadValueAsString(mapping: LC.PropertyMapping, headers: map<string, nat>, line: seq<string>): (r: Result<string>)
    ensures r.Failure? ==> r.error == NullPointer || r.error == IndexOutOfBounds || r.error == MissingFormatArgument
  {
    var values :- ColumnValues(mapping, headers, line);
    Format(mapping.GetFormatter(), values)
  }

  /**
   * With the default formatter, a value is read only when every listed
   * column is known; it is then the transformed values joined by " - ".
   * An unknown column leaves a slot without an argument.
   */
  lemma ReadValueWithDefaultFormatter(mapping: LC.PropertyMapping, headers: map<string, nat>, line: seq<string>)
    requires mapping.formatter.None? && mapping.columns.Some?
    requires ColumnValues(mapping, headers, line).Success?
    ensures var columns := mapping.columns.value;
      ReadValueAsString(mapping, headers, line).Success? <==> AllKnown(columns, headers)
    ensures ReadValueAsString(mapping, headers, line).Failure? ==>
              ReadValueAsString(mapping, headers, line).error == MissingFormatArgument
    ensures ReadValueAsString(mapping, headers, line).Success? ==>
              ReadValueAsString(mapping, headers, line).value == Join(ColumnValues(mapping, headers, line).value, " - ")
  {
    var columns := mapping.columns.value;
    var values := ColumnValues(mapping, headers, line).value;
    ColumnValuesOfCount(columns, mapping.transformation, headers, line);
    LC.DefaultFormatterSlots(columns);
    if |values| == |columns| {
      LC.DefaultFormatterJoins(values);
    }
  }

  /** parsePredefinedProperty / parseCustomProperty for one property mapping. */
  function ApplyProperty(fields: Fields, mapping: LC.PropertyMapping, headers: map<string, nat>, line: seq<string>)
    : (r: Result<Fields>)
    ensures mapping.target.Custom? ==> r == Failure(UnsupportedOperation)
    ensures r.Success? ==> fields.surfaceForms <= r.value.surfaceForms
    ensures r.Failure? ==> r.error == UnsupportedOperation || r.error == NullPointer || r.error == IndexOutOfBounds
                           || r.error == MissingFormatArgument
  {
    match mapping.target
    case Custom(_) => Failure(UnsupportedOperation)
    case Predefined(property) =>
      if property.None? then Failure(NullPointer)
      else
        var value :- ReadValueAsString(mapping, headers, line);
        match property.value
        case DISPLAY_NAME => Success(fields.(displayName := Some(value)))
        case SURFACE_FORM => Success(fields.(surfaceForms := fields.surfaceForms + {value}))
        case DESCRIPTION => Success(fields.(description := Some(value)))
        case CLAIM_VALUE => Success(fields.(claimValue := Some(value)))
  }

  /** parseProperties: the property mappings in order; the first failure ends the parse. */
  function ApplyProperties(fields: Fields, mappings: seq<LC.PropertyMapping>, headers: map<string, nat>, line: seq<string>)
    : (r: Result<Fields>)
    ensures r.Success? ==> fields.surfaceForms <= r.value.surfaceForms
    ensures r.Failure? ==> r.error == UnsupportedOperation || r.error == NullPointer || r.error == IndexOutOfBounds
                           || r.error == MissingFormatArgument
    decreases |mappings|
  {
    if |mappings| == 0 then Success(fields)
    else
      var next :- ApplyProperty(fields, mappings[0], headers, line);
      ApplyProperties(next, mappings[1..], headers, line)
  }

  /**
   * The end of ExternalEntityParser.parse: an empty id is an illegal state;
   * otherwise a group without members or an individual, by the mapping's entity type.
   */
  function BuildEntity(entityId: string, entityTypeIds: set<string>, mapping: LC.ColumnMapping, tag: Option<string>,
                       fields: Fields): (r: Result<ExternalEntity>)
    ensures |entityId| == 0 <==> r == Failure(IllegalState)
    ensures r.Success? ==>
      && r.value.entityId == Some(entityId) && r.value.id.None?
      && r.value.entityTypeIds == entityTypeIds && r.value.tag == tag
      && r.value.displayName == fields.displayName && r.value.description == fields.description
      && r.value.claimValue == fields.claimValue && r.value.surfaceForms == fields.surfaceForms
      && (mapping.GetEntityType() == LC.GROUP <==> r.value.Type() == GROUP)
      && (mapping.GetEntityType() == LC.INDIVIDUAL <==> r.value.Type() == INDIVIDUAL)
      && (r.value.variant.Group? ==> r.value.variant.members == {})
  {
    if |entityId| == 0 then Failure(IllegalState)
    else
      var variant := if mapping.GetEntityType() == LC.GROUP then Group({}) else Individual;
      Success(NewEntity(Some(entityId), entityTypeIds, fields.displayName, fields.surfaceForms,
                        fields.description, tag, fields.claimValue, variant))
  }

  /**
   * ExternalEntityParser.parse as a function of the namespace, the column
   * mapping, the tag and the current line. A mapping without a column fails
   * in the column lookup, and one without a type fails once the id value has
   * been read, when the URI is generated from the type's local name: both
   * are null-pointer failures.
   */
  function ParseEntity(namespace: string, mapping: LC.ColumnMapping, tag: Option<string>,
                       headers: map<string, nat>, line: seq<string>): (r: Result<ExternalEntity>)
    ensures r.Success? ==> r.value.entityId.Some? && r.value.id.None?
    ensures r.Success? ==> mapping.column.Some? && mapping.typeUri.Some?
  {
    if mapping.column.None? then Failure(NullPointer)
    else
      var value :- ValueAt(headers, line, mapping.column.value);
      if value.None? then Failure(IllegalArgument)
      else if mapping.typeUri.None? then Failure(NullPointer)
      else
        var fields :- ApplyProperties(NoFields, mapping.properties, headers, line);
        BuildEntity(Models.GenerateUriForIndividual(namespace, mapping.typeUri.value, value.value),
                    {mapping.typeUri.value}, mapping, tag, fields)
  }

  /**
   * ParseEntity by its steps: the id column (a null column first), the
   * type (null after a present id value), the property mappings, and the
   * entity built from them.
   */
  lemma ParseEntitySteps(namespace: string, mapping: LC.ColumnMapping, tag: Option<string>,
                         headers: map<string, nat>, line: seq<string>)
    ensures mapping.column.None? ==> ParseEntity(namespace, mapping, tag, headers, line) == Failure(NullPointer)
    ensures mapping.column.Some? ==>
      var v := ValueAt(headers, line, mapping.column.value);
      var p := ParseEntity(namespace, mapping, tag, headers, line);
      && (v.Failure? ==> p == Failure(v.error))
      && (v == Success(None) ==> p == Failure(IllegalArgument))
      && (v.Success? && v.value.Some? && mapping.typeUri.None? ==> p == Failure(NullPointer))
      && (v.Success? && v.value.Some? && mapping.typeUri.Some? ==>
            var fields := ApplyProperties(NoFields, mapping.properties, headers, line);
            && (fields.Failure? ==> p == Failure(fields.error))
            && (fields.Success? ==>
                  p == BuildEntity(Models.GenerateUriForIndividual(namespace, mapping.typeUri.value, v.value.value),
                                   {mapping.typeUri.value}, mapping, tag, fields.value)))
  {
  }

  /**
   * A missing column or type is a null pointer, a missing id value is an
   * illegal argument, a custom property mapping is unsupported, and the
   * empty-id check never fires because generated ids are never empty.
   */
  lemma ParseEntityErrors(namespace: string, mapping: LC.ColumnMapping, tag: Option<string>,
                          headers: map<string, nat>, line: seq<string>)
    ensures mapping.column.None? ==> ParseEntity(namespace, mapping, tag, headers, line) == Failure(NullPointer)
    ensures mapping.column.Some? && ValueAt(headers, line, mapping.column.value) == Success(None) ==>
              ParseEntity(namespace, mapping, tag, headers, line) == Failure(IllegalArgument)
    ensures mapping.column.Some? && ValueAt(headers, line, mapping.column.value).Success?
            && ValueAt(headers, line, mapping.column.value).value.Some? && mapping.typeUri.None?
            ==> ParseEntity(namespace, mapping, tag, headers, line) == Failure(NullPointer)
    ensures ParseEntity(namespace, mapping, tag, headers, line) != Failure(IllegalState)
    ensures mapping.column.Some? && mapping.typeUri.Some?
            && ValueAt(headers, line, mapping.column.value).Success? && ValueAt(headers, line, mapping.column.value).value.Some?
            && |mapping.properties| > 0 && mapping.properties[0].target.Custom?
            ==> ParseEntity(namespace, mapping, tag, headers, line) == Failure(UnsupportedOperation)
  {
    ParseEntitySteps(namespace, mapping, tag, headers, line);
    if mapping.column.Some? && mapping.typeUri.Some? {
      var v := ValueAt(headers, line, mapping.column.value);
      if v.Success? && v.value.Some? {
        Models.GeneratedUriIsLonger(namespace, mapping.typeUri.value, v.value.value);
        var fields := ApplyProperties(NoFields, mapping.properties, headers, line);
        if |mapping.properties| > 0 && mapping.properties[0].target.Custom? {
          assert ApplyProperty(NoFields, mapping.properties[0], headers, line) == Failure(UnsupportedOperation);
          assert fields == Failure(UnsupportedOperation);
        }
      }
    }
  }

  /**
   * A parsed entity comes from a mapping with a column and a type; it
   * carries the generated URI of its id value, exactly the mapping's type,
   * the tag, and the class of the mapping's entity type; a group starts
   * without members.
   */
  lemma ParseEntityShape(namespace: string, mapping: LC.ColumnMapping, tag: Option<string>,
                         headers: map<string, nat>, line: seq<string>)
    requires ParseEntity(namespace, mapping, tag, headers, line).Success?
    ensures mapping.column.Some? && mapping.typeUri.Some?
    ensures var e := ParseEntity(namespace, mapping, tag, headers, line).value;
      && ValueAt(headers, line, mapping.column.value).Success?
      && ValueAt(headers, line, mapping.column.value).value.Some?
      && e.entityId == Some(Models.GenerateUriForIndividual(namespace, mapping.typeUri.value,
                                                             ValueAt(headers, line, mapping.column.value).value.value))
      && e.entityTypeIds == {mapping.typeUri.value}
      && e.tag == tag
      && (mapping.GetEntityType() == LC.GROUP <==> e.Type() == GROUP)
      && (mapping.GetEntityType() == LC.INDIVIDUAL <==> e.Type() == INDIVIDUAL)
      && (e.variant.Group? ==> e.variant.members == {})
  {
  }

  /** The parse of one column mapping against a fixed line. */
  function EntityParserFor(namespace: string, tag: Option<string>, headers: map<string, nat>, line: seq<string>)
    : LC.ColumnMapping -> Result<ExternalEntity>
  {
    m => ParseEntity(namespace, m, tag, headers, line)
  }

  /** parseEntitiesFromCurrentLine: one entity per column mapping in order; a null mapping collection fails. */
  function ParseLine(namespace: string, mappings: Option<seq<LC.ColumnMapping>>, tag: Option<string>,
                     headers: map<string, nat>, line: seq<string>): Result<seq<ExternalEntity>>
  {
    if mappings.None? then Failure(NullPointer)
    else CollectionsUtils.MapAllFrom(EntityParserFor(namespace, tag, headers, line), [], mappings.value)
  }

  /** A line yields exactly one entity per column mapping, the i-th parsed by the i-th mapping. */
  lemma ParseLineOnePerMapping(namespace: string, mappings: seq<LC.ColumnMapping>, tag: Option<string>,
                               headers: map<string, nat>, line: seq<string>)
    requires ParseLine(namespace, Some(mappings), tag, headers, line).Success?
    ensures var r := ParseLine(namespace, Some(mappings), tag, headers, line).value;
      && |r| == |mappings|
      && forall i :: 0 <= i < |r| ==> ParseEntity(namespace, mappings[i], tag, headers, line) == Success(r[i])
  {
    CollectionsUtils.MapAllResults(EntityParserFor(namespace, tag, headers, line), mappings,
                                   ParseLine(namespace, Some(mappings), tag, headers, line).value);
  }

  /** A line fails exactly when one of its mappings fails, with the error of the first that does. */
  lemma ParseLineFailure(namespace: string, mappings: seq<LC.ColumnMapping>, tag: Option<string>,
                         headers: map<string, nat>, line: seq<string>, i: nat)
    requires i < |mappings| && ParseEntity(namespace, mappings[i], tag, headers, line).Failure?
    requires forall j :: 0 <= j < i ==> ParseEntity(namespace, mappings[j], tag, headers, line).Success?
    ensures ParseLine(namespace, Some(mappings), tag, headers, line)
         == Failure(ParseEntity(namespace, mappings[i], tag, headers, line).error)
  {
    var f := EntityParserFor(namespace, tag, headers, line);
    CollectionsUtils.MapAllFromFailure(f, [], mappings);
    assert forall j :: 0 <= j < i ==> f(mappings[j]).Success?;
    assert f(mappings[i]) == ParseEntity(namespace, mappings[i], tag, headers, line);
  }

  /** Adds the entities of one line to the map: a new id is stored, a known one merged into the stored entity. */
  function PutAll(acc: map<string, ExternalEntity>, entities: seq<ExternalEntity>): (r: Result<map<string, ExternalEntity>>)
    requires forall i :: 0 <= i < |entities| ==> entities[i].entityId.Some?
    decreases |entities|
  {
    if |entities| == 0 then Success(acc)
    else
      var e := entities[0];
      var key := e.entityId.value;
      var stored :- if key !in acc then Success(e) else Merge(acc[key], Some(e));
      PutAll(acc[key := stored], entities[1..])
  }

  /**
   * The lifting fold agrees with the file repository's grouping fold: the
   * same maps, and the same failures except that an unmergeable pair is an
   * illegal argument here and an illegal state there.
   */
  lemma {:induction false} PutAllIsGroupByEntityId(acc: map<string, ExternalEntity>, entities: seq<ExternalEntity>)
    requires forall i :: 0 <= i < |entities| ==> entities[i].entityId.Some?
    ensures var g := ExternalEntityFilesRepository.GroupByEntityId(acc, entities);
      PutAll(acc, entities) == (if g.Failure? && g.error == IllegalState then Failure(IllegalArgument) else g)
    decreases |entities|
  {
    if |entities| > 0 {
      var e := entities[0];
      var key := e.entityId.value;
      if key in acc {
        MergeSucceeds(acc[key], e);
      }
      var step := if key !in acc then Success(e) else Merge(acc[key], Some(e));
      if step.Success? {
        PutAllIsGroupByEntityId(acc[key := step.value], entities[1..]);
      }
    }
  }

  /** The data lines in order, starting from the map `acc`. */
  function LiftFrom(acc: map<string, ExternalEntity>, namespace: string, mappings: Option<seq<LC.ColumnMapping>>,
                    tag: Option<string>, headers: map<string, nat>, lines: seq<seq<string>>)
    : (r: Result<map<string, ExternalEntity>>)
    decreases |lines|
  {
    if |lines| == 0 then Success(acc)
    else
      var entities :- ParseLine(namespace, mappings, tag, headers, lines[0]);
      ParseLineIds(namespace, mappings, tag, headers, lines[0]);
      var next :- PutAll(acc, entities);
      LiftFrom(next, namespace, mappings, tag, headers, lines[1..])
  }

  /** One step of the lifting fold: the first line's entities are stored, then the rest is lifted. */
  lemma LiftFromCons(acc: map<string, ExternalEntity>, namespace: string, mappings: Option<seq<LC.ColumnMapping>>,
                     tag: Option<string>, headers: map<string, nat>, lines: seq<seq<string>>)
    requires |lines| > 0
    ensures ParseLine(namespace, mappings, tag, headers, lines[0]).Failure? ==>
      LiftFrom(acc, namespace, mappings, tag, headers, lines) == Failure(ParseLine(namespace, mappings, tag, headers, lines[0]).error)
    ensures ParseLine(namespace, mappings, tag, headers, lines[0]).Success? ==>
      var entities := ParseLine(namespace, mappings, tag, headers, lines[0]).value;
      && (forall i :: 0 <= i < |entities| ==> entities[i].entityId.Some?)
      && LiftFrom(acc, namespace, mappings, tag, headers, lines) ==
           match PutAll(acc, entities)
           case Failure(e) => Failure(e)
           case Success(next) => LiftFrom(next, namespace, mappings, tag, headers, lines[1..])
  {
    if ParseLine(namespace, mappings, tag, headers, lines[0]).Success? {
      ParseLineIds(namespace, mappings, tag, headers, lines[0]);
    }
  }

  lemma ParseLineIds(namespace: string, mappings: Option<seq<LC.ColumnMapping>>, tag: Option<string>,
                     headers: map<string, nat>, line: seq<string>)
    requires ParseLine(namespace, mappings, tag, headers, line).Success?
    ensures var r := ParseLine(namespace, mappings, tag, headers, line).value;
      forall i :: 0 <= i < |r| ==> r[i].entityId.Some?
  {
    var ms := mappings.value;
    ParseLineOnePerMapping(namespace, ms, tag, headers, line);
    var r := ParseLine(namespace, mappings, tag, headers, line).value;
    forall i | 0 <= i < |r|
      ensures r[i].entityId.Some?
    {
      assert ParseEntity(namespace, ms[i], tag, headers, line) == Success(r[i]);
    }
  }

  /** The lifted map holds every entity under its own entityId, so at most one entity per id. */
  lemma {:induction false} LiftFromKeyedById(acc: map<string, ExternalEntity>, namespace: string,
                                             mappings: Option<seq<LC.ColumnMapping>>, tag: Option<string>,
                                             headers: map<string, nat>, lines: seq<seq<string>>)
    requires ExternalEntityFilesRepository.KeyedById(acc)
    requires LiftFrom(acc, namespace, mappings, tag, headers, lines).Success?
    ensures ExternalEntityFilesRepository.KeyedById(LiftFrom(acc, namespace, mappings, tag, headers, lines).value)
    ensures acc.Keys <= LiftFrom(acc, namespace, mappings, tag, headers, lines).value.Keys
    decreases |lines|
  {
    if |lines| > 0 {
      var entities := ParseLine(namespace, mappings, tag, headers, lines[0]).value;
      ParseLineIds(namespace, mappings, tag, headers, lines[0]);
      PutAllIsGroupByEntityId(acc, entities);
      ExternalEntityFilesRepository.GroupByEntityIdKeys(acc, entities);
      var next := PutAll(acc, entities).value;
      LiftFromKeyedById(next, namespace, mappings, tag, headers, lines[1..]);
    }
  }

  /**
   * liftEntities: an input without records fails on its missing header, a
   * null namespace fails; otherwise the data lines after the header are lifted.
   */
  function Lift(lines: seq<seq<string>>, tag: Option<string>, configuration: LC.Configuration)
    : (r: Result<map<string, ExternalEntity>>)
    ensures |lines| == 0 || configuration.namespace.None? ==> r == Failure(NullPointer)
  {
    if |lines| == 0 || configuration.namespace.None? then Failure(NullPointer)
    else LiftFrom(map[], NormaliseNamespace(configuration.namespace.value), configuration.columns, tag,
                  HeaderPositions(lines[0]), lines[1..])
  }

  /** An input with records and a namespace lifts its data records from an empty map. */
  lemma LiftOfRecords(lines: seq<seq<string>>, tag: Option<string>, configuration: LC.Configuration)
    requires |lines| > 0 && configuration.namespace.Some?
    ensures Lift(lines, tag, configuration) == LiftFrom(map[], NormaliseNamespace(configuration.namespace.value),
                                                       configuration.columns, tag, HeaderPositions(lines[0]), lines[1..])
  {
  }

  /** The header record produces no entities: a header-only input lifts to nothing, whatever the mappings. */
  lemma HeaderOnlyLiftsNothing(header: seq<string>, tag: Option<string>, configuration: LC.Configuration)
    requires configuration.namespace.Some?
    ensures Lift([header], tag, configuration) == Success(map[])
  {
  }

  /** A lifted input yields at most one entity per entityId, stored under that id. */
  lemma LiftKeyedById(lines: seq<seq<string>>, tag: Option<string>, configuration: LC.Configuration)
    requires Lift(lines, tag, configuration).Success?
    ensures ExternalEntityFilesRepository.KeyedById(Lift(lines, tag, configuration).value)
  {
    LiftFromKeyedById(map[], NormaliseNamespace(configuration.namespace.value), configuration.columns, tag,
                      HeaderPositions(lines[0]), lines[1..]);
  }

  /** The entities of the data lines, line by line and mapping by mapping, or the first line's parse error. */
  function LiftedEntities(namespace: string, mappings: Option<seq<LC.ColumnMapping>>, tag: Option<string>,
                          headers: map<string, nat>, lines: seq<seq<string>>): Result<seq<ExternalEntity>>
    decreases |lines|
  {
    if |lines| == 0 then Success([])
    else
      var entities :- ParseLine(namespace, mappings, tag, headers, lines[0]);
      var more :- LiftedEntities(namespace, mappings, tag, headers, lines[1..]);
      Success(entities + more)
  }

  /** The lifting fold is the repository's grouping fold over all the lifted entities in order. */
  lemma {:induction false} LiftFromIsGroupByEntityId(acc: map<string, ExternalEntity>, namespace: string,
                                                     mappings: Option<seq<LC.ColumnMapping>>, tag: Option<string>,
                                                     headers: map<string, nat>, lines: seq<seq<string>>)
    requires LiftFrom(acc, namespace, mappings, tag, headers, lines).Success?
    ensures LiftedEntities(namespace, mappings, tag, headers, lines).Success?
    ensures ExternalEntityFilesRepository.GroupByEntityId(acc, LiftedEntities(namespace, mappings, tag, headers, lines).value)
         == LiftFrom(acc, namespace, mappings, tag, headers, lines)
    decreases |lines|
  {
    if |lines| > 0 {
      var entities := ParseLine(namespace, mappings, tag, headers, lines[0]).value;
      ParseLineIds(namespace, mappings, tag, headers, lines[0]);
      PutAllIsGroupByEntityId(acc, entities);
      var next := PutAll(acc, entities).value;
      LiftFromIsGroupByEntityId(next, namespace, mappings, tag, headers, lines[1..]);
      var more := LiftedEntities(namespace, mappings, tag, headers, lines[1..]).value;
      ExternalEntityFilesRepository.GroupByEntityIdAppend(acc, entities, more);
    }
  }

  /**
   * What a lifted entity holds: the merge of every entity lifted with its
   * id, in line order and mapping order, so the first non-null value of
   * each singular field and the union of the type ids, surface forms and
   * group members.
   */
  lemma LiftMergesDuplicates(lines: seq<seq<string>>, tag: Option<string>, configuration: LC.Configuration, k: string)
    requires Lift(lines, tag, configuration).Success? && k in Lift(lines, tag, configuration).value
    ensures var namespace := NormaliseNamespace(configuration.namespace.value);
      var all := LiftedEntities(namespace, configuration.columns, tag, HeaderPositions(lines[0]), lines[1..]);
      && all.Success?
      && var m, es := Lift(lines, tag, configuration).value[k], ExternalEntityFilesRepository.WithId(all.value, k);
      && |es| > 0
      && ExternalEntityFilesRepository.MergeAll(es[0], es[1..]) == Success(m)
      && (forall f :: ExternalEntityFilesRepository.SingularValue(m, f) == ExternalEntityFilesRepository.FirstOf(es, f))
      && m.entityTypeIds == ExternalEntityFilesRepository.UnionOfTypeIds(es)
      && m.surfaceForms == ExternalEntityFilesRepository.UnionOfSurfaceForms(es)
      && (m.variant.Group? ==> m.variant.members == ExternalEntityFilesRepository.UnionOfMembers(es))
  {
    var namespace := NormaliseNamespace(configuration.namespace.value);
    var headers := HeaderPositions(lines[0]);
    LiftFromIsGroupByEntityId(map[], namespace, configuration.columns, tag, headers, lines[1..]);
    var all := LiftedEntities(namespace, configuration.columns, tag, headers, lines[1..]).value;
    ExternalEntityFilesRepository.GroupByEntityIdIsMergeAll(map[], all);
    ExternalEntityFilesRepository.GroupedEntityFields(all, k);
  }

  /** The inner ExternalEntityParser: fields filled step by step from the current line. */
  class ExternalEntityParser {
    const namespace: string
    const mapping: LC.ColumnMapping
    const entityTag: Option<string>
    var entityId: string
    var description: Option<string>
    var displayName: Option<string>
    var claimValue: Option<string>
    var surfaceForms: set<string>
    var entityTypeIds: set<string>

    constructor (namespace: string, mapping: LC.ColumnMapping, entityTag: Option<string>)
      ensures this.namespace == namespace && this.mapping == mapping && this.entityTag == entityTag
      ensures Current() == NoFields && entityTypeIds == {}
    {
      this.namespace := namespace;
      this.mapping := mapping;
      this.entityTag := entityTag;
      entityId := "";
      description, displayName, claimValue := None, None, None;
      surfaceForms, entityTypeIds := {}, {};
    }

    /** The property fields collected so far. */
    function Current(): Fields
      reads this
    {
      Fields(displayName, description, claimValue, surfaceForms)
    }

    method Parse(reader: CsvTabularDataReader) returns (r: Result<ExternalEntity>)
      requires reader.Valid() && reader.HasCurrentLine()
      requires Current() == NoFields
      modifies this
      ensures r == ParseEntity(namespace, mapping, entityTag, reader.columnHeadersToPosition, reader.lines[reader.position])
    {
      ghost var headers, line := reader.columnHeadersToPosition, reader.lines[reader.position];
      ParseEntitySteps(namespace, mapping, entityTag, headers, line);
      var idError := ParseEntityId(reader);
      if idError.Some? {
        return Failure(idError.value);
      }
      ParseEntityTypes();
      ghost var fields := ApplyProperties(Current(), mapping.properties, headers, line);
      var propertiesError := ParseProperties(reader);
      if propertiesError.Some? {
        return Failure(propertiesError.value);
      }
      assert fields == Success(Current());
      if |entityId| == 0 {
        return Failure(IllegalState);
      }
      if mapping.GetEntityType() == LC.GROUP {
        r := Success(NewEntity(Some(entityId), entityTypeIds, displayName, surfaceForms, description, entityTag, claimValue, Group({})));
      } else {
        r := Success(NewEntity(Some(entityId), entityTypeIds, displayName, surfaceForms, description, entityTag, claimValue, Individual));
      }
      assert r == BuildEntity(entityId, entityTypeIds, mapping, entityTag, Current());
    }

    /**
     * parseEntityId: the generated URI of the id column's value. A null
     * column or a null type is a null pointer, and a missing value is an
     * illegal argument.
     */
    method ParseEntityId(reader: CsvTabularDataReader) returns (error: Option<Exception>)
      requires reader.Valid() && reader.HasCurrentLine()
      modifies this
      ensures mapping.column.None? ==> error == Some(NullPointer)
      ensures mapping.column.Some? ==>
        var v := ValueAt(reader.columnHeadersToPosition, reader.lines[reader.position], mapping.column.value);
        && (v.Failure? ==> error == Some(v.error))
        && (v == Success(None) ==> error == Some(IllegalArgument))
        && (v.Success? && v.value.Some? && mapping.typeUri.None? ==> error == Some(NullPointer))
        && (v.Success? && v.value.Some? && mapping.typeUri.Some? ==>
              error.None? && entityId == Models.GenerateUriForIndividual(namespace, mapping.typeUri.value, v.value.value))
      ensures Current() == old(Current()) && entityTypeIds == old(entityTypeIds)
    {
      if mapping.column.None? {
        return Some(NullPointer);
      }
      var columnValue := reader.GetValue(mapping.column.value);
      assert columnValue == ValueAt(reader.columnHeadersToPosition, reader.lines[reader.position], mapping.column.value);
      if columnValue.Failure? {
        error := Some(columnValue.error);
      } else if columnValue.value.None? {
        error := Some(IllegalArgument);
      } else if mapping.typeUri.None? {
        error := Some(NullPointer);
      } else {
        entityId := Models.GenerateUriForIndividual(namespace, mapping.typeUri.value, columnValue.value.value);
        error := None;
      }
    }

    /**
     * parseEntityTypes: the mapping's type is the only type id. parse calls
     * it only after parseEntityId, which has already failed on a null type.
     */
    method ParseEntityTypes()
      requires mapping.typeUri.Some?
      modifies this
      ensures entityTypeIds == {mapping.typeUri.value}
      ensures Current() == old(Current()) && entityId == old(entityId)
    {
      entityTypeIds := {mapping.typeUri.value};
    }

    /** parseProperties: the loop over the property mappings. */
    method ParseProperties(reader: CsvTabularDataReader) returns (error: Option<Exception>)
      requires reader.Valid() && reader.HasCurrentLine()
      modifies this
      ensures ApplyProperties(old(Current()), mapping.properties, reader.columnHeadersToPosition, reader.lines[reader.position])
              == (if error.None? then Success(Current()) else Failure(error.value))
      ensures entityId == old(entityId) && entityTypeIds == old(entityTypeIds)
    {
      var headers, line := reader.columnHeadersToPosition, reader.lines[reader.position];
      var properties := mapping.properties;
      for i := 0 to |properties|
        invariant ApplyProperties(Current(), properties[i..], headers, line)
               == ApplyProperties(old(Current()), properties, headers, line)
        invariant entityId == old(entityId) && entityTypeIds == old(entityTypeIds)
      {
        error := ParseProperty(properties[i], reader);
        if error.Some? {
          return;
        }
        assert properties[i..][1..] == properties[i + 1..];
      }
      error := None;
    }

    /** parseProperty: a predefined property sets its field, a custom one is unsupported. */
    method ParseProperty(propertyMapping: LC.PropertyMapping, reader: CsvTabularDataReader) returns (error: Option<Exception>)
      requires reader.Valid() && reader.HasCurrentLine()
      modifies this
      ensures ApplyProperty(old(Current()), propertyMapping, reader.columnHeadersToPosition, reader.lines[reader.position])
              == (if error.None? then Success(Current()) else Failure(error.value))
      ensures entityId == old(entityId) && entityTypeIds == old(entityTypeIds)
    {
      match propertyMapping.target
      case Custom(_) =>
        return Some(UnsupportedOperation);
      case Predefined(property) =>
        if property.None? {
          return Some(NullPointer);
        }
        var value := ReadValueAsString(propertyMapping, reader.columnHeadersToPosition, reader.lines[reader.position]);
        if value.Failure? {
          return Some(value.error);
        }
        error := None;
        match property.value
        case DISPLAY_NAME => displayName := Some(value.value);
        case SURFACE_FORM => surfaceForms := surfaceForms + {value.value};
        case DESCRIPTION => description := Some(value.value);
        case CLAIM_VALUE => claimValue := Some(value.value);
    }
  }

  /** ExternalEntitiesParser: the data lines of one reader under one configuration. */
  class ExternalEntitiesParser {
    const reader: CsvTabularDataReader
    /** The namespace of generated ids, ending in "/" or "#". */
    const namespace: string
    const columnMappings: Option<seq<LC.ColumnMapping>>
    const entitiesTag: Option<string>

    constructor (reader: CsvTabularDataReader, namespace: string, columnMappings: Option<seq<LC.ColumnMapping>>,
                 entitiesTag: Option<string>)
      ensures this.reader == reader && this.namespace == NormaliseNamespace(namespace)
      ensures this.columnMappings == columnMappings && this.entitiesTag == entitiesTag
    {
      this.reader := reader;
      this.namespace := NormaliseNamespace(namespace);
      this.columnMappings := columnMappings;
      this.entitiesTag := entitiesTag;
    }

    /** parseEntitiesFromCurrentLine: a new entity parser per column mapping. */
    method ParseEntitiesFromCurrentLine() returns (r: Result<seq<ExternalEntity>>)
      requires reader.Valid() && reader.HasCurrentLine()
      ensures r == ParseLine(namespace, columnMappings, entitiesTag, reader.columnHeadersToPosition, reader.lines[reader.position])
    {
      if columnMappings.None? {
        return Failure(NullPointer);
      }
      var mappings := columnMappings.value;
      var headers, line := reader.columnHeadersToPosition, reader.lines[reader.position];
      ghost var f := EntityParserFor(namespace, entitiesTag, headers, line);
      var parsed: seq<ExternalEntity> := [];
      for i := 0 to |mappings|
        invariant CollectionsUtils.MapAllFrom(f, parsed, mappings[i..]) == CollectionsUtils.MapAllFrom(f, [], mappings)
      {
        var parser := new ExternalEntityParser(namespace, mappings[i], entitiesTag);
        var entity := parser.Parse(reader);
        assert entity == f(mappings[i]);
        if entity.Failure? {
          return Failure(entity.error);
        }
        assert mappings[i..][1..] == mappings[i + 1..];
        parsed := parsed + [entity.value];
      }
      r := Success(parsed);
    }

    /** The loop of parse over the entities of one line: each is stored under its id, merged into the stored one. */
    static method PutEntities(acc: map<string, ExternalEntity>, lineEntities: seq<ExternalEntity>)
      returns (r: Result<map<string, ExternalEntity>>)
      requires forall i :: 0 <= i < |lineEntities| ==> lineEntities[i].entityId.Some?
      ensures r == PutAll(acc, lineEntities)
    {
      var entities := acc;
      for j := 0 to |lineEntities|
        invariant PutAll(entities, lineEntities[j..]) == PutAll(acc, lineEntities)
      {
        var entity := lineEntities[j];
        var key := entity.entityId.value;
        assert lineEntities[j..][1..] == lineEntities[j + 1..];
        if key !in entities {
          entities := entities[key := entity];
        } else {
          var merged := Merge(entities[key], Some(entity));
          if merged.Failure? {
            return Failure(merged.error);
          }
          entities := entities[key := merged.value];
        }
      }
      r := Success(entities);
    }

    /**
     * parse: skips the header, then adds the entities of each data line to
     * the map, merging an entity into the stored one with the same id.
     */
    method Parse() returns (r: Result<map<string, ExternalEntity>>)
      requires reader.Valid()
      modifies reader
      ensures reader.Valid()
      ensures var start := if old(reader.position) < |reader.lines| then old(reader.position) + 1 else old(reader.position);
        r == LiftFrom(map[], namespace, columnMappings, entitiesTag, reader.columnHeadersToPosition, reader.lines[start..])
      ensures r.Success? ==> !reader.HasCurrentLine()
    {
      var entities: map<string, ExternalEntity> := map[];
      reader.MoveToNextLine();
      ghost var headers := reader.columnHeadersToPosition;
      ghost var rows := reader.lines[reader.position..];
      while reader.HasCurrentLine()
        invariant reader.Valid() && reader.columnHeadersToPosition == headers
        invariant LiftFrom(entities, namespace, columnMappings, entitiesTag, headers, reader.lines[reader.position..])
               == LiftFrom(map[], namespace, columnMappings, entitiesTag, headers, rows)
        decreases |reader.lines| - reader.position
      {
        LiftFromCons(entities, namespace, columnMappings, entitiesTag, headers, reader.lines[reader.position..]);
        assert reader.lines[reader.position..][1..] == reader.lines[reader.position + 1..];
        var parsed := ParseEntitiesFromCurrentLine();
        if parsed.Failure? {
          return Failure(parsed.error);
        }
        var put := PutEntities(entities, parsed.value);
        if put.Failure? {
          return Failure(put.error);
        }
        entities := put.value;
        reader.MoveToNextLine();
      }
      r := Success(entities);
    }
  }

  /** LiftingService.liftEntities: the values of the lifted map. */
  method LiftEntities(lines: seq<seq<string>>, entitiesTag: Option<string>, configuration: LC.Configuration)
    returns (r: Result<set<ExternalEntity>>)
    ensures r.Success? <==> Lift(lines, entitiesTag, configuration).Success?
    ensures r.Success? ==> r.value == Lift(lines, entitiesTag, configuration).value.Values
    ensures r.Failure? ==> r.error == Lift(lines, entitiesTag, configuration).error
  {
    if |lines| == 0 {
      return Failure(NullPointer);
    }
    var reader := new CsvTabularDataReader(lines);
    if configuration.namespace.None? {
      return Failure(NullPointer);
    }
    var parser := new ExternalEntitiesParser(reader, configuration.namespace.value, configuration.columns, entitiesTag);
    var entities := parser.Parse();
    assert reader.lines[1..] == lines[1..];
    assert entities == LiftFrom(map[], NormaliseNamespace(configuration.namespace.value), configuration.columns, entitiesTag,
                                HeaderPositions(lines[0]), lines[1..]);
    LiftOfRecords(lines, entitiesTag, configuration);
    if entities.Failure? {
      return Failure(entities.error);
    }
    r := Success(entities.value.Values);
  }
}

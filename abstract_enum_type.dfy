/**
 * `AbstractEnumType`: the Doctrine column type that stores a PHP enum as a
 * PostgreSQL enumerated type. It converts values in both directions and
 * hands the DDL to `EnumTypeHelper`.
 */
module AbstractEnumType {
  import opened Wrappers
  import opened PhpEnum
  import EnumTypeHelper

  /** A concrete subclass, reduced to what its two abstract static methods return. */
  datatype EnumType = EnumType(
    typeName: string,    // `getTypeName()`
    enumDecl: EnumDecl)  // the enum `getEnumClass()` names

  /** What the persistence layer hands to the write path: null, an enum case, or a string. */
  datatype PhpValue = NullValue | EnumValue(c: EnumCase) | StringValue(s: string)

  datatype ConversionError =
    | NotStringable(caseName: string)            // `(string)` cast of a case without a backing value
    | InvalidValue(value: string, enumClass: string)  // strict read of a value the enum does not know

  /** `getSQLDeclaration($column, $platform)`: the type name, whatever the column and the platform. */
  function SqlDeclaration(t: EnumType, column: map<string, string>, platform: EnumTypeHelper.Platform): (r: string)
    ensures r == t.typeName
  {
    t.typeName
  }

  /**
   * `convertToDatabaseValue($value, $platform)`: null stays null, a backed
   * case becomes its backing value, a string is stored as it is. A case
   * without a backing value has no string form, so the cast throws.
   */
  function ConvertToDatabaseValue(value: PhpValue): (r: Result<Option<string>, ConversionError>)
    ensures r == Success(None) <==> value.NullValue?
    ensures value.EnumValue? && value.c.backing.Some? ==> r == Success(value.c.backing)
    ensures value.StringValue? ==> r == Success(Some(value.s))
    ensures r.Failure? <==> value.EnumValue? && value.c.backing.None?
  {
    match value
    case NullValue => Success(None)
    case EnumValue(c) =>
      if c.backing.Some? then Success(Some(c.backing.value)) else Failure(NotStringable(c.name))
    case StringValue(s) => Success(Some(s))
  }

  /** The loop over `::cases()`: the first case whose name is `name`, or null when none is. */
  function FindCaseByName(cases: seq<EnumCase>, name: string): (r: Option<EnumCase>)
    ensures r.Some? ==> exists i :: 0 <= i < |cases| && cases[i] == r.value && r.value.name == name
                                    && forall j :: 0 <= j < i ==> cases[j].name != name
    ensures r.None? ==> forall i :: 0 <= i < |cases| ==> cases[i].name != name
  {
    if cases == [] then None
    else if cases[0].name == name then Some(cases[0])
    else
      var r := FindCaseByName(cases[1..], name);
      if r.Some? then
        assert exists i :: 0 <= i < |cases| && cases[i] == r.value && r.value.name == name
                           && forall j :: 0 <= j < i ==> cases[j].name != name by {
          var k :| 0 <= k < |cases[1..]| && cases[1..][k] == r.value && r.value.name == name
                   && forall j :: 0 <= j < k ==> cases[1..][j].name != name;
          assert cases[k + 1] == r.value;
          assert forall j :: 0 <= j < k + 1 ==> cases[j].name != name by {
            forall j | 0 <= j < k + 1 ensures cases[j].name != name {
              if j > 0 { assert cases[j] == cases[1..][j - 1]; }
            }
          }
        }
        r
      else r
  }

  /** The string the read path looks a case up by: its backing value in a backed enum, its name otherwise. */
  function ReadKey(e: EnumDecl, c: EnumCase): Option<string> {
    if e.backed then c.backing else Some(c.name)
  }

  /**
   * `convertToPHPValue($value, $platform)` as written: null stays null; a
   * backed enum looks the value up with `tryFrom`, any other enum by case
   * name; a value that matches nothing reads as null.
   */
  function ConvertToPhpValue(t: EnumType, value: Option<string>): (r: Option<EnumCase>)
    ensures r.Some? ==> value.Some? && r.value in t.enumDecl.cases && ReadKey(t.enumDecl, r.value) == value
    ensures r.None? <==> value.None? || forall c :: c in t.enumDecl.cases ==> ReadKey(t.enumDecl, c) != value
  {
    match value
    case None => None
    case Some(v) =>
      if t.enumDecl.backed then TryFrom(t.enumDecl.cases, v)
      else FindCaseByName(t.enumDecl.cases, v)
  }

  /**
   * The read path the tests expect: like `ConvertToPhpValue`, except that a
   * value that matches no case throws `InvalidArgumentException` instead of
   * reading as null.
   */
  function ConvertToPhpValueStrict(t: EnumType, value: Option<string>): (r: Result<Option<EnumCase>, ConversionError>)
    ensures r.Failure? <==> value.Some? && forall c :: c in t.enumDecl.cases ==> ReadKey(t.enumDecl, c) != value
    ensures r.Failure? ==> r.error == InvalidValue(value.value, t.enumDecl.className)
    ensures r.Success? ==> r.value == ConvertToPhpValue(t, value)
  {
    match value
    case None => Success(None)
    case Some(v) =>
      var found := ConvertToPhpValue(t, value);
      if found.None? then Failure(InvalidValue(v, t.enumDecl.className)) else Success(found)
  }

  /** `getName()`: the type name. */
  function GetName(t: EnumType): (r: string)
    ensures r == t.typeName
  {
    t.typeName
  }

  /** `requiresSQLCommentHint($platform)`: always true. */
  function RequiresSqlCommentHint(t: EnumType, platform: EnumTypeHelper.Platform): (r: bool)
    ensures r
  {
    true
  }

  /** `getCreateTypeSQL()`: the helper's create statement for the type's name and enum class. */
  method GetCreateTypeSql(t: EnumType, classes: ClassTable) returns (r: Result<string, EnumTypeHelper.HelperError>)
    ensures r == EnumTypeHelper.CreateEnumTypeSql(t.typeName, t.enumDecl.className, classes)
  {
    r := EnumTypeHelper.GetCreateEnumTypeSql(t.typeName, t.enumDecl.className, classes);
  }

  /** `getDropTypeSQL()`: the helper's drop statement for the type's name. */
  function DropTypeSql(t: EnumType): (r: string)
    ensures EnumTypeHelper.DropTarget(r) == Some(t.typeName)
  {
    EnumTypeHelper.DropTargetInverts(t.typeName);
    EnumTypeHelper.DropEnumTypeSql(t.typeName)
  }

  // ---------------------------------------------------------------------
  // Properties of the conversions.
  // ---------------------------------------------------------------------

  /** Round trip: in a backed enum, every case written to the database reads back as itself. */
  lemma {:induction false} WriteThenReadIsIdentity(t: EnumType, c: EnumCase)
    requires t.enumDecl.Valid() && t.enumDecl.backed && c in t.enumDecl.cases
    ensures ConvertToDatabaseValue(EnumValue(c)).Success?
    ensures ConvertToPhpValue(t, ConvertToDatabaseValue(EnumValue(c)).value) == Some(c)
    ensures ConvertToPhpValueStrict(t, ConvertToDatabaseValue(EnumValue(c)).value) == Success(Some(c))
  {
    TryFromInvertsBacking(t.enumDecl, c);
  }

  /** The other direction: in a backed enum, a stored value that reads as a case is that case's backing value. */
  lemma ReadThenWriteIsIdentity(t: EnumType, v: string)
    requires t.enumDecl.backed && ConvertToPhpValue(t, Some(v)).Some?
    ensures ConvertToDatabaseValue(EnumValue(ConvertToPhpValue(t, Some(v)).value)) == Success(Some(v))
  {
  }

  /** In an enum without backing values, a case's name reads back as that case. */
  lemma {:induction false} ReadByNameFindsCase(t: EnumType, c: EnumCase)
    requires t.enumDecl.Valid() && !t.enumDecl.backed && c in t.enumDecl.cases
    ensures ConvertToPhpValue(t, Some(c.name)) == Some(c)
  {
    var r := ConvertToPhpValue(t, Some(c.name));
    NameIdentifiesCase(t.enumDecl, c, r.value);
  }

  /** A case without a backing value cannot be written: the cast to string throws. */
  lemma UnbackedCaseCannotBeWritten(t: EnumType, c: EnumCase)
    requires t.enumDecl.Valid() && !t.enumDecl.backed && c in t.enumDecl.cases
    ensures ConvertToDatabaseValue(EnumValue(c)) == Failure(NotStringable(c.name))
  {
  }

  /** The read path as written and the strict one agree except where the strict one throws; there the written one returns null. */
  lemma StrictDiffersOnlyByThrowing(t: EnumType, value: Option<string>)
    ensures ConvertToPhpValueStrict(t, value).Failure? <==> value.Some? && ConvertToPhpValue(t, value).None?
    ensures ConvertToPhpValueStrict(t, value).Success? ==> ConvertToPhpValueStrict(t, value).value == ConvertToPhpValue(t, value)
  {
  }

  /**
   * The type's own column declaration ignores the platform: it matches the
   * helper's platform-aware declaration only on PostgreSQL, or where the
   * platform's string type happens to be spelt like the type name.
   */
  lemma SqlDeclarationMatchesHelperOnlyOnPostgreSql(t: EnumType, column: map<string, string>, platform: EnumTypeHelper.Platform)
    ensures SqlDeclaration(t, column, platform) == EnumTypeHelper.EnumTypeDeclarationSql(t.typeName, platform)
        <==> platform.isPostgreSql || platform.stringTypeDeclaration == t.typeName
  {
  }
}

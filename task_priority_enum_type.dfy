/** `TaskPriorityEnumType`: the column type that binds the enum adapter to `TaskPriorityEnum`. */
module TaskPriorityEnumType {
  import opened Wrappers
  import opened PhpEnum
  import opened TaskPriorityEnum
  import opened AbstractEnumType
  import EnumTypeHelper
  import PhpString

  const TYPE_NAME: string := "task_priority_enum"

  /** `getTypeName()`. */
  function GetTypeName(): (r: string)
    ensures r == "task_priority_enum"
  {
    TYPE_NAME
  }

  /** `getEnumClass()`: the class name of `TaskPriorityEnum`. */
  function GetEnumClass(): (r: string)
    ensures r == "App\\Enum\\TaskPriorityEnum" && r in AppClasses() && AppClasses()[r].Enum?
  {
    CLASS_NAME
  }

  /** The column type itself. */
  function PriorityType(): EnumType {
    EnumType(GetTypeName(), AppClasses()[GetEnumClass()].decl)
  }

  /** The labels in declaration order, as the create statement must list them. */
  const LABELS: seq<string> := ["basse", "normale", "haute", "critique"]

  /** `getName()` and `getSQLDeclaration()` both give `task_priority_enum`, whatever the column and the platform. */
  lemma NameAndSqlDeclaration(column: map<string, string>, platform: EnumTypeHelper.Platform)
    ensures GetName(PriorityType()) == "task_priority_enum"
    ensures SqlDeclaration(PriorityType(), column, platform) == "task_priority_enum"
  {
  }

  /** `requiresSQLCommentHint()` holds on every platform. */
  lemma CommentHintRequired(platform: EnumTypeHelper.Platform)
    ensures RequiresSqlCommentHint(PriorityType(), platform)
  {
  }

  /** `getDropTypeSQL()` is exactly `DROP TYPE IF EXISTS task_priority_enum`. */
  lemma DropTypeSqlIsExact()
    ensures DropTypeSql(PriorityType()) == "DROP TYPE IF EXISTS task_priority_enum"
  {
  }

  /** The values of the four cases, in declaration order, are the four labels. */
  lemma CaseValuesAreLabels()
    ensures EnumTypeHelper.CaseValues(Decl().cases) == LABELS
  {
    var values := EnumTypeHelper.CaseValues(Decl().cases);
    assert values[0] == Value(Cases[0]);
    assert values[1] == Value(Cases[1]);
    assert values[2] == Value(Cases[2]);
    assert values[3] == Value(Cases[3]);
  }

  /** No label contains a quote, a backslash or a NUL. */
  lemma LabelsArePlain()
    ensures PhpString.Plain("basse") && PhpString.Plain("normale")
    ensures PhpString.Plain("haute") && PhpString.Plain("critique")
  {
  }

  /** `addslashes` leaves every label as it is. */
  lemma LabelNeedsNoEscape(p: TaskPriority)
    ensures PhpString.AddSlashes(Value(p)) == Value(p)
  {
    LabelsArePlain();
    PhpString.AddSlashesKeepsPlain(Value(p));
  }

  /**
   * Under PostgreSQL's standard-conforming literals a label would be quoted
   * the same way: no label holds a quote, so doubling quotes changes nothing
   * either.
   */
  lemma LabelQuotedAlikeInBothConventions(p: TaskPriority)
    ensures EnumTypeHelper.PgEscape(Value(p)) == PhpString.AddSlashes(Value(p))
  {
    LabelsArePlain();
    LabelNeedsNoEscape(p);
    EnumTypeHelper.PgEscapeKeepsQuoteless(Value(p));
  }

  /** `getCreateEnumTypeSQL('test_enum', 'NonExistentClass')`, or with any class name outside the class table, throws. */
  lemma UnknownClassIsRejected(typeName: string, enumClass: string)
    requires enumClass !in AppClasses()
    ensures EnumTypeHelper.CreateEnumTypeSql(typeName, enumClass, AppClasses())
         == Failure(EnumTypeHelper.UnknownEnumClass(enumClass))
  {
  }

  /** `NonExistentClass` is not a class of the application. */
  lemma NonExistentClassIsUnknown()
    ensures "NonExistentClass" !in AppClasses()
  {
  }

  /**
   * The application's classes that are not enums pass the existence check but
   * make `getCreateEnumTypeSQL` fail at `::cases()`.
   */
  lemma NonEnumClassIsRejected(typeName: string, enumClass: string)
    requires enumClass in AppClasses() && enumClass != CLASS_NAME
    ensures EnumTypeHelper.CreateEnumTypeSql(typeName, enumClass, AppClasses())
         == Failure(EnumTypeHelper.NotAnEnum(enumClass))
  {
  }

  /** The statement starts with `CREATE TYPE task_priority_enum AS ENUM (`. */
  lemma CreateHeadIsExact()
    ensures EnumTypeHelper.CreateHead(TYPE_NAME) == "CREATE TYPE task_priority_enum AS ENUM ("
  {
  }

  /** The create statement is the `CREATE TYPE` template filled with `task_priority_enum` and the four labels in order. */
  lemma CreateStatementIsExact()
    ensures EnumTypeHelper.CreateEnumTypeSql(TYPE_NAME, CLASS_NAME, AppClasses())
         == Success(EnumTypeHelper.CreateStatement(TYPE_NAME, LABELS))
  {
    CaseValuesAreLabels();
  }

  /** `getCreateTypeSQL()`: the statement that creates `task_priority_enum` with the four labels in order. */
  method GetCreateTypeSql() returns (r: Result<string, EnumTypeHelper.HelperError>)
    ensures r == Success(EnumTypeHelper.CreateStatement("task_priority_enum", ["basse", "normale", "haute", "critique"]))
  {
    r := AbstractEnumType.GetCreateTypeSql(PriorityType(), AppClasses());
    CreateStatementIsExact();
  }

  /** The create statement reads back as exactly the four labels, in declaration order. */
  lemma CreateStatementListsLabels()
    ensures EnumTypeHelper.ParseCreateType(TYPE_NAME, EnumTypeHelper.CreateStatement(TYPE_NAME, LABELS)) == Some(LABELS)
  {
    EnumTypeHelper.CreateStatementInverts(TYPE_NAME, LABELS);
  }

  /** Each label appears single-quoted in the create statement: `'basse'`, `'normale'`, `'haute'` and `'critique'`. */
  lemma CreateStatementQuotesEveryLabel(p: TaskPriority)
    ensures PhpString.Occurs("'" + Value(p) + "'", EnumTypeHelper.CreateStatement(TYPE_NAME, LABELS))
  {
    CreateStatementIsExact();
    var i := Ordinal(p);
    EnumTypeHelper.CreateEnumTypeSqlQuotesEveryCase(TYPE_NAME, CLASS_NAME, AppClasses(), i);
    assert EnumTypeHelper.CaseValue(Decl().cases[i]) == Value(p);
    LabelNeedsNoEscape(p);
  }

  /** Writing a priority stores its label: LOW as `basse`, MEDIUM as `normale`, HIGH as `haute`, CRITICAL as `critique`. */
  lemma WriteStoresLabel(p: TaskPriority)
    ensures ConvertToDatabaseValue(EnumValue(AsCase(p))) == Success(Some(Value(p)))
  {
  }

  /** Reading a label gives back its priority. */
  lemma ReadFindsPriority(p: TaskPriority)
    ensures ConvertToPhpValue(PriorityType(), Some(Value(p))) == Some(AsCase(p))
    ensures ConvertToPhpValueStrict(PriorityType(), Some(Value(p))) == Success(Some(AsCase(p)))
  {
    TryFromLabel(Value(p), p);
  }

  /** Round trip: every priority written to the database reads back as itself. */
  lemma RoundTrip(p: TaskPriority)
    ensures ConvertToPhpValue(PriorityType(), ConvertToDatabaseValue(EnumValue(AsCase(p))).value) == Some(AsCase(p))
  {
    ReadFindsPriority(p);
  }

  /**
   * A string that is none of the four labels, a case variant such as `Basse`
   * or the empty string included, reads as null on the read path as written,
   * and throws on the strict one.
   */
  lemma UnknownLabelIsRejected(s: string)
    requires forall p: TaskPriority :: s != Value(p)
    ensures ConvertToPhpValue(PriorityType(), Some(s)) == None
    ensures ConvertToPhpValueStrict(PriorityType(), Some(s)) == Failure(InvalidValue(s, CLASS_NAME))
  {
    TryFromUnknown(s);
  }

  /** As written, `convertToPHPValue('valeur_invalide')` returns null, where the tests expect an exception. */
  lemma InvalidLabelReadsAsNull()
    ensures ConvertToPhpValue(PriorityType(), Some("valeur_invalide")) == None
    ensures ConvertToPhpValueStrict(PriorityType(), Some("valeur_invalide")).Failure?
  {
    UnknownLabelIsRejected("valeur_invalide");
  }
}

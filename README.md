# Task-priority enum column type — a Dafny model

This project models a Doctrine custom column type. The type stores the
string-backed PHP enum `TaskPriorityEnum` as a PostgreSQL enumerated type. The
enum has four cases, LOW, MEDIUM, HIGH and CRITICAL. Their French backing labels
are `basse`, `normale`, `haute` and `critique`. The model covers three parts:

- **the domain** (`TaskPriorityEnum`): the four cases and their labels;
- **the codec** (`AbstractEnumType`, bound to the domain by
  `TaskPriorityEnumType`): the write path (`convertToDatabaseValue`), the read
  path (`convertToPHPValue`) and the constant metadata getters;
- **the DDL generator** (`EnumTypeHelper`): `CREATE TYPE <name> AS ENUM (...)`
  with `addslashes` quoting, `DROP TYPE IF EXISTS <name>`, and the column
  declaration for each platform.

Everything is pure: functions and lemmas. The exceptions are the method
`EnumTypeHelper.GetCreateEnumTypeSql`, whose loop collects the case values and
carries an invariant proved against the function `CreateEnumTypeSql`, and the
two `getCreateTypeSQL` methods that call it (`AbstractEnumType.GetCreateTypeSql`
and `TaskPriorityEnumType.GetCreateTypeSql`).

PHP reflection is replaced by a static description (module `PhpEnum`):
- an enum is an `EnumDecl`: its class name, whether it is backed, and its cases
  in declaration order;
- each case is a name plus an optional backing value;
- `class_exists` becomes lookup in a `ClassTable`, a map from class name to
  either an ordinary class or an enum with its declaration (PHP's
  `class_exists` is true for both); `$enumClass::cases()` on an ordinary class
  throws an `Error`, modelled as the `NotAnEnum` failure;
- `tryFrom` becomes `PhpEnum.TryFrom`.

The platform is one boolean, `$platform instanceof PostgreSQLPlatform`, plus the
string that `getStringTypeDeclarationSQL([])` would return.

Files, one module each: `wrappers.dfy`, `php_string.dfy` (`addslashes`,
`stripslashes`, `implode`), `php_enum.dfy`, `task_priority_enum.dfy`,
`enum_type_helper.dfy`, `abstract_enum_type.dfy`,
`task_priority_enum_type.dfy`.

The two sides come with partners:
- For backed enums, the read path is proved to invert the write path, in both
  directions; a case of an enum without backing values cannot be written at all.
- Each generated statement is read back by a parser. `ParseCreateType` reads
  the literals with the backslash-escape convention that `addslashes` follows
  and undoes the quoting with `stripslashes`; `DropTarget` recovers the type
  name. Round-trip lemmas show the parse returns exactly the values (or the
  type name) the statement was built from. That convention is not the one
  PostgreSQL uses by default: under standard-conforming literals a value
  containing `'` is cut short, and one containing `"` or `\` is stored with
  an extra backslash (see Findings). No `TaskPriorityEnum` label
  contains a quote, so the labels are quoted the same way under both.

The code and its own tests disagree on one point, and the model follows the
code. When a stored value matches no case, `convertToPHPValue` returns null
(`tryFrom` at AbstractEnumType.php:65-66, and the final `return null` at :81).
The tests at TaskPriorityEnumTypeTest.php:91-95 and AbstractEnumTypeTest.php:32-33
expect an `InvalidArgumentException`. `ConvertToPhpValue` returns `None` as the
code does; the behaviour the tests expect is modelled separately as
`ConvertToPhpValueStrict` (see Findings).

## Model

| member | source | states |
|---|---|---|
| `PhpString.AddSlashes` | src/Doctrine/Helper/EnumTypeHelper.php:49 | escaping never shortens a value and at most doubles it |
| `PhpString.AddSlashesKeepsPlain` | src/Doctrine/Helper/EnumTypeHelper.php:49 | a value without `'`, `"`, `\` or NUL is emitted unchanged |
| `PhpString.StripSlashesInvertsAddSlashes` | src/Doctrine/Helper/EnumTypeHelper.php:49 | the escaping loses nothing: `stripslashes` recovers every value exactly |
| `PhpString.JoinContainsEachPart` | src/Doctrine/Helper/EnumTypeHelper.php:52 | `implode` omits no part |
| `PhpEnum.TryFrom` | src/Doctrine/Type/AbstractEnumType.php:65-66 | `tryFrom` returns a case of the enum backed by the given value, and returns null exactly when no case is |
| `PhpEnum.BackingIdentifiesCase` | src/Enum/TaskPriorityEnum.php:9-12 | in a valid enum, two cases with the same backing value are the same case |
| `PhpEnum.NameIdentifiesCase` | src/Doctrine/Type/AbstractEnumType.php:75-79 | in a valid enum, two cases with the same name are the same case |
| `PhpEnum.TryFromInvertsBacking` | src/Doctrine/Type/AbstractEnumType.php:65-66 | in a valid backed enum, `tryFrom` of a case's backing value gives back that case |
| `TaskPriorityEnum.Decl` | src/Enum/TaskPriorityEnum.php:7-13 | the enum is string-backed and valid, and lists LOW, MEDIUM, HIGH, CRITICAL with their labels, in that order |
| `TaskPriorityEnum.Ordinal` | src/Enum/TaskPriorityEnum.php:9-12 | every priority has its place in declaration order |
| `TaskPriorityEnum.AppClasses` | src/Enum/TaskPriorityEnum.php:7 | `class_exists` finds the application's classes: the enum's class name resolves to its declaration, and the helper, the two type classes and the console command resolve as classes that are not enums |
| `TaskPriorityEnum.CasesAreTheFourPriorities` | src/Enum/TaskPriorityEnum.php:9-12 | exactly four cases, each priority once, in the order LOW, MEDIUM, HIGH, CRITICAL |
| `TaskPriorityEnum.ValueIdentifiesPriority` | src/Enum/TaskPriorityEnum.php:9-12 | the labels are pairwise distinct |
| `TaskPriorityEnum.TryFromLabel` | src/Enum/TaskPriorityEnum.php:7-13 | `tryFrom(v)` is priority p exactly when v is p's label |
| `TaskPriorityEnum.TryFromUnknown` | src/Enum/TaskPriorityEnum.php:7-13 | `tryFrom(v)` is null exactly when v is none of the four labels |
| `EnumTypeHelper.CaseValues` | src/Doctrine/Helper/EnumTypeHelper.php:30-40 | one value per case, in declaration order: the backing value if the case has one, otherwise its name |
| `EnumTypeHelper.CreateEnumTypeSql` | src/Doctrine/Helper/EnumTypeHelper.php:22-53 | a class that does not exist fails with the unknown-class error; a class that exists but is not an enum fails with the `Error` of `::cases()`; an enum without cases fails with the empty-enum error; every request naming an enum with cases succeeds |
| `EnumTypeHelper.GetCreateEnumTypeSql` | src/Doctrine/Helper/EnumTypeHelper.php:22-53 | the method with the collecting loop returns exactly what `CreateEnumTypeSql` specifies |
| `EnumTypeHelper.EnumTypeDeclarationSql` | src/Doctrine/Helper/EnumTypeHelper.php:62-71 | on PostgreSQL the column is declared with the enum type name, elsewhere with the platform's string type |
| `EnumTypeHelper.DropEnumTypeSql` | src/Doctrine/Helper/EnumTypeHelper.php:79-82 | the drop statement is exactly `DROP TYPE IF EXISTS ` followed by the type name |
| `EnumTypeHelper.DropTargetInverts` | src/Doctrine/Helper/EnumTypeHelper.php:79-82 | the drop statement reads back as the type it was built for, so different types get different statements |
| `EnumTypeHelper.ScanLiteralStopsAfterEscaped` | src/Doctrine/Helper/EnumTypeHelper.php:48-50 | under the backslash-escape reading that `stripslashes` undoes, no character of a value escaped by `addslashes` closes its quoted literal early |
| `EnumTypeHelper.AddSlashesBreaksStandardLiteral` | src/Doctrine/Helper/EnumTypeHelper.php:48-50 | under PostgreSQL's standard-conforming literals the value `it's`, emitted as `'it\'s'`, is cut short after `it\` |
| `EnumTypeHelper.AddSlashesAltersDoubleQuote` | src/Doctrine/Helper/EnumTypeHelper.php:48-50 | under PostgreSQL's standard-conforming literals the value `a"b`, emitted as `'a\"b'`, reads back as `a\"b`: a stored label that differs from the backing value |
| `EnumTypeHelper.PgEscape` | src/Doctrine/Helper/EnumTypeHelper.php:48-50 | the quote-doubling escape a standard-conforming literal needs never shortens a value and at most doubles it |
| `EnumTypeHelper.PgEscapeKeepsQuoteless` | src/Doctrine/Helper/EnumTypeHelper.php:48-50 | a value without a quote is emitted unchanged by the quote-doubling escape |
| `EnumTypeHelper.PgScanInvertsPgEscape` | src/Doctrine/Helper/EnumTypeHelper.php:48-50 | with quotes doubled, every value ends exactly at its closing quote and reads back unchanged under standard-conforming literals |
| `EnumTypeHelper.ParseValueListInverts` | src/Doctrine/Helper/EnumTypeHelper.php:48-52 | the quoted, comma-separated list reads back as exactly the values it was built from |
| `EnumTypeHelper.CreateStatementInverts` | src/Doctrine/Helper/EnumTypeHelper.php:52 | the `CREATE TYPE` statement reads back as exactly its values, in order |
| `EnumTypeHelper.CreateEnumTypeSqlListsCases` | src/Doctrine/Helper/EnumTypeHelper.php:22-53 | a successful statement names the requested type and lists the enum's case values in declaration order, and nothing else |
| `EnumTypeHelper.CreateEnumTypeSqlQuotesEveryCase` | src/Doctrine/Helper/EnumTypeHelper.php:31-52 | every case's value appears quoted in the statement; none is omitted |
| `AbstractEnumType.SqlDeclaration` | src/Doctrine/Type/AbstractEnumType.php:30-33 | the declaration is the type name, whatever the column and platform |
| `AbstractEnumType.ConvertToDatabaseValue` | src/Doctrine/Type/AbstractEnumType.php:38-51 | null gives null; a backed case gives its backing value; a string passes unchanged; only a case without a backing value fails, because the string cast throws |
| `AbstractEnumType.FindCaseByName` | src/Doctrine/Type/AbstractEnumType.php:75-81 | returns the first case with the given name, or null when no case has that name |
| `AbstractEnumType.ConvertToPhpValue` | src/Doctrine/Type/AbstractEnumType.php:56-82 | null gives null; a value gives a case of the enum looked up by backing value (backed enum) or by name (other enums); the result is null exactly when no case matches |
| `AbstractEnumType.ConvertToPhpValueStrict` | tests/Doctrine/Type/TaskPriorityEnumTypeTest.php:91-95 | the read path the tests expect: it throws an invalid-value error, carrying the value and the enum class, exactly when a non-null value matches no case; otherwise it agrees with the read path |
| `AbstractEnumType.GetName` | src/Doctrine/Type/AbstractEnumType.php:84-87 | the name is the type name |
| `AbstractEnumType.RequiresSqlCommentHint` | src/Doctrine/Type/AbstractEnumType.php:89-92 | the comment hint is always required |
| `AbstractEnumType.GetCreateTypeSql` | src/Doctrine/Type/AbstractEnumType.php:97-103 | the statement is the helper's create statement for the type name and enum class |
| `AbstractEnumType.DropTypeSql` | src/Doctrine/Type/AbstractEnumType.php:108-111 | the drop statement names exactly this type |
| `AbstractEnumType.WriteThenReadIsIdentity` | src/Doctrine/Type/AbstractEnumType.php:38-82 | round trip: in a valid backed enum, every case that is written reads back as itself, on both read paths |
| `AbstractEnumType.ReadThenWriteIsIdentity` | src/Doctrine/Type/AbstractEnumType.php:38-82 | in a backed enum, a stored value that reads as a case is written back as that same value |
| `AbstractEnumType.ReadByNameFindsCase` | src/Doctrine/Type/AbstractEnumType.php:75-79 | in a valid enum without backing values, a case's name reads back as that case |
| `AbstractEnumType.UnbackedCaseCannotBeWritten` | src/Doctrine/Type/AbstractEnumType.php:45-50 | a case without a backing value cannot be written: the string cast throws |
| `AbstractEnumType.StrictDiffersOnlyByThrowing` | src/Doctrine/Type/AbstractEnumType.php:65-66 | the strict read throws exactly where the read as written returns null for a non-null value; otherwise the two agree |
| `AbstractEnumType.SqlDeclarationMatchesHelperOnlyOnPostgreSql` | src/Doctrine/Type/AbstractEnumType.php:30-33 | the type's own declaration ignores the platform, so it matches the helper's platform-aware declaration only on PostgreSQL, or where the platform's string type is spelt like the type name |
| `TaskPriorityEnumType.GetTypeName` | src/Doctrine/Type/TaskPriorityEnumType.php:11-16 | the type name is `task_priority_enum` |
| `TaskPriorityEnumType.GetEnumClass` | src/Doctrine/Type/TaskPriorityEnumType.php:18-21 | the enum class is `App\Enum\TaskPriorityEnum`, which the autoloader resolves to an enum |
| `TaskPriorityEnumType.NameAndSqlDeclaration` | tests/Doctrine/Type/TaskPriorityEnumTypeTest.php:23-34 | `getName()` and `getSQLDeclaration()` are both `task_priority_enum`, whatever the column and platform |
| `TaskPriorityEnumType.CommentHintRequired` | tests/Doctrine/Type/TaskPriorityEnumTypeTest.php:36-39 | the comment hint is required on every platform |
| `TaskPriorityEnumType.DropTypeSqlIsExact` | tests/Doctrine/Type/TaskPriorityEnumTypeTest.php:103-107 | the drop statement is exactly `DROP TYPE IF EXISTS task_priority_enum` |
| `TaskPriorityEnumType.CaseValuesAreLabels` | src/Enum/TaskPriorityEnum.php:9-12 | the values listed for the type are `basse`, `normale`, `haute`, `critique`, in that order |
| `TaskPriorityEnumType.LabelsArePlain` | src/Enum/TaskPriorityEnum.php:9-12 | no label contains a quote, a backslash or a NUL |
| `TaskPriorityEnumType.LabelNeedsNoEscape` | src/Doctrine/Helper/EnumTypeHelper.php:49 | `addslashes` leaves every label unchanged |
| `TaskPriorityEnumType.LabelQuotedAlikeInBothConventions` | src/Doctrine/Helper/EnumTypeHelper.php:49 | every label is quoted the same under `addslashes` and under quote doubling, so the `addslashes` defect does not touch this enum |
| `TaskPriorityEnumType.UnknownClassIsRejected` | tests/Doctrine/Helper/EnumTypeHelperTest.php:26-30 | `getCreateEnumTypeSQL` throws the unknown-class error for every class name outside the class table |
| `TaskPriorityEnumType.NonExistentClassIsUnknown` | tests/Doctrine/Helper/EnumTypeHelperTest.php:26-30 | `NonExistentClass` is not a class of the application, so the test's call is rejected as an unknown class |
| `TaskPriorityEnumType.NonEnumClassIsRejected` | src/Doctrine/Helper/EnumTypeHelper.php:25-31 | an existing class of the application that is not an enum passes the existence check and fails at `::cases()` |
| `TaskPriorityEnumType.CreateHeadIsExact` | tests/Doctrine/Type/TaskPriorityEnumTypeTest.php:97-101 | the statement begins with `CREATE TYPE task_priority_enum AS ENUM (` |
| `TaskPriorityEnumType.CreateStatementIsExact` | src/Doctrine/Type/TaskPriorityEnumType.php:18-21 | the create statement is the `CREATE TYPE` template filled with `task_priority_enum` and the four labels, in order |
| `TaskPriorityEnumType.GetCreateTypeSql` | src/Doctrine/Type/AbstractEnumType.php:97-103 | `getCreateTypeSQL()` succeeds with the statement for `task_priority_enum` listing `basse`, `normale`, `haute`, `critique` |
| `TaskPriorityEnumType.CreateStatementListsLabels` | tests/Doctrine/Helper/EnumTypeHelperTest.php:15-24 | the statement reads back as exactly the four labels, in order |
| `TaskPriorityEnumType.CreateStatementQuotesEveryLabel` | tests/Doctrine/Helper/EnumTypeHelperTest.php:20-23 | `'basse'`, `'normale'`, `'haute'` and `'critique'` each appear in the statement |
| `TaskPriorityEnumType.WriteStoresLabel` | tests/Doctrine/Type/TaskPriorityEnumTypeTest.php:41-62 | each priority is stored as its label, e.g. HIGH as `haute` |
| `TaskPriorityEnumType.ReadFindsPriority` | tests/Doctrine/Type/TaskPriorityEnumTypeTest.php:66-86 | each label reads back as its priority, on both read paths |
| `TaskPriorityEnumType.RoundTrip` | src/Doctrine/Type/AbstractEnumType.php:38-82 | every priority that is written reads back as itself |
| `TaskPriorityEnumType.UnknownLabelIsRejected` | tests/Doctrine/Type/TaskPriorityEnumTypeTest.php:91-95 | a string that is none of the four labels reads as null on the read path as written and throws on the strict one; this covers case variants such as `Basse` and the empty string |
| `TaskPriorityEnumType.InvalidLabelReadsAsNull` | src/Doctrine/Type/AbstractEnumType.php:65-66 | as written, `valeur_invalide` reads as null, where the tests expect an exception |

## Left out

- The `from()` branch of `convertToPHPValue` (src/Doctrine/Type/AbstractEnumType.php:70-72) is dead code. An enum that has `from` also has `tryFrom`, and the `tryFrom` branch returns first.
- On the write path, the `(string)` cast of arbitrary values and objects is not modelled. Inputs are restricted to null, an enum case, or a string. An object with a `value` property that is not an enum case is not modelled either.
- Only string-backed and non-backed enums are modelled. Integer-backed enums, and PHP's type juggling in `tryFrom`, are left out.
- An ordinary class that defines its own static `cases()` method, whose result `getCreateEnumTypeSQL` would then iterate, is not modelled: every class that is not an enum fails with `NotAnEnum`. Interfaces and traits, for which `class_exists` is false, count as unknown classes.
- `AbstractEnumType` binds its enum declaration directly. A subclass whose `getEnumClass()` names a class that does not exist, or that is not an enum (so `::cases()` at src/Doctrine/Type/AbstractEnumType.php:75 throws), is not modelled on the read path.
- The Doctrine type registry, the platform internals, and `getStringTypeDeclarationSQL` are foreign code. The platform is reduced to a PostgreSQL flag and the string that call returns. The `$column` argument is an ignored map.
- The console command and the SQLite integration setup are I/O and ORM lifecycle, outside the conversion logic.
- PHP strings are byte strings. The model works on `seq<char>`, with NUL as `'\0'`.
- `TaskPriorityEnumType.UnknownClassIsRejected`: the class table holds only the application's own classes under `src/`. Built-in classes such as `stdClass`, vendor classes such as Doctrine's `Type`, and test classes such as the test enum of tests/Doctrine/Type/AbstractEnumTypeTest.php fall outside it and get the unknown-class error in the model, although `class_exists` finds them in PHP (so `getCreateEnumTypeSQL` fails at `::cases()`, or succeeds for the test enum).
- `EnumTypeHelper.ScanLiteralStopsAfterEscaped` and the parse-back lemmas built on it (`ParseValueListInverts`, `CreateStatementInverts`, `CreateEnumTypeSqlListsCases`) hold only under the backslash convention of `addslashes`/`stripslashes`. Under PostgreSQL's default `standard_conforming_strings = on`, a case value containing `'` makes the generated DDL malformed or different, and a value containing `"` or `\` is stored with an extra backslash, so the database label no longer matches the PHP backing value (see Findings). The full `CREATE TYPE` statement is not re-parsed under that convention; only single literals are (`PgScan`).
- `TaskPriorityEnumType.GetCreateTypeSql` and `TaskPriorityEnumType.CreateStatementIsExact` state the statement as the `CREATE TYPE` template applied to the literal labels, not as one 80-character literal. The two are equal, but proving that equality literally is beyond the solver's budget.

## Findings

| source | as written | input that shows it | evidently intended | confidence | as-written member | corrected member |
|---|---|---|---|---|---|---|
| src/Doctrine/Type/AbstractEnumType.php:65-66 | a stored value that matches no case reads as null: `tryFrom` returns null and the result passes through (and `return null` at :81 for non-backed enums) | `convertToPHPValue('valeur_invalide')` on `TaskPriorityEnumType`; `'INVALID'` on a non-backed enum | an `InvalidArgumentException`, as tests/Doctrine/Type/TaskPriorityEnumTypeTest.php:91-95 and tests/Doctrine/Type/AbstractEnumTypeTest.php:32-33 assert | not executed; high that the code and its tests disagree | `TaskPriorityEnumType.InvalidLabelReadsAsNull` | `AbstractEnumType.ConvertToPhpValueStrict` |
| src/Doctrine/Helper/EnumTypeHelper.php:48-50 | each value is quoted with `addslashes`, which escapes `'`, `"` and `\` with a backslash; a standard-conforming PostgreSQL literal treats `\` as ordinary, so it ends at an escaped `'`, and it keeps the backslash before `"` or `\`, storing a label that differs from the backing value | a case backed by `it's`: the list begins `'it\'s'`, whose literal is `it\` followed by the stray text `s'`; a case backed by `a"b` is stored as `a\"b` | a quote inside a value doubled as `''`, so that the literal reads back as the value | not executed; medium, depends on the server's `standard_conforming_strings` (on by default since PostgreSQL 9.1); no `TaskPriorityEnum` label is affected | `EnumTypeHelper.AddSlashesBreaksStandardLiteral`, `EnumTypeHelper.AddSlashesAltersDoubleQuote` | `EnumTypeHelper.PgScanInvertsPgEscape` |

/**
 * `EnumTypeHelper`: the DDL text for a PostgreSQL enumerated type built from
 * a PHP enum, and the column declaration chosen per platform.
 */
module EnumTypeHelper {
  import opened Wrappers
  import opened PhpString
  import opened PhpEnum

  /** The database platform, reduced to what the helper asks of it. */
  datatype Platform = Platform(
    isPostgreSql: bool,              // `$platform instanceof PostgreSQLPlatform`
    stringTypeDeclaration: string)   // what `getStringTypeDeclarationSQL([])` returns

  /**
   * The failures of `getCreateEnumTypeSQL`, each with the class name it
   * concerns: the two `InvalidArgumentException`s, and the `Error` PHP throws
   * when `::cases()` is called on a class that is not an enum.
   */
  datatype HelperError =
    | UnknownEnumClass(enumClass: string)
    | NotAnEnum(enumClass: string)
    | EmptyEnum(enumClass: string)

  /** The value a case contributes to the type: its backing value when it has one, otherwise its name. */
  function CaseValue(c: EnumCase): string {
    match c.backing
    case Some(v) => v
    case None => c.name
  }

  /** The values of the cases: one per case, in declaration order. */
  function CaseValues(cases: seq<EnumCase>): (values: seq<string>)
    ensures |values| == |cases|
    ensures forall i :: 0 <= i < |cases| ==> values[i] == CaseValue(cases[i])
  {
    if cases == [] then []
    else CaseValues(cases[..|cases| - 1]) + [CaseValue(cases[|cases| - 1])]
  }

  /** A value as an SQL string literal: `'` + addslashes(v) + `'`. */
  function Quote(v: string): string {
    "'" + AddSlashes(v) + "'"
  }

  function QuoteAll(values: seq<string>): seq<string> {
    seq(|values|, i requires 0 <= i < |values| => Quote(values[i]))
  }

  /** The fixed text in front of the value list. */
  function CreateHead(typeName: string): string {
    "CREATE TYPE " + typeName + " AS ENUM ("
  }

  /** `sprintf('CREATE TYPE %s AS ENUM (%s)', $typeName, implode(', ', $quotedValues))`. */
  function CreateStatement(typeName: string, values: seq<string>): string {
    CreateHead(typeName) + Join(QuoteAll(values), ", ") + ")"
  }

  /**
   * `getCreateEnumTypeSQL($typeName, $enumClass)`: rejects a class that does
   * not exist, fails on a class that is not an enum (it has no `cases()`),
   * rejects an enum without cases, and otherwise lists the values of the cases.
   */
  function CreateEnumTypeSql(typeName: string, enumClass: string, classes: ClassTable): (r: Result<string, HelperError>)
    ensures r == Failure(UnknownEnumClass(enumClass)) <==> enumClass !in classes
    ensures r == Failure(NotAnEnum(enumClass)) <==> enumClass in classes && classes[enumClass].OrdinaryClass?
    ensures r == Failure(EmptyEnum(enumClass)) <==>
              enumClass in classes && classes[enumClass].Enum? && classes[enumClass].decl.cases == []
    ensures r.Success? <==> enumClass in classes && classes[enumClass].Enum? && classes[enumClass].decl.cases != []
  {
    if enumClass !in classes then Failure(UnknownEnumClass(enumClass))
    else if classes[enumClass].OrdinaryClass? then Failure(NotAnEnum(enumClass))
    else
      var values := CaseValues(classes[enumClass].decl.cases);
      if values == [] then Failure(EmptyEnum(enumClass))
      else Success(CreateStatement(typeName, values))
  }

  /** `getCreateEnumTypeSQL`, with the `foreach` loop that collects the values. */
  method GetCreateEnumTypeSql(typeName: string, enumClass: string, classes: ClassTable)
    returns (r: Result<string, HelperError>)
    ensures r == CreateEnumTypeSql(typeName, enumClass, classes)
  {
    if enumClass !in classes {
      return Failure(UnknownEnumClass(enumClass));
    }
    if classes[enumClass].OrdinaryClass? {
      return Failure(NotAnEnum(enumClass));
    }
    var cases := classes[enumClass].decl.cases;
    var values: seq<string> := [];
    for i := 0 to |cases|
      invariant values == CaseValues(cases[..i])
    {
      assert cases[..i + 1][..i] == cases[..i];
      values := values + [if cases[i].backing.Some? then cases[i].backing.value else cases[i].name];
    }
    assert cases[..|cases|] == cases;
    if values == [] {
      return Failure(EmptyEnum(enumClass));
    }
    var quoted := QuoteAll(values);
    r := Success(CreateHead(typeName) + Join(quoted, ", ") + ")");
  }

  /** `getEnumTypeDeclarationSQL($enumTypeName, $platform)`. */
  function EnumTypeDeclarationSql(enumTypeName: string, platform: Platform): (r: string)
    ensures platform.isPostgreSql ==> r == enumTypeName
    ensures !platform.isPostgreSql ==> r == platform.stringTypeDeclaration
  {
    if platform.isPostgreSql then enumTypeName else platform.stringTypeDeclaration
  }

  const DropHead: string := "DROP TYPE IF EXISTS "

  /** `getDropEnumTypeSQL($typeName)`. */
  function DropEnumTypeSql(typeName: string): (r: string)
    ensures r == "DROP TYPE IF EXISTS " + typeName
  {
    DropHead + typeName
  }

  // ---------------------------------------------------------------------
  // Reading the generated DDL back: the partners of the two builders.
  // ---------------------------------------------------------------------

  /** The type a `DROP TYPE IF EXISTS` statement names, or None for any other text. */
  function DropTarget(sql: string): Option<string> {
    if |sql| >= |DropHead| && sql[..|DropHead|] == DropHead then Some(sql[|DropHead|..]) else None
  }

  /** The drop statement names exactly the type it was built for, so different types get different statements. */
  lemma DropTargetInverts(typeName: string)
    ensures DropTarget(DropEnumTypeSql(typeName)) == Some(typeName)
  {
    var sql := DropEnumTypeSql(typeName);
    assert sql[..|DropHead|] == DropHead && sql[|DropHead|..] == typeName;
  }

  /**
   * The text of a single-quoted literal up to its closing quote, which must be
   * the first quote not escaped by a backslash, and the text after it.
   */
  function ScanLiteral(s: string): (r: Option<(string, string)>)
    ensures r.Some? ==> s == r.value.0 + "'" + r.value.1
    decreases |s|
  {
    if s == [] then None
    else if s[0] == '\'' then Some(([], s[1..]))
    else if s[0] == '\\' then
      if |s| < 2 then None
      else match ScanLiteral(s[2..])
        case None => None
        case Some((body, rest)) => Some((s[..2] + body, rest))
    else match ScanLiteral(s[1..])
      case None => None
      case Some((body, rest)) => Some(([s[0]] + body, rest))
  }

  /** Reads `'v1', 'v2', ...` back into the values, undoing the escapes with `stripslashes`. */
  function ParseValueList(s: string): (r: Option<seq<string>>)
    ensures r.Some? ==> r.value != []
    decreases |s|
  {
    if s == [] || s[0] != '\'' then None
    else match ScanLiteral(s[1..])
      case None => None
      case Some((body, rest)) =>
        if rest == [] then Some([StripSlashes(body)])
        else if |rest| >= 2 && rest[..2] == ", " then
          match ParseValueList(rest[2..])
          case None => None
          case Some(more) => Some([StripSlashes(body)] + more)
        else None
  }

  /** Reads a `CREATE TYPE <typeName> AS ENUM (...)` statement back into its values. */
  function ParseCreateType(typeName: string, sql: string): Option<seq<string>> {
    var head := CreateHead(typeName);
    if |sql| < |head| + 1 || sql[..|head|] != head || sql[|sql| - 1] != ')' then None
    else ParseValueList(sql[|head|..|sql| - 1])
  }

  /**
   * Under the backslash-escape reading that `stripslashes` undoes, an escaped
   * value ends at the quote placed after it: no character of the value closes
   * the literal early. PostgreSQL's standard-conforming literals read it
   * differently; see `AddSlashesBreaksStandardLiteral`.
   */
  lemma {:induction false} ScanLiteralStopsAfterEscaped(v: string, rest: string)
    ensures ScanLiteral(AddSlashes(v) + "'" + rest) == Some((AddSlashes(v), rest))
  {
    var s := AddSlashes(v) + "'" + rest;
    if v == [] {
      assert s == "'" + rest;
    } else {
      var e, t := Escape(v[0]), AddSlashes(v[1..]);
      ScanLiteralStopsAfterEscaped(v[1..], rest);
      assert s == e + (t + "'" + rest);
      if NeedsSlash(v[0]) {
        assert s[0] == '\\' && s[..2] == e;
        assert s[2..] == t + "'" + rest;
      } else {
        assert s[0] == v[0];
        assert s[1..] == t + "'" + rest;
      }
    }
  }

  /** One quoted value followed by `rest` reads back as that value followed by what `rest` reads as. */
  lemma ParseFirstLiteral(s: string, v: string, rest: string)
    requires s == "'" + AddSlashes(v) + "'" + rest
    ensures rest == [] ==> ParseValueList(s) == Some([v])
    ensures |rest| >= 2 && rest[..2] == ", " && ParseValueList(rest[2..]).Some? ==>
              ParseValueList(s) == Some([v] + ParseValueList(rest[2..]).value)
  {
    assert s[0] == '\'';
    assert s[1..] == AddSlashes(v) + "'" + rest;
    ScanLiteralStopsAfterEscaped(v, rest);
    StripSlashesInvertsAddSlashes(v);
  }

  /** The first quoted value of a list, and what follows it. */
  lemma JoinQuotedFirst(values: seq<string>)
    requires values != []
    ensures Join(QuoteAll(values), ", ")
         == "'" + AddSlashes(values[0]) + "'"
            + (if |values| == 1 then "" else ", " + Join(QuoteAll(values[1..]), ", "))
  {
    var q := QuoteAll(values);
    if |values| > 1 {
      assert q[1..] == QuoteAll(values[1..]);
    }
  }

  /** The quoted, comma-separated list reads back as exactly the values it was built from. */
  lemma {:induction false} ParseValueListInverts(values: seq<string>)
    requires values != []
    ensures ParseValueList(Join(QuoteAll(values), ", ")) == Some(values)
  {
    var v := values[0];
    var s := Join(QuoteAll(values), ", ");
    JoinQuotedFirst(values);
    if |values| == 1 {
      ParseFirstLiteral(s, v, "");
      assert values == [v];
    } else {
      var tail := Join(QuoteAll(values[1..]), ", ");
      var rest := ", " + tail;
      ParseValueListInverts(values[1..]);
      assert rest[..2] == ", " && rest[2..] == tail;
      ParseFirstLiteral(s, v, rest);
      assert values == [v] + values[1..];
    }
  }

  /** The create statement reads back as exactly the values it lists, in order. */
  lemma CreateStatementInverts(typeName: string, values: seq<string>)
    requires values != []
    ensures ParseCreateType(typeName, CreateStatement(typeName, values)) == Some(values)
  {
    var head := CreateHead(typeName);
    var body := Join(QuoteAll(values), ", ");
    var sql := CreateStatement(typeName, values);
    assert sql == head + body + ")";
    assert sql[..|head|] == head;
    assert sql[|head|..|sql| - 1] == body;
    ParseValueListInverts(values);
  }

  /**
   * A successful `getCreateEnumTypeSQL` names the requested type and lists
   * the values of the enum's cases, in declaration order, and nothing else.
   */
  lemma CreateEnumTypeSqlListsCases(typeName: string, enumClass: string, classes: ClassTable)
    requires CreateEnumTypeSql(typeName, enumClass, classes).Success?
    ensures ParseCreateType(typeName, CreateEnumTypeSql(typeName, enumClass, classes).value)
         == Some(CaseValues(classes[enumClass].decl.cases))
  {
    CreateStatementInverts(typeName, CaseValues(classes[enumClass].decl.cases));
  }

  /** Every case's value appears, quoted, in the create statement: none is omitted. */
  lemma CreateEnumTypeSqlQuotesEveryCase(typeName: string, enumClass: string, classes: ClassTable, i: int)
    requires CreateEnumTypeSql(typeName, enumClass, classes).Success?
    requires 0 <= i < |classes[enumClass].decl.cases|
    ensures Occurs(Quote(CaseValue(classes[enumClass].decl.cases[i])),
                   CreateEnumTypeSql(typeName, enumClass, classes).value)
  {
    var values := CaseValues(classes[enumClass].decl.cases);
    JoinContainsEachPart(QuoteAll(values), ", ", i);
    OccursInContext(Quote(values[i]), Join(QuoteAll(values), ", "), CreateHead(typeName), ")");
  }

  // ---------------------------------------------------------------------
  // PostgreSQL's standard-conforming string literals.
  // ---------------------------------------------------------------------

  /**
   * The text of a standard-conforming single-quoted literal up to its closing
   * quote, decoded, and the text after it: a backslash is an ordinary
   * character and a doubled quote `''` stands for one quote.
   */
  function PgScan(s: string): Option<(string, string)>
    decreases |s|
  {
    if s == [] then None
    else if s[0] == '\'' then
      if |s| >= 2 && s[1] == '\'' then
        match PgScan(s[2..])
        case None => None
        case Some((body, rest)) => Some(("'" + body, rest))
      else Some(([], s[1..]))
    else match PgScan(s[1..])
      case None => None
      case Some((body, rest)) => Some(([s[0]] + body, rest))
  }

  /**
   * `addslashes` does not protect a quote from a standard-conforming reader:
   * the value `it's` is emitted as `'it\'s'`, whose literal ends after `it\`.
   */
  lemma AddSlashesBreaksStandardLiteral()
    ensures AddSlashes("it's") == "it\\'s"
    ensures PgScan(AddSlashes("it's") + "')") == Some(("it\\", "s')"))
    ensures PgScan(AddSlashes("it's") + "')") != Some(("it's", ")"))
  {
    assert AddSlashes("it's") == "it\\'s" by {
      assert "it's"[1..] == "t's" && "t's"[1..] == "'s" && "'s"[1..] == "s";
    }
    var s := "it\\'s" + "')";
    assert s[3..][1..] == "s')";
    assert PgScan(s[3..]) == Some(([], "s')"));
    assert s[2..][0] == '\\' && s[2..][1..] == s[3..];
    assert [s[2]] + [] == "\\";
    assert PgScan(s[2..]) == Some(("\\", "s')"));
    assert s[1..][0] == 't' && s[1..][1..] == s[2..];
    assert [s[1]] + "\\" == "t\\";
    assert PgScan(s[1..]) == Some(("t\\", "s')"));
    assert s[0] == 'i' && [s[0]] + "t\\" == "it\\";
  }

  /**
   * A double quote or a backslash does not cut the literal short, but a
   * standard-conforming reader keeps the backslash `addslashes` put before it:
   * the value `a"b` is stored as `a\"b`, which no longer matches the value.
   */
  lemma AddSlashesAltersDoubleQuote()
    ensures AddSlashes("a\"b") == "a\\\"b"
    ensures PgScan(AddSlashes("a\"b") + "')") == Some(("a\\\"b", ")"))
    ensures PgScan(AddSlashes("a\"b") + "')") != Some(("a\"b", ")"))
  {
    assert AddSlashes("a\"b") == "a\\\"b" by {
      assert "a\"b"[1..] == "\"b" && "\"b"[1..] == "b";
    }
    var s := "a\\\"b" + "')";
    assert s[4..][0] == '\'' && s[4..][1..] == ")";
    assert PgScan(s[4..]) == Some(([], ")"));
    assert s[3..][0] == 'b' && s[3..][1..] == s[4..];
    assert [s[3]] + [] == "b";
    assert PgScan(s[3..]) == Some(("b", ")"));
    assert s[2..][0] == '"' && s[2..][1..] == s[3..];
    assert [s[2]] + "b" == "\"b";
    assert PgScan(s[2..]) == Some(("\"b", ")"));
    assert s[1..][0] == '\\' && s[1..][1..] == s[2..];
    assert [s[1]] + "\"b" == "\\\"b";
    assert PgScan(s[1..]) == Some(("\\\"b", ")"));
    assert s[0] == 'a' && [s[0]] + "\\\"b" == "a\\\"b";
  }

  /** The standard-conforming escape: every quote doubled, every other character kept. */
  function PgEscape(s: string): (r: string)
    ensures |s| <= |r| <= 2 * |s|
  {
    if s == [] then []
    else (if s[0] == '\'' then "''" else [s[0]]) + PgEscape(s[1..])
  }

  /** A value without a quote needs no escaping under either convention. */
  lemma {:induction false} PgEscapeKeepsQuoteless(s: string)
    requires '\'' !in s
    ensures PgEscape(s) == s
  {
    if s != [] {
      assert '\'' !in s[1..] by {
        assert forall c :: c in s[1..] ==> c in s;
      }
      PgEscapeKeepsQuoteless(s[1..]);
      assert s == [s[0]] + s[1..];
    }
  }

  /**
   * With quotes doubled, a value ends exactly at the quote placed after it and
   * reads back unchanged, as long as what follows does not itself start with a
   * quote (in the statement it is `, ` or `)`).
   */
  lemma {:induction false} PgScanInvertsPgEscape(v: string, rest: string)
    requires rest == [] || rest[0] != '\''
    ensures PgScan(PgEscape(v) + "'" + rest) == Some((v, rest))
  {
    var s := PgEscape(v) + "'" + rest;
    if v == [] {
      assert s == "'" + rest;
      assert s[1..] == rest;
    } else {
      var t := PgEscape(v[1..]);
      PgScanInvertsPgEscape(v[1..], rest);
      if v[0] == '\'' {
        assert s == "''" + (t + "'" + rest);
        assert s[2..] == t + "'" + rest;
      } else {
        assert s == [v[0]] + (t + "'" + rest);
        assert s[1..] == t + "'" + rest;
      }
      assert v == [v[0]] + v[1..];
    }
  }
}

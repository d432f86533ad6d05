/**
 * A static description of PHP enums. It stands in for the reflection the
 * type adapter performs at run time: `class_exists`, `::cases()`,
 * `property_exists($case, 'value')` and `BackedEnum::tryFrom`.
 */
module PhpEnum {
  import opened Wrappers

  /** One `case` of an enum: its name and, in a backed enum, its backing value. */
  datatype EnumCase = EnumCase(name: string, backing: Option<string>)

  /** An enum: its fully qualified class name, whether it is string-backed, and its cases in declaration order. */
  datatype EnumDecl = EnumDecl(className: string, backed: bool, cases: seq<EnumCase>) {
    /** The rules PHP enforces on an enum declaration: all cases backed or none, distinct names, distinct backing values. */
    predicate Valid() {
      && (forall i :: 0 <= i < |cases| ==> cases[i].backing.Some? == backed)
      && (forall i, j :: 0 <= i < j < |cases| ==> cases[i].name != cases[j].name)
      && (forall i, j :: 0 <= i < j < |cases| ==> cases[i].backing.Some? ==> cases[i].backing != cases[j].backing)
    }
  }

  /** What `class_exists` finds under a class name: an ordinary class, or an enum with its declaration. */
  datatype ClassDecl = OrdinaryClass | Enum(decl: EnumDecl)

  /** The classes `class_exists` can resolve, keyed by fully qualified class name. */
  type ClassTable = map<string, ClassDecl>

  /** `BackedEnum::tryFrom($value)`: a case whose backing value is `value`, or null when there is none. */
  function TryFrom(cases: seq<EnumCase>, value: string): (r: Option<EnumCase>)
    ensures r.Some? ==> r.value in cases && r.value.backing == Some(value)
    ensures r.None? ==> forall c :: c in cases ==> c.backing != Some(value)
  {
    if cases == [] then None
    else if cases[0].backing == Some(value) then Some(cases[0])
    else TryFrom(cases[1..], value)
  }

  /** In a valid backed enum, a backing value identifies its case. */
  lemma BackingIdentifiesCase(e: EnumDecl, c: EnumCase, d: EnumCase)
    requires e.Valid() && c in e.cases && d in e.cases
    requires c.backing.Some? && c.backing == d.backing
    ensures c == d
  {
    var i :| 0 <= i < |e.cases| && e.cases[i] == c;
    var j :| 0 <= j < |e.cases| && e.cases[j] == d;
    assert i == j;
  }

  /** In a valid enum, a name identifies its case. */
  lemma NameIdentifiesCase(e: EnumDecl, c: EnumCase, d: EnumCase)
    requires e.Valid() && c in e.cases && d in e.cases
    requires c.name == d.name
    ensures c == d
  {
    var i :| 0 <= i < |e.cases| && e.cases[i] == c;
    var j :| 0 <= j < |e.cases| && e.cases[j] == d;
    assert i == j;
  }

  /** `tryFrom` of a case's own backing value gives back that case, and only that one. */
  lemma {:induction false} TryFromInvertsBacking(e: EnumDecl, c: EnumCase)
    requires e.Valid() && e.backed && c in e.cases
    ensures c.backing.Some? && TryFrom(e.cases, c.backing.value) == Some(c)
  {
    var i :| 0 <= i < |e.cases| && e.cases[i] == c;
    assert c.backing.Some?;
    var r := TryFrom(e.cases, c.backing.value);
    BackingIdentifiesCase(e, c, r.value);
  }
}

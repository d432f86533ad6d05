/** The `TaskPriorityEnum` domain: four task priorities backed by French labels. */
module TaskPriorityEnum {
  import opened Wrappers
  import opened PhpEnum

  datatype TaskPriority = LOW | MEDIUM | HIGH | CRITICAL

  /** The enum's fully qualified class name. */
  const CLASS_NAME: string := "App\\Enum\\TaskPriorityEnum"

  /** The cases in declaration order. */
  const Cases: seq<TaskPriority> := [LOW, MEDIUM, HIGH, CRITICAL]

  /** The case's name, as `$case->name` gives it. */
  function Name(p: TaskPriority): string {
    match p
    case LOW => "LOW"
    case MEDIUM => "MEDIUM"
    case HIGH => "HIGH"
    case CRITICAL => "CRITICAL"
  }

  /** The case's backing label, as `$case->value` gives it. */
  function Value(p: TaskPriority): string {
    match p
    case LOW => "basse"
    case MEDIUM => "normale"
    case HIGH => "haute"
    case CRITICAL => "critique"
  }

  /** The case as reflection sees it. */
  function AsCase(p: TaskPriority): EnumCase {
    EnumCase(Name(p), Some(Value(p)))
  }

  /** The declaration of `enum TaskPriorityEnum: string`: valid, backed, one entry per priority in declaration order. */
  function Decl(): (e: EnumDecl)
    ensures e.Valid() && e.backed && e.className == CLASS_NAME
    ensures |e.cases| == |Cases| && forall i :: 0 <= i < |Cases| ==> e.cases[i] == AsCase(Cases[i])
  {
    EnumDecl(CLASS_NAME, true, [AsCase(LOW), AsCase(MEDIUM), AsCase(HIGH), AsCase(CRITICAL)])
  }

  /** The application's other classes, none of them an enum. */
  const HELPER_CLASS: string := "App\\Doctrine\\Helper\\EnumTypeHelper"
  const ABSTRACT_TYPE_CLASS: string := "App\\Doctrine\\Type\\AbstractEnumType"
  const TYPE_CLASS: string := "App\\Doctrine\\Type\\TaskPriorityEnumType"
  const COMMAND_CLASS: string := "App\\Command\\TestTaskPriorityCommand"

  /**
   * The application's own classes under `src/`: the enum, and four classes
   * that are not enums. Built-in, vendor and test classes are not listed.
   */
  function AppClasses(): (t: ClassTable)
    ensures CLASS_NAME in t && t[CLASS_NAME] == Enum(Decl())
    ensures forall k :: k in t && k != CLASS_NAME ==> t[k] == OrdinaryClass
    ensures t.Keys == {CLASS_NAME, HELPER_CLASS, ABSTRACT_TYPE_CLASS, TYPE_CLASS, COMMAND_CLASS}
  {
    map[CLASS_NAME := Enum(Decl()),
        HELPER_CLASS := OrdinaryClass,
        ABSTRACT_TYPE_CLASS := OrdinaryClass,
        TYPE_CLASS := OrdinaryClass,
        COMMAND_CLASS := OrdinaryClass]
  }

  /** The position of a priority in declaration order. */
  function Ordinal(p: TaskPriority): (i: nat)
    ensures i < |Cases| && Cases[i] == p
  {
    match p
    case LOW => 0
    case MEDIUM => 1
    case HIGH => 2
    case CRITICAL => 3
  }

  /** The enum has exactly the four priorities, each listed once, in the order LOW, MEDIUM, HIGH, CRITICAL. */
  lemma CasesAreTheFourPriorities()
    ensures |Cases| == 4 && Cases[0] == LOW && Cases[1] == MEDIUM && Cases[2] == HIGH && Cases[3] == CRITICAL
    ensures forall p: TaskPriority :: p in Cases
    ensures forall i, j :: 0 <= i < j < |Cases| ==> Cases[i] != Cases[j]
  {
    forall p: TaskPriority ensures p in Cases {
      assert Cases[Ordinal(p)] == p;
    }
  }

  /** The labels are pairwise distinct, so the label-to-priority lookup is well defined. */
  lemma ValueIdentifiesPriority(p: TaskPriority, q: TaskPriority)
    ensures Value(p) == Value(q) <==> p == q
  {
  }

  /** `TaskPriorityEnum::tryFrom($v)` gives priority `p` exactly when `v` is `p`'s label. */
  lemma TryFromLabel(v: string, p: TaskPriority)
    ensures TryFrom(Decl().cases, v) == Some(AsCase(p)) <==> v == Value(p)
  {
    var e := Decl();
    assert AsCase(p) in e.cases by {
      assert e.cases[Ordinal(p)] == AsCase(p);
    }
    if v == Value(p) {
      TryFromInvertsBacking(e, AsCase(p));
    }
  }

  /** `TaskPriorityEnum::tryFrom($v)` is null exactly when `v` is none of the four labels. */
  lemma TryFromUnknown(v: string)
    ensures TryFrom(Decl().cases, v).None? <==> forall p: TaskPriority :: v != Value(p)
  {
    var r := TryFrom(Decl().cases, v);
    if r.Some? {
      var i :| 0 <= i < 4 && Decl().cases[i] == r.value;
      assert v == Value(Cases[i]);
    } else {
      forall p: TaskPriority ensures v != Value(p) {
        TryFromLabel(v, p);
      }
    }
  }
}

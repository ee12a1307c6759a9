/**
 * The Member entity of entity/Member.java and the three Jakarta Bean
 * Validation constraints it declares: @NotBlank on name, @Min(1) and
 * @Max(20) on uniformNumber. The other four fields carry no constraint.
 */
module Members {
  import opened Wrappers

  /** java.time.LocalDate; no constraint looks inside it. */
  datatype LocalDate = LocalDate(epochDay: int)

  /** java.time.LocalDateTime; no constraint looks inside it. */
  datatype LocalDateTime = LocalDateTime(epochSecond: int, nano: int)

  /** One roster row. Every field is a nullable Java reference (None is null). */
  datatype Member = Member(
    id: Option<int>,
    name: Option<string>,
    uniformNumber: Option<int>,
    joinDate: Option<LocalDate>,
    createdAt: Option<LocalDateTime>,
    updatedAt: Option<LocalDateTime>)

  /** `new Member()`: every field is null. */
  const NewMember: Member := Member(None, None, None, None, None, None)

  const NameField: string := "name"
  const UniformNumberField: string := "uniformNumber"

  const NameRequired: string := "名前は必須です"
  const UniformNumberMin: int := 1
  const UniformNumberMax: int := 20
  const UniformNumberTooSmall: string := "背番号は1以上"
  const UniformNumberTooLarge: string := "背番号は20以下"

  /** A constraint violation: the property it concerns and the constraint's message. */
  datatype Violation = Violation(field: string, message: string)

  /** The characters String.trim strips: code points up to U+0020. */
  predicate IsTrimmable(c: char) {
    c <= ' '
  }

  /** The number of trimmable characters at the front of s. */
  function LeadingTrimmable(s: string): (k: nat)
    ensures k <= |s|
    ensures forall i :: 0 <= i < k ==> IsTrimmable(s[i])
    ensures k < |s| ==> !IsTrimmable(s[k])
  {
    if s == [] || !IsTrimmable(s[0]) then 0 else 1 + LeadingTrimmable(s[1..])
  }

  /** The end of s once the trimmable characters at its back, down to st, are dropped. */
  function TrailingEnd(s: string, st: nat): (len: nat)
    requires st <= |s|
    ensures st <= len <= |s|
    ensures forall i :: len <= i < |s| ==> IsTrimmable(s[i])
    ensures st < len ==> !IsTrimmable(s[len - 1])
    decreases |s|
  {
    if |s| == st || !IsTrimmable(s[|s| - 1]) then |s| else TrailingEnd(s[..|s| - 1], st)
  }

  /** String.trim: s without its leading and trailing trimmable characters. */
  function Trim(s: string): (r: string)
    ensures |r| <= |s|
    ensures exists a, b :: 0 <= a <= b <= |s| && r == s[a..b]
              && (forall i :: 0 <= i < a ==> IsTrimmable(s[i]))
              && (forall i :: b <= i < |s| ==> IsTrimmable(s[i]))
    ensures r == [] <==> forall i :: 0 <= i < |s| ==> IsTrimmable(s[i])
    ensures r != [] ==> !IsTrimmable(r[0]) && !IsTrimmable(r[|r| - 1])
  {
    var st := LeadingTrimmable(s);
    s[st..TrailingEnd(s, st)]
  }

  /** The name rule: present, with at least one character that is not whitespace. */
  ghost predicate HasText(s: Option<string>) {
    s.Some? && exists i :: 0 <= i < |s.value| && !IsTrimmable(s.value[i])
  }

  /** @NotBlank: null is rejected, and so is a string that trims to "". */
  predicate NotBlank(s: Option<string>)
    ensures NotBlank(s) <==> HasText(s)
  {
    s.Some? && Trim(s.value) != []
  }

  /** @Min(min): null passes; otherwise the value must be at least min. */
  predicate AtLeast(n: Option<int>, min: int) {
    n.None? || min <= n.value
  }

  /** @Max(max): null passes; otherwise the value must be at most max. */
  predicate AtMost(n: Option<int>, max: int) {
    n.None? || n.value <= max
  }

  /** What the constraints accept, as ranges: a non-blank name and an optional number in [1, 20]. */
  ghost predicate Valid(m: Member) {
    && HasText(m.name)
    && (m.uniformNumber.Some? ==> UniformNumberMin <= m.uniformNumber.value <= UniformNumberMax)
  }

  /**
   * Every violated constraint of m. Each constraint is checked on its own;
   * the list is ordered name, @Min, @Max.
   */
  function Violations(m: Member): (vs: seq<Violation>)
    ensures vs == [] <==> Valid(m)
    ensures Violation(NameField, NameRequired) in vs <==> !HasText(m.name)
    ensures Violation(UniformNumberField, UniformNumberTooSmall) in vs
            <==> m.uniformNumber.Some? && m.uniformNumber.value < UniformNumberMin
    ensures Violation(UniformNumberField, UniformNumberTooLarge) in vs
            <==> m.uniformNumber.Some? && m.uniformNumber.value > UniformNumberMax
    ensures forall v :: v in vs ==>
              || v == Violation(NameField, NameRequired)
              || v == Violation(UniformNumberField, UniformNumberTooSmall)
              || v == Violation(UniformNumberField, UniformNumberTooLarge)
    ensures forall i, j :: 0 <= i < j < |vs| ==> vs[i].field != vs[j].field
  {
    (if NotBlank(m.name) then [] else [Violation(NameField, NameRequired)])
    + (if AtLeast(m.uniformNumber, UniformNumberMin) then [] else [Violation(UniformNumberField, UniformNumberTooSmall)])
    + (if AtMost(m.uniformNumber, UniformNumberMax) then [] else [Violation(UniformNumberField, UniformNumberTooLarge)])
  }

  /** id, joinDate, createdAt and updatedAt never affect validation, whatever their values. */
  lemma UnconstrainedFieldsIgnored(m: Member, id: Option<int>, joinDate: Option<LocalDate>,
                                   createdAt: Option<LocalDateTime>, updatedAt: Option<LocalDateTime>)
    ensures Violations(m.(id := id, joinDate := joinDate, createdAt := createdAt, updatedAt := updatedAt))
            == Violations(m)
  {
  }

  /** The registration in the integration test: name "日向翔陽", number 10, a join date. */
  lemma ValidRegistrationExample()
    ensures Violations(Member(None, Some("日向翔陽"), Some(10), Some(LocalDate(20179)), None, None)) == []
  {
  }

  /** An empty name gives exactly the name violation. */
  lemma BlankNameExample()
    ensures Violations(Member(None, Some(""), Some(10), None, None, None))
            == [Violation(NameField, NameRequired)]
  {
  }

  /** Number 100 gives exactly the @Max violation. */
  lemma OutOfRangeExample()
    ensures Violations(Member(None, Some("日向翔陽"), Some(100), None, None, None))
            == [Violation(UniformNumberField, UniformNumberTooLarge)]
  {
  }
}

/**
 * The `@ValidEnum` constraint: a string is accepted when it is null or
 * blank, or when it names one of the enum's constants (by `toString`),
 * compared exactly or ignoring case.
 */
module EnumValidator {

  import opened Wrappers
  import opened JavaText

  /** The annotation's `ignoreCase` when it is not given. */
  const DEFAULT_IGNORE_CASE: bool := false

  /**
   * The annotation as the validator reads it: the `toString` of each
   * constant of `enumClass` (null when the class has no constants array)
   * and the `ignoreCase` flag.
   */
  datatype ValidEnum = ValidEnum(enumConstants: Option<seq<string>>, ignoreCase: bool)

  /** The annotation as written on a field, with `ignoreCase` possibly left out. */
  function Annotation(enumConstants: Option<seq<string>>, ignoreCase: Option<bool>): (a: ValidEnum)
    ensures a.enumConstants == enumConstants
    ensures ignoreCase.None? ==> !a.ignoreCase
    ensures ignoreCase.Some? ==> a.ignoreCase == ignoreCase.value
  {
    ValidEnum(enumConstants, ignoreCase.GetOr(DEFAULT_IGNORE_CASE))
  }

  /** The comparison of one constant: `equalsIgnoreCase` or `equals`. */
  predicate Matches(value: string, constant: string, ignoreCase: bool)
  {
    if ignoreCase then EqualsIgnoreCase(value, constant) else value == constant
  }

  /** `anyMatch` over the constants. */
  predicate AnyMatch(value: string, constants: seq<string>, ignoreCase: bool)
  {
    constants != [] && (Matches(value, constants[0], ignoreCase) || AnyMatch(value, constants[1..], ignoreCase))
  }

  /** The search succeeds exactly when some constant matches. */
  lemma {:induction false} AnyMatchExists(value: string, constants: seq<string>, ignoreCase: bool)
    ensures AnyMatch(value, constants, ignoreCase) <==> exists i :: 0 <= i < |constants| && Matches(value, constants[i], ignoreCase)
    decreases |constants|
  {
    if constants != [] {
      AnyMatchExists(value, constants[1..], ignoreCase);
      if exists i :: 0 <= i < |constants| && Matches(value, constants[i], ignoreCase) {
        var i :| 0 <= i < |constants| && Matches(value, constants[i], ignoreCase);
        if i > 0 {
          assert constants[1..][i - 1] == constants[i];
        }
      }
      if exists i :: 0 <= i < |constants[1..]| && Matches(value, constants[1..][i], ignoreCase) {
        var i :| 0 <= i < |constants[1..]| && Matches(value, constants[1..][i], ignoreCase);
        assert constants[i + 1] == constants[1..][i];
      }
    }
  }

  /**
   * `isValid`: null or blank is accepted; without a constants array any
   * other value is refused; otherwise the value is accepted exactly when it
   * matches some constant.
   */
  predicate IsValid(annotation: ValidEnum, value: Option<string>)
    ensures value.None? || IsBlank(value.value) ==> IsValid(annotation, value)
    ensures value.Some? && !IsBlank(value.value) && annotation.enumConstants.None? ==> !IsValid(annotation, value)
    ensures value.Some? && !IsBlank(value.value) && annotation.enumConstants.Some? ==>
              (IsValid(annotation, value) <==>
                 exists i :: 0 <= i < |annotation.enumConstants.value| &&
                             Matches(value.value, annotation.enumConstants.value[i], annotation.ignoreCase))
  {
    if value.None? || IsBlank(value.value) then true
    else if annotation.enumConstants.None? then false
    else
      AnyMatchExists(value.value, annotation.enumConstants.value, annotation.ignoreCase);
      AnyMatch(value.value, annotation.enumConstants.value, annotation.ignoreCase)
  }

  /** Ignoring case only ever accepts more: what the exact comparison accepts, the case-blind one accepts too. */
  lemma IgnoreCaseAcceptsMore(constants: Option<seq<string>>, value: Option<string>)
    requires IsValid(ValidEnum(constants, false), value)
    ensures IsValid(ValidEnum(constants, true), value)
  {
    if value.Some? && !IsBlank(value.value) {
      var i :| 0 <= i < |constants.value| && Matches(value.value, constants.value[i], false);
      assert Matches(value.value, constants.value[i], true);
    }
  }

  /** With `ignoreCase` left out only an exact constant is accepted: "open" is refused when the constant is "OPEN". */
  lemma DefaultIsCaseSensitive(constants: seq<string>, value: string)
    requires !IsBlank(value) && value !in constants
    ensures !IsValid(Annotation(Some(constants), None), Some(value))
  {
  }
}

/**
 * The constraint checks the request bodies rely on: the built-in Jakarta Bean
 * Validation constraints @NotBlank and @Size, the project's own EnumValidator,
 * and Spring's StringUtils.hasText.
 */
module Validation {
  import opened Errors

  /** Characters that String.trim() removes: every code point up to U+0020. */
  predicate TrimmedAway(c: char) {
    c <= ' '
  }

  /**
   * @NotBlank as Hibernate Validator implements it: null fails, and so does a
   * string whose trim() is empty.
   */
  predicate NotBlank(s: Option<string>)
    ensures NotBlank(s) ==> s.Some? && s.value != ""
  {
    s.Some? && exists i :: 0 <= i < |s.value| && !TrimmedAway(s.value[i])
  }

  /** @Size(min, max) on a string: null passes, otherwise the length is bounded. */
  predicate SizeWithin(s: Option<string>, min: nat, max: nat)
    ensures s.None? ==> SizeWithin(s, min, max)
    ensures s.Some? && SizeWithin(s, min, max) ==> min <= |s.value| <= max
  {
    s.None? || min <= |s.value| <= max
  }

  /** @NotBlank fails on null, on "" and on a string of spaces. */
  lemma NotBlankExamples()
    ensures !NotBlank(None) && !NotBlank(Some("")) && !NotBlank(Some("  \t"))
    ensures NotBlank(Some(" a "))
  {
    assert !TrimmedAway(" a "[1]);
  }

  /** A non-blank string is never empty, so it meets any minimum size of 1. */
  lemma NotBlankMeetsSizeOne(s: Option<string>, max: nat)
    requires NotBlank(s) && |s.value| <= max
    ensures SizeWithin(s, 1, max)
  {
  }

  /**
   * util.validation.EnumValidator.isValid: null is valid, anything else must
   * equal the name of one of the enum's constants.
   */
  predicate EnumValid(value: Option<string>, constantNames: seq<string>)
    ensures value.None? ==> EnumValid(value, constantNames)
    ensures value.Some? && EnumValid(value, constantNames) ==> value.value in constantNames
  {
    match value
    case None => true
    case Some(v) => exists i :: 0 <= i < |constantNames| && constantNames[i] == v
  }

  /** EnumValid spelled out: valid iff null or a member of the constant names. */
  lemma EnumValidIff(value: Option<string>, constantNames: seq<string>)
    ensures EnumValid(value, constantNames) <==> value.None? || value.value in constantNames
  {
    if value.Some? && value.value in constantNames {
      var i :| 0 <= i < |constantNames| && constantNames[i] == value.value;
    }
  }

  /**
   * Character.isWhitespace: the Unicode space, line and paragraph separators
   * other than the three non-breaking spaces, and the controls
   * U+0009..U+000D and U+001C..U+001F.
   */
  predicate JavaWhitespace(c: char) {
    || ('\U{0009}' <= c <= '\U{000D}')
    || ('\U{001C}' <= c <= ' ')
    || c == '\U{1680}'
    || ('\U{2000}' <= c <= '\U{2006}')
    || ('\U{2008}' <= c <= '\U{200A}')
    || c == '\U{2028}' || c == '\U{2029}' || c == '\U{205F}' || c == '\U{3000}'
  }

  /** StringUtils.hasText: not null, not empty, and some character is not whitespace. */
  predicate HasText(s: Option<string>)
    ensures HasText(s) ==> s.Some? && s.value != ""
  {
    s.Some? && exists i :: 0 <= i < |s.value| && !JavaWhitespace(s.value[i])
  }
}

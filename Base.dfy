/**
 * The small part of the .NET runtime the web API relies on: nullable
 * references and the string operations used by its validation rules.
 */
module Base {

  /** A reference that may be null (`T?` in C#). */
  datatype Option<T> = None | Some(value: T)

  /**
   * `char.IsWhiteSpace`: the Unicode White_Space characters, that is U+0009
   * to U+000D, U+0020, U+0085, U+00A0, U+1680, U+2000 to U+200A, U+2028,
   * U+2029, U+202F, U+205F and U+3000.
   */
  predicate IsWhiteSpace(c: char) {
    || ('\t' <= c <= '\r')
    || c == ' '
    || c == '\U{0085}'
    || c == '\U{00A0}'
    || c == '\U{1680}'
    || ('\U{2000}' <= c <= '\U{200A}')
    || c == '\U{2028}'
    || c == '\U{2029}'
    || c == '\U{202F}'
    || c == '\U{205F}'
    || c == '\U{3000}'
  }

  /** `string.IsNullOrWhiteSpace`: null, empty, or white space only. */
  predicate IsNullOrWhiteSpace(s: Option<string>) {
    match s
    case None => true
    case Some(t) => forall i :: 0 <= i < |t| ==> IsWhiteSpace(t[i])
  }

  /** A string with a character that is not white space is not blank. */
  lemma NotBlank(t: string, i: nat)
    requires i < |t| && !IsWhiteSpace(t[i])
    ensures !IsNullOrWhiteSpace(Some(t))
  {
  }

  /** One character of `ToLower`, restricted to ASCII. */
  function LowerChar(c: char): char {
    if 'A' <= c <= 'Z' then (c as int + 32) as char else c
  }

  /**
   * `string.ToLower`, modelled as ASCII lower-casing: the result has the
   * same length, no upper-case ASCII letter, and differs from the input only
   * where the input had an upper-case ASCII letter.
   */
  function ToLower(s: string): (r: string)
    ensures |r| == |s|
    ensures forall i :: 0 <= i < |r| ==> !('A' <= r[i] <= 'Z')
    ensures forall i :: 0 <= i < |r| && !('A' <= s[i] <= 'Z') ==> r[i] == s[i]
    ensures forall i :: 0 <= i < |s| && 'A' <= s[i] <= 'Z' ==> r[i] as int == s[i] as int + 32
  {
    seq(|s|, i requires 0 <= i < |s| => LowerChar(s[i]))
  }

  /** The comparison `a.ToLower() == b.ToLower()`. */
  predicate EqualsIgnoringCase(a: string, b: string) {
    ToLower(a) == ToLower(b)
  }

  /**
   * The comparison ignoring case holds exactly when the strings have the
   * same length and agree, position by position, once each character is
   * lower-cased: two e-mails differing only in the case of ASCII letters
   * compare equal.
   */
  lemma EqualsIgnoringCasePointwise(a: string, b: string)
    ensures EqualsIgnoringCase(a, b) <==>
              |a| == |b| && forall k :: 0 <= k < |a| ==> LowerChar(a[k]) == LowerChar(b[k])
  {
    if |a| == |b| && forall k :: 0 <= k < |a| ==> LowerChar(a[k]) == LowerChar(b[k]) {
      assert forall k :: 0 <= k < |a| ==> ToLower(a)[k] == ToLower(b)[k];
    }
    if EqualsIgnoringCase(a, b) {
      assert forall k :: 0 <= k < |a| ==> ToLower(a)[k] == LowerChar(a[k]);
    }
  }
}

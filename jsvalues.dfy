/** The few JavaScript value rules the handlers depend on: a field that may be
    `undefined`, a call that may throw, truthiness, the `||` fallback and
    `String.prototype.toUpperCase` restricted to ASCII. */
module JsValues {

  /** A value that may be `undefined` (or SQL NULL). */
  datatype Option<+T> = None | Some(value: T)

  /** The result of a call into a library that may throw instead of returning. */
  datatype Outcome<+T> = Returned(value: T) | Threw

  /** A JavaScript `Date`, by its text: the `toISOString()` form when the
      code converts it, the text a SQL template interpolates otherwise. */
  type Date = string

  /** A string-valued field is truthy when it is present and not empty. */
  predicate Truthy(s: Option<string>) {
    s.Some? && s.value != ""
  }

  /** A number-valued field is truthy when it is present and not 0. */
  predicate TruthyNumber(n: Option<int>) {
    n.Some? && n.value != 0
  }

  /** `a || b` on string-valued fields. */
  function Or(a: Option<string>, b: Option<string>): Option<string> {
    if Truthy(a) then a else b
  }

  predicate IsLowerAscii(c: char) {
    'a' <= c <= 'z'
  }

  /** toUpperCase on one character: ASCII letters only. */
  function UpperChar(c: char): (u: char)
    ensures !IsLowerAscii(u)
    ensures IsLowerAscii(c) ==> u as int == c as int - 32
    ensures !IsLowerAscii(c) ==> u == c
  {
    if IsLowerAscii(c) then (c as int - 32) as char else c
  }

  /** toUpperCase on a string, character by character. */
  function ToUpperCase(s: string): string {
    if s == [] then [] else [UpperChar(s[0])] + ToUpperCase(s[1..])
  }

  /** toUpperCase keeps the length, maps each character on its own and leaves
      no lower-case ASCII letter behind. */
  lemma {:induction false} ToUpperCaseAt(s: string)
    ensures |ToUpperCase(s)| == |s|
    ensures forall i :: 0 <= i < |s| ==> ToUpperCase(s)[i] == UpperChar(s[i])
    ensures forall i :: 0 <= i < |s| ==> !IsLowerAscii(ToUpperCase(s)[i])
  {
    if s != [] {
      ToUpperCaseAt(s[1..]);
      assert ToUpperCase(s) == [UpperChar(s[0])] + ToUpperCase(s[1..]);
    }
  }

  /** Upper-casing twice is the same as upper-casing once. */
  lemma {:induction false} ToUpperCaseIdempotent(s: string)
    ensures ToUpperCase(ToUpperCase(s)) == ToUpperCase(s)
  {
    if s != [] {
      ToUpperCaseIdempotent(s[1..]);
      var u := ToUpperCase(s);
      assert u == [UpperChar(s[0])] + ToUpperCase(s[1..]);
      assert u[1..] == ToUpperCase(s[1..]);
    }
  }

  /** Some element of a non-empty set: the witness a loop needs before it
      picks the next row of a result set. */
  lemma PickFrom<T>(s: set<T>) returns (x: T)
    requires s != {}
    ensures x in s
  {
    x :| x in s;
  }
}

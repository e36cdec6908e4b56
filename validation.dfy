/** The `validateInput` middleware of app.js: the syntactic checks on the
    `quant` and `tag` query parameters, and the `parseInt` that reads `quant`. */
module Validation {
  import opened Wrappers

  predicate IsDigit(c: char) {
    '0' <= c <= '9'
  }

  /** The character class `[a-zA-Z0-9,-]`. */
  predicate IsTagChar(c: char) {
    'a' <= c <= 'z' || 'A' <= c <= 'Z' || IsDigit(c) || c == ',' || c == '-'
  }

  /** The test `/^\d+$/`: one or more ASCII digits and nothing else. */
  predicate IsDigitString(s: string) {
    |s| > 0 && forall i :: 0 <= i < |s| ==> IsDigit(s[i])
  }

  /** The test `/^[a-zA-Z0-9,-]+$/`. */
  predicate IsTagString(s: string) {
    |s| > 0 && forall i :: 0 <= i < |s| ==> IsTagChar(s[i])
  }

  /** JavaScript truthiness of an optional query string: a missing parameter
      and the empty string are both falsy. */
  predicate Present(o: Option<string>) {
    o.Some? && o.value != ""
  }

  datatype Verdict = Pass | Reject(message: string)

  const QuantMessage: string := "The \"quant\" parameter must be a positive integer."
  const TagMessage: string := "Invalid characters in the \"tag\" parameter."

  /** `validateInput`: `quant` is checked first, then `tag`; each failure is a
      400 with its own message. */
  function ValidateInput(quant: Option<string>, tag: Option<string>): (v: Verdict)
    ensures v.Pass? <==>
      && quant.Some? && IsDigitString(quant.value)
      && (tag.None? || tag.value == "" || IsTagString(tag.value))
    ensures v.Reject? ==> v.message in {QuantMessage, TagMessage}
    ensures v == Reject(QuantMessage) <==> !(quant.Some? && IsDigitString(quant.value))
  {
    if !Present(quant) || !IsDigitString(quant.value) then Reject(QuantMessage)
    else if Present(tag) && !IsTagString(tag.value) then Reject(TagMessage)
    else Pass
  }

  function DigitValue(c: char): (d: nat)
    requires IsDigit(c)
    ensures d < 10
  {
    (c as int) - ('0' as int)
  }

  function DigitChar(d: nat): (c: char)
    requires d < 10
    ensures IsDigit(c) && DigitValue(c) == d
  {
    (('0' as int) + d) as char
  }

  /** `parseInt(quant)` on a string that passed `/^\d+$/`: its decimal value,
      leading zeros allowed. */
  function DecimalValue(s: string): (v: nat)
    requires forall i :: 0 <= i < |s| ==> IsDigit(s[i])
    ensures v == 0 <==> forall i :: 0 <= i < |s| ==> s[i] == '0'
  {
    if s == [] then 0 else DecimalValue(s[..|s| - 1]) * 10 + DigitValue(s[|s| - 1])
  }

  /** The shortest decimal numeral of `n`. */
  function Decimal(n: nat): (s: string)
    ensures IsDigitString(s)
    ensures |s| > 1 ==> s[0] != '0'
  {
    if n < 10 then [DigitChar(n)] else Decimal(n / 10) + [DigitChar(n % 10)]
  }

  /** Every natural number, written in decimal, passes the `quant` check and
      is read back by `parseInt` as itself. */
  lemma {:induction false} DecimalRoundTrip(n: nat)
    ensures IsDigitString(Decimal(n)) && DecimalValue(Decimal(n)) == n
  {
    var s := Decimal(n);
    if n >= 10 {
      DecimalRoundTrip(n / 10);
      assert s[..|s| - 1] == Decimal(n / 10);
    }
  }
}

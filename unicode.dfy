/** The Unicode algorithms the library calls but does not implement: NFKC
    normalisation (Unicode Standard Annex #15), `ToLowerInvariant` and
    `char.IsLetterOrDigit`. They enter the model as the fields of a `Rules`
    value, so that every property proved holds whatever those algorithms do;
    `Ascii` is one concrete instance, exact for ASCII text. */
module Unicode {
  import opened Text

  datatype Rules = Rules(
    nfkc: string -> string,
    toLowerInvariant: string -> string,
    isLetterOrDigit: char -> bool)

  /** ASCII lower-casing of a whole string. */
  function AsciiLower(s: string): (r: string)
    ensures |r| == |s|
    ensures forall i :: 0 <= i < |s| ==> r[i] == AsciiLowerChar(s[i])
  {
    seq(|s|, i requires 0 <= i < |s| => AsciiLowerChar(s[i]))
  }

  /** On ASCII text NFKC is the identity and the other two are the ASCII
      mappings. */
  const Ascii: Rules := Rules(s => s, AsciiLower, IsAsciiLetterOrDigit)
}

/** Strings as a C pointer sees them. */
module CStrings {
  const NUL: char := '\0'

  /** The character at i: NUL at the end of the text. */
  function At(s: string, i: nat): char { if i < |s| then s[i] else NUL }
}

/** NUL-terminated strings, given without their terminator. */
module CStrings {
  type CString = s: string | forall k :: 0 <= k < |s| ==> s[k] != '\0'

  /** The character at index i; the one at the end is the terminator. */
  function Char(s: string, i: nat): char {
    if i < |s| then s[i] else '\0'
  }
}

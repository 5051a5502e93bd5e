/** Byte strings as the C programs read them. */
module Text {
  import opened Words

  const SLASH: Byte := 0x2f

  /** A fixed-width field up to its terminator. */
  function CString(s: seq<Byte>): (r: seq<Byte>)
    ensures |r| <= |s|
  {
    if s == [] || s[0] == 0 then [] else [s[0]] + CString(s[1..])
  }

  /** Position of the first slash, or the length. */
  function SlashAt(path: seq<Byte>): (k: nat)
    ensures k <= |path|
    ensures k < |path| ==> path[k] == SLASH
    ensures forall i :: 0 <= i < k ==> path[i] != SLASH
  {
    if path == [] || path[0] == SLASH then 0 else 1 + SlashAt(path[1..])
  }
}

/** The argument checks of Validation.java: null and blank strings, null references. */
module Validation {
  import opened Wrappers

  /** Java's trim() treats every character at or below U+0020 as white space. */
  predicate IsSpace(c: char) {
    c <= ' '
  }

  /** Every character is white space in the sense of trim(); the empty string is blank. */
  predicate IsBlank(s: string) {
    forall i :: 0 <= i < |s| ==> IsSpace(s[i])
  }

  /** Drops the leading white space, as the first half of String.trim() does. */
  function TrimLeading(s: string): (r: string)
    ensures |r| <= |s| && r == s[|s| - |r|..]
    ensures r != [] ==> !IsSpace(r[0])
    ensures forall i :: 0 <= i < |s| - |r| ==> IsSpace(s[i])
  {
    if s != [] && IsSpace(s[0]) then TrimLeading(s[1..]) else s
  }

  /** Drops the trailing white space, as the second half of String.trim() does. */
  function TrimTrailing(s: string): (r: string)
    ensures |r| <= |s| && r == s[..|r|]
    ensures r != [] ==> !IsSpace(r[|r| - 1])
    ensures forall i :: |r| <= i < |s| ==> IsSpace(s[i])
  {
    if s != [] && IsSpace(s[|s| - 1]) then TrimTrailing(s[..|s| - 1]) else s
  }

  /** String.trim(). */
  function Trim(s: string): string {
    TrimTrailing(TrimLeading(s))
  }

  /** trim().isEmpty() holds exactly for the blank strings, white-space-only ones included. */
  lemma TrimEmptyIffBlank(s: string)
    ensures Trim(s) == [] <==> IsBlank(s)
  {
    var l := TrimLeading(s);
    if l != [] {
      assert !IsSpace(s[|s| - |l|]);
    }
  }

  /** validateArg(String, message): throws for null or a string whose trim() is empty, else returns it unchanged. */
  function ValidateString(arg: Option<string>): (r: Result<string>)
    ensures r.InvalidArgument? <==> arg.None? || IsBlank(arg.value)
    ensures arg.None? ==> r == InvalidArgument(NullArgument)
    ensures arg.Some? && IsBlank(arg.value) ==> r == InvalidArgument(BlankArgument)
    ensures r.Ok? ==> r.value == arg.value
  {
    if arg.None? then InvalidArgument(NullArgument)
    else
      TrimEmptyIffBlank(arg.value);
      if Trim(arg.value) == [] then InvalidArgument(BlankArgument) else Ok(arg.value)
  }

  /** validateArg(Object, message): throws only for null; no content is inspected. */
  function ValidateObject<T>(arg: Option<T>): (r: Result<T>)
    ensures r.InvalidArgument? <==> arg.None?
    ensures r.InvalidArgument? ==> r.reason == NullArgument
    ensures r.Ok? ==> r.value == arg.value
  {
    match arg
    case None => InvalidArgument(NullArgument)
    case Some(v) => Ok(v)
  }

  /** A string with one character above U+0020 passes, whatever white space surrounds it. */
  lemma VisibleCharacterPasses(s: string, i: nat)
    requires i < |s| && !IsSpace(s[i])
    ensures ValidateString(Some(s)) == Ok(s)
  {
  }
}

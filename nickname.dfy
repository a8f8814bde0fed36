/** The nickname modal: the draft the text input edits and the guard on its
    confirm button, which forwards the draft only when it is not all blanks. */
module Nickname {

  datatype Option<T> = None | Some(value: T)

  /** The code points `String.prototype.trim` strips: the WhiteSpace and
      LineTerminator sets of ECMAScript (sections 12.2 and 12.3 of ECMA-262),
      the former being TAB, VT, FF, ZWNBSP and the Unicode category Zs. */
  predicate IsWhitespace(c: char) {
    var n := c as int;
    (0x09 <= n <= 0x0D) || n == 0x20 || n == 0xA0 || n == 0x1680 ||
    (0x2000 <= n <= 0x200A) || n == 0x2028 || n == 0x2029 || n == 0x202F ||
    n == 0x205F || n == 0x3000 || n == 0xFEFF
  }

  /** Nothing but whitespace (the empty string included). */
  predicate IsBlank(s: string) {
    forall i :: 0 <= i < |s| ==> IsWhitespace(s[i])
  }

  /** `s` with its leading whitespace removed. */
  function TrimStart(s: string): (r: string)
    ensures |r| <= |s| && r == s[|s| - |r|..]
    ensures forall i :: 0 <= i < |s| - |r| ==> IsWhitespace(s[i])
    ensures r == [] || !IsWhitespace(r[0])
  {
    if s != [] && IsWhitespace(s[0]) then
      var r := TrimStart(s[1..]);
      assert forall i :: 1 <= i < |s| ==> s[i] == s[1..][i - 1];
      r
    else s
  }

  /** `s` with its trailing whitespace removed. */
  function TrimEnd(s: string): (r: string)
    ensures |r| <= |s| && r == s[..|r|]
    ensures forall i :: |r| <= i < |s| ==> IsWhitespace(s[i])
    ensures r == [] || !IsWhitespace(r[|r| - 1])
  {
    if s != [] && IsWhitespace(s[|s| - 1]) then TrimEnd(s[..|s| - 1]) else s
  }

  /** `String.prototype.trim`: `TrimStart(s)`, a suffix of `s`, cut back to the
      prefix before its trailing whitespace; the result is empty or begins and
      ends with a non-whitespace character. */
  function Trim(s: string): (r: string)
    ensures |r| <= |TrimStart(s)| <= |s|
    ensures r == TrimStart(s)[..|r|]
    ensures r == [] || (!IsWhitespace(r[0]) && !IsWhitespace(r[|r| - 1]))
  {
    TrimEnd(TrimStart(s))
  }

  /** What `trim` cuts off at either end is whitespace only. */
  lemma TrimCutsOnlyWhitespace(s: string)
    ensures IsBlank(s[..|s| - |TrimStart(s)|]) && IsBlank(TrimStart(s)[|Trim(s)|..])
  {
    var t := TrimStart(s);
    assert IsBlank(t[|TrimEnd(t)|..]);
  }

  /** `s.trim()` is falsy exactly when `s` is blank. */
  lemma {:induction false} TrimEmptyIffBlank(s: string)
    ensures Trim(s) == "" <==> IsBlank(s)
  {
    var t := TrimStart(s);
    var k := |s| - |t|;
    TrimCutsOnlyWhitespace(s);
    if Trim(s) == "" {
      assert IsBlank(t[0..]) && t[0..] == t;
      assert t == [] && s[..k] == s;
    } else {
      assert t != [] && s[k] == t[0];
    }
  }

  class NicknameModal {
    /** The text typed so far. */
    var draft: string

    /** The draft starts out empty. */
    constructor ()
      ensures draft == ""
    {
      draft := "";
    }

    /** `onChangeText`: the draft becomes exactly the typed text, untrimmed. */
    method OnChangeText(text: string)
      modifies this
      ensures draft == text
    {
      draft := text;
    }

    /** The confirm button: `onConfirm` is called, with the untrimmed draft, exactly
        when the draft has a non-whitespace character; otherwise nothing is called. */
    method PressConfirm() returns (confirmed: Option<string>)
      ensures confirmed.None? <==> IsBlank(draft)
      ensures confirmed.Some? ==> confirmed.value == draft && confirmed.value != ""
    {
      TrimEmptyIffBlank(draft);
      if Trim(draft) != "" {
        confirmed := Some(draft);
      } else {
        confirmed := None;
      }
    }
  }
}

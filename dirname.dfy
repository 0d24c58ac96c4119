/** `get_dirname` of loader.c: cuts a NUL-terminated path in place at its
    last '/', using `strrchr`. */
module Dirname {

  datatype Option<T> = None | Some(value: T)

  /** The C string a char buffer holds: everything before the first NUL. */
  function CString(s: seq<char>): (r: seq<char>)
    ensures |r| <= |s| && r == s[..|r|]
    ensures '\0' !in r
    ensures |r| < |s| ==> s[|r|] == '\0'
  {
    if s == [] || s[0] == '\0' then [] else [s[0]] + CString(s[1..])
  }

  /** The position `strrchr` finds: the last occurrence of `ch`, if any. */
  function LastIndexOf(s: seq<char>, ch: char): (r: Option<nat>)
    ensures r.Some? ==> r.value < |s| && s[r.value] == ch && ch !in s[r.value + 1..]
    ensures r.None? ==> ch !in s
  {
    if s == [] then None
    else if s[|s| - 1] == ch then Some(|s| - 1)
    else
      var r := LastIndexOf(s[..|s| - 1], ch);
      assert s == s[..|s| - 1] + [s[|s| - 1]];
      r
  }

  /** The directory part of a path: the text before its last '/', that is, a
      prefix followed by a '/' after which no '/' occurs; or the whole path
      when it has no '/'. */
  function Dirname(s: seq<char>): (d: seq<char>)
    ensures '/' !in s ==> d == s
    ensures '/' in s ==> |d| < |s| && s[..|d|] == d && s[|d|] == '/' && '/' !in s[|d| + 1..]
  {
    match LastIndexOf(s, '/')
    case None => s
    case Some(k) => s[..k]
  }

  /** A C string ends at the first NUL of the buffer. */
  lemma {:induction false} CStringAt(s: seq<char>, i: int)
    requires 0 <= i < |s| && s[i] == '\0' && '\0' !in s[..i]
    ensures CString(s) == s[..i]
    decreases i
  {
    if i > 0 {
      assert s[0] == s[..i][0];
      assert s[1..][..i - 1] == s[..i][1..];
      CStringAt(s[1..], i - 1);
      assert s[..i] == [s[0]] + s[1..][..i - 1];
    }
  }

  /** Writing NUL over a position inside the C string cuts it there. */
  lemma CutCString(s: seq<char>, k: int)
    requires 0 <= k < |CString(s)|
    ensures CString(s[k := '\0']) == CString(s)[..k]
  {
    var c := CString(s);
    var t := s[k := '\0'];
    assert t[..k] == c[..k];
    assert '\0' !in t[..k];
    CStringAt(t, k);
  }

  /** `strrchr(str, ch)` for a non-NUL `ch`: the index of the last `ch`
      before the terminating NUL, or -1 for a null result. */
  method StrRChr(str: array<char>, ch: char) returns (idx: int)
    requires '\0' in str[..]
    requires ch != '\0'
    ensures idx == match LastIndexOf(CString(str[..]), ch) case None => -1 case Some(k) => k
  {
    ghost var nul :| 0 <= nul < str.Length && str[nul] == '\0';
    idx := -1;
    var i := 0;
    while str[i] != '\0'
      invariant 0 <= i <= nul
      invariant '\0' !in str[..i]
      invariant idx == match LastIndexOf(str[..i], ch) case None => -1 case Some(k) => k
      decreases nul - i
    {
      if str[i] == ch {
        idx := i;
      }
      assert str[..i + 1][..i] == str[..i];
      i := i + 1;
    }
    CStringAt(str[..], i);
  }

  /** `get_dirname`: NULL stays NULL; a path without '/' is returned
      unchanged; otherwise the last '/' becomes NUL. The same pointer is
      returned in every case. */
  method GetDirname(path: array?<char>) returns (r: array?<char>)
    requires path != null ==> '\0' in path[..]
    modifies path
    ensures r == path
    ensures path != null ==>
      match LastIndexOf(CString(old(path[..])), '/')
      case None => path[..] == old(path[..])
      case Some(k) => path[..] == old(path[..])[k := '\0']
    ensures path != null ==> CString(path[..]) == Dirname(CString(old(path[..])))
  {
    if path == null {
      return path;
    }
    var lastDelim := StrRChr(path, '/');
    if lastDelim == -1 {
      return path;
    }
    path[lastDelim] := '\0';
    CutCString(old(path[..]), lastDelim);
    return path;
  }
}

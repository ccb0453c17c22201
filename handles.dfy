/**
 * Cleaning the handle typed after `!register`: index.js removes the first
 * `@` and trims (`args[0].replace('@', '').trim()`), main.py removes every
 * `@` and strips (`handle.replace("@", "").strip()`). The two languages
 * also disagree on what counts as white space.
 */
module Handles {

  /** White space for JavaScript's `trim`: WhiteSpace and LineTerminator. */
  predicate JsSpace(c: char) {
    || c == '\t' || c == '\n' || c == '\U{000B}' || c == '\U{000C}' || c == '\r' || c == ' '
    || c == '\U{00A0}' || c == '\U{1680}' || ('\U{2000}' <= c <= '\U{200A}')
    || c == '\U{2028}' || c == '\U{2029}' || c == '\U{202F}' || c == '\U{205F}'
    || c == '\U{3000}' || c == '\U{FEFF}'
  }

  /** White space for Python's `str.strip`: `str.isspace`, which unlike
      JavaScript includes U+001C..U+001F and U+0085 but not U+FEFF. */
  predicate PySpace(c: char) {
    || c == '\t' || c == '\n' || c == '\U{000B}' || c == '\U{000C}' || c == '\r' || c == ' '
    || ('\U{001C}' <= c <= '\U{001F}') || c == '\U{0085}'
    || c == '\U{00A0}' || c == '\U{1680}' || ('\U{2000}' <= c <= '\U{200A}')
    || c == '\U{2028}' || c == '\U{2029}' || c == '\U{202F}' || c == '\U{205F}'
    || c == '\U{3000}'
  }

  /** Drops the leading white space: what remains is a suffix of `s`. */
  function TrimStart(s: string, space: char -> bool): (r: string)
    ensures |r| <= |s| && r == s[|s| - |r|..]
    ensures forall k :: 0 <= k < |s| - |r| ==> space(s[k])
    ensures r == [] || !space(r[0])
  {
    if s != [] && space(s[0]) then
      var r := TrimStart(s[1..], space);
      assert s[1..][|s| - 1 - |r|..] == s[|s| - |r|..];
      assert forall k :: 1 <= k < |s| - |r| ==> s[k] == s[1..][k - 1];
      r
    else s
  }

  /** Drops the trailing white space: what remains is a prefix of `s`. */
  function TrimEnd(s: string, space: char -> bool): (r: string)
    ensures |r| <= |s| && r == s[..|r|]
    ensures forall k :: |r| <= k < |s| ==> space(s[k])
    ensures r == [] || !space(r[|r| - 1])
  {
    if s != [] && space(s[|s| - 1]) then TrimEnd(s[..|s| - 1], space) else s
  }

  /** `r` is the slice of `s` starting at `i`, with only white space
      before and after it. */
  predicate TrimmedSlice(s: string, r: string, i: int, space: char -> bool) {
    && 0 <= i <= |s| - |r| && r == s[i..i + |r|]
    && (forall k :: 0 <= k < i ==> space(s[k]))
    && (forall k :: i + |r| <= k < |s| ==> space(s[k]))
  }

  /** Both ends trimmed: what remains is the slice of `s` between a run of
      leading and a run of trailing white space, with no white space at
      either end, so every character of `s` that is not white space
      survives, in place. */
  function Trim(s: string, space: char -> bool): (r: string)
    ensures exists i :: TrimmedSlice(s, r, i, space)
    ensures r == [] || (!space(r[0]) && !space(r[|r| - 1]))
    ensures forall x :: x in r ==> x in s
    ensures forall x :: x in s && !space(x) ==> x in r
  {
    var t := TrimStart(s, space);
    var r := TrimEnd(t, space);
    TrimmedChars(s, t, r, space);
    r
  }

  /** Cutting white space off both ends keeps every other character. */
  lemma TrimmedChars(s: string, t: string, r: string, space: char -> bool)
    requires |t| <= |s| && t == s[|s| - |t|..]
    requires forall k :: 0 <= k < |s| - |t| ==> space(s[k])
    requires |r| <= |t| && r == t[..|r|]
    requires forall k :: |r| <= k < |t| ==> space(t[k])
    ensures TrimmedSlice(s, r, |s| - |t|, space)
    ensures forall x :: x in r ==> x in s
    ensures forall x :: x in s && !space(x) ==> x in r
  {
    var i := |s| - |t|;
    assert forall k :: i + |r| <= k < |s| ==> s[k] == t[k - i];
    forall x | x in r ensures x in s {
      var k :| 0 <= k < |r| && r[k] == x;
      assert t[k] == x;
      assert s[|s| - |t| + k] == x;
    }
    forall x | x in s && !space(x) ensures x in r {
      var k :| 0 <= k < |s| && s[k] == x;
      assert k >= |s| - |t|;
      assert t[k - (|s| - |t|)] == x;
      assert r[k - (|s| - |t|)] == x;
    }
  }

  /** Where `c` first occurs in `s`. */
  function FirstIndex(s: string, c: char): (i: nat)
    requires c in s
    ensures i < |s| && s[i] == c && c !in s[..i]
  {
    if s[0] == c then 0
    else
      assert c in s[1..];
      var j := FirstIndex(s[1..], c);
      assert s[..j + 1] == [s[0]] + s[1..][..j];
      j + 1
  }

  /** `s.replace(c, '')` with a string pattern in JavaScript: only the first
      occurrence goes. */
  function RemoveFirst(s: string, c: char): (r: string)
    ensures c !in s ==> r == s
    ensures c in s ==> |r| == |s| - 1
  {
    if s == [] then []
    else if s[0] == c then s[1..]
    else
      assert c in s ==> c in s[1..];
      [s[0]] + RemoveFirst(s[1..], c)
  }

  /** What goes is the first `c`; everything before and after it stays. */
  lemma {:induction false} RemoveFirstAt(s: string, c: char)
    requires c in s
    ensures RemoveFirst(s, c) == s[..FirstIndex(s, c)] + s[FirstIndex(s, c) + 1..]
  {
    if s[0] != c {
      assert c in s[1..];
      RemoveFirstAt(s[1..], c);
      var i := FirstIndex(s[1..], c);
      assert FirstIndex(s, c) == i + 1;
      assert s[..i + 1] == [s[0]] + s[1..][..i];
      assert s[i + 2..] == s[1..][i + 1..];
    }
  }

  /** `s.replace(c, "")` in Python: every occurrence goes, all other
      characters stay, in order. */
  function RemoveAll(s: string, c: char): (r: string)
    ensures c !in r
    ensures forall x :: x != c ==> multiset(r)[x] == multiset(s)[x]
    ensures |s| == 1 ==> r == if s[0] == c then [] else s
  {
    if s == [] then []
    else
      assert s == [s[0]] + s[1..];
      if s[0] == c then RemoveAll(s[1..], c) else [s[0]] + RemoveAll(s[1..], c)
  }

  /** Removal works piece by piece, so the characters that stay keep their
      order: with the one-character case above, this pins `RemoveAll` down
      completely. */
  lemma {:induction false} RemoveAllConcat(a: string, b: string, c: char)
    ensures RemoveAll(a + b, c) == RemoveAll(a, c) + RemoveAll(b, c)
  {
    if a == [] {
      assert a + b == b;
    } else {
      assert (a + b)[0] == a[0] && (a + b)[1..] == a[1..] + b;
      RemoveAllConcat(a[1..], b, c);
      if a[0] != c {
        assert RemoveAll(a + b, c) == [a[0]] + (RemoveAll(a[1..], c) + RemoveAll(b, c));
      }
    }
  }

  /** index.js:286: the stored handle is never longer than the argument,
      has no JavaScript white space at either end, and is the trimmed
      argument itself when that holds no `@`; otherwise it is the argument
      with its first `@` spliced out, then trimmed. */
  function JsCleanHandle(arg: string): (h: string)
    ensures |h| <= |arg|
    ensures h == [] || (!JsSpace(h[0]) && !JsSpace(h[|h| - 1]))
    ensures '@' !in arg ==> h == Trim(arg, JsSpace)
    ensures '@' in arg ==>
              h == Trim(arg[..FirstIndex(arg, '@')] + arg[FirstIndex(arg, '@') + 1..], JsSpace)
  {
    if '@' in arg then RemoveFirstAt(arg, '@'); Trim(RemoveFirst(arg, '@'), JsSpace)
    else Trim(RemoveFirst(arg, '@'), JsSpace)
  }

  /** main.py:251: the stored handle holds no `@`, has no Python white
      space at either end, and keeps every other character that is not
      white space. Exactly: it is the slice of the `@`-free handle (in
      order, see `RemoveAllConcat`) that lies between its leading and
      trailing white space. */
  function PyCleanHandle(handle: string): (h: string)
    ensures '@' !in h
    ensures h == [] || (!PySpace(h[0]) && !PySpace(h[|h| - 1]))
    ensures forall x :: x in handle && x != '@' && !PySpace(x) ==> x in h
    ensures exists i :: TrimmedSlice(RemoveAll(handle, '@'), h, i, PySpace)
  {
    var stripped := RemoveAll(handle, '@');
    assert forall x :: x in handle && x != '@' ==> x in stripped by {
      forall x | x in handle && x != '@' ensures x in stripped {
        assert multiset(stripped)[x] == multiset(handle)[x] > 0;
      }
    }
    Trim(stripped, PySpace)
  }

  /** main.py stores a handle without any `@`; index.js keeps every `@` but
      the first, so `@@name` is stored as `@name`. */
  lemma CleanHandles(handle: string)
    ensures '@' !in PyCleanHandle(handle)
    ensures JsCleanHandle("@@" + handle) == Trim("@" + handle, JsSpace)
  {
    assert ("@@" + handle)[1..] == "@" + handle;
  }
}

/**
  The string operations the request handler relies on: Go's strings.TrimSpace,
  which removes leading and trailing white space as unicode.IsSpace defines it.
  Strings are sequences of Unicode scalar values (already decoded from UTF-8).
 */
module Text {

  /** The characters unicode.IsSpace reports as white space: the six ASCII
      spaces, NEL, NO-BREAK SPACE and the other White_Space code points. */
  predicate IsSpace(c: char) {
    || c == '\t' || c == '\n' || c == '\U{0B}' || c == '\U{0C}' || c == '\r' || c == ' '
    || c == '\U{85}' || c == '\U{A0}' || c == '\U{1680}'
    || ('\U{2000}' <= c <= '\U{200A}')
    || c == '\U{2028}' || c == '\U{2029}' || c == '\U{202F}' || c == '\U{205F}' || c == '\U{3000}'
  }

  /** A string made only of white space (the empty string included). */
  predicate IsBlank(s: string) {
    forall i | 0 <= i < |s| :: IsSpace(s[i])
  }

  /** Drops the white space at the front: what is left is a suffix of `s`
      that does not start with a space, and everything dropped was space. */
  function TrimLeft(s: string): (r: string)
    ensures |r| <= |s| && r == s[|s| - |r|..]
    ensures r != [] ==> !IsSpace(r[0])
    ensures forall i | 0 <= i < |s| - |r| :: IsSpace(s[i])
  {
    if s != [] && IsSpace(s[0]) then TrimLeft(s[1..]) else s
  }

  /** Drops the white space at the back: what is left is a prefix of `s`
      that does not end with a space, and everything dropped was space. */
  function TrimRight(s: string): (r: string)
    ensures |r| <= |s| && r == s[..|r|]
    ensures r != [] ==> !IsSpace(r[|r| - 1])
    ensures forall i | |r| <= i < |s| :: IsSpace(s[i])
  {
    if s != [] && IsSpace(s[|s| - 1]) then TrimRight(s[..|s| - 1]) else s
  }

  /** strings.TrimSpace: the result is empty exactly when `s` is blank, and
      otherwise it is the part of `s` between its first and last non-space. */
  function TrimSpace(s: string): (r: string)
    ensures r != [] ==> !IsSpace(r[0]) && !IsSpace(r[|r| - 1])
    ensures PaddedAt(s, |s| - |TrimLeft(s)|, r)
    ensures r == [] <==> IsBlank(s)
  {
    var l := TrimLeft(s);
    var r := TrimRight(l);
    LeftRunBlank(s);
    RightRunBlank(l);
    Middle(s, l, r);
    PaddedBlank(s, |s| - |l|, r);
    r
  }

  /** `s` is `r` placed at position `i` with white space before and after it. */
  predicate PaddedAt(s: string, i: int, r: string) {
    0 <= i && i + |r| <= |s| && r == s[i..i + |r|] && IsBlank(s[..i]) && IsBlank(s[i + |r|..])
  }

  /** A blank run, then a string whose tail past `r` is blank: `r` sits where
      the first blank run ends. */
  lemma Middle(s: string, l: string, r: string)
    requires |l| <= |s| && l == s[|s| - |l|..] && IsBlank(s[..|s| - |l|])
    requires |r| <= |l| && r == l[..|r|] && IsBlank(l[|r|..])
    ensures PaddedAt(s, |s| - |l|, r)
  {
    var i := |s| - |l|;
    assert s[i..i + |r|] == l[..|r|];
    assert s[i + |r|..] == l[|r|..];
  }

  /** A padded string is blank exactly when the piece inside is empty, given
      that the piece does not start with a space. */
  lemma PaddedBlank(s: string, i: int, r: string)
    requires PaddedAt(s, i, r) && (r != [] ==> !IsSpace(r[0]))
    ensures r == [] <==> IsBlank(s)
  {
    if r == [] {
      forall j | 0 <= j < |s| ensures IsSpace(s[j]) {
        if j < i { assert s[..i][j] == s[j]; } else { assert s[i..][j - i] == s[j]; }
      }
    } else {
      assert s[i] == r[0];
    }
  }

  lemma LeftRunBlank(s: string)
    ensures IsBlank(s[..|s| - |TrimLeft(s)|])
  {
    var i := |s| - |TrimLeft(s)|;
    forall j | 0 <= j < i ensures IsSpace(s[..i][j]) {
      assert s[..i][j] == s[j];
    }
  }

  lemma RightRunBlank(l: string)
    ensures IsBlank(l[|TrimRight(l)|..])
  {
    var k := |TrimRight(l)|;
    forall j | 0 <= j < |l| - k ensures IsSpace(l[k..][j]) {
      assert l[k..][j] == l[k + j];
    }
  }

  /** Trimming is idempotent: the trimmed string has nothing left to trim. */
  lemma TrimSpaceIdempotent(s: string)
    ensures TrimSpace(TrimSpace(s)) == TrimSpace(s)
  {
    var t := TrimSpace(s);
    if t != [] {
      assert TrimLeft(t) == t;
      assert TrimRight(t) == t;
    }
  }

  /** Only the white space around `s` is removed: padding a string with blanks
      on either side does not change what TrimSpace returns. */
  lemma {:induction false} TrimSpaceIgnoresPadding(front: string, s: string, back: string)
    requires IsBlank(front) && IsBlank(back)
    ensures TrimSpace(front + s + back) == TrimSpace(s)
  {
    TrimLeftPadding(front, s + back);
    assert front + s + back == front + (s + back);
    var l := TrimLeft(s + back);
    if TrimLeft(s) == [] {
      assert IsBlank(s + back) by {
        forall i | 0 <= i < |s + back| ensures IsSpace((s + back)[i]) {
          if i >= |s| { assert (s + back)[i] == back[i - |s|]; }
        }
      }
      assert TrimSpace(s + back) == [];
    } else {
      TrimLeftAppend(s, back);
      TrimRightPadding(TrimLeft(s), back);
    }
  }

  lemma {:induction false} TrimLeftPadding(front: string, s: string)
    requires IsBlank(front)
    ensures TrimLeft(front + s) == TrimLeft(s)
  {
    if front == [] {
      assert front + s == s;
    } else {
      assert (front + s)[0] == front[0];
      assert (front + s)[1..] == front[1..] + s;
      TrimLeftPadding(front[1..], s);
    }
  }

  lemma {:induction false} TrimLeftAppend(s: string, back: string)
    requires TrimLeft(s) != []
    ensures TrimLeft(s + back) == TrimLeft(s) + back
  {
    assert (s + back)[0] == s[0];
    if IsSpace(s[0]) {
      assert TrimLeft(s) == TrimLeft(s[1..]);
      assert (s + back)[1..] == s[1..] + back;
      TrimLeftAppend(s[1..], back);
    }
  }

  lemma {:induction false} TrimRightPadding(s: string, back: string)
    requires IsBlank(back)
    ensures TrimRight(s + back) == TrimRight(s)
  {
    if back != [] {
      var b' := back[..|back| - 1];
      assert (s + back)[..|s + back| - 1] == s + b';
      TrimRightPadding(s, b');
    } else {
      assert s + back == s;
    }
  }
}

/** String primitives the chat engine relies on: `toLowerCase`, `trim` and
    `includes`, as JavaScript defines them (lower-casing restricted to ASCII). */
module Text {

  /** An upper-case ASCII letter. */
  predicate IsUpper(c: char)
  {
    'A' <= c <= 'Z'
  }

  /** Lower-cases one character: ASCII A-Z become a-z, everything else is kept. */
  function ToLowerChar(c: char): char
  {
    if IsUpper(c) then (c as int + 32) as char else c
  }

  /** A string with no upper-case ASCII letter in it. */
  predicate IsLower(s: string)
  {
    forall i :: 0 <= i < |s| ==> !IsUpper(s[i])
  }

  /** `s.toLowerCase()`: maps every character, keeps the length, leaves no
      upper-case letter and fixes every character that is not upper case. */
  function ToLower(s: string): (r: string)
    ensures |r| == |s|
    ensures forall i :: 0 <= i < |s| ==> r[i] == ToLowerChar(s[i])
    ensures IsLower(r)
  {
    if s == [] then [] else [ToLowerChar(s[0])] + ToLower(s[1..])
  }

  /** Lower-casing changes nothing in a string that is already lower case. */
  lemma LowerIsFixed(s: string)
    requires IsLower(s)
    ensures ToLower(s) == s
  {
    var r := ToLower(s);
    forall i | 0 <= i < |s| ensures r[i] == s[i] {
      assert !IsUpper(s[i]);
    }
  }

  /** Lower-casing is idempotent. */
  lemma ToLowerIdempotent(s: string)
    ensures ToLower(ToLower(s)) == ToLower(s)
  {
    LowerIsFixed(ToLower(s));
  }

  /** `key` occurs in `s` starting at index `i`. */
  ghost predicate OccursAt(s: string, key: string, i: int)
  {
    0 <= i && i + |key| <= |s| && s[i..i + |key|] == key
  }

  /** `key` is a (contiguous) substring of `s`. The empty key is in every string. */
  ghost predicate Contains(s: string, key: string)
  {
    exists i :: OccursAt(s, key, i)
  }

  /** An occurrence is either at the front or in the tail. */
  lemma ContainsFrontOrTail(s: string, key: string)
    requires |s| > 0
    ensures Contains(s, key) <==> OccursAt(s, key, 0) || Contains(s[1..], key)
  {
    if Contains(s, key) {
      var i :| OccursAt(s, key, i);
      if i > 0 {
        assert s[1..][i - 1..i - 1 + |key|] == s[i..i + |key|];
        assert OccursAt(s[1..], key, i - 1);
      }
    }
    if Contains(s[1..], key) {
      var j :| OccursAt(s[1..], key, j);
      assert s[j + 1..j + 1 + |key|] == s[1..][j..j + |key|];
      assert OccursAt(s, key, j + 1);
    }
  }

  /** `s.includes(key)`: a left-to-right scan for an occurrence of `key`. */
  function Includes(s: string, key: string): (b: bool)
    ensures b <==> Contains(s, key)
    decreases |s|
  {
    if |key| > |s| then false
    else if s[..|key|] == key then
      assert OccursAt(s, key, 0);
      true
    else
      ContainsFrontOrTail(s, key);
      Includes(s[1..], key)
  }

  /** A key with a character that does not occur in `s` is not in `s`. */
  lemma AbsentChar(s: string, key: string, p: nat)
    requires p < |key|
    requires key[p] !in s
    ensures !Contains(s, key)
  {
    forall i | 0 <= i && i + |key| <= |s| ensures !OccursAt(s, key, i) {
      assert s[i..i + |key|][p] == s[i + p];
    }
  }

  /** The lower-case letter `c` occurs in `s` in neither case. */
  predicate LetterAbsent(s: string, c: char)
  {
    'a' <= c <= 'z' && c !in s && ((c as int - 32) as char) !in s
  }

  /** Then `c` does not occur in the lower-cased form of `s`. */
  lemma LowerAbsent(s: string, c: char)
    requires LetterAbsent(s, c)
    ensures c !in ToLower(s)
  {
    forall i | 0 <= i < |s| ensures ToLower(s)[i] != c {
      assert s[i] != c && s[i] != (c as int - 32) as char;
    }
  }

  /** A key with a letter that occurs in `s` in neither case is not in the
      lower-cased form of `s`. */
  lemma AbsentLowerChar(s: string, key: string, p: nat)
    requires p < |key| && LetterAbsent(s, key[p])
    ensures !Contains(ToLower(s), key)
  {
    LowerAbsent(s, key[p]);
    AbsentChar(ToLower(s), key, p);
  }

  /** A lower-case key that occurs in `s` occurs in its lower-cased form at
      the same place. */
  lemma ContainsLower(s: string, key: string, i: nat)
    requires IsLower(key)
    requires OccursAt(s, key, i)
    ensures Contains(ToLower(s), key)
  {
    var r := ToLower(s);
    forall k | 0 <= k < |key| ensures r[i..i + |key|][k] == key[k] {
      assert s[i..i + |key|][k] == s[i + k];
    }
    assert OccursAt(r, key, i);
  }

  /** A key longer than `s` is not in `s`. */
  lemma TooLongAbsent(s: string, key: string)
    requires |key| > |s|
    ensures !Contains(s, key)
  {
  }

  /** ECMAScript WhiteSpace and LineTerminator code points, the characters
      `String.prototype.trim` removes (section 22.1.3.32 of ECMA-262). */
  predicate IsWhiteSpace(c: char)
  {
    c == '\t' || c == '\n' || c == '\U{000B}' || c == '\U{000C}' || c == '\r' ||
    c == ' ' || c == '\U{00A0}' || c == '\U{1680}' || '\U{2000}' <= c <= '\U{200A}' ||
    c == '\U{2028}' || c == '\U{2029}' || c == '\U{202F}' || c == '\U{205F}' ||
    c == '\U{3000}' || c == '\U{FEFF}'
  }

  /** Drops the leading white space. */
  function TrimStart(s: string): string
  {
    if s != [] && IsWhiteSpace(s[0]) then TrimStart(s[1..]) else s
  }

  /** Drops the trailing white space. */
  function TrimEnd(s: string): string
  {
    if s != [] && IsWhiteSpace(s[|s| - 1]) then TrimEnd(s[..|s| - 1]) else s
  }

  /** TrimStart keeps a suffix of `s`, what it drops is all white space, and
      what it keeps does not start with white space. */
  lemma {:induction false} TrimStartSpec(s: string)
    ensures |TrimStart(s)| <= |s| && TrimStart(s) == s[|s| - |TrimStart(s)|..]
    ensures forall i :: 0 <= i < |s| - |TrimStart(s)| ==> IsWhiteSpace(s[i])
    ensures TrimStart(s) != [] ==> !IsWhiteSpace(TrimStart(s)[0])
    decreases |s|
  {
    if s != [] && IsWhiteSpace(s[0]) {
      TrimStartSpec(s[1..]);
      assert s[1..][|s| - 1 - |TrimStart(s)|..] == s[|s| - |TrimStart(s)|..];
      forall i | 0 <= i < |s| - |TrimStart(s)| ensures IsWhiteSpace(s[i]) {
        if i > 0 {
          assert s[1..][i - 1] == s[i];
        }
      }
    }
  }

  /** TrimEnd keeps a prefix of `s`, what it drops is all white space, and
      what it keeps does not end with white space. */
  lemma {:induction false} TrimEndSpec(s: string)
    ensures |TrimEnd(s)| <= |s| && TrimEnd(s) == s[..|TrimEnd(s)|]
    ensures forall i :: |TrimEnd(s)| <= i < |s| ==> IsWhiteSpace(s[i])
    ensures TrimEnd(s) != [] ==> !IsWhiteSpace(TrimEnd(s)[|TrimEnd(s)| - 1])
    decreases |s|
  {
    if s != [] && IsWhiteSpace(s[|s| - 1]) {
      var init := s[..|s| - 1];
      TrimEndSpec(init);
      assert init[..|TrimEnd(s)|] == s[..|TrimEnd(s)|];
      forall i | |TrimEnd(s)| <= i < |s| ensures IsWhiteSpace(s[i]) {
        if i < |s| - 1 {
          assert init[i] == s[i];
        }
      }
    }
  }

  /** `s.trim()`. */
  function Trim(s: string): string
  {
    TrimEnd(TrimStart(s))
  }

  /** `r` is `s` with `a` white-space characters cut from the front and the
      rest of what is not in `r` cut from the back. */
  ghost predicate TrimmedFrom(s: string, r: string, a: nat)
  {
    a + |r| <= |s| && s[a..a + |r|] == r &&
    (forall i :: 0 <= i < a ==> IsWhiteSpace(s[i])) &&
    (forall i :: a + |r| <= i < |s| ==> IsWhiteSpace(s[i]))
  }

  /** Trim keeps a contiguous part of `s`, cuts only white space, and leaves
      no white space at either end of what it keeps. */
  lemma TrimSpec(s: string)
    ensures exists a: nat :: TrimmedFrom(s, Trim(s), a)
    ensures Trim(s) != [] ==> !IsWhiteSpace(Trim(s)[0]) && !IsWhiteSpace(Trim(s)[|Trim(s)| - 1])
  {
    var t := TrimStart(s);
    var r := Trim(s);
    TrimStartSpec(s);
    TrimEndSpec(t);
    var a := |s| - |t|;
    assert s[a..a + |r|] == t[..|r|];
    forall i | a + |r| <= i < |s| ensures IsWhiteSpace(s[i]) {
      assert t[i - a] == s[i];
    }
    assert TrimmedFrom(s, r, a);
    assert r != [] ==> r[0] == t[0];
  }

  /** `!s.trim()`: the trimmed string is the empty string, which is falsy. */
  predicate IsBlank(s: string)
  {
    Trim(s) == []
  }

  /** A string is blank exactly when every character of it is white space. */
  lemma BlankIffAllWhiteSpace(s: string)
    ensures IsBlank(s) <==> forall i :: 0 <= i < |s| ==> IsWhiteSpace(s[i])
  {
    TrimStartSpec(s);
    TrimEndSpec(TrimStart(s));
  }
}

/** String operations the handlers rely on: Python's `<=` on `str`
    (used to compare `YYYY-MM-DD` dates), `str.lower()` and `str.strip()`. */
module Text {

  /** Python's `a <= b` on strings: lexicographic by code point, a proper
      prefix sorting first. */
  predicate LexLe(a: string, b: string)
  {
    if a == [] then true
    else if b == [] then false
    else if a[0] != b[0] then a[0] < b[0]
    else LexLe(a[1..], b[1..])
  }

  lemma {:induction false} LexLeReflexive(a: string)
    ensures LexLe(a, a)
  {
    if a != [] { LexLeReflexive(a[1..]); }
  }

  lemma {:induction false} LexLeTotal(a: string, b: string)
    ensures LexLe(a, b) || LexLe(b, a)
  {
    if a != [] && b != [] && a[0] == b[0] { LexLeTotal(a[1..], b[1..]); }
  }

  lemma {:induction false} LexLeAntisymmetric(a: string, b: string)
    requires LexLe(a, b) && LexLe(b, a)
    ensures a == b
  {
    if a != [] && b != [] {
      LexLeAntisymmetric(a[1..], b[1..]);
      assert a == [a[0]] + a[1..] && b == [b[0]] + b[1..];
    }
  }

  lemma {:induction false} LexLeTransitive(a: string, b: string, c: string)
    requires LexLe(a, b) && LexLe(b, c)
    ensures LexLe(a, c)
  {
    if a != [] && b != [] && c != [] && a[0] == b[0] == c[0] {
      LexLeTransitive(a[1..], b[1..], c[1..]);
    }
  }

  /** A string sorts no later than any extension of it. */
  lemma {:induction false} LexLePrefix(a: string, x: string)
    ensures LexLe(a, a + x)
  {
    if a != [] {
      assert (a + x)[1..] == a[1..] + x;
      LexLePrefix(a[1..], x);
    }
  }

  /** `str.lower()` on one character; only the ASCII letters are mapped. */
  function LowerChar(c: char): char
  {
    if 'A' <= c <= 'Z' then (c as int + 32) as char else c
  }

  /** `str.lower()` restricted to ASCII: no upper-case letter is left, and
      only upper-case letters change, each to its lower-case letter. */
  function Lower(s: string): (r: string)
    ensures |r| == |s|
    ensures forall i :: 0 <= i < |r| ==> !('A' <= r[i] <= 'Z')
    ensures forall i :: 0 <= i < |s| && r[i] != s[i] ==> 'A' <= s[i] <= 'Z'
    ensures forall i :: 0 <= i < |s| && 'A' <= s[i] <= 'Z' ==> r[i] as int - 'a' as int == s[i] as int - 'A' as int
  {
    seq(|s|, i requires 0 <= i < |s| => LowerChar(s[i]))
  }

  /** Lower-casing twice is lower-casing once. */
  lemma LowerIdempotent(s: string)
    ensures Lower(Lower(s)) == Lower(s)
  {
    var low := Lower(s);
    forall i | 0 <= i < |low| ensures Lower(low)[i] == low[i] {
      assert low[i] == LowerChar(s[i]);
    }
  }

  /** Lower-casing leaves every character that is not an upper-case letter
      where it was, so it neither adds nor removes a dot. */
  lemma LowerKeepsDots(s: string)
    ensures '.' in Lower(s) <==> '.' in s
  {
    var low := Lower(s);
    forall i | 0 <= i < |s| ensures low[i] == '.' <==> s[i] == '.' {
      assert low[i] == LowerChar(s[i]);
    }
    if '.' in s {
      var i :| 0 <= i < |s| && s[i] == '.';
      assert low[i] == '.';
    }
  }

  /** The characters `str.strip()` removes (its ASCII members). */
  predicate IsSpace(c: char)
  {
    c == ' ' || '\t' <= c <= '\r' || (28 as char) <= c <= (31 as char)
  }

  /** The number of whitespace characters `s` starts with. */
  function LeadingSpaces(s: string): (k: nat)
    ensures k <= |s|
    ensures forall i :: 0 <= i < k ==> IsSpace(s[i])
    ensures k < |s| ==> !IsSpace(s[k])
  {
    if s != [] && IsSpace(s[0]) then 1 + LeadingSpaces(s[1..]) else 0
  }

  /** The number of whitespace characters `s` ends with. */
  function TrailingSpaces(s: string): (k: nat)
    ensures k <= |s|
    ensures forall i :: |s| - k <= i < |s| ==> IsSpace(s[i])
    ensures k < |s| ==> !IsSpace(s[|s| - k - 1])
  {
    if s != [] && IsSpace(s[|s| - 1]) then 1 + TrailingSpaces(s[..|s| - 1]) else 0
  }

  /** `str.strip()`: the part of `s` left once the whitespace around it is
      cut off; it neither starts nor ends with whitespace. */
  function Strip(s: string): (r: string)
    ensures exists lo, hi :: (0 <= lo <= hi <= |s| && r == s[lo..hi]
      && (forall i :: 0 <= i < lo ==> IsSpace(s[i]))
      && (forall i :: hi <= i < |s| ==> IsSpace(s[i])))
    ensures r != [] ==> !IsSpace(r[0]) && !IsSpace(r[|r| - 1])
  {
    var lo := LeadingSpaces(s);
    if lo == |s| then
      assert s[lo..lo] == [];
      []
    else
      var hi := |s| - TrailingSpaces(s);
      s[lo..hi]
  }

  /** A string that is all whitespace strips to the empty string, as a form
      field holding only blanks does. */
  lemma {:induction false} StripAllSpace(s: string)
    requires forall i :: 0 <= i < |s| ==> IsSpace(s[i])
    ensures Strip(s) == []
  {
  }
}

/** The Python string operations the backend relies on: `str.lower()` (on ASCII
    letters), the substring test `sub in s`, `str.strip()` and `str.rfind()`. */
module PyText {

  predicate IsAsciiUpper(c: char) { 'A' <= c <= 'Z' }

  predicate IsAsciiLetter(c: char) { 'A' <= c <= 'Z' || 'a' <= c <= 'z' }

  /** `c.lower()` for one character; letters outside ASCII are kept as they are. */
  function LowerChar(c: char): (r: char)
    ensures !IsAsciiUpper(r)
    ensures IsAsciiLetter(r) <==> IsAsciiLetter(c)
    ensures !IsAsciiLetter(c) ==> r == c
    ensures IsAsciiUpper(c) ==> r != c && r as int - c as int == 'a' as int - 'A' as int
  {
    if IsAsciiUpper(c) then (c as int - 'A' as int + 'a' as int) as char else c
  }

  /** `s.lower()`: the same length, each character case-mapped in place. */
  function Lower(s: string): (r: string)
    ensures |r| == |s|
    ensures forall i :: 0 <= i < |s| ==> r[i] == LowerChar(s[i])
  {
    seq(|s|, i requires 0 <= i < |s| => LowerChar(s[i]))
  }

  /** Lowering twice is lowering once. */
  lemma LowerIdempotent(s: string)
    ensures Lower(Lower(s)) == Lower(s)
  {
  }

  /** Lowering commutes with taking a tail. */
  lemma LowerFrom(s: string, i: nat)
    requires i <= |s|
    ensures Lower(s)[i..] == Lower(s[i..])
  {
  }

  /** Lowering commutes with taking a prefix. */
  lemma LowerUpTo(s: string, i: nat)
    requires i <= |s|
    ensures Lower(s)[..i] == Lower(s[..i])
  {
  }

  /** Python's `sub in s`: `sub` occurs somewhere in `s` (the empty string occurs everywhere). */
  predicate Contains(s: string, sub: string)
    ensures Contains(s, sub) ==> |sub| <= |s|
    decreases |s|
  {
    sub <= s || (s != [] && Contains(s[1..], sub))
  }

  /** `Contains` agrees with the definition by position: `sub` starts at some index of `s`. */
  lemma {:induction false} ContainsIffOccurs(s: string, sub: string)
    ensures Contains(s, sub) <==> exists i :: 0 <= i <= |s| && sub <= s[i..]
    decreases |s|
  {
    if sub <= s {
      assert s[0..] == s;
    } else if s == [] {
      forall i | 0 <= i <= |s| ensures !(sub <= s[i..]) {
        assert s[i..] == s;
      }
    } else {
      ContainsIffOccurs(s[1..], sub);
      if Contains(s[1..], sub) {
        var j :| 0 <= j <= |s[1..]| && sub <= s[1..][j..];
        assert s[1..][j..] == s[j + 1..];
      } else {
        forall i | 0 <= i <= |s| ensures !(sub <= s[i..]) {
          if i > 0 {
            assert s[1..][i - 1..] == s[i..];
          } else {
            assert s[i..] == s;
          }
        }
      }
    }
  }

  /** A string occurs inside any text that embeds it. */
  lemma ContainsInfix(prefix: string, sub: string, suffix: string)
    ensures Contains(prefix + sub + suffix, sub)
  {
    var s := prefix + sub + suffix;
    assert s[|prefix|..] == sub + suffix;
    ContainsIffOccurs(s, sub);
  }

  /** For a pattern without ASCII letters, matching against the lowered text is
      the same as matching against the text itself. */
  lemma {:induction false} ContainsLowerCaseless(s: string, sub: string)
    requires forall j :: 0 <= j < |sub| ==> !IsAsciiLetter(sub[j])
    ensures Contains(Lower(s), sub) <==> Contains(s, sub)
    decreases |s|
  {
    PrefixLowerCaseless(s, sub);
    if s != [] {
      assert Lower(s)[1..] == Lower(s[1..]);
      ContainsLowerCaseless(s[1..], sub);
    }
  }

  lemma PrefixLowerCaseless(s: string, sub: string)
    requires forall j :: 0 <= j < |sub| ==> !IsAsciiLetter(sub[j])
    ensures sub <= Lower(s) <==> sub <= s
  {
    if |sub| <= |s| {
      forall j | 0 <= j < |sub| ensures Lower(s)[j] == sub[j] <==> s[j] == sub[j] {
        if IsAsciiLetter(s[j]) {
          assert IsAsciiLetter(LowerChar(s[j]));
        }
      }
      assert sub == Lower(s)[..|sub|] <==> sub == s[..|sub|];
    }
  }

  /** `str.isspace()` for one character: the characters Python's `str.strip()` removes. */
  predicate IsSpace(c: char)
    ensures c == ' ' || c == '\t' || c == '\n' || c == '\r' ==> IsSpace(c)
    ensures IsSpace(c) ==> !IsAsciiLetter(c) && c != '.' && c != '/'
  {
    || '\t' <= c <= '\r'
    || '\U{1c}' <= c <= ' '
    || c == '\U{85}' || c == '\U{a0}' || c == '\U{1680}'
    || '\U{2000}' <= c <= '\U{200a}'
    || c == '\U{2028}' || c == '\U{2029}' || c == '\U{202f}' || c == '\U{205f}' || c == '\U{3000}'
  }

  /** Where the run of white space starting at `i` ends: `s.lstrip()` is
      `s[LeadingSpaceEnd(s, 0)..]`. */
  function LeadingSpaceEnd(s: string, i: nat): (n: nat)
    requires i <= |s|
    ensures i <= n <= |s|
    ensures forall k :: i <= k < n ==> IsSpace(s[k])
    ensures n < |s| ==> !IsSpace(s[n])
    decreases |s| - i
  {
    if i < |s| && IsSpace(s[i]) then LeadingSpaceEnd(s, i + 1) else i
  }

  /** Where the run of white space ending at `j` starts: `s.rstrip()` is
      `s[..TrailingSpaceStart(s, |s|)]`. */
  function TrailingSpaceStart(s: string, j: nat): (m: nat)
    requires j <= |s|
    ensures m <= j
    ensures forall k :: m <= k < j ==> IsSpace(s[k])
    ensures m > 0 ==> !IsSpace(s[m - 1])
    decreases j
  {
    if j > 0 && IsSpace(s[j - 1]) then TrailingSpaceStart(s, j - 1) else j
  }

  /** `r` is the piece of `s` that starts at `i`, with only white space around it. */
  predicate TrimmedAt(s: string, r: string, i: int)
  {
    && 0 <= i <= |s| - |r|
    && r == s[i..i + |r|]
    && (forall k :: 0 <= k < i ==> IsSpace(s[k]))
    && (forall k :: i + |r| <= k < |s| ==> IsSpace(s[k]))
  }

  /** `s.strip()`: a contiguous piece of `s` with only white space cut off either
      side, and no white space left at either end. */
  function Strip(s: string): (r: string)
    ensures exists i :: TrimmedAt(s, r, i)
    ensures r == [] || (!IsSpace(r[0]) && !IsSpace(r[|r| - 1]))
  {
    var n := LeadingSpaceEnd(s, 0);
    var e := TrailingSpaceStart(s, |s|);
    if e <= n then
      assert TrimmedAt(s, "", n);
      ""
    else
      assert TrimmedAt(s, s[n..e], n);
      s[n..e]
  }

  /** A text strips to nothing exactly when it is all white space. */
  lemma StripEmptyIffBlank(s: string)
    ensures Strip(s) == [] <==> forall k :: 0 <= k < |s| ==> IsSpace(s[k])
  {
    var r := Strip(s);
    if r != [] {
      var i :| TrimmedAt(s, r, i);
      assert s[i] == r[0];
    }
  }

  /** Stripping twice is stripping once. */
  lemma StripIdempotent(s: string)
    ensures Strip(Strip(s)) == Strip(s)
  {
    var r := Strip(s);
    if r != [] {
      assert LeadingSpaceEnd(r, 0) == 0;
      assert TrailingSpaceStart(r, |r|) == |r|;
      assert r[0..|r|] == r;
    }
  }

  /** `s.rfind(c)`: the last index holding `c`, or -1 when there is none. */
  function LastIndexOf(s: string, c: char): (r: int)
    ensures -1 <= r < |s|
    ensures r >= 0 ==> s[r] == c
    ensures forall j :: r < j < |s| ==> s[j] != c
    decreases |s|
  {
    if s == [] then -1
    else if s[|s| - 1] == c then |s| - 1
    else LastIndexOf(s[..|s| - 1], c)
  }

  /** The text after the last occurrence of a character does not hold it. */
  lemma LastIndexOfAfter(s: string, c: char)
    ensures c !in s[LastIndexOf(s, c) + 1..]
  {
    var i := LastIndexOf(s, c);
    var after := s[i + 1..];
    forall k | 0 <= k < |after| ensures after[k] != c {
      assert after[k] == s[i + 1 + k];
    }
  }

  /** `rfind` finds the one occurrence after which the character no longer appears. */
  lemma {:induction false} LastIndexOfLast(prefix: string, c: char, rest: string)
    requires c !in rest
    ensures LastIndexOf(prefix + [c] + rest, c) == |prefix|
    decreases |rest|
  {
    var s := prefix + [c] + rest;
    if rest != [] {
      var shorter := rest[..|rest| - 1];
      assert s[..|s| - 1] == prefix + [c] + shorter;
      assert s[|s| - 1] == rest[|rest| - 1];
      LastIndexOfLast(prefix, c, shorter);
    } else {
      assert s[|s| - 1] == c;
    }
  }

  /** `rfind` of a character the text does not hold is -1. */
  lemma {:induction false} LastIndexOfAbsent(s: string, c: char)
    requires c !in s
    ensures LastIndexOf(s, c) == -1
    decreases |s|
  {
    if s != [] {
      LastIndexOfAbsent(s[..|s| - 1], c);
    }
  }

  /** Lowering does not move any character that is not a letter. */
  lemma {:induction false} LastIndexOfLower(s: string, c: char)
    requires !IsAsciiLetter(c)
    ensures LastIndexOf(Lower(s), c) == LastIndexOf(s, c)
    decreases |s|
  {
    if s != [] {
      assert Lower(s)[..|s| - 1] == Lower(s[..|s| - 1]);
      LastIndexOfLower(s[..|s| - 1], c);
      assert LowerChar(s[|s| - 1]) == c <==> s[|s| - 1] == c by {
        if IsAsciiLetter(s[|s| - 1]) {
          assert IsAsciiLetter(LowerChar(s[|s| - 1]));
        }
      }
    }
  }
}

/** The JavaScript string operations the core relies on, restricted to what it
    uses: `startsWith`, `endsWith`, `includes`, `toLowerCase` on ASCII letters,
    and the set of line terminators that a regular expression's `.` refuses. */
module Text {

  predicate StartsWith(s: string, prefix: string) {
    |prefix| <= |s| && s[..|prefix|] == prefix
  }

  /** A string that starts with `p` starts with every prefix of `p`. */
  lemma StartsWithPrefix(s: string, p: string, q: string)
    requires |q| <= |p| && p[..|q|] == q
    ensures StartsWith(s, p) ==> StartsWith(s, q)
  {
    if StartsWith(s, p) {
      assert s[..|q|] == s[..|p|][..|q|];
    }
  }

  predicate EndsWith(s: string, suffix: string) {
    |suffix| <= |s| && s[|s| - |suffix|..] == suffix
  }

  /** `sub` occurs in `s` starting at index `i`. */
  predicate OccursAt(s: string, sub: string, i: nat) {
    i + |sub| <= |s| && s[i..i + |sub|] == sub
  }

  /** `s.includes(sub)`: scans the start positions of `s` from the left. */
  function Includes(s: string, sub: string): (r: bool)
    ensures r <==> exists i: nat :: i <= |s| && OccursAt(s, sub, i)
    decreases |s|
  {
    if StartsWith(s, sub) then
      assert OccursAt(s, sub, 0);
      true
    else if |s| == 0 then
      false
    else
      var r := Includes(s[1..], sub);
      assert forall i: nat :: i < |s| ==> (OccursAt(s[1..], sub, i) <==> OccursAt(s, sub, i + 1)) by {
        forall i: nat | i < |s|
          ensures OccursAt(s[1..], sub, i) <==> OccursAt(s, sub, i + 1)
        {
          if i + |sub| <= |s[1..]| {
            assert s[1..][i..i + |sub|] == s[i + 1..i + 1 + |sub|];
          }
        }
      }
      assert r ==> exists i: nat :: i <= |s| && OccursAt(s, sub, i) by {
        if r {
          var i: nat :| i <= |s[1..]| && OccursAt(s[1..], sub, i);
          assert OccursAt(s, sub, i + 1);
        }
      }
      assert (exists i: nat :: i <= |s| && OccursAt(s, sub, i)) ==> r by {
        if exists i: nat :: i <= |s| && OccursAt(s, sub, i) {
          var i: nat :| i <= |s| && OccursAt(s, sub, i);
          assert i != 0;
          assert OccursAt(s[1..], sub, i - 1);
        }
      }
      r
  }

  /** An occurrence that ends inside a prefix `t` of `s` is an occurrence in `t`. */
  lemma OccursInPrefix(s: string, t: string, sub: string, i: nat)
    requires |t| <= |s| && s[..|t|] == t && i + |sub| <= |t|
    ensures OccursAt(s, sub, i) ==> OccursAt(t, sub, i)
  {
    assert s[..|t|][i..i + |sub|] == s[i..i + |sub|];
  }

  /** An occurrence that starts inside a suffix `t` of `s` is an occurrence in `t`. */
  lemma OccursInSuffix(s: string, t: string, sub: string, i: nat)
    requires |t| <= |s| && s[|s| - |t|..] == t && |s| - |t| <= i
    ensures OccursAt(s, sub, i) ==> OccursAt(t, sub, i - (|s| - |t|))
  {
    var k := |s| - |t|;
    if i + |sub| <= |s| {
      assert t == s[k..];
      assert s[k..][i - k..i - k + |sub|] == s[i..i + |sub|];
    }
  }

  function LowerChar(c: char): (d: char)
    ensures 'A' <= c <= 'Z' ==> 'a' <= d <= 'z'
    ensures !('A' <= c <= 'Z') ==> d == c
  {
    if 'A' <= c <= 'Z' then (c - 'A' + 'a') as char else c
  }

  function UpperChar(c: char): (d: char)
    ensures 'a' <= c <= 'z' ==> 'A' <= d <= 'Z'
    ensures !('a' <= c <= 'z') ==> d == c
  {
    if 'a' <= c <= 'z' then (c - 'a' + 'A') as char else c
  }

  /** `s.toLowerCase()` on the ASCII letters; every other character is kept. */
  function LowerAscii(s: string): (r: string)
    ensures |r| == |s|
    ensures forall i :: 0 <= i < |s| ==> r[i] == LowerChar(s[i])
  {
    seq(|s|, i requires 0 <= i < |s| => LowerChar(s[i]))
  }

  function UpperAscii(s: string): (r: string)
    ensures |r| == |s|
    ensures forall i :: 0 <= i < |s| ==> r[i] == UpperChar(s[i])
  {
    seq(|s|, i requires 0 <= i < |s| => UpperChar(s[i]))
  }

  /** Lowering forgets exactly the case of ASCII letters: upper-casing first
      changes nothing. */
  lemma LowerOfUpper(s: string)
    ensures LowerAscii(UpperAscii(s)) == LowerAscii(s)
  {
    forall i | 0 <= i < |s|
      ensures LowerAscii(UpperAscii(s))[i] == LowerAscii(s)[i]
    {
      var c := s[i];
      if 'a' <= c <= 'z' {
        assert UpperChar(c) as int == c as int - 32;
      }
    }
  }

  /** The characters JavaScript's regular-expression `.` does not match. */
  predicate IsLineTerminator(c: char) {
    c == '\n' || c == '\r' || c == '\U{2028}' || c == '\U{2029}'
  }

  predicate NoLineTerminator(s: string) {
    forall i :: 0 <= i < |s| ==> !IsLineTerminator(s[i])
  }
}

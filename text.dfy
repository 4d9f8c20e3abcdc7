/** Case-insensitive substring search as the search box uses it:
    `s.toLowerCase().includes(q.toLowerCase())`. */
module Text {
  import opened Common

  predicate IsUpper(c: char)
  {
    'A' <= c <= 'Z'
  }

  /** `toLowerCase` on one character, restricted to ASCII letters. */
  function LowerChar(c: char): (r: char)
    ensures !IsUpper(r)
    ensures !IsUpper(c) ==> r == c
    ensures IsUpper(c) ==> 'a' <= r <= 'z' && r as int - c as int == 'a' as int - 'A' as int
  {
    if IsUpper(c) then (c as int - 'A' as int + 'a' as int) as char else c
  }

  /** `toLowerCase` on a string: every character lower-cased, nothing added or dropped. */
  function Lower(s: String): (r: String)
    ensures |r| == |s|
    ensures forall i :: 0 <= i < |s| ==> r[i] == LowerChar(s[i])
  {
    if s == [] then [] else [LowerChar(s[0])] + Lower(s[1..])
  }

  /** Lower-casing a lower-cased string changes nothing. */
  lemma LowerIdempotent(s: String)
    ensures Lower(Lower(s)) == Lower(s)
  {
  }

  /** `s.includes(q)`: q is a prefix of s or of one of its suffixes. */
  function Includes(s: String, q: String): (r: bool)
    ensures q <= s ==> r
    ensures r ==> |q| <= |s|
    decreases |s|
  {
    q <= s || (s != [] && Includes(s[1..], q))
  }

  /** Reference definition: q occurs in s starting at index i. */
  ghost predicate OccursAt(s: String, q: String, i: int)
  {
    0 <= i && i + |q| <= |s| && s[i..i + |q|] == q
  }

  /** `Includes` is exactly "occurs at some index". */
  lemma {:induction false} IncludesIffOccurs(s: String, q: String)
    ensures Includes(s, q) <==> exists i :: OccursAt(s, q, i)
    decreases |s|
  {
    if q <= s {
      assert OccursAt(s, q, 0);
    } else if s != [] {
      IncludesIffOccurs(s[1..], q);
      if Includes(s[1..], q) {
        var i :| OccursAt(s[1..], q, i);
        assert s[1..][i..i + |q|] == s[i + 1..i + 1 + |q|];
        assert OccursAt(s, q, i + 1);
      }
      if exists i :: OccursAt(s, q, i) {
        var i :| OccursAt(s, q, i);
        assert s[1..][i - 1..i - 1 + |q|] == s[i..i + |q|];
        assert OccursAt(s[1..], q, i - 1);
      }
    }
  }

  /** The search box's test: q occurs in s when both are lower-cased. */
  predicate ContainsIgnoringCase(s: String, q: String)
    ensures q == [] ==> ContainsIgnoringCase(s, q)
    ensures ContainsIgnoringCase(s, q) ==> |q| <= |s|
  {
    Includes(Lower(s), Lower(q))
  }

  /** An occurrence with the same case is also found when case is ignored. */
  lemma ExactMatchFound(s: String, q: String)
    ensures Includes(s, q) ==> ContainsIgnoringCase(s, q)
  {
    IncludesIffOccurs(s, q);
    if !Includes(s, q) {
      return;
    }
    var i :| OccursAt(s, q, i);
    assert Lower(s)[i..i + |q|] == Lower(q);
    assert OccursAt(Lower(s), Lower(q), i);
    IncludesIffOccurs(Lower(s), Lower(q));
  }

  /** Only the letters of the query matter, not their case: lower-casing the query
      before the test gives the same answer. */
  lemma LowerQueryIrrelevant(s: String, q: String)
    ensures ContainsIgnoringCase(s, Lower(q)) == ContainsIgnoringCase(s, q)
  {
    LowerIdempotent(q);
  }
}

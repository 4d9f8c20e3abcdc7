/** The two array methods the note list is built on, `Array.prototype.filter`
    and `Array.prototype.find`, with what they promise stated once. */
module Lists {
  import opened Common

  /** `s.filter(keep)`: the elements that pass, in their original order. */
  function Filter<T>(s: seq<T>, keep: T -> bool): (r: seq<T>)
    ensures |r| <= |s|
    ensures forall k :: 0 <= k < |r| ==> r[k] in s && keep(r[k])
    ensures forall i :: 0 <= i < |s| && keep(s[i]) ==> s[i] in r
  {
    if s == [] then []
    else if keep(s[0]) then [s[0]] + Filter(s[1..], keep)
    else Filter(s[1..], keep)
  }

  /** r is s restricted to the strictly increasing positions idx. */
  ghost predicate SelectsAt<T>(r: seq<T>, s: seq<T>, idx: seq<nat>)
  {
    |idx| == |r| &&
    (forall k :: 0 <= k < |idx| ==> idx[k] < |s| && r[k] == s[idx[k]]) &&
    (forall k, l :: 0 <= k < l < |idx| ==> idx[k] < idx[l])
  }

  /** The positions of s whose element passes `keep`, ascending. */
  ghost function KeptPositions<T>(s: seq<T>, keep: T -> bool): (idx: seq<nat>)
  {
    if s == [] then []
    else (if keep(s[0]) then [0] else []) + Shift(KeptPositions(s[1..], keep))
  }

  ghost function Shift(idx: seq<nat>): (r: seq<nat>)
    ensures |r| == |idx| && forall k :: 0 <= k < |idx| ==> r[k] == idx[k] + 1
  {
    seq(|idx|, k requires 0 <= k < |idx| => idx[k] + 1)
  }

  /** The filter is exactly the order-preserving selection of the passing positions:
      it picks s at strictly increasing positions, and a position is picked iff its
      element passes. */
  lemma FilterSelects<T>(s: seq<T>, keep: T -> bool)
    ensures SelectsAt(Filter(s, keep), s, KeptPositions(s, keep))
    ensures forall i :: 0 <= i < |s| ==> (i in KeptPositions(s, keep) <==> keep(s[i]))
  {
    KeptPositionsPick(s, keep);
    KeptPositionsAscending(s, keep);
    KeptPositionsExact(s, keep);
  }

  lemma {:induction false} KeptPositionsPick<T>(s: seq<T>, keep: T -> bool)
    ensures var idx := KeptPositions(s, keep);
      |idx| == |Filter(s, keep)| &&
      forall k :: 0 <= k < |idx| ==> idx[k] < |s| && Filter(s, keep)[k] == s[idx[k]]
  {
    if s != [] {
      KeptPositionsPick(s[1..], keep);
      var rest := KeptPositions(s[1..], keep);
      var head := if keep(s[0]) then [0] else [];
      var idx := head + Shift(rest);
      forall k | 0 <= k < |idx|
        ensures idx[k] < |s| && Filter(s, keep)[k] == s[idx[k]]
      {
        if k >= |head| {
          assert idx[k] == rest[k - |head|] + 1;
          assert s[idx[k]] == s[1..][rest[k - |head|]];
        }
      }
    }
  }

  lemma {:induction false} KeptPositionsAscending<T>(s: seq<T>, keep: T -> bool)
    ensures forall i :: i in KeptPositions(s, keep) ==> i < |s|
    ensures forall k, l :: 0 <= k < l < |KeptPositions(s, keep)| ==>
      KeptPositions(s, keep)[k] < KeptPositions(s, keep)[l]
  {
    if s != [] {
      KeptPositionsAscending(s[1..], keep);
      var rest := KeptPositions(s[1..], keep);
      var idx := KeptPositions(s, keep);
      forall i | i in idx ensures i < |s| {
        var k :| 0 <= k < |idx| && idx[k] == i;
        if !(keep(s[0]) && k == 0) {
          var j := if keep(s[0]) then k - 1 else k;
          assert idx[k] == rest[j] + 1;
          assert rest[j] in rest;
        }
      }
      var head := if keep(s[0]) then [0] else [];
      assert idx == head + Shift(rest);
      forall k, l | 0 <= k < l < |idx| ensures idx[k] < idx[l] {
        assert idx[l] == rest[l - |head|] + 1;
        if k >= |head| {
          assert idx[k] == rest[k - |head|] + 1;
          assert rest[k - |head|] < rest[l - |head|];
        } else {
          assert idx[k] == 0;
        }
      }
    }
  }

  lemma {:induction false} KeptPositionsExact<T>(s: seq<T>, keep: T -> bool)
    ensures forall i :: 0 <= i < |s| ==> (i in KeptPositions(s, keep) <==> keep(s[i]))
  {
    if s != [] {
      var tail := s[1..];
      KeptPositionsExact(tail, keep);
      var rest := KeptPositions(tail, keep);
      var sh := Shift(rest);
      var head := if keep(s[0]) then [0] else [];
      assert KeptPositions(s, keep) == head + sh;
      forall i | 0 <= i < |s|
        ensures i in KeptPositions(s, keep) <==> keep(s[i])
      {
        if i == 0 {
          assert 0 !in sh;
        } else {
          assert s[i] == tail[i - 1];
          if i in sh {
            var k :| 0 <= k < |sh| && sh[k] == i;
            assert rest[k] == i - 1;
          }
          if i - 1 in rest {
            var k :| 0 <= k < |rest| && rest[k] == i - 1;
            assert sh[k] == i;
          }
        }
      }
    }
  }

  /** Filtering what is already filtered changes nothing. */
  lemma {:induction false} FilterIdempotent<T>(s: seq<T>, keep: T -> bool)
    ensures Filter(Filter(s, keep), keep) == Filter(s, keep)
  {
    if s != [] {
      FilterIdempotent(s[1..], keep);
    }
  }

  /** When every element passes, the filter is the identity. */
  lemma {:induction false} FilterKeepsAll<T>(s: seq<T>, keep: T -> bool)
    requires forall i :: 0 <= i < |s| ==> keep(s[i])
    ensures Filter(s, keep) == s
  {
    if s != [] {
      FilterKeepsAll(s[1..], keep);
    }
  }

  /** `s.find(p)`: the first element that satisfies p, or nothing. */
  function Find<T>(s: seq<T>, p: T -> bool): (r: Option<T>)
    ensures r.Some? ==> r.value in s && p(r.value)
    ensures r.None? <==> forall i :: 0 <= i < |s| ==> !p(s[i])
  {
    if s == [] then None
    else if p(s[0]) then Some(s[0])
    else Find(s[1..], p)
  }

  /** What `Find` returns comes before every other element that satisfies p. */
  lemma {:induction false} FindIsFirst<T>(s: seq<T>, p: T -> bool, i: nat)
    requires i < |s| && p(s[i])
    ensures Find(s, p).Some?
    ensures exists j :: 0 <= j <= i && s[j] == Find(s, p).value && forall k :: 0 <= k < j ==> !p(s[k])
  {
    if p(s[0]) {
      assert s[0] == Find(s, p).value;
    } else {
      FindIsFirst(s[1..], p, i - 1);
      var j :| 0 <= j <= i - 1 && s[1..][j] == Find(s[1..], p).value
               && forall k :: 0 <= k < j ==> !p(s[1..][k]);
      assert s[j + 1] == Find(s, p).value;
      forall k | 0 <= k < j + 1 ensures !p(s[k]) {
        if k > 0 { assert s[k] == s[1..][k - 1]; }
      }
    }
  }
}

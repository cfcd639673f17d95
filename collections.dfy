/** The two array operations the resolvers are built from: the
    first-match search `Array.prototype.find` and the order-preserving
    `Array.prototype.filter`, as functions over sequences. */
module Collections {

  /** A value or nothing: `find` yields `undefined` when nothing matches. */
  datatype Option<+T> = None | Some(value: T)

  /** Index k holds the first element of s that satisfies p. */
  ghost predicate IsFirst<T>(s: seq<T>, p: T -> bool, k: int)
  {
    0 <= k < |s| && p(s[k]) && forall j :: 0 <= j < k ==> !p(s[j])
  }

  /** The position of the first element satisfying p, scanning left to right. */
  function FirstIndex<T>(s: seq<T>, p: T -> bool): (r: Option<nat>)
    ensures r.None? <==> forall i :: 0 <= i < |s| ==> !p(s[i])
    ensures r.Some? ==> IsFirst(s, p, r.value)
  {
    if s == [] then None
    else if p(s[0]) then Some(0)
    else match FirstIndex(s[1..], p)
      case None => None
      case Some(k) =>
        assert forall j :: 1 <= j <= k + 1 ==> s[j] == s[1..][j - 1];
        Some(k + 1)
  }

  /** `s.find(p)`: the first element of s that satisfies p, or nothing. */
  function Find<T>(s: seq<T>, p: T -> bool): (r: Option<T>)
    ensures r.None? <==> forall i :: 0 <= i < |s| ==> !p(s[i])
    ensures r.Some? ==> exists k :: IsFirst(s, p, k) && s[k] == r.value
  {
    match FirstIndex(s, p)
    case None => None
    case Some(k) => Some(s[k])
  }

  /** `s.filter(p)`: the elements of s that satisfy p, in their order in s. */
  function Filter<T>(s: seq<T>, p: T -> bool): (r: seq<T>)
    ensures |r| <= |s|
    ensures forall i :: 0 <= i < |r| ==> p(r[i])
    ensures forall i :: 0 <= i < |r| ==> r[i] in s
    ensures forall i :: 0 <= i < |s| && p(s[i]) ==> s[i] in r
  {
    if s == [] then []
    else
      var init := Filter(s[..|s| - 1], p);
      assert s == s[..|s| - 1] + [s[|s| - 1]];
      if p(s[|s| - 1]) then init + [s[|s| - 1]] else init
  }

  /** r lists, through the strictly increasing positions idx, exactly the
      elements of s that satisfy p. */
  ghost predicate IsOrderedSelection<T>(s: seq<T>, p: T -> bool, r: seq<T>, idx: seq<int>)
  {
    && |idx| == |r|
    && (forall k :: 0 <= k < |idx| ==> 0 <= idx[k] < |s| && r[k] == s[idx[k]])
    && (forall k, l :: 0 <= k < l < |idx| ==> idx[k] < idx[l])
    && (forall i :: 0 <= i < |s| ==> (p(s[i]) <==> i in idx))
  }

  /** Filter on a non-empty sequence: the filtered prefix, then the last
      element if it matches. */
  lemma FilterLast<T>(s: seq<T>, p: T -> bool)
    requires s != []
    ensures Filter(s, p) == Filter(s[..|s| - 1], p) + (if p(s[|s| - 1]) then [s[|s| - 1]] else [])
  {
  }

  /** Filter keeps every matching element, drops every other one and
      preserves the order of s. */
  lemma {:induction false} FilterIsOrderedSelection<T>(s: seq<T>, p: T -> bool) returns (idx: seq<int>)
    ensures IsOrderedSelection(s, p, Filter(s, p), idx)
  {
    if s == [] {
      idx := [];
    } else {
      var n := |s| - 1;
      var front, last := s[..n], s[n];
      var prev := FilterIsOrderedSelection(front, p);
      idx := SelectionExtend(front, p, Filter(front, p), prev, last);
      assert front + [last] == s;
      FilterLast(s, p);
    }
  }

  /** One more element at the end extends an ordered selection by its
      position when it matches. */
  lemma SelectionExtend<T>(s: seq<T>, p: T -> bool, r: seq<T>, prev: seq<int>, x: T) returns (idx: seq<int>)
    requires IsOrderedSelection(s, p, r, prev)
    ensures IsOrderedSelection(s + [x], p, r + (if p(x) then [x] else []), idx)
  {
    var s' := s + [x];
    if p(x) {
      idx := prev + [|s|];
      var r' := r + [x];
      assert forall k :: 0 <= k < |prev| ==> idx[k] == prev[k] && r'[k] == r[k] && s'[prev[k]] == s[prev[k]];
      forall i | 0 <= i < |s'|
        ensures p(s'[i]) <==> i in idx
      {
        if i < |s| {
          assert s'[i] == s[i];
          assert i in idx <==> i in prev;
        }
      }
    } else {
      idx := prev;
      assert forall k :: 0 <= k < |prev| ==> s'[prev[k]] == s[prev[k]];
      forall i | 0 <= i < |s'|
        ensures p(s'[i]) <==> i in idx
      {
        if i < |s| {
          assert s'[i] == s[i];
        }
      }
    }
  }

  /** Filtering an appended sequence filters the two parts separately. */
  lemma {:induction false} FilterAppend<T>(s: seq<T>, t: seq<T>, p: T -> bool)
    ensures Filter(s + t, p) == Filter(s, p) + Filter(t, p)
    decreases |t|
  {
    if t == [] {
      assert s + t == s;
    } else {
      var n := |t| - 1;
      var tail := if p(t[n]) then [t[n]] else [];
      FilterAppend(s, t[..n], p);
      assert (s + t)[..|s + t| - 1] == s + t[..n];
      FilterLast(s + t, p);
      FilterLast(t, p);
      assert Filter(s + t, p) == Filter(s + t[..n], p) + tail;
      assert Filter(t, p) == Filter(t[..n], p) + tail;
    }
  }

  /** Filter keeps a sequence whole when every element matches. */
  lemma {:induction false} FilterAllMatch<T>(s: seq<T>, p: T -> bool)
    requires forall i :: 0 <= i < |s| ==> p(s[i])
    ensures Filter(s, p) == s
  {
    if s != [] {
      FilterAllMatch(s[..|s| - 1], p);
      FilterLast(s, p);
    }
  }

  /** Filter yields nothing when no element matches. */
  lemma FilterNoneMatch<T>(s: seq<T>, p: T -> bool)
    requires forall i :: 0 <= i < |s| ==> !p(s[i])
    ensures Filter(s, p) == []
  {
  }

  /** Find returns the element at the first matching position. */
  lemma FindFirst<T>(s: seq<T>, p: T -> bool, k: int)
    requires IsFirst(s, p, k)
    ensures Find(s, p) == Some(s[k])
  {
    var r := FirstIndex(s, p);
    assert !(forall i :: 0 <= i < |s| ==> !p(s[i])) by { assert p(s[k]); }
  }

  /** Appending an element after the first match does not change the match. */
  lemma FindAppend<T>(s: seq<T>, x: T, p: T -> bool)
    ensures Find(s + [x], p) == if Find(s, p).Some? then Find(s, p) else if p(x) then Some(x) else None
  {
    assert forall i :: 0 <= i < |s| ==> (s + [x])[i] == s[i];
    if Find(s, p).Some? {
      var k :| IsFirst(s, p, k) && s[k] == Find(s, p).value;
      assert IsFirst(s + [x], p, k);
      FindFirst(s + [x], p, k);
    } else if p(x) {
      assert IsFirst(s + [x], p, |s|);
      FindFirst(s + [x], p, |s|);
    }
  }
}

/**
  The array operations the editor's history is built from, on sequences:
  `filter` by membership in a set, `indexOf`, and `splice(i, 0, x)`.
  The filters are written from the last element backwards so that a list
  extended by one element unfolds in one step.
 */
module Seqs {

  /** Shapes are referred to by identity; an identity is a natural number. */
  type Id = nat

  /** The elements of s not in `drop`, in order: `s.filter(x => !drop.includes(x))`. */
  function Without(s: seq<Id>, drop: set<Id>): (r: seq<Id>)
    ensures |r| <= |s|
    ensures forall x :: x in r <==> x in s && x !in drop
    decreases |s|
  {
    if s == [] then []
    else
      var init, last := s[..|s| - 1], s[|s| - 1];
      assert forall x :: x in s <==> x in init || x == last;
      Without(init, drop) + (if last in drop then [] else [last])
  }

  /** The elements of s in `keep`, in order: `s.filter(x => keep.includes(x))`. */
  function Only(s: seq<Id>, keep: set<Id>): (r: seq<Id>)
    ensures |r| <= |s|
    ensures forall x :: x in r <==> x in s && x in keep
    decreases |s|
  {
    if s == [] then []
    else
      var init, last := s[..|s| - 1], s[|s| - 1];
      assert forall x :: x in s <==> x in init || x == last;
      Only(init, keep) + (if last in keep then [last] else [])
  }

  /** No element occurs twice. */
  predicate NoDup(s: seq<Id>)
  {
    forall i, j :: 0 <= i < j < |s| ==> s[i] != s[j]
  }

  /** `s.indexOf(x)`: the position of the first occurrence of x, or -1. */
  function IndexOf(s: seq<Id>, x: Id): (r: int)
    ensures -1 <= r < |s|
    ensures r == -1 <==> x !in s
    ensures 0 <= r ==> s[r] == x && forall j :: 0 <= j < r ==> s[j] != x
  {
    if s == [] then -1
    else if s[0] == x then 0
    else
      var k := IndexOf(s[1..], x);
      if k < 0 then -1 else k + 1
  }

  /** `s.splice(i, 0, x)`: x inserted before position i; an index past the end appends. */
  function InsertAt(s: seq<Id>, i: nat, x: Id): (r: seq<Id>)
    ensures |r| == |s| + 1
    ensures forall y :: y in r <==> y in s || y == x
    ensures i <= |s| ==> r[i] == x && r[..i] == s[..i] && r[i + 1..] == s[i..]
    ensures i > |s| ==> r == s + [x]
  {
    if i <= |s| then
      assert s == s[..i] + s[i..];
      s[..i] + [x] + s[i..]
    else s + [x]
  }

  // ---------------------------------------------------------------------------
  // Lemmas
  // ---------------------------------------------------------------------------

  /** Filtering a list extended by one element: the one-step unfolding. */
  lemma WithoutSnoc(s: seq<Id>, x: Id, drop: set<Id>)
    ensures Without(s + [x], drop) == Without(s, drop) + (if x in drop then [] else [x])
  {
    assert (s + [x])[..|s|] == s;
  }

  lemma OnlySnoc(s: seq<Id>, x: Id, keep: set<Id>)
    ensures Only(s + [x], keep) == Only(s, keep) + (if x in keep then [x] else [])
  {
    assert (s + [x])[..|s|] == s;
  }

  /** Filtering distributes over concatenation. */
  lemma {:induction false} WithoutAppend(s: seq<Id>, t: seq<Id>, drop: set<Id>)
    ensures Without(s + t, drop) == Without(s, drop) + Without(t, drop)
    decreases |t|
  {
    if t == [] {
      assert s + t == s;
    } else {
      var u, last := t[..|t| - 1], t[|t| - 1];
      var tail := (if last in drop then [] else [last]);
      assert t == u + [last];
      calc {
        Without(s + t, drop);
        { assert s + t == (s + u) + [last]; }
        Without((s + u) + [last], drop);
        { WithoutSnoc(s + u, last, drop); }
        Without(s + u, drop) + tail;
        { WithoutAppend(s, u, drop); }
        (Without(s, drop) + Without(u, drop)) + tail;
        Without(s, drop) + (Without(u, drop) + tail);
        { WithoutSnoc(u, last, drop); }
        Without(s, drop) + Without(t, drop);
      }
    }
  }

  lemma {:induction false} OnlyAppend(s: seq<Id>, t: seq<Id>, keep: set<Id>)
    ensures Only(s + t, keep) == Only(s, keep) + Only(t, keep)
    decreases |t|
  {
    if t == [] {
      assert s + t == s;
    } else {
      var u, last := t[..|t| - 1], t[|t| - 1];
      var tail := (if last in keep then [last] else []);
      assert t == u + [last];
      calc {
        Only(s + t, keep);
        { assert s + t == (s + u) + [last]; }
        Only((s + u) + [last], keep);
        { OnlySnoc(s + u, last, keep); }
        Only(s + u, keep) + tail;
        { OnlyAppend(s, u, keep); }
        (Only(s, keep) + Only(u, keep)) + tail;
        Only(s, keep) + (Only(u, keep) + tail);
        { OnlySnoc(u, last, keep); }
        Only(s, keep) + Only(t, keep);
      }
    }
  }

  /** A list none of whose elements is dropped is left as it is. */
  lemma {:induction false} WithoutNone(s: seq<Id>, drop: set<Id>)
    requires forall x :: x in s ==> x !in drop
    ensures Without(s, drop) == s
    decreases |s|
  {
    if s != [] {
      var init, last := s[..|s| - 1], s[|s| - 1];
      assert s == init + [last];
      assert forall x :: x in init ==> x in s;
      WithoutNone(init, drop);
      WithoutSnoc(init, last, drop);
    }
  }

  /** A list all of whose elements are dropped becomes empty. */
  lemma WithoutAll(s: seq<Id>, drop: set<Id>)
    requires forall x :: x in s ==> x in drop
    ensures Without(s, drop) == []
  {
  }

  /** A list all of whose elements are kept is left as it is. */
  lemma {:induction false} OnlyAll(s: seq<Id>, keep: set<Id>)
    requires forall x :: x in s ==> x in keep
    ensures Only(s, keep) == s
    decreases |s|
  {
    if s != [] {
      var init, last := s[..|s| - 1], s[|s| - 1];
      assert s == init + [last];
      assert forall x :: x in init ==> x in s;
      OnlyAll(init, keep);
      OnlySnoc(init, last, keep);
    }
  }

  /** A list none of whose elements is kept filters to the empty list. */
  lemma OnlyNone(s: seq<Id>, keep: set<Id>)
    requires forall x :: x in s ==> x !in keep
    ensures Only(s, keep) == []
  {
  }

  /** A list of distinct elements of which only x is kept filters to [x]. */
  lemma {:induction false} OnlyOne(s: seq<Id>, x: Id, keep: set<Id>)
    requires NoDup(s) && x in s
    requires forall y :: y in s ==> (y in keep <==> y == x)
    ensures Only(s, keep) == [x]
    decreases |s|
  {
    var init, last := s[..|s| - 1], s[|s| - 1];
    assert s == init + [last];
    NoDupInit(s);
    assert forall y :: y in init ==> y in s;
    if last == x {
      OnlyNone(init, keep);
    } else {
      OnlyOne(init, x, keep);
    }
    OnlySnoc(init, last, keep);
  }

  /** The two filters by one set split a list: their lengths add up to its length. */
  lemma {:induction false} FilterLengths(s: seq<Id>, drop: set<Id>)
    ensures |Without(s, drop)| + |Only(s, drop)| == |s|
    decreases |s|
  {
    if s != [] {
      FilterLengths(s[..|s| - 1], drop);
    }
  }

  /** Two filters that agree on the elements of s give the same list. */
  lemma {:induction false} WithoutAgree(s: seq<Id>, a: set<Id>, b: set<Id>)
    requires forall x :: x in s ==> (x in a <==> x in b)
    ensures Without(s, a) == Without(s, b)
    decreases |s|
  {
    if s != [] {
      var init := s[..|s| - 1];
      assert forall x :: x in init ==> x in s;
      WithoutAgree(init, a, b);
    }
  }

  lemma {:induction false} OnlyAgree(s: seq<Id>, a: set<Id>, b: set<Id>)
    requires forall x :: x in s ==> (x in a <==> x in b)
    ensures Only(s, a) == Only(s, b)
    decreases |s|
  {
    if s != [] {
      var init := s[..|s| - 1];
      assert forall x :: x in init ==> x in s;
      OnlyAgree(init, a, b);
    }
  }

  /** A filtered list of distinct elements has distinct elements. */
  lemma {:induction false} WithoutNoDup(s: seq<Id>, drop: set<Id>)
    requires NoDup(s)
    ensures NoDup(Without(s, drop))
    decreases |s|
  {
    if s != [] {
      var init, last := s[..|s| - 1], s[|s| - 1];
      assert NoDup(init) by {
        forall i, j | 0 <= i < j < |init| ensures init[i] != init[j] {
          assert init[i] == s[i] && init[j] == s[j];
        }
      }
      WithoutNoDup(init, drop);
      assert last !in init by {
        forall i | 0 <= i < |init| ensures init[i] != last {
          assert init[i] == s[i];
        }
      }
      AppendNoDup(Without(init, drop), if last in drop then [] else [last]);
    }
  }

  lemma {:induction false} OnlyNoDup(s: seq<Id>, keep: set<Id>)
    requires NoDup(s)
    ensures NoDup(Only(s, keep))
    decreases |s|
  {
    if s != [] {
      var init, last := s[..|s| - 1], s[|s| - 1];
      assert NoDup(init) by {
        forall i, j | 0 <= i < j < |init| ensures init[i] != init[j] {
          assert init[i] == s[i] && init[j] == s[j];
        }
      }
      OnlyNoDup(init, keep);
      assert last !in init by {
        forall i | 0 <= i < |init| ensures init[i] != last {
          assert init[i] == s[i];
        }
      }
      AppendNoDup(Only(init, keep), if last in keep then [last] else []);
    }
  }

  /** Dropping the last element of a list of distinct elements: the rest are distinct and
      do not include it. */
  lemma NoDupInit(s: seq<Id>)
    requires NoDup(s) && s != []
    ensures NoDup(s[..|s| - 1]) && s[|s| - 1] !in s[..|s| - 1]
  {
    var init := s[..|s| - 1];
    forall i, j | 0 <= i < j < |init| ensures init[i] != init[j] {
      assert init[i] == s[i] && init[j] == s[j];
    }
    forall i | 0 <= i < |init| ensures init[i] != s[|s| - 1] {
      assert init[i] == s[i];
    }
  }

  /** Two lists of distinct elements with no element in common concatenate to one. */
  lemma AppendNoDup(s: seq<Id>, t: seq<Id>)
    requires NoDup(s) && NoDup(t)
    requires forall x :: x in s ==> x !in t
    ensures NoDup(s + t)
  {
    var u := s + t;
    forall i, j | 0 <= i < j < |u| ensures u[i] != u[j] {
      if j < |s| {
        assert u[i] == s[i] && u[j] == s[j];
      } else if i >= |s| {
        assert u[i] == t[i - |s|] && u[j] == t[j - |s|];
      } else {
        assert u[i] == s[i] && u[j] == t[j - |s|];
        assert s[i] in s;
      }
    }
  }

  /** Appending after the first occurrence of x does not move that occurrence. */
  lemma IndexOfAppend(s: seq<Id>, t: seq<Id>, x: Id)
    requires x in s
    ensures IndexOf(s + t, x) == IndexOf(s, x)
  {
    var k := IndexOf(s, x);
    var u := s + t;
    assert u[k] == x;
    assert forall j :: 0 <= j < k ==> u[j] == s[j];
  }

  /** An element appended to a list it was not in sits at the old length. */
  lemma IndexOfLast(s: seq<Id>, x: Id)
    requires x !in s
    ensures IndexOf(s + [x], x) == |s|
  {
    var u := s + [x];
    assert u[|s|] == x;
    assert forall j :: 0 <= j < |s| ==> u[j] == s[j];
  }

  /** Inserting before the end of a list commutes with appending to it. */
  lemma InsertAtAppend(s: seq<Id>, i: nat, x: Id, y: Id)
    requires i <= |s|
    ensures InsertAt(s + [y], i, x) == InsertAt(s, i, x) + [y]
  {
    assert (s + [y])[..i] == s[..i];
    assert (s + [y])[i..] == s[i..] + [y];
  }
}

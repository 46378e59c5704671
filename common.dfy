/** Small generic helpers shared by every module: optional values, results
    with an error, and the order-preserving `filter` that the hooks use to
    drop items from their lists. */
module Common {

  datatype Option<+T> = None | Some(value: T)

  datatype Result<+T, +E> = Ok(value: T) | Err(error: E)

  /** `Array.prototype.filter`: the elements of `s` that `keep` accepts, in
      their original order. */
  function Filter<T(!new)>(s: seq<T>, keep: T -> bool): (r: seq<T>)
    ensures |r| <= |s|
    ensures forall x :: x in r <==> x in s && keep(x)
  {
    if s == [] then []
    else if keep(s[0]) then [s[0]] + Filter(s[1..], keep)
    else Filter(s[1..], keep)
  }

  /** Filtering distributes over concatenation: what is kept from `a` comes,
      in order, before what is kept from `b`. */
  lemma {:induction false} FilterAppend<T(!new)>(a: seq<T>, b: seq<T>, keep: T -> bool)
    ensures Filter(a + b, keep) == Filter(a, keep) + Filter(b, keep)
  {
    if a == [] {
      assert a + b == b;
    } else {
      assert (a + b)[0] == a[0];
      assert (a + b)[1..] == a[1..] + b;
      FilterAppend(a[1..], b, keep);
    }
  }

  /** Extending the input by one element extends the filter by that element
      exactly when it is kept. */
  lemma FilterExtend<T(!new)>(s: seq<T>, i: nat, keep: T -> bool)
    requires i < |s|
    ensures Filter(s[..i + 1], keep) == Filter(s[..i], keep) + (if keep(s[i]) then [s[i]] else [])
  {
    assert s[..i + 1] == s[..i] + [s[i]];
    FilterAppend(s[..i], [s[i]], keep);
    assert [s[i]][1..] == [];
  }

  /** Nothing is dropped when every element is kept. */
  lemma {:induction false} FilterKeepsAll<T(!new)>(s: seq<T>, keep: T -> bool)
    requires forall k :: 0 <= k < |s| ==> keep(s[k])
    ensures Filter(s, keep) == s
  {
    if s != [] {
      FilterKeepsAll(s[1..], keep);
    }
  }

  /** A filter drops at least one element whenever it rejects one. */
  lemma {:induction false} FilterShrinks<T(!new)>(s: seq<T>, keep: T -> bool, x: T)
    requires x in s && !keep(x)
    ensures |Filter(s, keep)| < |s|
  {
    if s[0] != x {
      FilterShrinks(s[1..], keep, x);
    }
  }
  /** How often a value occurs after filtering: as often as before if it is
      kept, otherwise never. */
  lemma {:induction false} FilterCount<T(!new)>(s: seq<T>, keep: T -> bool, v: T)
    ensures multiset(Filter(s, keep))[v] == if keep(v) then multiset(s)[v] else 0
  {
    if s != [] {
      assert s == [s[0]] + s[1..];
      FilterCount(s[1..], keep, v);
    }
  }

  /** What a filter keeps depends only on the multiset of its input, not on
      the order of the elements. */
  lemma FilterRespectsMultiset<T(!new)>(a: seq<T>, b: seq<T>, keep: T -> bool)
    requires multiset(a) == multiset(b)
    ensures multiset(Filter(a, keep)) == multiset(Filter(b, keep))
  {
    forall v ensures multiset(Filter(a, keep))[v] == multiset(Filter(b, keep))[v] {
      FilterCount(a, keep, v);
      FilterCount(b, keep, v);
    }
  }

  /** A filter that rejects at most one position drops at most one element. */
  lemma {:induction false} FilterDropsAtMostOne<T(!new)>(s: seq<T>, keep: T -> bool)
    requires forall i, j :: 0 <= i < j < |s| && !keep(s[i]) ==> keep(s[j])
    ensures |Filter(s, keep)| >= |s| - 1
    ensures (exists i :: 0 <= i < |s| && !keep(s[i])) ==> |Filter(s, keep)| == |s| - 1
  {
    if s != [] {
      if keep(s[0]) {
        FilterDropsAtMostOne(s[1..], keep);
        if exists i :: 0 <= i < |s| && !keep(s[i]) {
          var i :| 0 <= i < |s| && !keep(s[i]);
          assert !keep(s[1..][i - 1]);
        }
      } else {
        FilterKeepsAll(s[1..], keep);
      }
    }
  }
}

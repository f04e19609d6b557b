/** Small sequence utilities shared by every store of the model: the document
    store's collections are sequences in insertion order, a `find` is a
    filter, a `findOne…` picks the first match, a `deleteOne` removes it. */
module Common {

  datatype Option<+T> = None | Some(value: T)

  /** The elements of `s` that satisfy `keep`, in their original order. */
  function Filter<T(!new)>(s: seq<T>, keep: T -> bool): (r: seq<T>)
    ensures |r| <= |s|
    ensures forall i :: 0 <= i < |r| ==> keep(r[i])
    decreases |s|
  {
    if |s| == 0 then []
    else (if keep(s[0]) then [s[0]] else []) + Filter(s[1..], keep)
  }

  /** Filtering keeps every occurrence of a kept element and none of the
      others: the result is exactly the kept part of `s`, as a multiset. */
  lemma {:induction false} FilterMultiset<T(!new)>(s: seq<T>, keep: T -> bool)
    ensures forall x :: multiset(Filter(s, keep))[x] == if keep(x) then multiset(s)[x] else 0
    decreases |s|
  {
    if |s| > 0 {
      assert s == [s[0]] + s[1..];
      FilterMultiset(s[1..], keep);
    }
  }

  lemma {:induction false} FilterAppend<T(!new)>(a: seq<T>, b: seq<T>, keep: T -> bool)
    ensures Filter(a + b, keep) == Filter(a, keep) + Filter(b, keep)
    decreases |a|
  {
    if |a| == 0 {
      assert a + b == b;
    } else {
      assert (a + b)[1..] == a[1..] + b;
      FilterAppend(a[1..], b, keep);
    }
  }

  /** Filtering keeps a sequence whole exactly when every element is kept. */
  lemma {:induction false} FilterAll<T(!new)>(s: seq<T>, keep: T -> bool)
    requires forall i :: 0 <= i < |s| ==> keep(s[i])
    ensures Filter(s, keep) == s
    decreases |s|
  {
    if |s| > 0 {
      FilterAll(s[1..], keep);
    }
  }

  /** Filtering a sequence none of whose elements is kept gives nothing. */
  lemma {:induction false} FilterNone<T(!new)>(s: seq<T>, keep: T -> bool)
    requires forall i :: 0 <= i < |s| ==> !keep(s[i])
    ensures Filter(s, keep) == []
    decreases |s|
  {
    if |s| > 0 {
      FilterNone(s[1..], keep);
    }
  }

  /** Two predicates that agree on every element of `s` filter it alike. */
  lemma {:induction false} FilterCongruent<T(!new)>(s: seq<T>, p: T -> bool, q: T -> bool)
    requires forall i :: 0 <= i < |s| ==> p(s[i]) == q(s[i])
    ensures Filter(s, p) == Filter(s, q)
    decreases |s|
  {
    if |s| > 0 {
      FilterCongruent(s[1..], p, q);
    }
  }

  /** Filtering by `p` and then by `q` is filtering once by `both`, when
      `both` holds exactly where `p` and `q` do. */
  lemma {:induction false} FilterFilter<T(!new)>(s: seq<T>, p: T -> bool, q: T -> bool, both: T -> bool)
    requires forall x :: both(x) == (p(x) && q(x))
    ensures Filter(Filter(s, p), q) == Filter(s, both)
    decreases |s|
  {
    if |s| > 0 {
      var head := if p(s[0]) then [s[0]] else [];
      assert Filter(s, p) == head + Filter(s[1..], p);
      FilterAppend(head, Filter(s[1..], p), q);
      FilterFilter(s[1..], p, q, both);
      assert Filter(head, q) == if both(s[0]) then [s[0]] else [] by {
        if p(s[0]) {
          assert [s[0]][1..] == [];
        }
      }
    }
  }

  /** Filtering around one kept element `x` between `a` and `b`. */
  lemma FilterAround<T(!new)>(a: seq<T>, x: T, b: seq<T>, keep: T -> bool)
    requires keep(x)
    ensures Filter(a + [x] + b, keep) == Filter(a, keep) + [x] + Filter(b, keep)
  {
    FilterAppend(a + [x], b, keep);
    FilterAppend(a, [x], keep);
    assert Filter([x], keep) == [x] by {
      assert [x][1..] == [];
    }
  }

  /** Filtering a sequence in which position `i` is replaced by an element
      that `keep` treats like the old one: the kept prefix and suffix are
      untouched and only that element changes. */
  lemma FilterUpdate<T(!new)>(s: seq<T>, i: nat, v: T, keep: T -> bool)
    requires i < |s|
    requires keep(s[i]) && keep(v)
    ensures Filter(s, keep) == Filter(s[..i], keep) + [s[i]] + Filter(s[i + 1..], keep)
    ensures Filter(s[i := v], keep) == Filter(s[..i], keep) + [v] + Filter(s[i + 1..], keep)
  {
    assert s == s[..i] + [s[i]] + s[i + 1..];
    assert s[i := v] == s[..i] + [v] + s[i + 1..];
    FilterAround(s[..i], s[i], s[i + 1..], keep);
    FilterAround(s[..i], v, s[i + 1..], keep);
  }

  /** Replacing the first kept element by another kept one changes only the
      head of the filtered sequence. */
  lemma FilterUpdateFirst<T(!new)>(s: seq<T>, i: nat, v: T, keep: T -> bool)
    requires i < |s| && keep(v)
    requires forall j :: 0 <= j < i ==> !keep(s[j])
    requires keep(s[i])
    ensures |Filter(s, keep)| > 0 && Filter(s[i := v], keep) == [v] + Filter(s, keep)[1..]
  {
    FilterUpdate(s, i, v, keep);
    FilterNone(s[..i], keep);
    assert Filter(s, keep)[1..] == Filter(s[i + 1..], keep);
  }

  /** Removing the first kept element drops the head of the filtered
      sequence. */
  lemma FilterRemoveFirst<T(!new)>(s: seq<T>, i: nat, keep: T -> bool)
    requires i < |s|
    requires forall j :: 0 <= j < i ==> !keep(s[j])
    requires keep(s[i])
    ensures |Filter(s, keep)| > 0 && Filter(s[..i] + s[i + 1..], keep) == Filter(s, keep)[1..]
  {
    FilterUpdate(s, i, s[i], keep);
    FilterNone(s[..i], keep);
    FilterAppend(s[..i], s[i + 1..], keep);
    assert Filter(s, keep)[1..] == Filter(s[i + 1..], keep);
  }

  /** Replacing an element that is dropped by one that is dropped too does
      not change the filtered sequence. */
  lemma FilterUpdateDropped<T(!new)>(s: seq<T>, i: nat, v: T, keep: T -> bool)
    requires i < |s|
    requires !keep(s[i]) && !keep(v)
    ensures Filter(s[i := v], keep) == Filter(s, keep)
  {
    assert s == s[..i] + [s[i]] + s[i + 1..];
    assert s[i := v] == s[..i] + [v] + s[i + 1..];
    FilterAppend(s[..i] + [s[i]], s[i + 1..], keep);
    FilterAppend(s[..i], [s[i]], keep);
    FilterAppend(s[..i] + [v], s[i + 1..], keep);
    FilterAppend(s[..i], [v], keep);
    assert [s[i]][1..] == [] && [v][1..] == [];
  }

  lemma FilterSkipOne<T(!new)>(pre: seq<T>, x: T, post: seq<T>, keep: T -> bool)
    requires !keep(x)
    ensures Filter(pre + [x] + post, keep) == Filter(pre + post, keep)
  {
    FilterAppend(pre + [x], post, keep);
    FilterAppend(pre, [x], keep);
    FilterAppend(pre, post, keep);
    assert Filter([x], keep) == [] by {
      assert [x][1..] == [];
    }
  }

  /** Removing an element that is dropped does not change the filtered
      sequence. */
  lemma FilterRemoveDropped<T(!new)>(s: seq<T>, i: nat, keep: T -> bool)
    requires i < |s| && !keep(s[i])
    ensures Filter(RemoveAt(s, i), keep) == Filter(s, keep)
  {
    var pre, post := s[..i], s[i + 1..];
    assert s == pre + [s[i]] + post;
    assert RemoveAt(s, i) == pre + post;
    FilterSkipOne(pre, s[i], post, keep);
  }

  /** The position of the first element of `s` that satisfies `keep`. */
  function FirstIndex<T>(s: seq<T>, keep: T -> bool): (r: Option<nat>)
    ensures r.Some? ==> r.value < |s| && keep(s[r.value])
    ensures r.Some? ==> forall j :: 0 <= j < r.value ==> !keep(s[j])
    ensures r.None? ==> forall j :: 0 <= j < |s| ==> !keep(s[j])
    decreases |s|
  {
    if |s| == 0 then None
    else if keep(s[0]) then Some(0)
    else
      match FirstIndex(s[1..], keep)
      case None => None
      case Some(i) => Some(i + 1)
  }

  /** `s` without its element at position `i`. */
  function RemoveAt<T>(s: seq<T>, i: nat): (r: seq<T>)
    requires i < |s|
    ensures |r| == |s| - 1
    ensures forall j :: 0 <= j < i ==> r[j] == s[j]
    ensures forall j :: i <= j < |r| ==> r[j] == s[j + 1]
    ensures multiset(r) == multiset(s) - multiset{s[i]}
  {
    assert s == s[..i] + [s[i]] + s[i + 1..];
    s[..i] + s[i + 1..]
  }

  /** The ids of the records of `s`, in order. */
  function IdsOf<T>(s: seq<T>, id: T -> nat): (ids: seq<nat>)
    ensures |ids| == |s|
    ensures forall k :: 0 <= k < |s| ==> ids[k] == id(s[k])
  {
    seq(|s|, k requires 0 <= k < |s| => id(s[k]))
  }

  /** A number above every one of `ids`: the model's stand-in for the fresh
      identifier the document store gives a new record. */
  function FreshId(ids: seq<nat>): (f: nat)
    ensures forall k :: 0 <= k < |ids| ==> ids[k] < f
  {
    if |ids| == 0 then 1
    else
      var rest := FreshId(ids[1..]);
      assert forall k :: 1 <= k < |ids| ==> ids[k] == ids[1..][k - 1];
      if rest <= ids[0] then ids[0] + 1 else rest
  }
}

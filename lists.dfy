/** The list comprehension `[x for x in s if keep(x)]` that every query and delete uses. */
module Lists {

  /** The elements of `s` for which `keep` holds, in their original order. */
  function Filter<T(==,!new)>(s: seq<T>, keep: T -> bool): (r: seq<T>)
    ensures |r| <= |s|
    ensures forall i :: 0 <= i < |r| ==> keep(r[i])
    decreases |s|
  {
    if s == [] then []
    else (if keep(s[0]) then [s[0]] else []) + Filter(s[1..], keep)
  }

  /** The comprehension keeps every occurrence of a kept value and drops every other one. */
  lemma {:induction false} FilterCounts<T(!new)>(s: seq<T>, keep: T -> bool)
    ensures forall x :: multiset(Filter(s, keep))[x] == if keep(x) then multiset(s)[x] else 0
    decreases |s|
  {
    if s != [] {
      FilterCounts(s[1..], keep);
      assert s == [s[0]] + s[1..];
    }
  }

  /** Filtering a concatenation filters each part: the order of kept elements is unchanged. */
  lemma {:induction false} FilterConcat<T(!new)>(a: seq<T>, b: seq<T>, keep: T -> bool)
    ensures Filter(a + b, keep) == Filter(a, keep) + Filter(b, keep)
    decreases |a|
  {
    if a != [] {
      var head := if keep(a[0]) then [a[0]] else [];
      assert (a + b)[0] == a[0] && (a + b)[1..] == a[1..] + b;
      assert Filter(a + b, keep) == head + Filter(a[1..] + b, keep);
      FilterConcat(a[1..], b, keep);
      assert Filter(a, keep) == head + Filter(a[1..], keep);
    } else {
      assert a + b == b;
    }
  }

  /** When every element is kept, the comprehension returns the list unchanged. */
  lemma {:induction false} FilterKeepsAll<T(!new)>(s: seq<T>, keep: T -> bool)
    requires forall i :: 0 <= i < |s| ==> keep(s[i])
    ensures Filter(s, keep) == s
    decreases |s|
  {
    if s != [] {
      FilterKeepsAll(s[1..], keep);
    }
  }

  /**
   * `FilterKeepsAll` as an implication, for the delete functions: their bodies are
   * expressions, which can call a lemma but cannot branch on its precondition first.
   */
  lemma FilterKeepsAllWhen<T(!new)>(s: seq<T>, keep: T -> bool)
    ensures (forall i :: 0 <= i < |s| ==> keep(s[i])) ==> Filter(s, keep) == s
  {
    if forall i :: 0 <= i < |s| ==> keep(s[i]) {
      FilterKeepsAll(s, keep);
    }
  }

  /** When exactly the element at `k` fails the test, the comprehension removes just that one. */
  lemma {:induction false} FilterDropsOnly<T(!new)>(s: seq<T>, k: nat, keep: T -> bool)
    requires k < |s| && !keep(s[k])
    requires forall i :: 0 <= i < |s| && i != k ==> keep(s[i])
    ensures Filter(s, keep) == s[..k] + s[k + 1..]
    decreases k
  {
    var rest := s[1..];
    if k == 0 {
      assert forall i :: 0 <= i < |rest| ==> keep(rest[i]) by {
        forall i | 0 <= i < |rest| ensures keep(rest[i]) {
          assert rest[i] == s[i + 1];
        }
      }
      FilterKeepsAll(rest, keep);
    } else {
      assert forall i :: 0 <= i < |rest| && i != k - 1 ==> keep(rest[i]) by {
        forall i | 0 <= i < |rest| && i != k - 1 ensures keep(rest[i]) {
          assert rest[i] == s[i + 1];
        }
      }
      FilterDropsOnly(rest, k - 1, keep);
      assert s[..k] == [s[0]] + rest[..k - 1] && s[k + 1..] == rest[k..];
    }
  }

  /** Filtering twice by the same test is filtering once. */
  lemma FilterIdempotent<T(!new)>(s: seq<T>, keep: T -> bool)
    ensures Filter(Filter(s, keep), keep) == Filter(s, keep)
  {
    FilterKeepsAll(Filter(s, keep), keep);
  }
}

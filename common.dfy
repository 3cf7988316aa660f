/** Shared vocabulary of the storefront model: optional values, handler
    responses, and the sequence operations that the SQL queries of the
    models reduce to (`WHERE` is a filter, `ORDER BY created_at DESC` a
    reversal of insertion order, `LIMIT` a prefix, `SUM` a sum). */
module Common {

  datatype Option<+T> = None | Some(value: T)

  /** What a request handler sends back: a success status with a JSON body,
      or one of the handler's error cases (each error type has its own
      mapping to an HTTP status). */
  datatype Response<+T, +E> = Success(code: int, body: T) | Failure(error: E)

  /** JavaScript truthiness of a numeric body field: absent and 0 are falsy. */
  predicate Truthy(n: Option<int>)
  {
    n.Some? && n.value != 0
  }

  /** `ORDER BY created_at DESC` over rows kept in insertion order. */
  function Reverse<T>(s: seq<T>): (r: seq<T>)
    ensures |r| == |s|
    ensures forall i :: 0 <= i < |s| ==> r[i] == s[|s| - 1 - i]
  {
    if s == [] then [] else Reverse(s[1..]) + [s[0]]
  }

  lemma ReverseMembers<T>(s: seq<T>)
    ensures forall x :: x in Reverse(s) <==> x in s
  {
    var r := Reverse(s);
    forall x | x in s ensures x in r {
      var i :| 0 <= i < |s| && s[i] == x;
      assert r[|s| - 1 - i] == x;
    }
  }

  /** SQLite's `LIMIT n`: the first n rows; a negative n means no limit. */
  function Limit<T>(s: seq<T>, n: int): (r: seq<T>)
    ensures |r| <= |s| && r == s[..|r|]
    ensures n < 0 ==> r == s
    ensures 0 <= n ==> |r| == if n < |s| then n else |s|
  {
    if 0 <= n < |s| then s[..n] else s
  }

  /** `a` is obtained from `b` by deleting elements, keeping the order. */
  predicate IsSubsequence<T(==)>(a: seq<T>, b: seq<T>)
    decreases |b|
  {
    a == [] || (b != [] && if a[0] == b[0] then IsSubsequence(a[1..], b[1..]) else IsSubsequence(a, b[1..]))
  }

  /** Every sequence is a subsequence of itself. */
  lemma {:induction false} SubsequenceOfItself<T>(s: seq<T>)
    ensures IsSubsequence(s, s)
  {
    if s != [] {
      SubsequenceOfItself(s[1..]);
    }
  }

  /** Dropping the first element leaves a subsequence. */
  lemma SkipFirstIsSubsequence<T>(s: seq<T>)
    requires s != []
    ensures IsSubsequence(s[1..], s)
  {
    SubsequenceOfItself(s[1..]);
    if s[1..] != [] && s[1..][0] == s[0] {
      DropBothFromLonger(s);
    }
  }

  /** When the first two elements are equal, dropping the first still leaves
      a subsequence: match the tail against the tail. */
  lemma {:induction false} DropBothFromLonger<T>(s: seq<T>)
    requires |s| >= 2
    ensures IsSubsequence(s[1..], s)
    decreases |s|
  {
    var t := s[1..];
    if t[0] == s[0] {
      if |s| == 2 {
        assert t[1..] == [];
      } else {
        assert t[1..] == s[2..] && s[1..][1..] == s[2..];
        DropBothFromLonger(s[1..]);
        assert IsSubsequence(s[2..], s[1..]);
      }
    } else {
      SubsequenceOfItself(t);
    }
  }

  /** `WHERE` / `Array.prototype.filter`. */
  function Filter<T(==)>(s: seq<T>, keep: T -> bool): (r: seq<T>)
    ensures |r| <= |s|
    ensures forall x :: x in r ==> x in s && keep(x)
    ensures forall x :: x in s && keep(x) ==> x in r
    ensures IsSubsequence(r, s)
  {
    if s == [] then []
    else if keep(s[0]) then [s[0]] + Filter(s[1..], keep)
    else Filter(s[1..], keep)
  }

  lemma {:induction false} FilterConcat<T>(a: seq<T>, b: seq<T>, keep: T -> bool)
    ensures Filter(a + b, keep) == Filter(a, keep) + Filter(b, keep)
  {
    if a == [] {
      assert a + b == b;
    } else {
      var ab := a + b;
      assert ab[0] == a[0] && ab[1..] == a[1..] + b;
      FilterConcat(a[1..], b, keep);
      if keep(a[0]) {
        calc {
          Filter(ab, keep);
          [a[0]] + Filter(a[1..] + b, keep);
          [a[0]] + (Filter(a[1..], keep) + Filter(b, keep));
          ([a[0]] + Filter(a[1..], keep)) + Filter(b, keep);
        }
      } else {
        assert Filter(ab, keep) == Filter(a[1..] + b, keep);
      }
    }
  }

  lemma {:induction false} FilterAll<T>(s: seq<T>, keep: T -> bool)
    requires forall x :: x in s ==> keep(x)
    ensures Filter(s, keep) == s
  {
    if s != [] {
      FilterAll(s[1..], keep);
    }
  }

  lemma {:induction false} FilterNone<T>(s: seq<T>, keep: T -> bool)
    requires forall x :: x in s ==> !keep(x)
    ensures Filter(s, keep) == []
  {
    if s != [] {
      FilterNone(s[1..], keep);
    }
  }

  /** Elements strictly increasing under `key`. */
  ghost predicate AscendingBy<T>(s: seq<T>, key: T -> int)
  {
    forall i, j :: 0 <= i < j < |s| ==> key(s[i]) < key(s[j])
  }

  ghost predicate DescendingBy<T>(s: seq<T>, key: T -> int)
  {
    forall i, j :: 0 <= i < j < |s| ==> key(s[i]) > key(s[j])
  }

  lemma {:induction false} FilterKeepsAscending<T>(s: seq<T>, keep: T -> bool, key: T -> int)
    requires AscendingBy(s, key)
    ensures AscendingBy(Filter(s, keep), key)
  {
    if s != [] {
      assert AscendingBy(s[1..], key);
      FilterKeepsAscending(s[1..], keep, key);
      if keep(s[0]) {
        var rest := Filter(s[1..], keep);
        forall j | 0 <= j < |rest| ensures key(s[0]) < key(rest[j]) {
          assert rest[j] in s[1..];
        }
      }
    }
  }

  /** Appending an element above every key keeps the order ascending. */
  lemma AppendKeepsAscending<T>(s: seq<T>, x: T, key: T -> int)
    requires AscendingBy(s, key)
    requires forall k :: 0 <= k < |s| ==> key(s[k]) < key(x)
    ensures AscendingBy(s + [x], key)
  {
    var r := s + [x];
    assert forall k :: 0 <= k < |s| ==> r[k] == s[k];
  }

  lemma ReverseOfAscending<T>(s: seq<T>, key: T -> int)
    requires AscendingBy(s, key)
    ensures DescendingBy(Reverse(s), key)
  {
  }

  /** `SUM` / `Array.prototype.reduce` with `+`, starting from 0. */
  function Sum<T>(s: seq<T>, f: T -> int): int
  {
    if s == [] then 0 else f(s[0]) + Sum(s[1..], f)
  }

  lemma {:induction false} SumConcat<T>(a: seq<T>, b: seq<T>, f: T -> int)
    ensures Sum(a + b, f) == Sum(a, f) + Sum(b, f)
  {
    if a == [] {
      assert a + b == b;
    } else {
      assert (a + b)[0] == a[0] && (a + b)[1..] == a[1..] + b;
      SumConcat(a[1..], b, f);
    }
  }

  /** Replacing one element changes the sum by the difference of the two
      values. */
  lemma {:induction false} SumUpdate<T>(s: seq<T>, i: int, x: T, f: T -> int)
    requires 0 <= i < |s|
    ensures Sum(s[i := x], f) == Sum(s, f) - f(s[i]) + f(x)
  {
    if i > 0 {
      assert s[i := x][1..] == s[1..][i - 1 := x];
      SumUpdate(s[1..], i - 1, x, f);
    }
  }

  /** Taking one element out lowers the sum by its value. */
  lemma {:induction false} SumRemove<T>(s: seq<T>, i: int, f: T -> int)
    requires 0 <= i < |s|
    ensures Sum(s[..i] + s[i + 1..], f) == Sum(s, f) - f(s[i])
  {
    if i > 0 {
      assert (s[..i] + s[i + 1..])[1..] == s[1..][..i - 1] + s[1..][i..];
      SumRemove(s[1..], i - 1, f);
    } else {
      assert s[..i] + s[i + 1..] == s[1..];
    }
  }
}

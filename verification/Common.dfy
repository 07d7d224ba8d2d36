/** Small data types and the ordering vocabulary every other module uses. */
module Common {
  datatype Option<+T> = None | Some(value: T)

  datatype Result<+T, +E> = Ok(value: T) | Err(error: E)

  /** Python's order on strings: lexicographic by code point. */
  predicate StrLess(a: string, b: string) {
    if b == [] then false
    else if a == [] then true
    else a[0] < b[0] || (a[0] == b[0] && StrLess(a[1..], b[1..]))
  }

  ghost predicate StrictOrder<T(!new)>(less: (T, T) -> bool) {
    && (forall a :: !less(a, a))
    && (forall a, b :: less(a, b) || a == b || less(b, a))
    && (forall a, b, c :: less(a, b) && less(b, c) ==> less(a, c))
  }

  predicate Ascending<T>(s: seq<T>, less: (T, T) -> bool) {
    forall i, j | 0 <= i < j < |s| :: less(s[i], s[j])
  }

  predicate NoDuplicates<T(==)>(s: seq<T>) {
    forall i, j | 0 <= i < j < |s| :: s[i] != s[j]
  }

  lemma StrLessTotal(a: string, b: string)
    ensures !StrLess(a, a)
    ensures StrLess(a, b) || a == b || StrLess(b, a)
  {
  }

  lemma StrLessTransitive(a: string, b: string, c: string)
    requires StrLess(a, b) && StrLess(b, c)
    ensures StrLess(a, c)
  {
    if a != [] && a[0] == b[0] && b[0] == c[0] {
      StrLessTransitive(a[1..], b[1..], c[1..]);
    }
  }

  lemma StrLessIsStrictOrder()
    ensures StrictOrder(StrLess)
  {
    forall a, b ensures !StrLess(a, a) && (StrLess(a, b) || a == b || StrLess(b, a)) {
      StrLessTotal(a, b);
    }
    forall a, b, c | StrLess(a, b) && StrLess(b, c) ensures StrLess(a, c) {
      StrLessTransitive(a, b, c);
    }
  }

  /** The strings agree up to place k, where the first one ends or has the smaller character. */
  predicate LessAt(a: string, b: string, k: nat) {
    k <= |a| && k < |b| && a[..k] == b[..k] && (k == |a| || a[k] < b[k])
  }

  lemma LessAtTails(a: string, b: string, k: nat)
    requires a != [] && b != [] && a[0] == b[0]
    ensures LessAt(a, b, k + 1) <==> LessAt(a[1..], b[1..], k)
    ensures !LessAt(a, b, 0)
  {
    if k + 1 <= |a| && k + 1 <= |b| {
      assert a[..k + 1] == [a[0]] + a[1..][..k] && b[..k + 1] == [b[0]] + b[1..][..k];
      assert a[1..][..k] == a[..k + 1][1..] && b[1..][..k] == b[..k + 1][1..];
    }
  }

  lemma LessAtAgrees(a: string, b: string, k: nat)
    requires k > 0 && LessAt(a, b, k)
    ensures a != [] && b != [] && a[0] == b[0]
  {
    assert a[..k][0] == b[..k][0];
  }

  /** The order looks at the first place where the strings differ; a proper prefix comes first. */
  lemma {:induction false} StrLessMeaning(a: string, b: string)
    ensures StrLess(a, b) <==> exists k: nat :: LessAt(a, b, k)
  {
    if a != [] && b != [] && a[0] == b[0] {
      StrLessMeaning(a[1..], b[1..]);
      if k: nat :| LessAt(a[1..], b[1..], k) {
        LessAtTails(a, b, k);
      }
      if k: nat :| LessAt(a, b, k) {
        LessAtTails(a, b, 0);
        LessAtTails(a, b, k - 1);
      }
    } else if b != [] {
      assert LessAt(a, b, 0) <==> a == [] || a[0] < b[0];
      if k: nat :| k > 0 && LessAt(a, b, k) {
        LessAtAgrees(a, b, k);
      }
    }
  }

  /** One step of `sorted(set(...))`: put x in its place unless it is there already. */
  function InsertSorted<T(==)>(s: seq<T>, x: T, less: (T, T) -> bool): seq<T> {
    if s == [] then [x]
    else if x == s[0] then s
    else if less(x, s[0]) then [x] + s
    else [s[0]] + InsertSorted(s[1..], x, less)
  }

  /** `sorted(set(base) | set(more))` for a base that is already sorted. */
  function SortedUnion<T(==)>(base: seq<T>, more: seq<T>, less: (T, T) -> bool): seq<T>
    decreases |more|
  {
    if more == [] then base
    else SortedUnion(InsertSorted(base, more[0], less), more[1..], less)
  }

  lemma {:induction false} InsertSortedCorrect<T(!new)>(s: seq<T>, x: T, less: (T, T) -> bool)
    requires StrictOrder(less) && Ascending(s, less)
    ensures Ascending(InsertSorted(s, x, less), less)
    ensures forall y :: y in InsertSorted(s, x, less) <==> y == x || y in s
  {
    if s != [] {
      assert s == [s[0]] + s[1..];
      if x != s[0] && !less(x, s[0]) {
        InsertSortedCorrect(s[1..], x, less);
        var r := InsertSorted(s[1..], x, less);
        forall j | 0 <= j < |r| ensures less(s[0], r[j]) {
          assert r[j] in r;
          assert r[j] == x || r[j] in s[1..];
        }
      } else if less(x, s[0]) {
        forall j | 0 <= j < |s| ensures less(x, s[j]) {
          assert j == 0 || less(s[0], s[j]);
        }
      }
    }
  }

  lemma {:induction false} SortedUnionCorrect<T(!new)>(base: seq<T>, more: seq<T>, less: (T, T) -> bool)
    requires StrictOrder(less) && Ascending(base, less)
    ensures Ascending(SortedUnion(base, more, less), less)
    ensures forall y :: y in SortedUnion(base, more, less) <==> y in base || y in more
    decreases |more|
  {
    if more != [] {
      InsertSortedCorrect(base, more[0], less);
      SortedUnionCorrect(InsertSorted(base, more[0], less), more[1..], less);
      assert forall y :: y in more <==> y == more[0] || y in more[1..];
    }
  }

  /** `list(dict.fromkeys(s))`: the first occurrence of each element, in order. */
  function FirstOccurrences<T(==)>(s: seq<T>): seq<T> {
    if s == [] then []
    else
      var rest := FirstOccurrences(s[..|s| - 1]);
      var last := s[|s| - 1];
      if last in rest then rest else rest + [last]
  }

  lemma {:induction false} FirstOccurrencesCorrect<T>(s: seq<T>)
    ensures NoDuplicates(FirstOccurrences(s))
    ensures forall y :: y in FirstOccurrences(s) <==> y in s
  {
    if s != [] {
      FirstOccurrencesCorrect(s[..|s| - 1]);
      assert s == s[..|s| - 1] + [s[|s| - 1]];
    }
  }

  lemma OccursFirst<T>(s: seq<T>, i: nat)
    requires i < |FirstOccurrences(s)|
    ensures exists a | 0 <= a < |s| :: s[a] == FirstOccurrences(s)[i] && s[a] !in s[..a]
  {
    FirstOccurrencesCorrect(s);
    var v := FirstOccurrences(s)[i];
    assert v in FirstOccurrences(s);
    FirstPlace(s, v);
  }

  /** And they come in the order of their first occurrences. */
  lemma {:induction false} FirstOccurrencesInOrder<T>(s: seq<T>, i: nat, j: nat)
    requires i < j < |FirstOccurrences(s)|
    ensures exists a, b | 0 <= a < b < |s| ::
      && s[a] == FirstOccurrences(s)[i] && s[a] !in s[..a]
      && s[b] == FirstOccurrences(s)[j] && s[b] !in s[..b]
  {
    var n := |s| - 1;
    var init := s[..n];
    var rest := FirstOccurrences(init);
    FirstOccurrencesCorrect(init);
    if j < |rest| {
      FirstOccurrencesInOrder(init, i, j);
      var a, b :| 0 <= a < b < n && init[a] == rest[i] && init[a] !in init[..a]
                  && init[b] == rest[j] && init[b] !in init[..b];
      assert s[..a] == init[..a] && s[..b] == init[..b];
    } else {
      OccursFirst(init, i);
      var a :| 0 <= a < n && init[a] == rest[i] && init[a] !in init[..a];
      assert s[..a] == init[..a] && s[n] !in s[..n];
    }
  }

  lemma {:induction false} FirstPlace<T>(s: seq<T>, x: T)
    requires x in s
    ensures exists a | 0 <= a < |s| :: s[a] == x && s[a] !in s[..a]
  {
    var n := |s| - 1;
    if x in s[..n] {
      FirstPlace(s[..n], x);
      var a :| 0 <= a < n && s[..n][a] == x && s[..n][a] !in s[..n][..a];
      assert s[..a] == s[..n][..a];
    } else {
      assert s == s[..n] + [s[n]];
      assert s[n] == x;
    }
  }

  /** sorted() of a set. */
  method SortedSet<T(!new, ==)>(s: set<T>, less: (T, T) -> bool) returns (r: seq<T>)
    requires StrictOrder(less)
    ensures Ascending(r, less)
    ensures forall y :: y in r <==> y in s
  {
    r := [];
    var rest := s;
    while rest != {}
      invariant rest <= s && Ascending(r, less)
      invariant forall y :: y in r <==> y in s && y !in rest
    {
      var x :| x in rest;
      InsertSortedCorrect(r, x, less);
      r := InsertSorted(r, x, less);
      rest := rest - {x};
    }
  }

  ghost predicate WeakOrder<T(!new)>(less: (T, T) -> bool) {
    && (forall a, b :: less(a, b) ==> !less(b, a))
    && (forall a, b, c :: !less(b, a) && !less(c, b) ==> !less(c, a))
  }

  ghost predicate Nondecreasing<T>(s: seq<T>, less: (T, T) -> bool) {
    forall i, j | 0 <= i < j < |s| :: !less(s[j], s[i])
  }

  /** One insertion of a stable sort: behind every element that is not greater. */
  function InsertStable<T>(s: seq<T>, x: T, less: (T, T) -> bool): seq<T> {
    if s == [] then [x]
    else if less(x, s[|s| - 1]) then InsertStable(s[..|s| - 1], x, less) + [s[|s| - 1]]
    else s + [x]
  }

  function StableSort<T>(s: seq<T>, less: (T, T) -> bool): seq<T> {
    if s == [] then [] else InsertStable(StableSort(s[..|s| - 1], less), s[|s| - 1], less)
  }

  lemma {:induction false} InsertStableCorrect<T(!new)>(s: seq<T>, x: T, less: (T, T) -> bool)
    requires WeakOrder(less) && Nondecreasing(s, less)
    ensures Nondecreasing(InsertStable(s, x, less), less)
    ensures multiset(InsertStable(s, x, less)) == multiset(s) + multiset{x}
  {
    if s != [] {
      var front, last := s[..|s| - 1], s[|s| - 1];
      assert s == front + [last];
      if less(x, last) {
        InsertStableCorrect(front, x, less);
        var r := InsertStable(front, x, less);
        forall i | 0 <= i < |r| ensures !less(last, r[i]) {
          assert r[i] in multiset(r);
          assert r[i] == x || r[i] in front;
        }
      } else {
        forall i | 0 <= i < |s| ensures !less(x, s[i]) {
          assert i == |s| - 1 || !less(last, s[i]);
        }
      }
    }
  }

  /** Sorting keeps every element as often as it occurs. */
  lemma {:induction false} StableSortCorrect<T(!new)>(s: seq<T>, less: (T, T) -> bool)
    requires WeakOrder(less)
    ensures Nondecreasing(StableSort(s, less), less)
    ensures multiset(StableSort(s, less)) == multiset(s)
  {
    if s != [] {
      StableSortCorrect(s[..|s| - 1], less);
      InsertStableCorrect(StableSort(s[..|s| - 1], less), s[|s| - 1], less);
      assert s == s[..|s| - 1] + [s[|s| - 1]];
    }
  }

  function Pow2(n: nat): nat {
    if n == 0 then 1 else 2 * Pow2(n - 1)
  }

  lemma {:induction false} Pow2Add(a: nat, b: nat)
    ensures Pow2(a + b) == Pow2(a) * Pow2(b)
    ensures Pow2(a) >= 1
  {
    if a > 0 {
      Pow2Add(a - 1, b);
      assert a - 1 + b == a + b - 1;
    }
  }
}

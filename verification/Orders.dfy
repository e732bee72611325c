/** Strict total orders and sorting, shared by every component that puts records in order. */
module Orders {

  datatype Option<+T> = None | Some(value: T)

  ghost predicate StrictOrder<T(!new)>(less: (T, T) -> bool) {
    && (forall x :: !less(x, x))
    && (forall x, y, z :: less(x, y) && less(y, z) ==> less(x, z))
  }

  ghost predicate StrictTotalOrder<T(!new)>(less: (T, T) -> bool) {
    StrictOrder(less) && forall x, y :: x == y || less(x, y) || less(y, x)
  }

  /** No element is preceded by one that must come after it. */
  ghost predicate Sorted<T>(less: (T, T) -> bool, s: seq<T>) {
    forall i, j :: 0 <= i < j < |s| ==> !less(s[j], s[i])
  }

  function Insert<T>(less: (T, T) -> bool, x: T, s: seq<T>): seq<T> {
    if s == [] then [x]
    else if less(x, s[0]) then [x] + s
    else [s[0]] + Insert(less, x, s[1..])
  }

  /** What a comparison sort returns; SortedUnique shows the algorithm behind it does not matter. */
  function Sort<T>(less: (T, T) -> bool, s: seq<T>): seq<T> {
    if s == [] then [] else Insert(less, s[0], Sort(less, s[1..]))
  }

  lemma {:induction false} InsertLength<T>(less: (T, T) -> bool, x: T, s: seq<T>)
    ensures |Insert(less, x, s)| == |s| + 1
  {
    if s != [] { InsertLength(less, x, s[1..]); }
  }

  lemma {:induction false} SortLength<T>(less: (T, T) -> bool, s: seq<T>)
    ensures |Sort(less, s)| == |s|
  {
    if s != [] {
      SortLength(less, s[1..]);
      InsertLength(less, s[0], Sort(less, s[1..]));
    }
  }

  lemma {:induction false} InsertKeeps<T>(less: (T, T) -> bool, x: T, s: seq<T>)
    ensures multiset(Insert(less, x, s)) == multiset(s) + multiset{x}
  {
    if s != [] {
      assert s == [s[0]] + s[1..];
      if !less(x, s[0]) { InsertKeeps(less, x, s[1..]); }
    }
  }

  lemma {:induction false} InsertSorts<T(!new)>(less: (T, T) -> bool, x: T, s: seq<T>)
    requires StrictOrder(less) && Sorted(less, s)
    ensures Sorted(less, Insert(less, x, s))
  {
    if s != [] && !less(x, s[0]) {
      InsertSorts(less, x, s[1..]);
      InsertKeeps(less, x, s[1..]);
      var rest := Insert(less, x, s[1..]);
      forall i | 0 <= i < |rest| ensures !less(rest[i], s[0]) {
        assert rest[i] in multiset(rest);
        assert rest[i] == x || rest[i] in s[1..];
      }
    }
  }

  lemma {:induction false} SortSorts<T(!new)>(less: (T, T) -> bool, s: seq<T>)
    requires StrictOrder(less)
    ensures Sorted(less, Sort(less, s))
    ensures multiset(Sort(less, s)) == multiset(s)
  {
    if s != [] {
      SortSorts(less, s[1..]);
      InsertSorts(less, s[0], Sort(less, s[1..]));
      InsertKeeps(less, s[0], Sort(less, s[1..]));
      assert s == [s[0]] + s[1..];
    }
  }

  /** Elements the order tells apart have one sorted listing. */
  ghost predicate Comparable<T(!new)>(less: (T, T) -> bool, s: seq<T>) {
    forall x, y :: x in s && y in s ==> x == y || less(x, y) || less(y, x)
  }

  lemma TailOf<T(!new)>(less: (T, T) -> bool, s: seq<T>)
    requires s != [] && Sorted(less, s) && Comparable(less, s)
    ensures Sorted(less, s[1..]) && Comparable(less, s[1..])
    ensures multiset(s[1..]) == multiset(s) - multiset{s[0]} && s == [s[0]] + s[1..]
  {
    assert s == [s[0]] + s[1..];
    assert forall x :: x in s[1..] ==> x in s;
  }

  lemma ComparableToo<T(!new)>(less: (T, T) -> bool, a: seq<T>, b: seq<T>)
    requires Comparable(less, a) && multiset(a) == multiset(b)
    ensures Comparable(less, b)
  {
    assert forall x :: x in b ==> x in multiset(a);
  }

  lemma {:induction false} SortedAlike<T(!new)>(less: (T, T) -> bool, a: seq<T>, b: seq<T>)
    requires Sorted(less, a) && Sorted(less, b) && Comparable(less, a) && Comparable(less, b)
    requires multiset(a) == multiset(b)
    ensures a == b
  {
    assert |a| == |multiset(a)| == |multiset(b)| == |b|;
    if a != [] {
      SameHead(less, a, b);
      TailOf(less, a);
      TailOf(less, b);
      SortedAlike(less, a[1..], b[1..]);
    }
  }

  /** Where the records of a list are comparable, it has one sorted order. */
  lemma SortedUnique<T(!new)>(less: (T, T) -> bool, a: seq<T>, b: seq<T>)
    requires StrictOrder(less) && Sorted(less, a) && Sorted(less, b)
    requires forall x, y :: x in a && y in a ==> x == y || less(x, y) || less(y, x)
    requires multiset(a) == multiset(b)
    ensures a == b
  {
    ComparableToo(less, a, b);
    SortedAlike(less, a, b);
  }

  lemma SameHead<T(!new)>(less: (T, T) -> bool, a: seq<T>, b: seq<T>)
    requires Sorted(less, a) && Sorted(less, b) && a != [] && b != []
    requires forall x, y :: x in a && y in a ==> x == y || less(x, y) || less(y, x)
    requires multiset(a) == multiset(b)
    ensures a[0] == b[0]
  {
    assert a[0] in multiset(b) && b[0] in multiset(a);
    var i :| 0 <= i < |b| && b[i] == a[0];
    var j :| 0 <= j < |a| && a[j] == b[0];
    assert i > 0 ==> !less(b[i], b[0]);
    assert j > 0 ==> !less(a[j], a[0]);
  }

  // ---------- strings ----------

  /** The order of strings by their characters. */
  predicate Less(a: string, b: string) {
    b != [] && (a == [] || a[0] < b[0] || (a[0] == b[0] && Less(a[1..], b[1..])))
  }

  lemma {:induction false} LessTotal(a: string, b: string)
    ensures !Less(a, a)
    ensures a == b || Less(a, b) || Less(b, a)
    decreases |a|
  {
    if a != [] {
      LessTotal(a[1..], if b == [] then [] else b[1..]);
      assert b != [] && a[0] == b[0] && a[1..] == b[1..] ==> [a[0]] + a[1..] == [b[0]] + b[1..];
      assert a == [a[0]] + a[1..] && (b != [] ==> b == [b[0]] + b[1..]);
    }
  }

  lemma {:induction false} LessTransitive(a: string, b: string, c: string)
    requires Less(a, b) && Less(b, c)
    ensures Less(a, c)
    decreases |b|
  {
    if a != [] && a[0] == b[0] == c[0] { LessTransitive(a[1..], b[1..], c[1..]); }
  }

  lemma LessIsOrder()
    ensures StrictTotalOrder(Less)
  {
    forall a, b ensures !Less(a, a) && (a == b || Less(a, b) || Less(b, a)) { LessTotal(a, b); }
    forall a, b, c | Less(a, b) && Less(b, c) ensures Less(a, c) { LessTransitive(a, b, c); }
  }
}

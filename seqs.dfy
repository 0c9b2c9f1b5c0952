/** Order-preserving collection operations: what Laravel's `Collection::filter`, `map`,
  * `first`/`firstWhere` and `search` do on the lists the core works with. */
module Seqs {
  import opened Wrappers

  /** `filter`: keeps, in order, the elements that satisfy `f`. */
  function Filter<T(!new)>(s: seq<T>, f: T -> bool): (r: seq<T>)
    ensures |r| <= |s|
    ensures forall x :: x in r <==> x in s && f(x)
    decreases |s|
  {
    if |s| == 0 then [] else (if f(s[0]) then [s[0]] else []) + Filter(s[1..], f)
  }

  /** Filtering a concatenation filters each part: the kept elements stay in their order. */
  lemma {:induction false} FilterConcat<T(!new)>(a: seq<T>, b: seq<T>, f: T -> bool)
    ensures Filter(a + b, f) == Filter(a, f) + Filter(b, f)
    decreases |a|
  {
    if |a| > 0 {
      assert (a + b)[0] == a[0];
      assert (a + b)[1..] == a[1..] + b;
      FilterConcat(a[1..], b, f);
      var head := if f(a[0]) then [a[0]] else [];
      assert Filter(a + b, f) == head + (Filter(a[1..], f) + Filter(b, f));
    } else {
      assert a + b == b;
    }
  }

  /** Filtering one more element at the end. */
  lemma {:induction false} FilterSnoc<T(!new)>(a: seq<T>, x: T, f: T -> bool)
    ensures Filter(a + [x], f) == Filter(a, f) + (if f(x) then [x] else [])
  {
    FilterConcat(a, [x], f);
  }

  /** A filter keeps every copy of an element that passes and none of one that fails. */
  lemma {:induction false} FilterCount<T(!new)>(s: seq<T>, f: T -> bool, y: T)
    ensures multiset(Filter(s, f))[y] == if f(y) then multiset(s)[y] else 0
    decreases |s|
  {
    if |s| > 0 {
      var t := s[1..];
      FilterCount(t, f, y);
      assert s == [s[0]] + t;
      assert Filter(s, f) == (if f(s[0]) then [s[0]] else []) + Filter(t, f);
    }
  }

  /** A filter and its negation split a sequence into two parts that together hold every element. */
  lemma {:induction false} FilterPartition<T(!new)>(s: seq<T>, f: T -> bool, g: T -> bool)
    requires forall x :: g(x) == !f(x)
    ensures multiset(Filter(s, f)) + multiset(Filter(s, g)) == multiset(s)
  {
    forall y ensures (multiset(Filter(s, f)) + multiset(Filter(s, g)))[y] == multiset(s)[y] {
      FilterCount(s, f, y);
      FilterCount(s, g, y);
    }
  }

  /** Two filters in a row keep what satisfies both. */
  lemma {:induction false} FilterFilter<T(!new)>(s: seq<T>, f: T -> bool, g: T -> bool, h: T -> bool)
    requires forall x :: h(x) == (f(x) && g(x))
    ensures Filter(Filter(s, f), g) == Filter(s, h)
    decreases |s|
  {
    if |s| > 0 {
      FilterFilter(s[1..], f, g, h);
      var head := if f(s[0]) then [s[0]] else [];
      FilterConcat(head, Filter(s[1..], f), g);
    }
  }

  /** A filter that every element passes keeps the whole sequence. */
  lemma {:induction false} FilterAll<T(!new)>(s: seq<T>, f: T -> bool)
    requires forall x :: x in s ==> f(x)
    ensures Filter(s, f) == s
    decreases |s|
  {
    if |s| > 0 {
      FilterAll(s[1..], f);
    }
  }

  /** `map`. */
  function Map<T, U>(s: seq<T>, f: T -> U): (r: seq<U>)
    ensures |r| == |s|
    ensures forall i :: 0 <= i < |s| ==> r[i] == f(s[i])
  {
    seq(|s|, i requires 0 <= i < |s| => f(s[i]))
  }

  lemma {:induction false} MapConcat<T, U>(a: seq<T>, b: seq<T>, f: T -> U)
    ensures Map(a + b, f) == Map(a, f) + Map(b, f)
  {
  }

  /** `search`: the position of the first element that satisfies `f`, or `None`. */
  function FindIndex<T(!new)>(s: seq<T>, f: T -> bool): (r: Option<nat>)
    ensures r.Some? ==> r.value < |s| && f(s[r.value]) && forall j :: 0 <= j < r.value ==> !f(s[j])
    ensures r.None? <==> forall x :: x in s ==> !f(x)
    decreases |s|
  {
    if |s| == 0 then None
    else if f(s[0]) then Some(0)
    else
      match FindIndex(s[1..], f)
      case None => None
      case Some(i) => Some(i + 1)
  }

  /** `first`: the first element that satisfies `f`, or `None` (PHP's `null`). */
  function First<T(!new)>(s: seq<T>, f: T -> bool): (r: Option<T>)
    ensures r.Some? ==> r.value in s && f(r.value)
    ensures r.None? <==> forall x :: x in s ==> !f(x)
    ensures r.Some? ==> exists i :: 0 <= i < |s| && s[i] == r.value && forall j :: 0 <= j < i ==> !f(s[j])
  {
    match FindIndex(s, f)
    case None => None
    case Some(i) => Some(s[i])
  }

  /** Skipping a first element that fails the test does not change what `first` finds. */
  lemma {:induction false} FirstSkip<T(!new)>(s: seq<T>, f: T -> bool)
    requires |s| > 0 && !f(s[0])
    ensures First(s, f) == First(s[1..], f)
  {
    match FindIndex(s[1..], f)
    case None =>
    case Some(i) => assert s[i + 1] == s[1..][i];
  }

  /** `filter(f)->first(g)` finds the first element satisfying both. */
  lemma {:induction false} FirstOfFilter<T(!new)>(s: seq<T>, f: T -> bool, g: T -> bool, h: T -> bool)
    requires forall x :: h(x) == (f(x) && g(x))
    ensures First(Filter(s, f), g) == First(s, h)
    decreases |s|
  {
    if |s| > 0 {
      FirstOfFilter(s[1..], f, g, h);
      var rest := Filter(s[1..], f);
      if f(s[0]) {
        assert Filter(s, f) == [s[0]] + rest;
        if !g(s[0]) {
          assert ([s[0]] + rest)[1..] == rest;
          FirstSkip([s[0]] + rest, g);
          FirstSkip(s, h);
        }
      } else {
        assert Filter(s, f) == rest;
        FirstSkip(s, h);
      }
    }
  }

  /** `map` with a step that may throw: every result in order, or the first step's error. */
  function Traverse<T, U, E>(s: seq<T>, f: T -> Result<U, E>): (r: Result<seq<U>, E>)
    ensures r.Ok? <==> forall i :: 0 <= i < |s| ==> f(s[i]).Ok?
    ensures r.Ok? ==> |r.value| == |s| && forall i :: 0 <= i < |s| ==> r.value[i] == f(s[i]).value
    ensures r.Err? ==> exists i :: 0 <= i < |s| && f(s[i]).Err? && r.error == f(s[i]).error
                                   && forall j :: 0 <= j < i ==> f(s[j]).Ok?
    decreases |s|
  {
    if |s| == 0 then Ok([])
    else
      match f(s[0])
      case Err(e) => Err(e)
      case Ok(x) =>
        match Traverse(s[1..], f)
        case Err(e) =>
          assert forall j :: 1 <= j < |s| ==> s[j] == s[1..][j - 1];
          Err(e)
        case Ok(xs) => Ok([x] + xs)
  }

  /** Growing a prefix by one appends the next element. */
  lemma {:induction false} TakeNext<T>(s: seq<T>, i: nat)
    requires i < |s|
    ensures s[..i + 1] == s[..i] + [s[i]]
  {
  }

  /** The prefix of full length is the whole sequence. */
  lemma {:induction false} TakeAll<T>(s: seq<T>)
    ensures s[..|s|] == s
  {
  }

  /** Appending the next element of `s` to `a + s[..i]` gives `a + s[..i + 1]`. */
  lemma {:induction false} AppendNext<T>(a: seq<T>, s: seq<T>, i: nat)
    requires i < |s|
    ensures a + s[..i] + [s[i]] == a + s[..i + 1]
  {
    TakeNext(s, i);
  }

  /** Some element of `s` satisfies `f`. */
  predicate Any<T>(s: seq<T>, f: T -> bool) {
    exists i :: 0 <= i < |s| && f(s[i])
  }

  /** One more element satisfies `f`'s search iff it or an earlier one does. */
  lemma {:induction false} AnySnoc<T>(s: seq<T>, x: T, f: T -> bool)
    ensures Any(s + [x], f) <==> Any(s, f) || f(x)
  {
    if Any(s + [x], f) && !f(x) {
      var i :| 0 <= i < |s + [x]| && f((s + [x])[i]);
      assert i < |s| && (s + [x])[i] == s[i];
    }
    if Any(s, f) {
      var i :| 0 <= i < |s| && f(s[i]);
      assert (s + [x])[i] == s[i];
    }
    assert (s + [x])[|s|] == x;
  }

  /** Concatenation is associative. */
  lemma {:induction false} AppendAssoc<T>(a: seq<T>, b: seq<T>, c: seq<T>)
    ensures a + (b + c) == a + b + c
  {
  }

  predicate Distinct<T(==)>(s: seq<T>) {
    forall i, j :: 0 <= i < j < |s| ==> s[i] != s[j]
  }

  /** Appending a new element keeps a sequence free of repeats. */
  lemma {:induction false} DistinctAppend<T>(s: seq<T>, x: T)
    requires Distinct(s) && x !in s
    ensures Distinct(s + [x])
  {
    var t := s + [x];
    forall i, j | 0 <= i < j < |t| ensures t[i] != t[j] {
      if j == |s| { assert t[i] == s[i]; }
    }
  }

  /** Dropping the last element of a sequence free of repeats leaves one without it, holding
    * every other element. */
  lemma {:induction false} DistinctInit<T>(s: seq<T>, k: T)
    requires Distinct(s) && k in s
    ensures Distinct(s[..|s| - 1]) && s[|s| - 1] !in s[..|s| - 1]
    ensures k != s[|s| - 1] ==> k in s[..|s| - 1]
  {
    var t := s[..|s| - 1];
    assert forall i :: 0 <= i < |t| ==> t[i] == s[i];
    if k != s[|s| - 1] {
      var i :| 0 <= i < |s| && s[i] == k;
      assert t[i] == k;
    }
  }
}

/** A PHP array keyed by string, as the list of its values in array order: `a[key] = x`
  * replaces the value under an existing key in its slot and appends under a new key. */
module Keyed {
  import opened Wrappers
  import opened Seqs

  function Keys<T>(a: seq<T>, key: T -> string): (r: seq<string>)
    ensures |r| == |a|
    ensures forall i :: 0 <= i < |a| ==> r[i] == key(a[i])
  {
    Map(a, key)
  }

  predicate HasKey<T>(a: seq<T>, key: T -> string, k: string) {
    exists i :: 0 <= i < |a| && key(a[i]) == k
  }

  /** Every key occurs at most once. */
  predicate UniqueKeys<T>(a: seq<T>, key: T -> string) {
    forall i, j :: 0 <= i < j < |a| ==> key(a[i]) != key(a[j])
  }

  /** The position of key `k`. */
  function Slot<T>(a: seq<T>, key: T -> string, k: string): (r: Option<nat>)
    ensures r.Some? ==> r.value < |a| && key(a[r.value]) == k && forall j :: 0 <= j < r.value ==> key(a[j]) != k
    ensures r.None? <==> !HasKey(a, key, k)
    decreases |a|
  {
    if |a| == 0 then None
    else if key(a[0]) == k then Some(0)
    else
      match Slot(a[1..], key, k)
      case None => None
      case Some(i) => Some(i + 1)
  }

  /** The slot is the first position holding the key. */
  lemma {:induction false} SlotAt<T>(a: seq<T>, key: T -> string, k: string, i: nat)
    requires i < |a| && key(a[i]) == k
    requires forall j :: 0 <= j < i ==> key(a[j]) != k
    ensures Slot(a, key, k) == Some(i)
    decreases i
  {
    if i > 0 {
      SlotAt(a[1..], key, k, i - 1);
    }
  }

  /** `a[k]`, or `None` when `k` is not a key. */
  function Lookup<T>(a: seq<T>, key: T -> string, k: string): (r: Option<T>)
    ensures r.Some? <==> HasKey(a, key, k)
    ensures r.Some? ==> r.value in a && key(r.value) == k
  {
    match Slot(a, key, k)
    case None => None
    case Some(i) => Some(a[i])
  }

  /** `a[key(x)] = x`. */
  function Put<T>(a: seq<T>, key: T -> string, x: T): (r: seq<T>)
    ensures HasKey(a, key, key(x)) ==> |r| == |a| && r == a[Slot(a, key, key(x)).value := x]
    ensures !HasKey(a, key, key(x)) ==> r == a + [x]
  {
    match Slot(a, key, key(x))
    case None => a + [x]
    case Some(i) => a[i := x]
  }

  /** After `a[key(x)] = x` the key holds `x`; every other key holds what it held. */
  lemma {:induction false} LookupPut<T>(a: seq<T>, key: T -> string, x: T, k: string)
    requires UniqueKeys(a, key)
    ensures Lookup(Put(a, key, x), key, k) == if k == key(x) then Some(x) else Lookup(a, key, k)
  {
    var r := Put(a, key, x);
    match Slot(a, key, key(x))
    case None =>
      if k == key(x) {
        assert key(r[|a|]) == k;
      } else {
        var s := Slot(a, key, k);
        if s.Some? {
          SlotAt(r, key, k, s.value);
        } else {
          assert !HasKey(r, key, k);
        }
      }
    case Some(i) =>
      if k == key(x) {
        SlotAt(r, key, k, i);
      } else {
        var s := Slot(a, key, k);
        if s.Some? {
          assert s.value != i;
          SlotAt(r, key, k, s.value);
        } else {
          assert !HasKey(r, key, k);
        }
      }
  }

  /** `a[key(x)] = x` keeps keys unique. */
  lemma {:induction false} PutUnique<T>(a: seq<T>, key: T -> string, x: T)
    requires UniqueKeys(a, key)
    ensures UniqueKeys(Put(a, key, x), key)
  {
  }

  /** The keys after `a[key(x)] = x` are the old keys plus `key(x)`. */
  lemma {:induction false} PutKeys<T>(a: seq<T>, key: T -> string, x: T, k: string)
    ensures HasKey(Put(a, key, x), key, k) <==> HasKey(a, key, k) || k == key(x)
  {
    var r := Put(a, key, x);
    if HasKey(a, key, k) && k != key(x) {
      var i :| 0 <= i < |a| && key(a[i]) == k;
      assert key(r[i]) == k;
    }
    if k == key(x) {
      var s := Slot(a, key, k);
      if s.Some? {
        assert key(r[s.value]) == k;
      } else {
        assert key(r[|a|]) == k;
      }
    }
  }
}

/** Laravel's `sortBy` on a small integer key: a stable sort, written as an insertion sort. */
module Sorting {
  /** The elements of key `k`, in order. */
  function Block<T>(s: seq<T>, rank: T -> nat, k: nat): (r: seq<T>)
    ensures forall y :: y in r ==> y in s && rank(y) == k
    decreases |s|
  {
    if |s| == 0 then []
    else Block(s[..|s| - 1], rank, k) + (if rank(s[|s| - 1]) == k then [s[|s| - 1]] else [])
  }

  /** Inserts `x` after the trailing elements whose key is not above its own. */
  function InsertBy<T>(s: seq<T>, x: T, rank: T -> nat): (r: seq<T>)
    decreases |s|
  {
    if |s| == 0 || rank(s[|s| - 1]) <= rank(x) then s + [x]
    else InsertBy(s[..|s| - 1], x, rank) + [s[|s| - 1]]
  }

  function SortBy<T>(s: seq<T>, rank: T -> nat): (r: seq<T>)
    decreases |s|
  {
    if |s| == 0 then [] else InsertBy(SortBy(s[..|s| - 1], rank), s[|s| - 1], rank)
  }

  predicate SortedBy<T>(s: seq<T>, rank: T -> nat) {
    forall i, j :: 0 <= i < j < |s| ==> rank(s[i]) <= rank(s[j])
  }

  lemma {:induction false} InsertByPermutes<T>(s: seq<T>, x: T, rank: T -> nat)
    ensures multiset(InsertBy(s, x, rank)) == multiset(s) + multiset{x}
    decreases |s|
  {
    if |s| > 0 && rank(s[|s| - 1]) > rank(x) {
      InsertByPermutes(s[..|s| - 1], x, rank);
      assert s == s[..|s| - 1] + [s[|s| - 1]];
    }
  }

  /** The sort rearranges the elements and neither adds nor drops any. */
  lemma {:induction false} SortByPermutes<T>(s: seq<T>, rank: T -> nat)
    ensures multiset(SortBy(s, rank)) == multiset(s)
    decreases |s|
  {
    if |s| > 0 {
      SortByPermutes(s[..|s| - 1], rank);
      InsertByPermutes(SortBy(s[..|s| - 1], rank), s[|s| - 1], rank);
      assert s == s[..|s| - 1] + [s[|s| - 1]];
    }
  }

  lemma {:induction false} InsertPastTail<T>(a: seq<T>, t: seq<T>, x: T, rank: T -> nat)
    requires forall y :: y in t ==> rank(y) > rank(x)
    requires |a| > 0 ==> rank(a[|a| - 1]) <= rank(x)
    ensures InsertBy(a + t, x, rank) == a + [x] + t
    decreases |t|
  {
    if |t| == 0 {
      assert a + t == a;
    } else {
      var s := a + t;
      var last := t[|t| - 1];
      assert s[|s| - 1] == last && last in t;
      assert s[..|s| - 1] == a + t[..|t| - 1];
      forall y | y in t[..|t| - 1] ensures rank(y) > rank(x) {
        assert y in t;
      }
      InsertPastTail(a, t[..|t| - 1], x, rank);
      assert a + [x] + t[..|t| - 1] + [last] == a + [x] + t;
    }
  }

  /** The three blocks of a key bounded by 2. */
  function Blocks3<T>(s: seq<T>, rank: T -> nat): seq<T> {
    Block(s, rank, 0) + Block(s, rank, 1) + Block(s, rank, 2)
  }

  lemma {:induction false} BlockSnoc<T>(s: seq<T>, x: T, rank: T -> nat, k: nat)
    ensures Block(s + [x], rank, k) == Block(s, rank, k) + (if rank(x) == k then [x] else [])
  {
    assert (s + [x])[..|s + [x]| - 1] == s;
  }

  /** The last element of a concatenation of blocks of keys at most `m` has key at most `m`. */
  lemma {:induction false} LastAtMost<T>(a: seq<T>, rank: T -> nat, m: nat)
    requires forall y :: y in a ==> rank(y) <= m
    ensures |a| > 0 ==> rank(a[|a| - 1]) <= m
  {
    if |a| > 0 {
      assert a[|a| - 1] in a;
    }
  }

  lemma {:induction false} InsertIntoBlocks3<T>(s: seq<T>, x: T, rank: T -> nat)
    requires rank(x) <= 2
    ensures InsertBy(Blocks3(s, rank), x, rank) == Blocks3(s + [x], rank)
  {
    BlockSnoc(s, x, rank, 0);
    BlockSnoc(s, x, rank, 1);
    BlockSnoc(s, x, rank, 2);
    var b0, b1, b2 := Block(s, rank, 0), Block(s, rank, 1), Block(s, rank, 2);
    var t := s + [x];
    assert Blocks3(s, rank) == b0 + b1 + b2;
    if rank(x) == 2 {
      assert Block(t, rank, 0) == b0 && Block(t, rank, 1) == b1 && Block(t, rank, 2) == b2 + [x];
      InsertAfterThirdBlock(b0, b1, b2, x, rank);
    } else if rank(x) == 1 {
      assert Block(t, rank, 0) == b0 && Block(t, rank, 1) == b1 + [x] && Block(t, rank, 2) == b2;
      InsertAfterSecondBlock(b0, b1, b2, x, rank);
    } else {
      assert Block(t, rank, 0) == b0 + [x] && Block(t, rank, 1) == b1 && Block(t, rank, 2) == b2;
      InsertAfterFirstBlock(b0, b1, b2, x, rank);
    }
  }

  lemma {:induction false} InsertAfterThirdBlock<T>(b0: seq<T>, b1: seq<T>, b2: seq<T>, x: T, rank: T -> nat)
    requires rank(x) == 2
    requires forall y :: y in b0 ==> rank(y) == 0
    requires forall y :: y in b1 ==> rank(y) == 1
    requires forall y :: y in b2 ==> rank(y) == 2
    ensures InsertBy(b0 + b1 + b2, x, rank) == b0 + b1 + (b2 + [x])
  {
    var b := b0 + b1 + b2;
    LastAtMost(b, rank, 2);
    InsertPastTail(b, [], x, rank);
    assert b + [x] + [] == b0 + b1 + (b2 + [x]);
  }

  lemma {:induction false} InsertAfterSecondBlock<T>(b0: seq<T>, b1: seq<T>, b2: seq<T>, x: T, rank: T -> nat)
    requires rank(x) == 1
    requires forall y :: y in b0 ==> rank(y) == 0
    requires forall y :: y in b1 ==> rank(y) == 1
    requires forall y :: y in b2 ==> rank(y) == 2
    ensures InsertBy(b0 + b1 + b2, x, rank) == b0 + (b1 + [x]) + b2
  {
    var a := b0 + b1;
    LastAtMost(a, rank, 1);
    InsertPastTail(a, b2, x, rank);
    assert a + [x] + b2 == b0 + (b1 + [x]) + b2;
  }

  lemma {:induction false} InsertAfterFirstBlock<T>(b0: seq<T>, b1: seq<T>, b2: seq<T>, x: T, rank: T -> nat)
    requires rank(x) == 0
    requires forall y :: y in b0 ==> rank(y) == 0
    requires forall y :: y in b1 ==> rank(y) == 1
    requires forall y :: y in b2 ==> rank(y) == 2
    ensures InsertBy(b0 + b1 + b2, x, rank) == (b0 + [x]) + b1 + b2
  {
    LastAtMost(b0, rank, 0);
    InsertPastTail(b0, b1 + b2, x, rank);
    assert b0 + [x] + (b1 + b2) == (b0 + [x]) + b1 + b2;
    assert b0 + b1 + b2 == b0 + (b1 + b2);
  }

  /** A stable sort on a key bounded by 2: first every element of key 0, then key 1, then
    * key 2, each block in the original order. */
  lemma {:induction false} SortByBlocks3<T>(s: seq<T>, rank: T -> nat)
    requires forall y :: y in s ==> rank(y) <= 2
    ensures SortBy(s, rank) == Blocks3(s, rank)
    decreases |s|
  {
    if |s| > 0 {
      var init := s[..|s| - 1];
      assert s == init + [s[|s| - 1]];
      SortByBlocks3(init, rank);
      InsertIntoBlocks3(init, s[|s| - 1], rank);
    }
  }

  lemma {:induction false} Blocks3Sorted<T>(s: seq<T>, rank: T -> nat)
    ensures SortedBy(Blocks3(s, rank), rank)
  {
    var b0, b1, b2 := Block(s, rank, 0), Block(s, rank, 1), Block(s, rank, 2);
    var r := b0 + b1 + b2;
    forall i, j | 0 <= i < j < |r| ensures rank(r[i]) <= rank(r[j]) {
      if i < |b0| {
        assert r[i] in b0;
      } else if j < |b0| + |b1| {
        assert r[i] == b1[i - |b0|] && r[j] == b1[j - |b0|];
        assert r[i] in b1 && r[j] in b1;
      } else {
        assert r[j] == b2[j - |b0| - |b1|] && r[j] in b2;
        if i < |b0| + |b1| {
          assert r[i] == b1[i - |b0|] && r[i] in b1;
        } else {
          assert r[i] == b2[i - |b0| - |b1|] && r[i] in b2;
        }
      }
    }
  }
}

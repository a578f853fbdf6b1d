/** Shared vocabulary of the model: optional values, results with an error
    message key, row identifiers, and the few sequence operations the record
    tables are specified with (filtering, counting, first match, reversal and
    duplicate removal). */
module Base {

  /** A row identifier of the document database (`_id`). Inserts hand out
      increasing numbers, which also stand for the creation order. */
  type Id = nat

  datatype Option<+T> = None | Some(value: T)

  /** The `{ success, messageKey }` shape of the mutations: a value, or the
      message key that explains the failure. */
  datatype Result<+T> = Ok(value: T) | Err(messageKey: string)

  /** The elements of `s` that satisfy `p`, in their original order. */
  function Filter<T(!new)>(s: seq<T>, p: T -> bool): (r: seq<T>)
    ensures |r| <= |s|
    ensures forall x :: x in r <==> x in s && p(x)
    ensures forall i :: 0 <= i < |r| ==> p(r[i])
  {
    if s == [] then []
    else if p(s[0]) then [s[0]] + Filter(s[1..], p)
    else Filter(s[1..], p)
  }

  /** How many elements of `s` satisfy `p`. */
  function Count<T>(s: seq<T>, p: T -> bool): (n: nat)
    ensures n <= |s|
  {
    if s == [] then 0
    else (if p(s[0]) then 1 else 0) + Count(s[1..], p)
  }

  lemma {:induction false} FilterAppend<T(!new)>(a: seq<T>, b: seq<T>, p: T -> bool)
    ensures Filter(a + b, p) == Filter(a, p) + Filter(b, p)
  {
    if a == [] {
      assert a + b == b;
    } else {
      var t := a[1..];
      assert (a + b)[0] == a[0] && (a + b)[1..] == t + b;
      FilterAppend(t, b, p);
      if p(a[0]) {
        calc {
          Filter(a + b, p);
          [a[0]] + Filter(t + b, p);
          [a[0]] + (Filter(t, p) + Filter(b, p));
          { AppendAssoc([a[0]], Filter(t, p), Filter(b, p)); }
          ([a[0]] + Filter(t, p)) + Filter(b, p);
        }
      }
    }
  }

  lemma {:induction false} CountAppend<T>(a: seq<T>, b: seq<T>, p: T -> bool)
    ensures Count(a + b, p) == Count(a, p) + Count(b, p)
  {
    if a == [] {
      assert a + b == b;
    } else {
      assert (a + b)[1..] == a[1..] + b;
      CountAppend(a[1..], b, p);
    }
  }

  /** One more element at the end: filtering keeps it when `keep` holds,
      and counting counts it when `drop` holds (one step of a loop that
      deletes rows one by one). */
  lemma FilterCountSnoc<T(!new)>(s: seq<T>, x: T, keep: T -> bool, drop: T -> bool)
    ensures Filter(s + [x], keep) == if keep(x) then Filter(s, keep) + [x] else Filter(s, keep)
    ensures Count(s + [x], drop) == Count(s, drop) + if drop(x) then 1 else 0
  {
    FilterAppend(s, [x], keep);
    CountAppend(s, [x], drop);
  }

  /** Replacing one element by another that `p` judges alike keeps the
      count. */
  lemma {:induction false} CountUpdate<T>(s: seq<T>, k: nat, x: T, p: T -> bool)
    requires k < |s| && p(x) == p(s[k])
    ensures Count(s[k := x], p) == Count(s, p)
  {
    if k > 0 {
      CountUpdate(s[1..], k - 1, x, p);
      assert s[k := x][1..] == s[1..][k - 1 := x];
    } else {
      assert s[k := x][1..] == s[1..];
    }
  }

  /** Counting is the length of the filtered sequence. */
  lemma {:induction false} CountIsFilterLength<T(!new)>(s: seq<T>, p: T -> bool)
    ensures Count(s, p) == |Filter(s, p)|
  {
    if s != [] {
      CountIsFilterLength(s[1..], p);
    }
  }

  /** What a filter keeps and what the complementary count reports add up
      to the whole sequence. */
  lemma {:induction false} FilterCountPartition<T(!new)>(s: seq<T>, keep: T -> bool, drop: T -> bool)
    requires forall x :: drop(x) == !keep(x)
    ensures |Filter(s, keep)| + Count(s, drop) == |s|
  {
    if s != [] {
      FilterCountPartition(s[1..], keep, drop);
    }
  }

  /** Filtering out everything gives the empty sequence. */
  lemma {:induction false} FilterNone<T(!new)>(s: seq<T>, p: T -> bool)
    requires forall x :: x in s ==> !p(x)
    ensures Filter(s, p) == []
  {
    if s != [] {
      FilterNone(s[1..], p);
    }
  }

  /** Filtering twice by the same predicate keeps the same elements. */
  lemma {:induction false} FilterIdempotent<T(!new)>(s: seq<T>, p: T -> bool)
    ensures Filter(Filter(s, p), p) == Filter(s, p)
  {
    if s != [] {
      FilterIdempotent(s[1..], p);
    }
  }

  /** A filter that rejects nothing in `s` leaves `s` as it is. */
  lemma {:induction false} FilterKeepsAll<T(!new)>(s: seq<T>, p: T -> bool)
    requires forall x :: x in s ==> p(x)
    ensures Filter(s, p) == s
  {
    if s != [] {
      FilterKeepsAll(s[1..], p);
    }
  }

  /** Nothing in `s` satisfies `p`, so the count is zero. */
  lemma {:induction false} CountNone<T>(s: seq<T>, p: T -> bool)
    requires forall x :: x in s ==> !p(x)
    ensures Count(s, p) == 0
  {
    if s != [] {
      CountNone(s[1..], p);
    }
  }

  /** The position of the first element that satisfies `p` (what `.first()`
      returns on a query), or None. */
  function FirstIndex<T>(s: seq<T>, p: T -> bool): (r: Option<nat>)
    ensures r.Some? ==> r.value < |s| && p(s[r.value])
    ensures r.Some? ==> forall j :: 0 <= j < r.value ==> !p(s[j])
    ensures r.None? <==> forall j :: 0 <= j < |s| ==> !p(s[j])
  {
    if s == [] then None
    else if p(s[0]) then Some(0)
    else match FirstIndex(s[1..], p)
      case None => None
      case Some(i) => Some(i + 1)
  }

  /** The first position where `p` holds is the one before which it never does. */
  lemma {:induction false} FirstIndexIs<T>(s: seq<T>, p: T -> bool, k: nat)
    requires k < |s| && p(s[k])
    requires forall j :: 0 <= j < k ==> !p(s[j])
    ensures FirstIndex(s, p) == Some(k)
  {
    if k > 0 {
      FirstIndexIs(s[1..], p, k - 1);
    }
  }

  /** The first element that satisfies `p`, or None. */
  function First<T(!new)>(s: seq<T>, p: T -> bool): (r: Option<T>)
    ensures r.Some? ==> r.value in s && p(r.value)
    ensures r.None? <==> forall x :: x in s ==> !p(x)
  {
    match FirstIndex(s, p)
    case None => None
    case Some(i) => Some(s[i])
  }

  /** `s` in the opposite order (a query with `.order('desc')`). */
  function Reverse<T>(s: seq<T>): (r: seq<T>)
    ensures |r| == |s|
    ensures forall i :: 0 <= i < |s| ==> r[i] == s[|s| - 1 - i]
  {
    if s == [] then [] else Reverse(s[1..]) + [s[0]]
  }

  /** `key` strictly grows along `s`. */
  predicate IncreasingBy<T>(s: seq<T>, key: T -> int) {
    forall i, j :: 0 <= i < j < |s| ==> key(s[i]) < key(s[j])
  }

  /** `key` strictly shrinks along `s`. */
  predicate DecreasingBy<T>(s: seq<T>, key: T -> int) {
    forall i, j :: 0 <= i < j < |s| ==> key(s[i]) > key(s[j])
  }

  /** Filtering keeps the order of what it keeps. */
  lemma {:induction false} FilterKeepsIncreasing<T(!new)>(s: seq<T>, p: T -> bool, key: T -> int)
    requires IncreasingBy(s, key)
    ensures IncreasingBy(Filter(s, p), key)
  {
    if s != [] {
      FilterKeepsIncreasing(s[1..], p, key);
      var rest := Filter(s[1..], p);
      forall j | 0 <= j < |rest| ensures key(s[0]) < key(rest[j]) {
        assert rest[j] in s[1..];
        var k :| 0 <= k < |s[1..]| && s[1..][k] == rest[j];
        assert s[k + 1] == rest[j];
      }
    }
  }

  /** Reversing an increasing sequence gives a decreasing one. */
  lemma ReverseOfIncreasing<T>(s: seq<T>, key: T -> int)
    requires IncreasingBy(s, key)
    ensures DecreasingBy(Reverse(s), key)
  {
  }

  predicate NoDuplicates<T(==)>(s: seq<T>) {
    forall i, j :: 0 <= i < j < |s| ==> s[i] != s[j]
  }

  /** The elements of `s` in the order of their first occurrence, each once,
      leaving out those already in `seen`. */
  function DedupFrom<T(!new, ==)>(s: seq<T>, seen: set<T>): (r: seq<T>)
    ensures forall x :: x in r <==> x in s && x !in seen
    ensures NoDuplicates(r)
  {
    if s == [] then []
    else if s[0] in seen then DedupFrom(s[1..], seen)
    else [s[0]] + DedupFrom(s[1..], seen + {s[0]})
  }

  /** `[...new Set(s)]`: the distinct elements of `s`, first occurrences first. */
  function Dedup<T(!new, ==)>(s: seq<T>): (r: seq<T>)
    ensures forall x :: x in r <==> x in s
    ensures NoDuplicates(r)
  {
    DedupFrom(s, {})
  }

  /** The set of elements of `s`. */
  function Elements<T>(s: seq<T>): (r: set<T>)
    ensures forall i :: 0 <= i < |s| ==> s[i] in r
  {
    if s == [] then {} else {s[0]} + Elements(s[1..])
  }

  /** Removing duplicates from `a + b` keeps a duplicate-free `a` as a prefix
      and appends only elements of `b` that `a` lacks. */
  lemma {:induction false} DedupKeepsPrefix<T(!new)>(a: seq<T>, b: seq<T>, seen: set<T>)
    requires NoDuplicates(a)
    requires forall i :: 0 <= i < |a| ==> a[i] !in seen
    ensures DedupFrom(a + b, seen) == a + DedupFrom(b, seen + Elements(a))
    decreases |a|
  {
    if a == [] {
      assert a + b == b;
      assert seen + Elements(a) == seen;
    } else {
      DistinctTail(a, seen);
      DedupKeepsPrefix(a[1..], b, seen + {a[0]});
      DedupStep(a, b, seen);
    }
  }

  /** One step of `DedupKeepsPrefix`: from the tail of `a` to `a`. */
  lemma DedupStep<T(!new)>(a: seq<T>, b: seq<T>, seen: set<T>)
    requires a != [] && a[0] !in seen
    requires DedupFrom(a[1..] + b, seen + {a[0]}) == a[1..] + DedupFrom(b, seen + {a[0]} + Elements(a[1..]))
    ensures DedupFrom(a + b, seen) == a + DedupFrom(b, seen + Elements(a))
  {
    var t := a[1..];
    assert a == [a[0]] + t;
    AppendAssoc([a[0]], t, b);
    DedupHead(a[0], t + b, seen);
    assert seen + {a[0]} + Elements(t) == seen + Elements(a);
    AppendAssoc([a[0]], t, DedupFrom(b, seen + Elements(a)));
  }

  /** A prefix one longer is the prefix and the next element. */
  lemma TakeSnoc<T>(s: seq<T>, i: nat)
    requires i < |s|
    ensures s[..i + 1] == s[..i] + [s[i]]
  {
  }

  /** The parts of a concatenation are found at their offsets. */
  lemma AppendParts<T>(a: seq<T>, b: seq<T>)
    ensures (a + b)[..|a|] == a
    ensures forall k :: |a| <= k < |a + b| ==> (a + b)[k] == b[k - |a|] && (a + b)[k] in b
  {
  }

  lemma AppendAssoc<T>(x: seq<T>, y: seq<T>, z: seq<T>)
    ensures x + (y + z) == (x + y) + z
  {
  }

  /** The tail of a duplicate-free sequence none of whose elements is in
      `seen` is duplicate-free, and none of its elements is in `seen` or is
      the head. */
  lemma DistinctTail<T>(a: seq<T>, seen: set<T>)
    requires a != [] && NoDuplicates(a)
    requires forall i :: 0 <= i < |a| ==> a[i] !in seen
    ensures NoDuplicates(a[1..])
    ensures forall i :: 0 <= i < |a[1..]| ==> a[1..][i] !in seen + {a[0]}
  {
    var t := a[1..];
    forall i | 0 <= i < |t| ensures t[i] !in seen + {a[0]} {
      assert t[i] == a[i + 1];
    }
    forall i, j | 0 <= i < j < |t| ensures t[i] != t[j] {
      assert t[i] == a[i + 1] && t[j] == a[j + 1];
    }
  }

  /** An element not yet seen is kept in front. */
  lemma DedupHead<T(!new)>(x: T, s: seq<T>, seen: set<T>)
    requires x !in seen
    ensures DedupFrom([x] + s, seen) == [x] + DedupFrom(s, seen + {x})
  {
    assert ([x] + s)[1..] == s;
  }

  /** A duplicate-free sequence is its own duplicate removal. */
  lemma DedupOfDistinct<T(!new)>(a: seq<T>)
    requires NoDuplicates(a)
    ensures Dedup(a) == a
  {
    DedupKeepsPrefix(a, [], {});
    assert a + [] == a;
  }

  /** The position of the first occurrence of `x` in `s` (`s.indexOf(x)`),
      or `|s|` when there is none. */
  function FirstPos<T(==)>(s: seq<T>, x: T): (r: nat)
    ensures r <= |s|
    ensures r < |s| ==> s[r] == x
    ensures forall j :: 0 <= j < r ==> s[j] != x
  {
    if s == [] then 0
    else if s[0] == x then 0
    else 1 + FirstPos(s[1..], x)
  }

  /** The elements of `r` appear in the order of their first occurrence
      in `s`. */
  predicate InFirstOccurrenceOrder<T(==)>(r: seq<T>, s: seq<T>) {
    forall i, j :: 0 <= i < j < |r| ==> FirstPos(s, r[i]) < FirstPos(s, r[j])
  }

  /** Duplicate removal lists its elements in the order of their first
      occurrence in the input. */
  lemma {:induction false} DedupFromOrder<T(!new)>(s: seq<T>, seen: set<T>)
    ensures InFirstOccurrenceOrder(DedupFrom(s, seen), s)
  {
    if s != [] {
      if s[0] in seen {
        DedupFromOrder(s[1..], seen);
        OrderShift(DedupFrom(s[1..], seen), s);
      } else {
        DedupFromOrder(s[1..], seen + {s[0]});
        OrderCons(DedupFrom(s[1..], seen + {s[0]}), s);
      }
    }
  }

  /** Elements other than the head keep their relative order in `s`. */
  lemma OrderShift<T>(r: seq<T>, s: seq<T>)
    requires s != [] && s[0] !in r
    requires InFirstOccurrenceOrder(r, s[1..])
    ensures InFirstOccurrenceOrder(r, s)
  {
    forall i, j | 0 <= i < j < |r| ensures FirstPos(s, r[i]) < FirstPos(s, r[j]) {
      assert r[i] in r && r[j] in r;
      assert FirstPos(s[1..], r[i]) < FirstPos(s[1..], r[j]);
    }
  }

  /** The head of `s` comes before every other element. */
  lemma OrderCons<T>(r: seq<T>, s: seq<T>)
    requires s != [] && s[0] !in r
    requires InFirstOccurrenceOrder(r, s[1..])
    ensures InFirstOccurrenceOrder([s[0]] + r, s)
  {
    OrderShift(r, s);
    var q := [s[0]] + r;
    forall i, j | 0 <= i < j < |q| ensures FirstPos(s, q[i]) < FirstPos(s, q[j]) {
      assert q[j] == r[j - 1] && r[j - 1] in r;
      if i > 0 {
        assert q[i] == r[i - 1];
      }
    }
  }

  /** `[...new Set(s)]` keeps first-occurrence order. */
  lemma DedupOrder<T(!new)>(s: seq<T>)
    ensures InFirstOccurrenceOrder(Dedup(s), s)
  {
    DedupFromOrder(s, {});
  }

  /** Removing duplicates from `a + b` is removing them from `a`, then from
      `b` leaving out what `a` already had; no assumption on `a`. */
  lemma {:induction false} DedupFromAppend<T(!new)>(a: seq<T>, b: seq<T>, seen: set<T>)
    ensures DedupFrom(a + b, seen) == DedupFrom(a, seen) + DedupFrom(b, seen + Elements(a))
  {
    if a == [] {
      assert a + b == b;
      assert seen + Elements(a) == seen;
    } else {
      var t := a[1..];
      assert (a + b)[0] == a[0] && (a + b)[1..] == t + b;
      assert Elements(a) == {a[0]} + Elements(t);
      if a[0] in seen {
        DedupFromAppend(t, b, seen);
        assert seen + Elements(a) == seen + Elements(t);
      } else {
        DedupFromAppend(t, b, seen + {a[0]});
        assert seen + {a[0]} + Elements(t) == seen + Elements(a);
        AppendAssoc([a[0]], DedupFrom(t, seen + {a[0]}), DedupFrom(b, seen + Elements(a)));
      }
    }
  }

  /** Nothing is left once every element has been seen. */
  lemma {:induction false} DedupFromAllSeen<T(!new)>(s: seq<T>, seen: set<T>)
    requires forall i :: 0 <= i < |s| ==> s[i] in seen
    ensures DedupFrom(s, seen) == []
  {
    if s != [] {
      DedupFromAllSeen(s[1..], seen);
    }
  }

  /** Having seen an element that does not occur changes nothing. */
  lemma {:induction false} DedupSeenIrrelevant<T(!new)>(s: seq<T>, seen: set<T>, x: T)
    requires x !in s
    ensures DedupFrom(s, seen + {x}) == DedupFrom(s, seen)
  {
    if s != [] {
      assert x !in s[1..];
      assert s[0] != x;
      if s[0] in seen {
        DedupSeenIrrelevant(s[1..], seen, x);
      } else {
        DedupSeenIrrelevant(s[1..], seen + {s[0]}, x);
        assert seen + {x} + {s[0]} == seen + {s[0]} + {x};
      }
    }
  }

  /** Filtering commutes with duplicate removal. */
  lemma {:induction false} FilterDedupFrom<T(!new)>(s: seq<T>, seen: set<T>, p: T -> bool)
    ensures Filter(DedupFrom(s, seen), p) == DedupFrom(Filter(s, p), seen)
  {
    if s != [] {
      var x := s[0];
      var f := Filter(s[1..], p);
      if p(x) {
        assert Filter(s, p) == [x] + f;
        assert ([x] + f)[0] == x && ([x] + f)[1..] == f;
      } else {
        assert Filter(s, p) == f;
      }
      if x in seen {
        FilterDedupFrom(s[1..], seen, p);
      } else {
        FilterDedupFrom(s[1..], seen + {x}, p);
        var d := DedupFrom(s[1..], seen + {x});
        assert DedupFrom(s, seen) == [x] + d;
        assert ([x] + d)[0] == x && ([x] + d)[1..] == d;
        if !p(x) {
          DedupSeenIrrelevant(f, seen, x);
        }
      }
    }
  }
}

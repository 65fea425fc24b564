/**
 * In-memory stand-ins for the repository queries the services use.
 * A table is a sequence of records in insertion order; `find` with a
 * `where` clause is `Filter`, `findOne` is `FindFirst`, `exists` is `Any`,
 * `update(criteria, row)` is `UpdateWhere`; `Array.indexOf` and the
 * `indexOf`/`splice(index, 1)` idiom are `IndexOf` and `RemoveFirst`.
 */
module Tables {

  datatype Option<+T> = None | Some(value: T)

  /** How a service call ends: normally, or with the named exception. */
  datatype Outcome<+E> = Pass | Fail(error: E)

  /** Primary keys: per-table counters standing in for the schema's UUID keys. */
  type Id = nat

  /** Timestamps (`new Date()`) are opaque values supplied by the caller. */
  type Timestamp = int

  /** The rows of `s` that satisfy `p`, in table order. */
  function Filter<T>(s: seq<T>, p: T -> bool): (r: seq<T>)
    ensures |r| <= |s|
    ensures forall i :: 0 <= i < |r| ==> r[i] in s && p(r[i])
    ensures forall i :: 0 <= i < |s| && p(s[i]) ==> s[i] in r
    decreases |s|
  {
    if s == [] then []
    else Filter(s[..|s| - 1], p) + (if p(s[|s| - 1]) then [s[|s| - 1]] else [])
  }

  lemma FilterAppend<T>(s: seq<T>, x: T, p: T -> bool)
    ensures Filter(s + [x], p) == Filter(s, p) + (if p(x) then [x] else [])
  {
    assert (s + [x])[..|s + [x]| - 1] == s;
  }

  /** Filtering distributes over concatenation: the query keeps table order. */
  lemma {:induction false} FilterConcat<T>(a: seq<T>, b: seq<T>, p: T -> bool)
    ensures Filter(a + b, p) == Filter(a, p) + Filter(b, p)
    decreases |b|
  {
    if b == [] {
      assert a + b == a;
    } else {
      var b' := b[..|b| - 1];
      var x := b[|b| - 1];
      assert b == b' + [x];
      assert a + b == (a + b') + [x];
      FilterConcat(a, b', p);
      FilterAppend(a + b', x, p);
      FilterAppend(b', x, p);
    }
  }

  /** A query no row satisfies returns nothing. */
  lemma {:induction false} FilterNone<T>(s: seq<T>, p: T -> bool)
    requires forall i :: 0 <= i < |s| ==> !p(s[i])
    ensures Filter(s, p) == []
    decreases |s|
  {
    if s != [] {
      FilterNone(s[..|s| - 1], p);
    }
  }

  /** A query every row satisfies returns the whole table. */
  lemma {:induction false} FilterAll<T>(s: seq<T>, p: T -> bool)
    requires forall i :: 0 <= i < |s| ==> p(s[i])
    ensures Filter(s, p) == s
    decreases |s|
  {
    if s != [] {
      FilterAll(s[..|s| - 1], p);
      assert s[..|s| - 1] + [s[|s| - 1]] == s;
    }
  }

  /** Index of the first row satisfying `p`, or -1 when there is none. */
  function FirstIndex<T>(s: seq<T>, p: T -> bool): (i: int)
    ensures -1 <= i < |s|
    ensures i == -1 <==> forall j :: 0 <= j < |s| ==> !p(s[j])
    ensures 0 <= i ==> p(s[i]) && forall j :: 0 <= j < i ==> !p(s[j])
    decreases |s|
  {
    if s == [] then -1
    else if p(s[0]) then 0
    else
      var k := FirstIndex(s[1..], p);
      if k == -1 then -1 else k + 1
  }

  /** The first row satisfying `p`: a repository `findOne`. */
  function FindFirst<T>(s: seq<T>, p: T -> bool): (r: Option<T>)
    ensures r.None? <==> forall i :: 0 <= i < |s| ==> !p(s[i])
    ensures r.Some? ==> r.value in s && p(r.value)
  {
    var i := FirstIndex(s, p);
    if i == -1 then None else Some(s[i])
  }

  /** Whether some row satisfies `p`: a repository `exists`. */
  function Any<T>(s: seq<T>, p: T -> bool): (b: bool)
    ensures b <==> exists i :: 0 <= i < |s| && p(s[i])
  {
    FindFirst(s, p).Some?
  }

  /** Replaces every row satisfying `p` by `row`: a repository `update`. */
  function UpdateWhere<T>(s: seq<T>, p: T -> bool, row: T): (r: seq<T>)
    ensures |r| == |s|
    ensures forall i :: 0 <= i < |s| ==> r[i] == if p(s[i]) then row else s[i]
  {
    seq(|s|, i requires 0 <= i < |s| => if p(s[i]) then row else s[i])
  }

  /** Where `x` first occurs in `s`, or -1: `Array.indexOf`. */
  function IndexOf<T(==)>(s: seq<T>, x: T): (i: int)
    ensures -1 <= i < |s|
    ensures i == -1 <==> x !in s
    ensures 0 <= i ==> s[i] == x && x !in s[..i]
  {
    FirstIndex(s, y => y == x)
  }

  /** `indexOf` followed by `splice(index, 1)` when the index is not -1. */
  function RemoveFirst<T(==)>(s: seq<T>, x: T): seq<T>
  {
    var i := IndexOf(s, x);
    if i == -1 then s else s[..i] + s[i + 1..]
  }

  /** Removing an absent element changes nothing. */
  lemma RemoveFirstAbsent<T>(s: seq<T>, x: T)
    requires x !in s
    ensures RemoveFirst(s, x) == s
  {
  }

  /** Removing a present element takes away exactly one copy of it. */
  lemma RemoveFirstPresent<T>(s: seq<T>, x: T)
    requires x in s
    ensures |RemoveFirst(s, x)| == |s| - 1
    ensures multiset(RemoveFirst(s, x)) == multiset(s) - multiset{x}
  {
    var i := IndexOf(s, x);
    assert s == s[..i] + [x] + s[i + 1..];
    calc {
      multiset(s);
      multiset(s[..i]) + multiset{x} + multiset(s[i + 1..]);
      multiset(RemoveFirst(s, x)) + multiset{x};
    }
  }

  /** Only the first occurrence goes: the rows before it and after it stay in order. */
  lemma RemoveFirstSplit<T>(a: seq<T>, x: T, b: seq<T>)
    requires x !in a
    ensures RemoveFirst(a + [x] + b, x) == a + b
  {
    var s := a + [x] + b;
    var i := IndexOf(s, x);
    assert s[|a|] == x;
    assert a == s[..|a|];
    assert s[..i] == a;
    assert s[i + 1..] == b;
  }
}

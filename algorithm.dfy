/**
 * Whole-container helpers in the style of `<algorithm>`: searching, erasing by
 * value or predicate, filtering into a new container, clamping, and removing
 * the first occurrence with or without keeping the order.
 *
 * A container is a `seq`; a container the source changes through a reference
 * is the `elems` field of a `Vector` (or the `items` field of a `Dictionary`),
 * which the mutating operations reassign. Predicates are total functions.
 */
module Algorithm {
  import opened Wrappers

  /** `find_if`: the index of the first element satisfying f, or None for `c.end()`. */
  function FindIf<T>(c: seq<T>, f: T -> bool): (r: Option<nat>)
    ensures r.Some? ==> r.value < |c| && f(c[r.value])
    ensures r.Some? ==> forall j :: 0 <= j < r.value ==> !f(c[j])
    ensures r.None? ==> forall j :: 0 <= j < |c| ==> !f(c[j])
  {
    if |c| == 0 then None
    else if f(c[0]) then Some(0)
    else
      match FindIf(c[1..], f)
      case None => None
      case Some(i) => Some(i + 1)
  }

  /** `find`: the index of the first element equal to v, or None for `c.end()`. */
  function Find<T(==)>(c: seq<T>, v: T): (r: Option<nat>)
    ensures r.Some? ==> r.value < |c| && c[r.value] == v && v !in c[..r.value]
    ensures r.None? <==> v !in c
  {
    FindIf(c, x => x == v)
  }

  /** `exists`: v occurs in c. */
  predicate Exists<T(==)>(c: seq<T>, v: T)
  {
    Find(c, v).Some?
  }

  /** `exists_if`: some element satisfies f. */
  predicate ExistsIf<T>(c: seq<T>, f: T -> bool)
  {
    FindIf(c, f).Some?
  }

  lemma ExistsIsMembership<T>(c: seq<T>, v: T)
    ensures Exists(c, v) <==> v in c
  {
  }

  lemma ExistsIfIsSomeElement<T>(c: seq<T>, f: T -> bool)
    ensures ExistsIf(c, f) <==> exists i :: 0 <= i < |c| && f(c[i])
  {
  }

  /** The elements of s that satisfy f, in their original order. */
  function Filter<T>(s: seq<T>, f: T -> bool): (r: seq<T>)
    ensures |r| <= |s|
    ensures forall x :: x in r ==> x in s && f(x)
  {
    if |s| == 0 then []
    else if f(s[0]) then [s[0]] + Filter(s[1..], f)
    else Filter(s[1..], f)
  }

  lemma {:induction false} FilterAppend<T>(s: seq<T>, x: T, f: T -> bool)
    ensures Filter(s + [x], f) == Filter(s, f) + (if f(x) then [x] else [])
  {
    if |s| > 0 {
      assert (s + [x])[1..] == s[1..] + [x];
      FilterAppend(s[1..], x, f);
    }
  }

  /** Filtering keeps every copy of the satisfying values and none of the others. */
  lemma {:induction false} FilterMultiset<T>(s: seq<T>, f: T -> bool, x: T)
    ensures multiset(Filter(s, f))[x] == if f(x) then multiset(s)[x] else 0
  {
    if |s| > 0 {
      FilterMultiset(s[1..], f, x);
      assert s == [s[0]] + s[1..];
    }
  }

  /** a can be obtained from b by deleting elements, keeping the order of the rest. */
  predicate IsSubsequence<T(==)>(a: seq<T>, b: seq<T>)
  {
    if |a| == 0 then true
    else if |b| == 0 then false
    else if a[0] == b[0] then IsSubsequence(a[1..], b[1..])
    else IsSubsequence(a, b[1..])
  }

  lemma {:induction false} SubsequenceOfTail<T>(a: seq<T>, b: seq<T>)
    requires |b| > 0 && IsSubsequence(a, b[1..])
    ensures IsSubsequence(a, b)
    decreases |a| + |b|
  {
    if |a| > 0 && a[0] == b[0] {
      SubsequenceDropHead(a, b[1..]);
    }
  }

  lemma {:induction false} SubsequenceDropHead<T>(a: seq<T>, b: seq<T>)
    requires |a| > 0 && IsSubsequence(a, b)
    ensures IsSubsequence(a[1..], b)
    decreases |a| + |b|
  {
    if a[0] != b[0] {
      SubsequenceDropHead(a, b[1..]);
      SubsequenceOfTail(a[1..], b);
    } else if |a| > 1 {
      SubsequenceOfTail(a[1..], b);
    }
  }

  /** Filtering keeps the order of the surviving elements. */
  lemma {:induction false} FilterIsSubsequence<T>(s: seq<T>, f: T -> bool)
    ensures IsSubsequence(Filter(s, f), s)
  {
    if |s| > 0 {
      FilterIsSubsequence(s[1..], f);
      if !f(s[0]) {
        SubsequenceOfTail(Filter(s, f), s);
      }
    }
  }

  /** Filtering with a predicate every element satisfies changes nothing. */
  lemma {:induction false} FilterAllKept<T>(s: seq<T>, f: T -> bool)
    requires forall i :: 0 <= i < |s| ==> f(s[i])
    ensures Filter(s, f) == s
  {
    if |s| > 0 {
      FilterAllKept(s[1..], f);
    }
  }

  /** The predicate `remove(c, v)` erases by: equal to v. */
  function Differs<T(==)>(v: T): T -> bool
  {
    x => x != v
  }

  /** The result of `remove(c, v)`: c without any element equal to v. */
  function RemoveAll<T(==)>(s: seq<T>, v: T): (r: seq<T>)
    ensures v !in r
  {
    Filter(s, Differs(v))
  }

  /** `remove` keeps every other value with its multiplicity and in order. */
  lemma RemoveAllSpec<T>(s: seq<T>, v: T)
    ensures multiset(RemoveAll(s, v)) == multiset(s)[v := 0]
    ensures IsSubsequence(RemoveAll(s, v), s)
  {
    forall y
      ensures multiset(RemoveAll(s, v))[y] == multiset(s)[v := 0][y]
    {
      FilterMultiset(s, Differs(v), y);
      assert Differs(v)(y) <==> y != v;
    }
    MultisetExtensional(multiset(RemoveAll(s, v)), multiset(s)[v := 0]);
    FilterIsSubsequence(s, Differs(v));
  }

  /** The negation of a predicate. */
  function Not<T>(f: T -> bool): T -> bool
  {
    x => !f(x)
  }

  /** Multiset extensionality, a step of the proofs above; it has no counterpart in the source. */
  lemma MultisetExtensional<T>(a: multiset<T>, b: multiset<T>)
    requires forall y :: a[y] == b[y]
    ensures a == b
  {
  }

  /** The result of `remove_if(c, f)`: c without any element satisfying f. */
  function RemoveIfSpec<T>(s: seq<T>, f: T -> bool): (r: seq<T>)
    ensures forall x :: x in r ==> !f(x)
  {
    Filter(s, Not(f))
  }

  /** `remove_if` keeps every non-matching element with its multiplicity and in order. */
  lemma RemoveIfKeepsOthers<T>(s: seq<T>, f: T -> bool, x: T)
    ensures multiset(RemoveIfSpec(s, f))[x] == if f(x) then 0 else multiset(s)[x]
    ensures IsSubsequence(RemoveIfSpec(s, f), s)
  {
    FilterMultiset(s, Not(f), x);
    FilterIsSubsequence(s, Not(f));
  }

  /** `copyfrom_if`: a new container holding the elements that satisfy f, pushed in order. */
  method CopyFromIf<T>(c: seq<T>, f: T -> bool) returns (res: seq<T>)
    ensures res == Filter(c, f)
  {
    res := [];
    var i := 0;
    while i < |c|
      invariant 0 <= i <= |c|
      invariant res == Filter(c[..i], f)
    {
      FilterAppend(c[..i], c[i], f);
      assert c[..i + 1] == c[..i] + [c[i]];
      if f(c[i]) {
        res := res + [c[i]];
      }
      i := i + 1;
    }
    assert c[..i] == c;
  }

  /** `clip`: `max(lower, min(n, upper))`. */
  function Clip(n: int, lower: int, upper: int): (r: int)
    ensures lower <= upper ==> lower <= r <= upper
    ensures lower <= n <= upper ==> r == n
    ensures n < lower ==> r == lower
    ensures upper < lower ==> r == lower
    ensures lower <= upper && upper < n ==> r == upper
  {
    var m := if upper < n then upper else n;
    if m < lower then lower else m
  }

  /** The vector after `remove_first_unordered`: the first v is overwritten by the last element, then the last slot is popped. */
  function RemoveFirstUnorderedSpec<T(==)>(s: seq<T>, v: T): (r: seq<T>)
  {
    match Find(s, v)
    case None => s
    case Some(i) => s[i := s[|s| - 1]][..|s| - 1]
  }

  /** Exactly one copy of v goes, every other element stays (order aside). */
  lemma RemoveFirstUnorderedMultiset<T>(s: seq<T>, v: T)
    ensures v !in s ==> RemoveFirstUnorderedSpec(s, v) == s
    ensures v in s ==> multiset(RemoveFirstUnorderedSpec(s, v)) == multiset(s) - multiset{v}
    ensures v in s ==> |RemoveFirstUnorderedSpec(s, v)| == |s| - 1
  {
    if v in s {
      var i := Find(s, v).value;
      var last := |s| - 1;
      var r := RemoveFirstUnorderedSpec(s, v);
      if i == last {
        assert s == r + [v];
      } else {
        SwapPopPieces(s, i);
        assert multiset(s) == multiset(s[..i]) + multiset{v} + multiset(s[i + 1..last]) + multiset{s[last]};
      }
    }
  }

  /** Overwriting slot i < |s| - 1 with the last element and popping: the pieces before and after. */
  lemma SwapPopPieces<T>(s: seq<T>, i: nat)
    requires i < |s| - 1
    ensures s == s[..i] + [s[i]] + s[i + 1..|s| - 1] + [s[|s| - 1]]
    ensures s[i := s[|s| - 1]][..|s| - 1] == s[..i] + [s[|s| - 1]] + s[i + 1..|s| - 1]
  {
  }

  /** The vector after `remove_first_ordered`: the first v is erased. */
  function RemoveFirstOrderedSpec<T(==)>(s: seq<T>, v: T): (r: seq<T>)
  {
    match Find(s, v)
    case None => s
    case Some(i) => s[..i] + s[i + 1..]
  }

  /** Exactly the first copy of v goes, and the rest keep their order. */
  lemma RemoveFirstOrderedSpecProperties<T>(s: seq<T>, v: T)
    ensures v !in s ==> RemoveFirstOrderedSpec(s, v) == s
    ensures v in s ==> multiset(RemoveFirstOrderedSpec(s, v)) == multiset(s) - multiset{v}
    ensures v in s ==> exists i :: 0 <= i < |s| && s[i] == v && v !in s[..i] && s == RemoveFirstOrderedSpec(s, v)[..i] + [v] + RemoveFirstOrderedSpec(s, v)[i..]
  {
    if v in s {
      var i := Find(s, v).value;
      var r := RemoveFirstOrderedSpec(s, v);
      assert s == s[..i] + [v] + s[i + 1..];
      assert r[..i] == s[..i] && r[i..] == s[i + 1..];
    }
  }

  /** A growable vector whose contents the helpers above change in place. */
  class Vector<T(==)> {
    var elems: seq<T>

    constructor(s: seq<T>)
      ensures elems == s
    {
      elems := s;
    }

    /** `remove(c, v)`: erase every element equal to v; returns the new end position. */
    method Remove(v: T) returns (end: nat)
      modifies this
      ensures elems == RemoveAll(old(elems), v)
      ensures end == |elems|
    {
      elems := RemoveAll(elems, v);
      end := |elems|;
    }

    /** `remove_if(c, f)`: erase every element satisfying f; returns the new end position. */
    method RemoveIf(f: T -> bool) returns (end: nat)
      modifies this
      ensures elems == RemoveIfSpec(old(elems), f)
      ensures end == |elems|
    {
      elems := RemoveIfSpec(elems, f);
      end := |elems|;
    }

    /** `remove_first_unordered`: true iff v was present; its first slot then holds the old last element. */
    method RemoveFirstUnordered(v: T) returns (removed: bool)
      modifies this
      ensures removed <==> v in old(elems)
      ensures elems == RemoveFirstUnorderedSpec(old(elems), v)
    {
      var it := Find(elems, v);
      if it.Some? {
        elems := elems[it.value := elems[|elems| - 1]];
        elems := elems[..|elems| - 1];
        removed := true;
      } else {
        removed := false;
      }
    }

    /** `remove_first_ordered`: true iff v was present; its first occurrence is erased. */
    method RemoveFirstOrdered(v: T) returns (removed: bool)
      modifies this
      ensures removed <==> v in old(elems)
      ensures elems == RemoveFirstOrderedSpec(old(elems), v)
    {
      var it := Find(elems, v);
      if it.Some? {
        elems := elems[..it.value] + elems[it.value + 1..];
        removed := true;
      } else {
        removed := false;
      }
    }
  }

  /** The entries of m whose (key, value) pair does not satisfy f. */
  function MapWithout<K, V>(m: map<K, V>, f: (K, V) -> bool): (r: map<K, V>)
  {
    map k | k in m && !f(k, m[k]) :: m[k]
  }

  /** A map whose entries `map_remove_if` erases in place. */
  class Dictionary<K(==), V> {
    var items: map<K, V>

    constructor(m: map<K, V>)
      ensures items == m
    {
      items := m;
    }

    /** `map_remove_if`: walk every entry, erasing those that satisfy f and stepping over the rest. */
    method MapRemoveIf(f: (K, V) -> bool)
      modifies this
      ensures items == MapWithout(old(items), f)
    {
      var pending := items.Keys;
      while pending != {}
        invariant pending <= items.Keys
        invariant forall k :: k in items ==> k in old(items) && items[k] == old(items)[k]
        invariant forall k :: k in old(items) && k !in pending ==> (k in items <==> !f(k, old(items)[k]))
        invariant forall k :: k in pending ==> k in items
        decreases |pending|
      {
        var k :| k in pending;
        if f(k, items[k]) {
          items := items - {k};
        }
        pending := pending - {k};
      }
    }
  }

  /** `map_remove_if` erases exactly the matching entries and keeps every other entry unchanged. */
  lemma MapWithoutSpec<K, V>(m: map<K, V>, f: (K, V) -> bool, k: K)
    ensures k in MapWithout(m, f) <==> k in m && !f(k, m[k])
    ensures k in MapWithout(m, f) ==> MapWithout(m, f)[k] == m[k]
  {
  }
}

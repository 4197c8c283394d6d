/**
 * Property keys of an ordinary JavaScript object: which keys an empty object
 * literal `{}` already answers through Object.prototype, and the order in
 * which Object.values / Object.entries list own properties (array-index keys
 * first, in ascending numeric order, then the other string keys in the order
 * they were created; section 10.1.11.1, OrdinaryOwnPropertyKeys, of
 * ECMAScript 2024).
 */
module PropertyKeys {
  import opened JsStrings

  /** The largest array index, 2^32 - 2. */
  const MaxArrayIndex: nat := 0xFFFF_FFFE

  /** A canonical numeral no larger than 2^32 - 2, such as "0" or "42" but not "042". */
  predicate IsArrayIndex(k: JsString) {
    IsCanonicalDecimal(k) && DecimalValue(k) <= MaxArrayIndex
  }

  /**
   * The names Object.prototype defines. Reading any of them from `{}` gives a
   * function or, for `__proto__`, Object.prototype itself: a truthy value.
   */
  const ObjectPrototypeNames: set<JsString> := {
    ConstructorKey, Bmp("__defineGetter__"), Bmp("__defineSetter__"),
    Bmp("hasOwnProperty"), Bmp("__lookupGetter__"), Bmp("__lookupSetter__"),
    Bmp("isPrototypeOf"), Bmp("propertyIsEnumerable"), Bmp("toString"),
    Bmp("valueOf"), Bmp("__proto__"), Bmp("toLocaleString")
  }

  /** The name of the property every object inherits its constructor from. */
  const ConstructorKey: JsString := Bmp("constructor")

  predicate AllArrayIndices(s: seq<JsString>) {
    forall i :: 0 <= i < |s| ==> IsArrayIndex(s[i])
  }

  predicate NoArrayIndex(s: seq<JsString>) {
    forall i :: 0 <= i < |s| ==> !IsArrayIndex(s[i])
  }

  /** The numeric value of an array-index key. */
  function IndexValue(k: JsString): nat {
    if IsArrayIndex(k) then DecimalValue(k) else 0
  }

  /** Array indices in ascending numeric order. */
  predicate Ascending(s: seq<JsString>) {
    AllArrayIndices(s) && AscendingBy(s, IndexValue)
  }

  predicate IsNamedKey(k: JsString) {
    !IsArrayIndex(k)
  }

  /** The keys satisfying `p`, in their original order. */
  function Filter(keys: seq<JsString>, p: JsString -> bool): (r: seq<JsString>)
    ensures forall i :: 0 <= i < |r| ==> p(r[i])
    ensures forall k :: k in r ==> k in keys
  {
    if keys == [] then []
    else (if p(keys[0]) then [keys[0]] else []) + Filter(keys[1..], p)
  }

  /** Splitting the keys by a predicate and its negation loses and invents nothing. */
  lemma {:induction false} FilterPartition(keys: seq<JsString>, p: JsString -> bool, q: JsString -> bool)
    requires forall k :: q(k) == !p(k)
    ensures multiset(Filter(keys, p)) + multiset(Filter(keys, q)) == multiset(keys)
  {
    if keys != [] {
      FilterPartition(keys[1..], p, q);
      assert keys == [keys[0]] + keys[1..];
    }
  }

  /** A predicate that holds of every key keeps them all. */
  lemma {:induction false} FilterAll(keys: seq<JsString>, p: JsString -> bool)
    ensures (forall i :: 0 <= i < |keys| ==> p(keys[i])) ==> Filter(keys, p) == keys
  {
    if keys != [] && forall i :: 0 <= i < |keys| ==> p(keys[i]) {
      FilterAll(keys[1..], p);
      assert keys == [keys[0]] + keys[1..];
    }
  }

  /** A predicate that holds of no key keeps none. */
  lemma {:induction false} FilterNone(keys: seq<JsString>, p: JsString -> bool)
    ensures (forall i :: 0 <= i < |keys| ==> !p(keys[i])) ==> Filter(keys, p) == []
  {
    if keys != [] && forall i :: 0 <= i < |keys| ==> !p(keys[i]) {
      FilterNone(keys[1..], p);
    }
  }

  /** The keys that are array indices, in their original order. */
  function IndexKeys(keys: seq<JsString>): (r: seq<JsString>)
    ensures AllArrayIndices(r)
  {
    Filter(keys, IsArrayIndex)
  }

  /** The keys that are not array indices, in their original order. */
  function NamedKeys(keys: seq<JsString>): (r: seq<JsString>)
    ensures NoArrayIndex(r)
  {
    Filter(keys, IsNamedKey)
  }

  /** `s` ordered by `key`, smallest first. */
  predicate AscendingBy<T>(s: seq<T>, key: T -> nat) {
    forall i, j :: 0 <= i < j < |s| ==> key(s[i]) <= key(s[j])
  }

  /** Inserts `x` before the first element of `s` with a larger key. */
  function InsertBy<T>(x: T, s: seq<T>, key: T -> nat): (r: seq<T>)
    ensures multiset(r) == multiset(s) + multiset{x}
  {
    if s == [] || key(x) <= key(s[0]) then [x] + s
    else
      assert s == [s[0]] + s[1..];
      [s[0]] + InsertBy(x, s[1..], key)
  }

  /** Inserting into an ascending sequence keeps it ascending. */
  lemma {:induction false} InsertKeepsAscending<T>(x: T, s: seq<T>, key: T -> nat)
    requires AscendingBy(s, key)
    ensures AscendingBy(InsertBy(x, s, key), key)
  {
    if s != [] && key(x) > key(s[0]) {
      var rest := InsertBy(x, s[1..], key);
      InsertKeepsAscending(x, s[1..], key);
      LowerBound(key(s[0]), rest, s[1..], x, key);
      AscendingCons(s[0], rest, key);
    }
  }

  /** A permutation of `s` plus `x` keeps every lower bound of `s` and `x`. */
  lemma LowerBound<T>(b: nat, r: seq<T>, s: seq<T>, x: T, key: T -> nat)
    requires multiset(r) == multiset(s) + multiset{x}
    requires b <= key(x) && forall i :: 0 <= i < |s| ==> b <= key(s[i])
    ensures forall j :: 0 <= j < |r| ==> b <= key(r[j])
  {
    forall j | 0 <= j < |r| ensures b <= key(r[j]) {
      assert r[j] in multiset(r);
      if r[j] != x {
        assert r[j] in multiset(s);
        var m :| 0 <= m < |s| && s[m] == r[j];
      }
    }
  }

  /** An ascending sequence stays ascending behind an element no larger than any of it. */
  lemma AscendingCons<T>(y: T, rest: seq<T>, key: T -> nat)
    requires AscendingBy(rest, key)
    requires forall j :: 0 <= j < |rest| ==> key(y) <= key(rest[j])
    ensures AscendingBy([y] + rest, key)
  {
    var r := [y] + rest;
    forall i, j | 0 <= i < j < |r| ensures key(r[i]) <= key(r[j]) {
      assert r[j] == rest[j - 1];
      if i > 0 {
        assert r[i] == rest[i - 1];
      }
    }
  }

  /** Insertion sort by `key`: a permutation of `s` in ascending order. */
  function SortBy<T>(s: seq<T>, key: T -> nat): (r: seq<T>)
    ensures multiset(r) == multiset(s)
    ensures AscendingBy(r, key)
  {
    if s == [] then []
    else
      assert s == [s[0]] + s[1..];
      var sorted := SortBy(s[1..], key);
      InsertKeepsAscending(s[0], sorted, key);
      InsertBy(s[0], sorted, key)
  }

  /** Permuting a sequence of array indices gives array indices. */
  lemma PermutedIndices(s: seq<JsString>, t: seq<JsString>)
    requires AllArrayIndices(s) && multiset(s) == multiset(t)
    ensures AllArrayIndices(t)
  {
    forall i | 0 <= i < |t| ensures IsArrayIndex(t[i]) {
      assert t[i] in multiset(s);
    }
  }

  /**
   * The order in which an object created by assigning keys in the order
   * `keys` (no key twice) enumerates them: array indices ascending, then the
   * other keys as created.
   */
  function OwnKeyOrder(keys: seq<JsString>): (r: seq<JsString>)
    ensures multiset(r) == multiset(keys)
    ensures |IndexKeys(keys)| <= |r|
    ensures Ascending(r[..|IndexKeys(keys)|])
    ensures r[|IndexKeys(keys)|..] == NamedKeys(keys)
    ensures NoArrayIndex(keys) ==> r == keys
  {
    FilterPartition(keys, IsArrayIndex, IsNamedKey);
    FilterNone(keys, IsArrayIndex);
    FilterAll(keys, IsNamedKey);
    var sorted := SortBy(IndexKeys(keys), IndexValue);
    PermutedIndices(IndexKeys(keys), sorted);
    assert |sorted| == |IndexKeys(keys)| by {
      assert |multiset(sorted)| == |multiset(IndexKeys(keys))|;
    }
    var r := sorted + NamedKeys(keys);
    assert r[..|sorted|] == sorted && r[|sorted|..] == NamedKeys(keys);
    r
  }

  predicate NoDuplicates<T(==)>(s: seq<T>) {
    forall i, j :: 0 <= i < j < |s| ==> s[i] != s[j]
  }

  /** Distinct keys stay distinct under any reordering. */
  lemma DistinctPermutation(s: seq<JsString>, t: seq<JsString>)
    requires multiset(s) == multiset(t) && NoDuplicates(s)
    ensures NoDuplicates(t)
  {
    forall i, j | 0 <= i < j < |t| ensures t[i] != t[j] {
      if t[i] == t[j] {
        MultiplicityOfDuplicate(t, i, j);
        DistinctMultiplicity(s, t[i]);
        assert false;
      }
    }
  }

  lemma {:induction false} MultiplicityOfDuplicate(t: seq<JsString>, i: nat, j: nat)
    requires i < j < |t| && t[i] == t[j]
    ensures multiset(t)[t[i]] >= 2
  {
    var x := t[i];
    assert t == t[..i] + [x] + t[i + 1..j] + [x] + t[j + 1..];
  }

  lemma {:induction false} DistinctMultiplicity(s: seq<JsString>, x: JsString)
    requires NoDuplicates(s)
    ensures multiset(s)[x] <= 1
  {
    if s != [] {
      DistinctMultiplicity(s[1..], x);
      assert s == [s[0]] + s[1..];
      assert s[0] == x ==> x !in s[1..];
    }
  }

  /** A list without repeats whose only element is `c` is `[c]`. */
  lemma LoneDistinct(s: seq<JsString>, c: JsString)
    requires NoDuplicates(s)
    requires forall k :: k in s <==> k == c
    ensures s == [c]
  {
    DistinctMultiplicity(s, c);
    UniformMultiplicity(s, c);
    assert c in s;
    assert s[0] in s;
  }

  /** In a list whose every element is `c`, `c` occurs as often as the list is long. */
  lemma {:induction false} UniformMultiplicity(s: seq<JsString>, c: JsString)
    requires forall k :: k in s ==> k == c
    ensures multiset(s)[c] == |s|
  {
    if s != [] {
      assert s == [s[0]] + s[1..];
      assert s[0] in s;
      assert forall k :: k in s[1..] ==> k in s;
      UniformMultiplicity(s[1..], c);
    }
  }
}

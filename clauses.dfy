/**
 * The value-level rules of the clause post-processor: which categories
 * survive deduplication and in which order, and which status and warning a
 * surviving clause is stamped with.
 */
module Clauses {
  import opened Wrappers
  import opened JsStrings
  import opened PropertyKeys

  // ---------------------------------------------------------------------
  // Status stamping.

  /** Milliseconds in a day, `1000 * 60 * 60 * 24`. */
  const MsPerDay: int := 86_400_000

  /** Days ahead within which an expiry counts as urgent (both ends included). */
  const UrgentWindowDays: int := 60

  /** The only category whose date is looked at. */
  const ExpirationCategory: JsString := Bmp("Expiration Date")

  const PolicyEndedWarning: JsString := Bmp("\U{26A0}\U{FE0F} Policy ended.")

  const EndsInPrefix: JsString := Bmp("\U{26A0}\U{FE0F} Ends in ")

  const DaysSuffix: JsString := Bmp(" days!")

  /** The text of the template literal `⚠️ Ends in ${diffDays} days!`. */
  function EndsInWarning(days: nat): JsString {
    EndsInPrefix + DecimalString(days) + DaysSuffix
  }

  datatype Status = Info | Expired | Urgent | Active

  /** The string the post-processor writes into `status`. */
  function StatusText(s: Status): JsString {
    match s
    case Info => Bmp("INFO")
    case Expired => Bmp("EXPIRED")
    case Urgent => Bmp("URGENT")
    case Active => Bmp("ACTIVE")
  }

  /** Each status is written as a different string. */
  lemma StatusTextInjective(s: Status, t: Status)
    ensures StatusText(s) == StatusText(t) <==> s == t
  {
    if s != t {
      var a, b := StatusText(s), StatusText(t);
      assert |a| != |b| || a[0] != b[0];
    }
  }

  /**
   * What `date_found` holds: nothing or a falsy value (`Missing`), a string
   * that `new Date` reads as the time value `ms` (milliseconds since the
   * epoch), or a truthy string it cannot read (`Invalid`: the time value is NaN).
   */
  datatype DateFound = Missing | Timestamp(ms: int) | Invalid

  /** `Math.ceil(a / b)` for a positive divisor. */
  function CeilDiv(a: int, b: int): (q: int)
    requires b > 0
    ensures (q - 1) * b < a <= q * b
  {
    -((-a) / b)
  }

  /** Whole days from `today` to `expiry`, rounded up; both in milliseconds. */
  function DiffDays(expiry: int, today: int): (d: int)
    ensures (d - 1) * MsPerDay < expiry - today <= d * MsPerDay
  {
    CeilDiv(expiry - today, MsPerDay)
  }

  /** The status a clause gets, and the warning written (None: `warning` is left as it was). */
  datatype Stamp = Stamp(status: Status, warning: Option<JsString>)

  /**
   * The stamp for a clause of `category` with `date` when the clock reads
   * `today`. The contract states the thresholds in milliseconds.
   */
  function StampFor(category: JsString, date: DateFound, today: int): (s: Stamp)
    ensures s.status == Info <==> category != ExpirationCategory || date.Missing?
    ensures s.status == Expired <==>
      category == ExpirationCategory && date.Timestamp? && date.ms - today <= -MsPerDay
    ensures s.status == Urgent <==>
      category == ExpirationCategory && date.Timestamp?
      && -MsPerDay < date.ms - today <= UrgentWindowDays * MsPerDay
    ensures s.status == Active <==>
      category == ExpirationCategory
      && (date.Invalid? || (date.Timestamp? && date.ms - today > UrgentWindowDays * MsPerDay))
    ensures s.status == Expired ==> s.warning == Some(PolicyEndedWarning)
    ensures s.status == Urgent ==>
      date.Timestamp? && 0 <= DiffDays(date.ms, today) <= UrgentWindowDays
      && s.warning == Some(EndsInWarning(DiffDays(date.ms, today)))
    ensures s.status == Info || s.status == Active ==> s.warning == None
  {
    if category == ExpirationCategory && !date.Missing? then
      if date.Invalid? then
        // NaN < 0 and NaN <= 60 are both false: the final else branch.
        Stamp(Active, None)
      else
        var diffDays := DiffDays(date.ms, today);
        if diffDays < 0 then Stamp(Expired, Some(PolicyEndedWarning))
        else if diffDays <= UrgentWindowDays then Stamp(Urgent, Some(EndsInWarning(diffDays)))
        else Stamp(Active, None)
    else
      Stamp(Info, None)
  }

  /** The four boundaries: 60 and 0 days ahead are urgent, 61 active, one day past expired. */
  lemma StatusBoundaries(today: int)
    ensures StampFor(ExpirationCategory, Timestamp(today + 60 * MsPerDay), today).status == Urgent
    ensures StampFor(ExpirationCategory, Timestamp(today + 61 * MsPerDay), today).status == Active
    ensures StampFor(ExpirationCategory, Timestamp(today), today).status == Urgent
    ensures StampFor(ExpirationCategory, Timestamp(today - MsPerDay), today).status == Expired
  {
  }

  /** The warnings written at the boundaries. */
  lemma BoundaryWarnings(today: int)
    ensures StampFor(ExpirationCategory, Timestamp(today + 60 * MsPerDay), today).warning
      == Some(EndsInWarning(60))
    ensures StampFor(ExpirationCategory, Timestamp(today), today).warning == Some(EndsInWarning(0))
    ensures StampFor(ExpirationCategory, Timestamp(today - MsPerDay), today).warning
      == Some(PolicyEndedWarning)
  {
    assert DiffDays(today + 60 * MsPerDay, today) == 60;
    assert DiffDays(today, today) == 0;
  }

  /**
   * Days round up: an expiry one millisecond into the 61st day is already
   * active, and one a fraction of a day past is still urgent, "Ends in 0 days!".
   */
  lemma PartialDaysRoundUp(today: int)
    ensures StampFor(ExpirationCategory, Timestamp(today + 60 * MsPerDay + 1), today).status == Active
    ensures StampFor(ExpirationCategory, Timestamp(today - 1), today)
      == Stamp(Urgent, Some(EndsInWarning(0)))
  {
    assert DiffDays(today - 1, today) == 0;
  }

  /** The day count in an urgent warning reads back as the number of days. */
  lemma UrgentWarningDays(category: JsString, date: DateFound, today: int)
    requires StampFor(category, date, today).status == Urgent
    ensures var w := StampFor(category, date, today).warning.value;
      |EndsInPrefix| + |DaysSuffix| <= |w|
      && w[..|EndsInPrefix|] == EndsInPrefix
      && w[|w| - |DaysSuffix|..] == DaysSuffix
      && var digits := w[|EndsInPrefix|..|w| - |DaysSuffix|];
         AllDigits(digits) && DecimalValue(digits) == DiffDays(date.ms, today)
  {
    var d := DiffDays(date.ms, today);
    var w := EndsInWarning(d);
    assert w[|EndsInPrefix|..|w| - |DaysSuffix|] == DecimalString(d);
    assert w[..|EndsInPrefix|] == EndsInPrefix;
    assert w[|w| - |DaysSuffix|..] == DaysSuffix;
    DecimalValueOfString(d);
  }

  // ---------------------------------------------------------------------
  // Deduplication by category.

  /**
   * The categories kept by the `forEach` loop, in the order it first stores
   * them: a category is stored when looking it up in the dictionary gives a
   * falsy value, that is when it is neither stored yet nor `inherited` by
   * the dictionary from its prototype.
   */
  function Firsts(cats: seq<JsString>, inherited: set<JsString>): (r: seq<JsString>)
    ensures forall k :: k in r <==> k in cats && k !in inherited
    ensures NoDuplicates(r)
    ensures |r| <= |cats|
    decreases |cats|
  {
    if cats == [] then []
    else
      var front := cats[..|cats| - 1];
      var k := cats[|cats| - 1];
      assert cats == front + [k];
      var seen := Firsts(front, inherited);
      if k in seen || k in inherited then seen else seen + [k]
  }

  /** The position of the first occurrence of `k`. */
  function FirstIndex(cats: seq<JsString>, k: JsString): (i: nat)
    requires k in cats
    ensures i < |cats| && cats[i] == k
    ensures forall j :: 0 <= j < i ==> cats[j] != k
  {
    if cats[0] == k then 0 else 1 + FirstIndex(cats[1..], k)
  }

  /** `cats[i]` occurs nowhere before `i`: `i` is its first occurrence. */
  lemma FirstIndexAt(cats: seq<JsString>, i: nat)
    requires i < |cats| && cats[i] !in cats[..i]
    ensures FirstIndex(cats, cats[i]) == i
  {
  }

  /** A first occurrence inside a prefix is the first occurrence in the whole. */
  lemma FirstIndexInPrefix(cats: seq<JsString>, n: nat, k: JsString)
    requires n <= |cats| && k in cats[..n]
    ensures FirstIndex(cats[..n], k) == FirstIndex(cats, k)
  {
    var i := FirstIndex(cats[..n], k);
    assert cats[i] == k;
  }

  /** Every key of `s` occurs in `cats`, and `s` lists them by first occurrence there. */
  predicate InFirstOccurrenceOrder(s: seq<JsString>, cats: seq<JsString>) {
    (forall k :: k in s ==> k in cats)
    && forall i, j :: 0 <= i < j < |s| ==> FirstIndex(cats, s[i]) < FirstIndex(cats, s[j])
  }

  /** Firsts lists categories in the order of their first occurrence. */
  lemma {:induction false} FirstsInFirstOccurrenceOrder(cats: seq<JsString>, inherited: set<JsString>)
    ensures InFirstOccurrenceOrder(Firsts(cats, inherited), cats)
    decreases |cats|
  {
    if cats != [] {
      var n := |cats| - 1;
      var front := cats[..n];
      var seen := Firsts(front, inherited);
      FirstsInFirstOccurrenceOrder(front, inherited);
      var r := Firsts(cats, inherited);
      forall i, j | 0 <= i < j < |r| ensures FirstIndex(cats, r[i]) < FirstIndex(cats, r[j]) {
        FirstsStep(cats, inherited, i, j);
      }
    }
  }

  /** One pair in the inductive step of FirstsInFirstOccurrenceOrder. */
  lemma FirstsStep(cats: seq<JsString>, inherited: set<JsString>, i: nat, j: nat)
    requires cats != []
    requires InFirstOccurrenceOrder(Firsts(cats[..|cats| - 1], inherited), cats[..|cats| - 1])
    requires i < j < |Firsts(cats, inherited)|
    ensures var r := Firsts(cats, inherited); FirstIndex(cats, r[i]) < FirstIndex(cats, r[j])
  {
    var n := |cats| - 1;
    var front := cats[..n];
    var seen := Firsts(front, inherited);
    var r := Firsts(cats, inherited);
    assert r[i] == seen[i] && seen[i] in front;
    FirstIndexInPrefix(cats, n, seen[i]);
    if j < |seen| {
      assert r[j] == seen[j] && seen[j] in front;
      FirstIndexInPrefix(cats, n, seen[j]);
    } else {
      assert r[j] == cats[n] && cats[n] !in front;
      FirstIndexAt(cats, n);
    }
  }

  /** Firsts does not depend on inherited names that occur in no category. */
  lemma {:induction false} FirstsIgnoresAbsentNames(cats: seq<JsString>, inherited: set<JsString>)
    requires forall i :: 0 <= i < |cats| ==> cats[i] !in inherited
    ensures Firsts(cats, inherited) == Firsts(cats, {})
    decreases |cats|
  {
    if cats != [] {
      FirstsIgnoresAbsentNames(cats[..|cats| - 1], inherited);
    }
  }

  /**
   * The categories a dictionary that inherits `inherited` ends up listing:
   * the first occurrence of each category it does not inherit, in the order
   * Object.values lists an object's own keys.
   */
  function Kept(cats: seq<JsString>, inherited: set<JsString>): (r: seq<JsString>)
    ensures forall k :: k in r <==> k in cats && k !in inherited
    ensures NoDuplicates(r)
    ensures |r| <= |cats|
  {
    var firsts := Firsts(cats, inherited);
    var r := OwnKeyOrder(firsts);
    DistinctPermutation(firsts, r);
    assert |r| == |firsts| by { assert |multiset(r)| == |multiset(firsts)|; }
    assert forall k :: k in r <==> k in firsts by {
      forall k ensures k in r <==> k in firsts {
        assert k in r <==> k in multiset(r);
      }
    }
    r
  }

  /**
   * The categories `processClausesWithWarnings` returns, in order: its
   * dictionary is the object literal `{}`, which inherits Object.prototype.
   */
  function KeptKeys(cats: seq<JsString>): (r: seq<JsString>)
    ensures forall k :: k in r <==> k in cats && k !in ObjectPrototypeNames
    ensures NoDuplicates(r)
    ensures |r| <= |cats|
  {
    Kept(cats, ObjectPrototypeNames)
  }

  /**
   * The same with a dictionary that inherits nothing (`Object.create(null)`
   * or a Map): every category is kept.
   */
  function KeptKeysNullPrototype(cats: seq<JsString>): (r: seq<JsString>)
    ensures forall k :: k in r <==> k in cats
    ensures NoDuplicates(r)
  {
    Kept(cats, {})
  }

  /** No input means no output. */
  lemma NoClausesNoKeys(inherited: set<JsString>)
    ensures Kept([], inherited) == []
  {
  }

  /** How many kept categories are array indices. */
  function KeptIndexCount(cats: seq<JsString>, inherited: set<JsString>): nat {
    |IndexKeys(Firsts(cats, inherited))|
  }

  /** Array indices in strictly ascending numeric order. */
  predicate StrictlyAscending(s: seq<JsString>) {
    AllArrayIndices(s) && forall i, j :: 0 <= i < j < |s| ==> IndexValue(s[i]) < IndexValue(s[j])
  }

  /**
   * Order of the kept categories: the array-index categories first, in
   * strictly ascending numeric order, then all the others, in the order of
   * their first occurrence.
   */
  lemma KeptOrder(cats: seq<JsString>, inherited: set<JsString>)
    ensures var r := Kept(cats, inherited); var n := KeptIndexCount(cats, inherited);
      && n <= |r|
      && StrictlyAscending(r[..n])
      && NoArrayIndex(r[n..])
      && InFirstOccurrenceOrder(r[n..], cats)
  {
    var firsts := Firsts(cats, inherited);
    var r := Kept(cats, inherited);
    var n := KeptIndexCount(cats, inherited);
    assert r == OwnKeyOrder(firsts);
    FirstsInFirstOccurrenceOrder(cats, inherited);
    FilterKeepsOrder(firsts, IsNamedKey, cats);
    DistinctPrefix(r, n);
    AscendingDistinctIsStrict(r[..n]);
  }

  lemma DistinctPrefix(r: seq<JsString>, n: nat)
    requires n <= |r| && NoDuplicates(r)
    ensures NoDuplicates(r[..n])
  {
    forall i, j | 0 <= i < j < n ensures r[..n][i] != r[..n][j] {
      assert r[..n][i] == r[i] && r[..n][j] == r[j];
    }
  }

  /** Distinct canonical numerals in ascending order ascend strictly. */
  lemma AscendingDistinctIsStrict(s: seq<JsString>)
    requires Ascending(s) && NoDuplicates(s)
    ensures StrictlyAscending(s)
  {
    forall i, j | 0 <= i < j < |s| ensures IndexValue(s[i]) < IndexValue(s[j]) {
      if IndexValue(s[i]) == IndexValue(s[j]) {
        CanonicalDecimalInjective(s[i], s[j]);
      }
    }
  }

  /** Filtering keeps an order by first occurrence. */
  lemma {:induction false} FilterKeepsOrder(s: seq<JsString>, p: JsString -> bool, cats: seq<JsString>)
    requires InFirstOccurrenceOrder(s, cats)
    ensures InFirstOccurrenceOrder(Filter(s, p), cats)
    decreases |s|
  {
    if s != [] {
      var tail := Filter(s[1..], p);
      assert InFirstOccurrenceOrder(s[1..], cats) by {
        forall i, j | 0 <= i < j < |s[1..]|
          ensures FirstIndex(cats, s[1..][i]) < FirstIndex(cats, s[1..][j])
        {
          assert s[1..][i] == s[i + 1] && s[1..][j] == s[j + 1];
        }
      }
      FilterKeepsOrder(s[1..], p, cats);
      if p(s[0]) {
        forall j | 0 <= j < |tail| ensures FirstIndex(cats, s[0]) < FirstIndex(cats, tail[j]) {
          assert tail[j] in s[1..];
          var m :| 0 <= m < |s[1..]| && s[1..][m] == tail[j];
          assert s[m + 1] == tail[j];
        }
        OrderCons(s[0], tail, cats);
      }
    }
  }

  /** A key that occurs before every key of an ordered `tail` can lead it. */
  lemma OrderCons(x: JsString, tail: seq<JsString>, cats: seq<JsString>)
    requires x in cats && InFirstOccurrenceOrder(tail, cats)
    requires forall j :: 0 <= j < |tail| ==> FirstIndex(cats, x) < FirstIndex(cats, tail[j])
    ensures InFirstOccurrenceOrder([x] + tail, cats)
  {
    var t := [x] + tail;
    assert forall k :: k in t ==> k == x || k in tail;
    forall i, j | 0 <= i < j < |t| ensures FirstIndex(cats, t[i]) < FirstIndex(cats, t[j]) {
      assert t[j] == tail[j - 1];
      if i > 0 {
        assert t[i] == tail[i - 1];
      } else {
        assert t[i] == x;
      }
    }
  }

  /** With no numeric category, the output follows the first occurrences, first one first. */
  lemma KeptInFirstOccurrenceOrder(cats: seq<JsString>, inherited: set<JsString>)
    requires NoArrayIndex(cats)
    ensures InFirstOccurrenceOrder(Kept(cats, inherited), cats)
  {
    var firsts := Firsts(cats, inherited);
    assert NoArrayIndex(firsts) by {
      forall i | 0 <= i < |firsts| ensures !IsArrayIndex(firsts[i]) {
        assert firsts[i] in cats;
        var m :| 0 <= m < |cats| && cats[m] == firsts[i];
      }
    }
    assert Kept(cats, inherited) == firsts;
    FirstsInFirstOccurrenceOrder(cats, inherited);
  }

  /** Inherited categories leave no first occurrence behind. */
  lemma {:induction false} FirstsOfInherited(cats: seq<JsString>, inherited: set<JsString>)
    requires forall i :: 0 <= i < |cats| ==> cats[i] in inherited
    ensures Firsts(cats, inherited) == []
    decreases |cats|
  {
    if cats != [] {
      FirstsOfInherited(cats[..|cats| - 1], inherited);
    }
  }

  /** A list of records whose categories are all inherited yields none. */
  lemma AllInheritedDropped(cats: seq<JsString>, inherited: set<JsString>)
    requires forall i :: 0 <= i < |cats| ==> cats[i] in inherited
    ensures Kept(cats, inherited) == []
  {
    FirstsOfInherited(cats, inherited);
    var r := OwnKeyOrder([]);
    assert |multiset(r)| == 0;
  }

  /**
   * A record whose category is a name Object.prototype defines, such as
   * "constructor", is dropped, though no other record shares it.
   */
  lemma InheritedCategoryDropped(k: JsString)
    requires k in ObjectPrototypeNames
    ensures KeptKeys([k]) == []
  {
    AllInheritedDropped([k], ObjectPrototypeNames);
  }

  /** With a dictionary that inherits nothing, a lone record is always kept. */
  lemma NullPrototypeKeepsLoneCategory(k: JsString)
    ensures KeptKeysNullPrototype([k]) == [k]
  {
    var r := KeptKeysNullPrototype([k]);
    assert forall x :: x in [k] <==> x == k;
    LoneDistinct(r, k);
  }

  /** A category named twice is kept once. */
  lemma RepeatedCategoryKeptOnce(c: JsString, inherited: set<JsString>)
    requires c !in inherited
    ensures Kept([c, c], inherited) == [c]
  {
    var r := Kept([c, c], inherited);
    assert forall k :: k in [c, c] <==> k == c;
    LoneDistinct(r, c);
  }

  /** The two rules agree whenever no category is a name Object.prototype defines. */
  lemma KeptKeysWithoutInheritedNames(cats: seq<JsString>)
    requires forall i :: 0 <= i < |cats| ==> cats[i] !in ObjectPrototypeNames
    ensures KeptKeys(cats) == KeptKeysNullPrototype(cats)
  {
    FirstsIgnoresAbsentNames(cats, ObjectPrototypeNames);
  }
}

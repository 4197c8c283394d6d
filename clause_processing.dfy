/**
 * `processClausesWithWarnings` as the source writes it: a pass that fills a
 * dictionary keyed by category, then a pass that stamps each surviving
 * clause object in place with a status and, for an expiry, a warning.
 */
module ClauseProcessing {
  import opened Wrappers
  import opened JsStrings
  import opened PropertyKeys
  import opened Clauses

  /**
   * One clause object of the model's JSON answer. `status` is `None` until
   * the post-processor writes it; `warning` is whatever the answer carried
   * (normally nothing) until an expiry warning overwrites it.
   */
  class ClauseRecord {
    var category: JsString
    var clause: JsString
    var explanation: JsString
    var riskLevel: JsString
    var dateFound: DateFound
    var status: Option<Status>
    var warning: Option<JsString>

    constructor (category: JsString, clause: JsString, explanation: JsString, riskLevel: JsString,
                 dateFound: DateFound, warning: Option<JsString>)
      ensures this.category == category && this.clause == clause
      ensures this.explanation == explanation && this.riskLevel == riskLevel
      ensures this.dateFound == dateFound && this.warning == warning
      ensures this.status == None
    {
      this.category := category;
      this.clause := clause;
      this.explanation := explanation;
      this.riskLevel := riskLevel;
      this.dateFound := dateFound;
      this.status := None;
      this.warning := warning;
    }
  }

  /** The categories of a list of clause objects, in list order. */
  function Categories(clauses: seq<ClauseRecord>): (cats: seq<JsString>)
    reads clauses
    ensures |cats| == |clauses|
    ensures forall i :: 0 <= i < |clauses| ==> cats[i] == clauses[i].category
  {
    seq(|clauses|, i reads clauses requires 0 <= i < |clauses| => clauses[i].category)
  }

  /** One step of the deduplication pass, on categories. */
  lemma DeduplicateStep(cats: seq<JsString>, i: nat, inherited: set<JsString>)
    requires i < |cats|
    ensures var seen := Firsts(cats[..i], inherited);
      Firsts(cats[..i + 1], inherited)
      == if cats[i] in seen || cats[i] in inherited then seen else seen + [cats[i]]
    ensures var seen := Firsts(cats[..i], inherited);
      !(cats[i] in seen || cats[i] in inherited) ==> FirstIndex(cats, cats[i]) == i
  {
    assert cats[..i + 1][..i] == cats[..i];
    var seen := Firsts(cats[..i], inherited);
    if !(cats[i] in seen || cats[i] in inherited) {
      FirstIndexAt(cats, i);
    }
  }

  /** After the pass, the dictionary lists the first clause object of each kept category. */
  lemma DeduplicateResult(clauses: seq<ClauseRecord>, cats: seq<JsString>, inherited: set<JsString>,
                          table: map<JsString, ClauseRecord>, order: seq<JsString>, keys: seq<JsString>)
    requires order == Firsts(cats, inherited) && keys == OwnKeyOrder(order)
    requires forall k :: k in table <==> k in order
    ensures keys == Kept(cats, inherited)
    ensures forall k :: k in keys ==> k in table
  {
  }

  /**
   * The `forEach` pass over a dictionary whose prototype supplies the names
   * `inherited`: `table` holds the dictionary's own properties and `order`
   * the order in which they were created.
   */
  method FillTable(clauses: seq<ClauseRecord>, inherited: set<JsString>)
    returns (table: map<JsString, ClauseRecord>, order: seq<JsString>)
    ensures order == Firsts(Categories(clauses), inherited)
    ensures forall k :: k in table <==> k in order
    ensures forall k :: k in table ==>
      k in Categories(clauses) && table[k] == clauses[FirstIndex(Categories(clauses), k)]
  {
    var cats := Categories(clauses);
    table := map[];
    order := [];
    for i := 0 to |clauses|
      invariant order == Firsts(cats[..i], inherited)
      invariant forall k :: k in table <==> k in order
      invariant forall k :: k in table ==> k in cats && table[k] == clauses[FirstIndex(cats, k)]
    {
      var k := clauses[i].category;
      DeduplicateStep(cats, i, inherited);
      // A lookup is truthy for a stored clause object and for an inherited member.
      if !(k in table || k in inherited) {
        table := table[k := clauses[i]];
        order := order + [k];
      }
    }
    assert cats[..|clauses|] == cats;
  }

  /**
   * `unique`, whose categories are `uniqueCats`, is what deduplicating
   * `clauses`, whose categories are `cats`, in a dictionary that inherits
   * `inherited` yields: one clause object per kept category, in the order
   * of `Kept`, each the first in `clauses` with that category.
   */
  predicate IsDeduplication(unique: seq<ClauseRecord>, uniqueCats: seq<JsString>,
                            clauses: seq<ClauseRecord>, cats: seq<JsString>, inherited: set<JsString>)
  {
    && |cats| == |clauses|
    && uniqueCats == Kept(cats, inherited)
    && |unique| == |uniqueCats|
    && forall j :: 0 <= j < |unique| ==>
         && uniqueCats[j] in cats
         && unique[j] == clauses[FirstIndex(cats, uniqueCats[j])]
  }

  /**
   * A deduplication is no longer than its input, lists each category once,
   * keeps exactly the categories not inherited, and is empty for an empty input.
   */
  lemma DeduplicationBounds(unique: seq<ClauseRecord>, uniqueCats: seq<JsString>,
                            clauses: seq<ClauseRecord>, cats: seq<JsString>, inherited: set<JsString>)
    requires IsDeduplication(unique, uniqueCats, clauses, cats, inherited)
    ensures |unique| <= |clauses|
    ensures NoDuplicates(uniqueCats)
    ensures forall k :: k in uniqueCats <==> k in cats && k !in inherited
    ensures clauses == [] ==> unique == []
  {
  }

  /** Of two clause objects with the same category, only the first survives. */
  lemma LaterDuplicateDiscarded(unique: seq<ClauseRecord>, uniqueCats: seq<JsString>,
                                clauses: seq<ClauseRecord>, c: JsString, inherited: set<JsString>)
    requires IsDeduplication(unique, uniqueCats, clauses, [c, c], inherited)
    requires c !in inherited
    ensures |unique| == 1 && unique[0] == clauses[0]
  {
    assert uniqueCats == [c] by {
      RepeatedCategoryKeptOnce(c, inherited);
    }
    assert unique[0] == clauses[0] by {
      assert FirstIndex([c, c], c) == 0;
    }
  }

  /**
   * The deduplication pass and `Object.values`: the first clause object of
   * each category the dictionary does not inherit, listed in own-key order.
   */
  method Deduplicate(clauses: seq<ClauseRecord>, inherited: set<JsString>) returns (unique: seq<ClauseRecord>)
    ensures IsDeduplication(unique, Categories(unique), clauses, Categories(clauses), inherited)
    ensures forall j :: 0 <= j < |unique| ==> unique[j] in clauses
    ensures NoDuplicates(unique)
  {
    var cats := Categories(clauses);
    var table, order := FillTable(clauses, inherited);
    var keys := OwnKeyOrder(order);
    DeduplicateResult(clauses, cats, inherited, table, order, keys);
    unique := seq(|keys|, j requires 0 <= j < |keys| => table[keys[j]]);
    assert forall j :: 0 <= j < |unique| ==> unique[j] == clauses[FirstIndex(cats, keys[j])];
    assert forall j :: 0 <= j < |unique| ==> unique[j] in clauses by {
      forall j | 0 <= j < |unique| ensures unique[j] in clauses {
        assert unique[j] == clauses[FirstIndex(cats, keys[j])];
      }
    }
    assert Categories(unique) == keys by {
      forall j | 0 <= j < |keys| ensures Categories(unique)[j] == keys[j] {
        assert unique[j] == clauses[FirstIndex(cats, keys[j])];
      }
    }
    DistinctByCategory(unique);
  }

  /** Clause objects with distinct categories are distinct objects. */
  lemma DistinctByCategory(items: seq<ClauseRecord>)
    requires NoDuplicates(Categories(items))
    ensures NoDuplicates(items)
  {
    forall a, b | 0 <= a < b < |items| ensures items[a] != items[b] {
      assert Categories(items)[a] != Categories(items)[b];
    }
  }

  /** What the stamping pass leaves in `item`, its other fields being as they were. */
  twostate predicate Stamped(item: ClauseRecord, today: int)
    reads item
  {
    var s := StampFor(item.category, item.dateFound, today);
    && item.status == Some(s.status)
    && item.warning == (if s.warning.Some? then s.warning else old(item.warning))
  }

  /** The fields the post-processor never writes. */
  twostate predicate PayloadUnchanged(item: ClauseRecord)
    reads item
  {
    && item.category == old(item.category)
    && item.clause == old(item.clause)
    && item.explanation == old(item.explanation)
    && item.riskLevel == old(item.riskLevel)
    && item.dateFound == old(item.dateFound)
  }

  /**
   * The body of the `map` callback: status "INFO" first, then for a dated
   * expiry the status and warning the day difference selects.
   */
  method StampClause(item: ClauseRecord, today: int)
    modifies item`status, item`warning
    ensures Stamped(item, today)
  {
    item.status := Some(Info);
    if item.category == ExpirationCategory && !item.dateFound.Missing? {
      if item.dateFound.Timestamp? {
        var diffDays := DiffDays(item.dateFound.ms, today);
        if diffDays < 0 {
          item.status := Some(Expired);
          item.warning := Some(PolicyEndedWarning);
        } else if diffDays <= UrgentWindowDays {
          item.status := Some(Urgent);
          item.warning := Some(EndsInWarning(diffDays));
        } else {
          item.status := Some(Active);
        }
      } else {
        // A time value of NaN fails both comparisons.
        item.status := Some(Active);
      }
    }
  }

  /**
   * The `map` pass over the kept clause objects `kept`, distinct and taken
   * from `clauses`: each one stamped, nothing else written.
   */
  method StampAll(clauses: seq<ClauseRecord>, kept: seq<ClauseRecord>, today: int)
    requires forall j :: 0 <= j < |kept| ==> kept[j] in clauses
    requires NoDuplicates(kept)
    modifies kept
    ensures forall j :: 0 <= j < |kept| ==> Stamped(kept[j], today)
    ensures Categories(kept) == old(Categories(kept))
    ensures forall r :: r in clauses ==> PayloadUnchanged(r)
    ensures forall r :: r in clauses && r !in kept ==> r.status == old(r.status) && r.warning == old(r.warning)
  {
    for j := 0 to |kept|
      invariant forall r :: r in kept ==> PayloadUnchanged(r)
      invariant forall i :: 0 <= i < j ==> Stamped(kept[i], today)
      invariant forall i :: j <= i < |kept| ==>
        kept[i].status == old(kept[i].status) && kept[i].warning == old(kept[i].warning)
    {
      StampClause(kept[j], today);
    }
    assert Categories(kept) == old(Categories(kept)) by {
      forall j | 0 <= j < |kept| ensures Categories(kept)[j] == old(Categories(kept))[j] {
        assert PayloadUnchanged(kept[j]);
      }
    }
    forall r | r in clauses ensures PayloadUnchanged(r) {
      if r in kept {
        assert PayloadUnchanged(r);
      }
    }
  }

  /**
   * `processClausesWithWarnings(clauses)` with the clock reading `today`:
   * the clause objects deduplicated in `{}`, which inherits Object.prototype,
   * each stamped in place; the discarded ones, and every field besides
   * `status` and `warning`, are left as they were.
   */
  method ProcessClausesWithWarnings(clauses: seq<ClauseRecord>, today: int) returns (out: seq<ClauseRecord>)
    modifies clauses
    ensures IsDeduplication(out, Categories(out), clauses, old(Categories(clauses)), ObjectPrototypeNames)
    ensures forall j :: 0 <= j < |out| ==> out[j] in clauses
    ensures forall j :: 0 <= j < |out| ==> Stamped(out[j], today)
    ensures forall r :: r in clauses ==> PayloadUnchanged(r)
    ensures forall r :: r in clauses && r !in out ==> r.status == old(r.status) && r.warning == old(r.warning)
  {
    out := Deduplicate(clauses, ObjectPrototypeNames);
    label Deduplicated:
    StampAll(clauses, out, today);
    forall j | 0 <= j < |out| ensures Stamped(out[j], today) {
      assert Stamped@Deduplicated(out[j], today);
    }
  }
}

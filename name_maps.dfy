/** The resolved name map and how records build it: one entry per record,
    inserted in table order, a later entry for the same (key, tag) slot
    overwriting an earlier one. */
module NameMaps {
  import opened Types
  import opened Text
  import opened NameLookup

  /** name key -> BCP-47 tag -> text */
  type NameMap = map<NameKey, map<Tag, JsString>>

  /** The map holds a text for key k and tag t. */
  predicate Has(m: NameMap, k: NameKey, t: Tag)
  {
    k in m && t in m[k]
  }

  /** Sets m[key][tag] := text for a present entry, creating the inner map
      on first use; a dropped record (None) leaves the map as it was. */
  function Insert(m: NameMap, e: Option<Entry>): (r: NameMap)
    ensures e.None? ==> r == m
    ensures e.Some? ==> Has(r, e.value.key, e.value.tag) && r[e.value.key][e.value.tag] == e.value.text
    ensures forall k, t :: e.None? || k != e.value.key || t != e.value.tag ==>
      (Has(r, k, t) <==> Has(m, k, t)) && (Has(m, k, t) ==> r[k][t] == m[k][t])
    ensures forall k :: k in r ==> k in m || (e.Some? && k == e.value.key)
  {
    if e.None? then m
    else
      var inner := if e.value.key in m then m[e.value.key] else map[];
      m[e.value.key := inner[e.value.tag := e.value.text]]
  }

  /** Some entry carries key k. */
  ghost predicate KeyWritten(es: seq<Option<Entry>>, k: NameKey)
  {
    exists i :: 0 <= i < |es| && es[i].Some? && es[i].value.key == k
  }

  /** The map that the entries build, inserted first to last: every key in
      it comes from some entry, and no entries build the empty map. */
  function BuildMap(es: seq<Option<Entry>>): (m: NameMap)
    ensures forall k :: k in m ==> KeyWritten(es, k)
    ensures es == [] ==> m == map[]
    decreases |es|
  {
    if es == [] then map[] else Insert(BuildMap(es[..|es| - 1]), es[|es| - 1])
  }

  lemma BuildMapSnoc(es: seq<Option<Entry>>, e: Option<Entry>)
    ensures BuildMap(es + [e]) == Insert(BuildMap(es), e)
  {
    assert (es + [e])[..|es|] == es;
  }

  /** Some entry writes slot (k, t). */
  ghost predicate Written(es: seq<Option<Entry>>, k: NameKey, t: Tag)
  {
    exists i :: 0 <= i < |es| && es[i].Some? && es[i].value.key == k && es[i].value.tag == t
  }

  /** Last write wins: an entry that no later entry overwrites is the text
      found in the map for its key and tag. */
  lemma {:induction false} LastWriteWins(es: seq<Option<Entry>>, i: nat)
    requires i < |es| && es[i].Some?
    requires forall j :: i < j < |es| && es[j].Some? ==>
      es[j].value.key != es[i].value.key || es[j].value.tag != es[i].value.tag
    ensures Has(BuildMap(es), es[i].value.key, es[i].value.tag)
    ensures BuildMap(es)[es[i].value.key][es[i].value.tag] == es[i].value.text
    decreases |es|
  {
    var n := |es|;
    if i < n - 1 {
      var init := es[..n - 1];
      assert init[i] == es[i];
      forall j | i < j < |init| && init[j].Some?
        ensures init[j].value.key != init[i].value.key || init[j].value.tag != init[i].value.tag
      {
        assert init[j] == es[j];
      }
      LastWriteWins(init, i);
    }
  }

  /** The map holds exactly the slots some entry writes, and no key maps to
      an empty inner map: keys without records produce no entry. */
  lemma {:induction false} SlotsAreWritten(es: seq<Option<Entry>>)
    ensures forall k, t :: Has(BuildMap(es), k, t) <==> Written(es, k, t)
    ensures forall k :: k in BuildMap(es) ==> BuildMap(es)[k] != map[]
    decreases |es|
  {
    if es != [] {
      var n := |es|;
      var init := es[..n - 1];
      SlotsAreWritten(init);
      var m := BuildMap(es);
      forall k, t ensures Has(m, k, t) <==> Written(es, k, t) {
        if Written(init, k, t) {
          var i :| 0 <= i < |init| && init[i].Some? && init[i].value.key == k && init[i].value.tag == t;
          assert es[i] == init[i];
        }
        if Written(es, k, t) {
          var i :| 0 <= i < |es| && es[i].Some? && es[i].value.key == k && es[i].value.tag == t;
          if i < n - 1 {
            assert init[i] == es[i];
          }
        }
      }
      forall k | k in m ensures m[k] != map[] {
        if es[n - 1].Some? && k == es[n - 1].value.key {
          assert es[n - 1].value.tag in m[k];
        } else {
          var t :| t in BuildMap(init)[k];
          assert Has(m, k, t);
        }
      }
    }
  }

  /** Entries that are all dropped build the empty map. */
  lemma {:induction false} AllDroppedIsEmpty(es: seq<Option<Entry>>)
    requires forall i :: 0 <= i < |es| ==> es[i].None?
    ensures BuildMap(es) == map[]
    decreases |es|
  {
    if es != [] {
      AllDroppedIsEmpty(es[..|es| - 1]);
    }
  }
}

/** How the dispatcher puts the staged chunks of aggregated writes together. */
module Dispatcher {
  import opened Basics
  import opened Labels

  /** The staged chunks of `ids`, one after the other. */
  function Combined(ids: seq<nat>, warehouse: Warehouse): seq<byte> {
    if ids == [] then []
    else Combined(ids[..|ids| - 1], warehouse) + Staged(warehouse, ids[|ids| - 1])
  }

  lemma {:induction false} CombinedSame(ids: seq<nat>, w: Warehouse, v: Warehouse)
    requires forall id :: id in ids ==> Staged(w, id) == Staged(v, id)
    ensures Combined(ids, w) == Combined(ids, v)
  {
    if ids != [] {
      CombinedSame(ids[..|ids| - 1], w, v);
    }
  }

  predicate IsAggregated(l: Label) {
    l.children != [] && l.kind == Write
  }

  /** Fetches and deletes the chunks one by one; a chunk that is gone is empty. */
  function Gather(ids: seq<nat>, warehouse: Warehouse): (seq<byte>, Warehouse) {
    if ids == [] then ([], warehouse)
    else
      var (chunks, rest) := Gather(ids[..|ids| - 1], warehouse);
      var id := ids[|ids| - 1];
      (chunks + Staged(rest, id), rest - {id})
  }

  /** The warehouse after the dispatcher has handled the independent `labels`. */
  function CombineAll(labels: seq<Label>, warehouse: Warehouse): Warehouse {
    if labels == [] then warehouse
    else
      var before, last := CombineAll(labels[..|labels| - 1], warehouse), labels[|labels| - 1];
      if IsAggregated(last) then
        var (chunks, rest) := Gather(last.children, before);
        rest[last.id := chunks]
      else before
  }

  class Dispatcher {
    var warehouse: Warehouse

    /** Stages the concatenated chunks of each aggregated write under the id of
        the merged label. */
    method CombineAggregates(independent: seq<Label>)
      modifies this
      ensures warehouse == CombineAll(independent, old(warehouse))
    {
      for i := 0 to |independent|
        invariant warehouse == CombineAll(independent[..i], old(warehouse))
      {
        assert independent[..i + 1][..i] == independent[..i];
        var l := independent[i];
        if l.children != [] && l.kind == Write {
          var combined: seq<byte> := [];
          ghost var before := warehouse;
          for k := 0 to |l.children|
            invariant (combined, warehouse) == Gather(l.children[..k], before)
          {
            assert l.children[..k + 1][..k] == l.children[..k];
            var id := l.children[k];
            combined := combined + Staged(warehouse, id);
            warehouse := warehouse - {id};
          }
          assert l.children[..|l.children|] == l.children;
          warehouse := warehouse[l.id := combined];
        }
      }
      assert independent[..|independent|] == independent;
    }
  }

  /** Distinct children each contribute their whole chunk and are then gone. */
  lemma {:induction false} GatherDistinct(ids: seq<nat>, warehouse: Warehouse)
    requires Distinct(ids)
    ensures Gather(ids, warehouse).0 == Combined(ids, warehouse)
    ensures forall id: nat :: Staged(Gather(ids, warehouse).1, id) == if id in ids then [] else Staged(warehouse, id)
  {
    if ids != [] {
      var init := ids[..|ids| - 1];
      assert ids == init + [ids[|ids| - 1]];
      GatherDistinct(init, warehouse);
    }
  }
}

/** FinancialLineItemWriter over the table it updates in place. One call is one transaction:
    a constraint violation rolls it back. */
module Ledger {
  import opened Wrappers
  import opened LedgerSpec

  /** What one more item adds to the rows to insert and the ids to restate. */
  lemma NextItem(rows: seq<LedgerRow>, items: seq<Item>, i: nat)
    requires i < |items|
    ensures var inserts := NewRows(AcceptedBelow(rows, items, i));
            NewRows(AcceptedBelow(rows, items, i + 1)) == if Accepts(rows, items[i]) then inserts + [NewRow(items[i])] else inserts
    ensures var ids := SupersededBelow(rows, items, i);
            SupersededBelow(rows, items, i + 1) ==
              if Accepts(rows, items[i]) && Existing(rows, items[i].key).Some?
              then ids + [Existing(rows, items[i].key).value] else ids
  {
  }

  class FinancialLineItemTable {
    var rows: seq<LedgerRow>

    constructor ()
      ensures rows == []
    {
      rows := [];
    }

    /** The ids of the current rows that share a key with an incoming item. */
    method FetchExistingNonRestated(items: seq<Item>) returns (found: map<Key, nat>)
      ensures forall item :: item in items ==>
        Existing(rows, item.key) == if item.key in found then Some(found[item.key]) else None
    {
      var keys := set item | item in items :: item.key;
      found := map[];
      for id := 0 to |rows|
        invariant forall key :: key in keys ==>
          ExistingBelow(rows, key, id) == if key in found then Some(found[key]) else None
      {
        if rows[id].key in keys && !rows[id].isRestated {
          found := found[rows[id].key := id];
        }
      }
    }

    /** The classification loop: what to insert, what to restate, and the counts. */
    method Classify(items: seq<Item>) returns (toInsert: seq<LedgerRow>, idsToRestate: seq<nat>, counts: WriteCounts)
      ensures toInsert == NewRows(Accepted(rows, items))
      ensures idsToRestate == Superseded(rows, items)
      ensures forall k :: 0 <= k < |idsToRestate| ==> idsToRestate[k] < |rows|
      ensures counts == WriteCounts(|toInsert|, |idsToRestate|, |items| - |toInsert|)
    {
      var existing := FetchExistingNonRestated(items);
      toInsert, idsToRestate, counts := [], [], WriteCounts(0, 0, 0);
      for i := 0 to |items|
        invariant toInsert == NewRows(AcceptedBelow(rows, items, i))
        invariant idsToRestate == SupersededBelow(rows, items, i)
        invariant forall k :: 0 <= k < |idsToRestate| ==> idsToRestate[k] < |rows|
        invariant counts == WriteCounts(|toInsert|, |idsToRestate|, i - |toInsert|)
      {
        var item := items[i];
        assert item in items;
        NextItem(rows, items, i);
        if item.key !in existing {
          toInsert := toInsert + [NewRow(item)];
          counts := counts.(inserted := counts.inserted + 1);
        } else if item.filingDate > rows[existing[item.key]].filingDate {
          idsToRestate := idsToRestate + [existing[item.key]];
          toInsert := toInsert + [NewRow(item)];
          counts := counts.(inserted := counts.inserted + 1, restated := counts.restated + 1);
        } else {
          counts := counts.(skipped := counts.skipped + 1);
        }
      }
    }

    /** UPDATE ... SET is_restated WHERE id IN ids. */
    method Restate(ids: seq<nat>)
      requires forall k :: 0 <= k < |ids| ==> ids[k] < |rows|
      modifies this
      ensures rows == Flagged(old(rows), ids)
    {
      for k := 0 to |ids|
        invariant rows == Flagged(old(rows), ids[..k])
      {
        rows := rows[ids[k] := rows[ids[k]].(isRestated := true)];
      }
      assert ids[..|ids|] == ids;
    }

    /** The bulk INSERT, row by row against the point-in-time constraint. Stops at the first
        row that breaks it. */
    method InsertAll(toInsert: seq<LedgerRow>) returns (ok: bool)
      requires PointInTimeUnique(rows)
      modifies this
      ensures ok <==> PointInTimeUnique(old(rows) + toInsert)
      ensures ok ==> rows == old(rows) + toInsert
    {
      ghost var all := rows + toInsert;
      ghost var n := |rows|;
      for k := 0 to |toInsert|
        invariant rows == all[..n + k] && PointInTimeUnique(rows)
      {
        var row := toInsert[k];
        assert all[n + k] == row;
        if exists i :: 0 <= i < |rows| && rows[i].key == row.key && rows[i].filingDate == row.filingDate {
          ghost var i :| 0 <= i < |rows| && rows[i].key == row.key && rows[i].filingDate == row.filingDate;
          assert all[i] == rows[i];
          return false;
        }
        rows := rows + [row];
      }
      return true;
    }

    method Write(items: seq<Item>) returns (result: Result<WriteCounts, ()>)
      requires PointInTimeUnique(rows)
      modifies this
      ensures rows == Commit(old(rows), items) && PointInTimeUnique(rows)
      ensures result.Ok? <==> PointInTimeUnique(After(old(rows), items))
      ensures result.Ok? ==>
        var inserted := |Accepted(old(rows), items)|;
        result.value == WriteCounts(inserted, |Superseded(old(rows), items)|, |items| - inserted)
      ensures if result.Ok? then Appends(old(rows), items, rows) else rows == old(rows)
    {
      var saved := rows;
      var toInsert, idsToRestate, counts := Classify(items);
      Restate(idsToRestate);
      var ok := InsertAll(toInsert);
      if !ok {
        rows := saved;
        return Err(());
      }
      AfterAppends(saved, items);
      return Ok(counts);
    }
  }
}

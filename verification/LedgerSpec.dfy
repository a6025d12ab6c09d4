/** The point-in-time restatement ledger: what one committed batch of the writer does to the
    table, and what every run of the writer keeps. Rows are never removed, so a row's id is
    its position. */
module LedgerSpec {
  import opened Wrappers
  import opened Calendar
  import opened Decimals

  const HIGH_PRECISION_FIELDS := {"eps_basic", "eps_diluted", "shares_basic", "shares_diluted", "book_value_per_share"}

  datatype Key = Key(companyId: string, fiscalYear: int, fiscalPeriod: string, canonicalField: string)

  datatype Item = Item(key: Key, filingDate: Date, value: Option<real>)

  datatype LedgerRow = LedgerRow(key: Key, filingDate: Date, isRestated: bool, value: Option<real>)

  datatype WriteCounts = WriteCounts(inserted: nat, restated: nat, skipped: nat)

  /** The value the writer binds: ten places for a per-share field, two for any other. */
  function BoundValue(field: string, value: real): real
  {
    if field in HIGH_PRECISION_FIELDS then QuantiseRate(value) else QuantiseMoney(value)
  }

  /** What the value column, NUMERIC(26,2) for every field, keeps of a bound value: PostgreSQL
      rounds it to two places, ties away from zero. */
  function ColumnValue(bound: real): real
  {
    QuantiseMoneyHalfUp(bound)
  }

  function StoredValue(field: string, value: real): real
  {
    ColumnValue(BoundValue(field, value))
  }

  /** A bound value is within half a unit of its field's precision tier of the value submitted. */
  lemma BoundValueIsNear(field: string, value: real)
    ensures var unit := if field in HIGH_PRECISION_FIELDS then RATE_UNIT else MONEY_UNIT;
            -0.5 * unit <= BoundValue(field, value) - value <= 0.5 * unit
  {
    QuantiseRateFacts(value);
    QuantiseMoneyFacts(value);
  }

  /** The column keeps a bound value as it is exactly when it has two places. */
  lemma ColumnKeepsIff(bound: real)
    ensures ColumnValue(bound) == bound <==> IsMoney(bound)
  {
    QuantiseMoneyFacts(bound);
  }

  /** A stored value has two places. Of a per-share field it was rounded twice, and is within
      half a cent and half a unit of the tenth place of the value submitted; of any other field
      the column kept what was bound, within half a cent. */
  lemma StoredValueIsNear(field: string, value: real)
    ensures var stored, perShare := StoredValue(field, value), field in HIGH_PRECISION_FIELDS;
            var slack := 0.5 * MONEY_UNIT + if perShare then 0.5 * RATE_UNIT else 0.0;
            && IsMoney(stored) && -slack <= stored - value <= slack
            && (!perShare ==> stored == BoundValue(field, value))
  {
    BoundValueIsNear(field, value);
    QuantiseMoneyFacts(value);
    QuantiseMoneyFacts(BoundValue(field, value));
  }

  /** Earnings per share of 1.2345 are bound with all four places and stored as 1.23. */
  lemma PerShareLosesPlaces()
    ensures BoundValue("eps_basic", 1.2345) == 1.2345 && StoredValue("eps_basic", 1.2345) == 1.23
  {
    QuantiseRateFacts(1.2345);
  }

  function NewRow(item: Item): LedgerRow
  {
    LedgerRow(item.key, item.filingDate, false,
              match item.value case None => None case Some(v) => Some(StoredValue(item.key.canonicalField, v)))
  }

  /** The current row of a key; the last one in table order if there are several. */
  function Existing(rows: seq<LedgerRow>, key: Key): (id: Option<nat>)
    ensures id.Some? ==> id.value < |rows| && rows[id.value].key == key && !rows[id.value].isRestated
    ensures id.Some? ==> forall i :: id.value < i < |rows| ==> rows[i].key != key || rows[i].isRestated
    ensures id.None? ==> forall i :: 0 <= i < |rows| ==> rows[i].key != key || rows[i].isRestated
  {
    ExistingBelow(rows, key, |rows|)
  }

  function ExistingBelow(rows: seq<LedgerRow>, key: Key, n: nat): (id: Option<nat>)
    requires n <= |rows|
    ensures id.Some? ==> id.value < n && rows[id.value].key == key && !rows[id.value].isRestated
    ensures id.Some? ==> forall i :: id.value < i < n ==> rows[i].key != key || rows[i].isRestated
    ensures id.None? ==> forall i :: 0 <= i < n ==> rows[i].key != key || rows[i].isRestated
  {
    if n == 0 then None
    else if rows[n - 1].key == key && !rows[n - 1].isRestated then Some(n - 1)
    else ExistingBelow(rows, key, n - 1)
  }

  function CurrentDate(rows: seq<LedgerRow>, key: Key): Option<Date>
  {
    match Existing(rows, key)
    case None => None
    case Some(id) => Some(rows[id].filingDate)
  }

  /** An item is inserted when its key has no current row, or an older one; else it is skipped. */
  predicate Accepts(rows: seq<LedgerRow>, item: Item)
  {
    match CurrentDate(rows, item.key)
    case None => true
    case Some(date) => item.filingDate > date
  }

  function Accepted(rows: seq<LedgerRow>, items: seq<Item>): (accepted: seq<Item>)
    ensures |accepted| <= |items|
    ensures forall item :: item in accepted <==> item in items && Accepts(rows, item)
  {
    AcceptedBelowMeans(rows, items, |items|);
    AcceptedBelow(rows, items, |items|)
  }

  /** The accepted ones of the first n items, in order. */
  function AcceptedBelow(rows: seq<LedgerRow>, items: seq<Item>, n: nat): (accepted: seq<Item>)
    requires n <= |items|
    ensures |accepted| <= n
  {
    if n == 0 then []
    else
      var earlier := AcceptedBelow(rows, items, n - 1);
      if Accepts(rows, items[n - 1]) then earlier + [items[n - 1]] else earlier
  }

  lemma {:induction false} AcceptedBelowMeans(rows: seq<LedgerRow>, items: seq<Item>, n: nat)
    requires n <= |items|
    ensures forall item :: item in AcceptedBelow(rows, items, n) <==> item in items[..n] && Accepts(rows, item)
  {
    if n > 0 {
      AcceptedBelowMeans(rows, items, n - 1);
      assert items[..n] == items[..n - 1] + [items[n - 1]];
    }
  }

  /** The ids of the rows that accepted items supersede, one entry per such item. */
  function Superseded(rows: seq<LedgerRow>, items: seq<Item>): (ids: seq<nat>)
    ensures forall id :: id in ids <==> exists i :: 0 <= i < |items| && Supersedes(rows, items[i], id)
  {
    SupersededBelowMeans(rows, items, |items|);
    SupersededBelow(rows, items, |items|)
  }

  predicate Supersedes(rows: seq<LedgerRow>, item: Item, id: nat)
  {
    Accepts(rows, item) && Existing(rows, item.key) == Some(id)
  }

  function SupersededBelow(rows: seq<LedgerRow>, items: seq<Item>, n: nat): seq<nat>
    requires n <= |items|
  {
    if n == 0 then []
    else
      var earlier := SupersededBelow(rows, items, n - 1);
      if Accepts(rows, items[n - 1]) && Existing(rows, items[n - 1].key).Some?
      then earlier + [Existing(rows, items[n - 1].key).value]
      else earlier
  }

  lemma {:induction false} SupersededBelowMeans(rows: seq<LedgerRow>, items: seq<Item>, n: nat)
    requires n <= |items|
    ensures forall id :: id in SupersededBelow(rows, items, n) <==> exists i :: 0 <= i < n && Supersedes(rows, items[i], id)
  {
    if n > 0 {
      SupersededBelowMeans(rows, items, n - 1);
    }
  }

  function Flagged(rows: seq<LedgerRow>, ids: seq<nat>): (flagged: seq<LedgerRow>)
    ensures |flagged| == |rows|
  {
    seq(|rows|, i requires 0 <= i < |rows| => if i in ids then rows[i].(isRestated := true) else rows[i])
  }

  function NewRows(items: seq<Item>): (rows: seq<LedgerRow>)
    ensures |rows| == |items|
  {
    seq(|items|, i requires 0 <= i < |items| => NewRow(items[i]))
  }

  /** The table once the batch's restatements and inserts are applied. */
  function After(rows: seq<LedgerRow>, items: seq<Item>): seq<LedgerRow>
  {
    Flagged(rows, Superseded(rows, items)) + NewRows(Accepted(rows, items))
  }

  /** uq_financial_line_items_point_in_time. */
  predicate PointInTimeUnique(rows: seq<LedgerRow>)
  {
    forall i, j :: 0 <= i < j < |rows| ==> rows[i].key != rows[j].key || rows[i].filingDate != rows[j].filingDate
  }

  /** A batch commits unless it breaks the constraint; then the table stays as it was. */
  function Commit(rows: seq<LedgerRow>, items: seq<Item>): seq<LedgerRow>
  {
    if PointInTimeUnique(After(rows, items)) then After(rows, items) else rows
  }

  function Run(rows: seq<LedgerRow>, batches: seq<seq<Item>>): seq<LedgerRow>
  {
    if batches == [] then rows else Commit(Run(rows, batches[..|batches| - 1]), batches[|batches| - 1])
  }

  // ---- the invariant ----

  predicate HasCurrent(rows: seq<LedgerRow>, key: Key)
  {
    exists c :: 0 <= c < |rows| && rows[c].key == key && !rows[c].isRestated
  }

  /** Row c of a key is later than its every other row. */
  predicate Newest(rows: seq<LedgerRow>, c: nat)
    requires c < |rows|
  {
    forall i :: 0 <= i < |rows| && i != c && rows[i].key == rows[c].key ==> rows[i].filingDate < rows[c].filingDate
  }

  /** Each key has no row, or exactly one current row, whose filing date is strictly the
      largest of the key. */
  predicate Consistent(rows: seq<LedgerRow>)
  {
    && PointInTimeUnique(rows)
    && (forall i :: 0 <= i < |rows| ==> HasCurrent(rows, rows[i].key))
    && (forall c :: 0 <= c < |rows| && !rows[c].isRestated ==> Newest(rows, c))
  }

  predicate DistinctKeys(items: seq<Item>)
  {
    forall i, j :: 0 <= i < j < |items| ==> items[i].key != items[j].key
  }

  predicate DistinctPoints(items: seq<Item>)
  {
    forall i, j :: 0 <= i < j < |items| ==> items[i].key != items[j].key || items[i].filingDate != items[j].filingDate
  }

  predicate OneDate(items: seq<Item>)
  {
    forall i, j :: 0 <= i < j < |items| ==> items[i].filingDate == items[j].filingDate
  }

  /** In a consistent table the current row of a key is the row a scan finds, a key without
      one has no row at all, and an accepted item is later than every row of its key. */
  lemma AcceptedIsNewest(rows: seq<LedgerRow>, item: Item, i: nat)
    requires Consistent(rows) && Accepts(rows, item)
    requires i < |rows| && rows[i].key == item.key
    ensures rows[i].filingDate < item.filingDate
  {
    assert HasCurrent(rows, rows[i].key);
    var c := Existing(rows, item.key).value;
    assert Newest(rows, c);
  }

  lemma CurrentIsExisting(rows: seq<LedgerRow>, c: nat)
    requires Consistent(rows) && c < |rows| && !rows[c].isRestated
    ensures Existing(rows, rows[c].key) == Some(c)
  {
    var e := Existing(rows, rows[c].key).value;
    assert Newest(rows, c) && Newest(rows, e);
  }

  predicate HasKey(items: seq<Item>, key: Key)
  {
    exists a :: 0 <= a < |items| && items[a].key == key
  }

  /** What a consistent table and its accepted items look like together: each accepted item is
      later than every row of its key, and `after` is the table with the rows of those keys
      restated and the items appended as current rows. */
  predicate Extends(rows: seq<LedgerRow>, accepted: seq<Item>, after: seq<LedgerRow>)
  {
    && |after| == |rows| + |accepted|
    && (forall i :: 0 <= i < |rows| ==>
          after[i] == rows[i].(isRestated := rows[i].isRestated || HasKey(accepted, rows[i].key)))
    && (forall a :: 0 <= a < |accepted| ==> after[|rows| + a] == NewRow(accepted[a]))
    && (forall a, i :: 0 <= a < |accepted| && 0 <= i < |rows| && rows[i].key == accepted[a].key ==>
          rows[i].filingDate < accepted[a].filingDate)
  }

  lemma FlaggedIffAccepted(rows: seq<LedgerRow>, items: seq<Item>, i: nat)
    requires Consistent(rows) && i < |rows|
    ensures rows[i].isRestated || i in Superseded(rows, items)
        <==> rows[i].isRestated || HasKey(Accepted(rows, items), rows[i].key)
  {
    var accepted := Accepted(rows, items);
    if i in Superseded(rows, items) {
      var k :| 0 <= k < |items| && Supersedes(rows, items[k], i);
      assert items[k] in accepted;
      var a :| 0 <= a < |accepted| && accepted[a] == items[k];
    }
    if !rows[i].isRestated && HasKey(accepted, rows[i].key) {
      CurrentIsExisting(rows, i);
      var a :| 0 <= a < |accepted| && accepted[a].key == rows[i].key;
      assert accepted[a] in accepted;
      var k :| 0 <= k < |items| && items[k] == accepted[a];
      assert Supersedes(rows, items[k], i);
    }
  }

  lemma AfterExtends(rows: seq<LedgerRow>, items: seq<Item>)
    requires Consistent(rows)
    ensures Extends(rows, Accepted(rows, items), After(rows, items))
  {
    var accepted := Accepted(rows, items);
    forall i | 0 <= i < |rows|
      ensures After(rows, items)[i] == rows[i].(isRestated := rows[i].isRestated || HasKey(accepted, rows[i].key))
    {
      FlaggedIffAccepted(rows, items, i);
    }
    forall a, i | 0 <= a < |accepted| && 0 <= i < |rows| && rows[i].key == accepted[a].key
      ensures rows[i].filingDate < accepted[a].filingDate
    {
      assert accepted[a] in accepted;
      AcceptedIsNewest(rows, accepted[a], i);
    }
  }

  lemma UniqueIff(rows: seq<LedgerRow>, accepted: seq<Item>, after: seq<LedgerRow>)
    requires PointInTimeUnique(rows) && Extends(rows, accepted, after)
    ensures PointInTimeUnique(after) <==> DistinctPoints(accepted)
  {
    var n := |rows|;
    if DistinctPoints(accepted) {
      forall i, j | 0 <= i < j < |after| ensures after[i].key != after[j].key || after[i].filingDate != after[j].filingDate {
        assert j >= n ==> after[j] == NewRow(accepted[j - n]);
        assert i >= n ==> after[i] == NewRow(accepted[i - n]);
      }
    } else {
      var i, j :| 0 <= i < j < |accepted| && accepted[i].key == accepted[j].key && accepted[i].filingDate == accepted[j].filingDate;
      assert after[n + i] == NewRow(accepted[i]) && after[n + j] == NewRow(accepted[j]);
    }
  }

  /** Exactly when a batch commits: no two of its accepted items share key and filing date. */
  lemma CommitsIff(rows: seq<LedgerRow>, items: seq<Item>)
    requires Consistent(rows)
    ensures PointInTimeUnique(After(rows, items)) <==> DistinctPoints(Accepted(rows, items))
  {
    AfterExtends(rows, items);
    UniqueIff(rows, Accepted(rows, items), After(rows, items));
  }

  lemma ExtendedHasCurrent(rows: seq<LedgerRow>, accepted: seq<Item>, after: seq<LedgerRow>, i: nat)
    requires Extends(rows, accepted, after) && i < |after|
    requires i < |rows| ==> HasCurrent(rows, rows[i].key)
    ensures HasCurrent(after, after[i].key)
  {
    var n := |rows|;
    if i >= n {
      assert after[i] == NewRow(accepted[i - n]);
    } else if HasKey(accepted, rows[i].key) {
      var a :| 0 <= a < |accepted| && accepted[a].key == rows[i].key;
      assert after[n + a] == NewRow(accepted[a]);
    } else {
      var c :| 0 <= c < |rows| && rows[c].key == rows[i].key && !rows[c].isRestated;
      assert after[c].key == after[i].key && !after[c].isRestated;
    }
  }

  lemma ExtendedIsNewest(rows: seq<LedgerRow>, accepted: seq<Item>, after: seq<LedgerRow>, c: nat)
    requires Extends(rows, accepted, after) && DistinctKeys(accepted)
    requires c < |after| && !after[c].isRestated
    requires c < |rows| && !rows[c].isRestated ==> Newest(rows, c)
    ensures Newest(after, c)
  {
    var n := |rows|;
    forall i | 0 <= i < |after| && i != c && after[i].key == after[c].key ensures after[i].filingDate < after[c].filingDate {
      assert i >= n ==> after[i] == NewRow(accepted[i - n]);
      assert c >= n ==> after[c] == NewRow(accepted[c - n]);
      assert c < n ==> !HasKey(accepted, rows[c].key);
    }
  }

  lemma ConsistentIff(rows: seq<LedgerRow>, accepted: seq<Item>, after: seq<LedgerRow>)
    requires Consistent(rows) && Extends(rows, accepted, after)
    ensures Consistent(after) <==> DistinctKeys(accepted)
  {
    var n := |rows|;
    if DistinctKeys(accepted) {
      UniqueIff(rows, accepted, after);
      forall i | 0 <= i < |after| ensures HasCurrent(after, after[i].key) {
        ExtendedHasCurrent(rows, accepted, after, i);
      }
      forall c | 0 <= c < |after| && !after[c].isRestated ensures Newest(after, c) {
        ExtendedIsNewest(rows, accepted, after, c);
      }
    } else {
      var i, j :| 0 <= i < j < |accepted| && accepted[i].key == accepted[j].key;
      assert after[n + i] == NewRow(accepted[i]) && after[n + j] == NewRow(accepted[j]);
      assert !Newest(after, n + i) || !Newest(after, n + j);
    }
  }

  /** Exactly when the table a batch builds is consistent: no two accepted items share a key. */
  lemma KeepsConsistentIff(rows: seq<LedgerRow>, items: seq<Item>)
    requires Consistent(rows)
    ensures Consistent(After(rows, items)) <==> DistinctKeys(Accepted(rows, items))
  {
    AfterExtends(rows, items);
    ConsistentIff(rows, Accepted(rows, items), After(rows, items));
  }

  /** No two accepted items share a key, or two share key and filing date too, so that the
      batch aborts. */
  predicate Sound(rows: seq<LedgerRow>, items: seq<Item>)
  {
    DistinctKeys(Accepted(rows, items)) || !DistinctPoints(Accepted(rows, items))
  }

  /** Exactly when the table a batch leaves behind is consistent. Otherwise a key comes with
      two dates and no repeated date; both items commit and both stay current. */
  lemma CommitKeepsConsistentIff(rows: seq<LedgerRow>, items: seq<Item>)
    requires Consistent(rows)
    ensures Consistent(Commit(rows, items)) <==> Sound(rows, items)
  {
    CommitsIff(rows, items);
    KeepsConsistentIff(rows, items);
  }

  lemma AcceptedKeepsOrder(rows: seq<LedgerRow>, items: seq<Item>)
    ensures DistinctKeys(items) ==> DistinctKeys(Accepted(rows, items))
    ensures OneDate(items) ==> OneDate(Accepted(rows, items))
  {
    var at := AcceptedPositions(rows, items, |items|);
  }

  /** Where each accepted item stood in the batch. */
  lemma {:induction false} AcceptedPositions(rows: seq<LedgerRow>, items: seq<Item>, n: nat) returns (at: seq<nat>)
    requires n <= |items|
    ensures |at| == |AcceptedBelow(rows, items, n)|
    ensures forall i :: 0 <= i < |at| ==> at[i] < n && items[at[i]] == AcceptedBelow(rows, items, n)[i]
    ensures forall i, j :: 0 <= i < j < |at| ==> at[i] < at[j]
  {
    at := [];
    if n > 0 {
      at := AcceptedPositions(rows, items, n - 1);
      if Accepts(rows, items[n - 1]) {
        at := at + [n - 1];
      }
    }
  }

  /** A batch with distinct keys always commits and keeps the ledger consistent. */
  lemma DistinctBatchCommits(rows: seq<LedgerRow>, items: seq<Item>)
    requires Consistent(rows) && DistinctKeys(items)
    ensures Commit(rows, items) == After(rows, items) && Consistent(After(rows, items))
  {
    AcceptedKeepsOrder(rows, items);
    CommitsIff(rows, items);
    KeepsConsistentIff(rows, items);
  }

  /** A batch filed on one date keeps the ledger consistent too: a key it repeats either was
      skipped every time, or hits the constraint and aborts the batch. */
  lemma OneDateBatchKeeps(rows: seq<LedgerRow>, items: seq<Item>)
    requires Consistent(rows) && OneDate(items)
    ensures Consistent(Commit(rows, items))
  {
    AcceptedKeepsOrder(rows, items);
    CommitsIff(rows, items);
    KeepsConsistentIff(rows, items);
    var accepted := Accepted(rows, items);
    if DistinctPoints(accepted) {
      forall i, j | 0 <= i < j < |accepted| ensures accepted[i].key != accepted[j].key {
        assert accepted[i].filingDate == accepted[j].filingDate;
      }
    }
  }

  /** The batches the ledger is meant for: distinct keys, or one common filing date. */
  predicate Orderly(items: seq<Item>)
  {
    DistinctKeys(items) || OneDate(items)
  }

  lemma OrderlyBatchKeeps(rows: seq<LedgerRow>, items: seq<Item>)
    requires Consistent(rows) && Orderly(items)
    ensures Consistent(Commit(rows, items))
  {
    if DistinctKeys(items) {
      DistinctBatchCommits(rows, items);
    } else {
      OneDateBatchKeeps(rows, items);
    }
  }

  /** Safety over whole runs: whatever batches the writer is given, each with distinct keys or
      filed on one date, every reachable table is consistent. */
  lemma {:induction false} EveryRunIsConsistent(batches: seq<seq<Item>>)
    requires forall b :: 0 <= b < |batches| ==> Orderly(batches[b])
    ensures Consistent(Run([], batches))
  {
    if batches == [] {
      assert Run([], batches) == [];
    } else {
      var n := |batches| - 1;
      var rows := Run([], batches[..n]);
      assert Run([], batches) == Commit(rows, batches[n]);
      EveryRunIsConsistent(batches[..n]);
      OrderlyBatchKeeps(rows, batches[n]);
    }
  }

  lemma RunGoesOn(batches: seq<seq<Item>>, n: nat)
    requires n < |batches|
    ensures Run([], batches[..n + 1]) == Commit(Run([], batches[..n]), batches[n])
  {
    assert batches[..n + 1][..n] == batches[..n];
  }

  /** Exactly which runs keep the ledger consistent throughout, whatever their batches. */
  lemma RunStaysConsistentIff(batches: seq<seq<Item>>)
    ensures (forall n :: 0 <= n <= |batches| ==> Consistent(Run([], batches[..n])))
       <==> (forall n :: 0 <= n < |batches| ==> Sound(Run([], batches[..n]), batches[n]))
  {
    if forall n :: 0 <= n <= |batches| ==> Consistent(Run([], batches[..n])) {
      forall n | 0 <= n < |batches| ensures Sound(Run([], batches[..n]), batches[n]) {
        RunGoesOn(batches, n);
        CommitKeepsConsistentIff(Run([], batches[..n]), batches[n]);
      }
    }
    if forall n :: 0 <= n < |batches| ==> Sound(Run([], batches[..n]), batches[n]) {
      forall n | 0 <= n <= |batches| ensures Consistent(Run([], batches[..n])) {
        SoundPrefix(batches, n);
      }
    }
  }

  lemma {:induction false} SoundPrefix(batches: seq<seq<Item>>, n: nat)
    requires n <= |batches|
    requires forall k :: 0 <= k < |batches| ==> Sound(Run([], batches[..k]), batches[k])
    ensures Consistent(Run([], batches[..n]))
  {
    if n == 0 {
      assert Run([], batches[..0]) == [];
    } else {
      SoundPrefix(batches, n - 1);
      RunGoesOn(batches, n - 1);
      CommitKeepsConsistentIff(Run([], batches[..n - 1]), batches[n - 1]);
    }
  }

  /** Without either condition it fails: one batch filing the same key twice, on two dates,
      commits and leaves two current rows. */
  lemma TwoDatesInOneBatchBreak(key: Key)
    ensures var items := [Item(key, 1, None), Item(key, 2, None)];
            Commit([], items) == After([], items) && !Consistent(Commit([], items))
  {
    var items := [Item(key, 1, None), Item(key, 2, None)];
    assert AcceptedBelow([], items, 1) == [items[0]];
    assert Accepted([], items) == items;
    assert After([], items) == [NewRow(items[0]), NewRow(items[1])] by {
      assert Flagged([], Superseded([], items)) == [];
    }
    assert After([], items)[1].key == After([], items)[0].key;
    assert !Newest(After([], items), 0);
  }

  // ---- audit history ----

  /** later starts with the rows of earlier, changed at most by raising their flags. */
  predicate KeepsHistory(earlier: seq<LedgerRow>, later: seq<LedgerRow>)
  {
    && |earlier| <= |later|
    && forall i :: 0 <= i < |earlier| ==>
         && later[i] == earlier[i].(isRestated := later[i].isRestated)
         && (earlier[i].isRestated ==> later[i].isRestated)
  }

  /** No row is ever deleted or rewritten, over any stretch of any run, consistent or not. */
  lemma {:induction false} HistoryIsKept(rows: seq<LedgerRow>, batches: seq<seq<Item>>, n: nat)
    requires n <= |batches|
    ensures KeepsHistory(Run(rows, batches[..n]), Run(rows, batches))
  {
    var last := |batches| - 1;
    if n == |batches| {
      assert batches[..n] == batches;
    } else {
      assert batches[..last][..n] == batches[..n];
      HistoryIsKept(rows, batches[..last], n);
      CommitKeepsHistory(Run(rows, batches[..last]), batches[last]);
    }
  }

  lemma CommitKeepsHistory(rows: seq<LedgerRow>, items: seq<Item>)
    ensures KeepsHistory(rows, Commit(rows, items))
  {
  }

  // ---- counting ----

  function CurrentRows(rows: seq<LedgerRow>): nat
  {
    if rows == [] then 0 else CurrentRows(rows[..|rows| - 1]) + if rows[|rows| - 1].isRestated then 0 else 1
  }

  lemma {:induction false} CurrentRowsOfConcat(rows: seq<LedgerRow>, more: seq<LedgerRow>)
    ensures CurrentRows(rows + more) == CurrentRows(rows) + CurrentRows(more)
  {
    if more == [] {
      assert rows + more == rows;
    } else {
      assert (rows + more)[..|rows + more| - 1] == rows + more[..|more| - 1];
      CurrentRowsOfConcat(rows, more[..|more| - 1]);
    }
  }

  lemma {:induction false} AllNewRowsAreCurrent(items: seq<Item>)
    ensures CurrentRows(NewRows(items)) == |items|
  {
    if items != [] {
      assert NewRows(items)[..|items| - 1] == NewRows(items[..|items| - 1]);
      AllNewRowsAreCurrent(items[..|items| - 1]);
    }
  }

  predicate DistinctIds(ids: seq<nat>)
  {
    forall i, j :: 0 <= i < j < |ids| ==> ids[i] != ids[j]
  }

  lemma {:induction false} FlagOne(rows: seq<LedgerRow>, ids: seq<nat>, id: nat)
    requires id < |rows| && id !in ids && !rows[id].isRestated
    ensures CurrentRows(Flagged(rows, ids + [id])) == CurrentRows(Flagged(rows, ids)) - 1
  {
    var a, b := Flagged(rows, ids), Flagged(rows, ids + [id]);
    assert a == a[..id] + [a[id]] + a[id + 1..];
    assert b == a[..id] + [b[id]] + a[id + 1..];
    CurrentRowsOfConcat(a[..id] + [a[id]], a[id + 1..]);
    CurrentRowsOfConcat(a[..id] + [b[id]], a[id + 1..]);
    assert (a[..id] + [a[id]])[..id] == a[..id] && (a[..id] + [b[id]])[..id] == a[..id];
  }

  lemma {:induction false} FlagAll(rows: seq<LedgerRow>, ids: seq<nat>)
    requires DistinctIds(ids) && forall k :: 0 <= k < |ids| ==> ids[k] < |rows| && !rows[ids[k]].isRestated
    ensures CurrentRows(Flagged(rows, ids)) == CurrentRows(rows) - |ids|
  {
    if ids == [] {
      assert Flagged(rows, ids) == rows;
    } else {
      var front, last := ids[..|ids| - 1], ids[|ids| - 1];
      assert ids == front + [last];
      FlagAll(rows, front);
      FlagOne(rows, front, last);
    }
  }

  lemma {:induction false} SupersededIds(rows: seq<LedgerRow>, items: seq<Item>, n: nat)
    requires n <= |items| && DistinctKeys(items)
    ensures DistinctIds(SupersededBelow(rows, items, n))
    ensures forall k :: 0 <= k < |SupersededBelow(rows, items, n)| ==>
      SupersededBelow(rows, items, n)[k] < |rows| && !rows[SupersededBelow(rows, items, n)[k]].isRestated
  {
    if n > 0 {
      SupersededIds(rows, items, n - 1);
      if Existing(rows, items[n - 1].key).Some? {
        var id := Existing(rows, items[n - 1].key).value;
        forall i | 0 <= i < n - 1 ensures !Supersedes(rows, items[i], id) {
          assert items[i].key != items[n - 1].key;
        }
        SupersededBelowMeans(rows, items, n - 1);
        assert id !in SupersededBelow(rows, items, n - 1);
      }
    }
  }

  /** Conservation: a committed batch with distinct keys grows the current rows by the rows it
      inserts minus the rows it restates. */
  lemma CurrentRowsGrow(rows: seq<LedgerRow>, items: seq<Item>)
    requires Consistent(rows) && DistinctKeys(items)
    ensures CurrentRows(Commit(rows, items))
         == CurrentRows(rows) + |Accepted(rows, items)| - |Superseded(rows, items)|
  {
    DistinctBatchCommits(rows, items);
    SupersededIds(rows, items, |items|);
    FlagAll(rows, Superseded(rows, items));
    AllNewRowsAreCurrent(Accepted(rows, items));
    CurrentRowsOfConcat(Flagged(rows, Superseded(rows, items)), NewRows(Accepted(rows, items)));
  }

  // ---- arrival order and replay ----

  /** date is the latest filing date of key among items; None when the key is not there. */
  predicate IsLatest(date: Option<Date>, key: Key, items: seq<Item>)
  {
    match date
    case None => forall item :: item in items ==> item.key != key
    case Some(d) =>
      && (exists item :: item in items && item.key == key && item.filingDate == d)
      && (forall item :: item in items && item.key == key ==> item.filingDate <= d)
  }

  function Flatten(batches: seq<seq<Item>>): seq<Item>
  {
    if batches == [] then [] else Flatten(batches[..|batches| - 1]) + batches[|batches| - 1]
  }

  /** In a consistent table the current date of a key is the date of its newest row. */
  lemma CurrentDateIsNewest(rows: seq<LedgerRow>, i: nat)
    requires Consistent(rows) && i < |rows|
    ensures CurrentDate(rows, rows[i].key).Some? && rows[i].filingDate <= CurrentDate(rows, rows[i].key).value
  {
    assert HasCurrent(rows, rows[i].key);
    assert Newest(rows, Existing(rows, rows[i].key).value);
  }

  lemma DateNeverFalls(rows: seq<LedgerRow>, accepted: seq<Item>, after: seq<LedgerRow>, key: Key)
    requires Extends(rows, accepted, after) && Consistent(after) && CurrentDate(rows, key).Some?
    ensures CurrentDate(after, key).Some?
    ensures CurrentDate(rows, key).value <= CurrentDate(after, key).value
  {
    var c := Existing(rows, key).value;
    assert after[c].key == key;
    CurrentDateIsNewest(after, c);
  }

  lemma DateCoversAccepted(rows: seq<LedgerRow>, accepted: seq<Item>, after: seq<LedgerRow>, item: Item)
    requires Extends(rows, accepted, after) && Consistent(after) && item in accepted
    ensures CurrentDate(after, item.key).Some?
    ensures item.filingDate <= CurrentDate(after, item.key).value
  {
    var a :| 0 <= a < |accepted| && accepted[a] == item;
    assert after[|rows| + a] == NewRow(item);
    CurrentDateIsNewest(after, |rows| + a);
  }

  lemma DateCoversItem(rows: seq<LedgerRow>, items: seq<Item>, item: Item)
    requires Consistent(rows) && Consistent(After(rows, items)) && item in items
    ensures CurrentDate(After(rows, items), item.key).Some?
    ensures item.filingDate <= CurrentDate(After(rows, items), item.key).value
  {
    AfterExtends(rows, items);
    if Accepts(rows, item) {
      DateCoversAccepted(rows, Accepted(rows, items), After(rows, items), item);
    } else {
      DateNeverFalls(rows, Accepted(rows, items), After(rows, items), item.key);
    }
  }

  lemma DateComesFromSomewhere(rows: seq<LedgerRow>, accepted: seq<Item>, after: seq<LedgerRow>, key: Key)
    requires Consistent(rows) && Extends(rows, accepted, after) && CurrentDate(after, key).Some?
    ensures CurrentDate(after, key) == CurrentDate(rows, key)
         || exists item :: item in accepted && item.key == key && Some(item.filingDate) == CurrentDate(after, key)
  {
    var e := Existing(after, key).value;
    if e < |rows| {
      CurrentIsExisting(rows, e);
    } else {
      assert after[e] == NewRow(accepted[e - |rows|]);
      assert accepted[e - |rows|] in accepted;
    }
  }

  /** A batch that commits and keeps the ledger consistent moves each key's current date to the
      latest of its old date and the dates the batch submits for it. */
  lemma LatestAfterBatch(rows: seq<LedgerRow>, earlier: seq<Item>, items: seq<Item>, key: Key)
    requires Consistent(rows) && Consistent(After(rows, items))
    requires IsLatest(CurrentDate(rows, key), key, earlier)
    ensures IsLatest(CurrentDate(After(rows, items), key), key, earlier + items)
  {
    AfterExtends(rows, items);
    var before, after := CurrentDate(rows, key), CurrentDate(After(rows, items), key);
    if before.Some? {
      DateNeverFalls(rows, Accepted(rows, items), After(rows, items), key);
    }
    forall item | item in items && item.key == key ensures after.Some? && item.filingDate <= after.value {
      DateCoversItem(rows, items, item);
    }
    if after.Some? {
      DateComesFromSomewhere(rows, Accepted(rows, items), After(rows, items), key);
      var source :| source in earlier + items && source.key == key && Some(source.filingDate) == after;
    }
  }

  /** The items of the batches of a run that commit. */
  function Committed(batches: seq<seq<Item>>): seq<Item>
  {
    if batches == [] then []
    else
      var n := |batches| - 1;
      Committed(batches[..n]) + if PointInTimeUnique(After(Run([], batches[..n]), batches[n])) then batches[n] else []
  }

  /** Whatever order orderly batches arrive in, each key ends at the latest filing date ever
      submitted for it in a batch that committed. */
  lemma {:induction false} FinalDateIsLatest(batches: seq<seq<Item>>, key: Key)
    requires forall b :: 0 <= b < |batches| ==> Orderly(batches[b])
    ensures Consistent(Run([], batches))
    ensures IsLatest(CurrentDate(Run([], batches), key), key, Committed(batches))
  {
    if batches == [] {
      assert Run([], batches) == [];
    } else {
      var n := |batches| - 1;
      var rows := Run([], batches[..n]);
      assert Run([], batches) == Commit(rows, batches[n]);
      FinalDateIsLatest(batches[..n], key);
      OrderlyBatchKeeps(rows, batches[n]);
      if PointInTimeUnique(After(rows, batches[n])) {
        LatestAfterBatch(rows, Committed(batches[..n]), batches[n], key);
      } else {
        assert Committed(batches) == Committed(batches[..n]);
      }
    }
  }

  /** Batches with distinct keys all commit, so there it is the latest date ever submitted. */
  lemma {:induction false} DistinctBatchesAllCommit(batches: seq<seq<Item>>)
    requires forall b :: 0 <= b < |batches| ==> DistinctKeys(batches[b])
    ensures Consistent(Run([], batches)) && Committed(batches) == Flatten(batches)
  {
    if batches == [] {
      assert Run([], batches) == [];
    } else {
      var n := |batches| - 1;
      assert Run([], batches) == Commit(Run([], batches[..n]), batches[n]);
      DistinctBatchesAllCommit(batches[..n]);
      DistinctBatchCommits(Run([], batches[..n]), batches[n]);
    }
  }

  lemma LatestIsUnique(a: Option<Date>, b: Option<Date>, key: Key, items: seq<Item>, others: seq<Item>)
    requires IsLatest(a, key, items) && IsLatest(b, key, others)
    requires forall item :: item in items <==> item in others
    ensures a == b
  {
  }

  /** Two runs that submit the same items, in whatever order and batches, agree on every
      key's current filing date. */
  lemma OrderDoesNotMatter(batches: seq<seq<Item>>, others: seq<seq<Item>>, key: Key)
    requires forall b :: 0 <= b < |batches| ==> DistinctKeys(batches[b])
    requires forall b :: 0 <= b < |others| ==> DistinctKeys(others[b])
    requires forall item :: item in Flatten(batches) <==> item in Flatten(others)
    ensures CurrentDate(Run([], batches), key) == CurrentDate(Run([], others), key)
  {
    FinalDateIsLatest(batches, key);
    FinalDateIsLatest(others, key);
    DistinctBatchesAllCommit(batches);
    DistinctBatchesAllCommit(others);
    LatestIsUnique(CurrentDate(Run([], batches), key), CurrentDate(Run([], others), key), key, Flatten(batches), Flatten(others));
  }

  /** Replaying a committed batch inserts nothing, restates nothing and leaves the table as it
      is, as long as no two of its accepted items shared a key. */
  lemma ReplayIsIdempotent(rows: seq<LedgerRow>, items: seq<Item>)
    requires Consistent(rows) && DistinctKeys(Accepted(rows, items))
    ensures var once := Commit(rows, items);
            && once == After(rows, items)
            && Accepted(once, items) == [] && Superseded(once, items) == []
            && Commit(once, items) == once
  {
    var once := Commit(rows, items);
    KeepsConsistentIff(rows, items);
    forall item | item in items ensures !Accepts(once, item) {
      DateCoversItem(rows, items, item);
    }
    NothingAccepted(once, items);
    assert Flagged(once, []) == once && NewRows([]) == [];
    assert once + [] == once;
  }

  lemma NothingAccepted(rows: seq<LedgerRow>, items: seq<Item>)
    requires forall item :: item in items ==> !Accepts(rows, item)
    ensures Accepted(rows, items) == [] && Superseded(rows, items) == []
  {
    NothingAcceptedBelow(rows, items, |items|);
  }

  lemma {:induction false} NothingAcceptedBelow(rows: seq<LedgerRow>, items: seq<Item>, n: nat)
    requires n <= |items| && forall i :: 0 <= i < n ==> !Accepts(rows, items[i])
    ensures AcceptedBelow(rows, items, n) == [] && SupersededBelow(rows, items, n) == []
  {
    if n > 0 {
      NothingAcceptedBelow(rows, items, n - 1);
    }
  }

  // ---- what the rows of a batch say ----

  predicate IsPerShare(field: string)
  {
    || field == "eps_basic" || field == "eps_diluted" || field == "shares_basic" || field == "shares_diluted"
    || field == "book_value_per_share"
  }

  /** stored is value rounded half-even to cents; of a per-share field it is value rounded
      half-even to the tenth place and then to cents, ties away from zero. Either way it is
      within half a cent, and for a per-share field half a unit of the tenth place more. */
  ghost predicate KeepsValue(field: string, value: real, stored: real)
  {
    var slack := 0.5 * MONEY_UNIT + if IsPerShare(field) then 0.5 * RATE_UNIT else 0.0;
    && IsMoney(stored) && -slack <= stored - value <= slack
    && if IsPerShare(field) then
         exists m, k :: ToRateUnits(value, m) && ToCentsAway(RateOf(m), k) && stored == k as real / 100.0
       else
         exists k :: ToCents(value, k) && stored == k as real / 100.0
  }

  predicate ToRateUnits(x: real, m: int)
  {
    NearestEven(x * 10000000000.0, m)
  }

  predicate ToCents(x: real, k: int)
  {
    NearestEven(x * 100.0, k)
  }

  predicate ToCentsAway(x: real, k: int)
  {
    NearestAway(x * 100.0, k)
  }

  function RateOf(m: int): real
  {
    m as real / 10000000000.0
  }

  /** The row files the item: its key, its date, current, and its value or none. */
  ghost predicate Files(row: LedgerRow, item: Item)
  {
    && row.key == item.key && row.filingDate == item.filingDate && !row.isRestated
    && (row.value.Some? <==> item.value.Some?)
    && (item.value.Some? ==> KeepsValue(item.key.canonicalField, item.value.value, row.value.value))
  }

  lemma StoredKeepsValue(field: string, value: real)
    ensures KeepsValue(field, value, StoredValue(field, value))
  {
    StoredValueIsNear(field, value);
    if IsPerShare(field) {
      var m := RoundHalfEven(value * 10000000000.0);
      assert RateOf(m) == BoundValue(field, value);
      assert ToRateUnits(value, m) && ToCentsAway(RateOf(m), RoundHalfUp(RateOf(m) * 100.0));
    } else {
      assert ToCents(value, RoundHalfEven(value * 100.0));
    }
  }

  lemma NewRowFiles(item: Item)
    ensures Files(NewRow(item), item)
  {
    if item.value.Some? {
      StoredKeepsValue(item.key.canonicalField, item.value.value);
    }
  }

  /** The table a batch builds: the old rows with the flags of superseded ones raised, then one
      row for each accepted item, in the order of the batch. */
  ghost predicate Appends(rows: seq<LedgerRow>, items: seq<Item>, after: seq<LedgerRow>)
  {
    var accepted := Accepted(rows, items);
    && |after| == |rows| + |accepted|
    && (forall i :: 0 <= i < |rows| ==>
          after[i] == rows[i].(isRestated := rows[i].isRestated || exists a :: 0 <= a < |items| && Supersedes(rows, items[a], i)))
    && (forall a :: 0 <= a < |accepted| ==> Files(after[|rows| + a], accepted[a]))
  }

  lemma AfterAppends(rows: seq<LedgerRow>, items: seq<Item>)
    ensures Appends(rows, items, After(rows, items))
  {
    var accepted, after := Accepted(rows, items), After(rows, items);
    forall a | 0 <= a < |accepted| ensures Files(after[|rows| + a], accepted[a]) {
      NewRowFiles(accepted[a]);
    }
  }
}

/** The normalized profile of one entity and period: which row stands for each presentation
    category. The mapping and priority tables are parameters. */
module Profile {
  import opened Wrappers
  import opened Calendar
  import opened Decimals

  const DEFAULT_PRIORITY: int := 999

  // Names are compared by the collation of the database.
  datatype Tables = Tables(category: map<string, string>, priority: map<string, int>, nameLess: (string, string) -> bool) {
    /** An unmapped field is its own category. */
    function CategoryOf(canonical: string): string
    {
      if canonical in category then category[canonical] else canonical
    }

    function PriorityOf(canonical: string): int
    {
      if canonical in priority then priority[canonical] else DEFAULT_PRIORITY
    }
  }

  datatype Row = Row(canonical: string, filingDate: Date, standard: string, valueUsd: Option<real>)

  datatype NormalizedValue = NormalizedValue(canonical: string, standard: string, valueUsd: Option<real>, filingDate: Date)

  datatype NormalizedProfile = NormalizedProfile(values: map<string, NormalizedValue>, sourceRows: nat, untranslated: nat)

  function Normalize(row: Row): NormalizedValue
  {
    var usd := match row.valueUsd case Some(v) => Some(QuantiseMoney(v)) case None => None;
    NormalizedValue(row.canonical, row.standard, usd, row.filingDate)
  }

  // ---- the one-pass loop ----

  datatype Pass = Pass(seen: set<string>, occupant: map<string, (int, string)>, values: map<string, NormalizedValue>, untranslated: nat)

  function TakeRow(t: Tables, p: Pass, row: Row): Pass
  {
    var key, priority := t.CategoryOf(row.canonical), t.PriorityOf(row.canonical);
    var counted := p.(untranslated := p.untranslated + if row.valueUsd == None then 1 else 0);
    if row.canonical in p.seen then counted
    else if key !in p.occupant || priority < p.occupant[key].0 then
      Pass(p.seen + {row.canonical}, p.occupant[key := (priority, row.canonical)], p.values[key := Normalize(row)], counted.untranslated)
    else counted.(seen := p.seen + {row.canonical})
  }

  function TakeRows(t: Tables, rows: seq<Row>, n: nat): Pass
    requires n <= |rows|
  {
    if n == 0 then Pass({}, map[], map[], 0) else TakeRow(t, TakeRows(t, rows, n - 1), rows[n - 1])
  }

  /** The one-pass loop: dictionaries and counters updated row by row. */
  method BuildProfile(t: Tables, rows: seq<Row>) returns (profile: NormalizedProfile)
    ensures var p := TakeRows(t, rows, |rows|);
            profile == NormalizedProfile(p.values, |rows|, p.untranslated)
  {
    var seen: set<string> := {};
    var occupant: map<string, (int, string)> := map[];
    var values: map<string, NormalizedValue> := map[];
    var untranslated := 0;
    for n := 0 to |rows|
      invariant Pass(seen, occupant, values, untranslated) == TakeRows(t, rows, n)
    {
      var row := rows[n];
      if row.valueUsd == None {
        untranslated := untranslated + 1;
      }
      // A field seen before keeps its first row.
      if row.canonical !in seen {
        seen := seen + {row.canonical};
        var key := t.CategoryOf(row.canonical);
        var priority := t.PriorityOf(row.canonical);
        if key !in occupant || priority < occupant[key].0 {
          occupant := occupant[key := (priority, row.canonical)];
          values := values[key := Normalize(row)];
        }
      }
    }
    profile := NormalizedProfile(values, |rows|, untranslated);
  }

  // ---- what it selects, by position ----

  function CountUntranslated(rows: seq<Row>, n: nat): nat
    requires n <= |rows|
  {
    if n == 0 then 0 else CountUntranslated(rows, n - 1) + if rows[n - 1].valueUsd == None then 1 else 0
  }

  /** Row i is the first of its field. */
  predicate FirstOfField(rows: seq<Row>, i: nat)
    requires i < |rows|
  {
    forall j :: 0 <= j < i ==> rows[j].canonical != rows[i].canonical
  }

  /** Among the first n rows, row i is the first of its field, and of all such rows of its
      category it has the least priority number, the earliest row on a tie. */
  predicate Stands(t: Tables, rows: seq<Row>, n: nat, i: nat)
    requires n <= |rows|
  {
    && i < n && FirstOfField(rows, i)
    && forall j {:trigger FirstOfField(rows, j)} :: 0 <= j < n && FirstOfField(rows, j) && t.CategoryOf(rows[j].canonical) == t.CategoryOf(rows[i].canonical) ==>
         || t.PriorityOf(rows[i].canonical) < t.PriorityOf(rows[j].canonical)
         || (t.PriorityOf(rows[i].canonical) == t.PriorityOf(rows[j].canonical) && i <= j)
  }

  /** The state of the loop after n rows; standing says which row occupies each category. */
  ghost predicate Occupied(t: Tables, rows: seq<Row>, n: nat, standing: map<string, nat>,
                           occupant: map<string, (int, string)>, values: map<string, NormalizedValue>)
    requires n <= |rows|
  {
    && values.Keys == standing.Keys && occupant.Keys == standing.Keys
    && (forall i :: 0 <= i < n ==> t.CategoryOf(rows[i].canonical) in standing)
    && (forall key :: key in standing ==> Occupies(t, rows, n, standing[key], key, occupant[key], values[key]))
  }

  predicate Occupies(t: Tables, rows: seq<Row>, n: nat, i: nat, key: string, occupant: (int, string), value: NormalizedValue)
    requires n <= |rows|
  {
    && Stands(t, rows, n, i)
    && t.CategoryOf(rows[i].canonical) == key
    && value == Normalize(rows[i])
    && occupant == (t.PriorityOf(rows[i].canonical), rows[i].canonical)
  }

  function Names(rows: seq<Row>, n: nat): set<string>
    requires n <= |rows|
  {
    if n == 0 then {} else Names(rows, n - 1) + {rows[n - 1].canonical}
  }

  lemma {:induction false} NamesAreSeen(rows: seq<Row>, n: nat, name: string)
    requires n <= |rows|
    ensures name in Names(rows, n) <==> exists j :: 0 <= j < n && rows[j].canonical == name
  {
    if n > 0 {
      NamesAreSeen(rows, n - 1, name);
    }
  }

  lemma SeenIffNotFirst(rows: seq<Row>, n: nat)
    requires n < |rows|
    ensures rows[n].canonical in Names(rows, n) <==> !FirstOfField(rows, n)
  {
    NamesAreSeen(rows, n, rows[n].canonical);
  }

  lemma {:induction false} PassCounts(t: Tables, rows: seq<Row>, n: nat)
    requires n <= |rows|
    ensures TakeRows(t, rows, n).seen == Names(rows, n)
    ensures TakeRows(t, rows, n).untranslated == CountUntranslated(rows, n)
  {
    if n > 0 {
      PassCounts(t, rows, n - 1);
      assert rows[n - 1].canonical in Names(rows, n - 1) ==> Names(rows, n) == Names(rows, n - 1);
    }
  }

  lemma RowOccupies(t: Tables, rows: seq<Row>, n: nat, p: Pass, before: map<string, nat>) returns (standing: map<string, nat>)
    requires n < |rows| && Occupied(t, rows, n, before, p.occupant, p.values)
    requires rows[n].canonical in p.seen <==> !FirstOfField(rows, n)
    ensures Occupied(t, rows, n + 1, standing, TakeRow(t, p, rows[n]).occupant, TakeRow(t, p, rows[n]).values)
  {
    var key := t.CategoryOf(rows[n].canonical);
    if rows[n].canonical in p.seen || (key in p.occupant && t.PriorityOf(rows[n].canonical) >= p.occupant[key].0) {
      OccupantsStay(t, rows, n, before, p.occupant, p.values);
      standing := before;
    } else {
      NewcomerTakesOver(t, rows, n, before, p.occupant, p.values);
      standing := before[key := n];
    }
  }

  lemma {:induction false} PassOccupies(t: Tables, rows: seq<Row>, n: nat) returns (standing: map<string, nat>)
    requires n <= |rows|
    ensures Occupied(t, rows, n, standing, TakeRows(t, rows, n).occupant, TakeRows(t, rows, n).values)
  {
    if n == 0 {
      standing := map[];
    } else {
      var p := TakeRows(t, rows, n - 1);
      assert rows[n - 1].canonical in p.seen <==> !FirstOfField(rows, n - 1) by {
        PassCounts(t, rows, n - 1);
        SeenIffNotFirst(rows, n - 1);
      }
      var before := PassOccupies(t, rows, n - 1);
      standing := RowOccupies(t, rows, n - 1, p, before);
    }
  }

  lemma OccupiesStill(t: Tables, rows: seq<Row>, n: nat, i: nat, key: string, occupant: (int, string), value: NormalizedValue)
    requires n < |rows| && Occupies(t, rows, n, i, key, occupant, value)
    requires FirstOfField(rows, n) && t.CategoryOf(rows[n].canonical) == key ==> t.PriorityOf(rows[n].canonical) >= occupant.0
    ensures Occupies(t, rows, n + 1, i, key, occupant, value)
  {
  }

  /** A row that repeats a field, or whose priority is no better than the occupant's, changes nothing. */
  lemma OccupantsStay(t: Tables, rows: seq<Row>, n: nat, standing: map<string, nat>,
                      occupant: map<string, (int, string)>, values: map<string, NormalizedValue>)
    requires n < |rows| && Occupied(t, rows, n, standing, occupant, values)
    requires var key := t.CategoryOf(rows[n].canonical);
             !FirstOfField(rows, n) || (key in occupant && t.PriorityOf(rows[n].canonical) >= occupant[key].0)
    ensures Occupied(t, rows, n + 1, standing, occupant, values)
  {
    if !FirstOfField(rows, n) {
      var j :| 0 <= j < n && rows[j].canonical == rows[n].canonical;
      assert t.CategoryOf(rows[j].canonical) in standing;
    }
    forall key | key in standing ensures Occupies(t, rows, n + 1, standing[key], key, occupant[key], values[key]) {
      OccupiesStill(t, rows, n, standing[key], key, occupant[key], values[key]);
    }
  }

  lemma NewcomerStands(t: Tables, rows: seq<Row>, n: nat, standing: map<string, nat>,
                       occupant: map<string, (int, string)>, values: map<string, NormalizedValue>)
    requires n < |rows| && FirstOfField(rows, n) && Occupied(t, rows, n, standing, occupant, values)
    requires var key := t.CategoryOf(rows[n].canonical);
             key !in occupant || t.PriorityOf(rows[n].canonical) < occupant[key].0
    ensures Stands(t, rows, n + 1, n)
  {
    var key := t.CategoryOf(rows[n].canonical);
    if key in standing {
      assert Occupies(t, rows, n, standing[key], key, occupant[key], values[key]);
    }
  }

  lemma NewcomerTakesOver(t: Tables, rows: seq<Row>, n: nat, standing: map<string, nat>,
                          occupant: map<string, (int, string)>, values: map<string, NormalizedValue>)
    requires n < |rows| && FirstOfField(rows, n) && Occupied(t, rows, n, standing, occupant, values)
    requires var key := t.CategoryOf(rows[n].canonical);
             key !in occupant || t.PriorityOf(rows[n].canonical) < occupant[key].0
    ensures var key := t.CategoryOf(rows[n].canonical);
            Occupied(t, rows, n + 1, standing[key := n],
                     occupant[key := (t.PriorityOf(rows[n].canonical), rows[n].canonical)], values[key := Normalize(rows[n])])
  {
    var newKey := t.CategoryOf(rows[n].canonical);
    NewcomerStands(t, rows, n, standing, occupant, values);
    forall key | key in standing && key != newKey
      ensures Occupies(t, rows, n + 1, standing[key], key, occupant[key], values[key])
    {
      OccupiesStill(t, rows, n, standing[key], key, occupant[key], values[key]);
    }
  }

  // ---- in the order the rows are fetched ----

  /** No name comes both before and after another. */
  ghost predicate Collates(t: Tables)
  {
    forall a, b :: !(t.nameLess(a, b) && t.nameLess(b, a))
  }

  /** filing_date descending, then canonical_field. */
  predicate Before(t: Tables, a: Row, b: Row)
  {
    a.filingDate > b.filingDate || (a.filingDate == b.filingDate && t.nameLess(a.canonical, b.canonical))
  }

  /** As fetched; the point-in-time constraint leaves no two rows with one field and date. */
  ghost predicate Fetched(t: Tables, rows: seq<Row>)
  {
    Collates(t) && forall i, j :: 0 <= i < j < |rows| ==> Before(t, rows[i], rows[j])
  }

  /** Row i is the most recently filed row of its field. */
  predicate LatestOfField(rows: seq<Row>, i: nat)
    requires i < |rows|
  {
    forall j :: 0 <= j < |rows| && j != i && rows[j].canonical == rows[i].canonical ==> rows[j].filingDate < rows[i].filingDate
  }

  predicate SameCategory(t: Tables, rows: seq<Row>, i: nat, j: nat)
    requires i < |rows| && j < |rows|
  {
    t.CategoryOf(rows[i].canonical) == t.CategoryOf(rows[j].canonical)
  }

  /** Row i speaks for its category: it is the latest of its field, and no other field of the
      category has a latest row with a better priority, or the same one and a later filing
      date, or the same date too and a smaller name. */
  predicate Represents(t: Tables, rows: seq<Row>, i: nat)
  {
    && i < |rows| && LatestOfField(rows, i)
    && forall j {:trigger LatestOfField(rows, j)} :: 0 <= j < |rows| && j != i && LatestOfField(rows, j) && SameCategory(t, rows, i, j) ==>
           || t.PriorityOf(rows[i].canonical) < t.PriorityOf(rows[j].canonical)
           || (t.PriorityOf(rows[i].canonical) == t.PriorityOf(rows[j].canonical) && Before(t, rows[i], rows[j]))
  }

  lemma FirstIffLatest(t: Tables, rows: seq<Row>, i: nat)
    requires Fetched(t, rows) && i < |rows|
    ensures FirstOfField(rows, i) <==> LatestOfField(rows, i)
  {
    if FirstOfField(rows, i) {
      forall j | 0 <= j < |rows| && j != i && rows[j].canonical == rows[i].canonical ensures rows[j].filingDate < rows[i].filingDate {
        assert Before(t, rows[i], rows[j]);
      }
    }
    if LatestOfField(rows, i) {
      forall j | 0 <= j < i ensures rows[j].canonical != rows[i].canonical {
        assert Before(t, rows[j], rows[i]);
      }
    }
  }

  /** On rows as fetched, the row that the one-pass loop leaves standing is the one that
      represents the category, even when several current rows share a field; and there is only
      one such row a category. */
  lemma StandingRepresents(t: Tables, rows: seq<Row>, i: nat)
    requires Fetched(t, rows)
    ensures Stands(t, rows, |rows|, i) <==> Represents(t, rows, i)
  {
    forall j | 0 <= j < |rows| ensures FirstOfField(rows, j) <==> LatestOfField(rows, j) {
      FirstIffLatest(t, rows, j);
    }
    if i < |rows| {
      forall j | 0 <= j < |rows| && j != i ensures Before(t, rows[i], rows[j]) <==> i < j {
        assert if i < j then Before(t, rows[i], rows[j]) else Before(t, rows[j], rows[i]);
      }
    }
  }

  lemma RepresentativeIsUnique(t: Tables, rows: seq<Row>, i: nat, j: nat)
    requires Collates(t) && Represents(t, rows, i) && Represents(t, rows, j)
    requires t.CategoryOf(rows[i].canonical) == t.CategoryOf(rows[j].canonical)
    ensures i == j
  {
  }

  /** The profile of fetched rows, independently of how the loop goes about it: the categories
      are those of the rows, and each carries the value of the row that represents it. */
  lemma ProfileOfFetched(t: Tables, rows: seq<Row>)
    requires Fetched(t, rows)
    ensures var p := TakeRows(t, rows, |rows|);
            && p.untranslated == |set i | 0 <= i < |rows| && rows[i].valueUsd == None|
            && (forall i :: 0 <= i < |rows| ==> t.CategoryOf(rows[i].canonical) in p.values)
            && (forall key :: key in p.values ==> exists i: nat :: RepresentsKey(t, rows, i, key, p.values[key]))
  {
    PassCounts(t, rows, |rows|);
    UntranslatedAreCounted(rows, |rows|);
    var p := TakeRows(t, rows, |rows|);
    var standing := PassOccupies(t, rows, |rows|);
    forall key | key in p.values ensures exists i: nat :: RepresentsKey(t, rows, i, key, p.values[key]) {
      assert Occupies(t, rows, |rows|, standing[key], key, p.occupant[key], p.values[key]);
      StandingRepresents(t, rows, standing[key]);
      if rows[standing[key]].valueUsd.Some? {
        NormalizedIsShown(rows[standing[key]]);
      }
      assert RepresentsKey(t, rows, standing[key], key, p.values[key]);
    }
  }

  /** value shows row i, which represents the category key: its field, standard and date, and
      its dollars as the nearest cents, even on a tie, or none. */
  ghost predicate RepresentsKey(t: Tables, rows: seq<Row>, i: nat, key: string, value: NormalizedValue)
  {
    && Represents(t, rows, i) && t.CategoryOf(rows[i].canonical) == key
    && value.canonical == rows[i].canonical && value.standard == rows[i].standard && value.filingDate == rows[i].filingDate
    && (value.valueUsd.Some? <==> rows[i].valueUsd.Some?)
    && (rows[i].valueUsd.Some? ==> forall k ::
          value.valueUsd.value == Cents(k) <==> NearestEven(rows[i].valueUsd.value * 100.0, k))
  }

  function Cents(k: int): real
  {
    k as real / 100.0
  }

  lemma NormalizedIsShown(row: Row)
    requires row.valueUsd.Some?
    ensures Normalize(row).valueUsd.Some?
    ensures forall k :: Normalize(row).valueUsd.value == Cents(k) <==> NearestEven(row.valueUsd.value * 100.0, k)
  {
    forall k ensures Normalize(row).valueUsd.value == Cents(k) <==> NearestEven(row.valueUsd.value * 100.0, k) {
      QuantisedMoneyIs(row.valueUsd.value, k);
    }
  }

  lemma {:induction false} UntranslatedAreCounted(rows: seq<Row>, n: nat)
    requires n <= |rows|
    ensures CountUntranslated(rows, n) == |set i | 0 <= i < n && rows[i].valueUsd == None|
  {
    var missing := set i | 0 <= i < n && rows[i].valueUsd == None;
    if n == 0 {
      assert missing == {};
    } else {
      UntranslatedAreCounted(rows, n - 1);
      var earlier := set i | 0 <= i < n - 1 && rows[i].valueUsd == None;
      assert missing == if rows[n - 1].valueUsd == None then earlier + {n - 1} else earlier;
    }
  }

  /** A field in neither table is a category of its own; in a category it shares with a field of
      priority below 999 it never stands. */
  lemma UnlistedField(t: Tables, rows: seq<Row>, i: nat, j: nat)
    requires Fetched(t, rows) && i < |rows| && j < |rows| && rows[i].canonical !in t.priority
    ensures rows[i].canonical !in t.category ==> t.CategoryOf(rows[i].canonical) == rows[i].canonical
    ensures SameCategory(t, rows, i, j) && LatestOfField(rows, j) && rows[j].canonical in t.priority ==>
              t.priority[rows[j].canonical] < 999 ==> !Represents(t, rows, i)
  {
  }
}

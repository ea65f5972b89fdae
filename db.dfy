/** The location store of the newer revision (src/bot/db.mjs): the `locations` table,
    `insertRow`, and `getRowsByDateRange`, which selects the rows of a time range in
    timestamp order and groups their positions by name. The SQLite engine is replaced by
    a sequence of rows and the functions that state what its statements return. */
module Db {
  import opened Wrappers
  import opened Feed

  /** A row of `locations`. `id` is the `INTEGER PRIMARY KEY AUTOINCREMENT`. */
  datatype Location = Location(id: nat, timestamp: string, latitude: real, longitude: real, name: string)

  /** SQLite's default `BINARY` collation on TEXT: code point by code point, a proper
      prefix first. */
  predicate TextLe(a: string, b: string)
    decreases |a|
  {
    if a == [] then true
    else if b == [] then false
    else if a[0] != b[0] then a[0] < b[0]
    else TextLe(a[1..], b[1..])
  }

  lemma {:induction false} TextLeTotal(a: string, b: string)
    ensures TextLe(a, b) || TextLe(b, a)
    decreases |a|
  {
    if a != [] && b != [] && a[0] == b[0] {
      TextLeTotal(a[1..], b[1..]);
    }
  }

  lemma {:induction false} TextLeTransitive(a: string, b: string, c: string)
    requires TextLe(a, b) && TextLe(b, c)
    ensures TextLe(a, c)
    decreases |a|
  {
    if a != [] && b != [] && c != [] && a[0] == b[0] && b[0] == c[0] {
      TextLeTransitive(a[1..], b[1..], c[1..]);
    }
  }

  /** `WHERE timestamp >= ? AND timestamp <= ?`: both ends inclusive. */
  predicate Within(row: Location, start: string, end: string) {
    TextLe(start, row.timestamp) && TextLe(row.timestamp, end)
  }

  /** The rows the `WHERE` clause keeps, in table order. */
  function InRange(rows: seq<Location>, start: string, end: string): (kept: seq<Location>)
    ensures |kept| <= |rows|
    ensures forall row :: row in kept <==> row in rows && Within(row, start, end)
  {
    if rows == [] then []
    else
      var n := |rows| - 1;
      var front := InRange(rows[..n], start, end);
      assert rows == rows[..n] + [rows[n]];
      if Within(rows[n], start, end) then front + [rows[n]] else front
  }

  predicate SortedByTimestamp(rows: seq<Location>) {
    forall i, j | 0 <= i < j < |rows| :: TextLe(rows[i].timestamp, rows[j].timestamp)
  }

  /** Puts `row` after every row whose timestamp is not greater, so rows with equal
      timestamps keep the order they came in. */
  function InsertByTimestamp(sorted: seq<Location>, row: Location): (r: seq<Location>)
    ensures |r| == |sorted| + 1
    ensures multiset(r) == multiset(sorted) + multiset{row}
    ensures forall x :: x in r <==> x in sorted || x == row
  {
    if sorted == [] then [row]
    else
      var n := |sorted| - 1;
      if TextLe(sorted[n].timestamp, row.timestamp) then sorted + [row]
      else
        assert sorted == sorted[..n] + [sorted[n]];
        InsertByTimestamp(sorted[..n], row) + [sorted[n]]
  }

  /** `ORDER BY timestamp ASC`, ties in table order. */
  function SortByTimestamp(rows: seq<Location>): (sorted: seq<Location>)
    ensures multiset(sorted) == multiset(rows)
  {
    if rows == [] then []
    else
      var n := |rows| - 1;
      assert rows == rows[..n] + [rows[n]];
      InsertByTimestamp(SortByTimestamp(rows[..n]), rows[n])
  }

  /** Appending a row no earlier than the last keeps a sorted sequence sorted. */
  lemma AppendKeepsSorted(sorted: seq<Location>, row: Location)
    requires SortedByTimestamp(sorted)
    requires sorted != [] ==> TextLe(sorted[|sorted| - 1].timestamp, row.timestamp)
    ensures SortedByTimestamp(sorted + [row])
  {
    var r := sorted + [row];
    forall i, j | 0 <= i < j < |r| ensures TextLe(r[i].timestamp, r[j].timestamp) {
      if j == |sorted| && i < |sorted| - 1 {
        TextLeTransitive(sorted[i].timestamp, sorted[|sorted| - 1].timestamp, row.timestamp);
      }
    }
  }

  /** Every row of an insertion into the front of `sorted` is no later than its last row. */
  lemma InsertedBelowLast(sorted: seq<Location>, row: Location)
    requires SortedByTimestamp(sorted) && sorted != []
    requires TextLe(row.timestamp, sorted[|sorted| - 1].timestamp)
    ensures var n := |sorted| - 1;
      forall x | x in InsertByTimestamp(sorted[..n], row) :: TextLe(x.timestamp, sorted[n].timestamp)
  {
    var n := |sorted| - 1;
    forall x | x in InsertByTimestamp(sorted[..n], row) ensures TextLe(x.timestamp, sorted[n].timestamp) {
      if x != row {
        var k :| 0 <= k < n && sorted[..n][k] == x;
        assert sorted[k] == x;
      }
    }
  }

  lemma {:induction false} InsertKeepsSorted(sorted: seq<Location>, row: Location)
    requires SortedByTimestamp(sorted)
    ensures SortedByTimestamp(InsertByTimestamp(sorted, row))
    decreases |sorted|
  {
    if sorted != [] {
      var n := |sorted| - 1;
      if TextLe(sorted[n].timestamp, row.timestamp) {
        AppendKeepsSorted(sorted, row);
      } else {
        TextLeTotal(sorted[n].timestamp, row.timestamp);
        var front := InsertByTimestamp(sorted[..n], row);
        assert SortedByTimestamp(sorted[..n]);
        InsertKeepsSorted(sorted[..n], row);
        InsertedBelowLast(sorted, row);
        assert front[|front| - 1] in front;
        AppendKeepsSorted(front, sorted[n]);
      }
    }
  }

  lemma {:induction false} SortIsSorted(rows: seq<Location>)
    ensures SortedByTimestamp(SortByTimestamp(rows))
    decreases |rows|
  {
    if rows != [] {
      var n := |rows| - 1;
      SortIsSorted(rows[..n]);
      InsertKeepsSorted(SortByTimestamp(rows[..n]), rows[n]);
    }
  }

  /** The value `getRowsByDateRange` keeps under a name: `{ lineString: [...] }`. */
  datatype Group = Group(lineString: seq<LonLat>)

  /** `[longitude, latitude]` of a row; the `toFixed(4)` rounding is not modelled. */
  function PointOf(row: Location): LonLat {
    (row.longitude, row.latitude)
  }

  /** The points of `rows`, one per row, in the same order. */
  function Points(rows: seq<Location>): (points: seq<LonLat>)
    ensures |points| == |rows|
    ensures forall i | 0 <= i < |rows| :: points[i] == PointOf(rows[i])
  {
    seq(|rows|, i requires 0 <= i < |rows| => PointOf(rows[i]))
  }

  /** The grouping `forEach`: create the group on the first row of a name, then push the
      row's point onto it. */
  function GroupByName(rows: seq<Location>): map<string, Group>
    decreases |rows|
  {
    if rows == [] then map[]
    else
      var n := |rows| - 1;
      var grouped := GroupByName(rows[..n]);
      var row := rows[n];
      var line := if row.name in grouped then grouped[row.name].lineString else [];
      grouped[row.name := Group(line + [PointOf(row)])]
  }

  /** The rows that carry `name`, in order. */
  function RowsNamed(rows: seq<Location>, name: string): (named: seq<Location>)
    ensures |named| <= |rows|
    ensures forall row :: row in named <==> row in rows && row.name == name
    ensures named == [] <==> forall row | row in rows :: row.name != name
  {
    if rows == [] then []
    else
      var n := |rows| - 1;
      var front := RowsNamed(rows[..n], name);
      assert rows == rows[..n] + [rows[n]];
      if rows[n].name == name then front + [rows[n]] else front
  }

  predicate Distinct(names: seq<string>) {
    forall i, j | 0 <= i < j < |names| :: names[i] != names[j]
  }

  /** The names of `rows` in order of first appearance, each once: the keys the grouping
      creates, in the order it creates them. */
  function Names(rows: seq<Location>): (names: seq<string>)
    ensures Distinct(names)
    ensures forall name :: name in names <==> exists row :: row in rows && row.name == name
  {
    if rows == [] then []
    else
      var n := |rows| - 1;
      var front := Names(rows[..n]);
      assert rows == rows[..n] + [rows[n]];
      if rows[n].name in front then front else front + [rows[n].name]
  }

  lemma PointsAppend(rows: seq<Location>, row: Location)
    ensures Points(rows + [row]) == Points(rows) + [PointOf(row)]
  {
  }

  /** The grouping in closed form: a name is a key exactly when some row carries it, and
      its line is the points of that name's rows, in row order. */
  lemma {:induction false} GroupByNameClosedForm(rows: seq<Location>, name: string)
    ensures name in GroupByName(rows) <==> exists row :: row in rows && row.name == name
    ensures name in GroupByName(rows) ==> GroupByName(rows)[name].lineString == Points(RowsNamed(rows, name))
    decreases |rows|
  {
    if rows != [] {
      var n := |rows| - 1;
      assert rows == rows[..n] + [rows[n]];
      GroupByNameClosedForm(rows[..n], name);
      if rows[n].name == name {
        var front := RowsNamed(rows[..n], name);
        PointsAppend(front, rows[n]);
      }
    }
  }

  /** Every group has at least one point. */
  lemma GroupsNonEmpty(rows: seq<Location>, name: string)
    requires name in GroupByName(rows)
    ensures |GroupByName(rows)[name].lineString| >= 1
  {
    GroupByNameClosedForm(rows, name);
    var row :| row in rows && row.name == name;
    assert row in RowsNamed(rows, name);
  }

  function Length(grouped: map<string, Group>, name: string): nat {
    if name in grouped then |grouped[name].lineString| else 0
  }

  /** The number of points under `names`. */
  function SumLengths(grouped: map<string, Group>, names: seq<string>): nat
    decreases |names|
  {
    if names == [] then 0
    else SumLengths(grouped, names[..|names| - 1]) + Length(grouped, names[|names| - 1])
  }

  lemma {:induction false} SumIgnoresOthers(grouped: map<string, Group>, names: seq<string>, name: string, group: Group)
    requires name !in names
    ensures SumLengths(grouped[name := group], names) == SumLengths(grouped, names)
    decreases |names|
  {
    if names != [] {
      var n := |names| - 1;
      assert names[n] in names;
      SumIgnoresOthers(grouped, names[..n], name, group);
    }
  }

  lemma {:induction false} SumCountsOnce(grouped: map<string, Group>, names: seq<string>, name: string, group: Group)
    requires Distinct(names) && name in names
    ensures SumLengths(grouped[name := group], names)
      == SumLengths(grouped, names) - Length(grouped, name) + |group.lineString|
    decreases |names|
  {
    var n := |names| - 1;
    if names[n] == name {
      SumIgnoresOthers(grouped, names[..n], name, group);
    } else {
      assert names == names[..n] + [names[n]];
      SumCountsOnce(grouped, names[..n], name, group);
    }
  }

  /** `Names` lists exactly the keys the grouping creates. */
  lemma {:induction false} NamesAreKeys(rows: seq<Location>, name: string)
    ensures name in Names(rows) <==> name in GroupByName(rows)
    decreases |rows|
  {
    if rows != [] {
      NamesAreKeys(rows[..|rows| - 1], name);
    }
  }

  /** Every row becomes exactly one point: the groups together hold as many points as
      there are rows. */
  lemma {:induction false} TotalPoints(rows: seq<Location>)
    ensures SumLengths(GroupByName(rows), Names(rows)) == |rows|
    decreases |rows|
  {
    if rows != [] {
      var n := |rows| - 1;
      TotalPoints(rows[..n]);
      NamesAreKeys(rows[..n], rows[n].name);
      PushCountsOne(GroupByName(rows[..n]), Names(rows[..n]), rows[n]);
    }
  }

  /** Pushing one row's point adds one to the total, whether it opens a new group or
      extends an existing one. */
  lemma PushCountsOne(grouped: map<string, Group>, names: seq<string>, row: Location)
    requires Distinct(names)
    requires row.name in names <==> row.name in grouped
    ensures var line := if row.name in grouped then grouped[row.name].lineString else [];
      var after := if row.name in names then names else names + [row.name];
      SumLengths(grouped[row.name := Group(line + [PointOf(row)])], after) == SumLengths(grouped, names) + 1
  {
    var line := if row.name in grouped then grouped[row.name].lineString else [];
    var group := Group(line + [PointOf(row)]);
    if row.name in names {
      SumCountsOnce(grouped, names, row.name, group);
    } else {
      SumIgnoresOthers(grouped, names, row.name, group);
      assert (names + [row.name])[..|names|] == names;
    }
  }

  lemma EarlierRowsBelowLast(rows: seq<Location>)
    requires SortedByTimestamp(rows) && rows != []
    ensures forall x | x in rows[..|rows| - 1] :: TextLe(x.timestamp, rows[|rows| - 1].timestamp)
  {
    var n := |rows| - 1;
    forall x | x in rows[..n] ensures TextLe(x.timestamp, rows[n].timestamp) {
      var k :| 0 <= k < n && rows[..n][k] == x;
      assert rows[k] == x;
    }
  }

  /** The rows of one name in a timestamp-sorted sequence are themselves in timestamp
      order. */
  lemma {:induction false} NamedRowsSorted(rows: seq<Location>, name: string)
    requires SortedByTimestamp(rows)
    ensures SortedByTimestamp(RowsNamed(rows, name))
    decreases |rows|
  {
    if rows != [] {
      var n := |rows| - 1;
      assert SortedByTimestamp(rows[..n]);
      NamedRowsSorted(rows[..n], name);
      var front := RowsNamed(rows[..n], name);
      if rows[n].name == name {
        if front != [] {
          assert front[|front| - 1] in rows[..n];
          EarlierRowsBelowLast(rows);
        }
        AppendKeepsSorted(front, rows[n]);
      }
    }
  }

  /** What `SELECT * FROM locations WHERE timestamp >= ? AND timestamp <= ? ORDER BY
      timestamp ASC` returns: the rows in range, each once, in ascending timestamp order. */
  function Selected(rows: seq<Location>, start: string, end: string): (selected: seq<Location>)
    ensures forall row :: row in selected <==> row in rows && Within(row, start, end)
    ensures multiset(selected) == multiset(InRange(rows, start, end))
    ensures |selected| == |InRange(rows, start, end)|
    ensures SortedByTimestamp(selected)
  {
    var kept := InRange(rows, start, end);
    var sorted := SortByTimestamp(kept);
    SortIsSorted(kept);
    assert |multiset(sorted)| == |multiset(kept)|;
    assert forall row :: row in sorted <==> row in multiset(sorted);
    sorted
  }

  /** The `groupedData` a successful query hands to its callback. */
  function Query(rows: seq<Location>, start: string, end: string): map<string, Group> {
    GroupByName(Selected(rows, start, end))
  }

  /** The keys of the answer are exactly the names of the rows in range. */
  lemma QueryKeys(rows: seq<Location>, start: string, end: string, name: string)
    ensures name in Query(rows, start, end)
      <==> exists row :: row in rows && Within(row, start, end) && row.name == name
  {
    GroupByNameClosedForm(Selected(rows, start, end), name);
  }

  /** Each group is non-empty and holds the `[longitude, latitude]` points of that name's
      rows in range, in ascending timestamp order. */
  lemma QueryGroup(rows: seq<Location>, start: string, end: string, name: string)
    requires name in Query(rows, start, end)
    ensures var named := RowsNamed(Selected(rows, start, end), name);
      && Query(rows, start, end)[name].lineString == Points(named)
      && |named| >= 1
      && SortedByTimestamp(named)
      && forall row :: row in named <==> row in rows && Within(row, start, end) && row.name == name
  {
    var selected := Selected(rows, start, end);
    GroupByNameClosedForm(selected, name);
    GroupsNonEmpty(selected, name);
    NamedRowsSorted(selected, name);
  }

  /** The groups together hold exactly one point per row in range; `Names` lists the
      answer's keys, each once. */
  lemma QueryTotal(rows: seq<Location>, start: string, end: string)
    ensures var names := Names(Selected(rows, start, end));
      && (forall name :: name in names <==> name in Query(rows, start, end))
      && SumLengths(Query(rows, start, end), names) == |InRange(rows, start, end)|
  {
    var selected := Selected(rows, start, end);
    forall name ensures name in Names(selected) <==> name in Query(rows, start, end) {
      NamesAreKeys(selected, name);
    }
    TotalPoints(selected);
  }

  /** A row appended outside the range leaves the answer as it was; one inside the range
      contributes its point to its name's group. */
  lemma QueryAfterInsert(rows: seq<Location>, row: Location, start: string, end: string)
    ensures !Within(row, start, end) ==> Query(rows + [row], start, end) == Query(rows, start, end)
    ensures Within(row, start, end) ==>
      row.name in Query(rows + [row], start, end)
      && PointOf(row) in Query(rows + [row], start, end)[row.name].lineString
  {
    assert (rows + [row])[..|rows|] == rows;
    if Within(row, start, end) {
      var after := Selected(rows + [row], start, end);
      GroupByNameClosedForm(after, row.name);
      var named := RowsNamed(after, row.name);
      assert row in named;
      var k :| 0 <= k < |named| && named[k] == row;
      assert Points(named)[k] == PointOf(row);
    }
  }

  /** The `locations` table, rows in insertion order, with the `AUTOINCREMENT` counter. */
  class LocationTable {
    var rows: seq<Location>
    var nextId: nat

    /** Ids are assigned in increasing order and all lie below the counter. */
    ghost predicate Valid()
      reads this
    {
      && 1 <= nextId
      && (forall i | 0 <= i < |rows| :: 1 <= rows[i].id < nextId)
      && (forall i, j | 0 <= i < j < |rows| :: rows[i].id < rows[j].id)
    }

    constructor ()
      ensures Valid() && rows == [] && nextId == 1
    {
      rows, nextId := [], 1;
    }

    /** `insertRow(timestamp, latitude, longitude, name)`. A missing argument binds NULL,
        which the `NOT NULL` columns reject; the error is only logged, so the caller sees
        nothing either way and the table is left as it was. */
    method InsertRow(timestamp: Option<string>, latitude: Option<real>, longitude: Option<real>, name: Option<string>)
      requires Valid()
      modifies this
      ensures Valid()
      ensures timestamp.Some? && latitude.Some? && longitude.Some? && name.Some? ==>
        && rows == old(rows) + [Location(old(nextId), timestamp.value, latitude.value, longitude.value, name.value)]
        && nextId == old(nextId) + 1
      ensures !(timestamp.Some? && latitude.Some? && longitude.Some? && name.Some?) ==>
        rows == old(rows) && nextId == old(nextId)
    {
      if timestamp.Some? && latitude.Some? && longitude.Some? && name.Some? {
        rows := rows + [Location(nextId, timestamp.value, latitude.value, longitude.value, name.value)];
        nextId := nextId + 1;
      }
    }

    /** `getRowsByDateRange(start, end, callback)`: a failed query (`failure`) reaches the
        callback as an error with no data; otherwise the selected rows are grouped by name
        one at a time. */
    method GetRowsByDateRange(start: string, end: string, failure: Option<string>)
      returns (result: Result<map<string, Group>, string>)
      ensures failure.Some? ==> result == Failure(failure.value)
      ensures failure.None? ==> result == Success(Query(rows, start, end))
    {
      if failure.Some? {
        return Failure(failure.value);
      }
      var grouped := GroupRows(Selected(rows, start, end));
      return Success(grouped);
    }
  }

  /** The `rows.forEach` that builds `groupedData`. */
  method GroupRows(selected: seq<Location>) returns (grouped: map<string, Group>)
    ensures grouped == GroupByName(selected)
  {
    grouped := map[];
    for i := 0 to |selected|
      invariant grouped == GroupByName(selected[..i])
    {
      var row := selected[i];
      GroupStep(selected, i);
      if row.name !in grouped {
        grouped := grouped[row.name := Group([])];
      }
      grouped := grouped[row.name := Group(grouped[row.name].lineString + [PointOf(row)])];
    }
    assert selected[..|selected|] == selected;
  }

  lemma GroupStep(rows: seq<Location>, i: nat)
    requires i < |rows|
    ensures var grouped := GroupByName(rows[..i]);
      var line := if rows[i].name in grouped then grouped[rows[i].name].lineString else [];
      GroupByName(rows[..i + 1]) == grouped[rows[i].name := Group(line + [PointOf(rows[i])])]
  {
    assert rows[..i + 1][..i] == rows[..i];
  }
}

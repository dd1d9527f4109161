/** Checks on the rows of an invite file before anything is written (voteit/invites/registries.py,
    voteit/invites/abcs.py). */
module RowChecks {
  import opened Collections
  import opened Text

  // ------------------------------------------------------------- data model

  datatype Cell = Words(text: string) | Number(n: int) | Empty

  /** A row may be shorter or longer than the list of columns. */
  type Row = seq<Cell>

  /** What identifies the recipient of an invite. */
  type UserData = map<string, Cell>

  predicate Truthy(c: Cell) {
    match c
    case Words(text) => text != ""
    case Number(n) => n != 0
    case Empty => false
  }

  /** A cell of a row, with anything empty as None. */
  function GetCell(row: Row, i: nat): (c: Option<Cell>)
    ensures c.Some? ==> Truthy(c.value)
  {
    if i >= |row| then None
    else
      var val := if row[i].Words? then Words(Strip(row[i].text)) else row[i];
      if Truthy(val) then Some(val) else None
  }

  lemma CellIsNone(row: Row, i: nat)
    ensures GetCell(row, i).None? <==>
            || i >= |row| || row[i] == Empty || row[i] == Number(0)
            || (row[i].Words? && IsBlank(row[i].text))
  {
    if i < |row| && row[i].Words? {
      StripIsEmpty(row[i].text);
    }
  }

  /** A cell with words has them without the blanks around them, and a number is as it is. */
  lemma CellIsTrimmed(row: Row, i: nat, pre: string, t: string, post: string)
    requires i < |row| && IsBlank(pre) && IsBlank(post) && IsStripped(t) && t != ""
    ensures row[i] == Words(pre + t + post) ==> GetCell(row, i) == Some(Words(t))
    ensures row[i].Number? && row[i].n != 0 ==> GetCell(row, i) == Some(row[i])
  {
    StripOfPadded(pre, t, post);
  }

  /** The user data of a row: the columns at `idx` that are filled in. */
  function DataOf(columns: seq<string>, idx: seq<nat>, row: Row): UserData
    requires forall k :: 0 <= k < |idx| ==> idx[k] < |columns|
  {
    if idx == [] then map[] else
      var i := idx[|idx| - 1];
      var before := DataOf(columns, idx[..|idx| - 1], row);
      if i < |row| && Truthy(row[i]) then before[columns[i] := row[i]] else before
  }

  /** When no column is named twice, a row's user data have exactly the columns filled in. */
  lemma {:induction false} DataOfIsExact(columns: seq<string>, idx: seq<nat>, row: Row, k: string)
    requires forall k :: 0 <= k < |idx| ==> idx[k] < |columns|
    requires forall i, j :: 0 <= i < j < |columns| ==> columns[i] != columns[j]
    ensures k in DataOf(columns, idx, row) <==> exists i <- idx :: i < |row| && columns[i] == k && Truthy(row[i])
    ensures forall i <- idx :: i < |row| && columns[i] == k && Truthy(row[i]) ==>
              k in DataOf(columns, idx, row) && DataOf(columns, idx, row)[k] == row[i]
  {
    if idx != [] {
      DataOfIsExact(columns, idx[..|idx| - 1], row, k);
      assert idx == idx[..|idx| - 1] + [idx[|idx| - 1]];
    }
  }

  function BuildUdQuerySeq(columns: seq<string>, idx: seq<nat>, rows: seq<Row>): seq<UserData>
    requires forall k :: 0 <= k < |idx| ==> idx[k] < |columns|
  {
    seq(|rows|, r requires 0 <= r < |rows| => DataOf(columns, idx, rows[r]))
  }

  // ------------------------------------------------------------ intersections

  predicate Shares(a: UserData, b: UserData) {
    exists k <- a.Keys :: k in b && a[k] == b[k]
  }

  /** Different user data that have a value in common. */
  predicate Intersect(a: UserData, b: UserData) {
    a != b && Shares(a, b)
  }

  ghost predicate Offends(uds: seq<UserData>, i: nat)
    requires i < |uds|
  {
    exists j :: 0 <= j < |uds| && Intersect(uds[i], uds[j])
  }

  datatype Offence = Offence(key: string, value: Cell, row: nat)

  lemma OffendsAlike(uds: seq<UserData>, i: nat, j: nat)
    requires i < |uds| && j < |uds| && uds[i] == uds[j]
    ensures Offends(uds, i) <==> Offends(uds, j)
  {
  }

  /** Any other user data with this value among those to compare with. */
  method UsedElsewhere(cmpvals: seq<UserData>, ud: UserData, k: string, v: Cell) returns (found: bool)
    ensures found <==> exists x <- cmpvals :: x != ud && k in x && x[k] == v
  {
    for i := 0 to |cmpvals|
      invariant forall j :: 0 <= j < i ==> !(cmpvals[j] != ud && k in cmpvals[j] && cmpvals[j][k] == v)
    {
      if cmpvals[i] != ud && k in cmpvals[i] && cmpvals[i][k] == v {
        return true;
      }
    }
    return false;
  }

  /** Passes exactly when any two rows have equal user data or share no value, and otherwise names
      the first row that does and a value it shares. Rows like one already checked are skipped. */
  method CheckIntersections(columns: seq<string>, idx: seq<nat>, rows: seq<Row>) returns (r: Option<Offence>)
    requires forall k :: 0 <= k < |idx| ==> idx[k] < |columns|
    ensures var uds := BuildUdQuerySeq(columns, idx, rows);
            r.None? <==> forall i, j :: 0 <= i < |uds| && 0 <= j < |uds| ==> !Intersect(uds[i], uds[j])
    ensures r.Some? ==>
              var uds := BuildUdQuerySeq(columns, idx, rows);
              && 0 < r.value.row <= |uds|
              && (var ud := uds[r.value.row - 1];
                  && r.value.key in ud && ud[r.value.key] == r.value.value
                  && exists j :: 0 <= j < |uds| && uds[j] != ud &&
                       r.value.key in uds[j] && uds[j][r.value.key] == r.value.value)
              && forall i :: 0 <= i < r.value.row - 1 ==> !Offends(uds, i)
  {
    hide BuildUdQuerySeq, DataOf;
    var uds := BuildUdQuerySeq(columns, idx, rows);
    var cmpvals: seq<UserData> := [];
    for i := 0 to |uds|
      invariant forall x: UserData :: x in cmpvals <==> x in uds[..i]
    {
      if uds[i] !in cmpvals {
        cmpvals := cmpvals + [uds[i]];
      }
    }
    assert uds[..|uds|] == uds;
    var checked: seq<UserData> := [];
    for i := 0 to |uds|
      invariant forall x: UserData :: x in checked <==> x in uds[..i]
      invariant forall j :: 0 <= j < i ==> !Offends(uds, j)
    {
      var ud := uds[i];
      if ud in checked {
        var j :| 0 <= j < i && uds[..i][j] == ud;
        OffendsAlike(uds, i, j);
        continue;
      }
      var offence := CheckOne(cmpvals, ud);
      if offence.Some? {
        var (k, v) := offence.value;
        var x :| x in cmpvals && x != ud && k in x && x[k] == v;
        var j :| 0 <= j < |uds| && uds[j] == x;
        assert Intersect(uds[i], uds[j]);
        return Some(Offence(k, v, i + 1));
      }
      assert !Offends(uds, i);
      checked := checked + [ud];
    }
    forall i, j | 0 <= i < |uds| && 0 <= j < |uds| ensures !Intersect(uds[i], uds[j]) {
      assert !Offends(uds, i);
    }
    return None;
  }

  method CheckOne(cmpvals: seq<UserData>, ud: UserData) returns (r: Option<(string, Cell)>)
    ensures r.None? <==> forall x <- cmpvals :: !Intersect(ud, x)
    ensures r.Some? ==>
              var (k, v) := r.value;
              k in ud && ud[k] == v && exists x <- cmpvals :: x != ud && k in x && x[k] == v
  {
    var rest := ud.Keys;
    while rest != {}
      invariant rest <= ud.Keys
      invariant forall k, x :: k in ud && k !in rest && x in cmpvals && x != ud ==> k !in x || x[k] != ud[k]
      decreases rest
    {
      var k := AnyOf(rest);
      var used := UsedElsewhere(cmpvals, ud, k, ud[k]);
      if used {
        var x :| x in cmpvals && x != ud && k in x && x[k] == ud[k];
        assert Intersect(ud, x);
        return Some((k, ud[k]));
      }
      rest := rest - {k};
    }
    return None;
  }

  // ----------------------------------------------------------------- conflicts

  /** Rows with the same key have the same value; rows without a key do not matter. */
  predicate Determines<K(==), V(==)>(keys: seq<Option<K>>, values: seq<V>)
    requires |keys| == |values|
  {
    forall i, j :: 0 <= i < j < |keys| && keys[i].Some? && keys[i] == keys[j] ==> values[i] == values[j]
  }

  predicate FirstOf<K(==)>(keys: seq<Option<K>>, i: nat)
    requires i < |keys|
  {
    forall j :: 0 <= j < i ==> keys[j] != keys[i]
  }

  /** Two rows, counted from one. */
  datatype Clash = Clash(first: nat, row: nat)

  /** Remembers the first value seen for every key and stops at the first row that has another. */
  method FirstClash<K(==), V(==)>(keys: seq<Option<K>>, values: seq<V>) returns (r: Option<Clash>)
    requires |keys| == |values|
    ensures r.None? <==> Determines(keys, values)
    ensures r.Some? ==>
              && 0 < r.value.first < r.value.row <= |keys|
              && var i, j := r.value.first - 1, r.value.row - 1;
                 && keys[i].Some? && keys[i] == keys[j] && values[i] != values[j]
                 && FirstOf(keys, i) && Determines(keys[..j], values[..j])
  {
    var seen: map<K, (nat, V)> := map[];
    for j := 0 to |keys|
      invariant forall k: K :: k in seen ==>
                  && seen[k].0 < j && keys[seen[k].0] == Some(k) && values[seen[k].0] == seen[k].1
                  && FirstOf(keys, seen[k].0)
      invariant forall i :: 0 <= i < j && keys[i].Some? ==> keys[i].value in seen && seen[keys[i].value].1 == values[i]
    {
      if keys[j].Some? {
        var k := keys[j].value;
        if k !in seen {
          seen := seen[k := (j, values[j])];
        }
        if seen[k].1 != values[j] {
          return Some(Clash(seen[k].0 + 1, j + 1));
        }
      }
    }
    return None;
  }

  /** The recipient of a row determines its roles. */
  method CheckConflictingRoles(columns: seq<string>, idx: seq<nat>, rows: seq<Row>, rolesPerRow: seq<seq<string>>)
    returns (r: Option<Clash>)
    requires forall k :: 0 <= k < |idx| ==> idx[k] < |columns|
    requires |rows| == |rolesPerRow|
    ensures var uds := BuildUdQuerySeq(columns, idx, rows);
            r.None? <==>
            forall i, j :: 0 <= i < j < |uds| && uds[i] != map[] && uds[i] == uds[j] ==>
              rolesPerRow[i] == rolesPerRow[j]
    ensures r.Some? ==>
              var uds := BuildUdQuerySeq(columns, idx, rows);
              && 0 < r.value.first < r.value.row <= |uds|
              && uds[r.value.first - 1] == uds[r.value.row - 1] != map[]
              && rolesPerRow[r.value.first - 1] != rolesPerRow[r.value.row - 1]
  {
    hide DataOf;
    var uds := BuildUdQuerySeq(columns, idx, rows);
    var keys := seq(|uds|, i requires 0 <= i < |uds| => if uds[i] == map[] then None else Some(uds[i]));
    r := FirstClash(keys, rolesPerRow);
    if r.None? {
      forall i, j | 0 <= i < j < |uds| && uds[i] != map[] && uds[i] == uds[j] ensures rolesPerRow[i] == rolesPerRow[j] {
        assert keys[i] == keys[j];
      }
    }
  }

  function Cells(row: Row, cols: seq<nat>): seq<Option<Cell>> {
    seq(|cols|, i requires 0 <= i < |cols| => GetCell(row, cols[i]))
  }

  /** The record a row writes: none without user data or with part of its key left out. */
  function WriteKey(ud: UserData, row: Row, keyCols: seq<nat>): Option<(UserData, seq<Option<Cell>>)> {
    if ud == map[] || (exists c <- Cells(row, keyCols) :: c == None) then None else Some((ud, Cells(row, keyCols)))
  }

  /** Two rows that are written to one record: the same recipient, and all of the key filled in
      alike. */
  predicate SameRecord(uds: seq<UserData>, rows: seq<Row>, keyCols: seq<nat>, i: nat, j: nat)
    requires |uds| == |rows| && i < |rows| && j < |rows|
  {
    && uds[i] == uds[j] && uds[i] != map[]
    && forall c <- keyCols :: GetCell(rows[i], c).Some? && GetCell(rows[i], c) == GetCell(rows[j], c)
  }

  lemma SameRecordIsSameKey(uds: seq<UserData>, rows: seq<Row>, keyCols: seq<nat>, i: nat, j: nat)
    requires |uds| == |rows| && i < |rows| && j < |rows|
    ensures SameRecord(uds, rows, keyCols, i, j) <==>
            && WriteKey(uds[i], rows[i], keyCols).Some?
            && WriteKey(uds[i], rows[i], keyCols) == WriteKey(uds[j], rows[j], keyCols)
  {
    hide GetCell, Cells;
    CellsDiffer(rows[i], rows[j], keyCols);
    CellsAreThere(rows[i], keyCols);
    CellsAreThere(rows[j], keyCols);
  }

  lemma CellsAreThere(row: Row, cols: seq<nat>)
    ensures (exists c <- Cells(row, cols) :: c == None) <==> exists c <- cols :: GetCell(row, c).None?
  {
    if c :| c in cols && GetCell(row, c).None? {
      var i :| 0 <= i < |cols| && cols[i] == c;
      assert Cells(row, cols)[i] == None;
    }
    if None in Cells(row, cols) {
      var i :| 0 <= i < |cols| && Cells(row, cols)[i] == None;
      assert cols[i] in cols;
    }
  }

  /** Rows that write the same record agree on every protected column. */
  method CheckConflictingRows(columns: seq<string>, idx: seq<nat>, rows: seq<Row>,
                              keyCols: seq<nat>, valueCols: seq<nat>)
    returns (r: Option<Clash>)
    requires forall k :: 0 <= k < |idx| ==> idx[k] < |columns|
    ensures var uds := BuildUdQuerySeq(columns, idx, rows);
            r.None? <==>
            forall i, j, c :: 0 <= i < j < |rows| && c in valueCols && SameRecord(uds, rows, keyCols, i, j) ==>
              GetCell(rows[i], c) == GetCell(rows[j], c)
    ensures r.Some? ==>
              var uds := BuildUdQuerySeq(columns, idx, rows);
              && 0 < r.value.first < r.value.row <= |rows|
              && var i, j := r.value.first - 1, r.value.row - 1;
                 && SameRecord(uds, rows, keyCols, i, j)
                 && exists c <- valueCols :: GetCell(rows[i], c) != GetCell(rows[j], c)
  {
    hide DataOf, GetCell, SameRecord, WriteKey;
    var uds := BuildUdQuerySeq(columns, idx, rows);
    if valueCols == [] {
      return None;
    }
    var keys := seq(|rows|, i requires 0 <= i < |rows| => WriteKey(uds[i], rows[i], keyCols));
    var values := seq(|rows|, i requires 0 <= i < |rows| => Cells(rows[i], valueCols));
    r := FirstClash(keys, values);
    if r.None? {
      forall i, j, c | 0 <= i < j < |rows| && c in valueCols && SameRecord(uds, rows, keyCols, i, j)
        ensures GetCell(rows[i], c) == GetCell(rows[j], c)
      {
        SameRecordIsSameKey(uds, rows, keyCols, i, j);
        assert keys[i] == keys[j];
        CellsDiffer(rows[i], rows[j], valueCols);
      }
    } else {
      SameRecordIsSameKey(uds, rows, keyCols, r.value.first - 1, r.value.row - 1);
      CellsDiffer(rows[r.value.first - 1], rows[r.value.row - 1], valueCols);
    }
  }

  lemma CellsDiffer(a: Row, b: Row, cols: seq<nat>)
    ensures Cells(a, cols) == Cells(b, cols) <==> forall c <- cols :: GetCell(a, c) == GetCell(b, c)
  {
    if Cells(a, cols) == Cells(b, cols) {
      forall c <- cols ensures GetCell(a, c) == GetCell(b, c) {
        var i :| 0 <= i < |cols| && cols[i] == c;
        assert Cells(a, cols)[i] == Cells(b, cols)[i];
      }
    } else {
      var i :| 0 <= i < |cols| && Cells(a, cols)[i] != Cells(b, cols)[i];
      assert cols[i] in cols;
    }
  }
}

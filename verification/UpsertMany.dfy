/**
 `upsert_many` of `database.py`: rows are grouped by their set of columns, each group runs as one
 prepared statement. The table is a map from conflict keys to rows, `keyOf` the key of a row.
 */
module UpsertMany {
  import opened Wrappers

  type Column = string
  /** What a cell holds; `Unset` only occurs in a request, never in the table. */
  datatype Value = Null | Text(text: string) | Number(n: int) | Unset

  /** The values of the columns of a unique constraint. */
  type Key = seq<Value>

  type Row = map<Column, Value>
  type Table = map<Key, Row>

  function Cell(row: Row, x: Column): Value {
    if x in row then row[x] else Null
  }

  /** Unset values are dropped, so that the column keeps its value or gets its default. */
  function Filtered(row: Row): Row {
    map x | x in row && !row[x].Unset? :: row[x]
  }

  function AllFiltered(rows: seq<Row>): seq<Row> {
    seq(|rows|, i requires 0 <= i < |rows| => Filtered(rows[i]))
  }

  // ----- one statement

  /** The guard `WHERE x IS excluded.x`, which holds for a NULL on both sides too. */
  predicate Matches(existing: Row, row: Row, guards: set<Column>) {
    forall x | x in guards :: Cell(existing, x) == Cell(row, x)
  }

  /** A conflicting row whose guarded columns differ is left untouched. */
  predicate HeldBack(t: Table, k: Key, row: Row, immutable: set<Column>) {
    k in t && !Matches(t[k], row, immutable * row.Keys)
  }

  function Upserted(t: Table, k: Key, row: Row, immutable: set<Column>): Table {
    if k !in t then t[k := row]
    else if HeldBack(t, k, row, immutable) then t
    else t[k := t[k] + row]
  }

  /** The table after a list of statements, and how many of them were held back. */
  datatype Outcome = Outcome(table: Table, untouched: nat)

  function One(o: Outcome, keyOf: Row -> Key, row: Row, immutable: set<Column>): Outcome {
    Outcome(
      Upserted(o.table, keyOf(row), row, immutable),
      o.untouched + if HeldBack(o.table, keyOf(row), row, immutable) then 1 else 0)
  }

  /** Some immutable column of the row would change; a missing one counts as NULL. */
  ghost predicate WouldChange(existing: Row, row: Row, immutable: set<Column>) {
    exists x :: x in immutable && x in row && row[x] != (if x in existing then existing[x] else Null)
  }

  /**
   One statement leaves the rows of all other keys alone. It inserts the row of a new key; of a known key
   it overwrites the columns that are given, unless an immutable one would change, which is counted.
   */
  lemma StatementMeaning(o: Outcome, keyOf: Row -> Key, row: Row, immutable: set<Column>)
    ensures
      var p, k := One(o, keyOf, row, immutable), keyOf(row);
      && p.table.Keys == o.table.Keys + {k}
      && (forall j | j in o.table && j != k :: p.table[j] == o.table[j])
      && (k !in o.table ==> p.table[k] == row && p.untouched == o.untouched)
      && (k in o.table ==>
            if WouldChange(o.table[k], row, immutable) then
              p.table[k] == o.table[k] && p.untouched == o.untouched + 1
            else
              && p.untouched == o.untouched
              && forall x :: Cell(p.table[k], x) == if x in row then row[x] else Cell(o.table[k], x))
  {
    var k := keyOf(row);
    if k in o.table {
      MatchesUnlessChanged(o.table[k], row, immutable);
    }
  }

  lemma MatchesUnlessChanged(existing: Row, row: Row, immutable: set<Column>)
    ensures Matches(existing, row, immutable * row.Keys) <==> !WouldChange(existing, row, immutable)
  {
    if WouldChange(existing, row, immutable) {
      var x :| x in immutable && x in row && row[x] != (if x in existing then existing[x] else Null);
      assert x in immutable * row.Keys && Cell(existing, x) != Cell(row, x);
    }
  }

  /** What is unset is not given at all; everything else is given as it is. */
  lemma FilteredMeaning(row: Row, x: Column)
    ensures x in Filtered(row) <==> x in row && row[x] != Unset
    ensures x in Filtered(row) ==> Filtered(row)[x] == row[x]
  {
  }

  /** Upserting row by row, in order. */
  function InOrder(o: Outcome, keyOf: Row -> Key, rows: seq<Row>, immutable: set<Column>): Outcome
    decreases |rows|
  {
    if rows == [] then o else InOrder(One(o, keyOf, rows[0], immutable), keyOf, rows[1..], immutable)
  }

  // ----- which reorderings do not matter

  /** The rows of one key, in order. */
  function OfKey(keyOf: Row -> Key, rows: seq<Row>, k: Key): seq<Row> {
    if rows == [] then []
    else if keyOf(rows[0]) == k then [rows[0]] + OfKey(keyOf, rows[1..], k)
    else OfKey(keyOf, rows[1..], k)
  }

  lemma {:induction false} OfKeyConcat(keyOf: Row -> Key, a: seq<Row>, b: seq<Row>, k: Key)
    ensures OfKey(keyOf, a + b, k) == OfKey(keyOf, a, k) + OfKey(keyOf, b, k)
  {
    if a == [] {
      assert a + b == b;
    } else {
      OfKeyConcat(keyOf, a[1..], b, k);
      assert (a + b)[1..] == a[1..] + b;
    }
  }

  lemma {:induction false} OfKeyAbsent(keyOf: Row -> Key, rows: seq<Row>, k: Key)
    ensures OfKey(keyOf, rows, k) == [] <==> forall r | r in rows :: keyOf(r) != k
  {
    if rows != [] {
      OfKeyAbsent(keyOf, rows[1..], k);
      assert forall r :: r in rows <==> r == rows[0] || r in rows[1..];
    }
  }

  lemma OnesCommute(o: Outcome, keyOf: Row -> Key, r: Row, s: Row, immutable: set<Column>)
    requires keyOf(r) != keyOf(s)
    ensures One(One(o, keyOf, r, immutable), keyOf, s, immutable)
            == One(One(o, keyOf, s, immutable), keyOf, r, immutable)
  {
    var a := One(One(o, keyOf, r, immutable), keyOf, s, immutable).table;
    var b := One(One(o, keyOf, s, immutable), keyOf, r, immutable).table;
    assert a.Keys == b.Keys;
    assert forall k | k in a :: a[k] == b[k];
  }

  /** A row may run before rows of other keys. */
  lemma {:induction false} RowMovesFirst(
      o: Outcome, keyOf: Row -> Key, a: seq<Row>, r: Row, b: seq<Row>, immutable: set<Column>)
    requires forall x | x in a :: keyOf(x) != keyOf(r)
    ensures InOrder(o, keyOf, a + [r] + b, immutable) == InOrder(One(o, keyOf, r, immutable), keyOf, a + b, immutable)
    decreases |a|
  {
    if a == [] {
      assert a + [r] + b == [r] + b && a + b == b && ([r] + b)[1..] == b;
    } else {
      var p := One(o, keyOf, a[0], immutable);
      assert (a + [r] + b)[1..] == a[1..] + [r] + b && (a + b)[1..] == a[1..] + b;
      RowMovesFirst(p, keyOf, a[1..], r, b, immutable);
      OnesCommute(o, keyOf, a[0], r, immutable);
    }
  }

  lemma WithoutFirst(keyOf: Row -> Key, a: seq<Row>, b1: seq<Row>, r: Row, b2: seq<Row>, j: Key)
    requires forall x | x in b1 :: keyOf(x) != keyOf(r)
    requires OfKey(keyOf, [r] + a, j) == OfKey(keyOf, b1 + [r] + b2, j)
    ensures OfKey(keyOf, a, j) == OfKey(keyOf, b1 + b2, j)
  {
    assert ([r] + a)[1..] == a && b1 + [r] + b2 == b1 + ([r] + b2) && ([r] + b2)[1..] == b2;
    OfKeyConcat(keyOf, b1, [r] + b2, j);
    OfKeyConcat(keyOf, b1, b2, j);
    OfKeyAbsent(keyOf, b1, keyOf(r));
    if j == keyOf(r) {
      var x, y := OfKey(keyOf, a, j), OfKey(keyOf, b2, j);
      assert ([r] + x)[1..] == x && ([r] + y)[1..] == y;
    }
  }

  /** Two lists that keep the rows of each key in the same order have the same outcome. */
  lemma {:induction false} SameOrderPerKey(
      o: Outcome, keyOf: Row -> Key, a: seq<Row>, b: seq<Row>, immutable: set<Column>)
    requires forall k :: OfKey(keyOf, a, k) == OfKey(keyOf, b, k)
    ensures InOrder(o, keyOf, a, immutable) == InOrder(o, keyOf, b, immutable)
    decreases |a|
  {
    assert b != [] ==> OfKey(keyOf, b, keyOf(b[0])) != [];
    if a != [] {
      var r, k := a[0], keyOf(a[0]);
      var i := FirstOfKey(keyOf, b, k);
      assert OfKey(keyOf, a, k)[0] == r;
      var b1, b2 := b[..i], b[i + 1..];
      assert b == b1 + [r] + b2 && a == [r] + a[1..];
      RowMovesFirst(o, keyOf, b1, r, b2, immutable);
      forall j ensures OfKey(keyOf, a[1..], j) == OfKey(keyOf, b1 + b2, j) {
        assert OfKey(keyOf, a, j) == OfKey(keyOf, b, j);
        WithoutFirst(keyOf, a[1..], b1, r, b2, j);
      }
      SameOrderPerKey(One(o, keyOf, r, immutable), keyOf, a[1..], b1 + b2, immutable);
    }
  }

  lemma {:induction false} FirstOfKey(keyOf: Row -> Key, b: seq<Row>, k: Key) returns (i: nat)
    requires OfKey(keyOf, b, k) != []
    ensures i < |b| && keyOf(b[i]) == k && b[i] == OfKey(keyOf, b, k)[0]
    ensures forall x | x in b[..i] :: keyOf(x) != k
  {
    if keyOf(b[0]) == k {
      i := 0;
    } else {
      var j := FirstOfKey(keyOf, b[1..], k);
      i := j + 1;
      assert b[..i] == [b[0]] + b[1..][..j];
    }
  }

  // ----- grouping by column set

  type Columns = set<Column>

  /** A dict of row lists, with its keys in the order they were first added. */
  datatype Groups = Groups(order: seq<Columns>, rows: map<Columns, seq<Row>>)

  function Added(g: Groups, row: Row): Groups {
    if row.Keys in g.rows then g.(rows := g.rows[row.Keys := g.rows[row.Keys] + [row]])
    else Groups(g.order + [row.Keys], g.rows[row.Keys := [row]])
  }

  function Grouped(rows: seq<Row>): Groups {
    if rows == [] then Groups([], map[]) else Added(Grouped(rows[..|rows| - 1]), rows[|rows| - 1])
  }

  ghost predicate ValidGroups(g: Groups) {
    && (forall c :: c in g.order <==> c in g.rows)
    && (forall i, j | 0 <= i < j < |g.order| :: g.order[i] != g.order[j])
    && (forall c, r | c in g.rows && r in g.rows[c] :: r.Keys == c)
  }

  /** All rows in the order they are executed. */
  function Flat(order: seq<Columns>, rows: map<Columns, seq<Row>>): seq<Row>
    requires forall c | c in order :: c in rows
    decreases |order|
  {
    if order == [] then [] else rows[order[0]] + Flat(order[1..], rows)
  }

  /** The rows in the order of their groups. */
  function Executed(rows: seq<Row>): seq<Row>
    requires ValidGroups(Grouped(rows))
  {
    Flat(Grouped(rows).order, Grouped(rows).rows)
  }

  /** Where a row with these columns comes first. */
  function FirstSeen(rows: seq<Row>, c: Columns): nat {
    if rows == [] || rows[0].Keys == c then 0 else 1 + FirstSeen(rows[1..], c)
  }

  predicate SeenInOrder(rows: seq<Row>, r: Row, s: Row) {
    FirstSeen(rows, r.Keys) <= FirstSeen(rows, s.Keys)
  }

  /**
   Of two rows that share a conflict key, the columns of the first are not seen later in the list than
   those of the second. Rows with distinct keys, or with the same columns for each key, are special cases.
   */
  predicate ColumnsInOrder(keyOf: Row -> Key, rows: seq<Row>) {
    forall i, j | 0 <= i < j < |rows| && keyOf(rows[i]) == keyOf(rows[j]) :: SeenInOrder(rows, rows[i], rows[j])
  }

  lemma {:induction false} FirstSeenSnoc(rows: seq<Row>, row: Row, c: Columns)
    ensures FirstSeen(rows, c) <= |rows|
    ensures FirstSeen(rows, c) < |rows| ==> FirstSeen(rows + [row], c) == FirstSeen(rows, c)
    ensures FirstSeen(rows, c) == |rows| ==> FirstSeen(rows + [row], c) == |rows| + if row.Keys == c then 0 else 1
  {
    if rows == [] {
      assert [] + [row] == [row] && [row][1..] == [];
    } else {
      FirstSeenSnoc(rows[1..], row, c);
      assert (rows + [row])[1..] == rows[1..] + [row];
    }
  }

  lemma {:induction false} SeenBefore(rows: seq<Row>, i: nat)
    requires i < |rows|
    ensures FirstSeen(rows, rows[i].Keys) <= i
  {
    if i > 0 && rows[0].Keys != rows[i].Keys {
      SeenBefore(rows[1..], i - 1);
    }
  }

  lemma {:induction false} FlatAppends(order: seq<Columns>, rows: map<Columns, seq<Row>>, c: Columns, row: Row)
    requires (forall d | d in order :: d in rows) && c !in order
    ensures Flat(order + [c], rows[c := [row]]) == Flat(order, rows) + [row]
    decreases |order|
  {
    if order == [] {
      assert (order + [c])[0] == c && (order + [c])[1..] == [];
    } else {
      assert (order + [c])[1..] == order[1..] + [c] && order[0] in order;
      FlatAppends(order[1..], rows, c, row);
    }
  }

  lemma {:induction false} FlatIgnores(order: seq<Columns>, rows: map<Columns, seq<Row>>, c: Columns, more: seq<Row>)
    requires (forall d | d in order :: d in rows) && c !in order
    ensures Flat(order, rows[c := more]) == Flat(order, rows)
    decreases |order|
  {
    if order != [] {
      assert order[0] in order;
      FlatIgnores(order[1..], rows, c, more);
    }
  }

  lemma {:induction false} FlatElements(order: seq<Columns>, rows: map<Columns, seq<Row>>, r: Row)
    requires forall d | d in order :: d in rows
    ensures r in Flat(order, rows) <==> exists c | c in order :: r in rows[c]
    decreases |order|
  {
    if order != [] {
      FlatElements(order[1..], rows, r);
      assert forall c :: c in order <==> c == order[0] || c in order[1..];
    }
  }

  /** No later group holds a row of this key. */
  ghost predicate LastOfKey(keyOf: Row -> Key, order: seq<Columns>, rows: map<Columns, seq<Row>>, row: Row)
    requires forall d | d in order :: d in rows
  {
    forall i, j, x | 0 <= i < j < |order| && order[i] == row.Keys && x in rows[order[j]] :: keyOf(x) != keyOf(row)
  }

  lemma LastOfKeyInRest(keyOf: Row -> Key, order: seq<Columns>, rows: map<Columns, seq<Row>>, row: Row)
    requires order != [] && (forall d | d in order :: d in rows) && LastOfKey(keyOf, order, rows, row)
    ensures LastOfKey(keyOf, order[1..], rows, row)
  {
    var rest := order[1..];
    forall i, j, x | 0 <= i < j < |rest| && rest[i] == row.Keys && x in rows[rest[j]] ensures keyOf(x) != keyOf(row) {
      assert order[i + 1] == rest[i] && order[j + 1] == rest[j];
    }
  }

  lemma FirstIsLastOfKey(keyOf: Row -> Key, order: seq<Columns>, rows: map<Columns, seq<Row>>, row: Row)
    requires order != [] && (forall d | d in order :: d in rows) && LastOfKey(keyOf, order, rows, row)
    requires order[0] == row.Keys
    ensures OfKey(keyOf, Flat(order[1..], rows), keyOf(row)) == []
  {
    var rest := order[1..];
    forall x | x in Flat(rest, rows) ensures keyOf(x) != keyOf(row) {
      FlatElements(rest, rows, x);
      var c :| c in rest && x in rows[c];
      var j :| 0 <= j < |rest| && rest[j] == c;
      assert order[j + 1] == c;
    }
    OfKeyAbsent(keyOf, Flat(rest, rows), keyOf(row));
  }

  /** A row joining its group moves past later groups, which hold no row of its key. */
  lemma {:induction false} FlatJoins(
      keyOf: Row -> Key, order: seq<Columns>, rows: map<Columns, seq<Row>>, row: Row, k: Key)
    requires forall d | d in order :: d in rows
    requires forall i, j | 0 <= i < j < |order| :: order[i] != order[j]
    requires row.Keys in order && LastOfKey(keyOf, order, rows, row)
    ensures OfKey(keyOf, Flat(order, rows[row.Keys := rows[row.Keys] + [row]]), k)
            == OfKey(keyOf, Flat(order, rows) + [row], k)
    decreases |order|
  {
    hide OfKey, LastOfKey;
    var c, rest := order[0], Flat(order[1..], rows);
    var joined := rows[row.Keys := rows[row.Keys] + [row]];
    assert c in order;
    OfKeyConcat(keyOf, rows[c] + rest, [row], k);
    OfKeyConcat(keyOf, rows[c], rest, k);
    if c == row.Keys {
      FlatIgnores(order[1..], rows, c, rows[c] + [row]);
      OfKeyConcat(keyOf, rows[c] + [row], rest, k);
      OfKeyConcat(keyOf, rows[c], [row], k);
      if k == keyOf(row) {
        FirstIsLastOfKey(keyOf, order, rows, row);
      } else {
        OfKeyAbsent(keyOf, [row], k);
      }
    } else {
      LastOfKeyInRest(keyOf, order, rows, row);
      FlatJoins(keyOf, order[1..], rows, row, k);
      OfKeyConcat(keyOf, rest, [row], k);
      OfKeyConcat(keyOf, rows[c], Flat(order[1..], joined), k);
    }
  }

  lemma {:induction false} GroupedIsValid(rows: seq<Row>)
    ensures ValidGroups(Grouped(rows))
    ensures forall r :: r in rows <==> exists c | c in Grouped(rows).rows :: r in Grouped(rows).rows[c]
  {
    if rows != [] {
      var init, row := rows[..|rows| - 1], rows[|rows| - 1];
      GroupedIsValid(init);
      var g, h := Grouped(init), Grouped(rows);
      assert forall r :: r in rows <==> r in init || r == row;
      forall r ensures r in rows <==> exists c | c in h.rows :: r in h.rows[c] {
        if r in init {
          var c :| c in g.rows && r in g.rows[c];
          assert c in h.rows && r in h.rows[c];
        } else if r == row {
          assert row.Keys in h.rows && r in h.rows[row.Keys];
        }
      }
    }
  }

  /** The groups come in the order in which their columns were first seen. */
  ghost predicate Ranked(rows: seq<Row>, order: seq<Columns>) {
    && (forall c | c in order :: FirstSeen(rows, c) < |rows|)
    && (forall i, j | 0 <= i < j < |order| :: FirstSeen(rows, order[i]) < FirstSeen(rows, order[j]))
  }

  lemma {:induction false} GroupedIsRanked(rows: seq<Row>)
    ensures Ranked(rows, Grouped(rows).order)
  {
    if rows != [] {
      var init, row := rows[..|rows| - 1], rows[|rows| - 1];
      GroupedIsRanked(init);
      GroupedIsValid(init);
      var order, more := Grouped(init).order, Grouped(rows).order;
      assert rows == init + [row];
      hide FirstSeen;
      forall c ensures
        && (FirstSeen(init, c) < |init| ==> FirstSeen(rows, c) == FirstSeen(init, c))
        && (FirstSeen(init, c) == |init| ==> FirstSeen(rows, c) == |init| + if row.Keys == c then 0 else 1)
        && FirstSeen(init, c) <= |init|
      {
        FirstSeenSnoc(init, row, c);
      }
      if row.Keys !in Grouped(init).rows {
        SeenInGroups(init, row.Keys);
      }
    }
  }

  lemma {:induction false} SeenInGroups(rows: seq<Row>, c: Columns)
    ensures FirstSeen(rows, c) < |rows| ==> c in Grouped(rows).rows
  {
    if rows != [] {
      var init, row := rows[..|rows| - 1], rows[|rows| - 1];
      SeenInGroups(init, c);
      FirstSeenSnoc(init, row, c);
      assert rows == init + [row];
    }
  }

  lemma PrefixInOrder(keyOf: Row -> Key, rows: seq<Row>, row: Row)
    requires ColumnsInOrder(keyOf, rows + [row])
    ensures ColumnsInOrder(keyOf, rows)
    ensures forall i | 0 <= i < |rows| && keyOf(rows[i]) == keyOf(row) ::
              FirstSeen(rows, rows[i].Keys) <= FirstSeen(rows, row.Keys)
  {
    var more := rows + [row];
    forall i | 0 <= i < |rows| ensures FirstSeen(rows, rows[i].Keys) == FirstSeen(more, rows[i].Keys) < |rows| {
      SeenBefore(rows, i);
      FirstSeenSnoc(rows, row, rows[i].Keys);
    }
    FirstSeenSnoc(rows, row, row.Keys);
    forall i, j | 0 <= i < j < |rows| && keyOf(rows[i]) == keyOf(rows[j]) ensures SeenInOrder(rows, rows[i], rows[j]) {
      assert more[i] == rows[i] && more[j] == rows[j] && SeenInOrder(more, more[i], more[j]);
    }
    forall i | 0 <= i < |rows| && keyOf(rows[i]) == keyOf(row)
      ensures FirstSeen(rows, rows[i].Keys) <= FirstSeen(rows, row.Keys)
    {
      assert more[i] == rows[i] && more[|rows|] == row && SeenInOrder(more, more[i], more[|rows|]);
    }
  }

  lemma JoinerIsLast(keyOf: Row -> Key, rows: seq<Row>, row: Row)
    requires ColumnsInOrder(keyOf, rows + [row])
    ensures ValidGroups(Grouped(rows)) && LastOfKey(keyOf, Grouped(rows).order, Grouped(rows).rows, row)
  {
    GroupedIsValid(rows);
    GroupedIsRanked(rows);
    PrefixInOrder(keyOf, rows, row);
    var g := Grouped(rows);
    hide Grouped, FirstSeen, ColumnsInOrder;
    forall i, j, x | 0 <= i < j < |g.order| && g.order[i] == row.Keys && x in g.rows[g.order[j]]
      ensures keyOf(x) != keyOf(row)
    {
      assert g.order[j] in g.rows && x in rows && x.Keys == g.order[j];
      var l :| 0 <= l < |rows| && rows[l] == x;
    }
  }

  /** Grouping keeps the rows of each key in order. */
  lemma {:induction false} GroupingKeepsOrder(keyOf: Row -> Key, rows: seq<Row>, k: Key)
    requires ColumnsInOrder(keyOf, rows)
    ensures ValidGroups(Grouped(rows))
    ensures OfKey(keyOf, Executed(rows), k) == OfKey(keyOf, rows, k)
  {
    GroupedIsValid(rows);
    if rows != [] {
      var init, row := rows[..|rows| - 1], rows[|rows| - 1];
      assert rows == init + [row];
      PrefixInOrder(keyOf, init, row);
      GroupingKeepsOrder(keyOf, init, k);
      JoinerIsLast(keyOf, init, row);
      var g := Grouped(init);
      OfKeyConcat(keyOf, Flat(g.order, g.rows), [row], k);
      OfKeyConcat(keyOf, init, [row], k);
      if row.Keys in g.rows {
        FlatJoins(keyOf, g.order, g.rows, row, k);
      } else {
        FlatAppends(g.order, g.rows, row.Keys, row);
      }
    }
  }

  // ----- and it does so only under that condition

  /** Two rows of one key are two of its rows, in order. */
  lemma {:induction false} OfKeyHolds(keyOf: Row -> Key, rows: seq<Row>, i: nat) returns (p: nat)
    requires i < |rows|
    ensures p < |OfKey(keyOf, rows, keyOf(rows[i]))| && OfKey(keyOf, rows, keyOf(rows[i]))[p] == rows[i]
  {
    if i == 0 {
      p := 0;
    } else {
      p := OfKeyHolds(keyOf, rows[1..], i - 1);
      if keyOf(rows[0]) == keyOf(rows[i]) { p := p + 1; }
    }
  }

  lemma {:induction false} OfKeyHoldsBoth(keyOf: Row -> Key, rows: seq<Row>, i: nat, j: nat) returns (p: nat, q: nat)
    requires i < j < |rows| && keyOf(rows[i]) == keyOf(rows[j])
    ensures var s := OfKey(keyOf, rows, keyOf(rows[i])); p < q < |s| && s[p] == rows[i] && s[q] == rows[j]
  {
    if i == 0 {
      p := 0;
      q := OfKeyHolds(keyOf, rows[1..], j - 1);
      q := q + 1;
    } else {
      p, q := OfKeyHoldsBoth(keyOf, rows[1..], i - 1, j - 1);
      if keyOf(rows[0]) == keyOf(rows[i]) { p, q := p + 1, q + 1; }
    }
  }

  lemma {:induction false} OfKeyComesFrom(keyOf: Row -> Key, rows: seq<Row>, k: Key, p: nat) returns (i: nat)
    requires p < |OfKey(keyOf, rows, k)|
    ensures i < |rows| && rows[i] == OfKey(keyOf, rows, k)[p]
  {
    if keyOf(rows[0]) != k {
      i := OfKeyComesFrom(keyOf, rows[1..], k, p);
      i := i + 1;
    } else if p == 0 {
      i := 0;
    } else {
      i := OfKeyComesFrom(keyOf, rows[1..], k, p - 1);
      i := i + 1;
    }
  }

  lemma {:induction false} OfKeyComesFromBoth(keyOf: Row -> Key, rows: seq<Row>, k: Key, p: nat, q: nat)
    returns (i: nat, j: nat)
    requires p < q < |OfKey(keyOf, rows, k)|
    ensures i < j < |rows| && rows[i] == OfKey(keyOf, rows, k)[p] && rows[j] == OfKey(keyOf, rows, k)[q]
  {
    if keyOf(rows[0]) != k {
      i, j := OfKeyComesFromBoth(keyOf, rows[1..], k, p, q);
      i, j := i + 1, j + 1;
    } else if p == 0 {
      i := 0;
      j := OfKeyComesFrom(keyOf, rows[1..], k, q - 1);
      j := j + 1;
    } else {
      i, j := OfKeyComesFromBoth(keyOf, rows[1..], k, p - 1, q - 1);
      i, j := i + 1, j + 1;
    }
  }

  /** The executed rows come in the order of their groups. */
  lemma {:induction false} FlatIsRanked(
      all: seq<Row>, order: seq<Columns>, rows: map<Columns, seq<Row>>, a: nat, b: nat)
    requires (forall c | c in order :: c in rows) && (forall c, r | c in order && r in rows[c] :: r.Keys == c)
    requires forall i, j | 0 <= i < j < |order| :: FirstSeen(all, order[i]) < FirstSeen(all, order[j])
    requires a < b < |Flat(order, rows)|
    ensures SeenInOrder(all, Flat(order, rows)[a], Flat(order, rows)[b])
    decreases |order|
  {
    hide FirstSeen;
    var first, rest := rows[order[0]], Flat(order[1..], rows);
    assert order[0] in order;
    if b < |first| {
      assert first[a] in first && first[b] in first;
    } else if a < |first| {
      assert first[a] in first && rest[b - |first|] in rest;
      FlatElements(order[1..], rows, rest[b - |first|]);
      var c :| c in order[1..] && rest[b - |first|] in rows[c];
      var j :| 0 <= j < |order[1..]| && order[1..][j] == c;
      assert order[j + 1] == c;
    } else {
      forall i, j | 0 <= i < j < |order[1..]| ensures FirstSeen(all, order[1..][i]) < FirstSeen(all, order[1..][j]) {
        assert order[1..][i] == order[i + 1] && order[1..][j] == order[j + 1];
      }
      FlatIsRanked(all, order[1..], rows, a - |first|, b - |first|);
    }
  }

  ghost predicate OrderIsKept(keyOf: Row -> Key, rows: seq<Row>, executed: seq<Row>) {
    forall k :: OfKey(keyOf, executed, k) == OfKey(keyOf, rows, k)
  }

  lemma KeptOrderIsSeen(keyOf: Row -> Key, rows: seq<Row>, g: Groups)
    requires ValidGroups(g) && Ranked(rows, g.order) && OrderIsKept(keyOf, rows, Flat(g.order, g.rows))
    ensures ColumnsInOrder(keyOf, rows)
  {
    hide FirstSeen, Flat, OfKey, SeenInOrder;
    var flat := Flat(g.order, g.rows);
    forall i, j | 0 <= i < j < |rows| && keyOf(rows[i]) == keyOf(rows[j]) ensures SeenInOrder(rows, rows[i], rows[j]) {
      assert OfKey(keyOf, flat, keyOf(rows[i])) == OfKey(keyOf, rows, keyOf(rows[i]));
      var p, q := OfKeyHoldsBoth(keyOf, rows, i, j);
      var a, b := OfKeyComesFromBoth(keyOf, flat, keyOf(rows[i]), p, q);
      FlatIsRanked(rows, g.order, g.rows, a, b);
    }
  }

  /** Grouping keeps the order of each key's rows exactly if their columns are seen in that order. */
  lemma OrderIsKeptExactly(keyOf: Row -> Key, rows: seq<Row>)
    ensures ValidGroups(Grouped(rows))
    ensures OrderIsKept(keyOf, rows, Executed(rows)) <==> ColumnsInOrder(keyOf, rows)
  {
    hide Grouped, Flat, OfKey, ColumnsInOrder, Ranked;
    GroupedIsValid(rows);
    GroupedIsRanked(rows);
    var g := Grouped(rows);
    if ColumnsInOrder(keyOf, rows) {
      forall k ensures OfKey(keyOf, Flat(g.order, g.rows), k) == OfKey(keyOf, rows, k) {
        GroupingKeepsOrder(keyOf, rows, k);
      }
    }
    if OrderIsKept(keyOf, rows, Flat(g.order, g.rows)) {
      KeptOrderIsSeen(keyOf, rows, g);
    }
  }

  /** Executing group by group is upserting row by row, and holds back as many rows. */
  lemma GroupingKeepsOutcome(o: Outcome, keyOf: Row -> Key, rows: seq<Row>, immutable: set<Column>)
    requires ColumnsInOrder(keyOf, rows)
    ensures ValidGroups(Grouped(rows))
    ensures InOrder(o, keyOf, Executed(rows), immutable) == InOrder(o, keyOf, rows, immutable)
  {
    GroupedIsValid(rows);
    forall k ensures OfKey(keyOf, Executed(rows), k) == OfKey(keyOf, rows, k) {
      GroupingKeepsOrder(keyOf, rows, k);
    }
    SameOrderPerKey(o, keyOf, Executed(rows), rows, immutable);
  }

  // ----- when the table is that of upserting row by row

  /** What the rows make of one row, the later ones over the earlier ones. */
  function Merged(rows: seq<Row>): Row {
    if rows == [] then map[] else rows[0] + Merged(rows[1..])
  }

  /** The value a column is given last, if any row gives it one. */
  function LastCell(rows: seq<Row>, x: Column): Option<Value> {
    if rows == [] then None
    else
      var later := LastCell(rows[1..], x);
      if later.Some? then later else if x in rows[0] then Some(rows[0][x]) else None
  }

  lemma {:induction false} MergedCells(rows: seq<Row>, x: Column)
    ensures LastCell(rows, x) == if x in Merged(rows) then Some(Merged(rows)[x]) else None
    ensures x in Merged(rows) <==> exists r | r in rows :: x in r
  {
    if rows != [] {
      MergedCells(rows[1..], x);
      assert forall r :: r in rows <==> r == rows[0] || r in rows[1..];
    }
  }

  function Before(t: Table, k: Key): Row {
    if k in t then t[k] else map[]
  }

  /** Without a guard, the rows of a key end up merged over what the table had. */
  lemma {:induction false} TableByKey(o: Outcome, keyOf: Row -> Key, rows: seq<Row>, k: Key)
    ensures
      var t := InOrder(o, keyOf, rows, {}).table;
      && (k in t <==> k in o.table || OfKey(keyOf, rows, k) != [])
      && (k in t ==> t[k] == Before(o.table, k) + Merged(OfKey(keyOf, rows, k)))
    ensures InOrder(o, keyOf, rows, {}).untouched == o.untouched
    decreases |rows|
  {
    hide One;
    if rows == [] {
      assert Before(o.table, k) + map[] == Before(o.table, k);
    } else {
      var p, rest := One(o, keyOf, rows[0], {}), OfKey(keyOf, rows[1..], k);
      OneByKey(o, keyOf, rows[0], k);
      TableByKey(p, keyOf, rows[1..], k);
      if keyOf(rows[0]) == k {
        assert ([rows[0]] + rest)[1..] == rest;
        assert Before(o.table, k) + rows[0] + Merged(rest) == Before(o.table, k) + (rows[0] + Merged(rest));
      }
    }
  }

  lemma OneByKey(o: Outcome, keyOf: Row -> Key, row: Row, k: Key)
    ensures var p := One(o, keyOf, row, {});
            && p.untouched == o.untouched
            && (k in p.table <==> k in o.table || keyOf(row) == k)
            && Before(p.table, k) == if keyOf(row) == k then Before(o.table, k) + row else Before(o.table, k)
  {
  }

  lemma {:induction false} OfKeyElements(keyOf: Row -> Key, rows: seq<Row>, k: Key, r: Row)
    ensures r in OfKey(keyOf, rows, k) <==> r in rows && keyOf(r) == k
  {
    if rows != [] {
      OfKeyElements(keyOf, rows[1..], k, r);
      assert r in rows <==> r == rows[0] || r in rows[1..];
    }
  }

  ghost predicate CellsAgree(a: seq<Row>, b: seq<Row>) {
    forall x :: LastCell(a, x) == LastCell(b, x)
  }

  /** In both lists, each column of each key is given the same value last. */
  ghost predicate LastCellsAgree(keyOf: Row -> Key, a: seq<Row>, b: seq<Row>) {
    forall k :: CellsAgree(OfKey(keyOf, a, k), OfKey(keyOf, b, k))
  }

  lemma MergedAgree(base: Row, a: seq<Row>, b: seq<Row>)
    requires forall r :: r in a <==> r in b
    ensures base + Merged(a) == base + Merged(b) <==> CellsAgree(a, b)
  {
    hide Merged, LastCell;
    var m, n := Merged(a), Merged(b);
    forall x
      ensures LastCell(a, x) == (if x in m then Some(m[x]) else None)
      ensures LastCell(b, x) == (if x in n then Some(n[x]) else None)
      ensures x in m <==> x in n
    {
      MergedCells(a, x);
      MergedCells(b, x);
    }
    if base + m == base + n {
      forall x | x in m ensures m[x] == n[x] {
        assert m[x] == (base + m)[x] == (base + n)[x];
      }
    }
    if CellsAgree(a, b) {
      forall x | x in m ensures m[x] == n[x] {
        assert LastCell(a, x) == LastCell(b, x);
      }
      assert m == n;
    }
  }

  lemma RowOfKeyAgrees(o: Outcome, keyOf: Row -> Key, a: seq<Row>, b: seq<Row>, k: Key)
    requires forall r :: r in a <==> r in b
    ensures
      var s, t := InOrder(o, keyOf, a, {}).table, InOrder(o, keyOf, b, {}).table;
      && (k in s <==> k in t)
      && (k in s ==> (s[k] == t[k] <==> CellsAgree(OfKey(keyOf, a, k), OfKey(keyOf, b, k))))
      && (k !in s ==> CellsAgree(OfKey(keyOf, a, k), OfKey(keyOf, b, k)))
  {
    hide InOrder, OfKey, Merged, LastCell, CellsAgree;
    TableByKey(o, keyOf, a, k);
    TableByKey(o, keyOf, b, k);
    forall r ensures r in OfKey(keyOf, a, k) <==> r in OfKey(keyOf, b, k) {
      OfKeyElements(keyOf, a, k, r);
      OfKeyElements(keyOf, b, k, r);
    }
    if OfKey(keyOf, a, k) != [] { assert OfKey(keyOf, a, k)[0] in OfKey(keyOf, b, k); }
    if OfKey(keyOf, b, k) != [] { assert OfKey(keyOf, b, k)[0] in OfKey(keyOf, a, k); }
    MergedAgree(Before(o.table, k), OfKey(keyOf, a, k), OfKey(keyOf, b, k));
    NothingAgrees();
  }

  lemma NothingAgrees()
    ensures CellsAgree([], [])
  {
  }

  /** Two orders of the same rows end alike exactly if each cell is given the same value last. */
  lemma SameOutcomeExactly(o: Outcome, keyOf: Row -> Key, a: seq<Row>, b: seq<Row>)
    requires forall r :: r in a <==> r in b
    ensures InOrder(o, keyOf, a, {}) == InOrder(o, keyOf, b, {}) <==> LastCellsAgree(keyOf, a, b)
  {
    hide InOrder, OfKey, CellsAgree;
    var s, t := InOrder(o, keyOf, a, {}), InOrder(o, keyOf, b, {});
    TableByKey(o, keyOf, a, []);
    TableByKey(o, keyOf, b, []);
    forall k
      ensures k in s.table <==> k in t.table
      ensures k in s.table ==> (s.table[k] == t.table[k] <==> CellsAgree(OfKey(keyOf, a, k), OfKey(keyOf, b, k)))
      ensures k !in s.table ==> CellsAgree(OfKey(keyOf, a, k), OfKey(keyOf, b, k))
    {
      RowOfKeyAgrees(o, keyOf, a, b, k);
    }
    if LastCellsAgree(keyOf, a, b) {
      assert s.table == t.table;
    }
  }

  /**
   From any table, and without immutable columns, group by group is the same as upserting row by row
   exactly if for each key and column the last value given is the same in both orders.
   */
  lemma GroupingIsUpsertingExactly(o: Outcome, keyOf: Row -> Key, rows: seq<Row>)
    ensures ValidGroups(Grouped(rows))
    ensures
      InOrder(o, keyOf, Executed(rows), {}) == InOrder(o, keyOf, rows, {})
      <==> LastCellsAgree(keyOf, Executed(rows), rows)
  {
    hide Grouped, Flat, InOrder, LastCellsAgree;
    GroupedIsValid(rows);
    var g := Grouped(rows);
    forall r ensures r in Flat(g.order, g.rows) <==> r in rows {
      FlatElements(g.order, g.rows, r);
    }
    SameOutcomeExactly(o, keyOf, Flat(g.order, g.rows), rows);
  }

  lemma GroupedSnoc(rows: seq<Row>, row: Row)
    ensures Grouped(rows + [row]) == Added(Grouped(rows), row)
  {
    assert (rows + [row])[..|rows|] == rows;
  }

  lemma ThirdJoinsFirst(r1: Row, r2: Row, r3: Row)
    requires r1.Keys == r3.Keys != r2.Keys
    ensures var g := Grouped([r1, r2, r3]);
            && g.order == [r1.Keys, r2.Keys] && r1.Keys in g.rows && r2.Keys in g.rows
            && g.rows[r1.Keys] == [r1, r3] && g.rows[r2.Keys] == [r2]
  {
    GroupedSnoc([], r1);
    GroupedSnoc([r1], r2);
    GroupedSnoc([r1, r2], r3);
    assert [] + [r1] == [r1] && [r1] + [r2] == [r1, r2] && [r1, r2] + [r3] == [r1, r2, r3];
    assert Grouped([]) == Groups([], map[]);
    hide Grouped;
    var c, d := r1.Keys, r2.Keys;
    assert Grouped([r1]) == Groups([c], map[c := [r1]]);
    var g := Grouped([r1, r2]);
    assert g == Groups([c] + [d], map[c := [r1]][d := [r2]]);
    assert g.order == [c, d] && g.rows[c] == [r1];
    assert Grouped([r1, r2, r3]) == g.(rows := g.rows[c := [r1] + [r3]]);
  }

  lemma FlatOfTwo(c: Columns, d: Columns, rows: map<Columns, seq<Row>>)
    requires c in rows && d in rows
    ensures Flat([c, d], rows) == rows[c] + rows[d]
  {
    assert [c, d][1..] == [d] && [d][1..] == [];
    assert Flat([d], rows) == rows[d];
  }

  lemma ThreeOfOneKey(keyOf: Row -> Key, a: Row, b: Row, c: Row, x: Column)
    requires keyOf(a) == keyOf(b) == keyOf(c) && x in c
    ensures LastCell(OfKey(keyOf, [a, b, c], keyOf(a)), x) == Some(c[x])
  {
    assert [a, b, c][1..] == [b, c] && [b, c][1..] == [c] && [c][1..] == [];
    assert OfKey(keyOf, [c], keyOf(a)) == [c];
    assert OfKey(keyOf, [b, c], keyOf(a)) == [b, c];
    assert OfKey(keyOf, [a, b, c], keyOf(a)) == [a, b, c];
    assert LastCell([c], x) == Some(c[x]);
    assert LastCell([b, c], x) == Some(c[x]);
  }

  lemma ThirdOvertakes(r1: Row, r2: Row, r3: Row)
    requires r1.Keys == r3.Keys != r2.Keys
    ensures ValidGroups(Grouped([r1, r2, r3])) && Executed([r1, r2, r3]) == [r1, r3, r2]
  {
    hide Grouped, Flat;
    GroupedIsValid([r1, r2, r3]);
    ThirdJoinsFirst(r1, r2, r3);
    FlatOfTwo(r1.Keys, r2.Keys, Grouped([r1, r2, r3]).rows);
  }

  /**
   The outcome does differ: of three rows of one key the last joins the group of the first, and overtakes
   the second, which then has the last word on their common columns.
   */
  lemma SharedKeysAreReordered(o: Outcome, keyOf: Row -> Key, r1: Row, r2: Row, r3: Row, x: Column)
    requires keyOf(r1) == keyOf(r2) == keyOf(r3) && r1.Keys == r3.Keys != r2.Keys
    requires x in r2 && x in r3 && r2[x] != r3[x]
    ensures ValidGroups(Grouped([r1, r2, r3]))
    ensures InOrder(o, keyOf, Executed([r1, r2, r3]), {}) != InOrder(o, keyOf, [r1, r2, r3], {})
  {
    hide Grouped, Executed, InOrder, OfKey, LastCell;
    ThirdOvertakes(r1, r2, r3);
    GroupingIsUpsertingExactly(o, keyOf, [r1, r2, r3]);
    ThreeOfOneKey(keyOf, r1, r2, r3, x);
    ThreeOfOneKey(keyOf, r1, r3, r2, x);
  }

  lemma {:induction false} InOrderConcat(
      o: Outcome, keyOf: Row -> Key, a: seq<Row>, b: seq<Row>, immutable: set<Column>)
    ensures InOrder(o, keyOf, a + b, immutable) == InOrder(InOrder(o, keyOf, a, immutable), keyOf, b, immutable)
    decreases |a|
  {
    if a == [] {
      assert a + b == b;
    } else {
      assert (a + b)[1..] == a[1..] + b;
      InOrderConcat(One(o, keyOf, a[0], immutable), keyOf, a[1..], b, immutable);
    }
  }

  // ----- the code

  class Connection {
    const keyOf: Row -> Key
    var table: Table

    constructor (keyOf: Row -> Key)
      ensures this.keyOf == keyOf && table == map[]
    {
      this.keyOf := keyOf;
      table := map[];
    }

    /** One prepared statement for rows of the same columns; `rowcount` counts the inserted and updated ones. */
    method ExecuteMany(
        keys: Columns, rows: seq<Row>, guards: set<Column>, ghost immutable: set<Column>, ghost untouched: nat)
      returns (rowcount: nat)
      requires guards == immutable * keys && forall r | r in rows :: r.Keys == keys
      modifies this
      ensures rowcount <= |rows|
      ensures Outcome(table, untouched + |rows| - rowcount)
              == InOrder(Outcome(old(table), untouched), keyOf, rows, immutable)
    {
      rowcount := 0;
      ghost var start := Outcome(table, untouched);
      for i := 0 to |rows|
        invariant rowcount <= i
        invariant Outcome(table, untouched + i - rowcount) == InOrder(start, keyOf, rows[..i], immutable)
      {
        var row := rows[i];
        assert row in rows && rows[..i + 1] == rows[..i] + [row] && [row][1..] == [];
        InOrderConcat(start, keyOf, rows[..i], [row], immutable);
        var k := keyOf(row);
        if k !in table {
          table := table[k := row];
          rowcount := rowcount + 1;
        } else if Matches(table[k], row, guards) {
          table := table[k := table[k] + row];
          rowcount := rowcount + 1;
        }
      }
      assert rows[..|rows|] == rows;
    }

    method GroupRows(values: seq<Row>) returns (groups: Groups)
      ensures groups == Grouped(AllFiltered(values))
    {
      groups := Groups([], map[]);
      ghost var filtered := AllFiltered(values);
      for i := 0 to |values|
        invariant groups == Grouped(filtered[..i])
      {
        assert filtered[..i + 1][..i] == filtered[..i];
        groups := Added(groups, Filtered(values[i]));
      }
      assert filtered[..|values|] == filtered;
    }

    method ExecuteGroups(groups: Groups, immutable: set<Column>) returns (untouched: nat)
      requires ValidGroups(groups)
      modifies this
      ensures Outcome(table, untouched)
              == InOrder(Outcome(old(table), 0), keyOf, Flat(groups.order, groups.rows), immutable)
    {
      untouched := 0;
      ghost var start := Outcome(table, 0);
      for i := 0 to |groups.order|
        invariant forall c | c in groups.order[..i] :: c in groups.rows
        invariant Outcome(table, untouched) == InOrder(start, keyOf, Flat(groups.order[..i], groups.rows), immutable)
      {
        var keys := groups.order[i];
        var rows := groups.rows[keys];
        FlatSnoc(groups.order[..i], groups.rows, keys);
        assert groups.order[..i + 1] == groups.order[..i] + [keys];
        InOrderConcat(start, keyOf, Flat(groups.order[..i], groups.rows), rows, immutable);
        var rowcount := ExecuteMany(keys, rows, immutable * keys, immutable, untouched);
        untouched := untouched + |rows| - rowcount;
      }
      assert groups.order[..|groups.order|] == groups.order;
    }

    /** Without immutable columns this is an upsert per row exactly if the last cells agree. */
    method UpsertRows(values: seq<Row>, immutable: set<Column>) returns (untouched: nat)
      modifies this
      ensures ValidGroups(Grouped(AllFiltered(values)))
      ensures Outcome(table, untouched)
              == InOrder(Outcome(old(table), 0), keyOf, Executed(AllFiltered(values)), immutable)
      ensures ColumnsInOrder(keyOf, AllFiltered(values)) ==>
                Outcome(table, untouched) == InOrder(Outcome(old(table), 0), keyOf, AllFiltered(values), immutable)
      ensures immutable == {} ==>
                (Outcome(table, untouched) == InOrder(Outcome(old(table), 0), keyOf, AllFiltered(values), {})
                 <==> LastCellsAgree(keyOf, Executed(AllFiltered(values)), AllFiltered(values)))
    {
      hide Grouped, Flat, InOrder, LastCellsAgree, ColumnsInOrder, AllFiltered;
      GroupedIsValid(AllFiltered(values));
      ghost var start := Outcome(table, 0);
      GroupingIsUpsertingExactly(start, keyOf, AllFiltered(values));
      if ColumnsInOrder(keyOf, AllFiltered(values)) {
        GroupingKeepsOutcome(start, keyOf, AllFiltered(values), immutable);
      }
      if values == [] {
        NothingIsExecuted(start, keyOf, values, immutable);
        return 0;
      }
      var groups := GroupRows(values);
      untouched := ExecuteGroups(groups, immutable);
    }
  }

  lemma NothingIsExecuted(o: Outcome, keyOf: Row -> Key, values: seq<Row>, immutable: set<Column>)
    requires values == []
    ensures ValidGroups(Grouped(AllFiltered(values)))
    ensures InOrder(o, keyOf, Executed(AllFiltered(values)), immutable) == o
  {
  }

  lemma {:induction false} FlatSnoc(order: seq<Columns>, rows: map<Columns, seq<Row>>, c: Columns)
    requires c in rows && forall d | d in order :: d in rows
    ensures Flat(order + [c], rows) == Flat(order, rows) + rows[c]
    decreases |order|
  {
    if order == [] {
      assert (order + [c])[0] == c && (order + [c])[1..] == [];
    } else {
      assert (order + [c])[1..] == order[1..] + [c];
      FlatSnoc(order[1..], rows, c);
    }
  }
}

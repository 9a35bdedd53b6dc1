/**
 * `melt_merged_rows` (lines 199-234): one record per question from a table
 * whose category/item/No. cells were merged vertically. Those three columns are
 * forward-filled; a row whose category cell (as read, before the fill) is
 * non-blank opens a new group; within a group the first non-blank value of
 * each filled column is kept, the question and answer cells are joined with
 * newlines, and the rows' table positions plus two are listed. No. is then
 * converted to an integer for the whole table, which fails outright when a
 * group's No. is blank or not an integer.
 */
module RowMelter {
  import opened Wrappers
  import opened PyDict
  import opened Text

  /** A cell as read: None where pandas has NaN, otherwise the cell's text. */
  type Cell = Option<string>

  /** One row of the concatenated table: sheet-name and the five columns the melter reads. */
  datatype Row = Row(sheet: string, category: Cell, item: Cell, no: Cell, question: Cell, answer: Cell)

  datatype Field = Category | Item | No | Question | Answer

  function CellOf(r: Row, f: Field): Cell {
    match f
    case Category => r.category
    case Item => r.item
    case No => r.no
    case Question => r.question
    case Answer => r.answer
  }

  // ---------------------------------------------------------------------
  // The filled table (lines 212-220)

  /** The value `ffill` leaves in column `f` at the last of `rows`: the last non-blank cell so far. */
  function LastSeen(rows: seq<Row>, f: Field): Cell {
    if rows == [] then None
    else if CellOf(rows[|rows| - 1], f).Some? then CellOf(rows[|rows| - 1], f)
    else LastSeen(rows[..|rows| - 1], f)
  }

  /** The cumulative count of non-blank category cells (line 217), at the last of `rows`. */
  function GroupId(rows: seq<Row>): nat {
    if rows == [] then 0
    else GroupId(rows[..|rows| - 1]) + (if rows[|rows| - 1].category.Some? then 1 else 0)
  }

  /** A row of `df_filled` with its position in the table (`df_filled.index`). */
  datatype Member = Member(pos: nat, row: Row)

  /** The last of `rows` as it stands in `df_filled`. */
  function FilledLast(rows: seq<Row>): Member
    requires rows != []
  {
    var r := rows[|rows| - 1];
    Member(|rows| - 1, r.(category := LastSeen(rows, Category), item := LastSeen(rows, Item), no := LastSeen(rows, No)))
  }

  /**
   * `df_filled`, row by row: every row stays at its position, and row `i`
   * is filled from the rows up to and including it.
   */
  function Filled(rows: seq<Row>): (fs: seq<Member>)
    ensures |fs| == |rows|
    ensures forall i :: 0 <= i < |rows| ==> fs[i] == FilledLast(rows[..i + 1])
  {
    if rows == [] then []
    else
      var n := |rows| - 1;
      FilledStep(rows, Filled(rows[..n]));
      assert rows[..n + 1] == rows;
      Filled(rows[..n]) + [FilledLast(rows)]
  }

  lemma FilledStep(rows: seq<Row>, fs: seq<Member>)
    requires rows != [] && |fs| == |rows| - 1
    requires forall i :: 0 <= i < |fs| ==> fs[i] == FilledLast(rows[..|rows| - 1][..i + 1])
    ensures forall i :: 0 <= i < |fs| ==> fs[i] == FilledLast(rows[..i + 1])
  {
    forall i | 0 <= i < |fs|
      ensures fs[i] == FilledLast(rows[..i + 1])
    {
      assert rows[..|rows| - 1][..i + 1] == rows[..i + 1];
    }
  }

  /**
   * `df_filled.groupby("grp", sort=False)`: each group id with its rows, in
   * order of first appearance. No group is empty, and there is a group as
   * soon as there is a row.
   */
  function Groups(rows: seq<Row>): (gs: Dict<nat, seq<Member>>)
    ensures NonEmptyGroups(gs)
    ensures gs == [] <==> rows == []
  {
    if rows == [] then []
    else
      var d := Groups(rows[..|rows| - 1]);
      AppendAtNonEmpty(d, GroupId(rows), FilledLast(rows));
      AppendAt(d, GroupId(rows), FilledLast(rows))
  }

  /** Appending a row to a group keeps every group non-empty. */
  lemma AppendAtNonEmpty(d: Dict<nat, seq<Member>>, k: nat, m: Member)
    requires NonEmptyGroups(d)
    ensures NonEmptyGroups(AppendAt(d, k, m)) && AppendAt(d, k, m) != []
  {
    var v := Get(d, k).GetOr([]) + [m];
    PutPairs(d, k, v);
    forall a | 0 <= a < |AppendAt(d, k, m)|
      ensures AppendAt(d, k, m)[a].1 != []
    {
      var p := AppendAt(d, k, m)[a];
      assert p in Put(d, k, v);
      if p != (k, v) {
        var b :| 0 <= b < |d| && d[b] == p;
      }
    }
  }

  // ---------------------------------------------------------------------
  // Aggregation (lines 221-234)

  /** pandas `first`: the first non-blank cell of column `f`, NaN when there is none. */
  function FirstPresent(ms: seq<Member>, f: Field): Cell {
    if ms == [] then None
    else if CellOf(ms[0].row, f).Some? then CellOf(ms[0].row, f)
    else FirstPresent(ms[1..], f)
  }

  /** `s.dropna().astype(str)`: the non-blank cells of column `f`, in row order. */
  function Present(ms: seq<Member>, f: Field): seq<string> {
    if ms == [] then []
    else
      Present(ms[..|ms| - 1], f)
        + match CellOf(ms[|ms| - 1].row, f) case Some(s) => [s] case None => []
  }

  /** `original_row` aggregated with `list`: each row's position plus two. */
  function OriginalRows(ms: seq<Member>): (o: seq<int>)
    ensures |o| == |ms|
  {
    if ms == [] then [] else OriginalRows(ms[..|ms| - 1]) + [ms[|ms| - 1].pos + 2]
  }

  /** One row of the melted table. */
  datatype QaRow = QaRow(sheet: string, category: Cell, item: Cell, no: int,
                         question: string, answer: string, originalRows: seq<int>)

  /**
   * `astype({"No.": int})` failed on this group's No.: it is blank or not
   * an integer (ValueError), or an integer outside int64 (OverflowError).
   */
  datatype MeltError = NotAnInteger(no: Cell) | OutOfRange(no: Cell)

  /** The range of numpy's int64, the type `astype(int)` converts to. */
  const Int64Min: int := -0x8000_0000_0000_0000
  const Int64Max: int := 0x7fff_ffff_ffff_ffff

  predicate InInt64(n: int) { Int64Min <= n <= Int64Max }

  /** `astype(int)` on one No. cell. */
  function ConvertNo(no: Cell): Result<int, MeltError> {
    if no.None? then Err(NotAnInteger(no))
    else
      var n := ParseInt(no.value);
      if n.None? then Err(NotAnInteger(no))
      else if !InInt64(n.value) then Err(OutOfRange(no))
      else Ok(n.value)
  }

  /**
   * The conversion succeeds exactly on a present cell that parses as an
   * integer within int64, gives that integer, and otherwise reports the cell.
   */
  lemma ConvertNoMeaning(no: Cell)
    ensures ConvertNo(no).Ok? <==> no.Some? && ParseInt(no.value).Some? && InInt64(ParseInt(no.value).value)
    ensures ConvertNo(no).Ok? ==> ParseInt(no.value) == Some(ConvertNo(no).value)
    ensures ConvertNo(no).Err? ==> ConvertNo(no).error.no == no
  {
  }


  /** The aggregation of one group, with its No. converted (`AggregateMeaning` says what it gives). */
  function Aggregate(ms: seq<Member>): Result<QaRow, MeltError>
    requires ms != []
  {
    var n := ConvertNo(FirstPresent(ms, No));
    if n.Err? then Err(n.error)
    else
      Ok(QaRow(ms[0].row.sheet, FirstPresent(ms, Category), FirstPresent(ms, Item), n.value,
               JoinLines(Present(ms, Question)), JoinLines(Present(ms, Answer)), OriginalRows(ms)))
  }

  /**
   * A group aggregates exactly when its first non-blank No. is an integer
   * within int64; the record then carries that integer, the sheet of the
   * group's first row, and one original row per member starting with the
   * first member's. A failure reports that No. cell.
   */
  lemma AggregateMeaning(ms: seq<Member>)
    requires ms != []
    ensures Aggregate(ms).Ok? <==>
              FirstPresent(ms, No).Some? && ParseInt(FirstPresent(ms, No).value).Some?
              && InInt64(ParseInt(FirstPresent(ms, No).value).value)
    ensures Aggregate(ms).Ok? ==> ParseInt(FirstPresent(ms, No).value) == Some(Aggregate(ms).value.no)
    ensures Aggregate(ms).Ok? ==>
              Aggregate(ms).value.sheet == ms[0].row.sheet
              && |Aggregate(ms).value.originalRows| == |ms| && Aggregate(ms).value.originalRows[0] == ms[0].pos + 2
    ensures Aggregate(ms).Err? ==> Aggregate(ms).error.no == FirstPresent(ms, No)
  {
    OriginalRowsHead(ms);
  }


  predicate NonEmptyGroups(gs: Dict<nat, seq<Member>>) {
    forall a :: 0 <= a < |gs| ==> gs[a].1 != []
  }

  /** The values of `rs` in order, or the first error among them. */
  function Collect<T, E>(rs: seq<Result<T, E>>): Result<seq<T>, E> {
    if rs == [] then Ok([])
    else
      match Collect(rs[..|rs| - 1])
      case Err(e) => Err(e)
      case Ok(prev) =>
        match rs[|rs| - 1]
        case Err(e) => Err(e)
        case Ok(q) => Ok(prev + [q])
  }

  /** Each group aggregated on its own, in group order. */
  function Aggregates(gs: Dict<nat, seq<Member>>): seq<Result<QaRow, MeltError>>
    requires NonEmptyGroups(gs)
  {
    seq(|gs|, a requires 0 <= a < |gs| => Aggregate(gs[a].1))
  }

  /** Every group aggregated, in group order; the first group that fails fails the table. */
  function AggregateAll(gs: Dict<nat, seq<Member>>): Result<seq<QaRow>, MeltError>
    requires NonEmptyGroups(gs)
  {
    Collect(Aggregates(gs))
  }

  /** `melt_merged_rows(df)`: on success, one record per group, each its group's aggregate. */
  function Melt(rows: seq<Row>): (r: Result<seq<QaRow>, MeltError>)
    ensures r.Ok? ==>
              |r.value| == |Groups(rows)|
              && forall a :: 0 <= a < |r.value| ==> Aggregate(Groups(rows)[a].1) == Ok(r.value[a])
  {
    AggregateAllOk(Groups(rows));
    AggregateAll(Groups(rows))
  }

  // ---------------------------------------------------------------------
  // Properties

  /** Forward fill: blank exactly when no row so far has a value, otherwise the most recent value. */
  lemma {:induction false} LastSeenMeaning(rows: seq<Row>, f: Field)
    ensures LastSeen(rows, f).None? <==> forall j :: 0 <= j < |rows| ==> CellOf(rows[j], f).None?
    ensures LastSeen(rows, f).Some? ==>
              exists j :: 0 <= j < |rows| && CellOf(rows[j], f) == LastSeen(rows, f)
                && forall k :: j < k < |rows| ==> CellOf(rows[k], f).None?
  {
    LastSeenBlank(rows, f);
    if LastSeen(rows, f).Some? {
      var j := LastSeenSource(rows, f);
    }
  }

  lemma {:induction false} LastSeenBlank(rows: seq<Row>, f: Field)
    ensures LastSeen(rows, f).None? <==> forall j :: 0 <= j < |rows| ==> CellOf(rows[j], f).None?
  {
    if rows != [] {
      var n := |rows| - 1;
      LastSeenBlank(rows[..n], f);
      assert forall j :: 0 <= j < n ==> rows[..n][j] == rows[j];
    }
  }

  /** The row a filled value was carried down from. */
  lemma {:induction false} LastSeenSource(rows: seq<Row>, f: Field) returns (j: nat)
    requires LastSeen(rows, f).Some?
    ensures j < |rows| && CellOf(rows[j], f) == LastSeen(rows, f)
    ensures forall k :: j < k < |rows| ==> CellOf(rows[k], f).None?
  {
    var n := |rows| - 1;
    if CellOf(rows[n], f).Some? {
      j := n;
    } else {
      j := LastSeenSource(rows[..n], f);
      assert rows[..n][j] == rows[j];
      assert forall k :: j < k < n ==> rows[..n][k] == rows[k];
    }
  }

  /**
   * The group id never decreases, and two positions share it exactly when no
   * row from the first (exclusive) up to the second (inclusive) has a category cell.
   */
  lemma {:induction false} GroupIdRuns(rows: seq<Row>, i: nat, j: nat)
    requires i <= j <= |rows|
    ensures GroupId(rows[..i]) <= GroupId(rows[..j])
    ensures GroupId(rows[..i]) == GroupId(rows[..j]) <==> forall k :: i <= k < j ==> rows[k].category.None?
    decreases j - i
  {
    if i < j {
      GroupIdRuns(rows, i, j - 1);
      assert rows[..j][..j - 1] == rows[..j - 1];
    }
  }

  /** The values of a dict laid end to end, in iteration order. */
  function Flatten<K, V>(d: Dict<K, seq<V>>): seq<V> {
    if d == [] then [] else Flatten(d[..|d| - 1]) + d[|d| - 1].1
  }

  predicate KeysIncrease(d: Dict<nat, seq<Member>>) {
    forall a, b :: 0 <= a < b < |d| ==> d[a].0 < d[b].0
  }

  /** Appending under a key above every key present opens a new group at the end. */
  lemma {:induction false} AppendNewKey(d: Dict<nat, seq<Member>>, k: nat, m: Member)
    requires KeysIncrease(d)
    requires d == [] || d[|d| - 1].0 < k
    ensures AppendAt(d, k, m) == d + [(k, [m])]
    ensures KeysIncrease(AppendAt(d, k, m))
    ensures Flatten(AppendAt(d, k, m)) == Flatten(d) + [m]
  {
    assert forall i :: 0 <= i < |d| ==> d[i].0 < k by {
      forall i | 0 <= i < |d| ensures d[i].0 < k {
        assert i == |d| - 1 || d[i].0 < d[|d| - 1].0;
      }
    }
    PutNew(d, k, [m]);
    assert Get(d, k) == None;
    assert Get(d, k).GetOr([]) + [m] == [m];
    assert (d + [(k, [m])])[..|d|] == d;
  }

  /** Appending under the last key extends the last group in place. */
  lemma {:induction false} AppendLastKey(d: Dict<nat, seq<Member>>, k: nat, m: Member)
    requires KeysIncrease(d)
    requires d != [] && d[|d| - 1].0 == k
    ensures AppendAt(d, k, m) == d[..|d| - 1] + [(k, d[|d| - 1].1 + [m])]
    ensures KeysIncrease(AppendAt(d, k, m))
    ensures Flatten(AppendAt(d, k, m)) == Flatten(d) + [m]
  {
    var last := |d| - 1;
    GetLast(d, k);
    PutLast(d, k, d[last].1 + [m]);
    ReplaceLastGroup(d, d[last].1 + [m]);
    assert Flatten(d) == Flatten(d[..last]) + d[last].1;
    ConcatAssoc(Flatten(d[..last]), d[last].1, [m]);
  }

  /** Replacing the members of the last group keeps the keys and changes only the tail of the flattening. */
  lemma ReplaceLastGroup(d: Dict<nat, seq<Member>>, g: seq<Member>)
    requires KeysIncrease(d) && d != []
    ensures KeysIncrease(d[..|d| - 1] + [(d[|d| - 1].0, g)])
    ensures Flatten(d[..|d| - 1] + [(d[|d| - 1].0, g)]) == Flatten(d[..|d| - 1]) + g
  {
    var last := |d| - 1;
    var r := d[..last] + [(d[last].0, g)];
    assert forall a :: 0 <= a < |r| ==> r[a].0 == d[a].0;
    assert r[..last] == d[..last];
  }

  /**
   * The groups partition the filled table into contiguous runs, in table
   * order: laid end to end they give back `df_filled` row for row, and
   * their ids increase, the last one being the current running count.
   */
  lemma {:induction false} GroupsShape(rows: seq<Row>)
    ensures KeysIncrease(Groups(rows))
    ensures Groups(rows) == [] <==> rows == []
    ensures rows != [] ==> Groups(rows)[|Groups(rows)| - 1].0 == GroupId(rows)
    ensures Flatten(Groups(rows)) == Filled(rows)
  {
    GroupsKeys(rows);
    GroupsFlatten(rows);
  }

  lemma {:induction false} GroupsKeys(rows: seq<Row>)
    ensures KeysIncrease(Groups(rows))
    ensures Groups(rows) == [] <==> rows == []
    ensures rows != [] ==> Groups(rows)[|Groups(rows)| - 1].0 == GroupId(rows)
  {
    if rows != [] {
      var n := |rows| - 1;
      GroupsKeys(rows[..n]);
      GroupsStep(rows);
    }
  }

  /** How the last row of the table joins the groups of the rows before it. */
  lemma GroupsStep(rows: seq<Row>)
    requires rows != []
    requires (var d := Groups(rows[..|rows| - 1]);
              && KeysIncrease(d) && (d == [] <==> |rows| == 1)
              && (|rows| > 1 ==> d[|d| - 1].0 == GroupId(rows[..|rows| - 1])))
    ensures Groups(rows) != [] && KeysIncrease(Groups(rows))
    ensures Groups(rows)[|Groups(rows)| - 1].0 == GroupId(rows)
    ensures Flatten(Groups(rows)) == Flatten(Groups(rows[..|rows| - 1])) + [FilledLast(rows)]
  {
    var n := |rows| - 1;
    var d := Groups(rows[..n]);
    var k := GroupId(rows);
    assert Groups(rows) == AppendAt(d, k, FilledLast(rows));
    assert k == GroupId(rows[..n]) + (if rows[n].category.Some? then 1 else 0);
    AppendAtGroups(d, k, FilledLast(rows));
  }

  /** Appending under a key no smaller than the last one keeps the keys increasing and extends the flattening. */
  lemma AppendAtGroups(d: Dict<nat, seq<Member>>, k: nat, m: Member)
    requires KeysIncrease(d) && (d == [] || d[|d| - 1].0 <= k)
    ensures AppendAt(d, k, m) != [] && KeysIncrease(AppendAt(d, k, m))
    ensures AppendAt(d, k, m)[|AppendAt(d, k, m)| - 1].0 == k
    ensures Flatten(AppendAt(d, k, m)) == Flatten(d) + [m]
  {
    if d == [] || d[|d| - 1].0 < k {
      AppendNewKey(d, k, m);
    } else {
      AppendLastKey(d, k, m);
    }
  }

  lemma {:induction false} GroupsFlatten(rows: seq<Row>)
    ensures Flatten(Groups(rows)) == Filled(rows)
  {
    if rows != [] {
      var n := |rows| - 1;
      GroupsFlatten(rows[..n]);
      GroupsKeys(rows[..n]);
      GroupsStep(rows);
    }
  }

  lemma ConcatAssoc<T>(a: seq<T>, b: seq<T>, c: seq<T>)
    ensures a + (b + c) == (a + b) + c
  {
  }

  /** The error reported is the first failing group's; otherwise one record per group, in order. */
  lemma {:induction false} AggregateAllMeaning(gs: Dict<nat, seq<Member>>)
    requires NonEmptyGroups(gs)
    ensures AggregateAll(gs).Ok? <==> forall a :: 0 <= a < |gs| ==> Aggregate(gs[a].1).Ok?
    ensures AggregateAll(gs).Ok? ==>
              |AggregateAll(gs).value| == |gs|
              && forall a :: 0 <= a < |gs| ==> Aggregate(gs[a].1) == Ok(AggregateAll(gs).value[a])
    ensures AggregateAll(gs).Err? ==>
              exists a :: 0 <= a < |gs| && Aggregate(gs[a].1) == Err(AggregateAll(gs).error)
                && forall b :: 0 <= b < a ==> Aggregate(gs[b].1).Ok?
  {
    AggregateAllOk(gs);
    AggregateAllErr(gs);
  }

  /** A successful aggregation holds, at each position, the record of the group there. */
  lemma AggregateAllOk(gs: Dict<nat, seq<Member>>)
    requires NonEmptyGroups(gs)
    ensures AggregateAll(gs).Ok? ==>
              |AggregateAll(gs).value| == |gs|
              && forall a :: 0 <= a < |gs| ==> Aggregate(gs[a].1) == Ok(AggregateAll(gs).value[a])
  {
    var rs := Aggregates(gs);
    if Collect(rs).Ok? {
      CollectLength(rs);
      forall a | 0 <= a < |gs|
        ensures Aggregate(gs[a].1) == Ok(AggregateAll(gs).value[a])
      {
        CollectAt(rs, a);
      }
    }
  }

  /** A collected success has one value per result. */
  lemma {:induction false} CollectLength<T, E>(rs: seq<Result<T, E>>)
    requires Collect(rs).Ok?
    ensures |Collect(rs).value| == |rs|
  {
    if rs != [] {
      CollectLength(rs[..|rs| - 1]);
    }
  }

  /** Value a of a collected success is the value of result a. */
  lemma {:induction false} CollectAt<T, E>(rs: seq<Result<T, E>>, a: nat)
    requires Collect(rs).Ok? && a < |rs|
    ensures a < |Collect(rs).value| && rs[a] == Ok(Collect(rs).value[a])
  {
    var n := |rs| - 1;
    var init := rs[..n];
    CollectLength(init);
    if a < n {
      CollectAt(init, a);
      assert init[a] == rs[a];
    }
  }

  /** A collected failure is the error of the first result that fails. */
  lemma {:induction false} CollectErr<T, E>(rs: seq<Result<T, E>>)
    requires Collect(rs).Err?
    ensures exists a :: 0 <= a < |rs| && rs[a] == Err(Collect(rs).error) && forall b :: 0 <= b < a ==> rs[b].Ok?
  {
    var n := |rs| - 1;
    var init := rs[..n];
    assert forall b :: 0 <= b < n ==> init[b] == rs[b];
    if Collect(init).Err? {
      CollectErr(init);
      var a :| 0 <= a < n && init[a] == Err(Collect(init).error) && forall b :: 0 <= b < a ==> init[b].Ok?;
      assert rs[a] == init[a];
    } else {
      forall b | 0 <= b < n
        ensures rs[b].Ok?
      {
        CollectAt(init, b);
      }
    }
  }

  /** A failed aggregation reports the error of the first group that fails. */
  lemma AggregateAllErr(gs: Dict<nat, seq<Member>>)
    requires NonEmptyGroups(gs)
    ensures AggregateAll(gs).Err? ==>
              exists a :: 0 <= a < |gs| && Aggregate(gs[a].1) == Err(AggregateAll(gs).error)
                && forall b :: 0 <= b < a ==> Aggregate(gs[b].1).Ok?
  {
    var rs := Aggregates(gs);
    if Collect(rs).Err? {
      CollectErr(rs);
      var a :| 0 <= a < |rs| && rs[a] == Err(Collect(rs).error) && forall b :: 0 <= b < a ==> rs[b].Ok?;
      assert forall b :: 0 <= b <= a ==> Aggregate(gs[b].1) == rs[b];
    }
  }

  /**
   * A group opened at position `s = ms[0].pos`: its first row stands there as
   * `df_filled` has it, its id is the running count there, and it is the
   * first group exactly when it starts the table; any other starts at a row
   * whose category cell (as read) is non-blank.
   */
  predicate Head(rows: seq<Row>, first: bool, key: nat, ms: seq<Member>) {
    && ms != []
    && ms[0].pos < |rows|
    && ms[0] == FilledLast(rows[..ms[0].pos + 1])
    && key == GroupId(rows[..ms[0].pos + 1])
    && (first <==> ms[0].pos == 0)
    && (ms[0].pos > 0 ==> rows[ms[0].pos].category.Some?)
  }

  predicate Heads(rows: seq<Row>, gs: Dict<nat, seq<Member>>) {
    forall a :: 0 <= a < |gs| ==> Head(rows, a == 0, gs[a].0, gs[a].1)
  }

  /** What a group's head says about a table still holds once the table grows. */
  lemma HeadGrows(rows: seq<Row>, n: nat, first: bool, key: nat, ms: seq<Member>, m: Member)
    requires n <= |rows| && Head(rows[..n], first, key, ms)
    ensures Head(rows, first, key, ms) && Head(rows, first, key, ms + [m])
  {
    var s := ms[0].pos;
    assert rows[..n][..s + 1] == rows[..s + 1];
    assert rows[..n][s] == rows[s];
    assert (ms + [m])[0] == ms[0];
  }

  /** A row that opens a new group. */
  lemma HeadNew(rows: seq<Row>)
    requires rows != [] && (|rows| == 1 || rows[|rows| - 1].category.Some?)
    ensures Head(rows, |rows| == 1, GroupId(rows), [FilledLast(rows)])
  {
    assert rows[..|rows|] == rows;
  }

  /** A new group opened by the last row keeps the earlier heads. */
  lemma {:induction false} HeadsAfterNew(rows: seq<Row>, d: Dict<nat, seq<Member>>)
    requires rows != [] && Heads(rows[..|rows| - 1], d)
    requires |d| == 0 <==> |rows| == 1
    requires |rows| == 1 || rows[|rows| - 1].category.Some?
    ensures Heads(rows, d + [(GroupId(rows), [FilledLast(rows)])])
  {
    var n := |rows| - 1;
    var m := FilledLast(rows);
    var r := d + [(GroupId(rows), [m])];
    HeadNew(rows);
    forall a | 0 <= a < |r|
      ensures Head(rows, a == 0, r[a].0, r[a].1)
    {
      if a < |d| {
        assert r[a] == d[a];
        HeadGrows(rows, n, a == 0, d[a].0, d[a].1, m);
      }
    }
  }

  /** The last row joining the last group keeps every head. */
  lemma {:induction false} HeadsAfterLast(rows: seq<Row>, d: Dict<nat, seq<Member>>, m: Member)
    requires rows != [] && Heads(rows[..|rows| - 1], d) && d != []
    ensures Heads(rows, d[..|d| - 1] + [(d[|d| - 1].0, d[|d| - 1].1 + [m])])
  {
    var n := |rows| - 1;
    var last := |d| - 1;
    var r := d[..last] + [(d[last].0, d[last].1 + [m])];
    forall a | 0 <= a < |r|
      ensures Head(rows, a == 0, r[a].0, r[a].1)
    {
      HeadGrows(rows, n, a == 0, d[a].0, d[a].1, m);
      if a < last {
        assert r[a] == d[a];
      }
    }
  }

  /** Where each group starts: see `Head`. */
  lemma {:induction false} GroupsHeads(rows: seq<Row>)
    ensures Heads(rows, Groups(rows))
  {
    if rows != [] {
      var n := |rows| - 1;
      var d := Groups(rows[..n]);
      var k := GroupId(rows);
      var m := FilledLast(rows);
      GroupsHeads(rows[..n]);
      GroupsShape(rows[..n]);
      assert Groups(rows) == AppendAt(d, k, m);
      if n == 0 || rows[n].category.Some? {
        if n == 0 {
          assert rows[..n] == [];
        }
        AppendNewKey(d, k, m);
        HeadsAfterNew(rows, d);
      } else {
        AppendLastKey(d, k, m);
        HeadsAfterLast(rows, d, m);
      }
    }
  }

  /** The `original_row` lists laid end to end. */
  function AllOriginalRows(recs: seq<QaRow>): seq<int> {
    if recs == [] then [] else AllOriginalRows(recs[..|recs| - 1]) + recs[|recs| - 1].originalRows
  }

  lemma {:induction false} OriginalRowsConcat(ms: seq<Member>, ns: seq<Member>)
    ensures OriginalRows(ms + ns) == OriginalRows(ms) + OriginalRows(ns)
    decreases |ns|
  {
    if ns == [] {
      assert ms + ns == ms;
    } else {
      var k := |ns| - 1;
      OriginalRowsConcat(ms, ns[..k]);
      assert (ms + ns)[..|ms + ns| - 1] == ms + ns[..k];
      ConcatAssoc(OriginalRows(ms), OriginalRows(ns[..k]), [ns[k].pos + 2]);
    }
  }

  lemma {:induction false} OriginalRowsOfFilled(rows: seq<Row>)
    ensures |OriginalRows(Filled(rows))| == |rows|
    ensures forall i :: 0 <= i < |rows| ==> OriginalRows(Filled(rows))[i] == i + 2
  {
    if rows != [] {
      var n := |rows| - 1;
      OriginalRowsOfFilled(rows[..n]);
      var f := Filled(rows);
      assert f == Filled(rows[..n]) + [FilledLast(rows)];
      assert f[..|f| - 1] == Filled(rows[..n]);
    }
  }

  lemma {:induction false} AllOriginalRowsOfGroups(gs: Dict<nat, seq<Member>>, recs: seq<QaRow>)
    requires |recs| == |gs|
    requires forall a :: 0 <= a < |gs| ==> recs[a].originalRows == OriginalRows(gs[a].1)
    ensures AllOriginalRows(recs) == OriginalRows(Flatten(gs))
  {
    if gs != [] {
      var n := |gs| - 1;
      AllOriginalRowsOfGroups(gs[..n], recs[..n]);
      OriginalRowsConcat(Flatten(gs[..n]), gs[n].1);
    }
  }

  /**
   * The records partition the table: their `original_row` lists, laid end
   * to end, are 2, 3, ..., one per row of the table, so every row belongs
   * to exactly one record, each record's rows are consecutive and
   * ascending, and the records come in table order.
   */
  lemma MeltPartitionsRows(rows: seq<Row>)
    requires Melt(rows).Ok?
    ensures |AllOriginalRows(Melt(rows).value)| == |rows|
    ensures forall i :: 0 <= i < |rows| ==> AllOriginalRows(Melt(rows).value)[i] == i + 2
  {
    var gs := Groups(rows);
    AggregateAllMeaning(gs);
    var recs := Melt(rows).value;
    AllOriginalRowsOfGroups(gs, recs);
    GroupsShape(rows);
    OriginalRowsOfFilled(rows);
  }

  lemma {:induction false} OriginalRowsHead(ms: seq<Member>)
    requires ms != []
    ensures OriginalRows(ms)[0] == ms[0].pos + 2
  {
    if |ms| > 1 {
      OriginalRowsHead(ms[..|ms| - 1]);
    }
  }

  /**
   * A record's category is the non-blank category cell of the row its question
   * starts on, for every record but a leading one made of the rows before
   * the first non-blank category cell; those rows form a group of their own,
   * with id 0. Its item and No. are the values filled down to that row when
   * those are non-blank (otherwise `first` looks further down the group).
   */
  lemma MeltHeaders(rows: seq<Row>)
    requires Melt(rows).Ok?
    ensures (forall a :: 0 <= a < |Melt(rows).value| ==>
               var q := Melt(rows).value[a];
               && q.originalRows != [] && 2 <= q.originalRows[0] < |rows| + 2
               && (a == 0 <==> q.originalRows[0] == 2)
               && (a > 0 || rows[0].category.Some? ==>
                     rows[q.originalRows[0] - 2].category.Some? && q.category == rows[q.originalRows[0] - 2].category)
               && q.sheet == rows[q.originalRows[0] - 2].sheet
               && (LastSeen(rows[..q.originalRows[0] - 1], Item).Some? ==>
                     q.item == LastSeen(rows[..q.originalRows[0] - 1], Item))
               && (LastSeen(rows[..q.originalRows[0] - 1], No).Some? ==>
                     ParseInt(LastSeen(rows[..q.originalRows[0] - 1], No).value) == Some(q.no)))
  {
    forall a | 0 <= a < |Melt(rows).value| {
      MeltHeaderAt(rows, a);
    }
  }

  lemma MeltHeaderAt(rows: seq<Row>, a: nat)
    requires Melt(rows).Ok? && a < |Melt(rows).value|
    ensures (var q := Melt(rows).value[a];
             && q.originalRows != [] && 2 <= q.originalRows[0] < |rows| + 2
             && (a == 0 <==> q.originalRows[0] == 2)
             && (a > 0 || rows[0].category.Some? ==>
                   rows[q.originalRows[0] - 2].category.Some? && q.category == rows[q.originalRows[0] - 2].category)
             && q.sheet == rows[q.originalRows[0] - 2].sheet
             && (LastSeen(rows[..q.originalRows[0] - 1], Item).Some? ==>
                   q.item == LastSeen(rows[..q.originalRows[0] - 1], Item))
             && (LastSeen(rows[..q.originalRows[0] - 1], No).Some? ==>
                   ParseInt(LastSeen(rows[..q.originalRows[0] - 1], No).value) == Some(q.no)))
  {
    MeltRecordAt(rows, a);
    GroupsHeads(rows);
    var g := Groups(rows)[a];
    assert Head(rows, a == 0, g.0, g.1);
    HeadRecord(rows, a == 0, g.0, g.1, Melt(rows).value[a]);
  }

  /** The record at position `a` of a melted table is the aggregation of the group at position `a`. */
  lemma MeltRecordAt(rows: seq<Row>, a: nat)
    requires Melt(rows).Ok? && a < |Melt(rows).value|
    ensures a < |Groups(rows)| && Groups(rows)[a].1 != []
    ensures Aggregate(Groups(rows)[a].1) == Ok(Melt(rows).value[a])
  {
    assert Melt(rows) == AggregateAll(Groups(rows));
    AggregateAllOk(Groups(rows));
  }

  /** The first group has id 0 exactly when the first row's category cell is blank. */
  lemma LeadingGroup(rows: seq<Row>)
    requires rows != []
    ensures Groups(rows) != []
    ensures Groups(rows)[0].0 == 0 <==> rows[0].category.None?
  {
    var gs := Groups(rows);
    GroupsShape(rows);
    GroupsHeads(rows);
    assert Head(rows, true, gs[0].0, gs[0].1);
    assert rows[..1][..0] == [];
  }

  /** The head member of a group is its source row filled from the rows up to it. */
  lemma HeadMember(rows: seq<Row>, first: bool, key: nat, ms: seq<Member>)
    requires Head(rows, first, key, ms)
    ensures ms[0].row.sheet == rows[ms[0].pos].sheet
    ensures ms[0].row.category == LastSeen(rows[..ms[0].pos + 1], Category)
    ensures ms[0].row.item == LastSeen(rows[..ms[0].pos + 1], Item)
    ensures ms[0].row.no == LastSeen(rows[..ms[0].pos + 1], No)
  {
    var prefix := rows[..ms[0].pos + 1];
    assert prefix[ms[0].pos] == rows[ms[0].pos];
  }

  /** The record aggregated from a group with a known head. */
  lemma HeadRecord(rows: seq<Row>, first: bool, key: nat, ms: seq<Member>, q: QaRow)
    requires Head(rows, first, key, ms) && Aggregate(ms) == Ok(q)
    ensures q.originalRows != [] && 2 <= q.originalRows[0] < |rows| + 2
    ensures first <==> q.originalRows[0] == 2
    ensures !first || rows[0].category.Some? ==>
              rows[q.originalRows[0] - 2].category.Some? && q.category == rows[q.originalRows[0] - 2].category
    ensures q.sheet == rows[q.originalRows[0] - 2].sheet
    ensures LastSeen(rows[..q.originalRows[0] - 1], Item).Some? ==> q.item == LastSeen(rows[..q.originalRows[0] - 1], Item)
    ensures LastSeen(rows[..q.originalRows[0] - 1], No).Some? ==>
              ParseInt(LastSeen(rows[..q.originalRows[0] - 1], No).value) == Some(q.no)
  {
    var s := ms[0].pos;
    HeadMember(rows, first, key, ms);
    AggregateMeaning(ms);
    AggregateFields(ms, q);
    assert q.originalRows[0] == s + 2;
    assert rows[..q.originalRows[0] - 1] == rows[..s + 1];
    FirstPresentHead(ms, Category);
    FirstPresentHead(ms, Item);
    FirstPresentHead(ms, No);
  }

  /** The columns of an aggregated record that come straight from its group. */
  lemma AggregateFields(ms: seq<Member>, q: QaRow)
    requires ms != [] && Aggregate(ms) == Ok(q)
    ensures q.sheet == ms[0].row.sheet
    ensures q.category == FirstPresent(ms, Category) && q.item == FirstPresent(ms, Item)
    ensures q.originalRows == OriginalRows(ms)
  {
  }

  /** pandas `first` takes the group's first row when that cell is filled. */
  lemma FirstPresentHead(ms: seq<Member>, f: Field)
    requires ms != []
    ensures CellOf(ms[0].row, f).Some? ==> FirstPresent(ms, f) == CellOf(ms[0].row, f)
  {
  }

  lemma AggregateAllSnoc(gs: Dict<nat, seq<Member>>, a: nat)
    requires NonEmptyGroups(gs) && a < |gs|
    ensures AggregateAll(gs[..a + 1]) ==
      (match AggregateAll(gs[..a])
       case Err(e) => Err(e)
       case Ok(prev) =>
         match Aggregate(gs[a].1)
         case Err(e) => Err(e)
         case Ok(q) => Ok(prev + [q]))
  {
    var rs := Aggregates(gs[..a + 1]);
    assert rs[..a] == Aggregates(gs[..a]);
    assert rs[a] == Aggregate(gs[a].1);
  }

  /** Once a group has failed, aggregating more groups fails the same way. */
  lemma {:induction false} AggregateErrorSticks(gs: Dict<nat, seq<Member>>, a: nat)
    requires NonEmptyGroups(gs) && a <= |gs| && AggregateAll(gs[..a]).Err?
    ensures AggregateAll(gs) == AggregateAll(gs[..a])
    decreases |gs| - a
  {
    if a < |gs| {
      AggregateAllSnoc(gs, a);
      AggregateErrorSticks(gs, a + 1);
    } else {
      assert gs[..a] == gs;
    }
  }

  /**
   * The table fails to melt exactly when some group's first non-blank No.
   * is missing, is not an integer, or lies outside int64.
   */
  lemma MeltFailsOnNo(rows: seq<Row>)
    ensures Melt(rows).Ok? <==> NosConvert(Groups(rows))
  {
    var gs := Groups(rows);
    assert Melt(rows) == AggregateAll(gs);
    AggregateAllFailsOnNo(gs);
  }

  /** Every group's first non-blank No. converts with `astype(int)`. */
  predicate NosConvert(gs: Dict<nat, seq<Member>>) {
    forall a :: 0 <= a < |gs| ==> ConvertNo(FirstPresent(gs[a].1, No)).Ok?
  }

  lemma AggregateAllFailsOnNo(gs: Dict<nat, seq<Member>>)
    requires NonEmptyGroups(gs)
    ensures AggregateAll(gs).Ok? <==> NosConvert(gs)
  {
    AggregateAllOk(gs);
    AggregateAllErr(gs);
    if AggregateAll(gs).Ok? {
      forall a | 0 <= a < |gs|
        ensures ConvertNo(FirstPresent(gs[a].1, No)).Ok?
      {
        assert Aggregate(gs[a].1) == Ok(AggregateAll(gs).value[a]);
      }
    } else {
      var a :| 0 <= a < |gs| && Aggregate(gs[a].1) == Err(AggregateAll(gs).error);
    }
  }

  /**
   * A record's No. is the integer of its group's first non-blank No. after
   * the fill, and lies within int64.
   */
  lemma MeltNoAt(rows: seq<Row>, a: nat)
    requires Melt(rows).Ok? && a < |Melt(rows).value|
    ensures a < |Groups(rows)| && FirstPresent(Groups(rows)[a].1, No).Some?
    ensures ParseInt(FirstPresent(Groups(rows)[a].1, No).value) == Some(Melt(rows).value[a].no)
    ensures InInt64(Melt(rows).value[a].no)
  {
    MeltRecordAt(rows, a);
  }

  /** The non-blank cells of column `f` of the table as read, in row order. */
  function ColumnPresent(rows: seq<Row>, f: Field): seq<string> {
    if rows == [] then []
    else
      ColumnPresent(rows[..|rows| - 1], f)
        + match CellOf(rows[|rows| - 1], f) case Some(s) => [s] case None => []
  }

  /** The non-blank cells of column `f` of each group, laid end to end. */
  function GroupLines(gs: Dict<nat, seq<Member>>, f: Field): seq<string> {
    if gs == [] then [] else GroupLines(gs[..|gs| - 1], f) + Present(gs[|gs| - 1].1, f)
  }

  lemma {:induction false} PresentConcat(ms: seq<Member>, ns: seq<Member>, f: Field)
    ensures Present(ms + ns, f) == Present(ms, f) + Present(ns, f)
    decreases |ns|
  {
    if ns == [] {
      assert ms + ns == ms;
    } else {
      var k := |ns| - 1;
      PresentConcat(ms, ns[..k], f);
      assert (ms + ns)[..|ms + ns| - 1] == ms + ns[..k];
      ConcatAssoc(Present(ms, f), Present(ns[..k], f),
                  match CellOf(ns[k].row, f) case Some(s) => [s] case None => []);
    }
  }

  lemma {:induction false} GroupLinesFlatten(gs: Dict<nat, seq<Member>>, f: Field)
    ensures GroupLines(gs, f) == Present(Flatten(gs), f)
  {
    if gs != [] {
      GroupLinesFlatten(gs[..|gs| - 1], f);
      PresentConcat(Flatten(gs[..|gs| - 1]), gs[|gs| - 1].1, f);
    }
  }

  /** The fill leaves question and answer as read. */
  lemma {:induction false} FilledKeepsText(rows: seq<Row>, f: Field)
    requires f == Question || f == Answer
    ensures Present(Filled(rows), f) == ColumnPresent(rows, f)
  {
    if rows != [] {
      var n := |rows| - 1;
      FilledKeepsText(rows[..n], f);
      var fl := Filled(rows);
      assert fl == Filled(rows[..n]) + [FilledLast(rows)];
      assert fl[..|fl| - 1] == Filled(rows[..n]);
    }
  }

  /**
   * No question or answer line is lost or repeated: each record's question
   * (answer) joins the non-blank cells of its group, and the groups' cells,
   * laid end to end, are the non-blank cells of the whole column in table
   * order.
   */
  lemma MeltKeepsEveryLine(rows: seq<Row>)
    ensures GroupLines(Groups(rows), Question) == ColumnPresent(rows, Question)
    ensures GroupLines(Groups(rows), Answer) == ColumnPresent(rows, Answer)
    ensures Melt(rows).Ok? ==>
              |Melt(rows).value| == |Groups(rows)|
              && forall a :: 0 <= a < |Groups(rows)| ==>
                   && Melt(rows).value[a].question == JoinLines(Present(Groups(rows)[a].1, Question))
                   && Melt(rows).value[a].answer == JoinLines(Present(Groups(rows)[a].1, Answer))
  {
    var gs := Groups(rows);
    GroupsShape(rows);
    GroupLinesFlatten(gs, Question);
    GroupLinesFlatten(gs, Answer);
    FilledKeepsText(rows, Question);
    FilledKeepsText(rows, Answer);
    if Melt(rows).Ok? {
      var qs := Melt(rows).value;
      forall a | 0 <= a < |gs|
        ensures qs[a].question == JoinLines(Present(gs[a].1, Question))
        ensures qs[a].answer == JoinLines(Present(gs[a].1, Answer))
      {
        AggregateText(gs[a].1, qs[a]);
      }
    }
  }

  /** A record's 質問 and 回答 join its group's non-blank cells. */
  lemma AggregateText(ms: seq<Member>, q: QaRow)
    requires ms != [] && Aggregate(ms) == Ok(q)
    ensures q.question == JoinLines(Present(ms, Question)) && q.answer == JoinLines(Present(ms, Answer))
  {
  }

  // ---------------------------------------------------------------------
  // The melter as one pass over the rows

  /** What the single pass adds for row i: the fill, the group id and the group it joins. */
  lemma PassStep(rows: seq<Row>, i: nat)
    requires i < |rows|
    ensures LastSeen(rows[..i + 1], Category) == if rows[i].category.Some? then rows[i].category else LastSeen(rows[..i], Category)
    ensures LastSeen(rows[..i + 1], Item) == if rows[i].item.Some? then rows[i].item else LastSeen(rows[..i], Item)
    ensures LastSeen(rows[..i + 1], No) == if rows[i].no.Some? then rows[i].no else LastSeen(rows[..i], No)
    ensures GroupId(rows[..i + 1]) == GroupId(rows[..i]) + if rows[i].category.Some? then 1 else 0
    ensures Groups(rows[..i + 1]) == AppendAt(Groups(rows[..i]), GroupId(rows[..i + 1]), FilledLast(rows[..i + 1]))
    ensures FilledLast(rows[..i + 1]) == Member(i, rows[i].(category := LastSeen(rows[..i + 1], Category),
                                                          item := LastSeen(rows[..i + 1], Item),
                                                          no := LastSeen(rows[..i + 1], No)))
  {
    var p := rows[..i + 1];
    assert p[..i] == rows[..i];
    assert p[i] == rows[i];
  }

  /**
   * `melt_merged_rows` as one pass that carries the last non-blank value of
   * each merged column and the running group count, appending each filled
   * row to its group; then each group is aggregated in turn.
   */
  method MeltMergedRows(rows: seq<Row>) returns (r: Result<seq<QaRow>, MeltError>)
    ensures r == Melt(rows)
  {
    var groups := GroupRows(rows);
    r := AggregateGroups(groups);
  }

  /** Lines 212-220: the fill, the running group id and the grouping, in one pass over the rows. */
  method GroupRows(rows: seq<Row>) returns (groups: Dict<nat, seq<Member>>)
    ensures groups == Groups(rows)
  {
    var lastCategory, lastItem, lastNo: Cell := None, None, None;
    var grp: nat := 0;
    groups := [];
    var i := 0;
    while i < |rows|
      invariant i <= |rows|
      invariant lastCategory == LastSeen(rows[..i], Category)
      invariant lastItem == LastSeen(rows[..i], Item)
      invariant lastNo == LastSeen(rows[..i], No)
      invariant grp == GroupId(rows[..i])
      invariant groups == Groups(rows[..i])
    {
      var row := rows[i];
      PassStep(rows, i);
      if row.category.Some? {
        lastCategory := row.category;
        grp := grp + 1;
      }
      if row.item.Some? {
        lastItem := row.item;
      }
      if row.no.Some? {
        lastNo := row.no;
      }
      groups := AppendAt(groups, grp, Member(i, row.(category := lastCategory, item := lastItem, no := lastNo)));
      i := i + 1;
    }
    assert rows[..i] == rows;
  }

  /** Lines 221-233: one record per group in group order, stopping at the first No. that does not convert. */
  method AggregateGroups(groups: Dict<nat, seq<Member>>) returns (r: Result<seq<QaRow>, MeltError>)
    requires NonEmptyGroups(groups)
    ensures r == AggregateAll(groups)
  {
    var records: seq<QaRow> := [];
    var a := 0;
    assert groups[..0] == [];
    while a < |groups|
      invariant a <= |groups|
      invariant AggregateAll(groups[..a]) == Ok(records)
    {
      AggregateAllSnoc(groups, a);
      var agg := Aggregate(groups[a].1);
      if agg.Err? {
        AggregateErrorSticks(groups, a + 1);
        return Err(agg.error);
      }
      records := records + [agg.value];
      a := a + 1;
    }
    assert groups[..a] == groups;
    r := Ok(records);
  }

}

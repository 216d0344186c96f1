/**
 * Tables as the components see them once pandas has read a CSV: a sequence of
 * rows, each an ordered list of named cells. Also the attack-vector column
 * fallback and the four-column result record the batch processor writes.
 */
module Tables {
  import opened Wrappers
  import opened Text

  /** A cell value: text, an integer, or NaN (what pandas reads for an empty field). */
  datatype Cell = Str(s: string) | Int(i: int) | NaN

  datatype Field = Field(name: string, value: Cell)

  type Row = seq<Field>

  type Table = seq<Row>

  /** Python truthiness of what `row.get` returns: absent, "", and 0 are false; NaN is true. */
  predicate Truthy(v: Option<Cell>)
  {
    match v
    case None => false
    case Some(Str(s)) => s != ""
    case Some(Int(i)) => i != 0
    case Some(NaN) => true
  }

  /** Python's `str()` of a cell. */
  function CellText(c: Cell): string
  {
    match c
    case Str(s) => s
    case Int(i) => FormatInt(i)
    case NaN => "nan"
  }

  /** `row.get(name)`: the value of the first column called `name`, or `None` when there is none. */
  function Get(row: Row, name: string): (v: Option<Cell>)
    ensures v.None? <==> forall i :: 0 <= i < |row| ==> row[i].name != name
    ensures v.Some? ==> exists i :: 0 <= i < |row| && row[i] == Field(name, v.value)
  {
    if row == [] then None
    else if row[0].name == name then Some(row[0].value)
    else
      var v := Get(row[1..], name);
      assert v.Some? ==> exists i :: 0 <= i < |row[1..]| && row[1..][i] == Field(name, v.value);
      v
  }

  /**
   * The value of Python's `v0 or v1 or ... or vn`, by position: the first
   * truthy operand, or the last one when none is truthy.
   */
  function FirstTruthy(vs: seq<Option<Cell>>): (k: nat)
    requires vs != []
    ensures k < |vs|
    ensures forall j :: 0 <= j < k ==> !Truthy(vs[j])
    ensures k < |vs| - 1 ==> Truthy(vs[k])
  {
    if |vs| == 1 || Truthy(vs[0]) then 0 else 1 + FirstTruthy(vs[1..])
  }

  const AttackVectorColumn := "Attack Vector"
  const AttackVectorSnakeColumn := "attack_vector"

  /**
   * The cell `row.get("Attack Vector") or row.get("attack_vector") or row.iloc[0]`
   * evaluates to; `None` where `row.iloc[0]` raises `IndexError` (a row without columns).
   */
  function AttackVectorCell(row: Row): Option<Cell>
  {
    var named := Get(row, AttackVectorColumn);
    if Truthy(named) then named
    else
      var snake := Get(row, AttackVectorSnakeColumn);
      if Truthy(snake) then snake
      else if row == [] then None
      else Some(row[0].value)
  }

  /** The attack-vector text of a row: `str(...)` of the fallback cell, stripped. */
  function AttackVector(row: Row): Option<string>
  {
    var c :- AttackVectorCell(row);
    Some(Strip(CellText(c)))
  }

  /** The fallback is exactly Python's `or` chain over the two named columns and column 0. */
  lemma AttackVectorIsOrChain(row: Row)
    requires row != []
    ensures var vs := [Get(row, AttackVectorColumn), Get(row, AttackVectorSnakeColumn), Some(row[0].value)];
            AttackVectorCell(row) == vs[FirstTruthy(vs)]
  {
    var vs := [Get(row, AttackVectorColumn), Get(row, AttackVectorSnakeColumn), Some(row[0].value)];
    assert vs[1..] == [vs[1], vs[2]];
    assert vs[1..][1..] == [vs[2]];
  }

  /** A row with a truthy "Attack Vector" cell is read from that column, whatever else it holds. */
  lemma AttackVectorPrefersNamedColumn(row: Row, i: nat, c: Cell)
    requires i < |row| && row[i] == Field(AttackVectorColumn, c) && Truthy(Some(c))
    requires forall j :: 0 <= j < i ==> row[j].name != AttackVectorColumn
    ensures AttackVector(row) == Some(Strip(CellText(c)))
  {
    GetFirst(row, AttackVectorColumn, i);
  }

  /** `Get` finds the first column with the name. */
  lemma {:induction false} GetFirst(row: Row, name: string, i: nat)
    requires i < |row| && row[i].name == name
    requires forall j :: 0 <= j < i ==> row[j].name != name
    ensures Get(row, name) == Some(row[i].value)
  {
    if i > 0 {
      GetFirst(row[1..], name, i - 1);
    }
  }

  /** The record `process_batch` appends for one input row. */
  datatype RowResult = RowResult(attackVector: string, initialResponse: string, critique: string, finalResponse: string)

  /** The four output columns, in the order the record lists them. */
  const ResultColumns := ["attack_vector", "initial_response", "critique", "final_response"]

  /** A result record as a table row. */
  function ToRecord(r: RowResult): (row: Row)
    ensures |row| == |ResultColumns|
    ensures forall j :: 0 <= j < |row| ==> row[j].name == ResultColumns[j] && row[j].value.Str?
  {
    [ Field(ResultColumns[0], Str(r.attackVector)),
      Field(ResultColumns[1], Str(r.initialResponse)),
      Field(ResultColumns[2], Str(r.critique)),
      Field(ResultColumns[3], Str(r.finalResponse)) ]
  }

  /** `pd.DataFrame(results)`: one row per record, in order. */
  function Records(rs: seq<RowResult>): (t: Table)
    ensures |t| == |rs|
    ensures forall j :: 0 <= j < |rs| ==> t[j] == ToRecord(rs[j])
  {
    seq(|rs|, j requires 0 <= j < |rs| => ToRecord(rs[j]))
  }

  /** Each column of a written record reads back as the text it was written with. */
  lemma RecordColumns(r: RowResult)
    ensures Get(ToRecord(r), ResultColumns[0]) == Some(Str(r.attackVector))
    ensures Get(ToRecord(r), ResultColumns[1]) == Some(Str(r.initialResponse))
    ensures Get(ToRecord(r), ResultColumns[2]) == Some(Str(r.critique))
    ensures Get(ToRecord(r), ResultColumns[3]) == Some(Str(r.finalResponse))
  {
    // The four names differ already in their first letters.
    var row := ToRecord(r);
    assert row[0].name[0] == 'a' && row[1].name[0] == 'i' && row[2].name[0] == 'c' && row[3].name[0] == 'f';
    GetFirst(row, ResultColumns[0], 0);
    GetFirst(row, ResultColumns[1], 1);
    GetFirst(row, ResultColumns[2], 2);
    GetFirst(row, ResultColumns[3], 3);
  }

  /** `pd.concat(tables, ignore_index=True)`: the rows of every table, table after table. */
  function Concat(ts: seq<Table>): Table
  {
    if ts == [] then [] else ts[0] + Concat(ts[1..])
  }

  /** The number of rows of all tables together. */
  function TotalRows(ts: seq<Table>): nat
  {
    if ts == [] then 0 else |ts[0]| + TotalRows(ts[1..])
  }

  /** Concatenation loses and adds no row. */
  lemma {:induction false} ConcatLength(ts: seq<Table>)
    ensures |Concat(ts)| == TotalRows(ts)
  {
    if ts != [] {
      ConcatLength(ts[1..]);
    }
  }

  /** Concatenating two runs of tables is concatenating their concatenations. */
  lemma {:induction false} ConcatAppend(a: seq<Table>, b: seq<Table>)
    ensures Concat(a + b) == Concat(a) + Concat(b)
  {
    if a != [] {
      assert (a + b)[1..] == a[1..] + b;
      ConcatAppend(a[1..], b);
    } else {
      assert a + b == b;
    }
  }

  /** Table `j` sits in the concatenation right after the rows of the tables before it. */
  lemma ConcatPlacesTable(ts: seq<Table>, j: nat)
    requires j < |ts|
    ensures TotalRows(ts[..j]) + |ts[j]| <= |Concat(ts)|
    ensures Concat(ts)[TotalRows(ts[..j])..TotalRows(ts[..j]) + |ts[j]|] == ts[j]
  {
    assert ts == ts[..j] + ([ts[j]] + ts[j + 1..]);
    ConcatAppend(ts[..j], [ts[j]] + ts[j + 1..]);
    ConcatLength(ts[..j]);
    assert Concat([ts[j]] + ts[j + 1..]) == ts[j] + Concat(ts[j + 1..]) by {
      assert ([ts[j]] + ts[j + 1..])[1..] == ts[j + 1..];
    }
  }
}

/** The spreadsheet rows and the records built from them: each row is
    turned into one `{flat, cars}` record, reading the cells after the
    first as (number, model) pairs (src/App.jsx, the row-mapping closure of
    the load effect). */
module Sheet {

  /** A cell as the sheet decoder delivers it: missing, or a string. */
  datatype Cell = Absent | Text(s: string)

  type Row = seq<Cell>

  datatype Car = Car(number: string, model: string)

  /** `flat` is the row's first cell as it stands, missing or empty included. */
  datatype Record = Record(flat: Cell, cars: seq<Car>)

  /** JavaScript truthiness of a cell: a non-empty string. */
  predicate Truthy(c: Cell) {
    c.Text? && c.s != ""
  }

  /** `row[i]`, which is `undefined` past the end of the row. */
  function CellAt(row: Row, i: nat): Cell {
    if i < |row| then row[i] else Absent
  }

  /** `row[i] || ""` for a model cell. */
  function ModelAt(row: Row, i: nat): (m: string)
    ensures m == "" <==> !Truthy(CellAt(row, i))
  {
    if Truthy(CellAt(row, i)) then CellAt(row, i).s else ""
  }

  /** The car read from the pair that starts at cell `j`. */
  function CarAt(row: Row, j: nat): Car
    requires j < |row| && Truthy(row[j])
  {
    Car(row[j].s, ModelAt(row, j + 1))
  }

  /** The cars read from cells `i`, `i + 2`, `i + 4`, ... of `row`, in
      column order. */
  function CarsFrom(row: Row, i: nat): seq<Car>
    decreases |row| - i
  {
    if i >= |row| then []
    else (if Truthy(row[i]) then [CarAt(row, i)] else []) + CarsFrom(row, i + 2)
  }

  /** The record one row maps to. */
  function RecordOf(row: Row): Record {
    Record(CellAt(row, 0), CarsFrom(row, 1))
  }

  /** Every car comes from a pair whose number cell is non-empty, at an
      offset from `i` that is a multiple of two. */
  lemma {:induction false} CarsFromSound(row: Row, i: nat, c: Car)
    requires c in CarsFrom(row, i)
    ensures exists j :: i <= j < |row| && (j - i) % 2 == 0 && Truthy(row[j]) && c == CarAt(row, j)
    decreases |row| - i
  {
    if i < |row| && !(Truthy(row[i]) && c == CarAt(row, i)) {
      CarsFromSound(row, i + 2, c);
      var j :| i + 2 <= j < |row| && (j - i - 2) % 2 == 0 && Truthy(row[j]) && c == CarAt(row, j);
      assert (j - i) % 2 == 0;
    }
  }

  /** Every pair whose number cell is non-empty yields its car. */
  lemma {:induction false} CarsFromComplete(row: Row, i: nat, j: nat)
    requires i <= j < |row| && (j - i) % 2 == 0 && Truthy(row[j])
    ensures CarAt(row, j) in CarsFrom(row, i)
    decreases |row| - i
  {
    if j != i {
      CarsFromComplete(row, i + 2, j);
    }
  }

  /** No more cars than pairs that start at `i`. */
  lemma {:induction false} CarsFromBound(row: Row, i: nat)
    ensures |CarsFrom(row, i)| <= if i < |row| then (|row| - i + 1) / 2 else 0
    decreases |row| - i
  {
    if i < |row| {
      CarsFromBound(row, i + 2);
    }
  }

  /** Cell `j` is one of `i`, `i + 2`, `i + 4`, ... */
  predicate PairStart(i: nat, j: nat) {
    i <= j && (j - i) % 2 == 0
  }

  /** The cells `i`, `i + 2`, `i + 4`, ... of `row` that hold a non-empty
      number, scanning left to right. */
  function NumberCells(row: Row, i: nat): seq<nat>
    decreases |row| - i
  {
    if i >= |row| then []
    else (if Truthy(row[i]) then [i] else []) + NumberCells(row, i + 2)
  }

  /** Every listed cell is a pair cell from `i` with a non-empty number. */
  lemma {:induction false} NumberCellsSound(row: Row, i: nat)
    ensures forall k :: 0 <= k < |NumberCells(row, i)| ==>
      NumberCells(row, i)[k] < |row| && PairStart(i, NumberCells(row, i)[k]) && Truthy(row[NumberCells(row, i)[k]])
    decreases |row| - i
  {
    if i < |row| {
      NumberCellsSound(row, i + 2);
      var rest := NumberCells(row, i + 2);
      var head: seq<nat> := if Truthy(row[i]) then [i] else [];
      var r := NumberCells(row, i);
      assert r == head + rest;
      forall k | 0 <= k < |r|
        ensures r[k] < |row| && PairStart(i, r[k]) && Truthy(row[r[k]])
      {
        if k >= |head| {
          assert r[k] == rest[k - |head|];
          assert PairStart(i + 2, rest[k - |head|]);
        }
      }
    }
  }

  /** The listed cells are in strictly increasing column order. */
  lemma {:induction false} NumberCellsSorted(row: Row, i: nat)
    ensures forall k, l :: 0 <= k < l < |NumberCells(row, i)| ==> NumberCells(row, i)[k] < NumberCells(row, i)[l]
    decreases |row| - i
  {
    if i < |row| {
      NumberCellsSorted(row, i + 2);
      NumberCellsSound(row, i + 2);
      var rest := NumberCells(row, i + 2);
      var head: seq<nat> := if Truthy(row[i]) then [i] else [];
      var r := NumberCells(row, i);
      assert r == head + rest;
      forall k, l | 0 <= k < l < |r|
        ensures r[k] < r[l]
      {
        assert r[l] == rest[l - |head|];
        assert PairStart(i + 2, rest[l - |head|]);
        if k >= |head| {
          assert r[k] == rest[k - |head|];
        }
      }
    }
  }

  /** Every pair cell from `i` with a non-empty number is listed. */
  lemma {:induction false} NumberCellsComplete(row: Row, i: nat, j: nat)
    requires j < |row| && PairStart(i, j) && Truthy(row[j])
    ensures j in NumberCells(row, i)
    decreases |row| - i
  {
    if j != i {
      NumberCellsComplete(row, i + 2, j);
    }
  }

  /** The cars are exactly one per non-empty number cell, in column order:
      the `k`-th car is read from the `k`-th such cell. */
  lemma {:induction false} CarsFromInOrder(row: Row, i: nat)
    ensures |CarsFrom(row, i)| == |NumberCells(row, i)|
    ensures forall k :: 0 <= k < |CarsFrom(row, i)| ==>
      NumberCells(row, i)[k] < |row| && Truthy(row[NumberCells(row, i)[k]])
      && CarsFrom(row, i)[k] == CarAt(row, NumberCells(row, i)[k])
    decreases |row| - i
  {
    if i < |row| {
      CarsFromInOrder(row, i + 2);
      NumberCellsSound(row, i);
    }
  }

  /** The record of a row: its flat is cell 0, whatever it holds; each car
      comes from an odd cell with a non-empty number, its model from the next
      cell or `""`; every such cell gives a car; and there are at most
      `|row| / 2` cars. */
  lemma RecordOfRow(row: Row)
    ensures RecordOf(row).flat == (if row == [] then Absent else row[0])
    ensures forall c :: c in RecordOf(row).cars ==>
      exists j :: 1 <= j < |row| && j % 2 == 1 && Truthy(row[j]) && c == CarAt(row, j)
    ensures forall j :: 1 <= j < |row| && j % 2 == 1 && Truthy(row[j]) ==>
      CarAt(row, j) in RecordOf(row).cars
    ensures |RecordOf(row).cars| <= |row| / 2
  {
    OddCellsSound(row);
    OddCellsComplete(row);
    CarsFromBound(row, 1);
    assert (if 1 < |row| then (|row| - 1 + 1) / 2 else 0) <= |row| / 2;
  }

  lemma OddCellsSound(row: Row)
    ensures forall c :: c in CarsFrom(row, 1) ==>
      exists j :: 1 <= j < |row| && j % 2 == 1 && Truthy(row[j]) && c == CarAt(row, j)
  {
    forall c | c in CarsFrom(row, 1)
      ensures exists j :: 1 <= j < |row| && j % 2 == 1 && Truthy(row[j]) && c == CarAt(row, j)
    {
      CarsFromSound(row, 1, c);
      var j :| 1 <= j < |row| && (j - 1) % 2 == 0 && Truthy(row[j]) && c == CarAt(row, j);
      assert j % 2 == 1;
    }
  }

  lemma OddCellsComplete(row: Row)
    ensures forall j :: 1 <= j < |row| && j % 2 == 1 && Truthy(row[j]) ==> CarAt(row, j) in CarsFrom(row, 1)
  {
    forall j | 1 <= j < |row| && j % 2 == 1 && Truthy(row[j])
      ensures CarAt(row, j) in CarsFrom(row, 1)
    {
      assert (j - 1) % 2 == 0;
      CarsFromComplete(row, 1, j);
    }
  }

  /** The cars of a record, counted and ordered: there is exactly one car
      per odd cell holding a non-empty number, and the `k`-th car is read
      from the `k`-th such cell from the left. */
  lemma RecordCarsInColumnOrder(row: Row)
    ensures |RecordOf(row).cars| == |NumberCells(row, 1)|
    ensures forall k, l :: 0 <= k < l < |NumberCells(row, 1)| ==> NumberCells(row, 1)[k] < NumberCells(row, 1)[l]
    ensures forall k :: 0 <= k < |NumberCells(row, 1)| ==>
      NumberCells(row, 1)[k] < |row| && NumberCells(row, 1)[k] % 2 == 1 && Truthy(row[NumberCells(row, 1)[k]])
      && RecordOf(row).cars[k] == CarAt(row, NumberCells(row, 1)[k])
    ensures forall j: nat :: 1 <= j < |row| && j % 2 == 1 && Truthy(row[j]) ==> j in NumberCells(row, 1)
  {
    NumberCellsSorted(row, 1);
    CarsFromInOrder(row, 1);
    var cells := NumberCells(row, 1);
    forall k | 0 <= k < |cells|
      ensures cells[k] % 2 == 1
    {
      NumberCellsSound(row, 1);
      assert PairStart(1, cells[k]);
    }
    forall j: nat | 1 <= j < |row| && j % 2 == 1 && Truthy(row[j])
      ensures j in cells
    {
      NumberCellsComplete(row, 1, j);
    }
  }

  /** The row-mapping closure: `flat` is `row[0]`, and the loop steps over the
      cells from index 1 by two, pushing a car for every non-empty number. */
  method BuildRecord(row: Row) returns (rec: Record)
    ensures rec == RecordOf(row)
  {
    var flat := CellAt(row, 0);
    var cars: seq<Car> := [];
    var i := 1;
    while i < |row|
      invariant 1 <= i
      invariant cars + CarsFrom(row, i) == CarsFrom(row, 1)
      decreases |row| - i
    {
      if Truthy(row[i]) {
        cars := cars + [Car(row[i].s, ModelAt(row, i + 1))];
      }
      i := i + 2;
    }
    rec := Record(flat, cars);
  }

  /** `sheetData.map(...)`: one record per row, in row order, none dropped. */
  method Build(rows: seq<Row>) returns (data: seq<Record>)
    ensures |data| == |rows|
    ensures forall k :: 0 <= k < |rows| ==> data[k] == RecordOf(rows[k])
  {
    data := [];
    var k := 0;
    while k < |rows|
      invariant k <= |rows|
      invariant |data| == k
      invariant forall m :: 0 <= m < k ==> data[m] == RecordOf(rows[m])
    {
      var rec := BuildRecord(rows[k]);
      data := data + [rec];
      k := k + 1;
    }
  }

  /** The pairing example: a trailing number without a model gets `""`. */
  lemma PairingExample()
    ensures RecordOf([Text("A101"), Text("KA01AB1234"), Text("Swift"), Text("KA01CD5678")])
      == Record(Text("A101"), [Car("KA01AB1234", "Swift"), Car("KA01CD5678", "")])
  {
  }
}

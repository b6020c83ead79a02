/** The dataset cursor of `ACSAutomation`: the imported spreadsheet rows, the
    current row index, the auto-increment switch and the stop flag; and the
    manual jump-to-row lookup behind the four entry fields. */
module Acs {
  import opened Common

  /** A spreadsheet cell: an integer value, or anything that compares
      unequal to every integer (text, an empty cell read as NaN). */
  datatype Cell = IntCell(v: int) | OtherCell

  /** One row of the sheet, columns renamed 'No.', 'Pump', 'Led', 'Dmx2Vfd'. */
  datatype Row = Row(no: Cell, pump: Cell, led: Cell, dmx2vfd: Cell)

  /** The cursor over the rows. `excel_data` being None and being an empty
      list behave the same in every cursor operation, so both are `[]`. */
  datatype Cursor = Cursor(rows: seq<Row>, index: nat, auto: bool)
  {
    /** The index stays within `0..len(rows)`; it may equal `len(rows)`. */
    predicate Valid() {
      index <= |rows|
    }

    /** `get_current_excel_row()` */
    function Current(): (r: Option<Row>)
      ensures r.None? <==> |rows| == 0 || index >= |rows|
      ensures r.Some? ==> index < |rows| && r.value == rows[index]
    {
      if |rows| > 0 && index < |rows| then Some(rows[index]) else None
    }

    /** `increment_excel_row_index()`: the new cursor and the returned flag. */
    function Advanced(): (Cursor, bool)
    {
      if !auto then (this, false)
      else if |rows| > 0 && index < |rows| then (this.(index := index + 1), true)
      else (this, false)
    }
  }

  /** The increment returns False and changes nothing when auto-increment is
      off, no data is loaded or the index is at the end; otherwise it adds
      exactly one. It keeps the cursor valid. */
  lemma AdvanceSpec(c: Cursor)
    ensures c.Advanced().1 <==> c.auto && c.index < |c.rows|
    ensures c.Advanced().1 ==> c.Advanced().0 == c.(index := c.index + 1)
    ensures !c.Advanced().1 ==> c.Advanced().0 == c
    ensures c.Valid() ==> c.Advanced().0.Valid()
  {}

  /** `k` increments in a row. */
  function AdvancedTimes(c: Cursor, k: nat): Cursor
    decreases k
  {
    if k == 0 then c else AdvancedTimes(c.Advanced().0, k - 1)
  }

  function MinNat(a: nat, b: nat): nat { if a <= b then a else b }

  /** From a valid cursor, `k` increments move the index to
      `min(index + k, len(rows))` when auto-increment is on and nowhere when
      it is off: the index never passes the end. */
  lemma {:induction false} AdvancedTimesIndex(c: Cursor, k: nat)
    requires c.Valid()
    ensures AdvancedTimes(c, k).rows == c.rows && AdvancedTimes(c, k).auto == c.auto
    ensures AdvancedTimes(c, k).index == if c.auto then MinNat(c.index + k, |c.rows|) else c.index
    ensures AdvancedTimes(c, k).Valid()
    decreases k
  {
    if k > 0 {
      AdvancedTimesIndex(c.Advanced().0, k - 1);
    }
  }

  /** The rows a script sees when it reads the current row and then
      increments, `k` times over; a missing row contributes nothing. */
  function Walk(c: Cursor, k: nat): seq<Row>
    decreases k
  {
    if k == 0 then []
    else (if c.Current().Some? then [c.Current().value] else []) + Walk(c.Advanced().0, k - 1)
  }

  /** Reading then incrementing visits the rows from the index onward, each
      once and in sheet order, and nothing past the last row. */
  lemma {:induction false} WalkVisitsRowsInOrder(c: Cursor, k: nat)
    requires c.Valid() && c.auto
    ensures Walk(c, k) == c.rows[c.index..MinNat(c.index + k, |c.rows|)]
    decreases k
  {
    if k > 0 {
      var next := c.Advanced().0;
      WalkVisitsRowsInOrder(next, k - 1);
      if c.index < |c.rows| {
        assert c.rows[c.index..MinNat(c.index + k, |c.rows|)]
            == [c.rows[c.index]] + c.rows[c.index + 1..MinNat(c.index + k, |c.rows|)];
      }
    }
  }

  /** Three rows imported: three increments succeed, the current row is then
      None, and a fourth increment fails. */
  lemma ThreeRowScenario(a: Row, b: Row, d: Row)
    ensures var c := AdvancedTimes(Cursor([a, b, d], 0, true), 3);
            c.index == 3 && c.Current().None? && !c.Advanced().1
  {
    AdvancedTimesIndex(Cursor([a, b, d], 0, true), 3);
  }

  /** `ACSAutomation`: the fields its methods update. The confidence is read
      from the configuration once, when the object is built. */
  class AcsAutomation {
    const confidence: real
    var excelData: seq<Row>
    var rowIndex: nat
    var stopRequested: bool
    var autoIncrement: bool

    function State(): Cursor
      reads this
    {
      Cursor(excelData, rowIndex, autoIncrement)
    }

    ghost predicate Valid()
      reads this
    {
      State().Valid()
    }

    constructor (configuredConfidence: real)
      ensures Valid()
      ensures confidence == configuredConfidence
      ensures excelData == [] && rowIndex == 0 && !stopRequested && autoIncrement
    {
      confidence := configuredConfidence;
      excelData := [];
      rowIndex := 0;
      stopRequested := false;
      autoIncrement := true;
    }

    /** `import_excel_data(file_path)`: `parsed` is what reading the sheet
        gave, None when reading raised. A successful import replaces the
        rows and rewinds the cursor; a failed one changes nothing. */
    method ImportExcelData(parsed: Option<seq<Row>>) returns (ok: bool)
      requires Valid()
      modifies this
      ensures Valid()
      ensures ok <==> parsed.Some?
      ensures ok ==> excelData == parsed.value && rowIndex == 0
      ensures !ok ==> excelData == old(excelData) && rowIndex == old(rowIndex)
      ensures stopRequested == old(stopRequested) && autoIncrement == old(autoIncrement)
    {
      match parsed {
        case None =>
          ok := false;
        case Some(rows) =>
          excelData := rows;
          rowIndex := 0;
          ok := true;
      }
    }

    /** `get_current_excel_row()` */
    function GetCurrentExcelRow(): Option<Row>
      reads this
    {
      State().Current()
    }

    /** `increment_excel_row_index()` */
    method IncrementExcelRowIndex() returns (ok: bool)
      requires Valid()
      modifies this`rowIndex
      ensures Valid()
      ensures (State(), ok) == old(State()).Advanced()
    {
      if !autoIncrement {
        return false;
      }
      if |excelData| > 0 && rowIndex < |excelData| {
        rowIndex := rowIndex + 1;
        return true;
      }
      return false;
    }

    /** Moves the cursor to a row the manual jump found. */
    method SetRowIndex(row: nat)
      requires row < |excelData|
      modifies this`rowIndex
      ensures Valid() && rowIndex == row
    {
      rowIndex := row;
    }
  }

  // ------------------------------------------------------------ manual jump

  /** What an entry field holds: nothing, an integer, or text `int()` rejects. */
  datatype Entry = Blank | Integer(n: int) | NotInteger

  /** The column a value trigger searches. */
  function ColumnOf(r: Row, trigger: string): Cell {
    if trigger == "pump" then r.pump
    else if trigger == "led" then r.led
    else r.dmx2vfd
  }

  /** The first row, in sheet order, whose `trigger` column holds `v`. */
  function FirstRowWith(rows: seq<Row>, trigger: string, v: int): (found: Option<nat>)
    ensures found.Some? ==> found.value < |rows| && ColumnOf(rows[found.value], trigger) == IntCell(v)
    ensures found.Some? ==> forall j :: 0 <= j < found.value ==> ColumnOf(rows[j], trigger) != IntCell(v)
    ensures found.None? ==> forall j :: 0 <= j < |rows| ==> ColumnOf(rows[j], trigger) != IntCell(v)
    decreases |rows|
  {
    if |rows| == 0 then None
    else if ColumnOf(rows[0], trigger) == IntCell(v) then Some(0)
    else
      match FirstRowWith(rows[1..], trigger, v)
      case None => None
      case Some(i) => Some(i + 1)
  }

  /** The `row_number` of `delayed_update(trigger)`, None when there is none:
      "no" gives the entered number minus one; "pump", "led" and "dmx2vfd"
      give the first row holding the entered value, where a zero value
      searches nothing; a blank or non-integer entry and any other trigger
      give nothing. */
  function JumpTarget(rows: seq<Row>, trigger: string, entry: Entry): Option<int>
  {
    if !entry.Integer? then None
    else if trigger == "no" then Some(entry.n - 1)
    else if trigger == "pump" || trigger == "led" || trigger == "dmx2vfd" then
      if entry.n == 0 then None
      else match FirstRowWith(rows, trigger, entry.n)
        case None => None
        case Some(i) => Some(i)
    else None
  }

  /** The cursor after `delayed_update`: moved to the target only when the
      target is a row of the sheet. */
  function Jumped(c: Cursor, trigger: string, entry: Entry): (d: Cursor)
    ensures d.rows == c.rows && d.auto == c.auto
    ensures c.Valid() ==> d.Valid()
  {
    match JumpTarget(c.rows, trigger, entry)
    case Some(t) => if 0 <= t < |c.rows| then c.(index := t) else c
    case None => c
  }

  /** The jump lands on the numbered row when the number is within the
      sheet, on the first matching row of a value column, and otherwise
      leaves the cursor where it was. */
  lemma JumpSpec(c: Cursor, trigger: string, entry: Entry)
    ensures (trigger == "pump" || trigger == "led" || trigger == "dmx2vfd") && entry == Integer(0) ==>
              Jumped(c, trigger, entry) == c
    ensures trigger == "no" && entry.Integer? && 1 <= entry.n <= |c.rows| ==>
              Jumped(c, trigger, entry).index == entry.n - 1
    ensures trigger == "no" && entry.Integer? && !(1 <= entry.n <= |c.rows|) ==>
              Jumped(c, trigger, entry) == c
    ensures (trigger == "pump" || trigger == "led" || trigger == "dmx2vfd") && entry.Integer? && entry.n != 0 ==>
              var i := Jumped(c, trigger, entry).index;
              if exists j :: 0 <= j < |c.rows| && ColumnOf(c.rows[j], trigger) == IntCell(entry.n) then
                i < |c.rows| && ColumnOf(c.rows[i], trigger) == IntCell(entry.n) &&
                forall j :: 0 <= j < i ==> ColumnOf(c.rows[j], trigger) != IntCell(entry.n)
              else Jumped(c, trigger, entry) == c
    ensures !entry.Integer? ==> Jumped(c, trigger, entry) == c
    ensures trigger !in {"no", "pump", "led", "dmx2vfd"} ==> Jumped(c, trigger, entry) == c
  {}
}

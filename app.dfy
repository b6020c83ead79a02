/** The parts of the main window (`AutoACSTool`) that decide what runs: the
    single-flight gate of `execute_category_script`, the worker with its
    always-run finaliser, the stop hotkey, the manual jump of
    `delayed_update`, the context builders, and the power choices of the two
    "write UID" columns. */
module App {
  import opened Common
  import opened Acs
  import opened Scripts
  import opened Runner
  import opened Devices

  /** A cell as the payload sees it: an integer, or nothing usable. */
  function CellValue(c: Cell): Value {
    match c
    case IntCell(v) => VInt(v)
    case OtherCell => VNone
  }

  /** `get_excel_context()`: the current row's addresses and the cursor's
      position, or None (the launch is then abandoned) without a current row. */
  function ExcelContext(c: Cursor): (ctx: Option<Context>)
    ensures ctx.None? <==> c.Current().None?
    ensures ctx.Some? ==>
              ctx.value.Keys == {"pump_address", "led_address", "dmx2vfd_address", "current_row_index", "total_rows"} &&
              ctx.value["pump_address"] == CellValue(c.Current().value.pump) &&
              ctx.value["led_address"] == CellValue(c.Current().value.led) &&
              ctx.value["dmx2vfd_address"] == CellValue(c.Current().value.dmx2vfd) &&
              ctx.value["current_row_index"] == VInt(c.index) &&
              ctx.value["total_rows"] == VInt(|c.rows|)
  {
    if |c.rows| == 0 then None
    else match c.Current()
      case None => None
      case Some(row) =>
        Some(map["pump_address" := CellValue(row.pump), "led_address" := CellValue(row.led),
                 "dmx2vfd_address" := CellValue(row.dmx2vfd), "current_row_index" := VInt(c.index),
                 "total_rows" := VInt(|c.rows|)])
  }

  /** An address script launched from a valid cursor never shadows the
      runner's own names, so it starts with `script_stop` down, and it
      reports a row index inside the sheet. */
  lemma ExcelContextStartsClear(c: Cursor)
    requires c.Valid() && ExcelContext(c).Some?
    ensures !ScriptStopSet(SeedContext(ExcelContext(c).value))
    ensures SeedContext(ExcelContext(c).value)["results"] == Handle("results")
    ensures exists i: int :: ExcelContext(c).value["current_row_index"] == VInt(i) && 0 <= i < |c.rows|
  {
    assert "script_stop" !in ExcelContext(c).value;
    assert "results" !in ExcelContext(c).value;
  }

  /** One "write UID" column: the chosen device type and power, and the
      power choices offered. */
  datatype Column = Column(deviceType: string, devicePower: string, powerOptions: seq<string>)

  /** `get_uid_col1_context()` / `get_uid_col2_context()` */
  function UidContext(col: Column): (ctx: Context)
    ensures ctx.Keys == {"selected_device_type", "selected_device_power"}
    ensures ctx["selected_device_type"] == VStr(col.deviceType)
    ensures ctx["selected_device_power"] == VStr(col.devicePower)
  {
    map["selected_device_type" := VStr(col.deviceType), "selected_device_power" := VStr(col.devicePower)]
  }

  /** A "write UID" script starts with `script_stop` down and sees the
      column's choices; once the column is updated for a known type, the
      power it sees has a button. */
  lemma UidContextStartsClear(col: Column)
    ensures !ScriptStopSet(SeedContext(UidContext(col)))
    ensures SeedContext(UidContext(col))["selected_device_type"] == VStr(col.deviceType)
    ensures col.deviceType in DeviceTypeOptions ==>
              exists p :: SeedContext(UidContext(UpdatedColumn(col)))["selected_device_power"] == VStr(p) &&
                          DevicePowerKey(p).Some?
  {
    assert "script_stop" !in UidContext(col);
    if col.deviceType in DeviceTypeOptions {
      var p := UpdatedColumn(col).devicePower;
      TablesAgree(col.deviceType);
      assert SeedContext(UidContext(UpdatedColumn(col)))["selected_device_power"] == VStr(p);
    }
  }

  /** `update_device_power_options_col(col)` on one column. */
  function UpdatedColumn(col: Column): Column {
    var options := PowerOptions(col.deviceType);
    Column(col.deviceType, ResetPower(col.devicePower, options), options)
  }

  /** After the update the offered choices are the type's, the chosen power
      is one of them whenever the type is known (so its button exists), a
      power still offered is kept, and updating again changes nothing. */
  lemma UpdatedColumnSpec(col: Column)
    ensures UpdatedColumn(col).deviceType == col.deviceType
    ensures UpdatedColumn(col).powerOptions == PowerOptions(col.deviceType)
    ensures col.deviceType in DeviceTypeOptions ==>
              UpdatedColumn(col).devicePower in PowerOptions(col.deviceType) &&
              DevicePowerKey(UpdatedColumn(col).devicePower).Some?
    ensures col.devicePower in PowerOptions(col.deviceType) ==> UpdatedColumn(col).devicePower == col.devicePower
    ensures UpdatedColumn(UpdatedColumn(col)) == UpdatedColumn(col)
  {
    TablesAgree(col.deviceType);
  }

  /** The column as first shown: "AFVarionaut Pump" at "60". */
  const InitialColumn: Column := Column("AFVarionaut Pump", "60", ["60", "100", "140", "160"])

  lemma InitialColumnUpdated()
    ensures UpdatedColumn(InitialColumn) == InitialColumn
  {}

  /** Which context function a category's button passes. */
  datatype ContextSource = NoContextFunc | ExcelContextFunc | UidCol1ContextFunc | UidCol2ContextFunc

  datatype Launch = Busy | NoActiveScript | NoContext | Started(name: string)

  /** The work handed to the worker thread. */
  datatype Job = Job(steps: seq<Step>, extra: Context)

  /** `AutoACSTool`: the state `execute_category_script`, the worker and the
      hotkeys share. */
  class AutoAcsTool {
    const automation: AcsAutomation
    const store: ScriptManager
    var workerAlive: bool
    var buttonsEnabled: bool
    var job: Option<Job>
    var col1: Column
    var col2: Column

    /** The run buttons are disabled exactly while a worker is alive, and a
        live worker has its job. */
    ghost predicate Valid()
      reads this, automation
    {
      automation.Valid() && (buttonsEnabled <==> !workerAlive) && (workerAlive <==> job.Some?)
    }

    constructor (automation: AcsAutomation, store: ScriptManager)
      requires automation.Valid()
      ensures Valid()
      ensures this.automation == automation && this.store == store
      ensures !workerAlive && buttonsEnabled
      ensures col1 == InitialColumn && col2 == InitialColumn
    {
      this.automation := automation;
      this.store := store;
      workerAlive := false;
      buttonsEnabled := true;
      job := None;
      col1 := InitialColumn;
      col2 := InitialColumn;
    }

    /** `execute_category_script(category, context_func)`: refuses while a
        worker runs, without an active script, or when the context function
        gives None; otherwise disables the buttons and starts the worker. */
    method ExecuteCategoryScript(category: string, source: ContextSource) returns (launch: Launch)
      requires Valid()
      modifies this`buttonsEnabled, this`workerAlive, this`job
      ensures Valid()
      ensures old(workerAlive) ==> launch == Busy
      ensures !old(workerAlive) && ActiveScript(store.ScriptsByCategory(category)).None? ==> launch == NoActiveScript
      ensures launch.Started? <==>
                !old(workerAlive) && ActiveScript(store.ScriptsByCategory(category)).Some? &&
                (source == ExcelContextFunc ==> ExcelContext(automation.State()).Some?)
      ensures launch.Started? ==>
                var script := ActiveScript(store.ScriptsByCategory(category)).value;
                launch.name == script.name && workerAlive && !buttonsEnabled &&
                job == Some(Job(script.steps, ContextOf(source)))
      ensures !launch.Started? ==>
                workerAlive == old(workerAlive) && buttonsEnabled == old(buttonsEnabled) && job == old(job)
    {
      if workerAlive {
        return Busy;
      }
      var active := store.GetActiveScript(category);
      if active.None? {
        return NoActiveScript;
      }
      var extra: Context := map[];
      if source != NoContextFunc {
        var got := ContextFor(source);
        if got.None? {
          return NoContext;
        }
        extra := got.value;
      }
      buttonsEnabled := false;
      workerAlive := true;
      job := Some(Job(active.value.steps, extra));
      return Started(active.value.name);
    }

    /** What a context function gives; None abandons the launch. */
    function ContextFor(source: ContextSource): Option<Context>
      reads this, automation
    {
      match source
      case NoContextFunc => Some(map[])
      case ExcelContextFunc => ExcelContext(automation.State())
      case UidCol1ContextFunc => Some(UidContext(col1))
      case UidCol2ContextFunc => Some(UidContext(col2))
    }

    /** The extra context a started job carries. */
    function ContextOf(source: ContextSource): Context
      reads this, automation
    {
      var got := ContextFor(source);
      if got.Some? then got.value else map[]
    }

    /** The worker thread: `_run_dynamic_script` on the job, then its
        `finally` block, which runs on every way out and re-enables the
        buttons. `stopAt` is the stop flag as each check reads it; the first
        check reads the flag as it stands when the worker starts, and nothing
        lowers it at launch, so a flag left up stops the run before its
        first step. */
    method RunWorker(stopAt: nat -> bool) returns (results: seq<string>, exit: Exit)
      requires Valid() && workerAlive
      requires stopAt(0) == automation.stopRequested
      modifies this`buttonsEnabled, this`workerAlive, this`job, automation`rowIndex
      ensures Valid()
      ensures !workerAlive && buttonsEnabled && job.None?
      ensures var outcome := RunFrom(old(job).value.steps, 0, Initial(old(job).value.extra, old(automation.State())), stopAt);
              results == outcome.0.results && exit == outcome.1 &&
              automation.State() == outcome.0.cursor
      ensures old(automation.stopRequested) && old(job).value.steps != [] ==>
                exit == StoppedByUser && results == [StoppedEntry] && automation.State() == old(automation.State())
    {
      var work := job.value;
      var st, ex, ran := RunDynamicScript(work.steps, work.extra, stopAt, automation.State());
      CursorStaysValid(work.steps, 0, Initial(work.extra, automation.State()), stopAt);
      automation.rowIndex := st.cursor.index;
      results, exit := st.results, ex;
      buttonsEnabled := true;
      workerAlive := false;
      job := None;
    }

    /** `stop_all_automation()`: the hotkey toggles the flag. */
    method StopAllAutomation()
      requires Valid()
      modifies automation`stopRequested
      ensures Valid()
      ensures automation.stopRequested == !old(automation.stopRequested)
    {
      if automation.stopRequested == false {
        automation.stopRequested := true;
      } else {
        automation.stopRequested := false;
      }
    }

    /** `delayed_update(trigger)`: `entry` is what the trigger's entry field
        holds. */
    method DelayedUpdate(trigger: string, entry: Entry)
      requires Valid()
      modifies automation`rowIndex
      ensures Valid()
      ensures automation.State() == Jumped(old(automation.State()), trigger, entry)
    {
      var target := JumpTarget(automation.excelData, trigger, entry);
      if target.Some? && |automation.excelData| > 0 && 0 <= target.value < |automation.excelData| {
        automation.SetRowIndex(target.value);
      }
    }

    /** `update_device_power_options_col(col)`: column 1 for `col == 1`,
        column 2 otherwise. */
    method UpdateDevicePowerOptionsCol(col: int)
      requires Valid()
      modifies this`col1, this`col2
      ensures Valid()
      ensures col == 1 ==> col1 == UpdatedColumn(old(col1)) && col2 == old(col2)
      ensures col != 1 ==> col2 == UpdatedColumn(old(col2)) && col1 == old(col1)
    {
      if col == 1 {
        var options := PowerOptions(col1.deviceType);
        var power := col1.devicePower;
        if power !in options && options != [] {
          power := options[0];
        }
        col1 := Column(col1.deviceType, power, options);
      } else {
        var options := PowerOptions(col2.deviceType);
        var power := col2.devicePower;
        if power !in options && options != [] {
          power := options[0];
        }
        col2 := Column(col2.deviceType, power, options);
      }
    }
  }

  /** A run never moves the cursor past the end of the sheet, and moves
      nothing but the index. */
  lemma {:induction false} CursorStaysValid(steps: seq<Step>, i: nat, st: RunState, stopAt: nat -> bool)
    requires st.cursor.Valid()
    ensures RunFrom(steps, i, st, stopAt).0.cursor.Valid()
    ensures RunFrom(steps, i, st, stopAt).0.cursor.rows == st.cursor.rows
    ensures RunFrom(steps, i, st, stopAt).0.cursor.auto == st.cursor.auto
    decreases |steps| - i
  {
    if i < |steps| && !stopAt(i) && !ScriptStopSet(st.ctx) {
      var ops := StepCode(steps[i]);
      ExecOpsEffects(ops, st);
      AdvancedTimesIndex(st.cursor, AdvancesBefore(ops));
      CursorStaysValid(steps, i + 1, ExecStep(steps[i], i, st), stopAt);
    }
  }
}

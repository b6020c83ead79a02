/** The macro runner (`_run_dynamic_script`): a script's steps run in order
    against one shared context, each guarded by the stop flag and by the
    context's `script_stop`, each with its own exception handler. */
module Runner {
  import opened Common
  import opened Text
  import opened Acs
  import opened Scripts

  /** The names a payload sees; the runner's objects are opaque handles. */
  type Context = map<string, Value>

  /** The entry a stopped run appends to `results`. */
  const StoppedEntry: string := "Đã dừng bởi người dùng."

  /** Python truthiness of a context value. */
  predicate Truthy(v: Value) {
    match v
    case VBool(b) => b
    case VInt(i) => i != 0
    case VStr(s) => s != ""
    case VNone => false
    case Handle(_) => true
  }

  function BaseContext(): Context {
    map["acs_auto" := Handle("acs_auto"), "logger" := Handle("logger"), "time" := Handle("time"),
        "pyautogui" := Handle("pyautogui"), "results" := Handle("results"), "script_stop" := VBool(false)]
  }

  /** The context a run starts from: the runner's names and
      `script_stop = False`, each overridden by the caller's extra context. */
  function SeedContext(extra: Context): (ctx: Context)
    ensures ctx.Keys == BaseContext().Keys + extra.Keys
    ensures forall k :: k in extra ==> ctx[k] == extra[k]
    ensures forall k :: k in BaseContext() && k !in extra ==> ctx[k] == BaseContext()[k]
  {
    BaseContext() + extra
  }

  /** `context.get('script_stop', False)` is truthy. */
  predicate ScriptStopSet(ctx: Context) {
    "script_stop" in ctx && Truthy(ctx["script_stop"])
  }

  /** A run starts with `script_stop` down unless the extra context sets it. */
  lemma SeedScriptStop(extra: Context)
    ensures ScriptStopSet(SeedContext(extra)) <==> "script_stop" in extra && Truthy(extra["script_stop"])
  {}

  /** What a run carries from step to step: the context, the results list and
      the dataset cursor the payloads can advance. */
  datatype RunState = RunState(ctx: Context, results: seq<string>, cursor: Cursor)

  datatype Outcome = Finished | Raised(msg: string)

  /** `exec` of one payload: its effects in order, up to the first raise. */
  function ExecOps(ops: seq<Op>, st: RunState): (RunState, Outcome)
    decreases |ops|
  {
    if |ops| == 0 then (st, Finished)
    else match ops[0]
      case Pass => ExecOps(ops[1..], st)
      case Assign(n, v) => ExecOps(ops[1..], st.(ctx := st.ctx[n := v]))
      case Report(m) => ExecOps(ops[1..], st.(results := st.results + [m]))
      case Raise(m) => (st, Raised(m))
      case AdvanceRow => ExecOps(ops[1..], st.(cursor := st.cursor.Advanced().0))
  }

  /** The messages a payload reports before it raises. */
  function ReportsBefore(ops: seq<Op>): seq<string>
    decreases |ops|
  {
    if |ops| == 0 || ops[0].Raise? then []
    else (if ops[0].Report? then [ops[0].msg] else []) + ReportsBefore(ops[1..])
  }

  /** The row increments a payload makes before it raises. */
  function AdvancesBefore(ops: seq<Op>): nat
    decreases |ops|
  {
    if |ops| == 0 || ops[0].Raise? then 0
    else (if ops[0].AdvanceRow? then 1 else 0) + AdvancesBefore(ops[1..])
  }

  /** A payload appends exactly the messages it reports before raising,
      increments the cursor once per call before raising, and raises exactly
      when it contains a raise, with the first raise's message. */
  lemma {:induction false} ExecOpsEffects(ops: seq<Op>, st: RunState)
    ensures ExecOps(ops, st).0.results == st.results + ReportsBefore(ops)
    ensures ExecOps(ops, st).0.cursor == AdvancedTimes(st.cursor, AdvancesBefore(ops))
    ensures ExecOps(ops, st).1.Raised? <==> exists j :: 0 <= j < |ops| && ops[j].Raise?
    ensures ExecOps(ops, st).1.Raised? ==>
              exists j :: 0 <= j < |ops| && ops[j].Raise? && ExecOps(ops, st).1.msg == ops[j].msg &&
                          forall k :: 0 <= k < j ==> !ops[k].Raise?
    decreases |ops|
  {
    if |ops| > 0 && !ops[0].Raise? {
      var next := match ops[0]
        case Assign(n, v) => st.(ctx := st.ctx[n := v])
        case Report(m) => st.(results := st.results + [m])
        case AdvanceRow => st.(cursor := st.cursor.Advanced().0)
        case _ => st;
      assert ExecOps(ops, st) == ExecOps(ops[1..], next);
      ExecOpsEffects(ops[1..], next);
      if exists j :: 0 <= j < |ops[1..]| && ops[1..][j].Raise? {
        var j :| 0 <= j < |ops[1..]| && ops[1..][j].Raise? && ExecOps(ops, st).1.msg == ops[1..][j].msg &&
                 forall k :: 0 <= k < j ==> !ops[1..][k].Raise?;
        assert ops[j + 1].Raise?;
        assert forall k :: 0 <= k < j + 1 ==> !ops[k].Raise? by {
          forall k | 0 <= k < j + 1 ensures !ops[k].Raise? {
            if k > 0 { assert ops[k] == ops[1..][k - 1]; }
          }
        }
      }
      if exists j :: 0 <= j < |ops| && ops[j].Raise? {
        var j :| 0 <= j < |ops| && ops[j].Raise?;
        assert ops[1..][j - 1].Raise?;
      }
    } else if |ops| > 0 {
      assert ops[0].Raise?;
    }
  }

  /** `step.get('name', f'Step {i+1}')` */
  function StepName(step: Step, i: nat): string {
    if step.name.Some? then step.name.value else "Step " + NatToString(i + 1)
  }

  /** `step.get('code', 'pass')` */
  function StepCode(step: Step): seq<Op> {
    if step.code.Some? then step.code.value else [Pass]
  }

  /** The entry a raising step appends to `results`. */
  function ErrorEntry(name: string, msg: string): string {
    "❌ Lỗi '" + name + "': " + msg
  }

  /** Step `i` inside its `try`: the payload's effects are kept, and a raise
      appends one error entry instead of ending the run. */
  function ExecStep(step: Step, i: nat, st: RunState): RunState {
    var (after, outcome) := ExecOps(StepCode(step), st);
    if outcome.Raised? then after.(results := after.results + [ErrorEntry(StepName(step, i), outcome.msg)])
    else after
  }

  /** A raising step keeps what it did before the raise, skips the rest of
      its payload and appends exactly one error entry naming it. */
  lemma RaisingStep(step: Step, i: nat, st: RunState, pre: seq<Op>, msg: string, post: seq<Op>)
    requires StepCode(step) == pre + [Raise(msg)] + post
    requires forall k :: 0 <= k < |pre| ==> !pre[k].Raise?
    ensures ExecStep(step, i, st) ==
              var (before, _) := ExecOps(pre, st);
              before.(results := before.results + [ErrorEntry(StepName(step, i), msg)])
    ensures ExecStep(step, i, st).results == st.results + ReportsBefore(pre) + [ErrorEntry(StepName(step, i), msg)]
  {
    PrefixThenRaise(pre, msg, post, st);
    ExecOpsEffects(pre, st);
  }

  lemma {:induction false} PrefixThenRaise(pre: seq<Op>, msg: string, post: seq<Op>, st: RunState)
    requires forall k :: 0 <= k < |pre| ==> !pre[k].Raise?
    ensures ExecOps(pre + [Raise(msg)] + post, st) == (ExecOps(pre, st).0, Raised(msg))
    ensures ExecOps(pre, st).1 == Finished
    decreases |pre|
  {
    var ops := pre + [Raise(msg)] + post;
    if |pre| == 0 {
      assert ops[0] == Raise(msg);
    } else {
      assert ops[0] == pre[0];
      assert ops[1..] == pre[1..] + [Raise(msg)] + post;
      var next := match pre[0]
        case Assign(n, v) => st.(ctx := st.ctx[n := v])
        case Report(m) => st.(results := st.results + [m])
        case AdvanceRow => st.(cursor := st.cursor.Advanced().0)
        case _ => st;
      assert ExecOps(ops, st) == ExecOps(ops[1..], next);
      assert ExecOps(pre, st) == ExecOps(pre[1..], next);
      PrefixThenRaise(pre[1..], msg, post, next);
    }
  }

  datatype Exit = Completed | StoppedByUser | ScriptStopped

  /** The run from step `i` on: `stopAt(i)` is the stop flag as the check
      before step `i` reads it (another thread toggles it). */
  function RunFrom(steps: seq<Step>, i: nat, st: RunState, stopAt: nat -> bool): (RunState, Exit)
    decreases |steps| - i
  {
    if i >= |steps| then (st, Completed)
    else if stopAt(i) then (st.(results := st.results + [StoppedEntry]), StoppedByUser)
    else if ScriptStopSet(st.ctx) then (st, ScriptStopped)
    else RunFrom(steps, i + 1, ExecStep(steps[i], i, st), stopAt)
  }

  /** The state after steps `0 .. k-1` ran. */
  function StateAfter(steps: seq<Step>, k: nat, st: RunState): RunState
    requires k <= |steps|
    decreases k
  {
    if k == 0 then st else ExecStep(steps[k - 1], k - 1, StateAfter(steps, k - 1, st))
  }

  /** Neither flag is up at the check before step `j`. */
  predicate Clear(steps: seq<Step>, j: nat, init: RunState, stopAt: nat -> bool)
    requires j <= |steps|
  {
    !stopAt(j) && !ScriptStopSet(StateAfter(steps, j, init).ctx)
  }

  /** Steps run in order and a raising step does not end the run: while
      neither flag is up before steps `i .. k-1`, the run reaches step `k`
      with the state those steps produced. */
  lemma {:induction false} RunReaches(steps: seq<Step>, i: nat, k: nat, init: RunState, stopAt: nat -> bool)
    requires i <= k <= |steps|
    requires forall j :: i <= j < k ==> Clear(steps, j, init, stopAt)
    ensures RunFrom(steps, i, StateAfter(steps, i, init), stopAt) == RunFrom(steps, k, StateAfter(steps, k, init), stopAt)
    decreases k - i
  {
    if i < k {
      assert Clear(steps, i, init, stopAt);
      RunReaches(steps, i + 1, k, init, stopAt);
    }
  }

  /** How a run ends: a stop before step `k` appends exactly one "stopped"
      entry; `script_stop` before step `k` ends it silently; otherwise every
      step runs. */
  lemma RunEnds(steps: seq<Step>, k: nat, init: RunState, stopAt: nat -> bool)
    requires k <= |steps|
    requires forall j :: 0 <= j < k ==> Clear(steps, j, init, stopAt)
    ensures k < |steps| && stopAt(k) ==>
              RunFrom(steps, 0, init, stopAt) ==
              (StateAfter(steps, k, init).(results := StateAfter(steps, k, init).results + [StoppedEntry]), StoppedByUser)
    ensures k < |steps| && !stopAt(k) && ScriptStopSet(StateAfter(steps, k, init).ctx) ==>
              RunFrom(steps, 0, init, stopAt) == (StateAfter(steps, k, init), ScriptStopped)
    ensures k == |steps| ==> RunFrom(steps, 0, init, stopAt) == (StateAfter(steps, |steps|, init), Completed)
  {
    RunReaches(steps, 0, k, init, stopAt);
  }

  /** The state a run starts from. */
  function Initial(extra: Context, cursor: Cursor): RunState {
    RunState(SeedContext(extra), [], cursor)
  }

  /** `_run_dynamic_script(steps, extra_context)`: the final state, how the
      run ended and how many steps ran. */
  method RunDynamicScript(steps: seq<Step>, extra: Context, stopAt: nat -> bool, cursor: Cursor)
    returns (st: RunState, exit: Exit, ran: nat)
    ensures (st, exit) == RunFrom(steps, 0, Initial(extra, cursor), stopAt)
    ensures ran <= |steps|
    ensures forall j :: 0 <= j < ran ==> Clear(steps, j, Initial(extra, cursor), stopAt)
    ensures exit == Completed ==> ran == |steps| && st == StateAfter(steps, ran, Initial(extra, cursor))
    ensures exit == StoppedByUser ==> ran < |steps| && stopAt(ran)
    ensures exit == StoppedByUser ==> st.results == StateAfter(steps, ran, Initial(extra, cursor)).results + [StoppedEntry]
    ensures exit == ScriptStopped ==> ran < |steps| && !stopAt(ran) && ScriptStopSet(st.ctx)
    ensures exit == ScriptStopped ==> st == StateAfter(steps, ran, Initial(extra, cursor))
  {
    ghost var init := Initial(extra, cursor);
    st := Initial(extra, cursor);
    var i := 0;
    while i < |steps|
      invariant i <= |steps|
      invariant st == StateAfter(steps, i, init)
      invariant forall j :: 0 <= j < i ==> Clear(steps, j, init, stopAt)
      invariant RunFrom(steps, 0, init, stopAt) == RunFrom(steps, i, st, stopAt)
    {
      if stopAt(i) {
        st := st.(results := st.results + [StoppedEntry]);
        return st, StoppedByUser, i;
      }
      if ScriptStopSet(st.ctx) {
        return st, ScriptStopped, i;
      }
      var next := ExecStep(steps[i], i, st);
      assert next == StateAfter(steps, i + 1, init);
      st := next;
      i := i + 1;
    }
    return st, Completed, i;
  }
}

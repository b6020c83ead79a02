/** The macro store (`ScriptManager`), the per-category script list editor
    (`ScriptSelector`) and the step-list editor (`ScriptEditor`).

    A script is a named, ordered list of steps; at most one script of a
    category is meant to carry the active flag, and that is the one the
    category's button runs. A step's Python payload is modelled by the few
    effects the runner distinguishes (see module Runner). */
module Scripts {
  import opened Common
  import opened Text

  /** Values a payload can store in the runner's context. */
  datatype Value = VBool(b: bool) | VInt(i: int) | VStr(s: string) | VNone | Handle(name: string)

  /** One effect of a step payload: do nothing, bind a context name (for
      instance `script_stop = True`), append to `results`, raise an
      exception with a message, or call `acs_auto.increment_excel_row_index()`. */
  datatype Op = Pass | Assign(name: string, value: Value) | Report(msg: string) | Raise(msg: string) | AdvanceRow

  /** A step as stored: its 'name' and 'code' keys may be missing. */
  datatype Step = Step(name: Option<string>, code: Option<seq<Op>>)

  datatype Script = Script(name: string, active: bool, steps: seq<Step>)

  /** A script as read from the scripts file: the 'active' key may be missing. */
  datatype RawScript = RawScript(name: string, active: Option<bool>, steps: seq<Step>)

  type Store = map<string, seq<Script>>

  // --------------------------------------------------------------- loading

  /** The 'active' default of `load_scripts`: a script without the key is
      active exactly when it is the first of its category. */
  function Normalized(raw: seq<RawScript>): (list: seq<Script>)
    ensures |list| == |raw|
    ensures forall i :: 0 <= i < |raw| ==>
              list[i].name == raw[i].name && list[i].steps == raw[i].steps &&
              list[i].active == (if raw[i].active.Some? then raw[i].active.value else i == 0)
  {
    seq(|raw|, i requires 0 <= i < |raw| =>
      Script(raw[i].name, if raw[i].active.Some? then raw[i].active.value else i == 0, raw[i].steps))
  }

  function NormalizedStore(data: map<string, seq<RawScript>>): Store {
    map cat | cat in data :: Normalized(data[cat])
  }

  /** What `save_scripts` writes: every script carries its flag. */
  function Saved(list: seq<Script>): seq<RawScript> {
    seq(|list|, i requires 0 <= i < |list| => RawScript(list[i].name, Some(list[i].active), list[i].steps))
  }

  /** Loading what was saved gives the same scripts back. */
  lemma LoadSaved(list: seq<Script>)
    ensures Normalized(Saved(list)) == list
  {}

  const DefaultSteps: seq<Step> := [Step(Some("Ví dụ"), Some([Pass]))]

  /** `create_default_scripts()` */
  function DefaultScripts(): Store {
    map["uid_col1" := [Script("Mặc định Col 1", true, DefaultSteps)],
        "uid_col2" := [Script("Mặc định Col 2", true, DefaultSteps)],
        "address" := [Script("Ghi địa chỉ chuẩn", true, DefaultSteps)],
        "test" := [Script("Test chuẩn", true, DefaultSteps)],
        "address_test" := [Script("Ghi & Test", true, DefaultSteps)]]
  }

  /** The inner loop of `load_scripts` over one category. */
  method NormalizeCategory(raw: seq<RawScript>) returns (list: seq<Script>)
    ensures list == Normalized(raw)
  {
    list := [];
    var i := 0;
    while i < |raw|
      invariant 0 <= i <= |raw|
      invariant list == Normalized(raw[..i])
    {
      var active := if raw[i].active.Some? then raw[i].active.value else i == 0;
      list := list + [Script(raw[i].name, active, raw[i].steps)];
      i := i + 1;
    }
    assert raw[..|raw|] == raw;
  }

  /** `load_scripts()`: `parsed` is the decoded scripts file, None when the
      file is missing or cannot be read; then the defaults are used. */
  method LoadScripts(parsed: Option<map<string, seq<RawScript>>>) returns (data: Store)
    ensures parsed.None? ==> data == DefaultScripts()
    ensures parsed.Some? ==> data.Keys == parsed.value.Keys
    ensures parsed.Some? ==> forall cat :: cat in data ==> data[cat] == Normalized(parsed.value[cat])
  {
    if parsed.None? {
      return DefaultScripts();
    }
    var raw := parsed.value;
    data := map[];
    var todo := raw.Keys;
    while todo != {}
      invariant todo <= raw.Keys
      invariant data.Keys == raw.Keys - todo
      invariant forall cat :: cat in data ==> data[cat] == Normalized(raw[cat])
      decreases todo
    {
      var cat :| cat in todo;
      var list := NormalizeCategory(raw[cat]);
      data := data[cat := list];
      todo := todo - {cat};
    }
  }

  /** The names of a category's scripts, in order. */
  function Names(list: seq<Script>): (names: seq<string>)
    ensures |names| == |list| && forall i :: 0 <= i < |list| ==> names[i] == list[i].name
  {
    seq(|list|, i requires 0 <= i < |list| => list[i].name)
  }

  // ---------------------------------------------------- the active script

  /** Index of the first script with the active flag. */
  function FirstActive(list: seq<Script>): (i: Option<nat>)
    ensures i.Some? ==> i.value < |list| && list[i.value].active
    ensures i.Some? ==> forall j :: 0 <= j < i.value ==> !list[j].active
    ensures i.None? ==> forall j :: 0 <= j < |list| ==> !list[j].active
    decreases |list|
  {
    if |list| == 0 then None
    else if list[0].active then Some(0)
    else match FirstActive(list[1..])
      case None => None
      case Some(k) => Some(k + 1)
  }

  /** `get_active_script`: the first active script, else the first script,
      else nothing. */
  function ActiveScript(list: seq<Script>): (r: Option<Script>)
    ensures r.None? <==> list == []
    ensures FirstActive(list).Some? ==> r == Some(list[FirstActive(list).value])
    ensures FirstActive(list).None? && list != [] ==> r == Some(list[0])
  {
    match FirstActive(list)
    case Some(i) => Some(list[i])
    case None => if list == [] then None else Some(list[0])
  }

  /** Number of scripts carrying the active flag. */
  function ActiveCount(list: seq<Script>): nat
    decreases |list|
  {
    if |list| == 0 then 0 else (if list[0].active then 1 else 0) + ActiveCount(list[1..])
  }

  predicate AnyActive(list: seq<Script>) {
    exists j :: 0 <= j < |list| && list[j].active
  }

  /** The invariant the editing operations keep: a non-empty category has
      exactly one active script. */
  predicate WellActivated(list: seq<Script>) {
    list == [] || ActiveCount(list) == 1
  }

  lemma {:induction false} ActiveCountZero(list: seq<Script>)
    ensures ActiveCount(list) == 0 <==> !AnyActive(list)
    decreases |list|
  {
    if |list| > 0 {
      ActiveCountZero(list[1..]);
      if AnyActive(list[1..]) {
        var j :| 0 <= j < |list[1..]| && list[1..][j].active;
        assert list[j + 1].active;
      }
      if AnyActive(list) && !list[0].active {
        var j :| 0 <= j < |list| && list[j].active;
        assert list[1..][j - 1].active;
      }
    }
  }

  lemma {:induction false} ActiveCountAppend(a: seq<Script>, b: seq<Script>)
    ensures ActiveCount(a + b) == ActiveCount(a) + ActiveCount(b)
    decreases |a|
  {
    if |a| > 0 {
      ActiveCountAppend(a[1..], b);
      assert (a + b)[0] == a[0];
      assert (a + b)[1..] == a[1..] + b;
    } else {
      assert a + b == b;
    }
  }

  /** A list whose flags are up exactly at index `i` has one active script
      when `i` is one of its indices and none otherwise. */
  lemma {:induction false} ActiveCountSingle(list: seq<Script>, i: int)
    requires forall j :: 0 <= j < |list| ==> (list[j].active <==> j == i)
    ensures ActiveCount(list) == if 0 <= i < |list| then 1 else 0
    decreases |list|
  {
    if |list| > 0 {
      ActiveCountSingle(list[1..], i - 1);
    }
  }

  /** Two flagged scripts make a count of at least two. */
  lemma {:induction false} TwoActive(list: seq<Script>, lo: nat, hi: nat)
    requires lo < hi < |list| && list[lo].active && list[hi].active
    ensures ActiveCount(list) >= 2
    decreases |list|
  {
    if lo > 0 {
      TwoActive(list[1..], lo - 1, hi - 1);
    } else {
      assert list[1..][hi - 1].active;
      ActiveCountZero(list[1..]);
    }
  }

  /** On a well-activated category the active script is the unique one with
      the flag. */
  lemma WellActivatedActiveScript(list: seq<Script>, i: nat)
    requires WellActivated(list)
    requires i < |list| && list[i].active
    ensures ActiveScript(list) == Some(list[i])
    ensures forall j :: 0 <= j < |list| && j != i ==> !list[j].active
  {
    forall j | 0 <= j < |list| && j != i
      ensures !list[j].active
    {
      if list[j].active {
        if j < i { TwoActive(list, j, i); } else { TwoActive(list, i, j); }
        assert false;
      }
    }
  }

  // ------------------------------------------------------ editing the list

  /** `set_active_script(index)` on the list: every flag cleared, then the
      chosen one set. */
  function Activated(list: seq<Script>, index: nat): (r: seq<Script>)
    requires index < |list|
    ensures |r| == |list|
    ensures forall j :: 0 <= j < |list| ==> r[j] == list[j].(active := j == index)
  {
    seq(|list|, j requires 0 <= j < |list| => list[j].(active := j == index))
  }

  /** After `set_active_script(i)` exactly script `i` is active, and it is
      the one the category's button runs. */
  lemma ActivatedSpec(list: seq<Script>, index: nat)
    requires index < |list|
    ensures ActiveCount(Activated(list, index)) == 1
    ensures WellActivated(Activated(list, index))
    ensures ActiveScript(Activated(list, index)) == Some(list[index].(active := true))
  {
    ActiveCountSingle(Activated(list, index), index);
    WellActivatedActiveScript(Activated(list, index), index);
  }

  /** `delete_script(index)` on the list: the script removed, then the first
      one activated if none is left active. Every survivor keeps its name,
      steps and flag, except that the first gains the flag when no other
      script had it. */
  function Deleted(list: seq<Script>, index: nat): (r: seq<Script>)
    requires index < |list|
    ensures |r| == |list| - 1
    ensures forall j :: 0 <= j < |r| ==>
              var k := if j < index then j else j + 1;
              r[j].name == list[k].name && r[j].steps == list[k].steps
    ensures forall j :: 0 <= j < |r| ==>
              var k := if j < index then j else j + 1;
              r[j].active == (list[k].active || (j == 0 && forall i :: 0 <= i < |list| && i != index ==> !list[i].active))
  {
    var rest := list[..index] + list[index + 1..];
    SurvivorsActive(list, index);
    if rest != [] && !AnyActive(rest) then rest[0 := rest[0].(active := true)] else rest
  }

  /** Deleting keeps the invariant, and a non-empty category always has an
      active script afterwards. */
  lemma DeletedSpec(list: seq<Script>, index: nat)
    requires index < |list|
    ensures Deleted(list, index) != [] ==> AnyActive(Deleted(list, index))
    ensures ActiveCount(list) <= 1 ==> WellActivated(Deleted(list, index))
  {
    var rest := list[..index] + list[index + 1..];
    RemovedCount(list, index);
    ActiveCountZero(rest);
    var r := Deleted(list, index);
    if rest != [] && !AnyActive(rest) {
      assert r[0].active;
      assert r[1..] == rest[1..];
    }
  }

  /** Removing one script lowers the count by its own flag. */
  lemma {:induction false} RemovedCount(list: seq<Script>, index: nat)
    requires index < |list|
    ensures ActiveCount(list[..index] + list[index + 1..]) + (if list[index].active then 1 else 0) == ActiveCount(list)
    decreases index
  {
    var rest := list[..index] + list[index + 1..];
    if index == 0 {
      assert rest == list[1..];
    } else {
      var tail := list[1..];
      RemovedCount(tail, index - 1);
      assert rest[0] == list[0];
      assert rest[1..] == tail[..index - 1] + tail[index..];
    }
  }

  /** Some survivor of the removal is active exactly when some other
      position of the list is. */
  lemma SurvivorsActive(list: seq<Script>, index: nat)
    requires index < |list|
    ensures AnyActive(list[..index] + list[index + 1..]) <==>
              exists i :: 0 <= i < |list| && i != index && list[i].active
  {
    var rest := list[..index] + list[index + 1..];
    if AnyActive(rest) {
      var j :| 0 <= j < |rest| && rest[j].active;
      var k := if j < index then j else j + 1;
      assert rest[j] == list[k];
    }
    if exists i :: 0 <= i < |list| && i != index && list[i].active {
      var i :| 0 <= i < |list| && i != index && list[i].active;
      var j := if i < index then i else i - 1;
      assert rest[j] == list[i];
    }
  }

  /** The editing index after `delete_script(index)`. */
  function EditingAfterDelete(editing: int, index: nat): int {
    if editing == index then -1 else if editing > index then editing - 1 else editing
  }

  /** The script being renamed stays the one being renamed. */
  lemma EditingFollowsScript(list: seq<Script>, index: nat, editing: int)
    requires index < |list| && 0 <= editing < |list| && editing != index
    ensures var e := EditingAfterDelete(editing, index);
            0 <= e < |Deleted(list, index)| &&
            Deleted(list, index)[e].name == list[editing].name &&
            Deleted(list, index)[e].steps == list[editing].steps
  {
    DeletedSpec(list, index);
  }

  /** `create_new` on the list: the new script, active exactly when the
      category was empty, with one "New Block" step. */
  function WithNewScript(list: seq<Script>, name: string): seq<Script> {
    list + [Script(name, list == [], [Step(Some("New Block"), Some([Pass]))])]
  }

  /** Creating a script keeps the invariant; the first script of a category
      is active and runs. */
  lemma WithNewScriptSpec(list: seq<Script>, name: string)
    ensures WellActivated(list) ==> WellActivated(WithNewScript(list, name))
    ensures list == [] ==> ActiveScript(WithNewScript(list, name)).value.name == name
    ensures list != [] ==> ActiveCount(WithNewScript(list, name)) == ActiveCount(list)
  {
    var x := Script(name, list == [], [Step(Some("New Block"), Some([Pass]))]);
    ActiveCountAppend(list, [x]);
  }

  /** The defaults are well activated. */
  lemma DefaultScriptsWellActivated()
    ensures forall cat :: cat in DefaultScripts() ==> WellActivated(DefaultScripts()[cat])
  {
    forall x: Script | x.active
      ensures ActiveCount([x]) == 1
    {
      assert [x][1..] == [];
    }
  }

  /** A category loaded from a file without flags starts with its first
      script active, and only that one. */
  lemma LoadedWithoutFlags(raw: seq<RawScript>)
    requires forall i :: 0 <= i < |raw| ==> raw[i].active.None?
    ensures WellActivated(Normalized(raw))
    ensures raw != [] ==> ActiveScript(Normalized(raw)).value.name == raw[0].name
  {
    ActiveCountSingle(Normalized(raw), 0);
  }

  /** Loading keeps flags as stored, so two active scripts survive loading. */
  lemma LoadKeepsTwoActive(a: RawScript, b: RawScript)
    requires a.active == Some(true) && b.active == Some(true)
    ensures !WellActivated(Normalized([a, b]))
  {
    TwoActive(Normalized([a, b]), 0, 1);
  }

  // ------------------------------------------------------------- the store

  /** `ScriptManager`: the category -> scripts map. */
  class ScriptManager {
    var scripts: Store

    constructor (parsed: Option<map<string, seq<RawScript>>>)
      ensures parsed.None? ==> scripts == DefaultScripts()
      ensures parsed.Some? ==> scripts == NormalizedStore(parsed.value)
    {
      var data := LoadScripts(parsed);
      scripts := data;
    }

    /** `get_scripts_by_category(category)` */
    function ScriptsByCategory(category: string): (list: seq<Script>)
      reads this
      ensures category in scripts ==> list == scripts[category]
      ensures category !in scripts ==> list == []
    {
      if category in scripts then scripts[category] else []
    }

    /** `get_active_script(category)`: never changes the store. */
    method GetActiveScript(category: string) returns (r: Option<Script>)
      ensures r == ActiveScript(ScriptsByCategory(category))
    {
      var list := ScriptsByCategory(category);
      var i := 0;
      while i < |list|
        invariant 0 <= i <= |list|
        invariant forall j :: 0 <= j < i ==> !list[j].active
      {
        if list[i].active {
          return Some(list[i]);
        }
        i := i + 1;
      }
      if |list| > 0 {
        return Some(list[0]);
      }
      return None;
    }
  }

  /** `ScriptSelector`: one category's list, and which row is being renamed
      (-1 for none). */
  class ScriptSelector {
    const store: ScriptManager
    const category: string
    var editingIndex: int

    constructor (store: ScriptManager, category: string)
      ensures this.store == store && this.category == category && editingIndex == -1
    {
      this.store := store;
      this.category := category;
      editingIndex := -1;
    }

    /** `create_new()`: a script named "Kịch bản mới N" for the first N not
        taken, appended to the category (created if missing), and opened for
        renaming. */
    method CreateNew() returns (name: string, count: nat)
      modifies store, this
      ensures count >= 1 && name == NumberedName("Kịch bản mới", count)
      ensures name !in Names(old(store.ScriptsByCategory(category)))
      ensures forall c :: 1 <= c < count ==> NumberedName("Kịch bản mới", c) in Names(old(store.ScriptsByCategory(category)))
      ensures store.scripts == old(store.scripts)[category := WithNewScript(old(store.ScriptsByCategory(category)), name)]
      ensures editingIndex == |old(store.ScriptsByCategory(category))|
    {
      var list := store.ScriptsByCategory(category);
      name, count := FreshNumberedName("Kịch bản mới", Names(list));
      store.scripts := store.scripts[category := WithNewScript(list, name)];
      editingIndex := |list|;
    }

    /** `set_active_script(index)` */
    method SetActiveScript(index: nat)
      requires index < |store.ScriptsByCategory(category)|
      modifies store
      ensures store.scripts == old(store.scripts)[category := Activated(old(store.scripts[category]), index)]
    {
      var list := store.scripts[category];
      var i := 0;
      var updated := [];
      while i < |list|
        invariant 0 <= i <= |list| && |updated| == i
        invariant forall j :: 0 <= j < i ==> updated[j] == list[j].(active := false)
      {
        updated := updated + [list[i].(active := false)];
        i := i + 1;
      }
      updated := updated[index := updated[index].(active := true)];
      assert updated == Activated(list, index);
      store.scripts := store.scripts[category := updated];
    }

    /** `delete_script(index)`; `confirmed` is the answer to the yes/no prompt. */
    method DeleteScript(index: nat, confirmed: bool)
      requires index < |store.ScriptsByCategory(category)|
      modifies store, this
      ensures !confirmed ==> store.scripts == old(store.scripts) && editingIndex == old(editingIndex)
      ensures confirmed ==> store.scripts == old(store.scripts)[category := Deleted(old(store.scripts[category]), index)]
      ensures confirmed ==> editingIndex == EditingAfterDelete(old(editingIndex), index)
    {
      if confirmed {
        var list := store.scripts[category];
        var rest := list[..index] + list[index + 1..];
        if !AnyActive(rest) && rest != [] {
          rest := rest[0 := rest[0].(active := true)];
        }
        store.scripts := store.scripts[category := rest];
        if editingIndex == index {
          editingIndex := -1;
        } else if editingIndex > index {
          editingIndex := editingIndex - 1;
        }
      }
    }

    /** `save_name(index, new_name)`: the stripped name replaces the old one
        unless it is empty; then nothing changes. */
    method SaveName(index: nat, newName: string) returns (ok: bool)
      requires index < |store.ScriptsByCategory(category)|
      modifies store, this
      ensures ok <==> Strip(newName) != ""
      ensures !ok ==> store.scripts == old(store.scripts) && editingIndex == old(editingIndex)
      ensures ok ==> editingIndex == -1
      ensures ok ==> store.scripts == old(store.scripts)[category :=
                old(store.scripts[category])[index := old(store.scripts[category])[index].(name := Strip(newName))]]
    {
      var name := Strip(newName);
      if name == "" {
        return false;
      }
      var list := store.scripts[category];
      store.scripts := store.scripts[category := list[index := list[index].(name := name)]];
      editingIndex := -1;
      return true;
    }
  }

  // -------------------------------------------------------- the step editor

  /** The steps with positions `i` and `j` exchanged. */
  function Swapped(s: seq<Step>, i: nat, j: nat): (r: seq<Step>)
    requires i < |s| && j < |s|
    ensures |r| == |s| && r[i] == s[j] && r[j] == s[i]
    ensures forall k :: 0 <= k < |s| && k != i && k != j ==> r[k] == s[k]
  {
    s[i := s[j]][j := s[i]]
  }

  /** Moving a block and moving it back restores the list; a move loses and
      duplicates nothing. */
  lemma SwappedSpec(s: seq<Step>, i: nat, j: nat)
    requires i < |s| && j < |s|
    ensures Swapped(Swapped(s, i, j), j, i) == s
    ensures multiset(Swapped(s, i, j)) == multiset(s)
  {
    var t := s[i := s[j]];
    assert multiset(t) == multiset(s) - multiset{s[i]} + multiset{s[j]};
    assert multiset(t[j := s[i]]) == multiset(t) - multiset{t[j]} + multiset{s[i]};
  }

  /** `[s['name'] for s in self.steps]`: None when a step has no name,
      where the lookup raises. */
  function StepNames(steps: seq<Step>): (names: Option<seq<string>>)
    ensures names.Some? <==> forall k :: 0 <= k < |steps| ==> steps[k].name.Some?
    ensures names.Some? ==> |names.value| == |steps|
    ensures names.Some? ==> forall k :: 0 <= k < |steps| ==> Some(names.value[k]) == steps[k].name
    decreases |steps|
  {
    if |steps| == 0 then Some([])
    else match StepNames(steps[..|steps| - 1])
      case None => None
      case Some(init) =>
        match steps[|steps| - 1].name
        case None => None
        case Some(n) => Some(init + [n])
  }

  /** The steps with the editor's text as the code of block `current`, when
      a block is selected (`current >= 0`). */
  function WithCode(steps: seq<Step>, current: int, text: seq<Op>): (r: seq<Step>)
    requires current < |steps|
    ensures |r| == |steps|
    ensures forall k :: 0 <= k < |steps| && k != current ==> r[k] == steps[k]
    ensures current >= 0 ==> r[current] == Step(steps[current].name, Some(text))
  {
    if current >= 0 then steps[current := steps[current].(code := Some(text))] else steps
  }

  /** Only the latest text of a block counts: a second key release
      overwrites the first. */
  lemma WithCodeLatestWins(steps: seq<Step>, current: int, first: seq<Op>, second: seq<Op>)
    requires current < |steps|
    ensures WithCode(WithCode(steps, current, first), current, second) == WithCode(steps, current, second)
  {
  }

  /** Text typed into one block survives selecting and editing another. */
  lemma WithCodeKeepsOtherBlock(steps: seq<Step>, i: nat, j: nat, a: seq<Op>, b: seq<Op>)
    requires i < |steps| && j < |steps| && i != j
    ensures WithCode(WithCode(steps, i, a), j, b)[i].code == Some(a)
    ensures WithCode(WithCode(steps, i, a), j, b)[j].code == Some(b)
  {
  }

  /** `ScriptEditor`: a copy of one script's steps, the selected block and
      the block being renamed (-1 for none). */
  class ScriptEditor {
    const store: ScriptManager
    const category: string
    const scriptIndex: nat
    const scriptData: Script
    var steps: seq<Step>
    var currentStepIndex: int
    var editingBlockIndex: int

    ghost predicate Valid()
      reads this
    {
      -1 <= currentStepIndex < |steps| && -1 <= editingBlockIndex < |steps|
    }

    constructor (store: ScriptManager, category: string, scriptIndex: nat)
      requires scriptIndex < |store.ScriptsByCategory(category)|
      ensures Valid()
      ensures this.store == store && this.category == category && this.scriptIndex == scriptIndex
      ensures scriptData == store.scripts[category][scriptIndex] && steps == scriptData.steps
      ensures currentStepIndex == -1 && editingBlockIndex == -1
    {
      this.store := store;
      this.category := category;
      this.scriptIndex := scriptIndex;
      scriptData := store.scripts[category][scriptIndex];
      steps := store.scripts[category][scriptIndex].steps;
      currentStepIndex := -1;
      editingBlockIndex := -1;
    }

    /** `select_block(index)`: a rename of another block is cancelled. */
    method SelectBlock(index: nat)
      requires Valid() && index < |steps|
      modifies this`currentStepIndex, this`editingBlockIndex
      ensures Valid()
      ensures currentStepIndex == index
      ensures editingBlockIndex == if old(editingBlockIndex) == index then index else -1
    {
      if editingBlockIndex != -1 && editingBlockIndex != index {
        editingBlockIndex := -1;
      }
      currentStepIndex := index;
    }

    /** `on_code_change()`, run on every key release in the code box: the
        editor's text becomes the selected block's code. */
    method OnCodeChange(editorCode: seq<Op>)
      requires Valid()
      modifies this`steps
      ensures Valid()
      ensures steps == WithCode(old(steps), currentStepIndex, editorCode)
    {
      if currentStepIndex >= 0 {
        steps := steps[currentStepIndex := steps[currentStepIndex].(code := Some(editorCode))];
      }
    }

    /** `add_block()`: a block named "Bước mới N" for the first N not taken,
        appended, selected and opened for renaming. */
    method AddBlock() returns (added: bool, name: string, count: nat)
      requires Valid()
      modifies this`steps, this`currentStepIndex, this`editingBlockIndex
      ensures Valid()
      ensures added <==> StepNames(old(steps)).Some?
      ensures !added ==> steps == old(steps) && currentStepIndex == old(currentStepIndex) &&
                         editingBlockIndex == old(editingBlockIndex)
      ensures added ==> count >= 1 && name == NumberedName("Bước mới", count)
      ensures added ==> forall k :: 0 <= k < |old(steps)| ==> old(steps)[k].name != Some(name)
      ensures added ==> steps == old(steps) + [Step(Some(name), Some([Pass]))]
      ensures added ==> currentStepIndex == editingBlockIndex == |old(steps)|
    {
      var names := StepNames(steps);
      if names.None? {
        return false, "", 0;
      }
      name, count := FreshNumberedName("Bước mới", names.value);
      steps := steps + [Step(Some(name), Some([Pass]))];
      SelectBlock(|steps| - 1);
      editingBlockIndex := |steps| - 1;
      added := true;
    }

    /** `move_block(direction)`: the selected block swapped with its
        neighbour, when both exist; the selection follows the block. */
    method MoveBlock(direction: int)
      requires Valid()
      modifies this`steps, this`currentStepIndex, this`editingBlockIndex
      ensures Valid()
      ensures var idx, to := old(currentStepIndex), old(currentStepIndex) + direction;
              if idx < 0 || !(0 <= to < |old(steps)|) then
                steps == old(steps) && currentStepIndex == idx && editingBlockIndex == old(editingBlockIndex)
              else
                steps == Swapped(old(steps), idx, to) && currentStepIndex == to &&
                editingBlockIndex == (if old(editingBlockIndex) == idx || old(editingBlockIndex) == to then to else -1)
    {
      var idx := currentStepIndex;
      if idx < 0 {
        return;
      }
      var to := idx + direction;
      if 0 <= to < |steps| {
        steps := steps[idx := steps[to]][to := steps[idx]];
        if editingBlockIndex == idx {
          editingBlockIndex := to;
        }
        SelectBlock(to);
      }
    }

    /** `delete_block()`; `confirmed` is the answer to the yes/no prompt. */
    method DeleteBlock(confirmed: bool)
      requires Valid()
      modifies this`steps, this`currentStepIndex, this`editingBlockIndex
      ensures Valid()
      ensures old(currentStepIndex) >= 0 && confirmed ==>
                steps == old(steps)[..old(currentStepIndex)] + old(steps)[old(currentStepIndex) + 1..] &&
                currentStepIndex == -1 && editingBlockIndex == -1
      ensures !(old(currentStepIndex) >= 0 && confirmed) ==>
                steps == old(steps) && currentStepIndex == old(currentStepIndex) &&
                editingBlockIndex == old(editingBlockIndex)
    {
      if currentStepIndex >= 0 && confirmed {
        steps := steps[..currentStepIndex] + steps[currentStepIndex + 1..];
        currentStepIndex := -1;
        editingBlockIndex := -1;
      }
    }

    /** `save_all()`: the editor's text becomes the selected block's code and
        the edited copy is written at the category and index the editor was
        opened with. When that index is out of range (the source raises
        there) nothing is written; an index still in range may by then
        designate another script, which is the one overwritten. */
    method SaveAll(editorCode: seq<Op>) returns (written: bool)
      requires Valid()
      modifies this`steps, store
      ensures Valid()
      ensures steps == WithCode(old(steps), currentStepIndex, editorCode)
      ensures written <==> scriptIndex < |old(store.ScriptsByCategory(category))|
      ensures written ==> store.scripts == old(store.scripts)[category :=
                old(store.scripts[category])[scriptIndex := scriptData.(steps := steps)]]
      ensures !written ==> store.scripts == old(store.scripts)
    {
      if currentStepIndex >= 0 {
        steps := steps[currentStepIndex := steps[currentStepIndex].(code := Some(editorCode))];
      }
      if category in store.scripts && scriptIndex < |store.scripts[category]| {
        var list := store.scripts[category];
        store.scripts := store.scripts[category := list[scriptIndex := scriptData.(steps := steps)]];
        return true;
      }
      return false;
    }
  }
}

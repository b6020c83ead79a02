# ACS Auto — a verified model of its automation core

ACS Auto drives a vendor's device-configuration GUI ("ACS") by recognising
template images on the screen and clicking them. The operator imports a
spreadsheet of device addresses, and per-category macro scripts run
against it. This project models in Dafny the logic under that GUI, all of
it in `main.py`:

- **Template candidates and polling** (module `Locator`). A comma-joined
  configuration value becomes an ordered, existence-filtered candidate list.
  `find_and_click`, `wait_for_image` and `locate_image` poll the candidates
  in priority order, pass after pass. The screen is an oracle
  `(pass, template, confidence) -> Miss | Hit(box) | Fault`. The wall-clock
  timeout is a number of passes. The stop flag, which the hotkey thread flips
  during a search, is an oracle `stopAt(pass)`.
- **Device locator** (module `Devices`). `xac_dinh_vi_tri_thiet_bi` picks a
  search region, clamps a confidence and runs the "any class non-empty ⇒
  return" pass loop. The module also holds the device type and power tables,
  and `_select_device_type` / `_select_device_power`.
- **Dataset cursor** (module `Acs`). These are the rows, index,
  auto-increment switch and stop flag of `ACSAutomation`, plus the manual
  jump-to-row lookup.
- **Macro store** (module `Scripts`). It covers `ScriptManager`, and the
  list operations of `ScriptSelector` and `ScriptEditor`.
- **Macro runner** (module `Runner`). `_run_dynamic_script` runs a step's
  Python payload, modelled as a list of effects: pass, bind a name, append
  to `results`, raise, advance the cursor.
- **Window logic** (module `App`). This is the single-flight gate, the
  worker and its finaliser, the stop toggle, `delayed_update`, the context
  builders and the power choices of the two "write UID" columns.
- Shared pieces. `Common` holds Option and the match box. `Text` holds
  Python's `split`, `strip`, `join` and the "base N" fresh-name loop.
  `Config` holds the INI table.

Stateful parts are classes whose methods change their fields. These are
`ConfigManager`, `AcsAutomation`, `ScriptManager`, `ScriptSelector`,
`ScriptEditor` and `AutoAcsTool`. Each method's `ensures` ties the new state
to a specification function of the old one. The loops of the source
(polling, per-class accumulation, the name counter, loading, the runner)
are `while` loops with invariants. The three polling loops and the name
counter are proved against quantified specifications: the first candidate
that hits, the least free number. The other loops are proved equal to
recursive specification functions. Lemmas prove what the program promises
about those specifications.

`ACSAutomation.__init__` reads `find_image_confidence` once, when the
object is built (main.py:191). `AcsAutomation.confidence` is therefore a
constant, and each search receives it as `configured`.

## Model

| member | source | states |
|---|---|---|
| `Common.Center` | main.py:235-240 | The click point lies in the match box, at its middle, with halves rounded down. |
| `Text.Split` | main.py:205 | `str.split(sep)` gives at least one piece, and no piece contains the separator. |
| `Text.SplitJoin` | main.py:1122-1125 | Splitting a `sep.join` of separator-free pieces gives the pieces back. |
| `Text.JoinSplit` | main.py:205 | Joining the pieces of a split rebuilds the original text. |
| `Text.Strip` | main.py:205 | `str.strip()` leaves no whitespace at either end, is never longer than its input, and leaves stripped text unchanged. |
| `Text.StripCut` | main.py:205 | The strip is an infix of the text, and only whitespace lies before and after it. |
| `Text.StripUnique` | main.py:205 | Any stripped infix with only whitespace around it is the strip, so stripping never shortens a piece inside. |
| `Text.FreshNumberedName` | main.py:1614-1620 | The name-counter loop returns "base N" for the least N ≥ 1 whose name is not taken. Every smaller N is taken, and the loop terminates. |
| `Config.Stored` | main.py:135-139 | After `set`, the option reads back the new value. Every other section and option is unchanged, and a missing section is created. |
| `Config.ConfigManager.Get` | main.py:128-133 | `get` returns the stored value, or the default when the section or option is missing. |
| `Config.ConfigManager.Set` | main.py:135-139 | `set` stores the value, and `get` then returns it. |
| `Locator.KeepStripped` | main.py:205 | The filter keeps only non-empty stripped names, never more names than pieces, and adds no comma. |
| `Locator.KeepStrippedFiltersStrips` | main.py:205 | Keeping the non-empty strips is the same as stripping every piece and then filtering by non-emptiness. |
| `Locator.KeepStrippedPicks` | main.py:205 | There is a strictly increasing map from names to pieces: each name is its piece's strip, and every piece with a non-empty strip is mapped to. So the names keep the configured order and their repeats, and nothing non-empty is dropped. |
| `Locator.ConfiguredNames` | main.py:205 | Every configured name is non-empty, stripped and free of commas. |
| `Locator.ConfiguredNamesOfJoin` | main.py:1122-1125 | The list the settings tab saves with `",".join` reads back as the same names in the same order. |
| `Locator.Existing` | main.py:207-213 | The filter keeps exactly the names whose file exists, and no more entries than there were names. |
| `Locator.ExistingPicks` | main.py:207-213 | There is a strictly increasing map from paths to names: each path is its name, and every name whose file exists is mapped to. So order and repeats are kept. |
| `Locator.ExistingTwice` | main.py:205-213 | Filtering by one test and then another is filtering once by both. |
| `Locator.ExistingKeepsAll` | main.py:207-213 | When every file exists, nothing is dropped and the order is kept. |
| `Locator.CandidatePathsPicks` | main.py:199-217 | A missing key gives no candidates. Otherwise a strictly increasing map from candidates to the value's comma-separated pieces exists: each candidate is its piece's strip, and every piece whose strip is non-empty and names an existing file is mapped to. |
| `Locator.ImagePathsList` | main.py:199-217 | The loop returns the candidate list that `CandidatePathsPicks` characterises, and every candidate is a well-formed name whose file exists. |
| `Locator.EffectiveConfidence` | main.py:224 | An override takes precedence over the constructor's confidence. |
| `Locator.FindAndClick` | main.py:219-250 | No candidates gives False with no pass run. A pass that sees the stop flag gives "stopped". Otherwise the first candidate in list order that hits is clicked at its centre, and errors are skipped. |
| `Locator.FirstNonMiss` | main.py:293-304 | One pass of `wait_for_image` (and of `locate_image`) stops at the first candidate that is not a miss (a hit or an error). The index is past the end exactly when every candidate misses. |
| `Locator.FirstHit` | main.py:231-247 | One pass returns the first candidate in list order that is found, skipping errors. It returns None exactly when no candidate is found in that pass. |
| `Locator.FindAndClickSpecUnique` | main.py:219-250 | The specification of `find_and_click` allows exactly one outcome. |
| `Locator.WaitForImage` | main.py:281-307 | The same search as `find_and_click`, except that an unexpected error ends the call with failure. |
| `Locator.LocateImage` | main.py:481-498 | The first pass with a hit returns that box. An error returns None, and so does running out of passes. There is no stop check. |
| `Locator.PoliciesAgreeWithoutFaults` | main.py:243-247 | When the backend never errs, `wait_for_image` sees exactly what `find_and_click` clicks, and both stop at the same pass. |
| `Locator.FaultPolicyDiffers` | main.py:302-304 | An error on the first candidate and a hit on the second: `find_and_click` clicks the second, while `wait_for_image` fails. |
| `Locator.OnlyLastCandidateOnScreen` | main.py:484-490 | Only the third of three candidates is on screen, so the first pass returns its box. |
| `Devices.DeviceConfidence` | main.py:368-370 | The device confidence always lies in [0.6, 0.75]. |
| `Devices.DeviceConfidenceIsClamp` | main.py:368-370 | It equals `max(0.6, min(0.75, conf*0.9))` and is monotone. It is `conf*0.9` inside the band, and it is never stricter than a configured value of at least 0.6. |
| `Devices.DeviceConfidenceExamples` | main.py:368-370 | 0.5 gives 0.6, while 0.9 and 1.0 give 0.75. |
| `Devices.SearchRegion` | main.py:339-358 | The region is the title's box exactly when the first title template is found at 0.8. A missing template, a miss or an error gives the whole screen. |
| `Devices.ClassMatchesEmpty` | main.py:377-393 | A class is empty in a pass exactly when none of its templates matched. |
| `Devices.CollectClass` | main.py:377-393 | The per-class loop concatenates every template's matches in template order. A miss and an error add nothing. |
| `Devices.LocateEmptyIffNothingFound` | main.py:374-434 | Three empty lists come back exactly when no pass found anything. |
| `Devices.LocateReturnsFirstFound` | main.py:427-429 | The result is the whole of the first pass in which any class is non-empty. Only all-empty passes retry. |
| `Devices.LocateDevices` | main.py:338-434 | The device locator returns the first non-empty pass, searched in the region and at the clamped confidence. |
| `Devices.DeviceTypeKey` | main.py:504-510 | A device type has a button key exactly when it is one of the five offered types. |
| `Devices.DevicePowerKey` | main.py:523-528 | A power has a button key exactly when it is one of the twelve keys of the power table. |
| `Devices.PowerOptions` | main.py:811-816 | A device type is offered power choices exactly when it is one of the five offered types. |
| `Devices.PowerKeyIffOffered` | main.py:523-528 | A power has a button exactly when some offered device type offers it. |
| `Devices.TablesAgree` | main.py:808-816 | A device type has power choices exactly when it has a type button. The offered types are exactly the known ones, and every offered power has a button. |
| `Devices.ResetPower` | main.py:819-820 | A power still offered is kept, otherwise the first offered one is chosen. When nothing is offered, the power is left alone. |
| `Devices.SelectAsWritten` | main.py:500-535 | As written: "not found" exactly when the field search returns False. "Selected" exactly when both searches return a truthy value, a stopped search included. "Invalid" exactly when the field search is truthy and the value is unknown. A stop is never reported. |
| `Devices.StoppedSearchReportsSelected` | main.py:500-517 | As written, a search cut short by the stop flag counts as a click, so a stopped run reports "Device type selected". |
| `Devices.Select` | main.py:500-535 | Corrected selection: "selected" exactly when the field and the value's button were both clicked. "Invalid" exactly when the field was clicked and the value is unknown. A stop is reported as such. |
| `Devices.SelectAgreesWithoutStop` | main.py:502-513 | Without the stop flag the corrected and the as-written selection agree. |
| `Devices.SelectDeviceType` | main.py:500-517 | As written: "selected" exactly when the field search is truthy, the type is one of the five known types and its button search is truthy. "Invalid" exactly when the field search is truthy and the type is unknown. |
| `Devices.SelectDevicePower` | main.py:519-535 | As written: "selected" exactly when the field search is truthy, the power is in the table and its button search is truthy, so some device type offers it. "Invalid" exactly when the field search is truthy and the power is unknown. |
| `Devices.SelectDeviceTypeIntended` | main.py:500-517 | Corrected: "selected" exactly when the field and the known type's button were really clicked. "Stopped" exactly when one of the searches saw the stop flag. |
| `Devices.SelectDevicePowerIntended` | main.py:519-535 | Corrected: "selected" exactly when the field and the known power's button were really clicked. "Stopped" exactly when one of the searches saw the stop flag. |
| `Acs.Cursor.Current` | main.py:323-326 | The current row is None exactly when no data is loaded or the index is at or past the end. Otherwise it is the row at the index. |
| `Acs.AdvanceSpec` | main.py:328-336 | The increment fails and changes nothing when auto-increment is off, no data is loaded or the index is at the end. Otherwise it adds exactly one, and it keeps the index ≤ len(data). |
| `Acs.AdvancedTimesIndex` | main.py:328-336 | k increments move the index to min(index+k, len(data)), or nowhere when auto-increment is off. The index never passes the end. |
| `Acs.WalkVisitsRowsInOrder` | main.py:323-336 | Reading then incrementing visits the rows from the index on, each once and in sheet order. |
| `Acs.ThreeRowScenario` | main.py:323-336 | With three rows, three increments succeed. The current row is then None, and a fourth increment fails. |
| `Acs.AcsAutomation.constructor` | main.py:186-197 | A new automation object has no data, index 0, the stop flag down and auto-increment on. |
| `Acs.AcsAutomation.ImportExcelData` | main.py:310-321 | A successful import replaces the rows and rewinds the index to 0. A failed import changes nothing. |
| `Acs.AcsAutomation.IncrementExcelRowIndex` | main.py:328-336 | The method changes the index and returns its flag exactly as `Cursor.Advanced` specifies. |
| `Acs.AcsAutomation.SetRowIndex` | main.py:1209-1210 | The manual jump sets the index to a row of the sheet. |
| `Acs.FirstRowWith` | main.py:1200-1208 | The search finds the first row in sheet order whose column equals the value, or None when no row does. |
| `Acs.Jumped` | main.py:1209-1212 | The jump keeps the rows and keeps the index within the sheet. |
| `Acs.JumpSpec` | main.py:1197-1216 | "no" jumps to row N−1 when 1 ≤ N ≤ len(data). A value field jumps to the first row holding the value. Zero, blank, non-integer, unknown-trigger and out-of-range inputs leave the cursor where it was. |
| `Scripts.Normalized` | main.py:1390-1395 | Loading keeps names and steps. A script without the 'active' key is active exactly when it is first in its category. |
| `Scripts.LoadSaved` | main.py:1401-1407 | Loading what `save_scripts` wrote gives the same scripts back. |
| `Scripts.NormalizeCategory` | main.py:1391-1395 | The per-category loop computes `Normalized`. |
| `Scripts.LoadScripts` | main.py:1386-1399 | A missing or unreadable file gives the five default categories. Otherwise every category of the file is loaded and normalised. |
| `Scripts.Names` | main.py:1617 | The name list is the scripts' names, in order. |
| `Scripts.FirstActive` | main.py:1414-1416 | The search finds the first script with the active flag, or None when no script has it. |
| `Scripts.ActiveScript` | main.py:1412-1419 | The active script is the first one flagged active, else the first script. It is None exactly for an empty category. |
| `Scripts.WellActivatedActiveScript` | main.py:1412-1419 | In a category with exactly one active script, that script is the one returned, and it is the only one flagged. |
| `Scripts.Activated` | main.py:1656-1658 | After `set_active_script(i)`, script i is flagged and every other script is cleared. Nothing else changes. |
| `Scripts.ActivatedSpec` | main.py:1656-1658 | Afterwards exactly one script is active, and it is the one `get_active_script` returns. |
| `Scripts.Deleted` | main.py:1665-1669 | Deleting removes exactly the script at the index. Every survivor keeps its name, steps and flag, and the first survivor gains the flag exactly when no other script had it. |
| `Scripts.SurvivorsActive` | main.py:1667-1668 | A survivor of the removal is active exactly when some other position of the list was. |
| `Scripts.DeletedSpec` | main.py:1665-1669 | A non-empty category keeps an active script after a delete, and the at-most-one-active invariant holds. |
| `Scripts.EditingFollowsScript` | main.py:1671-1674 | The adjusted editing index still designates the script that was being renamed. |
| `Scripts.WithNewScriptSpec` | main.py:1623-1629 | A new script is active exactly when its category was empty, and creating it keeps the invariant. |
| `Scripts.DefaultScriptsWellActivated` | main.py:1421-1430 | Each default category has exactly one active script. |
| `Scripts.LoadedWithoutFlags` | main.py:1392-1395 | A category stored without flags loads with exactly its first script active. |
| `Scripts.LoadKeepsTwoActive` | main.py:1392-1395 | Loading does not repair two stored active flags. |
| `Scripts.ScriptManager.ScriptsByCategory` | main.py:1409-1410 | A stored category gives its list, and a missing category gives the empty list. |
| `Scripts.ScriptManager.constructor` | main.py:1382-1384 | The store starts as `load_scripts` returns it. |
| `Scripts.ScriptManager.GetActiveScript` | main.py:1412-1419 | The search loop returns `ActiveScript` of the category and changes nothing. |
| `Scripts.ScriptSelector.constructor` | main.py:1514-1521 | No row is being renamed at first. |
| `Scripts.ScriptSelector.CreateNew` | main.py:1614-1635 | A "Kịch bản mới N" script with a fresh N is appended, active exactly when the category was empty. A missing category is created, and the new row is opened for renaming. |
| `Scripts.ScriptSelector.SetActiveScript` | main.py:1656-1660 | The store's category becomes `Activated(list, index)`. |
| `Scripts.ScriptSelector.DeleteScript` | main.py:1665-1675 | When confirmed, the category becomes `Deleted(list, index)` and the editing index is cleared or shifted. When declined, nothing changes. |
| `Scripts.ScriptSelector.SaveName` | main.py:1645-1654 | The stripped name replaces the old one and ends the rename. An empty name changes nothing. |
| `Scripts.Swapped` | main.py:2010 | Two positions are exchanged and every other step stays. |
| `Scripts.SwappedSpec` | main.py:2004-2012 | Moving a block back restores the list, and a move loses or duplicates no step. |
| `Scripts.StepNames` | main.py:1942 | The name list exists exactly when every step has a name. |
| `Scripts.ScriptEditor.constructor` | main.py:1802-1815 | The editor holds a copy of the script's steps, with nothing selected and nothing being renamed. |
| `Scripts.WithCode` | main.py:2101-2103 | With a block selected, that block gets the editor's text as its code and keeps its name. Every other block is unchanged, and with nothing selected nothing changes. |
| `Scripts.WithCodeLatestWins` | main.py:2101-2103 | Of two key releases in the same block, only the later text counts. |
| `Scripts.WithCodeKeepsOtherBlock` | main.py:2101-2103 | Text typed into one block survives selecting and editing another block. |
| `Scripts.ScriptEditor.OnCodeChange` | main.py:2101-2103 | Every key release (bound at main.py:1883) makes the editor's text the selected block's code, as `WithCode` states. |
| `Scripts.ScriptEditor.SelectBlock` | main.py:1989-2002 | The block becomes current, and a rename of another block is cancelled. |
| `Scripts.ScriptEditor.AddBlock` | main.py:1939-1951 | A "Bước mới N" block with a fresh N is appended, selected and opened for renaming. A nameless step makes the name list raise, and then nothing changes. |
| `Scripts.ScriptEditor.MoveBlock` | main.py:2004-2012 | The current block swaps with its neighbour when both exist, and the selection and rename follow. Otherwise nothing changes. |
| `Scripts.ScriptEditor.DeleteBlock` | main.py:1979-1987 | A confirmed delete removes the current block and clears the selection. |
| `Scripts.ScriptEditor.SaveAll` | main.py:2137-2142 | The editor text becomes the current block's code. The edited copy is written at the category and index the editor opened with when that index is still in range; by then it may designate another script. Out of range, nothing is written. |
| `Runner.SeedContext` | main.py:687-695 | The context holds the runner's names and `script_stop=False`, and every extra key overrides them. |
| `Runner.SeedScriptStop` | main.py:687-695 | A run starts with `script_stop` down unless the extra context sets it. |
| `Runner.ExecOpsEffects` | main.py:707-708 | A payload appends exactly its reports before the first raise and advances the cursor once per call. It raises exactly when it contains a raise, with the first raise's message. |
| `Runner.RaisingStep` | main.py:707-715 | A raising step keeps its effects before the raise and appends exactly one error entry naming the step. |
| `Runner.RunReaches` | main.py:697-717 | Steps run in order. A raising step does not end the run, and the run reaches every step not preceded by a raised flag. |
| `Runner.RunEnds` | main.py:697-717 | A stop before step k appends exactly one "stopped by user" entry and ends the run. `script_stop` ends it silently. Otherwise all steps run. |
| `Runner.RunDynamicScript` | main.py:684-722 | The loop computes `RunFrom` and reports how many steps ran and why it ended. |
| `App.ExcelContext` | main.py:625-639 | The context is None exactly when there is no current row. Otherwise it holds the row's three addresses, the index and the row count. |
| `App.UidContext` | main.py:641-651 | The context holds exactly the column's device type and power. |
| `App.UidContextStartsClear` | main.py:641-651 | A "write UID" script starts with `script_stop` down and sees the column's type. Once the column is updated for a known type, the power it sees has a button. |
| `App.ExcelContextStartsClear` | main.py:625-639 | An address script never starts with `script_stop` set, and it gets an index inside the sheet. |
| `App.UpdatedColumnSpec` | main.py:808-832 | After a type change the chosen power is one of the type's choices and has a button. An offered power is kept, and the update is idempotent. |
| `App.InitialColumnUpdated` | main.py:756-802 | The initial column ("AFVarionaut Pump", "60") is unchanged by the update run at start-up. |
| `App.AutoAcsTool.constructor` | main.py:756-802 | No worker runs, the buttons are enabled and both columns are in their initial state. |
| `App.AutoAcsTool.ExecuteCategoryScript` | main.py:653-682 | A launch is refused while a worker is alive, without an active script, or when the context is None. Otherwise the buttons are disabled and the active script's steps start with the context. |
| `App.AutoAcsTool.RunWorker` | main.py:684-730 | The worker's outcome is `RunFrom`, and the cursor is written back. The finaliser always re-enables the buttons and ends the worker. The first stop check reads the flag as it stands, so a flag left up stops a non-empty run before its first step. |
| `App.AutoAcsTool.StopAllAutomation` | main.py:1184-1190 | The hotkey toggles the stop flag. |
| `App.AutoAcsTool.DelayedUpdate` | main.py:1197-1222 | The cursor becomes `Jumped(cursor, trigger, entry)`. |
| `App.AutoAcsTool.UpdateDevicePowerOptionsCol` | main.py:808-832 | Column 1 is updated for `col == 1`, column 2 otherwise, and the other column is untouched. |
| `App.CursorStaysValid` | main.py:697-717 | A run keeps the index within the sheet and changes nothing of the cursor but the index. |

## Left out

- Screen capture, image matching, clicking, typing and window lookup are
  foreign calls. They are the oracles `Screen`, `TitleScreen` and
  `DeviceScreen`, and a click is returned as data.
- `time.sleep` and the wall-clock timeouts are a pass budget (`passes`).
  The model does not say how many passes a timeout allows.
- Threads are left out. The hotkey thread's changes to the stop flag during
  a search or a run are the oracle `stopAt`, read at each check. The worker
  thread is `RunWorker`, called as one step after the launch. `self.after`
  callbacks run inside it.
- `exec` of arbitrary Python is left out. A payload is a list of the
  effects the runner distinguishes. Payload code that reads or writes other
  `acs_auto` fields, calls the search helpers, or deletes `script_stop` is
  not modelled.
- File input and output is treated as opaque. Reading `config.ini`,
  `scripts.json` and the spreadsheet is a parsed value or None. Writing
  (`save_config`, `save_scripts`) has no effect in the model.
- configparser folds option names to lower case. `Config` compares keys
  exactly as given.
- `os.path.join` with the image folder is dropped. Candidates are file
  names, and `fileExists` is asked about the name.
- `Text.Strip` removes ASCII whitespace only. Python's `str.strip()` also
  removes other Unicode whitespace.
- Confidences are `real`. Binary floating-point rounding of `conf * 0.9` is
  not modelled.
- A spreadsheet cell is an integer or something unequal to every integer.
  Text cells equal to an entered number do not occur in the model.
  `int()` parsing of an entry field is the `Entry` value.
- `update_entry_fields`, `update_excel_status`, `set_buttons_state` beyond
  the enabled flag, video players, the title animation, the settings tab's
  widgets, find/replace, syntax highlighting and indentation are UI and are
  left out.
- `start_rename`, `cancel_rename`, `start_block_rename`,
  `cancel_block_rename`, `rename_current_block` and `save_block_name` are
  left out. They only set the editing index or rename a block in the same
  way `ScriptSelector.SaveName` renames a script.
- `type_text`, `press_key`, `drag_slider`, the F7–F10 coordinate clicks and
  the other payload helpers are left out. They are foreign calls.
- Logging is left out. This includes the joined "Kết quả" summary line.
- `Scripts.ScriptEditor.SaveAll`: after a save the source's store holds the
  editor's own script object. Later block adds, moves, deletes and typing
  then reach the in-memory store, and so the runner, without another save.
  The model writes the store only in `SaveAll`, and it keeps no aliasing
  between the editor and the store.
- `Runner.RunDynamicScript`: the outer `except` that logs a system error is
  not modelled, because no modelled effect can raise outside a step's own
  handler.

## Findings

| source | as written | input that shows it | evidently intended | confidence | as-written member | corrected member |
|---|---|---|---|---|---|---|
| main.py:502, 513, 521, 531 | `if not self.find_and_click(...)` treats the truthy "Đã dừng." string, returned when the stop flag is up, as a successful click. | Stop flag up, `device_type="Tricolor Led"`: both searches return "Đã dừng.", nothing is clicked, and the result is "Device type selected: Tricolor Led". | Only a real click moves on, and a stopped search is reported as stopped. | not executed | `Devices.StoppedSearchReportsSelected` | `Devices.Select` |

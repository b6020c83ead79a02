/** Template lookup and the three polling loops of the automation object:
    `_get_image_paths_list`, `find_and_click`, `wait_for_image` and
    `locate_image`.

    The screen is an oracle: `screen(p, path, confidence)` is what the match
    backend reports for template `path` during pass `p` (a miss, a box, or an
    unexpected error). The wall-clock timeout becomes a number of passes, and
    the stop flag, which the hotkey thread flips while a search runs, is seen
    through `stopAt(p)`, its value at the top of pass `p`. */
module Locator {
  import opened Common
  import opened Text
  import opened Config

  const ImagePathsSection := "IMAGE_PATHS"

  /** A configured template name: non-empty, stripped, free of commas. */
  predicate WellFormedName(name: string) {
    name != "" && Stripped(name) && ',' !in name
  }

  /** The stripped, non-empty pieces, in their original order. */
  function KeepStripped(pieces: seq<string>): (names: seq<string>)
    ensures forall k :: 0 <= k < |names| ==> names[k] != "" && Stripped(names[k])
    ensures (forall k :: 0 <= k < |pieces| ==> ',' !in pieces[k]) ==>
              forall k :: 0 <= k < |names| ==> ',' !in names[k]
    ensures |names| <= |pieces|
  {
    if |pieces| == 0 then []
    else
      var s := Strip(pieces[|pieces| - 1]);
      KeepStripped(pieces[..|pieces| - 1]) + (if s != "" then [s] else [])
  }

  /** `m` is a list of positions below `n`, in strictly increasing order. */
  predicate Ascending(m: seq<nat>, n: nat) {
    && (forall k :: 0 <= k < |m| ==> m[k] < n)
    && (forall a, b :: 0 <= a < b < |m| ==> m[a] < m[b])
  }

  /** `names` is the strips of the pieces at positions `m`, and `m` holds
      every piece whose strip is non-empty. */
  predicate PicksStripped(pieces: seq<string>, names: seq<string>, m: seq<nat>) {
    && Ascending(m, |pieces|) && |m| == |names|
    && (forall k :: 0 <= k < |m| ==> names[k] == Strip(pieces[m[k]]))
    && (forall i :: 0 <= i < |pieces| && Strip(pieces[i]) != "" ==> i in m)
  }

  /** The strip of every piece. */
  function Strips(pieces: seq<string>): (r: seq<string>)
    ensures |r| == |pieces| && forall i :: 0 <= i < |pieces| ==> r[i] == Strip(pieces[i])
  {
    seq(|pieces|, i requires 0 <= i < |pieces| => Strip(pieces[i]))
  }

  predicate NonEmpty(s: string) {
    s != ""
  }

  /** Keeping the non-empty strips is filtering the strips by `NonEmpty`. */
  lemma {:induction false} KeepStrippedFiltersStrips(pieces: seq<string>)
    ensures KeepStripped(pieces) == Existing(Strips(pieces), NonEmpty)
    decreases |pieces|
  {
    if |pieces| > 0 {
      var last := |pieces| - 1;
      var init := pieces[..last];
      var strips := Strips(pieces);
      KeepStrippedFiltersStrips(init);
      assert strips[..last] == Strips(init);
      assert strips[last] == Strip(pieces[last]);
      assert Existing(strips, NonEmpty)
          == Existing(strips[..last], NonEmpty) + (if NonEmpty(strips[last]) then [strips[last]] else []);
    }
  }

  /** The filter keeps every piece with a non-empty strip, as its strip, in
      the pieces' order and with repeats kept. */
  lemma KeepStrippedPicks(pieces: seq<string>)
    ensures exists m :: PicksStripped(pieces, KeepStripped(pieces), m)
  {
    var strips := Strips(pieces);
    KeepStrippedFiltersStrips(pieces);
    ExistingPicks(strips, NonEmpty);
    var m :| PicksExisting(strips, KeepStripped(pieces), m, NonEmpty);
    assert PicksStripped(pieces, KeepStripped(pieces), m);
  }

  /** Looking at one more item keeps the output the items at the chosen
      positions. */
  lemma MappingExtends(init: seq<string>, items: seq<string>, out: seq<string>, m: seq<nat>,
                       sel: string -> bool)
    requires |items| == |init| + 1 && init == items[..|init|]
    requires |m| == |out| && forall k :: 0 <= k < |m| ==> m[k] < |init| && out[k] == init[m[k]]
    ensures var out' := out + (if sel(items[|init|]) then [items[|init|]] else []);
            var m' := if sel(items[|init|]) then m + [|init|] else m;
            |m'| == |out'| && forall k :: 0 <= k < |m'| ==> out'[k] == items[m'[k]]
  {
    var out' := out + (if sel(items[|init|]) then [items[|init|]] else []);
    var m' := if sel(items[|init|]) then m + [|init|] else m;
    forall k | 0 <= k < |m'|
      ensures out'[k] == items[m'[k]]
    {
      if k < |m| {
        assert out'[k] == out[k] && m'[k] == m[k] && init[m[k]] == items[m[k]];
      }
    }
  }

  /** The positions of the items `sel` accepts stay covered when one more
      item is looked at. */
  lemma CoverageExtends(init: seq<string>, items: seq<string>, m: seq<nat>, sel: string -> bool)
    requires |items| == |init| + 1 && init == items[..|init|]
    requires forall i :: 0 <= i < |init| && sel(init[i]) ==> i in m
    ensures forall i :: 0 <= i < |items| && sel(items[i]) ==>
              i in (if sel(items[|init|]) then m + [|init|] else m)
  {
    forall i | 0 <= i < |items| && sel(items[i])
      ensures i in (if sel(items[|init|]) then m + [|init|] else m)
    {
      if i < |init| {
        assert items[i] == init[i];
      }
    }
  }

  /** Appending a larger position (or nothing) keeps a list ascending. */
  lemma AscendingAppend(m: seq<nat>, last: nat, add: bool)
    requires Ascending(m, last)
    ensures Ascending(if add then m + [last] else m, last + 1)
  {
  }

  /** `[f.strip() for f in raw.split(',') if f.strip()]` */
  function ConfiguredNames(raw: string): (names: seq<string>)
    ensures forall k :: 0 <= k < |names| ==> WellFormedName(names[k])
  {
    KeepStripped(Split(raw, ','))
  }

  lemma {:induction false} KeepStrippedIdentity(names: seq<string>)
    requires forall k :: 0 <= k < |names| ==> WellFormedName(names[k])
    ensures KeepStripped(names) == names
    decreases |names|
  {
    if |names| > 0 {
      KeepStrippedIdentity(names[..|names| - 1]);
      assert names[..|names| - 1] + [names[|names| - 1]] == names;
    }
  }

  /** What the settings tab writes (`",".join(images)`) reads back as the
      same list of names, in the same order. */
  lemma ConfiguredNamesOfJoin(names: seq<string>)
    requires forall k :: 0 <= k < |names| ==> WellFormedName(names[k])
    ensures ConfiguredNames(Join(names, ',')) == names
  {
    if |names| == 0 {
      assert Join(names, ',') == "";
      ConfiguredNamesOfEmpty();
    } else {
      SplitJoin(names, ',');
      assert Split(Join(names, ','), ',') == names;
      KeepStrippedIdentity(names);
    }
  }

  lemma ConfiguredNamesOfEmpty()
    ensures ConfiguredNames("") == []
  {
    assert Split("", ',') == [""];
    assert Strip("") == "";
    assert KeepStripped([""]) == KeepStripped([]) + [];
  }

  /** The names whose file exists, in their original order. */
  function Existing(names: seq<string>, fileExists: string -> bool): (paths: seq<string>)
    ensures |paths| <= |names|
    ensures forall k :: 0 <= k < |paths| ==> fileExists(paths[k])
    ensures forall x :: x in paths <==> x in names && fileExists(x)
    decreases |names|
  {
    if |names| == 0 then []
    else
      var last := names[|names| - 1];
      Existing(names[..|names| - 1], fileExists) + (if fileExists(last) then [last] else [])
  }

  /** `paths` is the names at positions `m`, and `m` holds every name whose
      file exists. */
  predicate PicksExisting(names: seq<string>, paths: seq<string>, m: seq<nat>, fileExists: string -> bool) {
    && Ascending(m, |names|) && |m| == |paths|
    && (forall k :: 0 <= k < |m| ==> paths[k] == names[m[k]])
    && (forall i :: 0 <= i < |names| && fileExists(names[i]) ==> i in m)
  }

  /** The filter keeps every name whose file exists, in the names' order
      and with repeats kept. */
  lemma {:induction false} ExistingPicks(names: seq<string>, fileExists: string -> bool)
    ensures exists m :: PicksExisting(names, Existing(names, fileExists), m, fileExists)
    decreases |names|
  {
    if |names| == 0 {
      assert Existing(names, fileExists) == [];
      assert PicksExisting(names, [], [], fileExists);
    } else {
      var last := |names| - 1;
      var init := names[..last];
      ExistingPicks(init, fileExists);
      var m' :| PicksExisting(init, Existing(init, fileExists), m', fileExists);
      var prev, paths := Existing(init, fileExists), Existing(names, fileExists);
      var keep := fileExists(names[last]);
      var m := if keep then m' + [last] else m';
      AscendingAppend(m', last, keep);
      assert paths == prev + (if keep then [names[last]] else []);
      MappingExtends(init, names, prev, m', fileExists);
      CoverageExtends(init, names, m', fileExists);
      assert PicksExisting(names, paths, m, fileExists);
    }
  }

  /** When every file exists nothing is dropped and the order is kept. */
  lemma {:induction false} ExistingKeepsAll(names: seq<string>, fileExists: string -> bool)
    requires forall k :: 0 <= k < |names| ==> fileExists(names[k])
    ensures Existing(names, fileExists) == names
    decreases |names|
  {
    if |names| > 0 {
      ExistingKeepsAll(names[..|names| - 1], fileExists);
      assert names[..|names| - 1] + [names[|names| - 1]] == names;
    }
  }

  /** The candidate list of a template key: empty when the key has no
      (or an empty) configured value, else the existing configured names. */
  function CandidatePaths(sections: Sections, key: string, fileExists: string -> bool): seq<string> {
    match Lookup(sections, ImagePathsSection, key, None)
    case None => []
    case Some(raw) => RawCandidates(raw, fileExists)
  }

  /** The candidate list of a configured value. */
  function RawCandidates(raw: string, fileExists: string -> bool): seq<string> {
    if raw == "" then [] else Existing(ConfiguredNames(raw), fileExists)
  }

  /** Filtering twice is filtering once by both tests. */
  lemma {:induction false} ExistingTwice(xs: seq<string>, s1: string -> bool, s2: string -> bool, both: string -> bool)
    requires forall x :: both(x) == (s1(x) && s2(x))
    ensures Existing(Existing(xs, s1), s2) == Existing(xs, both)
    decreases |xs|
  {
    if |xs| > 0 {
      var init := xs[..|xs| - 1];
      ExistingTwice(init, s1, s2, both);
      var inner := Existing(xs, s1);
      if s1(xs[|xs| - 1]) {
        assert inner[..|inner| - 1] == Existing(init, s1);
      } else {
        assert inner == Existing(init, s1);
      }
    }
  }

  /** `paths` is the strips of the pieces at positions `m`, and `m` holds
      every piece whose strip is non-empty and names an existing file. */
  predicate PicksCandidates(pieces: seq<string>, paths: seq<string>, m: seq<nat>, fileExists: string -> bool) {
    && Ascending(m, |pieces|) && |m| == |paths|
    && (forall k :: 0 <= k < |m| ==> paths[k] == Strip(pieces[m[k]]))
    && (forall i :: 0 <= i < |pieces| && Strip(pieces[i]) != "" && fileExists(Strip(pieces[i])) ==> i in m)
  }

  /** The candidate list of a key: nothing when the key is missing;
      otherwise every comma-separated piece whose strip is non-empty and
      names an existing file, as its strip, in configured order, repeats
      kept. */
  lemma CandidatePathsPicks(sections: Sections, key: string, fileExists: string -> bool)
    ensures Lookup(sections, ImagePathsSection, key, None).None? ==> CandidatePaths(sections, key, fileExists) == []
    ensures Lookup(sections, ImagePathsSection, key, None).Some? ==>
              exists m :: PicksCandidates(Split(Lookup(sections, ImagePathsSection, key, None).value, ','),
                                          CandidatePaths(sections, key, fileExists), m, fileExists)
  {
    var got := Lookup(sections, ImagePathsSection, key, None);
    var paths := CandidatePaths(sections, key, fileExists);
    if got.Some? {
      var raw := got.value;
      RawCandidatesPicks(raw, fileExists);
      var m :| PicksCandidates(Split(raw, ','), RawCandidates(raw, fileExists), m, fileExists);
      assert paths == RawCandidates(raw, fileExists);
      assert PicksCandidates(Split(raw, ','), paths, m, fileExists);
    }
  }

  lemma RawCandidatesPicks(raw: string, fileExists: string -> bool)
    ensures exists m :: PicksCandidates(Split(raw, ','), RawCandidates(raw, fileExists), m, fileExists)
  {
    var paths := RawCandidates(raw, fileExists);
    if raw == "" {
      EmptyRawPicks(fileExists);
      assert paths == [];
      assert PicksCandidates(Split(raw, ','), paths, [], fileExists);
    } else {
      ConfiguredCandidatesPicks(raw, fileExists);
      var m :| PicksCandidates(Split(raw, ','), Existing(ConfiguredNames(raw), fileExists), m, fileExists);
      assert paths == Existing(ConfiguredNames(raw), fileExists);
      assert PicksCandidates(Split(raw, ','), paths, m, fileExists);
    }
  }

  lemma EmptyRawPicks(fileExists: string -> bool)
    ensures PicksCandidates(Split("", ','), [], [], fileExists)
  {
    assert Split("", ',') == [""];
    assert Strip("") == "";
  }

  lemma ConfiguredCandidatesPicks(raw: string, fileExists: string -> bool)
    ensures exists m :: PicksCandidates(Split(raw, ','), Existing(ConfiguredNames(raw), fileExists), m, fileExists)
  {
    var pieces := Split(raw, ',');
    var strips := Strips(pieces);
    KeepStrippedFiltersStrips(pieces);
    var both := x => NonEmpty(x) && fileExists(x);
    ExistingTwice(strips, NonEmpty, fileExists, both);
    ExistingPicks(strips, both);
    var m :| PicksExisting(strips, Existing(strips, both), m, both);
    FromStrips(pieces, Existing(strips, both), m, fileExists);
    assert ConfiguredNames(raw) == Existing(strips, NonEmpty);
    assert Existing(ConfiguredNames(raw), fileExists) == Existing(strips, both);
  }

  lemma FromStrips(pieces: seq<string>, paths: seq<string>, m: seq<nat>, fileExists: string -> bool)
    requires Ascending(m, |pieces|) && |m| == |paths|
    requires forall k :: 0 <= k < |m| ==> paths[k] == Strips(pieces)[m[k]]
    requires forall i :: 0 <= i < |pieces| && NonEmpty(Strips(pieces)[i]) && fileExists(Strips(pieces)[i]) ==> i in m
    ensures PicksCandidates(pieces, paths, m, fileExists)
  {
  }

  /** `_get_image_paths_list(key)`: the existence filter is a loop over the
      configured names. */
  method ImagePathsList(config: ConfigManager, key: string, fileExists: string -> bool) returns (paths: seq<string>)
    ensures paths == CandidatePaths(config.sections, key, fileExists)
    ensures forall k :: 0 <= k < |paths| ==> WellFormedName(paths[k]) && fileExists(paths[k])
  {
    var raw := config.Get(ImagePathsSection, key, None);
    if raw.None? || raw.value == "" {
      return [];
    }
    var names := ConfiguredNames(raw.value);
    paths := [];
    var i := 0;
    while i < |names|
      invariant 0 <= i <= |names|
      invariant paths == Existing(names[..i], fileExists)
    {
      assert names[..i + 1][..i] == names[..i];
      if fileExists(names[i]) {
        paths := paths + [names[i]];
      }
      i := i + 1;
    }
    assert names[..|names|] == names;
  }

  // ---------------------------------------------------------------- polling

  datatype Probe = Miss | Hit(box: Rect) | Fault

  /** pass, template path, confidence -> what the match backend reports. */
  type Screen = (nat, string, real) -> Probe

  /** The oracles a search runs against. */
  datatype World = World(fileExists: string -> bool, stopAt: nat -> bool, screen: Screen)

  /** `confidence_override if confidence_override is not None else self.confidence` */
  function EffectiveConfidence(override: Option<real>, configured: real): (c: real)
    ensures override.Some? ==> c == override.value
    ensures override.None? ==> c == configured
  {
    if override.Some? then override.value else configured
  }

  /** No candidate is found in pass `p` (errors allowed). */
  predicate NoHit(screen: Screen, p: nat, cands: seq<string>, conf: real) {
    forall j :: 0 <= j < |cands| ==> !screen(p, cands[j], conf).Hit?
  }

  /** Every candidate is a plain miss in pass `p` (no hit, no error). */
  predicate AllMiss(screen: Screen, p: nat, cands: seq<string>, conf: real) {
    forall j :: 0 <= j < |cands| ==> screen(p, cands[j], conf) == Miss
  }

  /** Passes before `n` saw neither the stop flag nor a hit. */
  predicate QuietUntil(n: nat, cands: seq<string>, conf: real, w: World) {
    forall p :: 0 <= p < n ==> !w.stopAt(p) && NoHit(w.screen, p, cands, conf)
  }

  /** Passes before `n` saw neither the stop flag nor anything but misses. */
  predicate CleanUntil(n: nat, cands: seq<string>, conf: real, w: World) {
    forall p :: 0 <= p < n ==> !w.stopAt(p) && AllMiss(w.screen, p, cands, conf)
  }

  datatype Click = Click(at: Point, button: string) | DoubleClick(at: Point)

  /** True / "stopped" / False of `find_and_click`, with what was clicked. */
  datatype ClickResult = Clicked(pass: nat, index: nat, action: Click) | ClickStopped(pass: nat) | ClickNotFound

  function ClickOn(box: Rect, button: string, doubleClick: bool): Click {
    if doubleClick then DoubleClick(Center(box)) else Click(Center(box), button)
  }

  /** The outcome of `find_and_click`: no candidates means False at once;
      otherwise the first pass that sees the stop flag or a hit decides, and
      within a pass the first candidate in list order that hits is clicked
      (errors on earlier candidates are skipped). */
  predicate FindAndClickSpec(cands: seq<string>, passes: nat, conf: real, button: string,
                             doubleClick: bool, w: World, r: ClickResult)
  {
    match r
    case ClickNotFound =>
      cands == [] || QuietUntil(passes, cands, conf, w)
    case ClickStopped(p) =>
      cands != [] && p < passes && w.stopAt(p) && QuietUntil(p, cands, conf, w)
    case Clicked(p, i, action) =>
      && cands != [] && p < passes && i < |cands|
      && !w.stopAt(p) && QuietUntil(p, cands, conf, w)
      && (forall j :: 0 <= j < i ==> !w.screen(p, cands[j], conf).Hit?)
      && w.screen(p, cands[i], conf).Hit?
      && action == ClickOn(w.screen(p, cands[i], conf).box, button, doubleClick)
  }

  /** `find_and_click(key, timeout, button, double_click, confidence_override)` */
  method FindAndClick(config: ConfigManager, key: string, passes: nat, button: string, doubleClick: bool,
                      override: Option<real>, configured: real, w: World)
    returns (r: ClickResult)
    ensures FindAndClickSpec(CandidatePaths(config.sections, key, w.fileExists), passes,
                             EffectiveConfidence(override, configured), button, doubleClick, w, r)
  {
    var cands := ImagePathsList(config, key, w.fileExists);
    if cands == [] {
      return ClickNotFound;
    }
    var conf := EffectiveConfidence(override, configured);
    var p := 0;
    while p < passes
      invariant p <= passes
      invariant QuietUntil(p, cands, conf, w)
    {
      if w.stopAt(p) {
        return ClickStopped(p);
      }
      var hit := FirstHit(w.screen, p, cands, conf);
      if hit.Some? {
        return Clicked(p, hit.value, ClickOn(w.screen(p, cands[hit.value], conf).box, button, doubleClick));
      }
      assert QuietUntil(p + 1, cands, conf, w);
      p := p + 1;
    }
    r := ClickNotFound;
  }

  /** One pass of `find_and_click`: the first candidate, in list order, that
      the backend reports found; an error on a candidate only skips it. */
  method FirstHit(screen: Screen, p: nat, cands: seq<string>, conf: real) returns (hit: Option<nat>)
    ensures hit.Some? ==> hit.value < |cands| && screen(p, cands[hit.value], conf).Hit?
    ensures hit.Some? ==> forall j :: 0 <= j < hit.value ==> !screen(p, cands[j], conf).Hit?
    ensures hit.None? <==> NoHit(screen, p, cands, conf)
  {
    var i := 0;
    while i < |cands|
      invariant i <= |cands|
      invariant forall j :: 0 <= j < i ==> !screen(p, cands[j], conf).Hit?
    {
      if screen(p, cands[i], conf).Hit? {
        return Some(i);
      }
      i := i + 1;
    }
    return None;
  }

  /** The specification leaves exactly one possible outcome. */
  lemma FindAndClickSpecUnique(cands: seq<string>, passes: nat, conf: real, button: string,
                               doubleClick: bool, w: World, r1: ClickResult, r2: ClickResult)
    requires FindAndClickSpec(cands, passes, conf, button, doubleClick, w, r1)
    requires FindAndClickSpec(cands, passes, conf, button, doubleClick, w, r2)
    ensures r1 == r2
  {
    if r1 != r2 {
      assert false;
    }
  }

  /** True / "stopped" / False (not found) / False (error) of `wait_for_image`. */
  datatype WaitResult = Seen(pass: nat, index: nat) | WaitStopped(pass: nat) | WaitFailed(pass: nat, index: nat) | NotSeen

  /** The outcome of `wait_for_image`: like `find_and_click`, except that an
      unexpected error ends the call with failure at once. */
  predicate WaitForImageSpec(cands: seq<string>, passes: nat, conf: real, w: World, r: WaitResult) {
    match r
    case NotSeen =>
      cands == [] || CleanUntil(passes, cands, conf, w)
    case WaitStopped(p) =>
      cands != [] && p < passes && w.stopAt(p) && CleanUntil(p, cands, conf, w)
    case Seen(p, i) =>
      && cands != [] && p < passes && i < |cands|
      && !w.stopAt(p) && CleanUntil(p, cands, conf, w)
      && (forall j :: 0 <= j < i ==> w.screen(p, cands[j], conf) == Miss)
      && w.screen(p, cands[i], conf).Hit?
    case WaitFailed(p, i) =>
      && cands != [] && p < passes && i < |cands|
      && !w.stopAt(p) && CleanUntil(p, cands, conf, w)
      && (forall j :: 0 <= j < i ==> w.screen(p, cands[j], conf) == Miss)
      && w.screen(p, cands[i], conf) == Fault
  }

  /** `wait_for_image(key, timeout, confidence_override)` (and `find`, which
      only forwards to it). */
  method WaitForImage(config: ConfigManager, key: string, passes: nat, override: Option<real>,
                      configured: real, w: World)
    returns (r: WaitResult)
    ensures WaitForImageSpec(CandidatePaths(config.sections, key, w.fileExists), passes,
                             EffectiveConfidence(override, configured), w, r)
  {
    var cands := ImagePathsList(config, key, w.fileExists);
    if cands == [] {
      return NotSeen;
    }
    var conf := EffectiveConfidence(override, configured);
    var p := 0;
    while p < passes
      invariant p <= passes
      invariant CleanUntil(p, cands, conf, w)
    {
      if w.stopAt(p) {
        return WaitStopped(p);
      }
      var i := FirstNonMiss(w.screen, p, cands, conf);
      if i < |cands| {
        if w.screen(p, cands[i], conf).Hit? {
          return Seen(p, i);
        }
        return WaitFailed(p, i);
      }
      assert CleanUntil(p + 1, cands, conf, w);
      p := p + 1;
    }
    r := NotSeen;
  }

  /** One pass of `wait_for_image` or `locate_image`: the position of the
      first candidate the backend reports anything but a miss for, or the
      length of the list when every candidate is a miss. */
  method FirstNonMiss(screen: Screen, p: nat, cands: seq<string>, conf: real) returns (i: nat)
    ensures i <= |cands|
    ensures forall j :: 0 <= j < i ==> screen(p, cands[j], conf) == Miss
    ensures i < |cands| ==> screen(p, cands[i], conf) != Miss
    ensures i == |cands| <==> AllMiss(screen, p, cands, conf)
  {
    i := 0;
    while i < |cands|
      invariant i <= |cands|
      invariant forall j :: 0 <= j < i ==> screen(p, cands[j], conf) == Miss
    {
      if screen(p, cands[i], conf) != Miss {
        return i;
      }
      i := i + 1;
    }
  }

  /** The box of `locate_image`, or None after the timeout or an error. */
  datatype LocateResult = Located(pass: nat, index: nat, box: Rect) | LocateFailed(pass: nat, index: nat) | NotLocated

  /** Passes before `n` saw nothing but misses. */
  predicate MissUntil(n: nat, paths: seq<string>, conf: real, screen: Screen) {
    forall p :: 0 <= p < n ==> AllMiss(screen, p, paths, conf)
  }

  /** The outcome of `locate_image`: the same error policy as
      `wait_for_image`, but no stop check and no early return on an empty
      list (an empty list simply finds nothing in every pass). */
  predicate LocateImageSpec(paths: seq<string>, passes: nat, conf: real, screen: Screen, r: LocateResult) {
    match r
    case NotLocated =>
      MissUntil(passes, paths, conf, screen)
    case Located(p, i, box) =>
      && p < passes && i < |paths| && MissUntil(p, paths, conf, screen)
      && (forall j :: 0 <= j < i ==> screen(p, paths[j], conf) == Miss)
      && screen(p, paths[i], conf) == Hit(box)
    case LocateFailed(p, i) =>
      && p < passes && i < |paths| && MissUntil(p, paths, conf, screen)
      && (forall j :: 0 <= j < i ==> screen(p, paths[j], conf) == Miss)
      && screen(p, paths[i], conf) == Fault
  }

  /** `locate_image(image_paths, confidence_override, timeout)` */
  method LocateImage(paths: seq<string>, override: Option<real>, configured: real, passes: nat, screen: Screen)
    returns (r: LocateResult)
    ensures LocateImageSpec(paths, passes, EffectiveConfidence(override, configured), screen, r)
  {
    var conf := EffectiveConfidence(override, configured);
    var p := 0;
    while p < passes
      invariant p <= passes
      invariant MissUntil(p, paths, conf, screen)
    {
      var i := FirstNonMiss(screen, p, paths, conf);
      if i < |paths| {
        var probe := screen(p, paths[i], conf);
        if probe.Hit? {
          return Located(p, i, probe.box);
        }
        return LocateFailed(p, i);
      }
      assert MissUntil(p + 1, paths, conf, screen);
      p := p + 1;
    }
    r := NotLocated;
  }

  /** Where the backend never errs, `wait_for_image` sees exactly the
      candidate `find_and_click` would click: the two differ only in what
      an unexpected error does. */
  lemma PoliciesAgreeWithoutFaults(cands: seq<string>, passes: nat, conf: real, button: string,
                                   doubleClick: bool, w: World, c: ClickResult, r: WaitResult)
    requires forall p, path :: w.screen(p, path, conf) != Fault
    requires FindAndClickSpec(cands, passes, conf, button, doubleClick, w, c)
    requires WaitForImageSpec(cands, passes, conf, w, r)
    ensures c.Clicked? <==> r.Seen?
    ensures c.Clicked? ==> r == Seen(c.pass, c.index)
    ensures c.ClickStopped? <==> r.WaitStopped?
    ensures !r.WaitFailed?
  {
    assert forall p :: NoHit(w.screen, p, cands, conf) <==> AllMiss(w.screen, p, cands, conf) by {
      forall p ensures NoHit(w.screen, p, cands, conf) <==> AllMiss(w.screen, p, cands, conf) {
        if NoHit(w.screen, p, cands, conf) {
          forall j | 0 <= j < |cands| ensures w.screen(p, cands[j], conf) == Miss {
            assert w.screen(p, cands[j], conf) != Fault;
          }
        }
      }
    }
    var c' := match r
      case Seen(p, i) => Clicked(p, i, ClickOn(w.screen(p, cands[i], conf).box, button, doubleClick))
      case WaitStopped(p) => ClickStopped(p)
      case _ => ClickNotFound;
    if r.Seen? {
      forall j | 0 <= j < r.index ensures !w.screen(r.pass, cands[j], conf).Hit? {
        assert w.screen(r.pass, cands[j], conf) == Miss;
      }
    }
    assert FindAndClickSpec(cands, passes, conf, button, doubleClick, w, c');
    FindAndClickSpecUnique(cands, passes, conf, button, doubleClick, w, c, c');
  }

  /** An error on the first candidate and a hit on the second in the first
      pass: `find_and_click` clicks the second, `wait_for_image` fails. */
  lemma FaultPolicyDiffers(a: string, b: string, box: Rect, button: string, w: World, c: ClickResult, r: WaitResult)
    requires a != b
    requires !w.stopAt(0)
    requires w.screen(0, a, 0.9) == Fault && w.screen(0, b, 0.9) == Hit(box)
    requires FindAndClickSpec([a, b], 1, 0.9, button, false, w, c)
    requires WaitForImageSpec([a, b], 1, 0.9, w, r)
    ensures c == Clicked(0, 1, Click(Center(box), button))
    ensures r == WaitFailed(0, 0)
  {
    var cands := [a, b];
    assert !NoHit(w.screen, 0, cands, 0.9) by { assert w.screen(0, cands[1], 0.9).Hit?; }
    assert !AllMiss(w.screen, 0, cands, 0.9) by { assert w.screen(0, cands[0], 0.9) == Fault; }
    assert cands[0] == a && cands[1] == b;
  }

  /** Candidates [a, b, c] of which only c is on screen: the first pass
      already returns c's box. */
  lemma OnlyLastCandidateOnScreen(a: string, b: string, c: string, box: Rect, passes: nat,
                                  conf: real, screen: Screen, r: LocateResult)
    requires passes >= 1
    requires screen(0, a, conf) == Miss && screen(0, b, conf) == Miss && screen(0, c, conf) == Hit(box)
    requires LocateImageSpec([a, b, c], passes, conf, screen, r)
    ensures r == Located(0, 2, box)
  {
    var paths := [a, b, c];
    assert paths[0] == a && paths[1] == b && paths[2] == c;
    assert !AllMiss(screen, 0, paths, conf) by { assert screen(0, paths[2], conf) != Miss; }
  }
}

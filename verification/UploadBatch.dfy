/** The all-or-nothing batch upload: staging, commit, and the undo of a commit that fails.

    Paths are component sequences below the upload directory, which is the empty path.  Steps that
    go forward may fail for any reason; steps that undo fail only for reasons visible in the tree. */
module UploadBatch {

  import opened Wrappers

  type Path = seq<string>

  datatype Node = Dir | File(content: string)

  /** The visible tree and the trash entries by stored name. */
  datatype State = State(files: map<Path, Node>, trash: map<string, string>)

  datatype Input = Input(name: Path, content: string, maxBytes: nat, storedName: string)

  datatype Result = Result(path: Path, trashed: Option<string>, created: seq<Path>)

  /** A state after undoing, and whether every undo step succeeded. */
  datatype Undone = Undone(state: State, clean: bool)

  function Parent(path: Path): Path
    requires path != []
  {
    path[..|path| - 1]
  }

  predicate IsDir(files: map<Path, Node>, path: Path) {
    path in files && files[path] == Dir
  }

  ghost predicate Rooted(files: map<Path, Node>) {
    IsDir(files, []) && forall path | path in files && path != [] :: IsDir(files, Parent(path))
  }

  // ---------------------------------------------------------------- undo steps as functions

  /** `os.Remove`: a missing entry counts as removed, a directory must be empty. */
  function Removed(state: State, path: Path): Undone {
    if path !in state.files then Undone(state, true)
    else if path == [] || exists other | other in state.files :: other != [] && Parent(other) == path
    then Undone(state, false)
    else Undone(state.(files := state.files - {path}), true)
  }

  /** `RestoreFromTrash`. */
  function Restored(state: State, storedName: string, path: Path): Undone {
    if storedName !in state.trash || path == [] || !IsDir(state.files, Parent(path)) || path in state.files
    then Undone(state, false)
    else Undone(State(state.files[path := File(state.trash[storedName])], state.trash - {storedName}), true)
  }

  function RemovedAll(state: State, created: seq<Path>): Undone
    decreases |created|
  {
    if created == [] then Undone(state, true)
    else
      var last := Removed(state, created[|created| - 1]);
      var rest := RemovedAll(last.state, created[..|created| - 1]);
      Undone(rest.state, last.clean && rest.clean)
  }

  function UndoneResult(state: State, result: Result): Undone {
    var removed := Removed(state, result.path);
    if !removed.clean then removed
    else
      var restored :=
        if result.trashed.Some? then Restored(removed.state, result.trashed.value, result.path) else removed;
      var cleared := RemovedAll(restored.state, result.created);
      Undone(cleared.state, restored.clean && cleared.clean)
  }

  function UndoneBatch(state: State, results: seq<Result>): Undone
    decreases |results|
  {
    if results == [] then Undone(state, true)
    else
      var last := UndoneResult(state, results[|results| - 1]);
      var rest := UndoneBatch(last.state, results[..|results| - 1]);
      Undone(rest.state, last.clean && rest.clean)
  }

  // ---------------------------------------------------------------- each step has an exact inverse

  lemma RemoveUndoesAdd(state: State, path: Path, node: Node)
    requires Rooted(state.files) && path !in state.files && path != []
    ensures Removed(state.(files := state.files[path := node]), path) == Undone(state, true)
  {
    var added := state.files[path := node];
    forall other | other in added && other != [] ensures Parent(other) != path {
      assert |Parent(other)| < |other|;
    }
    assert added - {path} == state.files;
  }

  lemma RestoreUndoesTrash(state: State, path: Path, storedName: string)
    requires Rooted(state.files) && path in state.files && state.files[path].File? && path != [] &&
             storedName !in state.trash
    ensures var moved := State(state.files - {path}, state.trash[storedName := state.files[path].content]);
            Restored(moved, storedName, path) == Undone(state, true)
  {
    var moved := State(state.files - {path}, state.trash[storedName := state.files[path].content]);
    assert Parent(path) != path;
    assert moved.files[path := state.files[path]] == state.files;
    assert moved.trash - {storedName} == state.trash;
  }

  lemma RemovedAllSnoc(state: State, created: seq<Path>, last: Path)
    ensures var first := Removed(state, last);
            var rest := RemovedAll(first.state, created);
            RemovedAll(state, created + [last]) == Undone(rest.state, first.clean && rest.clean)
  {
    assert (created + [last])[..|created|] == created;
  }

  lemma UndoneBatchSnoc(state: State, results: seq<Result>, last: Result)
    ensures var first := UndoneResult(state, last);
            var rest := UndoneBatch(first.state, results);
            UndoneBatch(state, results + [last]) == Undone(rest.state, first.clean && rest.clean)
  {
    assert (results + [last])[..|results|] == results;
  }

  // ---------------------------------------------------------------- what a batch does to the tree

  predicate Distinct(inputs: seq<Input>) {
    forall i, j | 0 <= i < j < |inputs| :: inputs[i].name != inputs[j].name
  }

  predicate IsTarget(inputs: seq<Input>, path: Path) {
    exists i | 0 <= i < |inputs| :: inputs[i].name == path
  }

  predicate AboveTarget(inputs: seq<Input>, path: Path) {
    exists i | 0 <= i < |inputs| :: path < inputs[i].name
  }

  ghost predicate TrashedAs(before: State, inputs: seq<Input>, name: string) {
    exists i | 0 <= i < |inputs| :: inputs[i].name in before.files && inputs[i].storedName == name
  }

  ghost predicate ContentsInPlace(inputs: seq<Input>, after: State) {
    forall i | 0 <= i < |inputs| ::
        inputs[i].name in after.files && after.files[inputs[i].name] == File(inputs[i].content)
  }

  ghost predicate OthersUntouched(before: State, inputs: seq<Input>, after: State) {
    && (forall path | path in before.files && !IsTarget(inputs, path) ::
          path in after.files && after.files[path] == before.files[path])
    && (forall path | path in after.files && path !in before.files && !IsTarget(inputs, path) ::
          after.files[path] == Dir && AboveTarget(inputs, path))
  }

  ghost predicate TrashNames(before: State, inputs: seq<Input>, after: State) {
    forall name :: name in after.trash <==> name in before.trash || TrashedAs(before, inputs, name)
  }

  ghost predicate ReplacedInTrash(before: State, inputs: seq<Input>, after: State) {
    && (forall name | name in before.trash && name in after.trash :: after.trash[name] == before.trash[name])
    && (forall i | 0 <= i < |inputs| && inputs[i].name in before.files ::
          before.files[inputs[i].name].File? && inputs[i].storedName in after.trash &&
          after.trash[inputs[i].storedName] == before.files[inputs[i].name].content)
  }

  /** The tree after the given inputs were committed: their contents at their names, new directories
      above them, everything else as before, and the replaced contents in the trash. */
  ghost predicate Uploaded(before: State, inputs: seq<Input>, after: State) {
    ContentsInPlace(inputs, after) && OthersUntouched(before, inputs, after) &&
    TrashNames(before, inputs, after) && ReplacedInTrash(before, inputs, after)
  }

  /** The state that the commit of one input makes of a tree whose directories are prepared. */
  function Committed(prepared: State, input: Input, replacing: bool): State
    requires replacing ==> input.name in prepared.files && prepared.files[input.name].File?
  {
    State(prepared.files[input.name := File(input.content)],
          if replacing then prepared.trash[input.storedName := prepared.files[input.name].content] else prepared.trash)
  }

  ghost predicate Prepared(before: State, prepared: State, target: Path) {
    && prepared.trash == before.trash
    && (forall path | path in prepared.files ::
        path in before.files || (prepared.files[path] == Dir && path <= target && path != []))
    && (forall path | path in before.files :: path in prepared.files && prepared.files[path] == before.files[path])
  }

  /** The first `depth` directories of the path exist, and removing those created restores the start. */
  ghost predicate Making(start: State, now: State, target: Path, depth: nat, created: seq<Path>)
    requires depth <= |target|
  {
    && IsDir(now.files, target[..depth]) && Prepared(start, now, target)
    && RemovedAll(now, created) == Undone(start, true)
  }

  lemma CommitUploads(before: State, prepared: State, input: Input, replacing: bool)
    requires input.name != [] && Prepared(before, prepared, Parent(input.name))
    requires replacing <==> input.name in before.files
    requires replacing ==> before.files[input.name].File? && input.storedName !in before.trash
    ensures Uploaded(before, [input], Committed(prepared, input, replacing))
  {
    var after := Committed(prepared, input, replacing);
    assert forall path :: IsTarget([input], path) <==> path == input.name by {
      assert [input][0] == input;
    }
    assert forall path :: AboveTarget([input], path) <==> path < input.name by {
      assert [input][0] == input;
    }
    assert forall name :: TrashedAs(before, [input], name) <==> replacing && name == input.storedName by {
      assert [input][0] == input;
    }
    assert OthersUntouched(before, [input], after);
  }

  lemma CommitUndone(before: State, prepared: State, input: Input, replacing: bool, created: seq<Path>)
    requires input.name != [] && Rooted(prepared.files) && RemovedAll(prepared, created) == Undone(before, true)
    requires replacing <==> input.name in prepared.files
    requires replacing ==> prepared.files[input.name].File? && input.storedName !in prepared.trash
    ensures var result := Result(input.name, if replacing then Some(input.storedName) else None, created);
            UndoneResult(Committed(prepared, input, replacing), result) == Undone(before, true)
  {
    var after := Committed(prepared, input, replacing);
    if replacing {
      RestoreUndoesTrash(prepared, input.name, input.storedName);
      var vacant := State(prepared.files - {input.name}, after.trash);
      LeafRemovalKeepsRooted(prepared.files, input.name);
      RemoveUndoesAdd(vacant, input.name, File(input.content));
      assert vacant.files[input.name := File(input.content)] == after.files;
    } else {
      RemoveUndoesAdd(prepared, input.name, File(input.content));
    }
  }

  lemma LeafRemovalKeepsRooted(files: map<Path, Node>, path: Path)
    requires Rooted(files) && path in files && files[path].File?
    ensures path != [] && Rooted(files - {path})
  {
    assert IsDir(files, []);
    forall other | other in files - {path} && other != [] ensures IsDir(files - {path}, Parent(other)) {
      assert IsDir(files, Parent(other));
    }
  }

  lemma ShorterInputs(start: State, inputs: seq<Input>, i: nat)
    requires i < |inputs|
    ensures forall path :: IsTarget(inputs[..i + 1], path) <==> IsTarget(inputs[..i], path) || path == inputs[i].name
    ensures forall path :: AboveTarget(inputs[..i + 1], path) <==>
            AboveTarget(inputs[..i], path) || path < inputs[i].name
    ensures forall name :: TrashedAs(start, inputs[..i + 1], name) <==>
              TrashedAs(start, inputs[..i], name) || (inputs[i].name in start.files && name == inputs[i].storedName)
    ensures forall path :: IsTarget([inputs[i]], path) <==> path == inputs[i].name
    ensures forall path :: AboveTarget([inputs[i]], path) <==> path < inputs[i].name
  {
    var longer, shorter := inputs[..i + 1], inputs[..i];
    assert longer == shorter + [inputs[i]];
    forall path ensures IsTarget(longer, path) <==> IsTarget(shorter, path) || path == inputs[i].name {
      if IsTarget(shorter, path) {
        var k :| 0 <= k < i && shorter[k].name == path;
        assert longer[k].name == path;
      }
      assert longer[i].name == inputs[i].name;
    }
    forall path ensures AboveTarget(longer, path) <==> AboveTarget(shorter, path) || path < inputs[i].name {
      if AboveTarget(shorter, path) {
        var k :| 0 <= k < i && path < shorter[k].name;
        assert path < longer[k].name;
      }
      assert longer[i].name == inputs[i].name;
    }
    forall name
      ensures TrashedAs(start, longer, name) <==>
        TrashedAs(start, shorter, name) || (inputs[i].name in start.files && name == inputs[i].storedName)
    {
      if TrashedAs(start, shorter, name) {
        var k :| 0 <= k < i && shorter[k].name in start.files && shorter[k].storedName == name;
        assert longer[k].name in start.files && longer[k].storedName == name;
      }
      assert longer[i] == inputs[i];
    }
    assert [inputs[i]][0] == inputs[i];
  }

  lemma StepContents(start: State, inputs: seq<Input>, i: nat, before: State, after: State)
    requires i < |inputs| && Distinct(inputs)
    requires ContentsInPlace(inputs[..i], before) && ContentsInPlace([inputs[i]], after)
    requires OthersUntouched(before, [inputs[i]], after)
    ensures ContentsInPlace(inputs[..i + 1], after)
  {
    assert [inputs[i]][0] == inputs[i];
    forall k | 0 <= k < i
      ensures inputs[k].name in after.files && after.files[inputs[k].name] == File(inputs[k].content)
    {
      assert inputs[..i][k] == inputs[k] && inputs[k].name != inputs[i].name;
      assert !IsTarget([inputs[i]], inputs[k].name);
    }
  }

  lemma StepOthers(start: State, inputs: seq<Input>, i: nat, before: State, after: State)
    requires i < |inputs|
    requires OthersUntouched(start, inputs[..i], before) && OthersUntouched(before, [inputs[i]], after)
    ensures OthersUntouched(start, inputs[..i + 1], after)
  {
    ShorterInputs(start, inputs, i);
  }

  lemma StepNames(start: State, inputs: seq<Input>, i: nat, before: State, after: State)
    requires i < |inputs| && TrashNames(start, inputs[..i], before) && TrashNames(before, [inputs[i]], after)
    requires inputs[i].name in before.files <==> inputs[i].name in start.files
    ensures TrashNames(start, inputs[..i + 1], after)
  {
    ShorterInputs(start, inputs, i);
    assert [inputs[i]][0] == inputs[i];
    assert forall name :: TrashedAs(before, [inputs[i]], name) <==>
           inputs[i].name in before.files && name == inputs[i].storedName;
  }

  lemma StepTrash(start: State, inputs: seq<Input>, i: nat, before: State, after: State)
    requires i < |inputs| && Distinct(inputs)
    requires ReplacedInTrash(start, inputs[..i], before) && ReplacedInTrash(before, [inputs[i]], after)
    requires OthersUntouched(start, inputs[..i], before)
    requires before.trash.Keys <= after.trash.Keys && start.trash.Keys <= before.trash.Keys
    ensures ReplacedInTrash(start, inputs[..i + 1], after)
  {
    assert [inputs[i]][0] == inputs[i];
    assert !IsTarget(inputs[..i], inputs[i].name);
    assert forall name | name in start.trash :: after.trash[name] == before.trash[name] == start.trash[name];
    forall k | 0 <= k <= i && inputs[..i + 1][k].name in start.files
      ensures start.files[inputs[k].name].File? && inputs[k].storedName in after.trash
      ensures after.trash[inputs[k].storedName] == start.files[inputs[k].name].content
    {
      if k < i {
        assert inputs[..i][k] == inputs[k];
        assert inputs[k].storedName in before.trash.Keys;
      }
    }
  }

  lemma UploadedStep(start: State, inputs: seq<Input>, i: nat, before: State, after: State)
    requires i < |inputs| && Distinct(inputs)
    requires Uploaded(start, inputs[..i], before) && Uploaded(before, [inputs[i]], after)
    requires inputs[i].name in before.files <==> inputs[i].name in start.files
    ensures Uploaded(start, inputs[..i + 1], after)
  {
    StepContents(start, inputs, i, before, after);
    StepOthers(start, inputs, i, before, after);
    StepNames(start, inputs, i, before, after);
    StepTrash(start, inputs, i, before, after);
  }

  /** What staging found out about the first inputs. */
  predicate Staged(files: map<Path, Node>, inputs: seq<Input>, staged: seq<bool>) {
    |staged| <= |inputs| &&
    forall i | 0 <= i < |staged| ::
      inputs[i].name != [] && (staged[i] <==> inputs[i].name in files) && (staged[i] ==> files[inputs[i].name].File?)
  }

  /** It is still true of an input when its turn to be committed comes, except that an earlier
      commit may have made its name a directory. */
  lemma StagedStillHolds(start: State, inputs: seq<Input>, staged: seq<bool>, i: nat, before: State)
    requires i < |inputs| == |staged| && Distinct(inputs) && Staged(start.files, inputs, staged)
    requires OthersUntouched(start, inputs[..i], before)
    ensures staged[i] ==> inputs[i].name in before.files && before.files[inputs[i].name].File?
    ensures !staged[i] && inputs[i].name in before.files ==> before.files[inputs[i].name].Dir?
  {
    assert !IsTarget(inputs[..i], inputs[i].name);
  }

  // ---------------------------------------------------------------- valid names

  const TRASH_DIRECTORY := ".scriptboard-trash"
  const RESERVED_PREFIXES := [".scriptboard-upload-", ".scriptboard-edit-", ".scriptboard-move-"]
  const DEVICES := ["CON", "PRN", "AUX", "NUL", "CLOCK$", "CONIN$", "CONOUT$"]
  const PORTS := ["COM", "LPT"]
  /** The superscripts one, two and three take two bytes each. */
  const PORT_NUMBERS :=
    ["1", "2", "3", "4", "5", "6", "7", "8", "9", "\U{C2}\U{B9}", "\U{C2}\U{B2}", "\U{C2}\U{B3}"]

  function Lower(s: string): string {
    seq(|s|, i requires 0 <= i < |s| => if 'A' <= s[i] <= 'Z' then s[i] - 'A' + 'a' else s[i])
  }

  function Upper(s: string): string {
    seq(|s|, i requires 0 <= i < |s| => if 'a' <= s[i] <= 'z' then s[i] - 'a' + 'A' else s[i])
  }

  /** The part before the first dot. */
  function Stem(name: string): string {
    if name == "" || name[0] == '.' then "" else [name[0]] + Stem(name[1..])
  }

  function TrimmedRight(name: string): string
    decreases |name|
  {
    if name != "" && (name[|name| - 1] == ' ' || name[|name| - 1] == '.') then TrimmedRight(name[..|name| - 1])
    else name
  }

  predicate IsDevice(base: string) {
    base in DEVICES || (|base| > 3 && base[..3] in PORTS && base[3..] in PORT_NUMBERS)
  }

  /** Win32 would read the name as a device, a stream or another name. */
  predicate UnsafeOnWindows(name: string) {
    || name == "" || name[|name| - 1] == '.' || name[|name| - 1] == ' '
    || (exists c | c in name :: c in "<>:\"/\\|?*" || c < ' ' || c == '\U{7F}')
    || IsDevice(Upper(TrimmedRight(Stem(name))))
  }

  predicate Reserved(name: string) {
    Lower(name) == TRASH_DIRECTORY || exists prefix | prefix in RESERVED_PREFIXES :: prefix <= Lower(name)
  }

  predicate ValidComponent(name: string) {
    name != "." && name != ".." && |name| <= 255 && !UnsafeOnWindows(name) && !Reserved(name)
  }

  /** The length of the path with slashes between its components. */
  function Length(path: Path): nat {
    if path == [] then 0 else if |path| == 1 then |path[0]| else |path[0]| + 1 + Length(path[1..])
  }

  predicate ValidPath(path: Path) {
    path != [] && Length(path) <= 4096 && forall component | component in path :: ValidComponent(component)
  }

  // ---------------------------------------------------------------- which batches can be committed

  /** Nothing above the path stands in the way of creating its directories. */
  ghost predicate OpenAbove(files: map<Path, Node>, path: Path) {
    forall k | 0 < k < |path| :: OpenAt(files, path, k)
  }

  /** The same for all directories up to the path itself. */
  ghost predicate OpenTo(files: map<Path, Node>, path: Path) {
    forall k | 0 < k <= |path| :: OpenAt(files, path, k)
  }

  lemma ParentOpen(files: map<Path, Node>, path: Path)
    requires path != []
    ensures OpenAbove(files, path) <==> OpenTo(files, Parent(path))
  {
    forall k | 0 < k < |path| ensures OpenAt(files, path, k) <==> OpenAt(files, Parent(path), k) {
      assert Parent(path)[..k] == path[..k];
    }
  }

  lemma OpenStays(before: State, prepared: State, target: Path, k: nat)
    requires Prepared(before, prepared, target) && 0 < k <= |target|
    ensures OpenTo(before.files, target) ==> OpenAt(prepared.files, target, k)
  {
    assert OpenTo(before.files, target) ==> OpenAt(before.files, target, k);
  }

  predicate OpenAt(files: map<Path, Node>, path: Path, k: nat)
    requires k <= |path|
  {
    path[..k] in files ==> files[path[..k]] == Dir
  }

  /** The tree as it is accepts the input. */
  ghost predicate Stageable(files: map<Path, Node>, input: Input, replace: bool) {
    && ValidPath(input.name)
    && input.maxBytes > 0 && |input.content| <= input.maxBytes && OpenAbove(files, input.name)
    && (input.name in files ==> replace && files[input.name].File? && ValidComponent(input.storedName))
  }

  ghost predicate FitFirst(files: map<Path, Node>, inputs: seq<Input>, n: nat, replace: bool)
    requires n <= |inputs|
  {
    && (forall i, j | 0 <= i < j < n :: inputs[i].name != inputs[j].name)
    && forall i | 0 <= i < n :: Stageable(files, inputs[i], replace)
  }

  lemma StagedNext(files: map<Path, Node>, inputs: seq<Input>, staged: seq<bool>, exist: bool, replace: bool)
    requires |staged| < |inputs| && Staged(files, inputs, staged)
    requires FitFirst(files, inputs, |staged|, replace)
    requires forall i | 0 <= i < |staged| :: inputs[i].name != inputs[|staged|].name
    requires Stageable(files, inputs[|staged|], replace) && (exist <==> inputs[|staged|].name in files)
    ensures Staged(files, inputs, staged + [exist])
    ensures FitFirst(files, inputs, |staged| + 1, replace)
  {
  }

  lemma AllFit(files: map<Path, Node>, inputs: seq<Input>, replace: bool)
    requires FitFirst(files, inputs, |inputs|, replace)
    ensures Distinct(inputs) && forall input | input in inputs :: Stageable(files, input, replace)
  {
    forall input | input in inputs ensures Stageable(files, input, replace) {
      var i :| 0 <= i < |inputs| && inputs[i] == input;
    }
  }

  /** No input is below another one. */
  predicate PrefixFree(inputs: seq<Input>) {
    forall i, j | 0 <= i < |inputs| && 0 <= j < |inputs| :: !(inputs[i].name < inputs[j].name)
  }

  /** The first `n` inputs that replace a file have trash names that are free and differ. */
  ghost predicate TrashNamesFree(state: State, inputs: seq<Input>, n: nat)
    requires n <= |inputs|
  {
    && (forall i | 0 <= i < n && inputs[i].name in state.files :: inputs[i].storedName !in state.trash)
    && forall i, j | 0 <= i < j < n && inputs[i].name in state.files && inputs[j].name in state.files ::
         inputs[i].storedName != inputs[j].storedName
  }

  /** The batches that fit the tree. */
  ghost predicate Acceptable(state: State, inputs: seq<Input>, replace: bool) {
    && inputs != [] && Distinct(inputs) && PrefixFree(inputs) && TrashNamesFree(state, inputs, |inputs|)
    && forall input | input in inputs :: Stageable(state.files, input, replace)
  }

  lemma {:induction false} NothingBelowMissing(files: map<Path, Node>, path: Path, k: nat)
    requires Rooted(files) && k <= |path| && path[..k] !in files
    ensures path !in files
    decreases |path| - k
  {
    if k < |path| {
      assert Parent(path[..k + 1]) == path[..k];
      assert path[..k + 1] in files ==> IsDir(files, Parent(path[..k + 1]));
      NothingBelowMissing(files, path, k + 1);
    } else {
      assert path[..k] == path;
    }
  }

  lemma OpenBeyond(files: map<Path, Node>, path: Path, depth: nat)
    requires Rooted(files) && 0 < depth <= |path| && forall k | 0 < k < depth :: OpenAt(files, path, k)
    requires depth == |path| || path[..depth] !in files
    ensures OpenAbove(files, path)
  {
    forall k | depth <= k < |path| ensures OpenAt(files, path, k) {
      assert path[..k][..depth] == path[..depth];
      NothingBelowMissing(files, path[..k], depth);
    }
  }

  /** The inputs with a result are in place, and undoing the results restores the start. */
  ghost predicate CommittedFirst(start: State, now: State, inputs: seq<Input>, done: seq<Result>)
    requires |done| <= |inputs|
  {
    && Uploaded(start, inputs[..|done|], now) && UndoneBatch(now, done) == Undone(start, true)
    && TrashNamesFree(start, inputs, |done|)
  }

  lemma CommittedNext(start: State, before: State, now: State, inputs: seq<Input>, done: seq<Result>, result: Result)
    requires |done| < |inputs| && CommittedFirst(start, before, inputs, done)
    requires Uploaded(start, inputs[..|done| + 1], now) && TrashNamesFree(start, inputs, |done| + 1)
    requires UndoneResult(now, result) == Undone(before, true)
    ensures CommittedFirst(start, now, inputs, done + [result])
  {
    UndoneBatchSnoc(now, done, result);
  }

  /** A batch that is in place was free of prefixes: a file has nothing below it. */
  lemma InPlaceIsPrefixFree(inputs: seq<Input>, after: State)
    requires Rooted(after.files) && ContentsInPlace(inputs, after)
    ensures PrefixFree(inputs)
  {
    forall i, j | 0 <= i < |inputs| && 0 <= j < |inputs| ensures !(inputs[i].name < inputs[j].name) {
      var upper, lower := inputs[i].name, inputs[j].name;
      assert after.files[upper].File? && lower in after.files;
      if |upper| < |lower| {
        DirAbove(after.files, lower, |upper|);
        assert lower[..|upper|] != upper;
      }
    }
  }

  lemma {:induction false} DirAbove(files: map<Path, Node>, path: Path, k: nat)
    requires Rooted(files) && path in files && k < |path|
    ensures IsDir(files, path[..k])
    decreases |path|
  {
    assert IsDir(files, Parent(path));
    if k < |path| - 1 {
      DirAbove(files, Parent(path), k);
      assert Parent(path)[..k] == path[..k];
    } else {
      assert path[..k] == Parent(path);
    }
  }

  lemma NothingInTheWay(inputs: seq<Input>, i: nat)
    requires i < |inputs| && PrefixFree(inputs)
    ensures !AboveTarget(inputs[..i], inputs[i].name)
    ensures forall path | path < inputs[i].name :: !IsTarget(inputs[..i], path)
  {
    forall path | path < inputs[i].name ensures !IsTarget(inputs[..i], path) {
      forall t | 0 <= t < i ensures inputs[..i][t].name != path {
        assert !(inputs[t].name < inputs[i].name);
      }
    }
    forall t | 0 <= t < i ensures !(inputs[i].name < inputs[..i][t].name) {
      assert !(inputs[i].name < inputs[t].name);
    }
  }

  /** When the turn of input `i` comes, the way is still open and its name is no new directory. */
  lemma StillOpen(start: State, inputs: seq<Input>, i: nat, before: State)
    requires i < |inputs| && PrefixFree(inputs) && OpenAbove(start.files, inputs[i].name)
    requires OthersUntouched(start, inputs[..i], before)
    ensures OpenAbove(before.files, inputs[i].name)
    ensures inputs[i].name in before.files && !IsTarget(inputs[..i], inputs[i].name) ==> inputs[i].name in start.files
  {
    var name := inputs[i].name;
    NothingInTheWay(inputs, i);
    forall k | 0 < k < |name| ensures OpenAt(before.files, name, k) {
      assert OpenAt(start.files, name, k) && name[..k] < name;
    }
  }

  lemma NextTrashName(start: State, inputs: seq<Input>, i: nat, before: State)
    requires i < |inputs| && TrashNames(start, inputs[..i], before) && inputs[i].name in start.files
    ensures TrashNamesFree(start, inputs, |inputs|) ==> inputs[i].storedName !in before.trash
    ensures TrashNamesFree(start, inputs, i) && inputs[i].storedName !in before.trash ==>
              TrashNamesFree(start, inputs, i + 1)
  {
    var name := inputs[i].storedName;
    if TrashedAs(start, inputs[..i], name) {
      var t :| 0 <= t < i && inputs[..i][t].name in start.files && inputs[..i][t].storedName == name;
      assert inputs[t].storedName == inputs[i].storedName;
    }
    forall t | 0 <= t < i && inputs[t].name in start.files && inputs[t].storedName == name
      ensures TrashedAs(start, inputs[..i], name)
    {
      assert inputs[..i][t] == inputs[t];
    }
  }

  /** What staging and the earlier commits mean for the commit of input `i`. */
  lemma TurnOf(start: State, inputs: seq<Input>, staged: seq<bool>, i: nat, before: State)
    requires i < |inputs| == |staged| && Distinct(inputs) && Staged(start.files, inputs, staged)
    requires OthersUntouched(start, inputs[..i], before)
    ensures PrefixFree(inputs) && OpenAbove(start.files, inputs[i].name) ==>
              OpenAbove(before.files, inputs[i].name) && (staged[i] <==> inputs[i].name in before.files)
  {
    StagedStillHolds(start, inputs, staged, i, before);
    assert !IsTarget(inputs[..i], inputs[i].name);
    if PrefixFree(inputs) && OpenAbove(start.files, inputs[i].name) {
      StillOpen(start, inputs, i, before);
    }
  }

  lemma TrashNameOf(start: State, inputs: seq<Input>, staged: seq<bool>, i: nat, before: State)
    requires i < |inputs| == |staged| && Staged(start.files, inputs, staged) && TrashNames(start, inputs[..i], before)
    ensures staged[i] && TrashNamesFree(start, inputs, |inputs|) ==> inputs[i].storedName !in before.trash
    ensures TrashNamesFree(start, inputs, i) && (staged[i] ==> inputs[i].storedName !in before.trash) ==>
              TrashNamesFree(start, inputs, i + 1)
  {
    if staged[i] {
      NextTrashName(start, inputs, i, before);
    }
  }

  class Host {
    const reliable: bool  // no step fails for a reason outside the tree
    var files: map<Path, Node>
    var trash: map<string, string>

    constructor (state: State, reliable: bool)
      requires Rooted(state.files)
      ensures Now() == state && Valid() && this.reliable == reliable
    {
      this.reliable, files, trash := reliable, state.files, state.trash;
    }

    function Now(): State
      reads this
    {
      State(files, trash)
    }

    ghost predicate Valid()
      reads this
    {
      Rooted(files)
    }

    // -------------------------------------------------------------- forward steps

    method Mkdir(path: Path) returns (made: bool, exist: bool)
      requires Valid()
      modifies this`files
      ensures Valid()
      ensures made ==> path != [] && path !in old(files) && files == old(files)[path := Dir]
      ensures !made ==> files == old(files)
      ensures exist <==> path in old(files)
      ensures reliable && path != [] && path !in old(files) && IsDir(old(files), Parent(path)) ==> made
    {
      var fails: bool := *;
      fails := fails && !reliable;
      if path in files { return false, true; }
      if fails || path == [] || !IsDir(files, Parent(path)) { return false, false; }
      files := files[path := Dir];
      return true, false;
    }

    /** One directory of a path; it may be there already. */
    method MakeNext(ghost start: State, target: Path, depth: nat, created: seq<Path>)
      returns (ok: bool, more: seq<Path>)
      requires Valid() && depth < |target| && Making(start, Now(), target, depth, created)
      modifies this`files
      ensures Valid() && Making(start, Now(), target, if ok then depth + 1 else depth, more)
      ensures reliable && OpenTo(start.files, target) ==> ok
    {
      var current := target[..depth + 1];
      ghost var before := Now();
      assert Parent(current) == target[..depth];
      OpenStays(start, before, target, depth + 1);
      var made, exist := Mkdir(current);
      if made {
        RemoveUndoesAdd(before, current, Dir);
        RemovedAllSnoc(Now(), created, current);
        return true, created + [current];
      }
      return exist && IsDir(files, current), created;
    }

    /** `createUploadDirectories`: the missing directories from the upload directory down to `target`. */
    method CreateDirectories(target: Path) returns (ok: bool, created: seq<Path>)
      requires Valid()
      modifies this`files
      ensures Valid() && RemovedAll(Now(), created) == Undone(old(Now()), true)
      ensures ok ==> IsDir(files, target)
      ensures Prepared(old(Now()), Now(), target)
      ensures reliable && OpenTo(old(files), target) ==> ok
    {
      created := [];
      var depth := 0;
      while depth < |target|
        invariant 0 <= depth <= |target| && Valid() && Making(old(Now()), Now(), target, depth, created)
      {
        ok, created := MakeNext(old(Now()), target, depth, created);
        if !ok { return false, created; }
        depth := depth + 1;
      }
      assert target[..depth] == target;
      return true, created;
    }

    /** `MoveToTrash` of a file. */
    method MoveToTrash(path: Path, storedName: string) returns (moved: bool)
      requires Valid()
      modifies this
      ensures Valid()
      ensures moved ==> path != [] && path in old(files) && old(files)[path].File? && storedName !in old(trash)
      ensures moved ==> Now() == State(old(files) - {path}, old(trash)[storedName := old(files)[path].content])
      ensures moved ==> Restored(Now(), storedName, path) == Undone(old(Now()), true)
      ensures !moved ==> Now() == old(Now())
      ensures reliable && path != [] && path in old(files) && old(files)[path].File? && storedName !in old(trash) ==>
                moved
    {
      var fails: bool := *;
      fails := fails && !reliable;
      if fails || path == [] || path !in files || files[path].Dir? || storedName in trash { return false; }
      RestoreUndoesTrash(Now(), path, storedName);
      trash := trash[storedName := files[path].content];
      files := files - {path};
      return true;
    }

    /** Renames a staged temporary file onto its target; an existing file would be overwritten. */
    method RenameStaged(content: string, target: Path) returns (renamed: bool)
      requires Valid()
      modifies this`files
      ensures Valid()
      ensures renamed ==> target != [] && !IsDir(old(files), target) && files == old(files)[target := File(content)]
      ensures !renamed ==> files == old(files)
      ensures reliable && target != [] && !IsDir(old(files), target) && IsDir(old(files), Parent(target)) ==> renamed
    {
      var fails: bool := *;
      fails := fails && !reliable;
      if fails || target == [] || IsDir(files, target) || !IsDir(files, Parent(target)) { return false; }
      files := files[target := File(content)];
      return true;
    }

    // -------------------------------------------------------------- undo steps

    method Remove(path: Path) returns (ok: bool)
      modifies this`files
      ensures Undone(Now(), ok) == Removed(old(Now()), path)
    {
      if path !in files { return true; }
      if path == [] || exists other | other in files :: other != [] && Parent(other) == path { return false; }
      files := files - {path};
      return true;
    }

    method Restore(storedName: string, path: Path) returns (ok: bool)
      modifies this
      ensures Undone(Now(), ok) == Restored(old(Now()), storedName, path)
    {
      if storedName !in trash || path == [] || !IsDir(files, Parent(path)) || path in files { return false; }
      files, trash := files[path := File(trash[storedName])], trash - {storedName};
      return true;
    }

    method RemoveAll(created: seq<Path>) returns (ok: bool)
      modifies this`files
      ensures Undone(Now(), ok) == RemovedAll(old(Now()), created)
    {
      ok := true;
      ghost var goal := RemovedAll(Now(), created);
      var i := |created|;
      assert created[..i] == created;
      while i > 0
        invariant 0 <= i <= |created| && trash == old(trash)
        invariant var rest := RemovedAll(Now(), created[..i]); goal == Undone(rest.state, ok && rest.clean)
      {
        i := i - 1;
        assert created[..i + 1][..i] == created[..i];
        var removed := Remove(created[i]);
        ok := ok && removed;
      }
    }

    /** `RollbackUploadBatch`: newest result first. */
    method Rollback(results: seq<Result>) returns (ok: bool)
      modifies this
      ensures Undone(Now(), ok) == UndoneBatch(old(Now()), results)
    {
      ok := true;
      ghost var goal := UndoneBatch(Now(), results);
      var i := |results|;
      assert results[..i] == results;
      while i > 0
        invariant 0 <= i <= |results|
        invariant var rest := UndoneBatch(Now(), results[..i]); goal == Undone(rest.state, ok && rest.clean)
      {
        i := i - 1;
        assert results[..i + 1][..i] == results[..i];
        var undone := UndoResult(results[i]);
        ok := ok && undone;
      }
    }

    method UndoResult(result: Result) returns (ok: bool)
      modifies this
      ensures Undone(Now(), ok) == UndoneResult(old(Now()), result)
    {
      ok := Remove(result.path);
      if !ok { return; }
      if result.trashed.Some? {
        ok := Restore(result.trashed.value, result.path);
      }
      var cleared := RemoveAll(result.created);
      ok := ok && cleared;
    }

    // -------------------------------------------------------------- the batch

    /** The loop over the ancestors of a name, which stops at the first missing one. */
    method AncestorsOpen(name: Path) returns (open: bool)
      requires Valid() && name != []
      ensures open <==> OpenAbove(files, name)
    {
      var depth := 1;
      while depth < |name|
        invariant 1 <= depth <= |name|
        invariant forall k | 0 < k < depth :: OpenAt(files, name, k)
      {
        var ancestor := name[..depth];
        if ancestor !in files { break; }
        if files[ancestor] != Dir {
          assert !OpenAt(files, name, depth);
          return false;
        }
        depth := depth + 1;
      }
      OpenBeyond(files, name, depth);
      return true;
    }

    /** The checks of the staging loop for one input; the copy itself goes to an invisible
        temporary file and may fail. */
    method Stage(input: Input, replace: bool) returns (ok: bool, exist: bool)
      requires Valid()
      ensures ok ==> Stageable(files, input, replace) && (exist <==> input.name in files)
      ensures reliable && Stageable(files, input, replace) ==> ok
    {
      if !ValidPath(input.name) || input.maxBytes == 0 {
        return false, false;
      }
      var open := AncestorsOpen(input.name);
      if !open { return false, false; }
      exist := input.name in files;
      if exist && (!replace || files[input.name].Dir? || !ValidComponent(input.storedName)) { return false, exist; }
      var fails: bool := *;
      return (!fails || reliable) && |input.content| <= input.maxBytes, exist;
    }

    /** A replaced file goes to the trash, the staged one takes its place; or nothing changes. */
    method Place(input: Input, exist: bool) returns (placed: bool)
      requires Valid() && input.name != []
      requires exist ==> input.name in files && files[input.name].File?
      requires !exist && input.name in files ==> files[input.name].Dir?
      modifies this
      ensures Valid()
      ensures !placed ==> Now() == old(Now())
      ensures placed ==> Now() == Committed(old(Now()), input, exist) && (exist <==> input.name in old(files))
      ensures placed && exist ==> input.storedName !in old(trash)
      ensures reliable && IsDir(old(files), Parent(input.name)) && (exist <==> input.name in old(files)) &&
                (exist ==> input.storedName !in old(trash)) ==>
              placed
    {
      assert |Parent(input.name)| < |input.name|;
      if exist {
        var moved := MoveToTrash(input.name, input.storedName);
        if !moved { return false; }
      }
      placed := RenameStaged(input.content, input.name);
      if !placed && exist {
        var _ := Restore(input.storedName, input.name);
      }
    }

    /** One commit: directories, replaced file to the trash, rename.  Either its result undoes it
        exactly, or it has undone itself. */
    method Commit(input: Input, exist: bool) returns (result: Option<Result>)
      requires Valid() && input.name != []
      requires exist ==> input.name in files && files[input.name].File?
      requires !exist && input.name in files ==> files[input.name].Dir?
      modifies this
      ensures Valid()
      ensures result.None? ==> Now() == old(Now())
      ensures result.Some? ==> UndoneResult(Now(), result.value) == Undone(old(Now()), true)
      ensures result.Some? ==> Uploaded(old(Now()), [input], Now()) && (exist <==> input.name in old(files))
      ensures result.Some? && exist ==> input.storedName !in old(trash)
      ensures reliable && OpenAbove(old(files), input.name) && (exist <==> input.name in old(files)) &&
                (exist ==> input.storedName !in old(trash)) ==>
              result.Some?
    {
      ghost var before := Now();
      ParentOpen(files, input.name);
      var ready, created := CreateDirectories(Parent(input.name));
      if !ready {
        var _ := RemoveAll(created);
        return None;
      }
      ghost var prepared := Now();
      assert input.name in files <==> input.name in before.files;
      var placed := Place(input, exist);
      if !placed {
        var _ := RemoveAll(created);
        return None;
      }
      CommitUploads(before, prepared, input, exist);
      CommitUndone(before, prepared, input, exist, created);
      return Some(Result(input.name, if exist then Some(input.storedName) else None, created));
    }

    /** `UploadBatch`.  On success the batch is in place and the results undo it exactly; on failure
        the tree and the trash are what they were. */
    method Upload(inputs: seq<Input>, replace: bool) returns (results: Option<seq<Result>>)
      requires Valid()
      modifies this
      ensures Valid()
      ensures results.None? ==> Now() == old(Now())
      ensures results.Some? ==> inputs != [] && |results.value| == |inputs| && Distinct(inputs)
      ensures results.Some? ==> Uploaded(old(Now()), inputs, Now())
      ensures results.Some? ==> UndoneBatch(Now(), results.value) == Undone(old(Now()), true)
      ensures results.Some? ==> Acceptable(old(Now()), inputs, replace)
      ensures reliable && Acceptable(old(Now()), inputs, replace) ==> results.Some?
    {
      if inputs == [] { return None; }
      var staged := StageAll(inputs, replace);
      if staged.None? { return None; }
      results := CommitAll(inputs, staged.value);
      if results.Some? {
        InPlaceIsPrefixFree(inputs, Now());
      }
    }

    method StageAll(inputs: seq<Input>, replace: bool) returns (staged: Option<seq<bool>>)
      requires Valid()
      ensures staged.Some? ==> |staged.value| == |inputs| && Distinct(inputs) && Staged(files, inputs, staged.value)
      ensures staged.Some? ==> forall input | input in inputs :: Stageable(files, input, replace)
      ensures reliable && Distinct(inputs) &&
              (forall input | input in inputs :: Stageable(files, input, replace)) ==>
                staged.Some?
    {
      var found: seq<bool> := [];
      while |found| < |inputs|
        invariant |found| <= |inputs| && Staged(files, inputs, found)
        invariant FitFirst(files, inputs, |found|, replace)
      {
        var input := inputs[|found|];
        if exists i | 0 <= i < |found| :: inputs[i].name == input.name { return None; }
        var ok, exist := Stage(input, replace);
        if !ok { return None; }
        StagedNext(files, inputs, found, exist, replace);
        found := found + [exist];
      }
      AllFit(files, inputs, replace);
      return Some(found);
    }

    method CommitNext(ghost start: State, inputs: seq<Input>, staged: seq<bool>, i: nat)
      returns (result: Option<Result>)
      requires Valid() && i < |inputs| == |staged| && Distinct(inputs) && Staged(start.files, inputs, staged)
      requires Uploaded(start, inputs[..i], Now())
      modifies this
      ensures Valid()
      ensures result.None? ==> Now() == old(Now())
      ensures result.Some? ==> Uploaded(start, inputs[..i + 1], Now())
      ensures result.Some? ==> UndoneResult(Now(), result.value) == Undone(old(Now()), true)
      ensures result.Some? && TrashNamesFree(start, inputs, i) ==> TrashNamesFree(start, inputs, i + 1)
      ensures reliable && PrefixFree(inputs) && OpenAbove(start.files, inputs[i].name) &&
                TrashNamesFree(start, inputs, |inputs|) ==>
              result.Some?
    {
      ghost var before := Now();
      StagedStillHolds(start, inputs, staged, i, before);
      TurnOf(start, inputs, staged, i, before);
      TrashNameOf(start, inputs, staged, i, before);
      result := Commit(inputs[i], staged[i]);
      if result.Some? {
        UploadedStep(start, inputs, i, before, Now());
      }
    }

    method CommitAll(inputs: seq<Input>, staged: seq<bool>) returns (results: Option<seq<Result>>)
      requires Valid() && |staged| == |inputs| && Distinct(inputs) && Staged(files, inputs, staged)
      modifies this
      ensures Valid()
      ensures results.None? ==> Now() == old(Now())
      ensures results.Some? ==> |results.value| == |inputs| && Uploaded(old(Now()), inputs, Now())
      ensures results.Some? ==> UndoneBatch(Now(), results.value) == Undone(old(Now()), true)
      ensures results.Some? ==> TrashNamesFree(old(Now()), inputs, |inputs|)
      ensures reliable && PrefixFree(inputs) && TrashNamesFree(old(Now()), inputs, |inputs|) &&
                (forall input | input in inputs :: OpenAbove(old(files), input.name)) ==>
              results.Some?
    {
      var done: seq<Result> := [];
      assert Uploaded(Now(), inputs[..0], Now());
      while |done| < |inputs|
        invariant |done| <= |inputs| && Valid() && CommittedFirst(old(Now()), Now(), inputs, done)
      {
        ghost var before := Now();
        var result := CommitNext(old(Now()), inputs, staged, |done|);
        if result.None? {
          var _ := Rollback(done);
          return None;
        }
        CommittedNext(old(Now()), before, Now(), inputs, done, result.value);
        done := done + [result.value];
      }
      assert inputs[..|done|] == inputs;
      return Some(done);
    }
  }

  /** A complete rollback of a successful batch restores the tree and the trash exactly. */
  method UploadThenRollback(host: Host, inputs: seq<Input>, replace: bool) returns (clean: bool)
    requires host.Valid()
    modifies host
    ensures host.Now() == old(host.Now()) && clean
  {
    var results := host.Upload(inputs, replace);
    if results.None? { return true; }
    clean := host.Rollback(results.value);
  }
}

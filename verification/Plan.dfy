/** The validation tasks planned for a change. */
module Plan {
  import opened Wrappers
  import opened Ordering
  import opened Affected

  // ---------------------------------------------------------------------------------------------
  // What a change is about

  const ROOT_CONFIG := ["package.json", "bunfig.toml", "biome.json", "tsconfig.json", "tsconfig.base.json",
                        "tsconfig.tools.json"]
  const RELEASE_HARNESS := ["scripts/ci-dev-affected.ts", "scripts/ci-release-publish.ts",
                            "scripts/install-tests/tarball.dockerfile", "scripts/release-publish-order.test.ts",
                            "scripts/sync-versions.ts"]
  const RUST_FILES := ["Cargo.toml", "Cargo.lock", "rust-toolchain", "rust-toolchain.toml", "rustfmt.toml",
                       ".rustfmt.toml", "clippy.toml", ".clippy.toml"]
  const SELECTOR_FILES := ["scripts/ci-dev-affected.ts", "scripts/ci-dev-affected.test.ts",
                           "scripts/check-workflow-yaml.ts"]
  const MANIFEST := "package.json"
  const PUBLISH_SCRIPT := "scripts/ci-release-publish.ts"
  const SDK_DIR := "packages/jwc"
  const WEB_DIR := "python/robojwc/web"

  function DropSlashes(path: string): string {
    if path != "" && path[|path| - 1] == '/' then DropSlashes(path[..|path| - 1]) else path
  }

  function LastPart(path: string): string {
    if path == "" || path[|path| - 1] == '/' then "" else LastPart(path[..|path| - 1]) + [path[|path| - 1]]
  }

  /** `path.basename` */
  function Basename(path: string): string {
    LastPart(DropSlashes(path))
  }

  predicate IsPython(path: string) { "python/robojwc/" <= path && !("python/robojwc/web/" <= path) }

  predicate IsRust(path: string) { "crates/" <= path || ".cargo/" <= path || Basename(path) in RUST_FILES }

  predicate IsInstall(path: string) {
    "scripts/install" <= path || path == "Dockerfile" || path == "Dockerfile.dockerignore"
  }

  predicate IsRuntime(path: string) {
    "packages/coding-agent/" <= path || "packages/agent/" <= path || "packages/ai/" <= path
  }

  predicate IsWorkflow(path: string) { ".github/workflows/" <= path }

  predicate IsHarness(path: string) { IsWorkflow(path) || path in SELECTOR_FILES }

  predicate IsTooling(path: string) { "scripts/" <= path || path == "bun.lock" }

  /** The change is about the release harness only, the root manifest included. */
  predicate ReleaseHarnessOnly(paths: seq<string>) {
    MANIFEST in paths
    && forall p | p in paths :: p == MANIFEST || p == PUBLISH_SCRIPT || p in RELEASE_HARNESS
  }

  datatype Flags = Flags(full: bool, python: bool, web: bool, rust: bool, install: bool, publish: bool, sdk: bool,
                         tooling: bool, runtime: bool, harnessOnly: bool, ciOnly: bool, harness: bool, workflow: bool)
  {
    /** The mode in which packages are validated one by one. */
    predicate PerPackage() { !full && !ciOnly && !harnessOnly }
  }

  function FlagsOf(paths: seq<string>): Flags {
    var full := (exists p | p in paths :: p in ROOT_CONFIG) && !ReleaseHarnessOnly(paths);
    Flags(full,
          exists p | p in paths :: IsPython(p),
          exists p | p in paths :: WEB_DIR + "/" <= p,
          exists p | p in paths :: IsRust(p),
          exists p | p in paths :: IsInstall(p),
          PUBLISH_SCRIPT in paths,
          exists p | p in paths :: SDK_DIR + "/" <= p,
          exists p | p in paths :: IsTooling(p),
          (exists p | p in paths :: IsRuntime(p)) || full,
          paths != [] && forall p | p in paths :: IsHarness(p),
          paths != [] && forall p | p in paths :: ".github/" <= p,
          exists p | p in paths :: IsHarness(p),
          exists p | p in paths :: IsWorkflow(p))
  }

  // ---------------------------------------------------------------------------------------------
  // Tasks

  /** The keys of the tasks; no fixed key looks like the check or the test of a package. */
  datatype Key =
    | NativeBuild | NativeLinux | RootCheck | RootTest
    | CheckOf(name: string) | TestOf(name: string)
    | ReleaseContract | ReleaseDryRun | SdkBuild | SdkSmoke
    | PythonLint | PythonTest | WebTypecheck | WebBuild | RustCheck | RustTest
    | InstallMethods | CliSmoke | SelectorDryRun | SelectorTests | WorkflowParse

  datatype Task = Task(key: Key, cwd: Option<string>)

  predicate HasKey(tasks: seq<Task>, key: Key) {
    exists t | t in tasks :: t.key == key
  }

  function AddTask(tasks: seq<Task>, t: Task): seq<Task> {
    if HasKey(tasks, t.key) then tasks else tasks + [t]
  }

  function AddAll(tasks: seq<Task>, wanted: seq<Task>): seq<Task> {
    if wanted == [] then tasks else AddTask(AddAll(tasks, wanted[..|wanted| - 1]), wanted[|wanted| - 1])
  }

  lemma {:induction false} AddAllConcat(tasks: seq<Task>, a: seq<Task>, b: seq<Task>)
    ensures AddAll(tasks, a + b) == AddAll(AddAll(tasks, a), b)
  {
    if b == [] {
      assert a + b == a;
    } else {
      assert (a + b)[..|a + b| - 1] == a + b[..|b| - 1];
      AddAllConcat(tasks, a, b[..|b| - 1]);
    }
  }

  predicate DistinctKeys(tasks: seq<Task>) {
    forall i, j | 0 <= i < j < |tasks| :: tasks[i].key != tasks[j].key
  }

  predicate HasScript(p: Package, script: string) {
    Entry(p.manifest.scripts, script) != ""
  }

  const CHECK := "check"
  const TEST := "test"

  function Root(keys: seq<Key>): seq<Task> {
    if keys == [] then [] else Root(keys[..|keys| - 1]) + [Task(keys[|keys| - 1], None)]
  }

  function TasksOf(p: Package): seq<Task> {
    (if HasScript(p, CHECK) then [Task(CheckOf(p.name), Some(p.dir))] else [])
    + (if HasScript(p, TEST) then [Task(TestOf(p.name), Some(p.dir))] else [])
  }

  function PackageTasks(affected: seq<Package>): seq<Task> {
    if affected == [] then []
    else PackageTasks(affected[..|affected| - 1]) + TasksOf(affected[|affected| - 1])
  }

  predicate AnyTest(affected: seq<Package>) {
    exists p | p in affected :: HasScript(p, TEST)
  }

  function If(c: bool, keys: seq<Key>): seq<Task> {
    if c then Root(keys) else []
  }

  /** The tasks of the workspace or of its affected packages. */
  function Validation(f: Flags, affected: seq<Package>): seq<Task> {
    if f.full then Root([RootCheck, NativeLinux, RootTest])
    else if f.PerPackage() then If(AnyTest(affected), [NativeLinux]) + PackageTasks(affected)
    else []
  }

  function SdkTasks(c: bool): seq<Task> {
    if c then [Task(NativeLinux, None), Task(SdkBuild, Some(SDK_DIR)), Task(SdkSmoke, Some(SDK_DIR))] else []
  }

  function WebTasks(c: bool): seq<Task> {
    if c then [Task(WebTypecheck, Some(WEB_DIR)), Task(WebBuild, Some(WEB_DIR))] else []
  }

  function ScriptTasks(f: Flags): seq<Task> {
    If(f.tooling && f.PerPackage(), [RootCheck]) + If(f.publish, [ReleaseContract, ReleaseDryRun]) + SdkTasks(f.sdk)
  }

  function LanguageTasks(f: Flags): seq<Task> {
    If(f.python, [PythonLint, PythonTest]) + WebTasks(f.web) + If(f.rust, [RustCheck, RustTest])
  }

  function SmokeTasks(f: Flags): seq<Task> {
    If(f.install, [InstallMethods]) + If(f.runtime, [CliSmoke])
    + If(f.harness, [SelectorDryRun, SelectorTests]) + If(f.harness && f.workflow, [WorkflowParse])
  }

  /** What else the paths ask for, in the order of planning. */
  function Extras(f: Flags): seq<Task> {
    ScriptTasks(f) + LanguageTasks(f) + SmokeTasks(f)
  }

  function Wanted(f: Flags, affected: seq<Package>): seq<Task> {
    If(f.runtime, [NativeBuild]) + Validation(f, affected) + Extras(f)
  }

  function PlanOf(f: Flags, affected: seq<Package>): seq<Task> {
    AddAll([], Wanted(f, affected))
  }

  // ---------------------------------------------------------------------------------------------
  // Keys

  lemma HasKeyConcat(a: seq<Task>, b: seq<Task>, key: Key)
    ensures HasKey(a + b, key) <==> HasKey(a, key) || HasKey(b, key)
  {
    assert forall t :: t in a + b <==> t in a || t in b;
  }

  lemma AddTaskKeys(tasks: seq<Task>, t: Task)
    requires DistinctKeys(tasks)
    ensures DistinctKeys(AddTask(tasks, t))
    ensures forall k :: HasKey(AddTask(tasks, t), k) <==> HasKey(tasks, k) || t.key == k
  {
    if !HasKey(tasks, t.key) {
      assert forall i | 0 <= i < |tasks| :: tasks[i] in tasks && tasks[i].key != t.key;
      assert forall u :: u in tasks + [t] <==> u in tasks || u == t;
    }
  }

  /** Each wanted key is planned once, and no other key. */
  lemma {:induction false} AddAllKeys(wanted: seq<Task>)
    ensures DistinctKeys(AddAll([], wanted))
    ensures forall k :: HasKey(AddAll([], wanted), k) <==> HasKey(wanted, k)
  {
    if wanted != [] {
      var n := |wanted| - 1;
      AddAllKeys(wanted[..n]);
      AddTaskKeys(AddAll([], wanted[..n]), wanted[n]);
      assert wanted == wanted[..n] + [wanted[n]];
      forall k ensures HasKey(wanted, k) <==> HasKey(wanted[..n], k) || wanted[n].key == k {
        HasKeyConcat(wanted[..n], [wanted[n]], k);
      }
    }
  }

  /** A planned task is the first wanted one with its key. */
  lemma {:induction false} AddAllMembers(wanted: seq<Task>)
    ensures forall t | t in AddAll([], wanted) :: t in wanted
  {
    if wanted != [] {
      AddAllMembers(wanted[..|wanted| - 1]);
    }
  }

  lemma {:induction false} RootKeys(keys: seq<Key>, k: Key)
    ensures HasKey(Root(keys), k) <==> k in keys
  {
    if keys != [] {
      var n := |keys| - 1;
      RootKeys(keys[..n], k);
      HasKeyConcat(Root(keys[..n]), [Task(keys[n], None)], k);
      assert keys == keys[..n] + [keys[n]];
    }
  }

  /** The keys that only the validation of the workspace or of its packages plans. */
  predicate IsValidation(key: Key) { key.CheckOf? || key.TestOf? || key.RootTest? }

  predicate NoValidation(tasks: seq<Task>) {
    tasks != [] ==> !IsValidation(tasks[|tasks| - 1].key) && NoValidation(tasks[..|tasks| - 1])
  }

  lemma {:induction false} PlainMeans(tasks: seq<Task>, key: Key)
    requires NoValidation(tasks) && IsValidation(key)
    ensures !HasKey(tasks, key)
  {
    if tasks != [] {
      PlainMeans(tasks[..|tasks| - 1], key);
      HasKeyConcat(tasks[..|tasks| - 1], [tasks[|tasks| - 1]], key);
      assert tasks == tasks[..|tasks| - 1] + [tasks[|tasks| - 1]];
    }
  }

  lemma {:induction false} PlainConcat(a: seq<Task>, b: seq<Task>)
    requires NoValidation(a) && NoValidation(b)
    ensures NoValidation(a + b)
  {
    if b == [] {
      assert a + b == a;
    } else {
      assert (a + b)[..|a + b| - 1] == a + b[..|b| - 1];
      PlainConcat(a, b[..|b| - 1]);
    }
  }

  predicate PlainKeys(keys: seq<Key>) {
    forall i | 0 <= i < |keys| :: !IsValidation(keys[i])
  }

  lemma {:induction false} RootIsPlain(keys: seq<Key>)
    requires PlainKeys(keys)
    ensures NoValidation(Root(keys))
  {
    if keys != [] {
      RootIsPlain(keys[..|keys| - 1]);
    }
  }

  /** Plain tasks followed by some more. */
  lemma PlainThen(a: seq<Task>, c: bool, keys: seq<Key>)
    requires NoValidation(a) && PlainKeys(keys)
    ensures NoValidation(a + If(c, keys))
  {
    RootIsPlain(keys);
    PlainConcat(a, If(c, keys));
  }

  lemma ScriptTasksArePlain(f: Flags)
    ensures NoValidation(ScriptTasks(f))
  {
    var a := If(f.tooling && f.PerPackage(), [RootCheck]);
    RootIsPlain([RootCheck]);
    PlainThen(a, f.publish, [ReleaseContract, ReleaseDryRun]);
    PlainConcat(a + If(f.publish, [ReleaseContract, ReleaseDryRun]), SdkTasks(f.sdk));
  }

  lemma LanguageTasksArePlain(f: Flags)
    ensures NoValidation(LanguageTasks(f))
  {
    var a := If(f.python, [PythonLint, PythonTest]);
    RootIsPlain([PythonLint, PythonTest]);
    PlainConcat(a, WebTasks(f.web));
    PlainThen(a + WebTasks(f.web), f.rust, [RustCheck, RustTest]);
  }

  lemma SmokeTasksArePlain(f: Flags)
    ensures NoValidation(SmokeTasks(f))
  {
    var a := If(f.install, [InstallMethods]);
    RootIsPlain([InstallMethods]);
    PlainThen(a, f.runtime, [CliSmoke]);
    var b := a + If(f.runtime, [CliSmoke]);
    PlainThen(b, f.harness, [SelectorDryRun, SelectorTests]);
    PlainThen(b + If(f.harness, [SelectorDryRun, SelectorTests]), f.harness && f.workflow, [WorkflowParse]);
  }

  lemma ExtrasArePlain(f: Flags)
    ensures NoValidation(Extras(f))
  {
    ScriptTasksArePlain(f);
    LanguageTasksArePlain(f);
    SmokeTasksArePlain(f);
    PlainConcat(ScriptTasks(f), LanguageTasks(f));
    PlainConcat(ScriptTasks(f) + LanguageTasks(f), SmokeTasks(f));
  }

  /** The key of the check or the test of a package that has the script. */
  ghost predicate Asks(p: Package, key: Key) {
    || (key == CheckOf(p.name) && HasScript(p, CHECK))
    || (key == TestOf(p.name) && HasScript(p, TEST))
  }

  lemma TasksOfKeys(p: Package, k: Key)
    ensures HasKey(TasksOf(p), k) <==> Asks(p, k)
  {
    var a := if HasScript(p, CHECK) then [Task(CheckOf(p.name), Some(p.dir))] else [];
    var b := if HasScript(p, TEST) then [Task(TestOf(p.name), Some(p.dir))] else [];
    HasKeyConcat(a, b, k);
  }

  ghost predicate AnyAsks(affected: seq<Package>, key: Key) {
    exists p | p in affected :: Asks(p, key)
  }

  lemma AnyAsksSnoc(before: seq<Package>, p: Package, key: Key)
    ensures AnyAsks(before + [p], key) <==> AnyAsks(before, key) || Asks(p, key)
  {
    assert forall q :: q in before + [p] <==> q in before || q == p;
  }

  lemma MoreKeys(tasks: seq<Task>, p: Package, k: Key)
    ensures HasKey(tasks + TasksOf(p), k) <==> HasKey(tasks, k) || Asks(p, k)
  {
    TasksOfKeys(p, k);
    HasKeyConcat(tasks, TasksOf(p), k);
  }

  lemma {:induction false} PackageKeys(affected: seq<Package>, k: Key)
    ensures HasKey(PackageTasks(affected), k) <==> AnyAsks(affected, k)
  {
    if affected != [] {
      var n := |affected| - 1;
      assert affected == affected[..n] + [affected[n]];
      PackageKeys(affected[..n], k);
      AnyAsksSnoc(affected[..n], affected[n], k);
      MoreKeys(PackageTasks(affected[..n]), affected[n], k);
    }
  }

  lemma WantedKeys(f: Flags, affected: seq<Package>, k: Key)
    requires IsValidation(k)
    ensures HasKey(Wanted(f, affected), k) <==> HasKey(Validation(f, affected), k)
    ensures HasKey(Wanted(f, affected), k)
            <==> (k.RootTest? && f.full) || (f.PerPackage() && AnyAsks(affected, k))
  {
    var a := If(f.runtime, [NativeBuild]);
    RootIsPlain([NativeBuild]);
    ExtrasArePlain(f);
    PlainMeans(a, k);
    PlainMeans(Extras(f), k);
    HasKeyConcat(a, Validation(f, affected), k);
    HasKeyConcat(a + Validation(f, affected), Extras(f), k);
    ValidationKeys(f, affected, k);
  }

  lemma ValidationKeys(f: Flags, affected: seq<Package>, k: Key)
    requires IsValidation(k)
    ensures HasKey(Validation(f, affected), k)
            <==> (k.RootTest? && f.full) || (f.PerPackage() && AnyAsks(affected, k))
  {
    RootKeys([RootCheck, NativeLinux, RootTest], k);
    PerPackageKeys(affected, k);
  }

  lemma PerPackageKeys(affected: seq<Package>, k: Key)
    requires IsValidation(k)
    ensures HasKey(If(AnyTest(affected), [NativeLinux]) + PackageTasks(affected), k) <==> AnyAsks(affected, k)
  {
    RootIsPlain([NativeLinux]);
    PlainMeans(If(AnyTest(affected), [NativeLinux]), k);
    PackageKeys(affected, k);
    HasKeyConcat(If(AnyTest(affected), [NativeLinux]), PackageTasks(affected), k);
  }

  /** Each key once; the root tests exactly in the full mode; the check and the test of a package
      exactly if packages are validated one by one and an affected package has the script. */
  lemma PlannedKeys(f: Flags, affected: seq<Package>)
    ensures DistinctKeys(PlanOf(f, affected))
    ensures forall k | IsValidation(k) ::
              HasKey(PlanOf(f, affected), k) <==> (k.RootTest? && f.full) || (f.PerPackage() && AnyAsks(affected, k))
  {
    AddAllKeys(Wanted(f, affected));
    forall k | IsValidation(k)
      ensures HasKey(PlanOf(f, affected), k) <==> (k.RootTest? && f.full) || (f.PerPackage() && AnyAsks(affected, k))
    {
      WantedKeys(f, affected, k);
    }
  }

  lemma {:induction false} PackageTaskIs(affected: seq<Package>, t: Task)
    requires t in PackageTasks(affected)
    ensures exists p | p in affected :: Asks(p, t.key) && t.cwd == Some(p.dir)
  {
    var n := |affected| - 1;
    if t in PackageTasks(affected[..n]) {
      PackageTaskIs(affected[..n], t);
    } else {
      assert t in TasksOf(affected[n]) && affected[n] in affected;
    }
  }

  /** A planned check or test runs in the directory of its package. */
  lemma PlannedPlace(f: Flags, affected: seq<Package>, t: Task)
    requires t in PlanOf(f, affected) && (t.key.CheckOf? || t.key.TestOf?)
    ensures exists p | p in affected :: Asks(p, t.key) && t.cwd == Some(p.dir)
  {
    AddAllMembers(Wanted(f, affected));
    WantedMember(f, affected, t);
    PackageTaskIs(affected, t);
  }

  lemma NotPlain(tasks: seq<Task>, t: Task)
    requires NoValidation(tasks) && IsValidation(t.key)
    ensures t !in tasks
  {
    PlainMeans(tasks, t.key);
  }

  lemma MiddleMember(a: seq<Task>, middle: seq<Task>, b: seq<Task>, t: Task)
    requires t in a + middle + b && IsValidation(t.key) && NoValidation(a) && NoValidation(b)
    ensures t in middle
  {
    NotPlain(a, t);
    NotPlain(b, t);
  }

  lemma WantedMember(f: Flags, affected: seq<Package>, t: Task)
    requires t in Wanted(f, affected) && (t.key.CheckOf? || t.key.TestOf?)
    ensures t in PackageTasks(affected)
  {
    RootIsPlain([NativeBuild]);
    ExtrasArePlain(f);
    MiddleMember(If(f.runtime, [NativeBuild]), Validation(f, affected), Extras(f), t);
    ValidationMember(f, affected, t);
  }

  lemma ValidationMember(f: Flags, affected: seq<Package>, t: Task)
    requires t in Validation(f, affected) && (t.key.CheckOf? || t.key.TestOf?)
    ensures t in PackageTasks(affected)
  {
    var keys := [RootCheck, NativeLinux, RootTest];
    RootKeys(keys, t.key);
    assert t.key !in keys;
    assert t in Root(keys) ==> HasKey(Root(keys), t.key);
    RootIsPlain([NativeLinux]);
    NotPlain(If(AnyTest(affected), [NativeLinux]), t);
  }

  // ---------------------------------------------------------------------------------------------
  // The native build precedes the tests

  predicate IsTest(key: Key) { key.TestOf? || key.RootTest? }

  predicate NativeBefore(tasks: seq<Task>) {
    if tasks == [] then true
    else
      var n := |tasks| - 1;
      (IsTest(tasks[n].key) ==> HasKey(tasks[..n], NativeLinux)) && NativeBefore(tasks[..n])
  }

  lemma {:induction false} NativeConcat(a: seq<Task>, b: seq<Task>)
    requires NativeBefore(a) && (HasKey(a, NativeLinux) || NativeBefore(b))
    ensures NativeBefore(a + b)
  {
    if b == [] {
      assert a + b == a;
    } else {
      var n := |b| - 1;
      assert (a + b)[..|a + b| - 1] == a + b[..n];
      NativeConcat(a, b[..n]);
      HasKeyConcat(a, b[..n], NativeLinux);
    }
  }

  lemma {:induction false} PlainIsNative(tasks: seq<Task>)
    requires NoValidation(tasks)
    ensures NativeBefore(tasks)
  {
    if tasks != [] {
      PlainIsNative(tasks[..|tasks| - 1]);
    }
  }

  lemma {:induction false} NoTestIsNative(affected: seq<Package>)
    requires !AnyTest(affected)
    ensures NativeBefore(PackageTasks(affected))
  {
    if affected != [] {
      var n := |affected| - 1;
      assert affected[n] in affected;
      NoTestIsNative(affected[..n]);
      var own := TasksOf(affected[n]);
      assert NativeBefore(own) by {
        assert own == [] || (|own| == 1 && own[..0] == [] && own[0].key.CheckOf?);
      }
      NativeConcat(PackageTasks(affected[..n]), own);
    }
  }

  lemma ValidationIsNative(f: Flags, affected: seq<Package>)
    ensures NativeBefore(Validation(f, affected))
  {
    if f.full {
      var keys := [RootCheck, NativeLinux, RootTest];
      RootIsPlain(keys[..2]);
      PlainIsNative(Root(keys[..2]));
      RootKeys(keys[..2], NativeLinux);
      assert keys[..2][1] == NativeLinux;
    } else {
      var a := If(AnyTest(affected), [NativeLinux]);
      RootIsPlain([NativeLinux]);
      PlainIsNative(a);
      RootKeys([NativeLinux], NativeLinux);
      if !AnyTest(affected) {
        NoTestIsNative(affected);
      }
      NativeConcat(a, PackageTasks(affected));
    }
  }

  lemma {:induction false} AddAllNative(wanted: seq<Task>)
    requires NativeBefore(wanted)
    ensures NativeBefore(AddAll([], wanted))
  {
    if wanted != [] {
      var n := |wanted| - 1;
      AddAllNative(wanted[..n]);
      AddAllKeys(wanted[..n]);
      var before := AddAll([], wanted[..n]);
      assert (before + [wanted[n]])[..|before|] == before;
    }
  }

  lemma {:induction false} NativeAt(tasks: seq<Task>, i: nat)
    requires NativeBefore(tasks) && i < |tasks| && IsTest(tasks[i].key)
    ensures exists j | 0 <= j < i :: tasks[j].key == NativeLinux
  {
    var n := |tasks| - 1;
    if i < n {
      NativeAt(tasks[..n], i);
      var j :| 0 <= j < i && tasks[..n][j].key == NativeLinux;
      assert tasks[j].key == NativeLinux;
    } else {
      var t :| t in tasks[..n] && t.key == NativeLinux;
      var j :| 0 <= j < n && tasks[..n][j] == t;
      assert tasks[j].key == NativeLinux;
    }
  }

  /** The linux native build stands in front of every test of a package or of the workspace. */
  lemma NativeFirst(f: Flags, affected: seq<Package>, i: nat)
    requires i < |PlanOf(f, affected)|
    requires PlanOf(f, affected)[i].key.TestOf? || PlanOf(f, affected)[i].key == RootTest
    ensures exists j | 0 <= j < i :: PlanOf(f, affected)[j].key == NativeLinux
  {
    var a := If(f.runtime, [NativeBuild]);
    RootIsPlain([NativeBuild]);
    PlainIsNative(a);
    ValidationIsNative(f, affected);
    NativeConcat(a, Validation(f, affected));
    ExtrasArePlain(f);
    PlainIsNative(Extras(f));
    NativeConcat(a + Validation(f, affected), Extras(f));
    AddAllNative(Wanted(f, affected));
    NativeAt(PlanOf(f, affected), i);
  }

  // ---------------------------------------------------------------------------------------------
  // The program

  /** A map that keeps the order of insertion and never overwrites. */
  class TaskMap {
    var tasks: seq<Task>

    constructor ()
      ensures tasks == []
    {
      tasks := [];
    }

    method Add(key: Key, cwd: Option<string>)
      modifies this
      ensures tasks == AddTask(old(tasks), Task(key, cwd))
    {
      if !HasKey(tasks, key) {
        tasks := tasks + [Task(key, cwd)];
      }
    }

    /** Adds root tasks one after the other if `c` holds. */
    method AddIf(c: bool, keys: seq<Key>)
      modifies this
      ensures tasks == AddAll(old(tasks), If(c, keys))
    {
      if c {
        ghost var start := tasks;
        for i := 0 to |keys|
          invariant tasks == AddAll(start, Root(keys[..i]))
        {
          RootStep(start, keys, i);
          Add(keys[i], None);
        }
        assert keys[..|keys|] == keys;
      }
    }

    method AddPackage(p: Package)
      modifies this
      ensures tasks == AddAll(old(tasks), TasksOf(p))
    {
      var check, test := Task(CheckOf(p.name), Some(p.dir)), Task(TestOf(p.name), Some(p.dir));
      ghost var first := if HasScript(p, CHECK) then [check] else [];
      AddAllSnoc(tasks, [], check);
      AddAllSnoc(tasks, first, test);
      assert [] + [check] == [check] && first + [] == first;
      if HasScript(p, CHECK) {
        Add(CheckOf(p.name), Some(p.dir));
      }
      if HasScript(p, TEST) {
        Add(TestOf(p.name), Some(p.dir));
      }
    }

    method AddPackages(affected: seq<Package>)
      modifies this
      ensures tasks == AddAll(old(tasks), PackageTasks(affected))
    {
      for i := 0 to |affected|
        invariant tasks == AddAll(old(tasks), PackageTasks(affected[..i]))
      {
        assert affected[..i + 1][..i] == affected[..i];
        AddAllConcat(old(tasks), PackageTasks(affected[..i]), TasksOf(affected[i]));
        AddPackage(affected[i]);
      }
      assert affected[..|affected|] == affected;
    }

    method AddSdk(c: bool)
      modifies this
      ensures tasks == AddAll(old(tasks), SdkTasks(c))
    {
      if c {
        var all := SdkTasks(true);
        assert all[..2][..1] == [all[0]] && all[..2] + [all[2]] == all && [all[0]] + [all[1]] == all[..2];
        AddAllSnoc(tasks, [], all[0]);
        AddAllSnoc(tasks, [all[0]], all[1]);
        AddAllSnoc(tasks, all[..2], all[2]);
        assert [] + [all[0]] == [all[0]];
        Add(NativeLinux, None);
        Add(SdkBuild, Some(SDK_DIR));
        Add(SdkSmoke, Some(SDK_DIR));
      }
    }

    method AddWeb(c: bool)
      modifies this
      ensures tasks == AddAll(old(tasks), WebTasks(c))
    {
      if c {
        var all := WebTasks(true);
        AddAllSnoc(tasks, [], all[0]);
        AddAllSnoc(tasks, [all[0]], all[1]);
        assert [] + [all[0]] == [all[0]] && [all[0]] + [all[1]] == all;
        Add(WebTypecheck, Some(WEB_DIR));
        Add(WebBuild, Some(WEB_DIR));
      }
    }
  }

  lemma RootStep(tasks: seq<Task>, keys: seq<Key>, i: nat)
    requires i < |keys|
    ensures AddAll(tasks, Root(keys[..i + 1])) == AddTask(AddAll(tasks, Root(keys[..i])), Task(keys[i], None))
  {
    RootSnoc(keys[..i], keys[i]);
    AddAllSnoc(tasks, Root(keys[..i]), Task(keys[i], None));
    assert keys[..i] + [keys[i]] == keys[..i + 1];
  }

  lemma RootSnoc(keys: seq<Key>, k: Key)
    ensures Root(keys + [k]) == Root(keys) + [Task(k, None)]
  {
    assert (keys + [k])[..|keys|] == keys;
  }

  lemma AddAllSnoc(tasks: seq<Task>, wanted: seq<Task>, t: Task)
    ensures AddAll(tasks, wanted + [t]) == AddTask(AddAll(tasks, wanted), t)
  {
    assert (wanted + [t])[..|wanted|] == wanted;
  }

  lemma AddAllThree(tasks: seq<Task>, a: seq<Task>, b: seq<Task>, c: seq<Task>)
    ensures AddAll(tasks, a + b + c) == AddAll(AddAll(AddAll(tasks, a), b), c)
  {
    AddAllConcat(tasks, a + b, c);
    AddAllConcat(tasks, a, b);
  }

  method AddScriptTasks(tasks: TaskMap, f: Flags)
    modifies tasks
    ensures tasks.tasks == AddAll(old(tasks.tasks), ScriptTasks(f))
  {
    AddAllThree(tasks.tasks, If(f.tooling && f.PerPackage(), [RootCheck]),
                If(f.publish, [ReleaseContract, ReleaseDryRun]), SdkTasks(f.sdk));
    tasks.AddIf(f.tooling && f.PerPackage(), [RootCheck]);
    tasks.AddIf(f.publish, [ReleaseContract, ReleaseDryRun]);
    tasks.AddSdk(f.sdk);
  }

  method AddLanguageTasks(tasks: TaskMap, f: Flags)
    modifies tasks
    ensures tasks.tasks == AddAll(old(tasks.tasks), LanguageTasks(f))
  {
    AddAllThree(tasks.tasks, If(f.python, [PythonLint, PythonTest]), WebTasks(f.web),
                If(f.rust, [RustCheck, RustTest]));
    tasks.AddIf(f.python, [PythonLint, PythonTest]);
    tasks.AddWeb(f.web);
    tasks.AddIf(f.rust, [RustCheck, RustTest]);
  }

  method AddSmokeTasks(tasks: TaskMap, f: Flags)
    modifies tasks
    ensures tasks.tasks == AddAll(old(tasks.tasks), SmokeTasks(f))
  {
    var a, b := If(f.install, [InstallMethods]), If(f.runtime, [CliSmoke]);
    var c, d := If(f.harness, [SelectorDryRun, SelectorTests]), If(f.harness && f.workflow, [WorkflowParse]);
    AddAllConcat(tasks.tasks, a + b + c, d);
    AddAllThree(tasks.tasks, a, b, c);
    tasks.AddIf(f.install, [InstallMethods]);
    tasks.AddIf(f.runtime, [CliSmoke]);
    tasks.AddIf(f.harness, [SelectorDryRun, SelectorTests]);
    tasks.AddIf(f.harness && f.workflow, [WorkflowParse]);
  }

  method AddValidation(tasks: TaskMap, f: Flags, affected: seq<Package>)
    modifies tasks
    ensures tasks.tasks == AddAll(old(tasks.tasks), Validation(f, affected))
  {
    if f.full {
      tasks.AddIf(true, [RootCheck, NativeLinux, RootTest]);
    } else if f.PerPackage() {
      AddAllConcat(tasks.tasks, If(AnyTest(affected), [NativeLinux]), PackageTasks(affected));
      tasks.AddIf(AnyTest(affected), [NativeLinux]);
      tasks.AddPackages(affected);
    }
  }

  /** The edges of the workspace, from the packages that the paths touch. */
  ghost predicate IsAffected(paths: seq<string>, packages: seq<Package>, name: string) {
    Reached(EdgesOf(packages), packages, FindTouched(paths, packages), name)
  }

  /** The affected packages of the workspace: each name on a dependency path once, by directory. */
  ghost predicate AreAffected(paths: seq<string>, packages: seq<Package>, affected: seq<Package>,
                              dirLe: (Package, Package) -> bool)
  {
    && (forall n :: Has(affected, n) <==> IsAffected(paths, packages, n))
    && DistinctNames(affected) && (forall p | p in affected :: p in packages)
    && (TotalPreorder(dirLe) ==> SortedBy(affected, dirLe))
  }

  lemma NativeInPlan(f: Flags, affected: seq<Package>)
    ensures var plan := PlanOf(f, affected);
            forall i | 0 <= i < |plan| && (plan[i].key.TestOf? || plan[i].key == RootTest) ::
              exists j | 0 <= j < i :: plan[j].key == NativeLinux
  {
    var plan := PlanOf(f, affected);
    forall i | 0 <= i < |plan| && (plan[i].key.TestOf? || plan[i].key == RootTest)
      ensures exists j | 0 <= j < i :: plan[j].key == NativeLinux
    {
      NativeFirst(f, affected, i);
    }
  }

  method PlanTasks(paths: seq<string>, packages: seq<Package>, dirLe: (Package, Package) -> bool)
    returns (plan: seq<Task>)
    ensures DistinctKeys(plan)
    ensures forall i | 0 <= i < |plan| && (plan[i].key.TestOf? || plan[i].key == RootTest) ::
              exists j | 0 <= j < i :: plan[j].key == NativeLinux
    ensures exists affected: seq<Package> ::
              AreAffected(paths, packages, affected, dirLe) && plan == PlanOf(FlagsOf(paths), affected)
  {
    var f := FlagsOf(paths);
    var affected := ExpandWithDependents(FindTouched(paths, packages), packages, dirLe);
    plan := Schedule(f, affected);
    PlannedKeys(f, affected);
    NativeInPlan(f, affected);
  }

  method Schedule(f: Flags, affected: seq<Package>) returns (plan: seq<Task>)
    ensures plan == PlanOf(f, affected)
  {
    var tasks := new TaskMap();
    AddAllThree([], If(f.runtime, [NativeBuild]), Validation(f, affected), Extras(f));
    AddAllThree(AddAll(AddAll([], If(f.runtime, [NativeBuild])), Validation(f, affected)),
                ScriptTasks(f), LanguageTasks(f), SmokeTasks(f));
    tasks.AddIf(f.runtime, [NativeBuild]);
    AddValidation(tasks, f, affected);
    AddScriptTasks(tasks, f);
    AddLanguageTasks(tasks, f);
    AddSmokeTasks(tasks, f);
    plan := tasks.tasks;
  }

  lemma SameName(packages: seq<Package>, p: Package, q: Package)
    requires DistinctNames(packages) && p in packages && q in packages && p.name == q.name
    ensures p == q
  {
    var i :| 0 <= i < |packages| && packages[i] == p;
    var j :| 0 <= j < |packages| && packages[j] == q;
  }

  lemma OwnKey(packages: seq<Package>, affected: seq<Package>, p: Package, key: Key)
    requires DistinctNames(packages) && p in packages && forall q | q in affected :: q in packages
    requires key == CheckOf(p.name) || key == TestOf(p.name)
    ensures forall q | q in affected && Asks(q, key) :: q == p
    ensures AnyAsks(affected, key) <==> Has(affected, p.name) && Asks(p, key)
  {
    forall q | q in affected && q.name == p.name ensures q == p {
      SameName(packages, p, q);
    }
  }

  lemma PackageIsPlanned(f: Flags, packages: seq<Package>, affected: seq<Package>, p: Package, key: Key)
    requires DistinctNames(packages) && p in packages && forall q | q in affected :: q in packages
    requires key == CheckOf(p.name) || key == TestOf(p.name)
    ensures HasKey(PlanOf(f, affected), key) <==> f.PerPackage() && Has(affected, p.name) && Asks(p, key)
    ensures forall t | t in PlanOf(f, affected) && t.key == key :: t.cwd == Some(p.dir)
  {
    OwnKey(packages, affected, p, key);
    PlannedKeys(f, affected);
    forall t | t in PlanOf(f, affected) && t.key == key ensures t.cwd == Some(p.dir) {
      PlannedPlace(f, affected, t);
    }
  }

  /** With distinct package names, the check or the test of a package is planned exactly if packages
      are validated one by one, the package depends on a touched one, and it has the script; the task
      runs in the directory of the package. */
  lemma PackageIsPlannedIff(paths: seq<string>, packages: seq<Package>, affected: seq<Package>,
                            dirLe: (Package, Package) -> bool, p: Package, key: Key)
    requires DistinctNames(packages) && p in packages && (key == CheckOf(p.name) || key == TestOf(p.name))
    requires AreAffected(paths, packages, affected, dirLe)
    ensures var plan := PlanOf(FlagsOf(paths), affected);
            && (HasKey(plan, key)
                <==> FlagsOf(paths).PerPackage() && IsAffected(paths, packages, p.name) && Asks(p, key))
            && (forall t | t in plan && t.key == key :: t.cwd == Some(p.dir))
  {
    PackageIsPlanned(FlagsOf(paths), packages, affected, p, key);
  }
}

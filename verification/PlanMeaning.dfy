/** Which tasks are planned for which changed paths. */
module PlanMeaning {
  import opened Wrappers
  import opened Affected
  import opened Plan

  // ---------------------------------------------------------------------------------------------
  // What the paths say

  predicate IsRootConfig(p: string) {
    p in {"package.json", "bunfig.toml", "biome.json", "tsconfig.json", "tsconfig.base.json", "tsconfig.tools.json"}
  }

  /** The root manifest is changed, and besides it only what publishes a release. */
  predicate OnlyRelease(paths: seq<string>) {
    && "package.json" in paths
    && forall p | p in paths ::
         p in {"package.json", "scripts/ci-dev-affected.ts", "scripts/ci-release-publish.ts",
               "scripts/install-tests/tarball.dockerfile", "scripts/release-publish-order.test.ts",
               "scripts/sync-versions.ts"}
  }

  /** The whole workspace is validated. */
  predicate WholeWorkspace(paths: seq<string>) {
    (exists p | p in paths :: IsRootConfig(p)) && !OnlyRelease(paths)
  }

  predicate IsSelector(p: string) {
    || ".github/workflows/" <= p
    || p in {"scripts/ci-dev-affected.ts", "scripts/ci-dev-affected.test.ts", "scripts/check-workflow-yaml.ts"}
  }

  /** Packages are validated one by one: the workspace is not, and something besides the workflows, and
      besides the selector itself, is changed. */
  predicate OneByOne(paths: seq<string>) {
    && !WholeWorkspace(paths)
    && (paths == [] || exists p | p in paths :: !(".github/" <= p))
    && (paths == [] || exists p | p in paths :: !IsSelector(p))
  }

  predicate NeedsRuntime(paths: seq<string>) {
    || WholeWorkspace(paths)
    || exists p | p in paths :: "packages/coding-agent/" <= p || "packages/agent/" <= p || "packages/ai/" <= p
  }

  /** The last name of the path, whatever slashes are behind it. */
  predicate EndsInName(p: string, i: nat, name: string) {
    && i + |name| <= |p| && p[i..i + |name|] == name && (i > 0 ==> p[i - 1] == '/')
    && forall j | i + |name| <= j < |p| :: p[j] == '/'
  }

  predicate IsRustName(name: string) {
    name in {"Cargo.toml", "Cargo.lock", "rust-toolchain", "rust-toolchain.toml", "rustfmt.toml", ".rustfmt.toml",
             "clippy.toml", ".clippy.toml"}
  }

  ghost predicate IsRustPath(p: string) {
    "crates/" <= p || ".cargo/" <= p || exists i: nat, name: string :: EndsInName(p, i, name) && IsRustName(name)
  }

  // ---------------------------------------------------------------------------------------------
  // Names of paths

  lemma {:induction false} DropSlashesShape(p: string) returns (n: nat)
    ensures n <= |p| && DropSlashes(p) == p[..n] && (n > 0 ==> p[n - 1] != '/')
    ensures forall j | n <= j < |p| :: p[j] == '/'
  {
    n := |p|;
    assert p[..n] == p;
    if p != "" && p[|p| - 1] == '/' {
      n := DropSlashesShape(p[..|p| - 1]);
      assert p[..|p| - 1][..n] == p[..n];
    }
  }

  predicate IsLastPart(p: string, i: nat) {
    i <= |p| && (i > 0 ==> p[i - 1] == '/') && forall j | i <= j < |p| :: p[j] != '/'
  }

  lemma LastPartMore(front: string, c: char, i: nat)
    requires IsLastPart(front, i) && c != '/'
    ensures IsLastPart(front + [c], i) && (front + [c])[i..] == front[i..] + [c]
  {
  }

  lemma {:induction false} LastPartShape(p: string) returns (i: nat)
    ensures IsLastPart(p, i) && LastPart(p) == p[i..]
  {
    i := |p|;
    if p != "" && p[|p| - 1] != '/' {
      var front := p[..|p| - 1];
      i := LastPartShape(front);
      assert p == front + [p[|p| - 1]];
      LastPartMore(front, p[|p| - 1], i);
    }
  }

  predicate NoSlash(name: string) { forall j | 0 <= j < |name| :: name[j] != '/' }

  lemma NameChars(p: string, i: nat, name: string, j: nat)
    requires EndsInName(p, i, name) && NoSlash(name) && i <= j < i + |name|
    ensures p[j] != '/'
  {
    assert p[j] == p[i..i + |name|][j - i];
  }

  lemma EndsWhere(p: string, i: nat, name: string, n: nat)
    requires EndsInName(p, i, name) && NoSlash(name) && name != "" && n <= |p|
    requires (n > 0 ==> p[n - 1] != '/') && forall j | n <= j < |p| :: p[j] == '/'
    ensures n == i + |name|
  {
    NameChars(p, i, name, i + |name| - 1);
  }

  lemma StartsWhere(p: string, i: nat, name: string, start: nat)
    requires EndsInName(p, i, name) && NoSlash(name) && name != "" && start <= i + |name|
    requires (start > 0 ==> p[start - 1] == '/') && forall j | start <= j < i + |name| :: p[j] != '/'
    ensures start == i
  {
    if start > i {
      NameChars(p, i, name, start - 1);
    }
  }

  lemma BasenameAt(p: string) returns (i: nat)
    ensures EndsInName(p, i, Basename(p))
  {
    var n := DropSlashesShape(p);
    i := LastPartShape(p[..n]);
    assert p[..n][i..] == p[i..n];
  }

  lemma BasenameIs(p: string, i: nat, name: string)
    requires name != "" && NoSlash(name) && EndsInName(p, i, name)
    ensures Basename(p) == name
  {
    var n := DropSlashesShape(p);
    EndsWhere(p, i, name, n);
    var start := LastPartShape(p[..n]);
    StartsWhere(p, i, name, start);
    assert p[..n][i..] == p[i..n];
  }

  /** The base name of a path is the last name in it. */
  lemma BasenameIff(p: string, name: string)
    requires name != "" && NoSlash(name)
    ensures Basename(p) == name <==> exists i: nat :: EndsInName(p, i, name)
  {
    var start := BasenameAt(p);
    forall i: nat | EndsInName(p, i, name) ensures Basename(p) == name {
      BasenameIs(p, i, name);
    }
  }

  lemma RustNames(name: string)
    ensures name in RUST_FILES <==> IsRustName(name)
    ensures IsRustName(name) ==> name != "" && NoSlash(name)
  {
  }

  lemma RustIff(p: string)
    ensures IsRust(p) <==> IsRustPath(p)
  {
    RustNames(Basename(p));
    if Basename(p) in RUST_FILES {
      BasenameIff(p, Basename(p));
    }
    forall i: nat, name: string | EndsInName(p, i, name) && IsRustName(name) ensures Basename(p) in RUST_FILES {
      RustNames(name);
      BasenameIff(p, name);
    }
  }

  // ---------------------------------------------------------------------------------------------
  // The flags

  lemma ReleaseIff(paths: seq<string>)
    ensures ReleaseHarnessOnly(paths) <==> OnlyRelease(paths)
  {
    assert forall p :: p == MANIFEST || p == PUBLISH_SCRIPT || p in RELEASE_HARNESS
                       <==> p in {"package.json", "scripts/ci-dev-affected.ts", "scripts/ci-release-publish.ts",
                                  "scripts/install-tests/tarball.dockerfile", "scripts/release-publish-order.test.ts",
                                  "scripts/sync-versions.ts"};
  }

  lemma ModeFlags(paths: seq<string>)
    ensures var f := FlagsOf(paths);
            && (f.full <==> WholeWorkspace(paths)) && (f.PerPackage() <==> OneByOne(paths))
            && (f.runtime <==> NeedsRuntime(paths))
            && (f.harness <==> exists p | p in paths :: IsSelector(p))
            && (f.harness && f.workflow <==> exists p | p in paths :: ".github/workflows/" <= p)
  {
    ReleaseIff(paths);
    assert forall p :: p in ROOT_CONFIG <==> IsRootConfig(p);
    assert forall p :: IsHarness(p) <==> IsSelector(p);
  }

  lemma PathFlags(paths: seq<string>)
    ensures var f := FlagsOf(paths);
            && (f.python <==> exists p | p in paths :: "python/robojwc/" <= p && !("python/robojwc/web/" <= p))
            && (f.web <==> exists p | p in paths :: "python/robojwc/web/" <= p)
            && (f.rust <==> exists p | p in paths :: IsRustPath(p))
            && (f.install <==> exists p | p in paths ::
                  "scripts/install" <= p || p == "Dockerfile" || p == "Dockerfile.dockerignore")
            && (f.publish <==> "scripts/ci-release-publish.ts" in paths)
            && (f.sdk <==> exists p | p in paths :: "packages/jwc/" <= p)
            && (f.tooling <==> exists p | p in paths :: "scripts/" <= p || p == "bun.lock")
  {
    assert WEB_DIR + "/" == "python/robojwc/web/" && SDK_DIR + "/" == "packages/jwc/";
    forall p ensures IsRust(p) <==> IsRustPath(p) {
      RustIff(p);
    }
  }

  // ---------------------------------------------------------------------------------------------
  // The keys

  ghost predicate AskedByMode(f: Flags, affected: seq<Package>, k: Key) {
    || (f.full && k in {RootCheck, NativeLinux, RootTest})
    || (f.PerPackage() && ((AnyTest(affected) && k == NativeLinux) || AnyAsks(affected, k)))
  }

  predicate AskedByScripts(f: Flags, k: Key) {
    || (f.tooling && f.PerPackage() && k == RootCheck) || (f.publish && k in {ReleaseContract, ReleaseDryRun})
    || (f.sdk && k in {NativeLinux, SdkBuild, SdkSmoke})
  }

  predicate AskedByLanguages(f: Flags, k: Key) {
    || (f.python && k in {PythonLint, PythonTest}) || (f.web && k in {WebTypecheck, WebBuild})
    || (f.rust && k in {RustCheck, RustTest})
  }

  predicate AskedBySmoke(f: Flags, k: Key) {
    || (f.install && k == InstallMethods) || (f.runtime && k == CliSmoke)
    || (f.harness && k in {SelectorDryRun, SelectorTests}) || (f.harness && f.workflow && k == WorkflowParse)
  }

  lemma IfKeys(c: bool, keys: seq<Key>, k: Key)
    ensures HasKey(If(c, keys), k) <==> c && k in keys
  {
    RootKeys(keys, k);
  }

  lemma SdkKeys(c: bool, k: Key)
    ensures HasKey(SdkTasks(c), k) <==> c && k in {NativeLinux, SdkBuild, SdkSmoke}
  {
    var all := SdkTasks(true);
    assert all[0].key == NativeLinux && all[1].key == SdkBuild && all[2].key == SdkSmoke;
  }

  lemma WebKeys(c: bool, k: Key)
    ensures HasKey(WebTasks(c), k) <==> c && k in {WebTypecheck, WebBuild}
  {
    var all := WebTasks(true);
    assert all[0].key == WebTypecheck && all[1].key == WebBuild;
  }

  lemma ScriptKeys(f: Flags, k: Key)
    ensures HasKey(ScriptTasks(f), k) <==> AskedByScripts(f, k)
  {
    var a, b := If(f.tooling && f.PerPackage(), [RootCheck]), If(f.publish, [ReleaseContract, ReleaseDryRun]);
    IfKeys(f.tooling && f.PerPackage(), [RootCheck], k);
    IfKeys(f.publish, [ReleaseContract, ReleaseDryRun], k);
    SdkKeys(f.sdk, k);
    HasKeyConcat(a, b, k);
    HasKeyConcat(a + b, SdkTasks(f.sdk), k);
  }

  lemma LanguageKeys(f: Flags, k: Key)
    ensures HasKey(LanguageTasks(f), k) <==> AskedByLanguages(f, k)
  {
    var a, b := If(f.python, [PythonLint, PythonTest]), If(f.rust, [RustCheck, RustTest]);
    IfKeys(f.python, [PythonLint, PythonTest], k);
    IfKeys(f.rust, [RustCheck, RustTest], k);
    WebKeys(f.web, k);
    HasKeyConcat(a, WebTasks(f.web), k);
    HasKeyConcat(a + WebTasks(f.web), b, k);
  }

  lemma SmokeKeys(f: Flags, k: Key)
    ensures HasKey(SmokeTasks(f), k) <==> AskedBySmoke(f, k)
  {
    var a, b := If(f.install, [InstallMethods]), If(f.runtime, [CliSmoke]);
    var c, d := If(f.harness, [SelectorDryRun, SelectorTests]), If(f.harness && f.workflow, [WorkflowParse]);
    IfKeys(f.install, [InstallMethods], k);
    IfKeys(f.runtime, [CliSmoke], k);
    IfKeys(f.harness, [SelectorDryRun, SelectorTests], k);
    IfKeys(f.harness && f.workflow, [WorkflowParse], k);
    HasKeyConcat(a, b, k);
    HasKeyConcat(a + b, c, k);
    HasKeyConcat(a + b + c, d, k);
  }

  lemma ModeKeys(f: Flags, affected: seq<Package>, k: Key)
    ensures HasKey(Validation(f, affected), k) <==> AskedByMode(f, affected, k)
  {
    RootKeys([RootCheck, NativeLinux, RootTest], k);
    IfKeys(AnyTest(affected), [NativeLinux], k);
    PackageKeys(affected, k);
    HasKeyConcat(If(AnyTest(affected), [NativeLinux]), PackageTasks(affected), k);
  }

  lemma PartsOfPlan(f: Flags, affected: seq<Package>, k: Key)
    ensures HasKey(PlanOf(f, affected), k)
            <==> || (f.runtime && k == NativeBuild) || HasKey(Validation(f, affected), k)
                 || HasKey(ScriptTasks(f), k) || HasKey(LanguageTasks(f), k) || HasKey(SmokeTasks(f), k)
  {
    AddAllKeys(Wanted(f, affected));
    var a := If(f.runtime, [NativeBuild]);
    IfKeys(f.runtime, [NativeBuild], k);
    HasKeyConcat(a, Validation(f, affected), k);
    HasKeyConcat(a + Validation(f, affected), Extras(f), k);
    HasKeyConcat(ScriptTasks(f), LanguageTasks(f), k);
    HasKeyConcat(ScriptTasks(f) + LanguageTasks(f), SmokeTasks(f), k);
  }

  // ---------------------------------------------------------------------------------------------
  // Each task by the paths that ask for it

  /** The package has the script. */
  predicate Runs(p: Package, script: string) {
    p.manifest.scripts.Some? && script in p.manifest.scripts.value && p.manifest.scripts.value[script] != ""
  }

  lemma RunsIff(p: Package)
    ensures HasScript(p, CHECK) <==> Runs(p, "check")
    ensures HasScript(p, TEST) <==> Runs(p, "test")
  {
  }

  predicate AnyRuns(affected: seq<Package>, name: string, script: string) {
    exists p | p in affected :: p.name == name && Runs(p, script)
  }

  lemma AsksIff(affected: seq<Package>, name: string)
    ensures AnyTest(affected) <==> exists p | p in affected :: Runs(p, "test")
    ensures AnyAsks(affected, CheckOf(name)) <==> AnyRuns(affected, name, "check")
    ensures AnyAsks(affected, TestOf(name)) <==> AnyRuns(affected, name, "test")
  {
    forall p: Package ensures (HasScript(p, CHECK) <==> Runs(p, "check")) && (HasScript(p, TEST) <==> Runs(p, "test")) {
      RunsIff(p);
    }
  }

  lemma NoOneAsks(affected: seq<Package>, key: Key)
    requires !key.CheckOf? && !key.TestOf?
    ensures !AnyAsks(affected, key)
  {
  }

  predicate Planned(paths: seq<string>, affected: seq<Package>, key: Key) {
    HasKey(PlanOf(FlagsOf(paths), affected), key)
  }

  lemma PlannedIff(f: Flags, affected: seq<Package>, k: Key)
    ensures HasKey(PlanOf(f, affected), k)
            <==> || (f.runtime && k == NativeBuild) || AskedByMode(f, affected, k) || AskedByScripts(f, k)
                 || AskedByLanguages(f, k) || AskedBySmoke(f, k)
  {
    PartsOfPlan(f, affected, k);
    ModeKeys(f, affected, k);
    ScriptKeys(f, k);
    LanguageKeys(f, k);
    SmokeKeys(f, k);
  }

  predicate AskedByFlags(f: Flags, anyTest: bool, k: Key) {
    || (f.runtime && k == NativeBuild) || (f.full && k in {RootCheck, NativeLinux, RootTest})
    || (f.PerPackage() && anyTest && k == NativeLinux) || AskedByScripts(f, k) || AskedByLanguages(f, k)
    || AskedBySmoke(f, k)
  }

  /** For a key that no package asks for. */
  lemma FixedIff(f: Flags, affected: seq<Package>, k: Key)
    requires !k.CheckOf? && !k.TestOf?
    ensures HasKey(PlanOf(f, affected), k) <==> AskedByFlags(f, AnyTest(affected), k)
  {
    PlannedIff(f, affected, k);
    NoOneAsks(affected, k);
  }

  lemma ScriptAsked(f: Flags, anyTest: bool, k: Key)
    requires k.ReleaseContract? || k.ReleaseDryRun? || k.SdkBuild? || k.SdkSmoke?
    ensures AskedByFlags(f, anyTest, k) <==> if k.SdkBuild? || k.SdkSmoke? then f.sdk else f.publish
  {
  }

  lemma ScriptPlanned(f: Flags, affected: seq<Package>, k: Key)
    requires k.ReleaseContract? || k.ReleaseDryRun? || k.SdkBuild? || k.SdkSmoke?
    ensures HasKey(PlanOf(f, affected), k) <==> if k.SdkBuild? || k.SdkSmoke? then f.sdk else f.publish
  {
    FixedIff(f, affected, k);
    ScriptAsked(f, AnyTest(affected), k);
  }

  lemma LanguageAsked(f: Flags, anyTest: bool, k: Key)
    requires k.PythonLint? || k.PythonTest? || k.WebTypecheck? || k.WebBuild? || k.RustCheck? || k.RustTest?
    ensures AskedByFlags(f, anyTest, k)
            <==> if k.PythonLint? || k.PythonTest? then f.python
                 else if k.WebTypecheck? || k.WebBuild? then f.web else f.rust
  {
  }

  lemma LanguagePlanned(f: Flags, affected: seq<Package>, k: Key)
    requires k.PythonLint? || k.PythonTest? || k.WebTypecheck? || k.WebBuild? || k.RustCheck? || k.RustTest?
    ensures HasKey(PlanOf(f, affected), k)
            <==> if k.PythonLint? || k.PythonTest? then f.python
                 else if k.WebTypecheck? || k.WebBuild? then f.web else f.rust
  {
    FixedIff(f, affected, k);
    LanguageAsked(f, AnyTest(affected), k);
  }

  lemma SmokeAsked(f: Flags, anyTest: bool, k: Key)
    requires k.InstallMethods? || k.CliSmoke? || k.SelectorDryRun? || k.SelectorTests? || k.WorkflowParse?
    ensures AskedByFlags(f, anyTest, k)
            <==> if k.InstallMethods? then f.install else if k.CliSmoke? then f.runtime
                 else f.harness && (k.WorkflowParse? ==> f.workflow)
  {
  }

  lemma SmokePlanned(f: Flags, affected: seq<Package>, k: Key)
    requires k.InstallMethods? || k.CliSmoke? || k.SelectorDryRun? || k.SelectorTests? || k.WorkflowParse?
    ensures HasKey(PlanOf(f, affected), k)
            <==> if k.InstallMethods? then f.install else if k.CliSmoke? then f.runtime
                 else f.harness && (k.WorkflowParse? ==> f.workflow)
  {
    FixedIff(f, affected, k);
    SmokeAsked(f, AnyTest(affected), k);
  }

  lemma NativeAsked(f: Flags, anyTest: bool, k: Key)
    requires k.NativeBuild?
    ensures AskedByFlags(f, anyTest, k) <==> f.runtime
  {
  }

  lemma NativePlanned(f: Flags, affected: seq<Package>, k: Key)
    requires k.NativeBuild?
    ensures HasKey(PlanOf(f, affected), k) <==> f.runtime
  {
    FixedIff(f, affected, k);
    NativeAsked(f, AnyTest(affected), k);
  }

  lemma RootKeyAsked(f: Flags, anyTest: bool, k: Key)
    requires k.RootTest? || k.RootCheck? || k.NativeLinux?
    ensures AskedByFlags(f, anyTest, k)
            <==> || f.full || (k.RootCheck? && f.PerPackage() && f.tooling)
                 || (k.NativeLinux? && (f.sdk || (f.PerPackage() && anyTest)))
  {
  }

  lemma RootKeyPlanned(f: Flags, affected: seq<Package>, k: Key)
    requires k.RootTest? || k.RootCheck? || k.NativeLinux?
    ensures HasKey(PlanOf(f, affected), k)
            <==> || f.full || (k.RootCheck? && f.PerPackage() && f.tooling)
                 || (k.NativeLinux? && (f.sdk || (f.PerPackage() && AnyTest(affected))))
  {
    FixedIff(f, affected, k);
    RootKeyAsked(f, AnyTest(affected), k);
  }

  lemma NotFixed(f: Flags, k: Key)
    requires k.CheckOf? || k.TestOf?
    ensures !AskedByScripts(f, k) && !AskedByLanguages(f, k) && !AskedBySmoke(f, k)
  {
  }

  lemma PackageKeyPlanned(f: Flags, affected: seq<Package>, k: Key)
    requires k.CheckOf? || k.TestOf?
    ensures HasKey(PlanOf(f, affected), k) <==> f.PerPackage() && AnyAsks(affected, k)
  {
    PlannedIff(f, affected, k);
    NotFixed(f, k);
  }

  /** The tasks of the whole workspace. */
  lemma WorkspaceTasks(paths: seq<string>, affected: seq<Package>)
    ensures Planned(paths, affected, RootTest) <==> WholeWorkspace(paths)
    ensures Planned(paths, affected, RootCheck)
            <==> || WholeWorkspace(paths)
                 || (OneByOne(paths) && exists p | p in paths :: "scripts/" <= p || p == "bun.lock")
    ensures Planned(paths, affected, NativeLinux)
            <==> || WholeWorkspace(paths) || (OneByOne(paths) && exists p | p in affected :: Runs(p, "test"))
                 || exists p | p in paths :: "packages/jwc/" <= p
  {
    var f := FlagsOf(paths);
    RootKeyPlanned(f, affected, RootTest);
    RootKeyPlanned(f, affected, RootCheck);
    RootKeyPlanned(f, affected, NativeLinux);
    AsksIff(affected, "");
    ModeFlags(paths);
    PathFlags(paths);
  }

  /** The checks and tests of packages. */
  lemma PackageTasksPlanned(paths: seq<string>, affected: seq<Package>, name: string)
    ensures Planned(paths, affected, CheckOf(name)) <==> OneByOne(paths) && AnyRuns(affected, name, "check")
    ensures Planned(paths, affected, TestOf(name)) <==> OneByOne(paths) && AnyRuns(affected, name, "test")
  {
    PackageKeyPlanned(FlagsOf(paths), affected, CheckOf(name));
    PackageKeyPlanned(FlagsOf(paths), affected, TestOf(name));
    AsksIff(affected, name);
    ModeFlags(paths);
  }

  /** The tasks for other languages. */
  lemma LanguageTasksPlanned(paths: seq<string>, affected: seq<Package>)
    ensures Planned(paths, affected, PythonLint) && Planned(paths, affected, PythonTest)
            <==> exists p | p in paths :: "python/robojwc/" <= p && !("python/robojwc/web/" <= p)
    ensures Planned(paths, affected, WebTypecheck) && Planned(paths, affected, WebBuild)
            <==> exists p | p in paths :: "python/robojwc/web/" <= p
    ensures Planned(paths, affected, RustCheck) && Planned(paths, affected, RustTest)
            <==> exists p | p in paths :: IsRustPath(p)
    ensures Planned(paths, affected, PythonLint) == Planned(paths, affected, PythonTest)
    ensures Planned(paths, affected, WebTypecheck) == Planned(paths, affected, WebBuild)
    ensures Planned(paths, affected, RustCheck) == Planned(paths, affected, RustTest)
  {
    var f := FlagsOf(paths);
    LanguagePlanned(f, affected, PythonLint);
    LanguagePlanned(f, affected, PythonTest);
    LanguagePlanned(f, affected, WebTypecheck);
    LanguagePlanned(f, affected, WebBuild);
    LanguagePlanned(f, affected, RustCheck);
    LanguagePlanned(f, affected, RustTest);
    PathFlags(paths);
  }

  /** The tasks for releases and the SDK. */
  lemma ReleaseTasksPlanned(paths: seq<string>, affected: seq<Package>)
    ensures Planned(paths, affected, ReleaseContract) == Planned(paths, affected, ReleaseDryRun)
            == ("scripts/ci-release-publish.ts" in paths)
    ensures Planned(paths, affected, SdkBuild) && Planned(paths, affected, SdkSmoke)
            <==> exists p | p in paths :: "packages/jwc/" <= p
    ensures Planned(paths, affected, SdkBuild) == Planned(paths, affected, SdkSmoke)
  {
    var f := FlagsOf(paths);
    ScriptPlanned(f, affected, ReleaseContract);
    ScriptPlanned(f, affected, ReleaseDryRun);
    ScriptPlanned(f, affected, SdkBuild);
    ScriptPlanned(f, affected, SdkSmoke);
    PathFlags(paths);
  }

  /** The smoke tests, and the tests of the selector itself. */
  lemma SmokeTasksPlanned(paths: seq<string>, affected: seq<Package>)
    ensures Planned(paths, affected, InstallMethods)
            <==> exists p | p in paths :: "scripts/install" <= p || p == "Dockerfile" || p == "Dockerfile.dockerignore"
    ensures Planned(paths, affected, NativeBuild) == Planned(paths, affected, CliSmoke) == NeedsRuntime(paths)
    ensures Planned(paths, affected, SelectorDryRun) && Planned(paths, affected, SelectorTests)
            <==> exists p | p in paths :: IsSelector(p)
    ensures Planned(paths, affected, SelectorDryRun) == Planned(paths, affected, SelectorTests)
    ensures Planned(paths, affected, WorkflowParse) <==> exists p | p in paths :: ".github/workflows/" <= p
  {
    var f := FlagsOf(paths);
    SmokePlanned(f, affected, InstallMethods);
    SmokePlanned(f, affected, CliSmoke);
    SmokePlanned(f, affected, SelectorDryRun);
    SmokePlanned(f, affected, SelectorTests);
    SmokePlanned(f, affected, WorkflowParse);
    NativePlanned(f, affected, NativeBuild);
    ModeFlags(paths);
    PathFlags(paths);
  }

  // ---------------------------------------------------------------------------------------------
  // Where the tasks run

  /** The directory of a task: that of its package, that of the SDK or the web application, or the root. */
  predicate RunsAt(affected: seq<Package>, t: Task) {
    match t.key
    case CheckOf(name) => exists p | p in affected :: p.name == name && t.cwd == Some(p.dir)
    case TestOf(name) => exists p | p in affected :: p.name == name && t.cwd == Some(p.dir)
    case SdkBuild => t.cwd == Some("packages/jwc")
    case SdkSmoke => t.cwd == Some("packages/jwc")
    case WebTypecheck => t.cwd == Some("python/robojwc/web")
    case WebBuild => t.cwd == Some("python/robojwc/web")
    case _ => t.cwd == None
  }

  ghost predicate AllRunAt(affected: seq<Package>, tasks: seq<Task>) {
    forall t | t in tasks :: RunsAt(affected, t)
  }

  lemma RunAtConcat(affected: seq<Package>, a: seq<Task>, b: seq<Task>)
    requires AllRunAt(affected, a) && AllRunAt(affected, b)
    ensures AllRunAt(affected, a + b)
  {
    assert forall t :: t in a + b <==> t in a || t in b;
  }

  /** These keys are for the root. */
  predicate ForRoot(key: Key) {
    !key.CheckOf? && !key.TestOf? && !key.SdkBuild? && !key.SdkSmoke? && !key.WebTypecheck? && !key.WebBuild?
  }

  lemma {:induction false} RootRunsAt(affected: seq<Package>, keys: seq<Key>)
    requires forall k | k in keys :: ForRoot(k)
    ensures AllRunAt(affected, Root(keys))
  {
    if keys != [] {
      var n := |keys| - 1;
      assert keys[n] in keys;
      RootRunsAt(affected, keys[..n]);
      RunAtConcat(affected, Root(keys[..n]), [Task(keys[n], None)]);
    }
  }

  lemma IfRunsAt(affected: seq<Package>, c: bool, keys: seq<Key>)
    requires forall k | k in keys :: ForRoot(k)
    ensures AllRunAt(affected, If(c, keys))
  {
    RootRunsAt(affected, keys);
  }

  lemma PackageRunsAt(all: seq<Package>, p: Package)
    requires p in all
    ensures AllRunAt(all, TasksOf(p))
  {
  }

  lemma {:induction false} PackagesRunAt(all: seq<Package>, n: nat)
    requires n <= |all|
    ensures AllRunAt(all, PackageTasks(all[..n]))
  {
    if n > 0 {
      assert all[..n][..n - 1] == all[..n - 1] && all[n - 1] in all;
      PackagesRunAt(all, n - 1);
      PackageRunsAt(all, all[n - 1]);
      RunAtConcat(all, PackageTasks(all[..n - 1]), TasksOf(all[n - 1]));
    }
  }

  lemma PlacedRunAt(affected: seq<Package>, c: bool)
    ensures AllRunAt(affected, SdkTasks(c)) && AllRunAt(affected, WebTasks(c))
  {
    assert SDK_DIR == "packages/jwc" && WEB_DIR == "python/robojwc/web";
  }

  lemma ModeRunsAt(f: Flags, affected: seq<Package>)
    ensures AllRunAt(affected, Validation(f, affected))
  {
    RootRunsAt(affected, [RootCheck, NativeLinux, RootTest]);
    IfRunsAt(affected, AnyTest(affected), [NativeLinux]);
    assert affected[..|affected|] == affected;
    PackagesRunAt(affected, |affected|);
    RunAtConcat(affected, If(AnyTest(affected), [NativeLinux]), PackageTasks(affected));
  }

  lemma ScriptRunsAt(f: Flags, affected: seq<Package>)
    ensures AllRunAt(affected, ScriptTasks(f))
  {
    var a, b := If(f.tooling && f.PerPackage(), [RootCheck]), If(f.publish, [ReleaseContract, ReleaseDryRun]);
    IfRunsAt(affected, f.tooling && f.PerPackage(), [RootCheck]);
    IfRunsAt(affected, f.publish, [ReleaseContract, ReleaseDryRun]);
    PlacedRunAt(affected, f.sdk);
    RunAtConcat(affected, a, b);
    RunAtConcat(affected, a + b, SdkTasks(f.sdk));
  }

  lemma LanguageRunsAt(f: Flags, affected: seq<Package>)
    ensures AllRunAt(affected, LanguageTasks(f))
  {
    var a, b := If(f.python, [PythonLint, PythonTest]), If(f.rust, [RustCheck, RustTest]);
    IfRunsAt(affected, f.python, [PythonLint, PythonTest]);
    IfRunsAt(affected, f.rust, [RustCheck, RustTest]);
    PlacedRunAt(affected, f.web);
    RunAtConcat(affected, a, WebTasks(f.web));
    RunAtConcat(affected, a + WebTasks(f.web), b);
  }

  lemma SmokeRunsAt(f: Flags, affected: seq<Package>)
    ensures AllRunAt(affected, SmokeTasks(f))
  {
    var a, b := If(f.install, [InstallMethods]), If(f.runtime, [CliSmoke]);
    var c, d := If(f.harness, [SelectorDryRun, SelectorTests]), If(f.harness && f.workflow, [WorkflowParse]);
    IfRunsAt(affected, f.install, [InstallMethods]);
    IfRunsAt(affected, f.runtime, [CliSmoke]);
    IfRunsAt(affected, f.harness, [SelectorDryRun, SelectorTests]);
    IfRunsAt(affected, f.harness && f.workflow, [WorkflowParse]);
    RunAtConcat(affected, a, b);
    RunAtConcat(affected, a + b, c);
    RunAtConcat(affected, a + b + c, d);
  }

  /** Every planned task runs where it belongs. */
  lemma PlacesAre(f: Flags, affected: seq<Package>)
    ensures AllRunAt(affected, PlanOf(f, affected))
  {
    var a := If(f.runtime, [NativeBuild]);
    IfRunsAt(affected, f.runtime, [NativeBuild]);
    ModeRunsAt(f, affected);
    ScriptRunsAt(f, affected);
    LanguageRunsAt(f, affected);
    SmokeRunsAt(f, affected);
    RunAtConcat(affected, a, Validation(f, affected));
    RunAtConcat(affected, ScriptTasks(f), LanguageTasks(f));
    RunAtConcat(affected, ScriptTasks(f) + LanguageTasks(f), SmokeTasks(f));
    RunAtConcat(affected, a + Validation(f, affected), Extras(f));
    AddAllMembers(Wanted(f, affected));
  }
}

/** scanRepository: the analysis of a cloned working copy into one set of
    findings. The clone itself, the file enumeration and the file reads are
    inputs: the working copy is given as its root entries, the outcome of
    reading and parsing package.json, and the enumerated source files. */
module Scanner {
  import opened JsValues
  import opened Sequences
  import opened Manifest
  import opened EnvScan

  const PackageJson := "package.json"
  const EnvExample := ".env.example"
  const ComposeFile := "docker-compose.yml"
  const Dockerfile := "Dockerfile"

  /** What reading package.json and JSON.parse make of it when it exists. */
  datatype ManifestFile =
    | Unreadable
    | Malformed
    | Parsed(value: Json)

  /** The cloned repository as the scan sees it: the names present at its root,
      package.json's read-and-parse outcome (consulted only when the root holds
      package.json) and the glob enumeration of source files, in its own order. */
  datatype WorkingCopy = WorkingCopy(rootEntries: set<string>, manifest: ManifestFile, sourceFiles: seq<SourceFile>)

  /** The `findings` object: all five fields are always present. */
  datatype Findings = Findings(
    stack: seq<string>,
    services: seq<string>,
    envVars: seq<string>,
    commands: seq<string>,
    missingFiles: seq<string>)

  /** Why a scan rejects: package.json exists but cannot be read, is not JSON,
      is the JSON value null (reading `pkg.engines` then throws a TypeError), or
      has a truthy `engines.node` whose conversion to a string throws a TypeError. */
  datatype ScanError = ManifestReadError | ManifestSyntaxError | ManifestNullError | EngineVersionError

  datatype ScanResult = Found(findings: Findings) | Failed(error: ScanError)

  /** The result, and whether the temporary clone directory was removed. */
  datatype ScanOutcome = ScanOutcome(result: ScanResult, tempDirRemoved: bool)

  /** fileExists(path.join(tempDir, name)): fs.access succeeds on any root entry. */
  predicate FileExists(wc: WorkingCopy, name: string) {
    name in wc.rootEntries
  }

  /* ---------- reference definitions ---------- */

  /** The two missing-file rules, each independent of the other. */
  function ExpectedMissing(root: set<string>): seq<string> {
    (if EnvExample !in root then [EnvExample] else [])
    + (if ComposeFile !in root && Dockerfile in root then [ComposeFile] else [])
  }

  /** The manifest-derived part of the findings, or why the scan rejects. */
  function Classify(wc: WorkingCopy): Option<ScanError> {
    if PackageJson !in wc.rootEntries then None
    else match wc.manifest
      case Unreadable => Some(ManifestReadError)
      case Malformed => Some(ManifestSyntaxError)
      case Parsed(pkg) =>
        if pkg.JNull? then Some(ManifestNullError)
        else if StackLabel(pkg).None? then Some(EngineVersionError)
        else None
  }

  /** Reference definition of scanRepository on a working copy. A missing
      package.json never makes it reject; the variables and the missing files do
      not depend on the manifest; the stack is empty exactly when there is no
      package.json. */
  function Analyze(wc: WorkingCopy): (r: ScanResult)
    ensures r.Failed? ==> PackageJson in wc.rootEntries
    ensures r.Found? ==> r.findings.envVars == EnvVarsOf(wc.sourceFiles)
    ensures r.Found? ==> r.findings.missingFiles == ExpectedMissing(wc.rootEntries)
    ensures r.Found? ==> (r.findings.stack == [] <==> PackageJson !in wc.rootEntries)
  {
    match Classify(wc)
    case Some(e) => Failed(e)
    case None =>
      var envVars := EnvVarsOf(wc.sourceFiles);
      var missing := ExpectedMissing(wc.rootEntries);
      if PackageJson !in wc.rootEntries then Found(Findings([], [], envVars, [], missing))
      else
        var pkg := wc.manifest.value;
        Found(Findings([StackLabel(pkg).value], ExpectedServices(pkg), envVars, ExpectedCommands(pkg), missing))
  }

  /* ---------- the scan ---------- */

  /** scanRepository after the clone: fill `findings` step by step, rejecting on
      an unusable package.json; the clone directory is removed only when the
      scan gets to the end. */
  method ScanRepository(wc: WorkingCopy) returns (outcome: ScanOutcome)
    ensures outcome.result == Analyze(wc)
    ensures outcome.tempDirRemoved <==> outcome.result.Found?
  {
    // the five arrays of the `findings` object
    var stack, services, envVars, commands, missingFiles := [], [], [], [], [];

    if FileExists(wc, PackageJson) {
      var pkg: Json;
      match wc.manifest {
        case Unreadable => return ScanOutcome(Failed(ManifestReadError), false);
        case Malformed => return ScanOutcome(Failed(ManifestSyntaxError), false);
        case Parsed(v) => pkg := v;
      }
      if pkg.JNull? {
        return ScanOutcome(Failed(ManifestNullError), false);
      }
      match StackLabel(pkg) {
        case None => return ScanOutcome(Failed(EngineVersionError), false);
        case Some(entry) => stack := [entry];
      }
      services := DetectServices(pkg);
      commands := DeriveCommands(pkg);
    }

    envVars := CollectEnvVars(wc.sourceFiles);

    if !FileExists(wc, EnvExample) {
      missingFiles := missingFiles + [EnvExample];
    }
    if !FileExists(wc, ComposeFile) && FileExists(wc, Dockerfile) {
      missingFiles := missingFiles + [ComposeFile];
    }

    AnalyzeFound(wc);
    // fs.rm(tempDir) runs here, on this path only
    outcome := ScanOutcome(Found(Findings(stack, services, envVars, commands, missingFiles)), true);
  }

  /** What Analyze returns when the manifest is absent or usable. */
  lemma AnalyzeFound(wc: WorkingCopy)
    requires Classify(wc).None?
    ensures Analyze(wc) == Found(Findings(
        if PackageJson in wc.rootEntries then [StackLabel(wc.manifest.value).value] else [],
        if PackageJson in wc.rootEntries then ExpectedServices(wc.manifest.value) else [],
        EnvVarsOf(wc.sourceFiles),
        if PackageJson in wc.rootEntries then ExpectedCommands(wc.manifest.value) else [],
        ExpectedMissing(wc.rootEntries)))
  {
  }

  /** Lines 28-32 of scanRepository: the services pushed for a manifest. */
  method DetectServices(pkg: Json) returns (services: seq<string>)
    ensures services == ExpectedServices(pkg)
  {
    services := [];
    var deps := Prop(pkg, "dependencies");
    if IsTruthy(deps) {
      var d := deps.value;
      if IsTruthy(Prop(d, "express")) || IsTruthy(Prop(d, "koa")) {
        services := services + [WebServer];
      }
      if IsTruthy(Prop(d, "redis")) || IsTruthy(Prop(d, "ioredis")) {
        services := services + [Redis];
      }
      if IsTruthy(Prop(d, "pg")) || IsTruthy(Prop(d, "mongoose")) {
        services := services + [Database];
      }
      ServiceTableUnfolds(d);
    }
  }

  /** Lines 35-39 of scanRepository: the commands pushed for a manifest. */
  method DeriveCommands(pkg: Json) returns (commands: seq<string>)
    ensures commands == ExpectedCommands(pkg)
  {
    commands := [];
    var scripts := Prop(pkg, "scripts");
    if IsTruthy(scripts) {
      commands := commands + [Install];
      if IsTruthy(Prop(scripts.value, "dev")) {
        commands := commands + [RunDev];
      }
      if IsTruthy(Prop(scripts.value, "start")) {
        commands := commands + [RunStart];
      }
      ScriptTableUnfolds(scripts.value);
    }
  }

  lemma MatchingCons(obj: Json, r: Rule, rest: seq<Rule>)
    ensures Matching(obj, [r] + rest) == (if Fires(obj, r) then [r.name] else []) + Matching(obj, rest)
  {
    assert ([r] + rest)[1..] == rest;
  }

  lemma FiresOnOne(obj: Json, a: string)
    ensures Fires(obj, Rule("", [a])) <==> IsTruthy(Prop(obj, a))
  {
    assert [a][1..] == [];
    assert !AnyTruthy(obj, []);
  }

  lemma FiresOnTwo(obj: Json, a: string, b: string)
    ensures Fires(obj, Rule("", [a, b])) <==> IsTruthy(Prop(obj, a)) || IsTruthy(Prop(obj, b))
  {
    assert [a, b][1..] == [b];
    FiresOnOne(obj, b);
  }

  /** The service table read row by row. */
  lemma ServiceTableUnfolds(d: Json)
    ensures Matching(d, ServiceTable) ==
      (if IsTruthy(Prop(d, "express")) || IsTruthy(Prop(d, "koa")) then [WebServer] else [])
      + (if IsTruthy(Prop(d, "redis")) || IsTruthy(Prop(d, "ioredis")) then [Redis] else [])
      + (if IsTruthy(Prop(d, "pg")) || IsTruthy(Prop(d, "mongoose")) then [Database] else [])
  {
    var t := ServiceTable;
    assert t == [t[0]] + ([t[1]] + ([t[2]] + []));
    MatchingCons(d, t[0], [t[1]] + ([t[2]] + []));
    MatchingCons(d, t[1], [t[2]] + []);
    MatchingCons(d, t[2], []);
    FiresOnTwo(d, "express", "koa");
    FiresOnTwo(d, "redis", "ioredis");
    FiresOnTwo(d, "pg", "mongoose");
  }

  /** The script table read row by row. */
  lemma ScriptTableUnfolds(s: Json)
    ensures Matching(s, ScriptTable) ==
      (if IsTruthy(Prop(s, "dev")) then [RunDev] else [])
      + (if IsTruthy(Prop(s, "start")) then [RunStart] else [])
  {
    var t := ScriptTable;
    assert t == [t[0]] + ([t[1]] + []);
    MatchingCons(s, t[0], [t[1]] + []);
    MatchingCons(s, t[1], []);
    FiresOnOne(s, "dev");
    FiresOnOne(s, "start");
  }

  /* ---------- properties ---------- */

  /** Converting the truthy `engines.node` of `pkg` to a string throws. */
  predicate VersionThrows(pkg: Json) {
    IsTruthy(EngineNode(pkg)) && Unprintable(EngineNode(pkg).value)
  }

  /** The scan rejects exactly when package.json exists and cannot be read, is
      not JSON, is null, or has an `engines.node` whose conversion throws, each
      with its own error; a missing package.json is not an error. */
  lemma ScanFailsOnlyOnBadManifest(wc: WorkingCopy)
    ensures Analyze(wc).Failed? <==>
      PackageJson in wc.rootEntries
      && (!wc.manifest.Parsed? || wc.manifest.value.JNull? || VersionThrows(wc.manifest.value))
    ensures PackageJson in wc.rootEntries && wc.manifest.Malformed? ==> Analyze(wc) == Failed(ManifestSyntaxError)
    ensures PackageJson in wc.rootEntries && wc.manifest.Unreadable? ==> Analyze(wc) == Failed(ManifestReadError)
    ensures PackageJson in wc.rootEntries && wc.manifest == Parsed(JNull) ==> Analyze(wc) == Failed(ManifestNullError)
    ensures (PackageJson in wc.rootEntries && wc.manifest.Parsed? && !wc.manifest.value.JNull?
             && VersionThrows(wc.manifest.value)) ==> Analyze(wc) == Failed(EngineVersionError)
  {
    if wc.manifest.Parsed? {
      StackLabelShape(wc.manifest.value);
    }
  }

  /** What every successful scan promises about its five fields. */
  lemma FindingsProperties(wc: WorkingCopy)
    requires Analyze(wc).Found?
    ensures var f := Analyze(wc).findings;
      && (PackageJson !in wc.rootEntries ==> f.stack == [] && f.services == [] && f.commands == [])
      && (PackageJson in wc.rootEntries ==>
            var pkg := wc.manifest.value;
            && f.stack == [StackLabel(pkg).value]
            && |f.stack[0]| >= |Runtime| && f.stack[0][..|Runtime|] == Runtime
            && f.services == ExpectedServices(pkg)
            && f.commands == ExpectedCommands(pkg)
            && (f.commands == [] <==> !IsTruthy(Prop(pkg, "scripts"))))
      && IsSubsequence(f.services, [WebServer, Redis, Database]) && Distinct(f.services)
      && IsSubsequence(f.commands, [Install, RunDev, RunStart]) && Distinct(f.commands)
      && (f.commands != [] ==> f.commands[0] == Install)
      && Distinct(f.envVars) && (forall x :: x in f.envVars ==> IsEnvName(x))
      && f.envVars == EnvVarsOf(wc.sourceFiles)
      && (EnvExample in f.missingFiles <==> EnvExample !in wc.rootEntries)
      && (ComposeFile in f.missingFiles <==> ComposeFile !in wc.rootEntries && Dockerfile in wc.rootEntries)
      && IsSubsequence(f.missingFiles, [EnvExample, ComposeFile]) && Distinct(f.missingFiles)
  {
    EnvVarsWellFormed(wc.sourceFiles);
    MissingFilesProperties(wc.rootEntries);
    if PackageJson in wc.rootEntries {
      var pkg := wc.manifest.value;
      StackLabelShape(pkg);
      ServicesProperties(pkg);
      CommandsProperties(pkg);
    }
  }

  /** Each missing-file rule contributes its entry exactly when its condition
      holds, the environment template first; at most two entries. */
  lemma MissingFilesProperties(root: set<string>)
    ensures EnvExample in ExpectedMissing(root) <==> EnvExample !in root
    ensures ComposeFile in ExpectedMissing(root) <==> ComposeFile !in root && Dockerfile in root
    ensures IsSubsequence(ExpectedMissing(root), [EnvExample, ComposeFile])
    ensures Distinct(ExpectedMissing(root))
    ensures |ExpectedMissing(root)| <= 2
  {
    var r := ExpectedMissing(root);
    if EnvExample !in root && ComposeFile !in root && Dockerfile in root {
      assert r == [EnvExample, ComposeFile];
    }
  }

  /** The dependencies of the example manifest: express only. */
  const ExampleDeps := JObject(map["express" := JString("^4.18.0")])

  /** The scripts of the example manifest: a dev and a start script. */
  const ExampleScripts := JObject(map["dev" := JString("nodemon index.js"), "start" := JString("node index.js")])

  /** A package.json declaring express and a dev and a start script, and no engines field. */
  const ExampleManifest := JObject(map["dependencies" := ExampleDeps, "scripts" := ExampleScripts])

  lemma ExampleStack()
    ensures StackLabel(ExampleManifest) == Some(Runtime)
  {
    assert Prop(ExampleManifest, "engines") == None;
    StackLabelShape(ExampleManifest);
  }

  lemma ExampleServices()
    ensures ExpectedServices(ExampleManifest) == [WebServer]
  {
    var deps := ExampleDeps;
    assert Prop(ExampleManifest, "dependencies") == Some(deps);
    assert "ioredis"[0] != "express"[0];
    assert Prop(deps, "koa") == None && Prop(deps, "redis") == None && Prop(deps, "ioredis") == None;
    assert Prop(deps, "pg") == None && Prop(deps, "mongoose") == None;
    ServiceTableUnfolds(deps);
  }

  lemma ExampleCommands()
    ensures ExpectedCommands(ExampleManifest) == [Install, RunDev, RunStart]
  {
    assert Prop(ExampleManifest, "scripts") == Some(ExampleScripts);
    ScriptTableUnfolds(ExampleScripts);
  }

  /** The example manifest in a repository with neither .env.example nor a
      Dockerfile: the stack holds the bare runtime name, the web server is the
      only service, all three commands are suggested and only the template is
      reported missing. */
  lemma ExpressScenario(files: seq<SourceFile>)
    ensures Analyze(WorkingCopy({PackageJson}, Parsed(ExampleManifest), files))
      == Found(Findings([Runtime], [WebServer], EnvVarsOf(files), [Install, RunDev, RunStart], [EnvExample]))
  {
    var wc := WorkingCopy({PackageJson}, Parsed(ExampleManifest), files);
    ExampleStack();
    ExampleServices();
    ExampleCommands();
    assert ExpectedMissing({PackageJson}) == [EnvExample] by {
      assert EnvExample[0] != PackageJson[0];
    }
    assert Classify(wc) == None;
    AnalyzeFound(wc);
  }

  /** An `engines.node` object with its own `toString`. */
  const ThrowingNode := JObject(map["toString" := JNumber(1)])

  const ThrowingEngines := JObject(map["node" := ThrowingNode])

  /** A package.json whose `engines.node` is ThrowingNode. */
  const ThrowingManifest := JObject(map["engines" := ThrowingEngines])

  lemma ThrowingManifestThrows()
    ensures !ThrowingManifest.JNull? && VersionThrows(ThrowingManifest)
  {
    assert Prop(ThrowingManifest, "engines") == Some(ThrowingEngines);
    assert Prop(ThrowingEngines, "node") == Some(ThrowingNode);
    assert Unprintable(ThrowingNode);
  }

  /** Such a manifest makes the scan reject, whatever else the repository holds. */
  lemma ThrowingVersionScenario(root: set<string>, files: seq<SourceFile>)
    requires PackageJson in root
    ensures Analyze(WorkingCopy(root, Parsed(ThrowingManifest), files)) == Failed(EngineVersionError)
  {
    ThrowingManifestThrows();
    ScanFailsOnlyOnBadManifest(WorkingCopy(root, Parsed(ThrowingManifest), files));
  }
}

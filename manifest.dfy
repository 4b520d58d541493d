/** Classification of a parsed package.json: the runtime label, the backing
    services implied by dependencies and the setup commands implied by scripts.
    The functions here are the reference definitions the scanner is proved
    against; the step-by-step code lives in Scanner.ScanRepository. */
module Manifest {
  import opened JsValues
  import opened Sequences

  const Runtime := "Node.js"

  const WebServer := "Web Server"
  const Redis := "Redis"
  const Database := "Database"

  const Install := "npm install"
  const RunDev := "npm run dev"
  const RunStart := "npm run start"

  /* ---------- stack ---------- */

  /** `pkg.engines?.node`: optional chaining yields undefined when `engines` is absent or null. */
  function EngineNode(pkg: Json): Option<Json> {
    match Prop(pkg, "engines")
    case None => None
    case Some(engines) => Prop(engines, "node")
  }

  /** The text `${pkg.engines?.node || ''}`; None when converting the node
      value to a string throws. */
  function EngineVersion(pkg: Json): Option<string> {
    var node := EngineNode(pkg);
    if IsTruthy(node) then Display(node.value) else Some("")
  }

  /** The single stack label pushed for a present manifest:
      `Node.js ${...}`.trim(); None when building the text throws. */
  function StackLabel(pkg: Json): Option<string> {
    match EngineVersion(pkg)
    case None => None
    case Some(v) => Some(Trim(Runtime + " " + v))
  }

  /** The label cannot be built exactly when `engines.node` is truthy and
      unprintable. Otherwise it is the runtime name alone when the version text
      is empty or blank (always so when `engines.node` is falsy or absent), and
      else the runtime name, a space and the version with its trailing whitespace
      removed (leading whitespace of the version is kept). */
  lemma StackLabelShape(pkg: Json)
    ensures StackLabel(pkg).None? <==> IsTruthy(EngineNode(pkg)) && Unprintable(EngineNode(pkg).value)
    ensures StackLabel(pkg).Some? ==>
      var v := EngineVersion(pkg).value;
      StackLabel(pkg).value == if AllWhitespace(v) then Runtime else Runtime + " " + TrimEnd(v)
    ensures !IsTruthy(EngineNode(pkg)) ==> StackLabel(pkg) == Some(Runtime)
    ensures StackLabel(pkg).Some? ==>
      |StackLabel(pkg).value| >= |Runtime| && StackLabel(pkg).value[..|Runtime|] == Runtime
  {
    match EngineVersion(pkg) {
      case None =>
      case Some(v) =>
        assert Runtime[0] == 'N' && Runtime[|Runtime| - 1] == 's';
        TrimAfterWord(Runtime, v);
        assert AllWhitespace("");
    }
  }

  /* ---------- declarative rule tables ---------- */

  /** A table row: `name` is contributed when any of `keys` is a truthy property. */
  datatype Rule = Rule(name: string, keys: seq<string>)

  /** The dependency-name to service-label table. */
  const ServiceTable: seq<Rule> := [
    Rule(WebServer, ["express", "koa"]),
    Rule(Redis, ["redis", "ioredis"]),
    Rule(Database, ["pg", "mongoose"])
  ]

  /** The script-name to command table (the install command precedes these). */
  const ScriptTable: seq<Rule> := [
    Rule(RunDev, ["dev"]),
    Rule(RunStart, ["start"])
  ]

  predicate AnyTruthy(obj: Json, keys: seq<string>) {
    keys != [] && (IsTruthy(Prop(obj, keys[0])) || AnyTruthy(obj, keys[1..]))
  }

  predicate Fires(obj: Json, rule: Rule) {
    AnyTruthy(obj, rule.keys)
  }

  function Labels(rules: seq<Rule>): seq<string> {
    if rules == [] then [] else [rules[0].name] + Labels(rules[1..])
  }

  /** Labels of the rules that fire on `obj`, in table order. */
  function Matching(obj: Json, rules: seq<Rule>): seq<string> {
    if rules == [] then []
    else (if Fires(obj, rules[0]) then [rules[0].name] else []) + Matching(obj, rules[1..])
  }

  lemma {:induction false} MatchingIsSubsequence(obj: Json, rules: seq<Rule>)
    ensures IsSubsequence(Matching(obj, rules), Labels(rules))
  {
    if rules != [] {
      MatchingIsSubsequence(obj, rules[1..]);
      var rest := Matching(obj, rules[1..]);
      if Fires(obj, rules[0]) {
        assert Matching(obj, rules)[1..] == rest;
      } else if rest != [] {
        assert Matching(obj, rules) == rest;
      }
    }
  }

  /** A rule fires exactly when one of its keys names a truthy property. */
  lemma {:induction false} FiresIff(obj: Json, keys: seq<string>)
    ensures AnyTruthy(obj, keys) <==> exists i :: 0 <= i < |keys| && IsTruthy(Prop(obj, keys[i]))
  {
    if keys != [] {
      FiresIff(obj, keys[1..]);
      if AnyTruthy(obj, keys[1..]) {
        var i :| 0 <= i < |keys[1..]| && IsTruthy(Prop(obj, keys[1..][i]));
        assert keys[1..][i] == keys[i + 1];
      }
      if exists i :: 0 <= i < |keys| && IsTruthy(Prop(obj, keys[i])) {
        var i :| 0 <= i < |keys| && IsTruthy(Prop(obj, keys[i]));
        if i > 0 { assert keys[1..][i - 1] == keys[i]; }
      }
    }
  }

  lemma {:induction false} LabelAt(rules: seq<Rule>, k: nat)
    requires k < |rules|
    ensures |Labels(rules)| == |rules| && Labels(rules)[k] == rules[k].name
  {
    if k > 0 {
      LabelAt(rules[1..], k - 1);
    } else if |rules| > 1 {
      LabelAt(rules[1..], 0);
    }
  }

  /** With distinct labels, a rule's label is matched exactly when the rule fires. */
  lemma {:induction false} MatchingMembership(obj: Json, rules: seq<Rule>, k: nat)
    requires Distinct(Labels(rules)) && k < |rules|
    ensures rules[k].name in Matching(obj, rules) <==> Fires(obj, rules[k])
  {
    var labels := Labels(rules);
    assert labels[1..] == Labels(rules[1..]);
    assert Distinct(Labels(rules[1..])) by {
      forall i, j | 0 <= i < j < |labels[1..]| ensures labels[1..][i] != labels[1..][j] {
        assert labels[1..][i] == labels[i + 1] && labels[1..][j] == labels[j + 1];
      }
    }
    MatchingIsSubsequence(obj, rules[1..]);
    SubsequenceMembers(Matching(obj, rules[1..]), Labels(rules[1..]));
    if k == 0 {
      LabelAt(rules, 0);
      forall j | 0 <= j < |labels[1..]| ensures labels[1..][j] != rules[0].name {
        assert labels[1..][j] == labels[j + 1];
      }
    } else {
      MatchingMembership(obj, rules[1..], k - 1);
      assert rules[1..][k - 1] == rules[k];
      LabelAt(rules, k);
      assert labels[0] != labels[k];
    }
  }

  /** Everything the scanner relies on about a rule table with distinct labels. */
  lemma MatchingFacts(obj: Json, rules: seq<Rule>)
    requires Distinct(Labels(rules))
    ensures IsSubsequence(Matching(obj, rules), Labels(rules))
    ensures Distinct(Matching(obj, rules))
    ensures |Matching(obj, rules)| <= |rules|
    ensures forall k :: 0 <= k < |rules| ==> (rules[k].name in Matching(obj, rules) <==> Fires(obj, rules[k]))
  {
    MatchingIsSubsequence(obj, rules);
    SubsequenceDistinct(Matching(obj, rules), Labels(rules));
    SubsequenceLength(Matching(obj, rules), Labels(rules));
    if rules != [] { LabelAt(rules, 0); }
    forall k | 0 <= k < |rules| ensures rules[k].name in Matching(obj, rules) <==> Fires(obj, rules[k]) {
      MatchingMembership(obj, rules, k);
    }
  }

  /* ---------- services ---------- */

  /** Reference definition of the services a manifest implies: the labels of the
      service table whose dependency is declared truthy, in table order; nothing
      when `dependencies` is absent or falsy. */
  function ExpectedServices(pkg: Json): seq<string> {
    var deps := Prop(pkg, "dependencies");
    if IsTruthy(deps) then Matching(deps.value, ServiceTable) else []
  }

  /** Services are a duplicate-free, order-preserving selection of
      ["Web Server", "Redis", "Database"], each present exactly when one of its
      two packages is a truthy dependency. */
  lemma ServicesProperties(pkg: Json)
    ensures IsSubsequence(ExpectedServices(pkg), [WebServer, Redis, Database])
    ensures Distinct(ExpectedServices(pkg))
    ensures !IsTruthy(Prop(pkg, "dependencies")) ==> ExpectedServices(pkg) == []
    ensures forall k :: 0 <= k < |ServiceTable| ==>
      (ServiceTable[k].name in ExpectedServices(pkg) <==>
        var deps := Prop(pkg, "dependencies");
        IsTruthy(deps)
        && (IsTruthy(Prop(deps.value, ServiceTable[k].keys[0])) || IsTruthy(Prop(deps.value, ServiceTable[k].keys[1]))))
  {
    var labels := [WebServer, Redis, Database];
    LabelAt(ServiceTable, 0);
    LabelAt(ServiceTable, 1);
    LabelAt(ServiceTable, 2);
    assert Labels(ServiceTable) == labels;
    var deps := Prop(pkg, "dependencies");
    if IsTruthy(deps) {
      MatchingFacts(deps.value, ServiceTable);
      forall k | 0 <= k < |ServiceTable|
        ensures Fires(deps.value, ServiceTable[k]) <==>
          (IsTruthy(Prop(deps.value, ServiceTable[k].keys[0])) || IsTruthy(Prop(deps.value, ServiceTable[k].keys[1])))
      {
        FiresIff(deps.value, ServiceTable[k].keys);
      }
    }
  }

  /* ---------- commands ---------- */

  /** Reference definition of the commands a manifest implies: nothing when
      `scripts` is absent or falsy; otherwise the install command followed by the
      commands of the script table whose script is truthy, in table order. */
  function ExpectedCommands(pkg: Json): seq<string> {
    var scripts := Prop(pkg, "scripts");
    if IsTruthy(scripts) then [Install] + Matching(scripts.value, ScriptTable) else []
  }

  /** Commands are empty exactly when `scripts` is falsy; otherwise they begin
      with the install command and are an order-preserving, duplicate-free
      selection of [install, dev, start] (so at most three, in an order that does
      not depend on the manifest), dev present iff `scripts.dev` is truthy and
      start iff `scripts.start` is. */
  lemma CommandsProperties(pkg: Json)
    ensures ExpectedCommands(pkg) == [] <==> !IsTruthy(Prop(pkg, "scripts"))
    ensures ExpectedCommands(pkg) != [] ==> ExpectedCommands(pkg)[0] == Install
    ensures IsSubsequence(ExpectedCommands(pkg), [Install, RunDev, RunStart])
    ensures Distinct(ExpectedCommands(pkg))
    ensures |ExpectedCommands(pkg)| <= 3
    ensures var scripts := Prop(pkg, "scripts");
      RunDev in ExpectedCommands(pkg) <==> IsTruthy(scripts) && IsTruthy(Prop(scripts.value, "dev"))
    ensures var scripts := Prop(pkg, "scripts");
      RunStart in ExpectedCommands(pkg) <==> IsTruthy(scripts) && IsTruthy(Prop(scripts.value, "start"))
  {
    var scripts := Prop(pkg, "scripts");
    var r := ExpectedCommands(pkg);
    var tail := [RunDev, RunStart];
    LabelAt(ScriptTable, 0);
    LabelAt(ScriptTable, 1);
    assert Labels(ScriptTable) == tail;
    if IsTruthy(scripts) {
      var m := Matching(scripts.value, ScriptTable);
      MatchingFacts(scripts.value, ScriptTable);
      FiresIff(scripts.value, ScriptTable[0].keys);
      FiresIff(scripts.value, ScriptTable[1].keys);
      SubsequenceMembers(m, tail);
      assert Install !in m;
      assert r == [Install] + m && r[1..] == m;
      assert IsSubsequence(r, [Install] + tail);
      forall i, j | 0 <= i < j < |r| ensures r[i] != r[j] {
        assert r[j] == m[j - 1];
        if i > 0 { assert r[i] == m[i - 1]; }
      }
    }
  }
}

/** The markdown setup report: a fixed title, the detected stack as bullet
    lines, the environment variables as bullet lines (or a placeholder when
    there are none) and one line saying whether an .env template exists.
    ReportText is the reference definition, GenerateReport builds the same text
    step by step, and ParseReport reads the three inputs back out of it. */
module Report {
  import opened JsValues
  import opened Sequences
  import opened EnvScan
  import opened Scanner

  const Title := "# SetupSherpa Report\n\n"
  const StackHeading := "## Detected Stack\n"
  const EnvHeading := "\n## Environment Variables\n"
  /** The placeholder item written when no variable was found. */
  const Placeholder := "None detected"
  const TemplateHeading := "\n## Environment Template\n"
  const TemplateFound := "- .env template found\n"
  const TemplateMissing := "\U{26A0} No .env.example found\n"

  /** The text before the first stack line. */
  const Preamble := Title + StackHeading

  /** The line `- ${s}\n`. */
  function Bullet(s: string): string {
    "- " + s + "\n"
  }

  /** The line `- None detected\n`. */
  const NoneDetected := Bullet(Placeholder)

  /** One bullet line per item, in order. */
  function Bullets(items: seq<string>): string {
    if items == [] then "" else Bullet(items[0]) + Bullets(items[1..])
  }

  /** The environment section: the placeholder for no variables, else their bullets. */
  function EnvSection(envVars: seq<string>): string {
    if |envVars| == 0 then NoneDetected else Bullets(envVars)
  }

  /** The single line under the template heading. */
  function TemplateLine(hasEnvExample: bool): string {
    if hasEnvExample then TemplateFound else TemplateMissing
  }

  /** The template heading and its one line. */
  function TemplateSection(hasEnvExample: bool): string {
    TemplateHeading + TemplateLine(hasEnvExample)
  }

  /** Reference definition of the report: it opens with the title and the stack
      heading, and closes with the template heading followed by exactly one line
      chosen by `hasEnvExample`. */
  function ReportText(stack: seq<string>, envVars: seq<string>, hasEnvExample: bool): (r: string)
    ensures StartsWith(r, Preamble)
    ensures EndsWith(r, TemplateSection(hasEnvExample))
  {
    var a := Preamble + Bullets(stack);
    var b := a + EnvHeading;
    var c := b + EnvSection(envVars);
    StripPrefix(Preamble, Bullets(stack));
    StripPrefix(a, EnvHeading);
    StripPrefix(b, EnvSection(envVars));
    StripPrefix(c, TemplateSection(hasEnvExample));
    StartsWithTrans(b, a, Preamble);
    StartsWithTrans(c, b, Preamble);
    StartsWithTrans(c + TemplateSection(hasEnvExample), c, Preamble);
    AppendEndsWith(c, TemplateSection(hasEnvExample));
    c + TemplateSection(hasEnvExample)
  }

  /* ---------- facts about strings ---------- */

  predicate StartsWith(s: string, prefix: string) {
    |prefix| <= |s| && s[..|prefix|] == prefix
  }

  predicate EndsWith(s: string, suffix: string) {
    |suffix| <= |s| && s[|s| - |suffix|..] == suffix
  }

  lemma StripPrefix(prefix: string, rest: string)
    ensures StartsWith(prefix + rest, prefix) && (prefix + rest)[|prefix|..] == rest
  {
    assert (prefix + rest)[..|prefix|] == prefix;
  }

  lemma AppendEndsWith(s: string, suffix: string)
    ensures EndsWith(s + suffix, suffix)
  {
    assert (s + suffix)[|s|..] == suffix;
  }

  lemma StartsWithTrans(s: string, t: string, p: string)
    requires StartsWith(s, t) && StartsWith(t, p)
    ensures StartsWith(s, p)
  {
    assert s[..|p|] == s[..|t|][..|p|];
  }

  lemma {:induction false} BulletsAppend(xs: seq<string>, ys: seq<string>)
    ensures Bullets(xs + ys) == Bullets(xs) + Bullets(ys)
  {
    if xs == [] {
      assert xs + ys == ys;
    } else {
      assert (xs + ys)[1..] == xs[1..] + ys;
      BulletsAppend(xs[1..], ys);
      AppendAssoc(Bullet(xs[0]), Bullets(xs[1..]), Bullets(ys));
    }
  }

  /* ---------- building the report ---------- */

  /** `output += "- " + item + "\n"` for each item, as the forEach callbacks do. */
  method AppendBullets(output: string, items: seq<string>) returns (r: string)
    ensures r == output + Bullets(items)
  {
    r := output;
    for i := 0 to |items|
      invariant r == output + Bullets(items[..i])
    {
      BulletsAppend(items[..i], [items[i]]);
      assert items[..i + 1] == items[..i] + [items[i]];
      AppendAssoc(output, Bullets(items[..i]), Bullet(items[i]));
      r := r + Bullet(items[i]);
    }
    assert items[..|items|] == items;
  }

  /** Builds the report for a scan result. `hasEnvExample` is passed in explicitly:
      the scan's findings carry no such field. */
  method GenerateReport(result: Findings, hasEnvExample: bool) returns (output: string)
    ensures output == ReportText(result.stack, result.envVars, hasEnvExample)
    ensures StartsWith(output, Preamble)
    ensures EndsWith(output, TemplateSection(hasEnvExample))
  {
    output := Title;
    output := output + StackHeading;
    output := AppendBullets(output, result.stack);
    output := output + EnvHeading;
    if |result.envVars| == 0 {
      output := output + NoneDetected;
    } else {
      output := AppendBullets(output, result.envVars);
    }
    var beforeTemplate := output;
    output := output + TemplateHeading;
    if hasEnvExample {
      output := output + TemplateFound;
    } else {
      output := output + TemplateMissing;
    }
    AppendAssoc(beforeTemplate, TemplateHeading, TemplateLine(hasEnvExample));
  }

  /* ---------- reading a report back ---------- */

  /** A line's content may not hold a line break. */
  predicate SingleLine(s: string) {
    forall i :: 0 <= i < |s| ==> s[i] != '\n'
  }

  /** The number of characters before the first line break (all of them when there is none). */
  function LineLength(s: string): (n: nat)
    ensures n <= |s|
    ensures forall k :: 0 <= k < n ==> s[k] != '\n'
    ensures n < |s| ==> s[n] == '\n'
  {
    if s == [] || s[0] == '\n' then 0 else 1 + LineLength(s[1..])
  }

  lemma LineLengthOfLine(x: string, rest: string)
    requires SingleLine(x)
    ensures LineLength(x + "\n" + rest) == |x|
  {
    var s := x + "\n" + rest;
    assert s[|x|] == '\n';
    assert forall k :: 0 <= k < |x| ==> s[k] == x[k];
  }

  /** Reads consecutive `- item\n` lines off the front of `s`; returns the items and what follows. */
  function ParseBullets(s: string): (r: (seq<string>, string))
    ensures |r.1| <= |s|
    decreases |s|
  {
    if StartsWith(s, "- ") then
      var body := s[2..];
      var n := LineLength(body);
      if n < |body| then
        var (items, rest) := ParseBullets(body[n + 1..]);
        ([body[..n]] + items, rest)
      else ([], s)
    else ([], s)
  }

  /** Bullet lines of single-line items are read back exactly, as long as what
      follows them does not itself start like a bullet. */
  lemma {:induction false} BulletsRoundTrip(items: seq<string>, rest: string)
    requires forall i :: 0 <= i < |items| ==> SingleLine(items[i])
    requires !StartsWith(rest, "- ")
    ensures ParseBullets(Bullets(items) + rest) == (items, rest)
  {
    if items == [] {
      assert Bullets(items) + rest == rest;
    } else {
      var x := items[0];
      var tail := Bullets(items[1..]) + rest;
      var s := Bullets(items) + rest;
      assert s == "- " + (x + "\n" + tail);
      assert StartsWith(s, "- ");
      var body := s[2..];
      assert body == x + "\n" + tail;
      LineLengthOfLine(x, tail);
      assert body[..|x|] == x;
      assert body[|x| + 1..] == tail;
      BulletsRoundTrip(items[1..], rest);
      assert ParseBullets(s) == ([x] + items[1..], rest);
      assert [x] + items[1..] == items;
    }
  }

  /** The three inputs a report was made from. */
  datatype ReportInputs = ReportInputs(stack: seq<string>, envVars: seq<string>, hasEnvExample: bool)

  /** Reads the environment section: the placeholder means no variables. */
  function ParseEnvSection(s: string): (seq<string>, string) {
    if StartsWith(s, NoneDetected) then ([], s[|NoneDetected|..]) else ParseBullets(s)
  }

  /** Reads the template heading and its one line. */
  function ParseTemplate(s: string): Option<bool> {
    if s == TemplateHeading + TemplateFound then Some(true)
    else if s == TemplateHeading + TemplateMissing then Some(false)
    else None
  }

  /** Reads the stack, the variables and the template flag out of a report; None
      when the text does not have the report's layout. */
  function ParseReport(text: string): Option<ReportInputs> {
    if !StartsWith(text, Preamble) then None
    else
      var (stack, r1) := ParseBullets(text[|Preamble|..]);
      if !StartsWith(r1, EnvHeading) then None
      else
        var (envVars, r2) := ParseEnvSection(r1[|EnvHeading|..]);
        match ParseTemplate(r2)
        case None => None
        case Some(has) => Some(ReportInputs(stack, envVars, has))
  }

  /** A bullet line is never a prefix of another item's bullet line followed by anything. */
  lemma BulletsDiffer(x: string, y: string, rest: string)
    requires SingleLine(x) && SingleLine(y) && x != y
    ensures !StartsWith(Bullet(x) + rest, Bullet(y))
  {
    var s := Bullet(x) + rest;
    var t := Bullet(y);
    assert forall k :: 0 <= k < |x| ==> s[2 + k] == x[k];
    assert s[2 + |x|] == '\n';
    assert forall k :: 0 <= k < |y| ==> t[2 + k] == y[k];
    assert t[2 + |y|] == '\n';
    if |x| == |y| {
      var j :| 0 <= j < |x| && x[j] != y[j];
      assert s[2 + j] != t[2 + j];
    } else if |x| < |y| {
      assert s[2 + |x|] != t[2 + |x|];
    } else {
      assert s[2 + |y|] != t[2 + |y|];
    }
  }

  lemma EnvSectionRoundTrip(envVars: seq<string>, after: string)
    requires forall i :: 0 <= i < |envVars| ==> SingleLine(envVars[i]) && envVars[i] != Placeholder
    requires !StartsWith(after, "- ")
    ensures ParseEnvSection(EnvSection(envVars) + after) == (envVars, after)
  {
    if |envVars| == 0 {
      StripPrefix(NoneDetected, after);
    } else {
      BulletsRoundTrip(envVars, after);
      assert SingleLine(Placeholder);
      var x := envVars[0];
      var rest := Bullets(envVars[1..]) + after;
      AppendAssoc(Bullet(x), Bullets(envVars[1..]), after);
      BulletsDiffer(x, Placeholder, rest);
    }
  }

  /** A line break opens the text, so it does not start like a bullet line. */
  lemma NotABullet(heading: string, rest: string)
    requires heading != [] && heading[0] == '\n'
    ensures !StartsWith(heading + rest, "- ")
  {
    assert (heading + rest)[0] == '\n';
  }

  lemma TemplateRoundTrip(hasEnvExample: bool)
    ensures ParseTemplate(TemplateSection(hasEnvExample)) == Some(hasEnvExample)
  {
    var n := |TemplateHeading|;
    assert (TemplateHeading + TemplateFound)[n] == '-';
    assert (TemplateHeading + TemplateMissing)[n] == '\U{26A0}';
  }

  /** The report loses nothing: stack entries and variable names that are single
      lines, with no variable spelled like the placeholder, are recovered in
      order together with the template flag. */
  lemma ReportRoundTrip(stack: seq<string>, envVars: seq<string>, hasEnvExample: bool)
    requires forall i :: 0 <= i < |stack| ==> SingleLine(stack[i])
    requires forall i :: 0 <= i < |envVars| ==> SingleLine(envVars[i]) && envVars[i] != Placeholder
    ensures ParseReport(ReportText(stack, envVars, hasEnvExample)) == Some(ReportInputs(stack, envVars, hasEnvExample))
  {
    var bullets := Bullets(stack);
    var env := EnvSection(envVars);
    var template := TemplateSection(hasEnvExample);
    AppendAssoc(Preamble + bullets + EnvHeading, env, template);
    AppendAssoc(Preamble + bullets, EnvHeading, env + template);
    AppendAssoc(Preamble, bullets, EnvHeading + (env + template));
    var afterStack := EnvHeading + (env + template);
    StripPrefix(Preamble, bullets + afterStack);
    NotABullet(EnvHeading, env + template);
    BulletsRoundTrip(stack, afterStack);
    StripPrefix(EnvHeading, env + template);
    NotABullet(TemplateHeading, TemplateLine(hasEnvExample));
    EnvSectionRoundTrip(envVars, template);
    TemplateRoundTrip(hasEnvExample);
  }

  /** The environment section is the placeholder exactly when there are no
      variables, for any list of variable names the scanner can produce. */
  lemma PlaceholderIffNoVariables(envVars: seq<string>)
    requires forall i :: 0 <= i < |envVars| ==> IsEnvName(envVars[i])
    ensures EnvSection(envVars) == NoneDetected <==> envVars == []
  {
    if envVars != [] {
      var x := envVars[0];
      EnvNameIsPlainLine(x);
      assert SingleLine(Placeholder);
      BulletsDiffer(x, Placeholder, Bullets(envVars[1..]));
    }
  }

  /** Variable names are single lines and never equal the placeholder text. */
  lemma EnvNameIsPlainLine(x: string)
    requires IsEnvName(x)
    ensures SingleLine(x) && x != Placeholder
  {
    assert !IsNameChar(Placeholder[1]);
  }

  /** A report of a successful scan can be read back to its stack and variables
      whenever no stack entry holds a line break (only an `engines.node` text
      containing one could make it do so). */
  lemma ScanReportRoundTrip(wc: WorkingCopy, hasEnvExample: bool)
    requires Analyze(wc).Found?
    requires var f := Analyze(wc).findings;
      forall i :: 0 <= i < |f.stack| ==> SingleLine(f.stack[i])
    ensures var f := Analyze(wc).findings;
      ParseReport(ReportText(f.stack, f.envVars, hasEnvExample)) == Some(ReportInputs(f.stack, f.envVars, hasEnvExample))
  {
    var f := Analyze(wc).findings;
    FindingsProperties(wc);
    forall i | 0 <= i < |f.envVars|
      ensures SingleLine(f.envVars[i]) && f.envVars[i] != Placeholder
    {
      EnvNameIsPlainLine(f.envVars[i]);
    }
    ReportRoundTrip(f.stack, f.envVars, hasEnvExample);
  }
}

# SetupSherpa scanner and report, modelled in Dafny

SetupSherpa clones a repository and inventories what it takes to set it up:

- the runtime stack, read from `package.json`;
- the backing services implied by its dependencies;
- the `process.env` variables its source files read;
- the setup commands implied by its scripts;
- the configuration files it is missing.

A second component renders these findings as a markdown report.

This project models the scan after the clone (`scanRepository` in
`backend/scanner.js`, with `fileExists`) and the report text (`generateReport`
in `backend/report.js`). Both are imperative in the original. Each is modelled as
methods that fill their results step by step:

- `Scanner.ScanRepository` pushes onto the five `findings` arrays.
- `EnvScan.MatchEnvRefs` is the global regular-expression match.
- `EnvScan.CollectEnvVars` and `EnvScan.AddMatches` are the capped file loop that fills a Set.
- `Report.GenerateReport` and `Report.AppendBullets` append to the output string.

Every method is proved equal to a reference function. The properties the
program promises are then proved about those functions.

Modules, in dependency order:

- `JsValues` (`js_values.dfy`): JSON values as `JSON.parse` returns them, JavaScript truthiness, property reads, the text a template literal makes of a value, and `String.prototype.trim`.
- `Sequences` (`sequences.dfy`): a JavaScript `Set` in insertion order (`Insert`, `AddAll`, `Dedup`) and subsequence facts.
- `Manifest` (`manifest.dfy`): the stack label, plus the dependency and script tables with their reference functions `ExpectedServices` and `ExpectedCommands`.
- `EnvScan` (`env_scan.dfy`): the `/process\.env\.([A-Z_]+)/g` match and the scan of the first 15 enumerated files.
- `Scanner` (`scanner.dfy`): the working copy as the scan sees it, `Analyze` (the reference result), `ScanRepository`, and the properties of a scan.
- `Report` (`report.dfy`): `ReportText` (the reference text), `GenerateReport`, and a parser `ParseReport` proved to invert it.

Where the code and the documented intent differ, the model follows the code:

- **Stack.** When `package.json` exists, the stack always gets one entry, `"Node.js"` at least, even without an `engines` field.
- **Install command.** `"npm install"` is suggested whenever `scripts` is truthy, including an empty `scripts` object.
- **Cleanup.** The temporary clone is removed only when the scan succeeds. The `fs.rm` call is not in a `finally` block, so a scan that rejects leaves the clone behind. `ScanOutcome.tempDirRemoved` records this.
- **Variable order.** `envVars` lists names in first-occurrence order, because a `Set` keeps insertion order.
- **Placeholders.** The report writes a placeholder only for an empty variable list. An empty stack gets a heading with no lines under it.
- **`null` manifest.** A `package.json` holding just `null` makes the scan reject: reading `pkg.engines` throws.
- **Unprintable version.** A truthy `engines.node` that is an object with its own `toString` key (`{"engines":{"node":{"toString":1}}}`), or an array holding one, makes the template literal on line 25 throw a `TypeError`. The scan then rejects and the clone is kept, like any other rejection.

## Model

| member | source | states |
|---|---|---|
| JsValues.TrimEnd | backend/scanner.js:25 | removes exactly the trailing JavaScript whitespace: the result is a prefix of the input, everything removed is whitespace, and the result does not end in whitespace |
| JsValues.TrimStart | backend/scanner.js:25 | removes exactly the leading JavaScript whitespace: the result is a suffix, everything removed is whitespace, and the result does not start with whitespace |
| JsValues.TrimEndAppend | backend/scanner.js:25 | trimming the end of `a + b` drops `b` entirely when it is blank, and otherwise keeps `a` and trims only `b` |
| JsValues.TrimAfterWord | backend/scanner.js:25 | `(word + " " + v).trim()` is the word alone for a blank `v`, and otherwise the word, a space and `v` without its trailing whitespace; the word always opens the result |
| JsValues.NatToDecimal | backend/scanner.js:25 | an integer version number is written as its decimal numeral: non-empty, digits only, no leading zero, and denoting exactly that number |
| JsValues.Display | backend/scanner.js:25 | converting a value in a template literal throws exactly when it is an object with its own `toString` key or an array holding such a value at any depth |
| JsValues.FalsyValues | backend/scanner.js:25-38 | the `\|\|` and `if` tests treat as false exactly `undefined`, `null`, `false`, `0` and the empty string; objects and arrays, even empty ones, are true |
| JsValues.TrimCharacterisation | backend/scanner.js:25 | `trim` yields the part of the string between its leading and trailing whitespace, and that part neither starts nor ends with whitespace |
| Sequences.AddAllAppend | backend/scanner.js:46-51 | adding two batches of names to the Set one after the other equals adding their concatenation |
| Sequences.DedupProperties | backend/scanner.js:44-54 | `Array.from` of a Set filled from a list has no duplicates, holds exactly the list's members, and orders them by first occurrence |
| Manifest.StackLabelShape | backend/scanner.js:25 | line 25 throws exactly when `engines.node` is truthy and its conversion throws; otherwise the stack entry is `"Node.js"` when `engines.node` is missing, falsy or blank, and otherwise `"Node.js "` followed by the version with its trailing whitespace removed; it always starts with `"Node.js"` |
| Manifest.FiresIff | backend/scanner.js:29-31 | a table row fires exactly when one of its keys names a truthy property |
| Manifest.MatchingFacts | backend/scanner.js:29-31 | the labels of the rows that fire form an ordered, duplicate-free selection of the table's labels, and each label is selected exactly when its row fires |
| Manifest.ServicesProperties | backend/scanner.js:28-32 | services are a duplicate-free, order-preserving selection of Web Server, Redis and Database; each appears iff one of its two packages is a truthy dependency; none without truthy `dependencies` |
| Manifest.CommandsProperties | backend/scanner.js:35-39 | commands are empty iff `scripts` is falsy; otherwise they start with `npm install`; they are an ordered, duplicate-free selection of install, dev and start (so at most 3); dev appears iff `scripts.dev` is truthy and start iff `scripts.start` is |
| EnvScan.RunLength | backend/scanner.js:49 | the `[A-Z_]+` run is greedy: every character in it is a name character, and the one after it is not, or the text ends |
| EnvScan.NameAt | backend/scanner.js:49-50 | the name taken at a match is a maximal reference: accessor, then a non-empty `[A-Z_]` run not followed by another name character |
| EnvScan.MaximalRefIsMatch | backend/scanner.js:49 | every maximal reference in the text is exactly what the pattern matches at that position |
| EnvScan.RefsFromMembership | backend/scanner.js:49 | a name is found from position `i` on exactly when a maximal reference to it starts at or after `i` |
| EnvScan.RefsAreNames | backend/scanner.js:49-50 | every name found is a non-empty `[A-Z_]` string |
| EnvScan.NoRefBetween | backend/scanner.js:49 | no match starts in a stretch without the letter `p` |
| EnvScan.SkipMatch | backend/scanner.js:49 | no match can start inside another match, so resuming the search after a match loses nothing |
| EnvScan.MatchEnvRefs | backend/scanner.js:49-50 | the global match, resumed after each match, yields the names of every reference in text order |
| EnvScan.AddMatches | backend/scanner.js:50 | adding a file's matches to the Set one by one gives the Set extended by those names |
| EnvScan.CollectEnvVars | backend/scanner.js:44-54 | the file loop yields the deduplicated names of the readable files among the first 15 |
| EnvScan.ReadableRefsMembership | backend/scanner.js:46-52 | a name is collected exactly when some readable file contains it |
| EnvScan.EnvVarsMembership | backend/scanner.js:46-52 | a name is reported exactly when one of the first 15 files is readable and references it |
| EnvScan.EnvVarsWellFormed | backend/scanner.js:44-54 | reported names are valid `[A-Z_]+` names, without duplicates, exactly the collected names, in the order of their first occurrence |
| EnvScan.CapIgnoresLaterFiles | backend/scanner.js:46 | files after the 15th never change the reported names |
| EnvScan.ReadableRefsAgree | backend/scanner.js:47-51 | file lists that agree on what each file contributes collect the same names |
| EnvScan.UnreadableIsLikeEmpty | backend/scanner.js:47-51 | an unreadable file does not abort the scan and counts as an empty file |
| Scanner.Analyze | backend/scanner.js:13-64 | only an existing `package.json` can make the scan reject; on success the variables are the collected names, the missing files follow the two file rules, and the stack is empty exactly when there is no `package.json` |
| Scanner.ScanRepository | backend/scanner.js:6-70 | the step-by-step scan returns the reference result, including every rejection; the clone is removed exactly when the scan succeeds |
| Scanner.DetectServices | backend/scanner.js:28-32 | the pushes under `if (pkg.dependencies)` produce the service table's selection |
| Scanner.DeriveCommands | backend/scanner.js:35-39 | the pushes under `if (pkg.scripts)` produce the install command followed by the script table's selection |
| Scanner.ServiceTableUnfolds | backend/scanner.js:29-31 | the service table yields each of its three labels under exactly the condition of its `if` |
| Scanner.ScriptTableUnfolds | backend/scanner.js:37-38 | the script table yields each of its two commands under exactly the condition of its `if` |
| Scanner.ScanFailsOnlyOnBadManifest | backend/scanner.js:22-25 | the scan rejects iff `package.json` exists and cannot be read, is not JSON, is `null`, or has a truthy `engines.node` whose string conversion throws, each with its own error; a missing `package.json` is no error |
| Scanner.FindingsProperties | backend/scanner.js:13-64 | on a successful scan: without `package.json`, stack, services and commands stay empty; with it, the stack is the one stack entry of the manifest, starting with `Node.js`, and services and commands are the table selections of the manifest, commands empty iff `scripts` is falsy; services and commands are ordered, duplicate-free selections with install first; variables are the collected, duplicate-free, valid names; each missing file is listed iff its rule holds, template first, no duplicates |
| Scanner.MissingFilesProperties | backend/scanner.js:57-64 | `.env.example` is listed iff absent; `docker-compose.yml` is listed iff absent while a `Dockerfile` is present; the template comes first; at most two entries |
| Scanner.ExampleStack | backend/scanner.js:25 | a manifest without `engines` gives the stack entry `Node.js` |
| Scanner.ExampleServices | backend/scanner.js:28-32 | a manifest whose only dependency is express gives only the web server |
| Scanner.ExampleCommands | backend/scanner.js:35-39 | a manifest with dev and start scripts gives install, dev and start |
| Scanner.ThrowingVersionScenario | backend/scanner.js:23-25 | a `package.json` whose `engines.node` is `{"toString":1}` makes the scan reject with the version error, whatever the rest of the repository holds |
| Scanner.ExpressScenario | backend/scanner.js:6-70 | for that manifest in a root with neither `.env.example` nor a `Dockerfile`, the findings are exactly `[Node.js]`, `[Web Server]`, the scanned variables, the three commands and `[.env.example]` |
| Report.BulletsAppend | backend/report.js:8 | the bullet lines of two lists, one after the other, are the bullet lines of their concatenation |
| Report.AppendBullets | backend/report.js:8 | a `forEach` that appends `- item` lines adds exactly one line per item, in order |
| Report.GenerateReport | backend/report.js:5-20 | the string built step by step is the reference report: it opens with the title and stack heading, and closes with the template heading and the one line chosen by `hasEnvExample` |
| Report.ReportText | backend/report.js:5-20 | every report starts with `# SetupSherpa Report\n\n## Detected Stack\n` and ends with `\n## Environment Template\n` plus the one template line chosen by `hasEnvExample` |
| Report.BulletsRoundTrip | backend/report.js:8 | bullet lines of single-line items read back to exactly those items, in order |
| Report.BulletsDiffer | backend/report.js:12-14 | a bullet line never starts like the bullet line of a different single-line item |
| Report.EnvSectionRoundTrip | backend/report.js:10-15 | the variable section reads back to the variable list: the placeholder to no variables, bullet lines to the variables in order |
| Report.TemplateRoundTrip | backend/report.js:17-20 | the template section reads back to the `hasEnvExample` flag that chose it |
| Report.ReportRoundTrip | backend/report.js:5-20 | a report determines its inputs when stack entries and variable names are single lines and no variable is spelled `None detected`: stack in order, variables in order, template flag |
| Report.PlaceholderIffNoVariables | backend/report.js:11-15 | for valid variable names, the variable section is `- None detected` exactly when there are no variables |
| Report.EnvNameIsPlainLine | backend/report.js:14 | a valid variable name is a single line and never spelled like the placeholder |
| Report.ScanReportRoundTrip | backend/report.js:5-20 | the report of any successful scan whose stack entry has no line break reads back to that scan's stack and variables |

## Left out

- The `simple-git` clone (backend/scanner.js:11) and the `Date.now()` name of the temporary directory (line 7) are I/O. The model starts from the cloned working copy, and a failed clone is not modelled.
- `fileExists` (backend/scanner.js:72-79) is membership of a name in the set of root entries: `fs.access` is I/O.
- The `glob` enumeration (backend/scanner.js:43) is a given sequence of files in an unknown order. Every property is stated for every order.
- `fs.readFile` and `JSON.parse` (backend/scanner.js:24, 48) are inputs. Each file's content is an optional string, with None meaning unreadable. `package.json` is an outcome: unreadable, malformed, or a parsed value. The JSON grammar itself is not modelled.
- A failure of `fs.rm` (backend/scanner.js:67) is I/O and is not modelled; only whether the removal is reached.
- JsValues.Display: numbers are integers printed exactly. `JSON.parse` yields doubles, so an integer above 2^53 is rounded before it is printed, magnitudes of 1e21 or more print in exponent form, and fractional numbers are not modelled at all. The version field is a string in practice.
- JsValues.Prop assumes the keys read (`engines`, `node`, `dependencies`, `express`, ...) are not properties that `Object.prototype` defines, which holds for every key the scan reads.
- JsValues.Display: the text of a printable value is not proved against an independent definition; only when the conversion throws is stated.
- `hasEnvExample` is an explicit input of GenerateReport. The findings built by `scanRepository` have no such field, so as wired, `result.hasEnvExample` would be undefined.
- `fs.writeFileSync` of `setup.md` and the coloured console message (backend/report.js:22-24) are I/O.
- backend/server.js (HTTP routes, the 400 check on a missing `repoUrl`, the response envelope) and frontend/src/App.js (React UI and `fetch`) are not part of this model.

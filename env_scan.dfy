/** The bounded environment-variable scan: the regular expression
    /process\.env\.([A-Z_]+)/g applied to each readable file among the first
    ScanCap enumerated source files, the names collected into a Set. */
module EnvScan {
  import opened JsValues
  import opened Sequences

  /** The accessor a reference starts with. */
  const Accessor := "process.env."

  /** How many enumerated files are read at most (`jsFiles.slice(0, 15)`). */
  const ScanCap := 15

  /** One entry of the file enumeration: its path and its text, or None when reading it fails. */
  datatype SourceFile = SourceFile(path: string, content: Option<string>)

  /** The character class [A-Z_]. */
  predicate IsNameChar(c: char) {
    ('A' <= c <= 'Z') || c == '_'
  }

  /** A string [A-Z_]+ matches in full. */
  predicate IsEnvName(x: string) {
    |x| > 0 && forall i :: 0 <= i < |x| ==> IsNameChar(x[i])
  }

  /** The length of the greedy run of [A-Z_] starting at `j`: every character in
      it is a name character and the one after it is not (or the text ends). */
  function RunLength(s: string, j: nat): (n: nat)
    requires j <= |s|
    ensures j + n <= |s|
    ensures forall k :: j <= k < j + n ==> IsNameChar(s[k])
    ensures j + n == |s| || !IsNameChar(s[j + n])
    decreases |s| - j
  {
    if j < |s| && IsNameChar(s[j]) then 1 + RunLength(s, j + 1) else 0
  }

  /** The pattern matches at position `i`. */
  predicate IsRefAt(s: string, i: nat) {
    i + |Accessor| < |s| && s[i..i + |Accessor|] == Accessor && IsNameChar(s[i + |Accessor|])
  }

  /** What a reference means, stated without the matcher: `process.env.` at
      position `p`, immediately followed by the name `x`, a non-empty run of
      [A-Z_] that is not followed by another [A-Z_]. */
  predicate IsMaximalRef(s: string, p: nat, x: string) {
    var start := p + |Accessor|;
    var stop := start + |x|;
    stop <= |s| && s[p..start] == Accessor && s[start..stop] == x && IsEnvName(x)
    && (stop == |s| || !IsNameChar(s[stop]))
  }

  /** The captured name of the match at `i` (`match.replace('process.env.', '')`). */
  function NameAt(s: string, i: nat): (x: string)
    requires IsRefAt(s, i)
    ensures IsMaximalRef(s, i, x)
  {
    var start := i + |Accessor|;
    s[start..start + RunLength(s, start)]
  }

  /** A maximal reference at `p` is exactly what the pattern matches there. */
  lemma MaximalRefIsMatch(s: string, p: nat, x: string)
    requires IsMaximalRef(s, p, x)
    ensures IsRefAt(s, p) && NameAt(s, p) == x
  {
    var start := p + |Accessor|;
    var stop := start + |x|;
    forall k | start <= k < stop ensures IsNameChar(s[k]) {
      assert s[start..stop][k - start] == s[k];
    }
    assert RunLength(s, start) == |x|;
  }

  /** Every reference at position `i` or later, in text order: the reference
      definition of what the global match finds. */
  function RefsFrom(s: string, i: nat): seq<string>
    requires i <= |s|
    decreases |s| - i
  {
    if i == |s| then []
    else (if IsRefAt(s, i) then [NameAt(s, i)] else []) + RefsFrom(s, i + 1)
  }

  function Refs(s: string): seq<string> {
    RefsFrom(s, 0)
  }

  /** A name is found exactly when it is a maximal reference somewhere in the text. */
  lemma {:induction false} RefsFromMembership(s: string, i: nat, x: string)
    requires i <= |s|
    ensures x in RefsFrom(s, i) <==> exists p :: i <= p && IsMaximalRef(s, p, x)
    decreases |s| - i
  {
    if i < |s| {
      RefsFromMembership(s, i + 1, x);
      if exists p :: i <= p && IsMaximalRef(s, p, x) {
        var p :| i <= p && IsMaximalRef(s, p, x);
        if p == i { MaximalRefIsMatch(s, p, x); }
      }
    } else {
      forall p | i <= p ensures !IsMaximalRef(s, p, x) { }
    }
  }

  /** Every name found is a non-empty [A-Z_] string. */
  lemma {:induction false} RefsAreNames(s: string, i: nat)
    requires i <= |s|
    ensures forall x :: x in RefsFrom(s, i) ==> IsEnvName(x)
    decreases |s| - i
  {
    if i < |s| { RefsAreNames(s, i + 1); }
  }

  /** No match can start where there is no 'p'. */
  lemma {:induction false} NoRefBetween(s: string, i: nat, j: nat)
    requires i <= j <= |s|
    requires forall k :: i <= k < j ==> s[k] != 'p'
    ensures RefsFrom(s, i) == RefsFrom(s, j)
    decreases j - i
  {
    if i < j {
      NoRefBetween(s, i + 1, j);
      assert i + |Accessor| <= |s| ==> s[i..i + |Accessor|][0] == s[i];
    }
  }

  /** Where no match starts, the search moves on by one character. */
  lemma NoRefAt(s: string, i: nat)
    requires i < |s| && !IsRefAt(s, i)
    ensures RefsFrom(s, i) == RefsFrom(s, i + 1)
  {
    assert [] + RefsFrom(s, i + 1) == RefsFrom(s, i + 1);
  }

  /** The accessor holds a 'p' only in its first position. */
  lemma AccessorStartsWithOnlyP()
    ensures Accessor[0] == 'p'
    ensures forall k :: 1 <= k < |Accessor| ==> Accessor[k] != 'p'
  {
  }

  /** After a match the search resumes past it: no other match starts inside it,
      since 'p' occurs neither in the rest of the accessor nor in a name. */
  lemma SkipMatch(s: string, i: nat)
    requires IsRefAt(s, i)
    ensures var stop := i + |Accessor| + |NameAt(s, i)|;
      stop <= |s| && RefsFrom(s, i) == [NameAt(s, i)] + RefsFrom(s, stop)
  {
    var x := NameAt(s, i);
    var start := i + |Accessor|;
    var stop := start + |x|;
    AccessorStartsWithOnlyP();
    forall k | i + 1 <= k < stop ensures s[k] != 'p' {
      if k < start {
        assert s[i..start][k - i] == s[k];
      } else {
        assert s[start..stop][k - start] == s[k];
      }
    }
    NoRefBetween(s, i + 1, stop);
  }

  /** `content.match(/process\.env\.([A-Z_]+)/g) || []` followed by stripping the
      accessor: the search restarts after each match, as a global match does. */
  method MatchEnvRefs(text: string) returns (names: seq<string>)
    ensures names == Refs(text)
  {
    names := [];
    var i := 0;
    while i < |text|
      invariant i <= |text|
      invariant names + RefsFrom(text, i) == Refs(text)
    {
      if IsRefAt(text, i) {
        var start := i + |Accessor|;
        var name := text[start..start + RunLength(text, start)];
        var stop := start + |name|;
        assert name == NameAt(text, i);
        SkipMatch(text, i);
        AppendAssoc(names, [name], RefsFrom(text, stop));
        assert names + RefsFrom(text, i) == (names + [name]) + RefsFrom(text, stop);
        names := names + [name];
        i := stop;
      } else {
        NoRefAt(text, i);
        i := i + 1;
      }
    }
  }

  /* ---------- collecting over the file enumeration ---------- */

  /** The names a file contributes: none when it could not be read. */
  function FileRefs(f: SourceFile): seq<string> {
    match f.content
    case None => []
    case Some(text) => Refs(text)
  }

  /** The names of all files, file after file. */
  function ReadableRefs(files: seq<SourceFile>): seq<string>
    decreases |files|
  {
    if files == [] then [] else ReadableRefs(files[..|files| - 1]) + FileRefs(files[|files| - 1])
  }

  /** `jsFiles.slice(0, 15)`. */
  function Scanned(files: seq<SourceFile>): seq<SourceFile> {
    if |files| <= ScanCap then files else files[..ScanCap]
  }

  /** Reference definition of `findings.envVars`: the names found in the scanned
      files, each once, in the order they were first found. */
  function EnvVarsOf(files: seq<SourceFile>): seq<string> {
    Dedup(ReadableRefs(Scanned(files)))
  }

  /** `envMatches.forEach(m => envVarsSet.add(...))`: each name joins the Set in turn. */
  method AddMatches(members: seq<string>, found: seq<string>) returns (r: seq<string>)
    ensures r == AddAll(members, found)
  {
    r := members;
    for j := 0 to |found|
      invariant r == AddAll(members, found[..j])
    {
      assert found[..j + 1][..j] == found[..j];
      r := Insert(r, found[j]);
    }
    assert found[..|found|] == found;
  }

  lemma ReadableRefsStep(files: seq<SourceFile>, i: nat)
    requires i < |files|
    ensures ReadableRefs(files[..i + 1]) == ReadableRefs(files[..i]) + FileRefs(files[i])
  {
    assert files[..i + 1][..i] == files[..i];
  }

  /** The scan loop of scanRepository: read each of the first ScanCap files,
      skip the ones that cannot be read, add every match to the Set. */
  method CollectEnvVars(files: seq<SourceFile>) returns (envVars: seq<string>)
    ensures envVars == EnvVarsOf(files)
  {
    var scanned := Scanned(files);
    envVars := [];
    for i := 0 to |scanned|
      invariant envVars == Dedup(ReadableRefs(scanned[..i]))
    {
      ReadableRefsStep(scanned, i);
      match scanned[i].content {
        case None =>
          assert ReadableRefs(scanned[..i]) + [] == ReadableRefs(scanned[..i]);
        case Some(text) =>
          var found := MatchEnvRefs(text);
          AddAllAppend([], ReadableRefs(scanned[..i]), found);
          envVars := AddMatches(envVars, found);
      }
    }
    assert scanned[..|scanned|] == scanned;
  }

  /* ---------- properties of the scan ---------- */

  /** A name is in the result of ReadableRefs exactly when some readable file mentions it. */
  lemma {:induction false} ReadableRefsMembership(files: seq<SourceFile>, x: string)
    ensures x in ReadableRefs(files) <==> exists i :: 0 <= i < |files| && x in FileRefs(files[i])
    decreases |files|
  {
    if files != [] {
      var k := |files| - 1;
      var front := files[..k];
      ReadableRefsMembership(front, x);
      assert ReadableRefs(files) == ReadableRefs(front) + FileRefs(files[k]);
      if x in ReadableRefs(front) {
        var i :| 0 <= i < |front| && x in FileRefs(front[i]);
        assert files[i] == front[i];
      }
      if exists i :: 0 <= i < |files| && x in FileRefs(files[i]) {
        var i :| 0 <= i < |files| && x in FileRefs(files[i]);
        if i < k { assert front[i] == files[i]; }
      }
    }
  }

  /** File `f` is readable and mentions `x` as a maximal reference. */
  ghost predicate Mentions(f: SourceFile, x: string) {
    f.content.Some? && exists p :: IsMaximalRef(f.content.value, p, x)
  }

  /** A name is reported exactly when one of the first ScanCap files is readable
      and mentions it; a name mentioned only in the 16th file or later, or only
      in unreadable files, is never reported. */
  lemma EnvVarsMembership(files: seq<SourceFile>, x: string)
    ensures x in EnvVarsOf(files) <==>
      exists i :: 0 <= i < |files| && i < ScanCap && Mentions(files[i], x)
  {
    var scanned := Scanned(files);
    DedupProperties(ReadableRefs(scanned));
    ReadableRefsMembership(scanned, x);
    forall i | 0 <= i < |scanned| ensures x in FileRefs(scanned[i]) <==> Mentions(scanned[i], x) {
      if scanned[i].content.Some? { RefsFromMembership(scanned[i].content.value, 0, x); }
    }
    assert forall i :: 0 <= i < |scanned| ==> scanned[i] == files[i];
  }

  /** The reported names are valid [A-Z_]+ names, each once, in the order of
      their first occurrence in the scanned text. */
  lemma EnvVarsWellFormed(files: seq<SourceFile>)
    ensures forall x :: x in EnvVarsOf(files) ==> IsEnvName(x)
    ensures Distinct(EnvVarsOf(files))
    ensures forall x :: x in EnvVarsOf(files) <==> x in ReadableRefs(Scanned(files))
    ensures var all := ReadableRefs(Scanned(files));
      forall i, j :: 0 <= i < j < |EnvVarsOf(files)| ==>
        FirstIndex(all, EnvVarsOf(files)[i]) < FirstIndex(all, EnvVarsOf(files)[j])
  {
    var scanned := Scanned(files);
    DedupProperties(ReadableRefs(scanned));
    forall x | x in EnvVarsOf(files) ensures IsEnvName(x) {
      ReadableRefsMembership(scanned, x);
      var i :| 0 <= i < |scanned| && x in FileRefs(scanned[i]);
      RefsAreNames(scanned[i].content.value, 0);
    }
  }

  /** Files past the cap are never read: appending to an enumeration that
      already reaches the cap leaves the result unchanged. */
  lemma CapIgnoresLaterFiles(files: seq<SourceFile>, later: seq<SourceFile>)
    requires |files| >= ScanCap
    ensures EnvVarsOf(files + later) == EnvVarsOf(files)
  {
    assert Scanned(files + later) == Scanned(files);
  }

  lemma {:induction false} ReadableRefsAgree(a: seq<SourceFile>, b: seq<SourceFile>)
    requires |a| == |b|
    requires forall i :: 0 <= i < |a| ==> FileRefs(a[i]) == FileRefs(b[i])
    ensures ReadableRefs(a) == ReadableRefs(b)
    decreases |a|
  {
    if a != [] {
      ReadableRefsAgree(a[..|a| - 1], b[..|b| - 1]);
    }
  }

  /** An unreadable file does not abort the scan and contributes exactly what an
      empty file would: nothing. It still takes one of the ScanCap places. */
  lemma UnreadableIsLikeEmpty(files: seq<SourceFile>, k: nat)
    requires k < |files| && files[k].content.None?
    ensures EnvVarsOf(files) == EnvVarsOf(files[k := SourceFile(files[k].path, Some(""))])
  {
    var other := files[k := SourceFile(files[k].path, Some(""))];
    assert Refs("") == [];
    ReadableRefsAgree(Scanned(files), Scanned(other));
  }
}

/**
 The two import-closure guards of the static check: a worklist over the relative imports of each
 entrypoint that reports imports of an `index-db` module (prompt path) or of a rendering package
 (`--json` path). The graph is finite and may be cyclic.

 Both guards run the same worklist; what they do with one import is `Classify`.
 */
module ImportClosure {
  import opened Common

  /** A repository-relative path with forward slashes. */
  type File = string

  /** An import or re-export: its specifier, and the file it resolves to if it is a relative one that
      names a source file on disk. */
  datatype Import = Import(path: string, target: Option<File>)

  /** The files that exist, and the imports of those that can be read, in source order. */
  datatype Repo = Repo(existing: set<File>, imports: map<File, seq<Import>>)

  datatype Rule = LlmPayload | JsonPath

  datatype Action = Ignore | Report | Follow(target: File)

  /** The import at `index` of `file`, seen while walking from `entry`. */
  datatype Violation = Violation(entry: File, file: File, index: nat)

  const RESTRICTED_RENDERING_PACKAGES := ["marked", "marked-terminal", "cli-table3", "chalk", "boxen"]

  /** Resolution only yields files that exist. */
  ghost predicate Resolved(repo: Repo) {
    forall f, i | f in repo.imports && 0 <= i < |repo.imports[f]| ::
      repo.imports[f][i].target.Some? ==> repo.imports[f][i].target.value in repo.existing
  }

  predicate IsRelative(path: string) {
    "." <= path
  }

  predicate Includes(text: string, part: string) {
    exists i | 0 <= i <= |text| :: part <= text[i..]
  }

  predicate IsIndexDb(file: File) {
    "index-db/" <= file || Includes(file, "/index-db/")
  }

  predicate IsRestrictedPackage(path: string) {
    exists i | 0 <= i < |RESTRICTED_RENDERING_PACKAGES| ::
      path == RESTRICTED_RENDERING_PACKAGES[i] || RESTRICTED_RENDERING_PACKAGES[i] + "/" <= path
  }

  // ----- What the tests on paths mean -----

  /** A specifier that starts with a dot. */
  ghost predicate StartsWithDot(path: string) {
    path != "" && path[0] == '.'
  }

  /** Some directory on the way to the file is called `index-db`. */
  ghost predicate UnderIndexDb(file: File) {
    exists k :: 0 <= k <= |file| && "index-db/" <= file[k..] && (k == 0 || file[k - 1] == '/')
  }

  /** What comes before the first slash. */
  function FirstSegment(path: string): string {
    if path == "" || path[0] == '/' then "" else [path[0]] + FirstSegment(path[1..])
  }

  lemma RelativeIff(path: string)
    ensures IsRelative(path) <==> StartsWithDot(path)
  {
  }

  lemma PrefixOfCons(c: char, part: string, text: string)
    ensures [c] + part <= text <==> text != "" && text[0] == c && part <= text[1..]
  {
    if text != "" { assert text == [text[0]] + text[1..]; }
    if [c] + part <= text { assert part == ([c] + part)[1..]; }
  }

  lemma AfterSlash(file: File, i: nat, part: string)
    requires i <= |file|
    ensures ['/'] + part <= file[i..] <==> i < |file| && file[i] == '/' && part <= file[i + 1..]
  {
    PrefixOfCons('/', part, file[i..]);
    if i < |file| { assert file[i..][1..] == file[i + 1..]; }
  }

  lemma IndexDbIff(file: File)
    ensures IsIndexDb(file) <==> UnderIndexDb(file)
  {
    var part := "index-db/";
    assert "/index-db/" == ['/'] + part;
    forall i | 0 <= i <= |file|
      ensures "/index-db/" <= file[i..] <==> i < |file| && file[i] == '/' && part <= file[i + 1..]
    {
      AfterSlash(file, i, part);
    }
    assert file[0..] == file;
    if Includes(file, "/index-db/") {
      var i :| 0 <= i <= |file| && "/index-db/" <= file[i..];
      assert part <= file[i + 1..] && file[i + 1 - 1] == '/';
    }
    if UnderIndexDb(file) {
      var k :| 0 <= k <= |file| && part <= file[k..] && (k == 0 || file[k - 1] == '/');
      if k > 0 { assert "/index-db/" <= file[k - 1..]; }
    }
  }

  lemma {:induction false} SegmentIff(path: string, pkg: string)
    requires '/' !in pkg
    ensures FirstSegment(path) == pkg <==> path == pkg || pkg + "/" <= path
  {
    if pkg == "" {
      assert pkg + "/" == "/";
    } else if path != "" && path[0] != '/' {
      SegmentIff(path[1..], pkg[1..]);
      assert pkg == [pkg[0]] + pkg[1..] && path == [path[0]] + path[1..];
      assert pkg + "/" == [pkg[0]] + (pkg[1..] + "/");
    } else {
      assert pkg + "/" == [pkg[0]] + (pkg[1..] + "/");
      PrefixOfCons(pkg[0], pkg[1..] + "/", path);
    }
  }

  /** Restricted is a specifier of exactly these packages or of a path below one of them: `marked` does
      not stand for `marked-terminal`. */
  lemma RestrictedPackageIff(path: string)
    ensures IsRestrictedPackage(path) <==>
            FirstSegment(path) in {"marked", "marked-terminal", "cli-table3", "chalk", "boxen"}
  {
    var packages := RESTRICTED_RENDERING_PACKAGES;
    forall i | 0 <= i < |packages|
      ensures FirstSegment(path) == packages[i] <==> path == packages[i] || packages[i] + "/" <= path
    {
      SegmentIff(path, packages[i]);
    }
    assert packages[0] == "marked" && packages[1] == "marked-terminal" && packages[2] == "cli-table3"
           && packages[3] == "chalk" && packages[4] == "boxen";
  }

  /** What the body of the walk does with one import. */
  function Classify(rule: Rule, imp: Import): Action {
    match rule
    case LlmPayload =>
      if !IsRelative(imp.path) then Ignore
      else if imp.target.None? then Ignore
      else if IsIndexDb(imp.target.value) then Report
      else Follow(imp.target.value)
    case JsonPath =>
      if IsRestrictedPackage(imp.path) then Report
      else if IsRelative(imp.path) && imp.target.Some? then Follow(imp.target.value)
      else Ignore
  }

  // ----- The import graph -----

  /** `file` imports `target` relatively, whatever either of them is. */
  ghost predicate Imports(repo: Repo, file: File, target: File) {
    file in repo.imports &&
    exists i :: 0 <= i < |repo.imports[file]|
                && StartsWithDot(repo.imports[file][i].path) && repo.imports[file][i].target == Some(target)
  }

  /** `file` is reached from `entry` by exactly `steps` relative imports. */
  ghost predicate ReachedIn(repo: Repo, entry: File, file: File, steps: nat)
    decreases steps
  {
    if steps == 0 then file == entry
    else exists via :: ReachedIn(repo, entry, via, steps - 1) && Imports(repo, via, file)
  }

  /** One or more imports lead from `entry` to `file`. */
  ghost predicate Reaches(repo: Repo, entry: File, file: File) {
    exists steps: nat :: steps > 0 && ReachedIn(repo, entry, file, steps)
  }

  // ----- The part of the graph the walk follows -----

  ghost predicate Follows(rule: Rule, repo: Repo, file: File, target: File) {
    file in repo.imports &&
    exists i :: 0 <= i < |repo.imports[file]| && Classify(rule, repo.imports[file][i]) == Follow(target)
  }

  ghost predicate WalkedIn(rule: Rule, repo: Repo, entry: File, file: File, steps: nat)
    decreases steps
  {
    if steps == 0 then file == entry
    else exists via :: WalkedIn(rule, repo, entry, via, steps - 1) && Follows(rule, repo, via, file)
  }

  ghost predicate Walked(rule: Rule, repo: Repo, entry: File, file: File) {
    exists steps: nat :: WalkedIn(rule, repo, entry, file, steps)
  }

  lemma WalkedStep(rule: Rule, repo: Repo, entry: File, file: File, target: File)
    requires Walked(rule, repo, entry, file) && Follows(rule, repo, file, target)
    ensures Walked(rule, repo, entry, target)
  {
    var steps: nat :| WalkedIn(rule, repo, entry, file, steps);
    assert WalkedIn(rule, repo, entry, target, steps + 1);
  }

  /** The import is one to report, in a file the walk gets to. */
  ghost predicate Offends(rule: Rule, repo: Repo, v: Violation) {
    && Walked(rule, repo, v.entry, v.file)
    && v.file in repo.imports && v.index < |repo.imports[v.file]|
    && Classify(rule, repo.imports[v.file][v.index]) == Report
  }

  /** A set that holds the entry and is closed under following holds everything walked. */
  lemma {:induction false} ClosedHoldsWalked(rule: Rule, repo: Repo, entry: File, file: File, steps: nat, visited: set<File>)
    requires entry in visited
    requires forall f, g | f in visited && Follows(rule, repo, f, g) :: g in visited
    requires WalkedIn(rule, repo, entry, file, steps)
    ensures file in visited
    decreases steps
  {
    if steps > 0 {
      var via :| WalkedIn(rule, repo, entry, via, steps - 1) && Follows(rule, repo, via, file);
      ClosedHoldsWalked(rule, repo, entry, via, steps - 1, visited);
    }
  }

  ghost predicate Distinct<T>(s: seq<T>) {
    forall i, j | 0 <= i < j < |s| :: s[i] != s[j]
  }

  // ----- The worklist -----

  /** What the loop over the imports of one file adds. */
  method ScanFile(rule: Rule, repo: Repo, entry: File, file: File)
    returns (violations: seq<Violation>, pushed: seq<File>)
    requires file in repo.imports
    ensures forall v :: v in violations <==>
              v.entry == entry && v.file == file && v.index < |repo.imports[file]|
              && Classify(rule, repo.imports[file][v.index]) == Report
    ensures Distinct(violations)
    ensures forall f :: f in pushed <==> Follows(rule, repo, file, f)
  {
    violations, pushed := [], [];
    var imports := repo.imports[file];
    for i := 0 to |imports|
      invariant forall v :: v in violations <==>
                  v.entry == entry && v.file == file && v.index < i && Classify(rule, imports[v.index]) == Report
      invariant Distinct(violations)
      invariant forall f :: f in pushed <==> exists k :: 0 <= k < i && Classify(rule, imports[k]) == Follow(f)
    {
      match Classify(rule, imports[i])
      case Ignore =>
      case Report => violations := violations + [Violation(entry, file, i)];
      case Follow(target) => pushed := pushed + [target];
    }
  }

  /** The walk from one entrypoint: it reports exactly the offending imports, each once. */
  method Walk(rule: Rule, repo: Repo, entry: File) returns (violations: seq<Violation>)
    requires Resolved(repo) && entry in repo.existing
    ensures forall v :: v in violations <==> v.entry == entry && Offends(rule, repo, v)
    ensures Distinct(violations)
  {
    violations := [];
    var visited: set<File> := {};
    var queue := [entry];
    assert WalkedIn(rule, repo, entry, entry, 0);
    while queue != []
      invariant visited <= repo.existing && forall f | f in queue :: f in repo.existing
      invariant entry in visited || entry in queue
      invariant forall f | f in visited || f in queue :: Walked(rule, repo, entry, f)
      invariant forall f, g | f in visited && Follows(rule, repo, f, g) :: g in visited || g in queue
      invariant forall v :: v in violations <==> v.entry == entry && v.file in visited && Offends(rule, repo, v)
      invariant Distinct(violations)
      decreases repo.existing - visited, |queue|
    {
      var file := queue[0];
      ghost var waiting := queue;
      queue := queue[1..];
      assert forall f | f in waiting :: f == file || f in queue;
      if file !in visited {
        visited := visited + {file};
        if file in repo.imports {
          var found, pushed := ScanFile(rule, repo, entry, file);
          forall f | f in pushed ensures Walked(rule, repo, entry, f) && f in repo.existing {
            WalkedStep(rule, repo, entry, file, f);
          }
          violations := violations + found;
          queue := queue + pushed;
        }
      }
    }
    forall v: Violation | v.entry == entry && Offends(rule, repo, v) ensures v.file in visited {
      var steps: nat :| WalkedIn(rule, repo, entry, v.file, steps);
      ClosedHoldsWalked(rule, repo, entry, v.file, steps, visited);
    }
  }

  /** Every entrypoint in turn; one that does not exist is passed over. */
  method CheckImports(rule: Rule, repo: Repo, entries: seq<File>) returns (violations: seq<Violation>)
    requires Resolved(repo)
    ensures forall v :: v in violations <==> v.entry in entries && v.entry in repo.existing && Offends(rule, repo, v)
    ensures Distinct(entries) ==> Distinct(violations)
  {
    violations := [];
    for i := 0 to |entries|
      invariant forall v :: v in violations <==>
                  v.entry in entries[..i] && v.entry in repo.existing && Offends(rule, repo, v)
      invariant Distinct(entries) ==> Distinct(violations)
    {
      assert entries[..i + 1] == entries[..i] + [entries[i]];
      if entries[i] in repo.existing {
        var found := Walk(rule, repo, entries[i]);
        violations := violations + found;
      }
    }
    assert entries[..|entries|] == entries;
  }

  // ----- What a clean report means -----

  ghost predicate Clean(rule: Rule, repo: Repo, entry: File) {
    forall v: Violation | v.entry == entry :: !Offends(rule, repo, v)
  }

  /** The first index-db module on a chain of imports is reported, so with nothing to report every
      chain consists of modules the walk follows. */
  lemma {:induction false} CleanChainIsWalked(repo: Repo, entry: File, file: File, steps: nat)
    requires Clean(LlmPayload, repo, entry)
    requires ReachedIn(repo, entry, file, steps)
    ensures WalkedIn(LlmPayload, repo, entry, file, steps)
    ensures steps > 0 ==> !IsIndexDb(file)
    decreases steps
  {
    if steps > 0 {
      var via :| ReachedIn(repo, entry, via, steps - 1) && Imports(repo, via, file);
      CleanChainIsWalked(repo, entry, via, steps - 1);
      var i :| 0 <= i < |repo.imports[via]|
               && StartsWithDot(repo.imports[via][i].path) && repo.imports[via][i].target == Some(file);
      assert Walked(LlmPayload, repo, entry, via);
      assert !Offends(LlmPayload, repo, Violation(entry, via, i));
      assert Follows(LlmPayload, repo, via, file);
    }
  }

  lemma {:induction false} WalkedIsReached(rule: Rule, repo: Repo, entry: File, file: File, steps: nat)
    requires WalkedIn(rule, repo, entry, file, steps)
    ensures ReachedIn(repo, entry, file, steps)
    decreases steps
  {
    if steps > 0 {
      var via :| WalkedIn(rule, repo, entry, via, steps - 1) && Follows(rule, repo, via, file);
      WalkedIsReached(rule, repo, entry, via, steps - 1);
      assert Imports(repo, via, file);
    }
  }

  /** The prompt path is reported clean exactly when no chain of one or more relative imports leads from
      the entrypoint to an index-db module, even though such modules are never followed. */
  lemma LlmPayloadCleanIff(repo: Repo, entry: File)
    ensures Clean(LlmPayload, repo, entry) <==> forall file | Reaches(repo, entry, file) :: !UnderIndexDb(file)
  {
    if Clean(LlmPayload, repo, entry) {
      forall file | Reaches(repo, entry, file) ensures !UnderIndexDb(file) {
        IndexDbIff(file);
        var steps: nat :| steps > 0 && ReachedIn(repo, entry, file, steps);
        CleanChainIsWalked(repo, entry, file, steps);
      }
    } else {
      var v: Violation :| v.entry == entry && Offends(LlmPayload, repo, v);
      var steps: nat :| WalkedIn(LlmPayload, repo, entry, v.file, steps);
      WalkedIsReached(LlmPayload, repo, entry, v.file, steps);
      var target := repo.imports[v.file][v.index].target.value;
      assert Imports(repo, v.file, target);
      assert ReachedIn(repo, entry, target, steps + 1);
      IndexDbIff(target);
      assert Reaches(repo, entry, target) && UnderIndexDb(target);
    }
  }

  /** A restricted package is never a relative specifier, so reporting it hides no edge of the graph. */
  lemma RestrictedIsBare(path: string)
    requires IsRestrictedPackage(path)
    ensures !IsRelative(path)
  {
    var i :| 0 <= i < |RESTRICTED_RENDERING_PACKAGES| &&
             (path == RESTRICTED_RENDERING_PACKAGES[i] || RESTRICTED_RENDERING_PACKAGES[i] + "/" <= path);
    var pkg := RESTRICTED_RENDERING_PACKAGES[i];
    assert pkg[0] != '.';
    assert path[0] == pkg[0];
  }

  lemma {:induction false} JsonWalksEverything(repo: Repo, entry: File, file: File, steps: nat)
    ensures WalkedIn(JsonPath, repo, entry, file, steps) <==> ReachedIn(repo, entry, file, steps)
    decreases steps
  {
    if WalkedIn(JsonPath, repo, entry, file, steps) {
      WalkedIsReached(JsonPath, repo, entry, file, steps);
    }
    if steps > 0 && ReachedIn(repo, entry, file, steps) {
      var via :| ReachedIn(repo, entry, via, steps - 1) && Imports(repo, via, file);
      JsonWalksEverything(repo, entry, via, steps - 1);
      var i :| 0 <= i < |repo.imports[via]|
               && StartsWithDot(repo.imports[via][i].path) && repo.imports[via][i].target == Some(file);
      if IsRestrictedPackage(repo.imports[via][i].path) { RestrictedIsBare(repo.imports[via][i].path); }
      assert Follows(JsonPath, repo, via, file);
    }
  }

  ghost predicate RendersNothing(repo: Repo, entry: File) {
    forall file, steps: nat, i |
      ReachedIn(repo, entry, file, steps) && file in repo.imports && 0 <= i < |repo.imports[file]| ::
        FirstSegment(repo.imports[file][i].path) !in {"marked", "marked-terminal", "cli-table3", "chalk", "boxen"}
  }

  /** The `--json` path is reported clean exactly when no module reached by any chain of relative
      imports, the entrypoint included, imports a rendering package. */
  lemma JsonPathCleanIff(repo: Repo, entry: File)
    ensures Clean(JsonPath, repo, entry) <==> RendersNothing(repo, entry)
  {
    forall path: string
      ensures IsRestrictedPackage(path) <==>
              FirstSegment(path) in {"marked", "marked-terminal", "cli-table3", "chalk", "boxen"}
    {
      RestrictedPackageIff(path);
    }
    forall file, steps: nat ensures WalkedIn(JsonPath, repo, entry, file, steps) <==> ReachedIn(repo, entry, file, steps) {
      JsonWalksEverything(repo, entry, file, steps);
    }
    if Clean(JsonPath, repo, entry) {
      forall file, steps: nat, i |
        ReachedIn(repo, entry, file, steps) && file in repo.imports && 0 <= i < |repo.imports[file]|
        ensures !IsRestrictedPackage(repo.imports[file][i].path)
      {
        assert Walked(JsonPath, repo, entry, file);
        assert !Offends(JsonPath, repo, Violation(entry, file, i));
      }
    } else {
      var v: Violation :| v.entry == entry && Offends(JsonPath, repo, v);
      var steps: nat :| WalkedIn(JsonPath, repo, entry, v.file, steps);
      assert ReachedIn(repo, entry, v.file, steps) && IsRestrictedPackage(repo.imports[v.file][v.index].path);
    }
  }

  // ----- The two guards -----

  /** What an offence is, in terms of the imports themselves. */
  lemma OffendsIff(rule: Rule, repo: Repo, v: Violation)
    ensures Offends(rule, repo, v) <==>
            && Walked(rule, repo, v.entry, v.file)
            && v.file in repo.imports && v.index < |repo.imports[v.file]|
            && var imp := repo.imports[v.file][v.index];
               match rule
               case LlmPayload => StartsWithDot(imp.path) && imp.target.Some? && UnderIndexDb(imp.target.value)
               case JsonPath => FirstSegment(imp.path) in {"marked", "marked-terminal", "cli-table3", "chalk", "boxen"}
  {
    if v.file in repo.imports && v.index < |repo.imports[v.file]| {
      var imp := repo.imports[v.file][v.index];
      RelativeIff(imp.path);
      RestrictedPackageIff(imp.path);
      if imp.target.Some? { IndexDbIff(imp.target.value); }
    }
  }

  lemma EmptyIffClean(rule: Rule, repo: Repo, entries: seq<File>, violations: seq<Violation>)
    requires forall v :: v in violations <==> v.entry in entries && v.entry in repo.existing && Offends(rule, repo, v)
    ensures violations == [] <==> forall entry | entry in entries && entry in repo.existing :: Clean(rule, repo, entry)
  {
    if violations != [] {
      assert violations[0] in violations;
      assert !Clean(rule, repo, violations[0].entry);
    }
  }

  /** `checkLlmPayloadImports`: no violation exactly when no chain of imports leads from an existing
      entrypoint to a file under an `index-db` directory. */
  method CheckLlmPayloadImports(repo: Repo, entries: seq<File>) returns (violations: seq<Violation>)
    requires Resolved(repo)
    ensures forall v :: v in violations <==>
              v.entry in entries && v.entry in repo.existing && Offends(LlmPayload, repo, v)
    ensures violations == [] <==>
            forall entry, file | entry in entries && entry in repo.existing && Reaches(repo, entry, file) ::
              !UnderIndexDb(file)
  {
    violations := CheckImports(LlmPayload, repo, entries);
    EmptyIffClean(LlmPayload, repo, entries, violations);
    forall entry
      ensures Clean(LlmPayload, repo, entry) <==> forall file | Reaches(repo, entry, file) :: !UnderIndexDb(file)
    {
      LlmPayloadCleanIff(repo, entry);
    }
  }

  /** `checkJsonPathImports`: no violation exactly when no file that an existing entrypoint leads to,
      itself included, imports one of the rendering packages. */
  method CheckJsonPathImports(repo: Repo, entries: seq<File>) returns (violations: seq<Violation>)
    requires Resolved(repo)
    ensures forall v :: v in violations <==>
              v.entry in entries && v.entry in repo.existing && Offends(JsonPath, repo, v)
    ensures violations == [] <==>
            forall entry | entry in entries && entry in repo.existing :: RendersNothing(repo, entry)
  {
    violations := CheckImports(JsonPath, repo, entries);
    EmptyIffClean(JsonPath, repo, entries, violations);
    forall entry ensures Clean(JsonPath, repo, entry) <==> RendersNothing(repo, entry) {
      JsonPathCleanIff(repo, entry);
    }
  }
}

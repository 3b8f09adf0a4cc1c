/**
 `config data-dir <target>`: moving the data directory, as a protocol over an abstract disk.

 A disk is a map from paths to contents plus the configured data directory. Renames are atomic;
 copies and removals go file by file and may stop anywhere; the configuration write and every other
 call may fail. `Disk.trail` records each state the disk passes through, so a statement about every
 state of the trail is a statement about every moment a crash could happen.
 */
module Relocation {
  import opened Common

  /** An absolute, resolved path, as its segments. */
  type Path = seq<string>
  type Content = string
  type Files = map<Path, Content>

  const MANAGED_TREE_DIRNAME := "browsers"

  datatype ManagedTreeAction = Absent | MoveAlong | DropAndReinstall

  /** One relocation: where from, where to, and the subtree a cross-volume move leaves out. */
  datatype Plan = Plan(source: Path, target: Path, exclude: Option<Path>)

  // ----- What must survive -----

  predicate Holds(files: Files, p: Path, c: Content) {
    p in files && files[p] == c
  }

  /** The files the relocation is about: those of the source outside the excluded subtree. */
  predicate Own(plan: Plan, p: Path) {
    plan.source <= p && !(plan.exclude.Some? && plan.exclude.value <= p)
  }

  function Destination(plan: Plan, p: Path): Path
    requires plan.source <= p
  {
    plan.target + p[|plan.source|..]
  }

  /** Where a rollback puts a file of the target. */
  function Home(plan: Plan, p: Path): Path
    requires plan.target <= p
  {
    plan.source + p[|plan.target|..]
  }

  /** A file that was in the target already and that no relocated file replaces. */
  predicate Guest(plan: Plan, before: Files, p: Path) {
    plan.target <= p && !(plan.source <= p) && !(Home(plan, p) in before && Own(plan, Home(plan, p)))
  }

  predicate Outside(plan: Plan, p: Path) {
    !(plan.source <= p) && !(plan.target <= p)
  }

  /** Nothing is lost: each file is where it was or where the move or its rollback puts it. */
  ghost predicate Safe(plan: Plan, before: Files, now: Files) {
    && (forall p | p in before && Own(plan, p) ::
          Holds(now, p, before[p]) || Holds(now, Destination(plan, p), before[p]))
    && (forall p | p in before && Guest(plan, before, p) ::
          Holds(now, p, before[p]) || Holds(now, Home(plan, p), before[p]))
    && (forall p | p in before && Outside(plan, p) :: Holds(now, p, before[p]))
  }

  /** The target holds everything. */
  ghost predicate Arrived(plan: Plan, before: Files, now: Files) {
    && (forall p | p in before && Own(plan, p) :: Holds(now, Destination(plan, p), before[p]))
    && (forall p | p in before && Guest(plan, before, p) :: Holds(now, p, before[p]))
    && (forall p | p in before && Outside(plan, p) :: Holds(now, p, before[p]))
  }

  /** Some file's destination is inside the source again: possible when the target is an ancestor of
      the source, a case the command does not refuse. */
  ghost predicate LandsBack(plan: Plan, before: Files) {
    exists p :: p in before && Own(plan, p) && plan.source <= Destination(plan, p)
  }

  /** The state of a copy under way: the source untouched, guests and outside files in place. */
  ghost predicate Copying(plan: Plan, before: Files, now: Files) {
    && (forall p | plan.source <= p :: p in before <==> p in now)
    && (forall p | p in before && plan.source <= p :: Holds(now, p, before[p]))
    && (forall p | p in before && Guest(plan, before, p) :: Holds(now, p, before[p]))
    && (forall p | p in before && Outside(plan, p) :: Holds(now, p, before[p]))
  }

  predicate Empty(files: Files, root: Path) {
    forall p | p in files :: !(root <= p)
  }

  // ----- The disk operations on values -----

  function Without(files: Files, p: Path): Files {
    map q | q in files && q != p :: files[q]
  }

  /** What renaming a directory needs: not into itself, and nothing where it goes. */
  predicate CanRename(files: Files, from: Path, to: Path) {
    !(from <= to) && Empty(files, to)
  }

  function Rebased(p: Path, from: Path, to: Path): Path {
    if from <= p then to + p[|from|..] else p
  }

  /** Distinct files stay distinct under a rename. */
  lemma RebasedIsInjective(files: Files, from: Path, to: Path, p: Path, q: Path)
    requires CanRename(files, from, to)
    requires p in files && q in files && Rebased(p, from, to) == Rebased(q, from, to)
    ensures p == q
  {
    if from <= p && from <= q {
      assert p == from + p[|from|..] && q == from + q[|from|..];
      assert p[|from|..] == Rebased(p, from, to)[|to|..];
      assert q[|from|..] == Rebased(q, from, to)[|to|..];
    }
  }

  /** A directory rename: every path under `from` now starts with `to`. */
  function Renamed(files: Files, from: Path, to: Path): Files
    requires CanRename(files, from, to)
  {
    assert forall p, q | p in files && q in files && Rebased(p, from, to) == Rebased(q, from, to) :: p == q by {
      forall p, q | p in files && q in files && Rebased(p, from, to) == Rebased(q, from, to) ensures p == q {
        RebasedIsInjective(files, from, to, p, q);
      }
    }
    map p | p in files :: Rebased(p, from, to) := files[p]
  }

  lemma RenamedHolds(files: Files, from: Path, to: Path, p: Path)
    requires CanRename(files, from, to) && p in files
    ensures Holds(Renamed(files, from, to), Rebased(p, from, to), files[p])
  {
    var renamed, q := Renamed(files, from, to), Rebased(p, from, to);
    var o :| o in files && Rebased(o, from, to) == q && renamed[q] == files[o];
    RebasedIsInjective(files, from, to, p, o);
  }

  lemma RenamedLeavesNothing(files: Files, from: Path, to: Path)
    requires CanRename(files, from, to)
    ensures Empty(Renamed(files, from, to), from)
  {
  }

  // ----- What each step keeps -----

  lemma CopyingIsSafe(plan: Plan, before: Files, now: Files)
    requires Copying(plan, before, now)
    ensures Safe(plan, before, now)
  {
  }

  lemma CopyStep(plan: Plan, before: Files, now: Files, p: Path)
    requires !LandsBack(plan, before)
    requires Copying(plan, before, now)
    requires p in now && Own(plan, p)
    ensures Copying(plan, before, now[Destination(plan, p) := now[p]])
    ensures Holds(now[Destination(plan, p) := now[p]], Destination(plan, p), before[p])
  {
    var q := Destination(plan, p);
    assert !(plan.source <= q) && Home(plan, q) == p;
    WriteKeepsCopying(plan, before, now, q, now[p]);
  }

  lemma WriteKeepsCopying(plan: Plan, before: Files, now: Files, q: Path, content: Content)
    requires Copying(plan, before, now)
    requires !(plan.source <= q) && !Guest(plan, before, q) && !Outside(plan, q)
    ensures Copying(plan, before, now[q := content])
  {
    hide Guest, Outside;
    assert forall p | p in before && p != q && Holds(now, p, before[p]) :: Holds(now[q := content], p, before[p]);
  }

  ghost predicate Delivered(plan: Plan, before: Files, now: Files, visited: seq<Path>) {
    forall p | p in visited && p in before && Own(plan, p) :: Holds(now, Destination(plan, p), before[p])
  }

  lemma CopyStepDelivers(plan: Plan, before: Files, now: Files, p: Path, visited: seq<Path>)
    requires Copying(plan, before, now) && p in now && Own(plan, p)
    requires Delivered(plan, before, now, visited)
    ensures Delivered(plan, before, now[Destination(plan, p) := now[p]], visited + [p])
  {
    forall q | q in visited && q in before && Own(plan, q) && Destination(plan, q) == Destination(plan, p)
      ensures q == p
    {
      assert q[|plan.source|..] == Destination(plan, q)[|plan.target|..];
      assert p[|plan.source|..] == Destination(plan, p)[|plan.target|..];
    }
  }

  /** A finished copy has put every file in the target. */
  lemma CopyDone(plan: Plan, before: Files, now: Files, visited: seq<Path>)
    requires Copying(plan, before, now)
    requires forall p | p in before && Own(plan, p) :: p in visited
    requires Delivered(plan, before, now, visited)
    ensures Arrived(plan, before, now)
  {
  }

  lemma ArrivedIsSafe(plan: Plan, before: Files, now: Files)
    requires Arrived(plan, before, now)
    ensures Safe(plan, before, now)
  {
  }

  lemma UntouchedIsSafe(plan: Plan, before: Files)
    ensures Safe(plan, before, before)
  {
  }

  /** Once everything arrived, removing a file of the source keeps it so. */
  lemma RemoveStep(plan: Plan, before: Files, now: Files, p: Path)
    requires !LandsBack(plan, before)
    requires Arrived(plan, before, now)
    requires plan.source <= p
    ensures Arrived(plan, before, Without(now, p))
  {
  }

  lemma NothingToMove(plan: Plan, before: Files)
    requires Empty(before, plan.source)
    ensures Arrived(plan, before, before)
  {
  }

  lemma RenameArrives(plan: Plan, before: Files)
    requires plan.exclude.None?
    requires CanRename(before, plan.source, plan.target)
    ensures !LandsBack(plan, before)
    ensures Arrived(plan, before, Renamed(before, plan.source, plan.target))
  {
    forall p | p in before
      ensures Own(plan, p) ==> Holds(Renamed(before, plan.source, plan.target), Destination(plan, p), before[p])
      ensures !Own(plan, p) ==> Holds(Renamed(before, plan.source, plan.target), p, before[p])
    {
      RenamedHolds(before, plan.source, plan.target, p);
    }
  }

  /** Renaming the target back brings a relocated file home, ... */
  lemma OwnComesHome(plan: Plan, before: Files, now: Files, p: Path)
    requires Arrived(plan, before, now)
    requires CanRename(now, plan.target, plan.source)
    requires p in before && Own(plan, p)
    ensures Holds(Renamed(now, plan.target, plan.source), p, before[p])
  {
    hide Renamed;
    var q := Destination(plan, p);
    RenamedHolds(now, plan.target, plan.source, q);
    assert q[|plan.target|..] == p[|plan.source|..];
    assert p == plan.source + p[|plan.source|..];
  }

  /** ... takes a guest along, ... */
  lemma GuestGoesAlong(plan: Plan, before: Files, now: Files, p: Path)
    requires Arrived(plan, before, now)
    requires CanRename(now, plan.target, plan.source)
    requires p in before && Guest(plan, before, p)
    ensures Holds(Renamed(now, plan.target, plan.source), Home(plan, p), before[p])
  {
    hide Renamed;
    RenamedHolds(now, plan.target, plan.source, p);
  }

  /** ... and leaves alone what is outside. */
  lemma OutsideStays(plan: Plan, before: Files, now: Files, p: Path)
    requires Arrived(plan, before, now)
    requires CanRename(now, plan.target, plan.source)
    requires p in before && Outside(plan, p)
    ensures Holds(Renamed(now, plan.target, plan.source), p, before[p])
  {
    hide Renamed;
    RenamedHolds(now, plan.target, plan.source, p);
  }

  /** Renaming the target back keeps every file, now under the source, and leaves the target empty. */
  lemma RollbackIsSafe(plan: Plan, before: Files, now: Files)
    requires Arrived(plan, before, now)
    requires CanRename(now, plan.target, plan.source)
    ensures var back := Renamed(now, plan.target, plan.source);
            && Safe(plan, before, back)
            && Empty(back, plan.target)
            && (forall p | p in before && Own(plan, p) :: Holds(back, p, before[p]))
  {
    RenamedLeavesNothing(now, plan.target, plan.source);
    hide Renamed, Arrived;
    forall p | p in before && Own(plan, p)
      ensures Holds(Renamed(now, plan.target, plan.source), p, before[p])
    {
      OwnComesHome(plan, before, now, p);
    }
    forall p | p in before && Guest(plan, before, p)
      ensures Holds(Renamed(now, plan.target, plan.source), Home(plan, p), before[p])
    {
      GuestGoesAlong(plan, before, now, p);
    }
    forall p | p in before && Outside(plan, p)
      ensures Holds(Renamed(now, plan.target, plan.source), p, before[p])
    {
      OutsideStays(plan, before, now, p);
    }
  }

  /** With the source emptied, a file whose destination is inside the source is gone. */
  lemma LandingBackLoses(plan: Plan, before: Files, now: Files)
    requires LandsBack(plan, before)
    requires Empty(now, plan.source)
    ensures !Safe(plan, before, now)
  {
    var p :| p in before && Own(plan, p) && plan.source <= Destination(plan, p);
    assert !Holds(now, p, before[p]) && !Holds(now, Destination(plan, p), before[p]);
  }

  /** When a file lands back: the target is a proper ancestor of the source, and below the source some
      file to be moved starts with the very segments that lead from the target to the source. */
  lemma LandsBackIff(plan: Plan, before: Files)
    requires !(plan.source <= plan.target)
    ensures LandsBack(plan, before) <==>
            && plan.target <= plan.source
            && exists p :: p in before && Own(plan, p)
                           && plan.source[|plan.target|..] <= p[|plan.source|..]
  {
    forall p | plan.source <= p
      ensures plan.source <= Destination(plan, p) <==>
              plan.target <= plan.source && plan.source[|plan.target|..] <= p[|plan.source|..]
    {
      var q := Destination(plan, p);
      assert q[|plan.target|..] == p[|plan.source|..];
      if plan.target <= plan.source {
        assert plan.source == plan.target + plan.source[|plan.target|..];
      } else if plan.source <= q {
        assert plan.target <= q;
      }
    }
  }

  /** What the target owes its readers once the configuration names it. */
  predicate Owed(plan: Plan, before: Files, p: Path) {
    p in before && (Own(plan, p) || Guest(plan, before, p))
  }

  /** After a late rollback the target is empty, and so not what the configuration promises, unless
      there was nothing to hold in the first place. */
  lemma RolledBackIsNotArrived(plan: Plan, before: Files, now: Files)
    requires Empty(now, plan.target)
    requires forall p | p in before && Outside(plan, p) :: Holds(now, p, before[p])
    ensures Arrived(plan, before, now) <==> !exists p :: Owed(plan, before, p)
  {
    forall p | Owed(plan, before, p) ensures !Arrived(plan, before, now) {
      assert Own(plan, p) ==> plan.target <= Destination(plan, p);
    }
    if !exists p :: Owed(plan, before, p) {
      forall p | p in before ensures !Own(plan, p) && !Guest(plan, before, p) { assert !Owed(plan, before, p); }
    }
  }

  /** Where renaming back is possible at all, no file lands back. */
  lemma RollbackMeansNoLandingBack(plan: Plan, before: Files)
    requires !(plan.source <= plan.target) && !(plan.target <= plan.source)
    ensures !LandsBack(plan, before)
  {
    LandsBackIff(plan, before);
  }

  // ----- How a run ends -----

  /** The files after a copy that reached these paths, in this order. */
  function AfterCopy(plan: Plan, files: Files, visits: seq<Path>): Files {
    if visits == [] then files
    else
      var earlier, p := AfterCopy(plan, files, visits[..|visits| - 1]), visits[|visits| - 1];
      if p in earlier && Own(plan, p) then earlier[Destination(plan, p) := earlier[p]] else earlier
  }

  lemma NoCopyYet(plan: Plan, files: Files)
    ensures AfterCopy(plan, files, []) == files
  {
  }

  lemma CopyOneMore(plan: Plan, files: Files, visits: seq<Path>, p: Path)
    ensures var now := AfterCopy(plan, files, visits);
            AfterCopy(plan, files, visits + [p]) ==
              if p in now && Own(plan, p) then now[Destination(plan, p) := now[p]] else now
  {
    assert (visits + [p])[..|visits|] == visits;
  }

  function AfterRemove(files: Files, root: Path, visits: seq<Path>): Files {
    map p | p in files && !(root <= p && p in visits) :: files[p]
  }

  lemma OneRemovedMore(files: Files, root: Path, visits: seq<Path>, p: Path)
    ensures var now := AfterRemove(files, root, visits);
            AfterRemove(files, root, visits + [p]) == if p in now && root <= p then Without(now, p) else now
  {
  }

  lemma RemovedAll(files: Files, root: Path, visits: seq<Path>)
    ensures Empty(AfterRemove(files, root, visits), root)
            <==> forall p | p in files && root <= p :: p in visits
  {
    assert forall p | p in files && root <= p :: p in AfterRemove(files, root, visits) <==> p !in visits;
  }

  predicate CopyCompletes(plan: Plan, files: Files, sweep: Sweep) {
    sweep.fate.Succeeds? && forall p | p in files && Own(plan, p) :: p in sweep.visits
  }

  predicate RemoveCompletes(root: Path, files: Files, sweep: Sweep) {
    sweep.fate.Succeeds? && forall p | p in files && root <= p :: p in sweep.visits
  }

  predicate NothingThere(plan: Plan, calls: Calls, files: Files) {
    calls.inspectSource.Missing? && Empty(files, plan.source)
  }

  predicate RenamesAway(plan: Plan, merge: bool, calls: Calls, files: Files) {
    !merge && plan.exclude.None? && calls.rename.RenameSucceeds? && CanRename(files, plan.source, plan.target)
  }

  predicate CopiesAway(plan: Plan, merge: bool, calls: Calls, files: Files) {
    && (merge || plan.exclude.Some? || calls.rename.CrossDevice?)
    && CopyCompletes(plan, files, calls.copy)
    && RemoveCompletes(plan.source, AfterCopy(plan, files, calls.copy.visits), calls.removeSource)
  }

  /** When `moveDirectory` succeeds. */
  predicate Moves(plan: Plan, merge: bool, calls: Calls, files: Files) {
    && !calls.inspectSource.Unreadable?
    && calls.makeDirectory.Succeeds?
    && (NothingThere(plan, calls, files) || RenamesAway(plan, merge, calls, files)
        || CopiesAway(plan, merge, calls, files))
  }

  /** What a successful `moveDirectory` leaves behind. */
  function Moved(plan: Plan, merge: bool, calls: Calls, files: Files): Files {
    if NothingThere(plan, calls, files) then files
    else if RenamesAway(plan, merge, calls, files) then Renamed(files, plan.source, plan.target)
    else AfterRemove(AfterCopy(plan, files, calls.copy.visits), plan.source, calls.removeSource.visits)
  }

  predicate CanBegin(emptyTarget: bool, calls: Calls) {
    && (emptyTarget ==> calls.removeTarget.Succeeds?)
    && !calls.inspectSource.Unreadable? && calls.makeDirectory.Succeeds?
  }

  /** When the configuration gets written at all. */
  predicate ReachesCommit(plan: Plan, move: bool, entries: bool, emptyTarget: bool, calls: Calls, files: Files) {
    move ==> (emptyTarget ==> calls.removeTarget.Succeeds?) && Moves(plan, entries, calls, files)
  }

  /** When a failed write is followed by a rename back. */
  predicate RollsBack(plan: Plan, move: bool, calls: Calls) {
    && move && plan.exclude.None? && !calls.config.ConfigSucceeds?
    && calls.rollback.Succeeds? && !(plan.target <= plan.source)
  }

  /** The files that a run which reached the commit leaves behind, completed or not. */
  function Settled(plan: Plan, move: bool, entries: bool, calls: Calls, files: Files): Files {
    var moved := if move then Moved(plan, entries, calls, files) else files;
    if RollsBack(plan, move, calls) && CanRename(moved, plan.target, plan.source)
    then Renamed(moved, plan.target, plan.source) else moved
  }

  /** When a move that reached the commit leaves the configuration naming a target that does not hold
      everything: a file landed back, or a write failed late and the data went home. */
  ghost predicate Misnames(plan: Plan, calls: Calls, before: Files) {
    if LandsBack(plan, before) then !calls.config.ConfigFailsBeforeCommit?
    else calls.config.ConfigFailsAfterCommit? && RollsBack(plan, true, calls) && exists p :: Owed(plan, before, p)
  }

  predicate Occupied(request: Request, checks: Checks, files: Files)
    requires request.target.Some?
  {
    !Empty(files, request.target.value) || (checks.listing.Found? && checks.subdirectories)
  }

  /** When nothing stops a command with a target before it touches the disk. */
  predicate Allowed(source: Path, request: Request, checks: Checks, files: Files)
    requires request.target.Some?
  {
    && checks.absolute && !(Fold(source) <= Fold(request.target.value))
    && checks.schemaAccepts && !checks.lockHeld && !checks.managedUse
    && !checks.listing.Unreadable?
    && (Occupied(request, checks, files) ==> request.force)
  }

  predicate Commits(source: Path, request: Request, checks: Checks, calls: Calls, files: Files)
    requires request.target.Some?
  {
    && Allowed(source, request, checks, files)
    && !request.dryRun
    && var occupied := Occupied(request, checks, files);
       ReachesCommit(PlanOf(source, request, checks), request.move, occupied,
                     checks.listing.Found? && !occupied, calls, files)
  }

  // ----- What a completed move delivers -----

  /** Path by path: every file below the source, but for the managed browsers when they are left behind,
      is at its place below the target; files elsewhere are as they were, and so are those of the target
      that none of the moved ones replaces. */
  ghost predicate Delivers(source: Path, target: Path, leaves: bool, before: Files, now: Files) {
    && (forall p | p in before && Moving(source, leaves, p) :: Holds(now, target + p[|source|..], before[p]))
    && (forall p | p in before && !(source <= p) && !(target <= p) :: Holds(now, p, before[p]))
    && (forall p | p in before && !(source <= p) && target <= p
                   && (forall q | q in before && Moving(source, leaves, q) :: target + q[|source|..] != p) ::
          Holds(now, p, before[p]))
  }

  ghost predicate Moving(source: Path, leaves: bool, p: Path) {
    source <= p && !(leaves && source + ["browsers"] <= p)
  }

  /** No file below the target's `browsers` came with the move. */
  ghost predicate BrowsersStay(target: Path, before: Files, now: Files) {
    forall p | p in now && target + ["browsers"] <= p :: p in before && now[p] == before[p]
  }

  lemma ArrivedDelivers(source: Path, target: Path, leaves: bool, before: Files, now: Files)
    requires Arrived(Plan(source, target, if leaves then Some(source + ["browsers"]) else None), before, now)
    ensures Delivers(source, target, leaves, before, now)
  {
    var plan := Plan(source, target, if leaves then Some(source + ["browsers"]) else None);
    forall p ensures Moving(source, leaves, p) <==> Own(plan, p) {}
    forall p | p in before && Moving(source, leaves, p) ensures Holds(now, target + p[|source|..], before[p]) {
      assert Holds(now, Destination(plan, p), before[p]);
    }
    forall p | p in before && !(source <= p) && target <= p
               && (forall q | q in before && Moving(source, leaves, q) :: target + q[|source|..] != p)
      ensures Holds(now, p, before[p])
    {
      var home := Home(plan, p);
      assert home[|source|..] == p[|target|..];
      assert target + home[|source|..] == p;
      assert Guest(plan, before, p);
    }
  }

  lemma OwnMissesBrowsers(plan: Plan, p: Path)
    requires plan.exclude == Some(plan.source + ["browsers"]) && Own(plan, p)
    ensures !(plan.target + ["browsers"] <= Destination(plan, p))
  {
    var q := Destination(plan, p);
    assert q[|plan.target|..] == p[|plan.source|..];
    assert |q| > |plan.target| ==> q[|plan.target|] == p[|plan.source|];
    assert p == plan.source + p[|plan.source|..];
  }

  lemma {:induction false} CopyLeavesBrowsers(plan: Plan, files: Files, visits: seq<Path>)
    requires plan.exclude == Some(plan.source + ["browsers"])
    ensures BrowsersStay(plan.target, files, AfterCopy(plan, files, visits))
  {
    if visits != [] {
      CopyLeavesBrowsers(plan, files, visits[..|visits| - 1]);
      var p := visits[|visits| - 1];
      if Own(plan, p) { OwnMissesBrowsers(plan, p); }
    }
  }

  lemma MoveLeavesBrowsers(plan: Plan, entries: bool, calls: Calls, before: Files)
    requires plan.exclude == Some(plan.source + ["browsers"])
    ensures BrowsersStay(plan.target, before, Moved(plan, entries, calls, before))
  {
    hide AfterCopy;
    CopyLeavesBrowsers(plan, before, calls.copy.visits);
  }

  // ----- The disk -----

  /** What a run of the protocol depends on besides its arguments: how each call ends. */
  datatype Fate = Succeeds | Fails
  datatype Inspection = Found | Missing | Unreadable
  datatype RenameFate = RenameSucceeds | CrossDevice | RenameFails
  /** `ConfigFailsAfterCommit`: the new file is in place, then the final permission change fails. */
  datatype ConfigFate = ConfigSucceeds | ConfigFailsBeforeCommit | ConfigFailsAfterCommit

  /** A recursive call on a tree: the files it got to, in its order, and how it ended. */
  datatype Sweep = Sweep(visits: seq<Path>, fate: Fate)

  datatype Snapshot = Snapshot(files: Files, setting: Path)

  class Disk {
    var files: Files
    /** The configured data directory, `paths.data_dir`. */
    var setting: Path
    /** Every state the disk has been in, the current one last. */
    ghost var trail: seq<Snapshot>

    ghost predicate Valid()
      reads this
    {
      trail != [] && trail[|trail| - 1] == Snapshot(files, setting)
    }

    constructor (files: Files, setting: Path)
      ensures Valid() && this.files == files && this.setting == setting
      ensures trail == [Snapshot(files, setting)]
    {
      this.files, this.setting := files, setting;
      trail := [Snapshot(files, setting)];
    }

    /** Changes the files, all at once, and records the state that results. */
    method Become(now: Files)
      requires Valid()
      modifies this
      ensures Valid() && files == now && setting == old(setting)
      ensures trail == old(trail) + [Snapshot(now, setting)]
    {
      files := now;
      trail := trail + [Snapshot(now, setting)];
    }

    /** A recursive copy of the plan's files: each file with the content it has when it is reached. */
    method Copy(plan: Plan, sweep: Sweep) returns (fate: Fate, ghost steps: seq<Snapshot>)
      requires Valid()
      modifies this
      ensures Valid() && setting == old(setting) && trail == old(trail) + steps
      ensures forall s | s in steps :: s.setting == setting
      ensures files == AfterCopy(plan, old(files), sweep.visits)
      ensures fate.Succeeds? <==> CopyCompletes(plan, old(files), sweep)
      ensures !LandsBack(plan, old(files)) ==>
          && Copying(plan, old(files), files)
          && (forall s | s in steps :: Copying(plan, old(files), s.files))
          && (fate.Succeeds? ==> Arrived(plan, old(files), files))
    {
      hide AfterCopy, LandsBack, Arrived;
      ghost var before, fits := files, !LandsBack(plan, files);
      NoCopyYet(plan, before);
      assert sweep.visits[..0] == [];
      var all := forall p | p in files && Own(plan, p) :: p in sweep.visits;
      steps := [];
      for i := 0 to |sweep.visits|
        invariant Valid() && setting == old(setting) && trail == old(trail) + steps
        invariant forall s | s in steps :: s.setting == setting
        invariant files == AfterCopy(plan, before, sweep.visits[..i])
        invariant fits ==> Copying(plan, before, files)
        invariant fits ==> forall s | s in steps :: Copying(plan, before, s.files)
        invariant fits ==> Delivered(plan, before, files, sweep.visits[..i])
      {
        var p := sweep.visits[i];
        if p in files && Own(plan, p) {
          if fits {
            CopyStep(plan, before, files, p);
            CopyStepDelivers(plan, before, files, p, sweep.visits[..i]);
          }
          Become(files[Destination(plan, p) := files[p]]);
          steps := steps + [Snapshot(files, setting)];
        }
        assert sweep.visits[..i + 1] == sweep.visits[..i] + [p];
        CopyOneMore(plan, before, sweep.visits[..i], p);
      }
      assert sweep.visits[..|sweep.visits|] == sweep.visits;
      if fits && all { CopyDone(plan, before, files, sweep.visits); }
      fate := if all then sweep.fate else Fails;
    }

    /** A recursive removal below `root`. Once everything has arrived it cannot lose anything. */
    method Remove(root: Path, sweep: Sweep, ghost plan: Plan, ghost before: Files)
      returns (fate: Fate, ghost steps: seq<Snapshot>)
      requires Valid() && plan.source <= root
      modifies this
      ensures Valid() && setting == old(setting) && trail == old(trail) + steps
      ensures forall s | s in steps :: s.setting == setting
      ensures files == AfterRemove(old(files), root, sweep.visits)
      ensures fate.Succeeds? <==> RemoveCompletes(root, old(files), sweep)
      ensures fate.Succeeds? ==> Empty(files, root)
      ensures !LandsBack(plan, before) && Arrived(plan, before, old(files)) ==>
          && Arrived(plan, before, files)
          && (forall s | s in steps :: Arrived(plan, before, s.files))
    {
      ghost var fits := !LandsBack(plan, before) && Arrived(plan, before, files);
      steps := [];
      assert files == AfterRemove(files, root, sweep.visits[..0]);
      for i := 0 to |sweep.visits|
        invariant Valid() && setting == old(setting) && trail == old(trail) + steps
        invariant forall s | s in steps :: s.setting == setting
        invariant files == AfterRemove(old(files), root, sweep.visits[..i])
        invariant fits ==> Arrived(plan, before, files)
        invariant fits ==> forall s | s in steps :: Arrived(plan, before, s.files)
      {
        var p := sweep.visits[i];
        assert sweep.visits[..i + 1] == sweep.visits[..i] + [p];
        OneRemovedMore(old(files), root, sweep.visits[..i], p);
        if p in files && root <= p {
          if fits { RemoveStep(plan, before, files, p); }
          Become(Without(files, p));
          steps := steps + [Snapshot(files, setting)];
        }
      }
      assert sweep.visits[..|sweep.visits|] == sweep.visits;
      RemovedAll(old(files), root, sweep.visits);
      fate := if Empty(files, root) then sweep.fate else Fails;
    }

    /** `paths.data_dir` is replaced by renaming a temporary file; the last call comes after that. */
    method Configure(target: Path, config: ConfigFate) returns (fate: Fate, ghost steps: seq<Snapshot>)
      requires Valid()
      modifies this
      ensures Valid() && files == old(files) && trail == old(trail) + steps
      ensures fate.Succeeds? == config.ConfigSucceeds?
      ensures setting == if config.ConfigFailsBeforeCommit? then old(setting) else target
      ensures forall s | s in steps :: s == Snapshot(files, setting)
    {
      steps := [];
      if !config.ConfigFailsBeforeCommit? {
        setting := target;
        trail := trail + [Snapshot(files, setting)];
        steps := [Snapshot(files, setting)];
      }
      fate := if config.ConfigSucceeds? then Succeeds else Fails;
    }

    /** `moveDirectory`: rename when that is possible, otherwise copy and then remove. */
    method MoveDirectory(plan: Plan, merge: bool, calls: Calls)
      returns (fate: Fate, ghost steps: seq<Snapshot>)
      requires Valid()
      requires !(plan.source <= plan.target)
      modifies this
      ensures Valid() && setting == old(setting) && trail == old(trail) + steps
      ensures forall s | s in steps :: s.setting == setting
      ensures !LandsBack(plan, old(files)) ==> forall s | s in steps :: Safe(plan, old(files), s.files)
      ensures fate.Succeeds? <==> Moves(plan, merge, calls, old(files))
      ensures steps != [] || fate.Succeeds? ==> !calls.inspectSource.Unreadable? && calls.makeDirectory.Succeeds?
      ensures fate.Succeeds? ==> files == Moved(plan, merge, calls, old(files))
      ensures fate.Succeeds? ==> Empty(files, plan.source)
      ensures fate.Succeeds? && !LandsBack(plan, old(files)) ==> Arrived(plan, old(files), files)
    {
      hide Safe, Arrived, LandsBack, CopyCompletes, RemoveCompletes, AfterCopy, AfterRemove, Renamed;
      ghost var before := files;
      steps := [];
      if calls.inspectSource.Unreadable? { return Fails, steps; }
      if calls.inspectSource.Missing? && Empty(files, plan.source) {
        NothingToMove(plan, before);
        return calls.makeDirectory, steps;
      }
      if calls.makeDirectory.Fails? { return Fails, steps; }
      if !merge && plan.exclude.None? {
        if calls.rename.RenameSucceeds? && CanRename(files, plan.source, plan.target) {
          RenameArrives(plan, before);
          ArrivedIsSafe(plan, before, Renamed(before, plan.source, plan.target));
          RenamedLeavesNothing(before, plan.source, plan.target);
          steps := Rename(plan.source, plan.target);
          return Succeeds, steps;
        }
        if !calls.rename.CrossDevice? { return Fails, steps; }
      }
      fate, steps := CopyThenRemove(plan, calls);
    }

    method CopyThenRemove(plan: Plan, calls: Calls) returns (fate: Fate, ghost steps: seq<Snapshot>)
      requires Valid()
      modifies this
      ensures Valid() && setting == old(setting) && trail == old(trail) + steps
      ensures forall s | s in steps :: s.setting == setting
      ensures !LandsBack(plan, old(files)) ==> forall s | s in steps :: Safe(plan, old(files), s.files)
      ensures var copied := AfterCopy(plan, old(files), calls.copy.visits);
              && (fate.Succeeds? <==> CopyCompletes(plan, old(files), calls.copy)
                                      && RemoveCompletes(plan.source, copied, calls.removeSource))
              && (fate.Succeeds? ==> files == AfterRemove(copied, plan.source, calls.removeSource.visits))
      ensures fate.Succeeds? ==> Empty(files, plan.source)
      ensures fate.Succeeds? && !LandsBack(plan, old(files)) ==> Arrived(plan, old(files), files)
    {
      hide AfterCopy, AfterRemove, CopyCompletes, RemoveCompletes;
      ghost var before := files;
      fate, steps := Copy(plan, calls.copy);
      if !LandsBack(plan, before) {
        forall s | s in steps ensures Safe(plan, before, s.files) { CopyingIsSafe(plan, before, s.files); }
      }
      if fate.Succeeds? {
        ghost var removal;
        fate, removal := Remove(plan.source, calls.removeSource, plan, before);
        if !LandsBack(plan, before) {
          forall s | s in removal ensures Safe(plan, before, s.files) { ArrivedIsSafe(plan, before, s.files); }
        }
        steps := steps + removal;
      }
    }

    method Rename(from: Path, to: Path) returns (ghost steps: seq<Snapshot>)
      requires Valid() && CanRename(files, from, to)
      modifies this
      ensures Valid() && setting == old(setting) && files == Renamed(old(files), from, to)
      ensures steps == [Snapshot(files, setting)] && trail == old(trail) + steps
    {
      Become(Renamed(files, from, to));
      steps := [Snapshot(files, setting)];
    }

    /** The end of `runDataDir`: write the configuration, undo the move if that fails, and clean up the
        managed subtree if it does not. */
    method Commit(plan: Plan, move: bool, calls: Calls, ghost before: Files)
      returns (fate: Fate, ghost steps: seq<Snapshot>, ghost stranded: bool)
      requires Valid()
      requires !(plan.source <= plan.target)
      requires plan.exclude.None? || (move && plan.exclude.value == plan.source + [MANAGED_TREE_DIRNAME])
      requires move ==> Empty(files, plan.source)
      requires move && !LandsBack(plan, before) ==> Arrived(plan, before, files)
      requires !move ==> files == before
      modifies this
      ensures Valid() && trail == old(trail) + steps
      ensures !LandsBack(plan, before) ==> forall s | s in steps :: Safe(plan, before, s.files)
      ensures forall s | s in steps :: s.setting == old(setting) || s.setting == plan.target
      ensures move && !LandsBack(plan, before) ==>
          forall s | s in steps :: s.setting == old(setting) || Arrived(plan, before, s.files)
                                   || (stranded && s == Snapshot(files, setting))
      ensures stranded <==> calls.config.ConfigFailsAfterCommit? && RollsBack(plan, move, calls)
      ensures stranded ==> Stranded(plan, before)
      ensures fate.Succeeds? <==> calls.config.ConfigSucceeds?
      ensures files == if RollsBack(plan, move, calls) then Renamed(old(files), plan.target, plan.source) else old(files)
      ensures fate.Fails? ==> setting == if calls.config.ConfigFailsAfterCommit? then plan.target else old(setting)
      ensures fate.Succeeds? ==> setting == plan.target
    {
      hide Safe, Arrived, LandsBack, Renamed;
      ghost var kept := !LandsBack(plan, before);
      stranded := false;
      if kept {
        if move { ArrivedIsSafe(plan, before, files); } else { UntouchedIsSafe(plan, before); }
      }
      fate, steps := Configure(plan.target, calls.config);
      if fate.Fails? {
        if move && plan.exclude.None? && calls.rollback.Succeeds? && CanRename(files, plan.target, plan.source) {
          RollbackMeansNoLandingBack(plan, before);
          ghost var back := RollBack(plan, before);
          stranded := calls.config.ConfigFailsAfterCommit?;
          steps := steps + back;
        }
      } else if plan.exclude.Some? {
        ghost var drop := DropManaged(plan, calls.dropManaged, before);
        steps := steps + drop;
      }
    }

    method RollBack(plan: Plan, ghost before: Files) returns (ghost steps: seq<Snapshot>)
      requires Valid()
      requires CanRename(files, plan.target, plan.source)
      requires Arrived(plan, before, files)
      modifies this
      ensures Valid() && setting == old(setting) && trail == old(trail) + steps
      ensures steps == [Snapshot(files, setting)]
      ensures files == Renamed(old(files), plan.target, plan.source)
      ensures Empty(files, plan.target)
      ensures Safe(plan, before, files)
      ensures forall p | p in before && Own(plan, p) :: Holds(files, p, before[p])
    {
      RollbackIsSafe(plan, before, files);
      steps := Rename(plan.target, plan.source);
    }

    /** The excluded subtree goes last, and a failure to remove it is ignored. Nothing is left of it by
        then: the move emptied the whole source. */
    method DropManaged(plan: Plan, sweep: Sweep, ghost before: Files) returns (ghost steps: seq<Snapshot>)
      requires Valid()
      requires plan.exclude == Some(plan.source + [MANAGED_TREE_DIRNAME])
      requires Empty(files, plan.source)
      requires !LandsBack(plan, before) ==> Arrived(plan, before, files)
      modifies this
      ensures Valid() && setting == old(setting) && trail == old(trail) + steps
      ensures files == old(files)
      ensures forall s | s in steps :: s.setting == setting
      ensures !LandsBack(plan, before) ==>
          forall s | s in steps :: Arrived(plan, before, s.files) && Safe(plan, before, s.files)
    {
      var dropped;
      dropped, steps := Remove(plan.exclude.value, sweep, plan, before);
      if !LandsBack(plan, before) {
        forall s | s in steps ensures Safe(plan, before, s.files) { ArrivedIsSafe(plan, before, s.files); }
      }
    }

    /** The data is home again under the source while the configuration names an empty target. */
    ghost predicate Stranded(plan: Plan, before: Files)
      reads this
    {
      && setting == plan.target && Empty(files, plan.target)
      && forall p | p in before && Own(plan, p) :: Holds(files, p, before[p])
    }

    /**
     `runDataDir`, for every way its calls can end:

     - nothing is touched by a dry run, while the daemon or a browser is running, for a relative target or
       one inside the source, one the configuration does not accept or that cannot be read, nor for one
       that holds files, without `--force`;
     - the checks decide between refusing, planning and acting; until they are through, nothing happens;
     - the run completes exactly when the checks, the move and the configuration write all do;
     - unless a file lands back inside the source, every state on the way is safe;
     - a completed move is safe exactly when no file lands back;
     - on the way the configuration names the target only while the target holds everything, but for
       one case: the write fails after its commit and the data is then renamed back;
     - in the end it names a target that does not hold everything exactly in that case, when there was
       anything to hold, and whenever a file landed back.
     */
    method RunDataDir(source: Path, request: Request, checks: Checks, calls: Calls)
      returns (outcome: Outcome, ghost steps: seq<Snapshot>, ghost stranded: bool)
      requires Valid()
      modifies this
      ensures Valid() && trail == old(trail) + steps
      ensures outcome.Shown? || outcome.Refused? || outcome.Planned? ==> steps == []
      ensures outcome.Shown? <==> request.target.None?
      ensures steps != [] ==>
          && request.target.Some? && !request.dryRun
          && !checks.lockHeld && !checks.managedUse
          && checks.absolute && !(Fold(source) <= Fold(request.target.value)) && checks.schemaAccepts
          && !checks.listing.Unreadable?
          && (request.force || forall p | p in old(files) :: !(request.target.value <= p))
      ensures outcome.Relocated? && !request.move ==> files == old(files)
      ensures steps != [] && request.move ==>
          && !calls.inspectSource.Unreadable? && calls.makeDirectory.Succeeds?
          && (checks.listing.Found? && !checks.subdirectories && Empty(old(files), request.target.value) ==>
                calls.removeTarget.Succeeds?)
      ensures outcome.Relocated? && request.move && checks.managed.DropAndReinstall? ==>
          BrowsersStay(request.target.value, old(files), files)
      ensures request.target.Some? && request.move && Commits(source, request, checks, calls, old(files)) ==>
          var target, leaves := request.target.value, checks.managed.DropAndReinstall?;
          if !leaves && !calls.config.ConfigSucceeds? && calls.rollback.Succeeds? && !(target <= source) then
            Empty(files, target) && forall p | p in old(files) && source <= p :: Holds(files, p, old(files)[p])
          else
            !LandsBack(Plan(source, target, if leaves then Some(source + ["browsers"]) else None), old(files)) ==>
              Delivers(source, target, leaves, old(files), files)
      ensures request.target.Some? ==>
          var plan, before := PlanOf(source, request, checks), old(files);
          var commits := Commits(source, request, checks, calls, before);
          && (outcome.Refused? <==> !Allowed(source, request, checks, before))
          && (outcome.Planned? <==> Allowed(source, request, checks, before) && request.dryRun)
          && (outcome.Relocated? <==> commits && calls.config.ConfigSucceeds?)
          && (stranded <==> commits && calls.config.ConfigFailsAfterCommit? && RollsBack(plan, request.move, calls))
          && (stranded ==> Stranded(plan, before))
          && (!LandsBack(plan, before) ==> forall s | s in steps :: Safe(plan, before, s.files))
          && (forall s | s in steps :: s.setting == old(setting) || s.setting == plan.target)
          && (request.move && !LandsBack(plan, before) ==>
                forall s | s in steps :: s.setting == old(setting) || Arrived(plan, before, s.files)
                                         || (stranded && s == Snapshot(files, setting)))
          && setting == (if commits && !calls.config.ConfigFailsBeforeCommit? then plan.target else old(setting))
          && (request.move && old(setting) != plan.target ==>
                (setting == plan.target && !Arrived(plan, before, files)
                 <==> commits && Misnames(plan, calls, before)))
          && (commits ==> files == Settled(plan, request.move, Occupied(request, checks, before), calls, before))
          && (outcome.Relocated? ==>
                && (request.move ==> Empty(files, source) && (Safe(plan, before, files) <==> !LandsBack(plan, before)))
                && (request.move && Safe(plan, before, files) ==> Arrived(plan, before, files)))
    {
      hide ReachesCommit, Moves, Moved, Settled, Misnames, LandsBack, Safe, Arrived, RollsBack, Delivers, BrowsersStay;
      steps, stranded := [], false;
      if request.target.None? { return Shown, steps, stranded; }
      var target := request.target.value;
      if !checks.absolute || Fold(source) <= Fold(target) { return Refused, steps, stranded; }
      if !checks.schemaAccepts || checks.lockHeld || checks.managedUse { return Refused, steps, stranded; }
      if checks.listing.Unreadable? { return Refused, steps, stranded; }
      var entries := !Empty(files, target) || (checks.listing.Found? && checks.subdirectories);
      if entries && !request.force { return Refused, steps, stranded; }
      if request.dryRun { return Planned, steps, stranded; }
      FoldKeepsPrefix(source, target);
      ghost var plan, before := PlanOf(source, request, checks), files;
      outcome, steps, stranded := Relocate(PlanOf(source, request, checks), request.move, entries,
                                           checks.listing.Found? && !entries, calls);
      if outcome.Relocated? {
        CompletedIs(plan, request.move, entries, calls, before);
        if request.move && checks.managed.DropAndReinstall? { MoveLeavesBrowsers(plan, entries, calls, before); }
      }
      assert RollsBack(plan, request.move, calls) <==>
          && request.move && !checks.managed.DropAndReinstall? && !calls.config.ConfigSucceeds?
          && calls.rollback.Succeeds? && !(target <= source) by { RollsBackIff(plan, request.move, calls); }
      if request.move && Commits(source, request, checks, calls, before) {
        if !RollsBack(plan, true, calls) && !LandsBack(plan, before) {
          ArrivedDelivers(source, target, checks.managed.DropAndReinstall?, before, files);
        }
      }
    }

    /** The part of `runDataDir` that touches the disk. */
    method Relocate(plan: Plan, move: bool, entries: bool, emptyTarget: bool, calls: Calls)
      returns (outcome: Outcome, ghost steps: seq<Snapshot>, ghost stranded: bool)
      requires Valid()
      requires !(plan.source <= plan.target)
      requires plan.exclude.None? || (move && plan.exclude.value == plan.source + [MANAGED_TREE_DIRNAME])
      modifies this
      ensures Valid() && trail == old(trail) + steps
      ensures outcome.Relocated? || outcome.Failed?
      ensures !LandsBack(plan, old(files)) ==> forall s | s in steps :: Safe(plan, old(files), s.files)
      ensures forall s | s in steps :: s.setting == old(setting) || s.setting == plan.target
      ensures move && !LandsBack(plan, old(files)) ==>
          forall s | s in steps :: s.setting == old(setting) || Arrived(plan, old(files), s.files)
                                   || (stranded && s == Snapshot(files, setting))
      ensures stranded ==> Stranded(plan, old(files))
      ensures var commits := ReachesCommit(plan, move, entries, emptyTarget, calls, old(files));
              && (outcome.Relocated? <==> commits && calls.config.ConfigSucceeds?)
              && (stranded <==> commits && calls.config.ConfigFailsAfterCommit? && RollsBack(plan, move, calls))
              && setting == (if commits && !calls.config.ConfigFailsBeforeCommit? then plan.target else old(setting))
              && (move && old(setting) != plan.target ==>
                    (setting == plan.target && !Arrived(plan, old(files), files)
                     <==> commits && Misnames(plan, calls, old(files))))
              && (commits ==> files == Settled(plan, move, entries, calls, old(files)))
              && (commits && move && !RollsBack(plan, move, calls) && !LandsBack(plan, old(files)) ==>
                    Arrived(plan, old(files), files))
              && (commits && RollsBack(plan, move, calls) ==>
                    && Empty(files, plan.target)
                    && forall p | p in old(files) && Own(plan, p) :: Holds(files, p, old(files)[p]))
              && (steps != [] && move ==> CanBegin(emptyTarget, calls))
      ensures outcome.Relocated? ==>
          && (move ==> Empty(files, plan.source))
          && (move ==> (Safe(plan, old(files), files) <==> !LandsBack(plan, old(files))))
          && (move && Safe(plan, old(files), files) ==> Arrived(plan, old(files), files))
    {
      hide Safe, Arrived, LandsBack, Moves, Moved, Renamed;
      ghost var before := files;
      steps, stranded := [], false;
      if move {
        if emptyTarget && calls.removeTarget.Fails? { return Failed, steps, stranded; }
        var moved;
        moved, steps := MoveDirectory(plan, entries, calls);
        if moved.Fails? { return Failed, steps, stranded; }
      }
      var fate;
      ghost var rest;
      ghost var arrived := files;
      fate, rest, stranded := Commit(plan, move, calls, before);
      steps := steps + rest;
      outcome := if fate.Succeeds? then Relocated else Failed;
      if move { WhereItEnds(plan, before, arrived, files, calls); }
    }
  }

  /** How the files stand after the commit, rolled back or not. */
  lemma WhereItEnds(plan: Plan, before: Files, moved: Files, now: Files, calls: Calls)
    requires !(plan.source <= plan.target) && Empty(moved, plan.source)
    requires !LandsBack(plan, before) ==> Arrived(plan, before, moved)
    requires now == if RollsBack(plan, true, calls) then Renamed(moved, plan.target, plan.source) else moved
    ensures !RollsBack(plan, true, calls) ==>
        && (Safe(plan, before, now) <==> !LandsBack(plan, before))
        && (Arrived(plan, before, now) <==> !LandsBack(plan, before))
    ensures RollsBack(plan, true, calls) ==>
        && !LandsBack(plan, before)
        && Empty(now, plan.target)
        && (forall p | p in before && Own(plan, p) :: Holds(now, p, before[p]))
        && (Arrived(plan, before, now) <==> !exists p :: Owed(plan, before, p))
  {
    hide Renamed;
    if RollsBack(plan, true, calls) {
      RollbackMeansNoLandingBack(plan, before);
      hide Arrived, LandsBack;
      RollbackIsSafe(plan, before, moved);
      RolledBackIsNotArrived(plan, before, now);
    } else {
      hide Arrived, Safe, LandsBack;
      if LandsBack(plan, before) {
        LandingBackLoses(plan, before, now);
        if Arrived(plan, before, now) { ArrivedIsSafe(plan, before, now); }
      } else {
        ArrivedIsSafe(plan, before, now);
      }
    }
  }

  lemma RollsBackIff(plan: Plan, move: bool, calls: Calls)
    ensures RollsBack(plan, move, calls) <==>
            && move && plan.exclude.None? && !calls.config.ConfigSucceeds?
            && calls.rollback.Succeeds? && !(plan.target <= plan.source)
  {
  }

  lemma CompletedIs(plan: Plan, move: bool, entries: bool, calls: Calls, before: Files)
    requires calls.config.ConfigSucceeds?
    ensures Settled(plan, move, entries, calls, before) == if move then Moved(plan, entries, calls, before) else before
  {
  }

  // ----- The two ways to lose track of data, run -----

  const UNREMARKABLE := Checks(true, true, false, false, Found, true, Absent)

  /** The smallest loss: moving /a/b into /a with --force. The copy puts /a/b/b/x at /a/b/x, which the
      removal of the source then takes along: the command reports success, and nothing is left. */
  method RunLandingBack() returns (outcome: Outcome, after: Files)
    ensures outcome == Relocated && after == map[]
  {
    var source, target, old_, new_ := ["a", "b"], ["a"], ["a", "b", "b", "x"], ["a", "b", "x"];
    var disk := new Disk(map[old_ := "data"], source);
    var request := Request(Some(target), true, true, false);
    var calls := Calls(Succeeds, Found, Succeeds, RenameFails, Sweep([old_], Succeeds),
                       Sweep([old_, new_], Succeeds), ConfigSucceeds, Succeeds, Sweep([], Succeeds));
    LandingBackRuns(source, target, old_, new_, request, calls);
    ghost var steps, stranded;
    outcome, steps, stranded := disk.RunDataDir(source, request, UNREMARKABLE, calls);
    after := disk.files;
  }

  lemma LandingBackRuns(source: Path, target: Path, was: Path, will: Path, request: Request, calls: Calls)
    requires source == ["a", "b"] && target == ["a"] && was == ["a", "b", "b", "x"] && will == ["a", "b", "x"]
    requires request == Request(Some(target), true, true, false)
    requires calls == Calls(Succeeds, Found, Succeeds, RenameFails, Sweep([was], Succeeds),
                            Sweep([was, will], Succeeds), ConfigSucceeds, Succeeds, Sweep([], Succeeds))
    ensures Commits(source, request, UNREMARKABLE, calls, map[was := "data"])
    ensures Moved(Plan(source, target, None), true, calls, map[was := "data"]) == map[]
  {
    var plan, files: Files := Plan(source, target, None), map[was := "data"];
    assert PlanOf(source, request, UNREMARKABLE) == plan;
    assert was[|source|..] == ["b", "x"];
    assert Destination(plan, was) == will;
    assert calls.copy.visits[..0] == [];
    assert AfterCopy(plan, files, calls.copy.visits) == files[will := "data"];
    assert source <= was && source <= will && target <= was;
    assert |Fold(source)| > |Fold(target)|;
    assert was in files && !Empty(files, source) && !Empty(files, target);
  }

  /** The smallest stranding: the configuration names /t, and the only file is back at /s/x. */
  method RunStranding() returns (outcome: Outcome, after: Files, setting: Path)
    ensures outcome == Failed && setting == ["t"]
    ensures Empty(after, ["t"]) && Holds(after, ["s", "x"], "data")
  {
    var source, target, file := ["s"], ["t"], ["s", "x"];
    var disk := new Disk(map[file := "data"], source);
    var request := Request(Some(target), false, true, false);
    var checks := UNREMARKABLE.(listing := Missing);
    var calls := Calls(Succeeds, Found, Succeeds, RenameSucceeds, Sweep([], Fails), Sweep([], Fails),
                       ConfigFailsAfterCommit, Succeeds, Sweep([], Fails));
    ghost var before := disk.files;
    assert Lower("s")[0] != Lower("t")[0];
    assert Fold(source)[0] != Fold(target)[0];
    assert source <= file && file in before;
    assert Commits(source, request, checks, calls, before);
    ghost var steps, stranded;
    outcome, steps, stranded := disk.RunDataDir(source, request, checks, calls);
    assert stranded && Own(PlanOf(source, request, checks), file);
    after, setting := disk.files, disk.setting;
  }

  // ----- Choosing what happens to the managed tree -----

  /** The volume of each path that exists, and which of them are directories. */
  datatype Mounts = Mounts(volumes: map<Path, int>, directories: set<Path>)

  /** `candidate` is the longest existing path among `target` and its ancestors. */
  ghost predicate NearestExisting(mounts: Mounts, target: Path, candidate: Path) {
    && candidate <= target
    && candidate in mounts.volumes
    && forall other | other <= target && other in mounts.volumes :: |other| <= |candidate|
  }

  /** Walks up from the target until something exists; the root is its own parent. */
  method OnSameVolume(mounts: Mounts, source: Path, target: Path) returns (same: bool)
    ensures same <==> source in mounts.volumes && exists candidate ::
              NearestExisting(mounts, target, candidate) && mounts.volumes[source] == mounts.volumes[candidate]
  {
    var candidate := target;
    while true
      invariant candidate <= target
      invariant source in mounts.volumes ==>
          forall other | other <= target && other in mounts.volumes :: |other| <= |candidate|
      decreases |candidate|
    {
      if source in mounts.volumes && candidate in mounts.volumes {
        assert NearestExisting(mounts, target, candidate);
        forall other | NearestExisting(mounts, target, other) ensures other == candidate {
          assert other == target[..|other|] && candidate == target[..|candidate|];
        }
        return mounts.volumes[source] == mounts.volumes[candidate];
      }
      if candidate == [] { return false; }
      if source in mounts.volumes {
        forall other | other <= target && other in mounts.volumes ensures |other| < |candidate| {
          assert other == target[..|other|];
          assert candidate == target[..|candidate|];
        }
      }
      candidate := candidate[..|candidate| - 1];
    }
  }

  /** The managed tree is left out exactly when it is a directory on a volume other than the one the
      target will be on, or that volume cannot be told. */
  method DecideManagedTree(mounts: Mounts, source: Path, target: Path) returns (action: ManagedTreeAction)
    ensures var root := source + [MANAGED_TREE_DIRNAME];
            && (action.Absent? <==> !(root in mounts.volumes && root in mounts.directories))
            && (action.MoveAlong? ==> exists candidate ::
                  NearestExisting(mounts, target, candidate) && mounts.volumes[root] == mounts.volumes[candidate])
            && (action.DropAndReinstall? ==> forall candidate | NearestExisting(mounts, target, candidate) ::
                  mounts.volumes[root] != mounts.volumes[candidate])
  {
    var root := source + [MANAGED_TREE_DIRNAME];
    if root !in mounts.volumes || root !in mounts.directories { return Absent; }
    var same := OnSameVolume(mounts, root, target);
    action := if same then MoveAlong else DropAndReinstall;
  }

  // ----- The command's arguments and surroundings -----

  datatype Request = Request(target: Option<Path>, force: bool, move: bool, dryRun: bool)

  /** What the command finds before it touches anything. Files decide whether a directory is
      occupied; `listing` and `subdirectories` say what reading the target adds to that. */
  datatype Checks = Checks(
    absolute: bool,
    schemaAccepts: bool,
    lockHeld: bool,
    managedUse: bool,
    listing: Inspection,
    subdirectories: bool,
    managed: ManagedTreeAction)

  datatype Outcome = Shown | Refused | Planned | Failed | Relocated

  function PlanOf(source: Path, request: Request, checks: Checks): Plan
    requires request.target.Some?
  {
    Plan(source, request.target.value,
         if request.move && checks.managed == DropAndReinstall then Some(source + [MANAGED_TREE_DIRNAME]) else None)
  }

  /** The refusal to move into oneself compares paths without regard to case. */
  function Fold(p: Path): Path {
    seq(|p|, i requires 0 <= i < |p| => Lower(p[i]))
  }

  lemma FoldKeepsPrefix(p: Path, q: Path)
    ensures p <= q ==> Fold(p) <= Fold(q)
  {
    if p <= q {
      assert forall i | 0 <= i < |p| :: p[i] == q[i];
    }
  }

  /** How every call of one run ends. */
  datatype Calls = Calls(
    removeTarget: Fate,
    inspectSource: Inspection,
    makeDirectory: Fate,
    rename: RenameFate,
    copy: Sweep,
    removeSource: Sweep,
    config: ConfigFate,
    rollback: Fate,
    dropManaged: Sweep)
}

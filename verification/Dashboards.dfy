/** The dashboards directory (apps/linsight-gui/src/qobjects/dashboards_model.rs): one JSON file per
    dashboard, named after its slug. The directory is a map from file stem to content; what the file
    system does to an operation is given by a `Fault`. */
module Dashboards {
  import opened Prelude
  import opened Slugs

  datatype Tile = Tile(id: string, x: int, y: int, w: int, h: int)
  datatype Dashboard = Dashboard(name: string, slug: string, layout: seq<Tile>, createdAt: string, updatedAt: string)

  /** `Malformed` is a file that does not parse. */
  datatype File = Stored(dashboard: Dashboard) | Malformed

  type Directory = map<string, File>

  /** What a failed write leaves behind: nothing, part of the text, or all of it when only syncing the file and
      then removing it failed. */
  datatype Leftover = Gone | Part | Whole

  datatype Fault = NoFault | OpenFails | WriteFails(left: Leftover) | RemoveFails

  datatype Outcome = Done(slug: string) | Rejected | NotFound | Exhausted | IoError

  predicate Readable(dir: Directory, slug: string) { slug in dir && dir[slug].Stored? }

  /** Every readable file is stored under the slug it names. */
  ghost predicate Consistent(dir: Directory)
  {
    forall stem | Readable(dir, stem) :: dir[stem].dashboard.slug == stem && IsValidSlug(stem)
  }

  predicate TileOk(t: Tile) { t.id != "" && t.w > 0 && t.h > 0 && t.x >= 0 && t.y >= 0 }

  /** Every file but `stem` is as it was. */
  ghost predicate OthersKept(before: Directory, after: Directory, stem: string)
  {
    forall s | s in before && s != stem :: s in after && after[s] == before[s]
  }

  // ---- what operations do -----------------------------------------------------------------------

  datatype Op =
    | Created(d: Dashboard, base: string)
    | Renamed(slug: string, name: string, base: string, now: string)
    | Duplicated(slug: string, base: string, now: string)
    | Removed(slug: string)
    | Saved(slug: string, layout: seq<Tile>, now: string)

  /** What became of one operation: it went through and gave `slug` to the dashboard, a rename went through
      but the old file could not be removed, nothing happened, or a failed write left a file under an unused
      slug, unreadable or complete. */
  datatype Step =
    | Through(op: Op, slug: string)
    | OldStays(op: Op, slug: string)
    | Nothing
    | Debris(slug: string, file: File)

  /** Rewriting a dashboard goes to the file its stored slug names, whatever file it was read from. */
  ghost predicate Rewrites(before: Directory, from: string, d: Dashboard, after: Directory)
  {
    Readable(before, from) && d.slug == before[from].dashboard.slug && IsValidSlug(d.slug) && after == before[d.slug := Stored(d)]
  }

  /** The operation went through and gave `slug` to the dashboard. */
  ghost predicate Steps(before: Directory, op: Op, slug: string, after: Directory)
  {
    match op
    case Created(d, base) =>
      IsValidSlug(base) && IsFirstFree(base, before.Keys, slug) && after == before[slug := Stored(d.(slug := slug))]
    case Renamed(from, name, base, now) =>
      && Readable(before, from) && IsValidSlug(base)
      && var d := before[from].dashboard.(name := name, updatedAt := now);
      if base == from then slug == from && Rewrites(before, from, d, after)
      else IsFirstFree(base, before.Keys, slug) && after == (before - {from})[slug := Stored(d.(slug := slug))]
    case Duplicated(src, base, now) =>
      && Readable(before, src) && IsValidSlug(base) && IsFirstFree(base, before.Keys, slug)
      && after == before[slug := Stored(Dashboard(before[src].dashboard.name + " (copy)", slug,
                                                  before[src].dashboard.layout, now, now))]
    case Removed(stem) => IsValidSlug(stem) && stem in before && slug == stem && after == before - {stem}
    case Saved(stem, layout, now) =>
      && Readable(before, stem) && slug == stem && (forall i | 0 <= i < |layout| :: TileOk(layout[i]))
      && Rewrites(before, stem, before[stem].dashboard.(layout := layout, updatedAt := now), after)
  }

  ghost predicate Leads(before: Directory, step: Step, after: Directory)
  {
    match step
    case Through(op, slug) => Steps(before, op, slug, after)
    case OldStays(op, slug) =>
      && op.Renamed? && Readable(before, op.slug) && IsValidSlug(op.base) && op.base != op.slug
      && IsFirstFree(op.base, before.Keys, slug)
      && after == before[slug := Stored(before[op.slug].dashboard.(name := op.name, slug := slug, updatedAt := op.now))]
    case Nothing => after == before
    case Debris(slug, file) =>
      && slug !in before && IsValidSlug(slug) && after == before[slug := file]
      && (file.Stored? ==> file.dashboard.slug == slug)
  }

  /** No slug was to be had. */
  ghost predicate AllUsed(dir: Directory, base: string) { forall i | 0 <= i < CANDIDATES :: !Usable(base, i, dir.Keys) }

  /** A write that failed leaves the directory alone, or at worst one more file under an unused slug. */
  ghost predicate Unwritten(before: Directory, after: Directory)
  {
    after == before || exists slug, file :: Leads(before, Debris(slug, file), after)
  }

  // ---- the store --------------------------------------------------------------------------------

  class DashboardStore {
    var files: Directory

    constructor (files: Directory)
      ensures this.files == files
    {
      this.files := files;
    }

    /** Reserves the first free slug for `base` and writes `d` there under that slug. */
    method PlaceNew(d: Dashboard, base: string, fault: Fault) returns (r: Outcome)
      requires IsValidSlug(base)
      modifies this
      ensures r.Done? ==> Steps(old(files), Created(d, base), r.slug, files) && r.slug !in old(files) && IsValidSlug(r.slug)
      ensures r.Exhausted? ==> files == old(files) && AllUsed(files, base)
      ensures r.IoError? ==> fault != NoFault && Unwritten(old(files), files)
      ensures r.Done? || r.Exhausted? || r.IoError?
    {
      var inUse := files.Keys;
      var taken: nat -> set<string> := _ => inUse;
      var reserved := AllocateUniqueSlug(base, taken);
      match reserved {
        case AllTaken =>
          forall i: nat | i < CANDIDATES ensures !Usable(base, i, inUse) { assert taken(i) == inUse; }
          return Exhausted;
        case Allocated(slug) =>
          if fault.OpenFails? { return IoError; }
          if fault.WriteFails? {
            if fault.left != Gone {
              var file := if fault.left.Whole? then Stored(d.(slug := slug)) else Malformed;
              files := files[slug := file];
              assert Leads(old(files), Debris(slug, file), files);
            }
            return IoError;
          }
          files := files[slug := Stored(d.(slug := slug))];
          r := Done(slug);
      }
    }

    method Create(name: string, hash: nat, now: string, fault: Fault) returns (r: Outcome)
      modifies this
      ensures r.Done? ==>
                && Steps(old(files), Created(Dashboard(name, "", [], now, now), DeriveSlug(name, hash)), r.slug, files)
                && r.slug !in old(files) && IsValidSlug(r.slug)
      ensures r.Exhausted? ==> files == old(files) && AllUsed(files, DeriveSlug(name, hash))
      ensures r.IoError? ==> fault != NoFault && Unwritten(old(files), files)
      ensures r.Done? || r.Exhausted? || r.IoError?
    {
      var base := DeriveSlugLoop(name, hash);
      DerivedSlugIsValid(name, hash);
      r := PlaceNew(Dashboard(name, "", [], now, now), base, fault);
    }

    /** Writes a dashboard to the file its own slug names. */
    method WriteOne(d: Dashboard, fault: Fault) returns (ok: bool)
      modifies this
      ensures ok <==> IsValidSlug(d.slug) && !fault.WriteFails?
      ensures files == if ok then old(files)[d.slug := Stored(d)] else old(files)
    {
      ok := IsValidSlug(d.slug) && !fault.WriteFails?;
      if ok { files := files[d.slug := Stored(d)]; }
    }

    /** The second half of a rename: the dashboard moves to the first free slug, then the old file goes. */
    method Move(oldSlug: string, d: Dashboard, base: string, fault: Fault) returns (r: Outcome)
      requires oldSlug in files && IsValidSlug(base)
      modifies this
      ensures r.Done? ==>
                && IsFirstFree(base, old(files).Keys, r.slug) && r.slug !in old(files) && IsValidSlug(r.slug)
                && files == (if fault.RemoveFails? then old(files) else old(files) - {oldSlug})[r.slug := Stored(d.(slug := r.slug))]
      ensures r.Exhausted? ==> files == old(files) && AllUsed(files, base)
      ensures r.IoError? ==> fault != NoFault && Unwritten(old(files), files)
      ensures r.Done? || r.Exhausted? || r.IoError?
    {
      r := PlaceNew(d, base, fault);
      if r.Done? && !fault.RemoveFails? {
        files := files - {oldSlug};
        assert files == (old(files) - {oldSlug})[r.slug := Stored(d.(slug := r.slug))];
      }
    }

    /** Gives a dashboard a new name. Under an unchanged slug the file its stored slug names is rewritten;
        otherwise the dashboard moves. Should removing the old file fail, it stays behind. */
    method Rename(oldSlug: string, newName: string, hash: nat, now: string, fault: Fault) returns (r: Outcome)
      modifies this
      ensures !IsValidSlug(oldSlug) ==> r == Rejected && files == old(files)
      ensures IsValidSlug(oldSlug) && !Readable(old(files), oldSlug) ==> r == NotFound && files == old(files)
      ensures r.Done? ==>
                var op := Renamed(oldSlug, newName, DeriveSlug(newName, hash), now);
                Leads(old(files), if r.slug != oldSlug && fault.RemoveFails? then OldStays(op, r.slug)
                                  else Through(op, r.slug), files)
      ensures r.Exhausted? ==> files == old(files) && AllUsed(files, DeriveSlug(newName, hash))
      ensures r.IoError? ==>
                && Unwritten(old(files), files) && Readable(old(files), oldSlug)
                && (fault == NoFault ==> DeriveSlug(newName, hash) == oldSlug && !IsValidSlug(old(files)[oldSlug].dashboard.slug))
    {
      if !IsValidSlug(oldSlug) { return Rejected; }
      if !(oldSlug in files && files[oldSlug].Stored?) { return NotFound; }
      var d := files[oldSlug].dashboard.(name := newName, updatedAt := now);
      var base := DeriveSlugLoop(newName, hash);
      DerivedSlugIsValid(newName, hash);
      if base == oldSlug {
        var ok := WriteOne(d, fault);
        r := if ok then Done(oldSlug) else IoError;
      } else {
        r := Move(oldSlug, d, base, fault);
      }
    }

    method Duplicate(slug: string, hash: nat, now: string, fault: Fault) returns (r: Outcome)
      modifies this
      ensures !IsValidSlug(slug) ==> r == Rejected && files == old(files)
      ensures IsValidSlug(slug) && !Readable(old(files), slug) ==> r == NotFound && files == old(files)
      ensures r.Done? ==>
                && Readable(old(files), slug)
                && var base := DeriveSlug(old(files)[slug].dashboard.name + " (copy)", hash);
                Steps(old(files), Duplicated(slug, base, now), r.slug, files) && r.slug !in old(files)
      ensures r.Exhausted? ==> files == old(files)
      ensures r.IoError? ==> fault != NoFault && Unwritten(old(files), files)
    {
      if !IsValidSlug(slug) { return Rejected; }
      if !(slug in files && files[slug].Stored?) { return NotFound; }
      var d := files[slug].dashboard;
      var name := d.name + " (copy)";
      var base := DeriveSlugLoop(name, hash);
      DerivedSlugIsValid(name, hash);
      r := PlaceNew(Dashboard(name, "", d.layout, now, now), base, fault);
    }

    method Remove(slug: string, fault: Fault) returns (removed: bool)
      modifies this
      ensures removed <==> IsValidSlug(slug) && slug in old(files) && !fault.RemoveFails?
      ensures if removed then Steps(old(files), Removed(slug), slug, files) else files == old(files)
    {
      if !IsValidSlug(slug) { return false; }
      removed := slug in files && !fault.RemoveFails?;
      if removed { files := files - {slug}; }
    }

    /** Replaces the layout of a dashboard; `layout` is None for text that does not parse. Nothing changes
        then, nor when a tile is bad. The file written is the one the stored slug names. */
    method SaveLayout(slug: string, layout: Option<seq<Tile>>, now: string, fault: Fault) returns (r: Outcome)
      modifies this
      ensures !IsValidSlug(slug) ==> r == Rejected
      ensures IsValidSlug(slug) && !Readable(old(files), slug) ==> r == NotFound
      ensures IsValidSlug(slug) && Readable(old(files), slug) ==>
                (r == Rejected <==>
                   || layout.None?
                   || exists t :: t in layout.value && (t.id == "" || t.x < 0 || t.y < 0 || t.w <= 0 || t.h <= 0))
      ensures r.Done? ==> layout.Some? && r.slug == slug && Steps(old(files), Saved(slug, layout.value, now), slug, files)
      ensures r.IoError? ==>
                && Readable(old(files), slug)
                && (fault == NoFault ==> !IsValidSlug(old(files)[slug].dashboard.slug))
      ensures !r.Done? ==> files == old(files)
    {
      if !IsValidSlug(slug) { return Rejected; }
      if !(slug in files && files[slug].Stored?) { return NotFound; }
      if layout.None? { return Rejected; }
      for i := 0 to |layout.value|
        invariant forall j | 0 <= j < i :: TileOk(layout.value[j])
      {
        if !TileOk(layout.value[i]) { return Rejected; }
      }
      var d := files[slug].dashboard.(layout := layout.value, updatedAt := now);
      var ok := WriteOne(d, fault);
      r := if ok then Done(slug) else IoError;
    }
  }

  // ---- whole runs -------------------------------------------------------------------------------

  ghost predicate RunOf(dirs: seq<Directory>, steps: seq<Step>)
  {
    && |dirs| == |steps| + 1
    && forall i | 0 <= i < |steps| :: Leads(dirs[i], steps[i], dirs[i + 1])
  }

  /** The file an operation that went through is entitled to change: the one it was pointed at. */
  ghost predicate Targets(step: Step, stem: string)
  {
    step.Through? && (step.op.Renamed? || step.op.Removed? || step.op.Saved?) && step.op.slug == stem
  }

  /** The existing file a step replaces or removes. In place this is the one the stored slug names. */
  ghost predicate Hits(before: Directory, step: Step, stem: string)
  {
    && step.Through?
    && match step.op
       case Created(_, _) => false
       case Duplicated(_, _, _) => false
       case Removed(slug) => slug == stem
       case Saved(slug, _, _) => Readable(before, slug) && before[slug].dashboard.slug == stem
       case Renamed(slug, _, base, _) =>
         if base == slug then Readable(before, slug) && before[slug].dashboard.slug == stem else slug == stem
  }

  /** What a step adds to the number of files. Leftovers of failures are files too. */
  ghost function Gain(before: Directory, step: Step): int
  {
    match step
    case Through(Created(_, _), _) => 1
    case Through(Duplicated(_, _, _), _) => 1
    case Through(Removed(_), _) => -1
    case Through(Renamed(slug, _, base, _), _) => if base == slug then Strays(before, slug) else 0
    case Through(Saved(slug, _, _), _) => Strays(before, slug)
    case OldStays(_, _) => 1
    case Nothing => 0
    case Debris(_, _) => 1
  }

  /** One if rewriting the dashboard in file `slug` creates a file that was not there. */
  ghost function Strays(before: Directory, slug: string): int
  {
    if Readable(before, slug) && before[slug].dashboard.slug !in before then 1 else 0
  }

  ghost function Gained(dirs: seq<Directory>, steps: seq<Step>): int
    requires |dirs| == |steps| + 1
  {
    if steps == [] then 0
    else
      var n := |steps| - 1;
      Gained(dirs[..n + 1], steps[..n]) + Gain(dirs[n], steps[n])
  }

  lemma FreeSlug(base: string, dir: Directory, slug: string)
    requires IsFirstFree(base, dir.Keys, slug)
    ensures slug !in dir && IsValidSlug(slug)
  {
  }

  /** The step puts a dashboard under a slug of its own. */
  ghost predicate Adds(step: Step)
  {
    || step.OldStays?
    || (step.Through? && (step.op.Created? || step.op.Duplicated? || (step.op.Renamed? && step.op.base != step.op.slug)))
  }

  /** The slug a step newly takes was free. */
  lemma NewSlugIsFree(before: Directory, step: Step, after: Directory)
    requires Leads(before, step, after)
    ensures Adds(step) ==> step.slug !in before && IsValidSlug(step.slug)
  {
  }

  lemma StepSpares(before: Directory, step: Step, after: Directory, stem: string)
    requires Leads(before, step, after) && stem in before
    ensures !Hits(before, step, stem) ==> stem in after && after[stem] == before[stem]
  {
    NewSlugIsFree(before, step, after);
  }

  lemma AddingCounts(before: Directory, slug: string, f: File)
    ensures |before[slug := f]| == |before| + if slug in before then 0 else 1
  {
    var after := before[slug := f];
    assert after.Keys == before.Keys + {slug};
    if slug in before { assert before.Keys + {slug} == before.Keys; }
  }

  lemma RemovingCounts(before: Directory, stem: string)
    requires stem in before
    ensures |before - {stem}| == |before| - 1
  {
    assert (before - {stem}).Keys == before.Keys - {stem};
  }

  lemma MovingCounts(before: Directory, from: string, slug: string, f: File)
    requires from in before && slug !in before
    ensures |(before - {from})[slug := f]| == |before|
  {
    RemovingCounts(before, from);
    AddingCounts(before - {from}, slug, f);
  }

  lemma RenameCounts(before: Directory, op: Op, slug: string, after: Directory)
    requires op.Renamed? && Steps(before, op, slug, after)
    ensures |after| == |before| + Gain(before, Through(op, slug))
  {
    if op.base == op.slug {
      RewritingCounts(before, op.slug, after);
    } else {
      FreeSlug(op.base, before, slug);
      MovingCounts(before, op.slug, slug, after[slug]);
    }
  }

  lemma OpCounts(before: Directory, op: Op, slug: string, after: Directory)
    requires !op.Renamed? && Steps(before, op, slug, after)
    ensures |after| == |before| + Gain(before, Through(op, slug))
  {
    match op {
      case Created(_, base) =>
        FreeSlug(base, before, slug);
        AddingCounts(before, slug, after[slug]);
      case Duplicated(_, base, _) =>
        FreeSlug(base, before, slug);
        AddingCounts(before, slug, after[slug]);
      case Removed(stem) => RemovingCounts(before, stem);
      case Saved(stem, _, _) => RewritingCounts(before, stem, after);
    }
  }

  lemma StepCounts(before: Directory, step: Step, after: Directory)
    requires Leads(before, step, after)
    ensures |after| == |before| + Gain(before, step)
  {
    match step {
      case Nothing =>
      case Debris(slug, file) => AddingCounts(before, slug, file);
      case OldStays(op, slug) =>
        FreeSlug(op.base, before, slug);
        AddingCounts(before, slug, after[slug]);
      case Through(op, slug) =>
        if op.Renamed? { RenameCounts(before, op, slug, after); } else { OpCounts(before, op, slug, after); }
    }
  }

  lemma RewritingCounts(before: Directory, from: string, after: Directory)
    requires Readable(before, from)
    requires var stored := before[from].dashboard.slug; stored in after && after == before[stored := after[stored]]
    ensures |after| == |before| + Strays(before, from)
  {
    AddingCounts(before, before[from].dashboard.slug, after[before[from].dashboard.slug]);
  }

  lemma StepKeepsConsistent(before: Directory, step: Step, after: Directory)
    requires Consistent(before) && Leads(before, step, after)
    ensures Consistent(after)
  {
    NewSlugIsFree(before, step, after);
    forall stem | Readable(after, stem) ensures after[stem].dashboard.slug == stem && IsValidSlug(stem) {
      if Readable(before, stem) { assert before[stem].dashboard.slug == stem; }
    }
  }

  /** Where every file lies under the slug it stores, a step replaces only the file it was pointed at. */
  lemma ConsistentHits(before: Directory, step: Step, stem: string)
    requires Consistent(before)
    ensures Hits(before, step, stem) ==> Targets(step, stem)
  {
  }

  /** Over any run, in which operations may fail, leave debris or leave an old file behind, and from any
      directory: a file is replaced or removed only by a step that hits it, and the number of files is what
      was there plus the gains of the steps. */
  lemma {:induction false} RunsSpareOthers(dirs: seq<Directory>, steps: seq<Step>, stem: string)
    requires RunOf(dirs, steps)
    ensures stem in dirs[0] && (forall i | 0 <= i < |steps| :: !Hits(dirs[i], steps[i], stem)) ==>
              stem in dirs[|steps|] && dirs[|steps|][stem] == dirs[0][stem]
    ensures |dirs[|steps|]| == |dirs[0]| + Gained(dirs, steps)
  {
    if steps == [] {
    } else {
      var n := |steps| - 1;
      RunsSpareOthers(dirs[..n + 1], steps[..n], stem);
      StepCounts(dirs[n], steps[n], dirs[n + 1]);
      if stem in dirs[n] { StepSpares(dirs[n], steps[n], dirs[n + 1], stem); }
    }
  }

  /** From a directory in which every file lies under the slug it stores, over any such run: that stays so,
      a dashboard no operation that went through was pointed at keeps its file byte for byte, and the number
      of files grows by one for each creation, duplication and leftover, shrinks by one for each removal,
      and does not change otherwise. */
  lemma {:induction false} RunsNeverOverwrite(dirs: seq<Directory>, steps: seq<Step>, stem: string)
    requires RunOf(dirs, steps) && Consistent(dirs[0])
    ensures Consistent(dirs[|steps|])
    ensures stem in dirs[0] && (forall i | 0 <= i < |steps| :: !Targets(steps[i], stem)) ==>
              stem in dirs[|steps|] && dirs[|steps|][stem] == dirs[0][stem]
    ensures |dirs[|steps|]| == |dirs[0]| + Balance(steps)
  {
    if steps == [] {
    } else {
      var n := |steps| - 1;
      RunsNeverOverwrite(dirs[..n + 1], steps[..n], stem);
      StepKeepsConsistent(dirs[n], steps[n], dirs[n + 1]);
      StepCounts(dirs[n], steps[n], dirs[n + 1]);
      ConsistentGain(dirs[n], steps[n]);
      ConsistentHits(dirs[n], steps[n], stem);
      if stem in dirs[n] { StepSpares(dirs[n], steps[n], dirs[n + 1], stem); }
    }
  }

  /** Creations, duplications and leftovers less removals. */
  ghost function Balance(steps: seq<Step>): int
  {
    if steps == [] then 0 else Balance(steps[..|steps| - 1]) + Worth(steps[|steps| - 1])
  }

  ghost function Worth(step: Step): int
  {
    match step
    case Through(op, _) => if op.Created? || op.Duplicated? then 1 else if op.Removed? then -1 else 0
    case OldStays(_, _) => 1
    case Nothing => 0
    case Debris(_, _) => 1
  }

  lemma ConsistentGain(before: Directory, step: Step)
    requires Consistent(before)
    ensures Gain(before, step) == Worth(step)
  {
  }

  // ---- files that store another slug ------------------------------------------------------------

  /** Rewriting the dashboard in file `slug`, by saving or by renaming in place, touches no other dashboard
      if and only if the file stores its own slug, an unused one, or just the content that is there. */
  lemma RewritingOverwritesOnlyOnMismatch(dir: Directory, slug: string, d: Dashboard, after: Directory)
    requires Readable(dir, slug) && Rewrites(dir, slug, d, after)
    ensures var stored := dir[slug].dashboard.slug;
            OthersKept(dir, after, slug) <==> stored == slug || stored !in dir || dir[stored] == Stored(d)
  {
    if OthersKept(dir, after, slug) && d.slug != slug && d.slug in dir { assert after[d.slug] == dir[d.slug]; }
  }

  /** Saving. */
  lemma SavingOverwritesOnlyOnMismatch(dir: Directory, slug: string, layout: seq<Tile>, now: string,
                                       after: Directory)
    requires Steps(dir, Saved(slug, layout, now), slug, after)
    ensures var stored := dir[slug].dashboard.slug;
            OthersKept(dir, after, slug) <==>
            stored == slug || stored !in dir || dir[stored] == Stored(dir[slug].dashboard.(layout := layout, updatedAt := now))
  {
    RewritingOverwritesOnlyOnMismatch(dir, slug, dir[slug].dashboard.(layout := layout, updatedAt := now), after);
  }

  /** Renaming to a name with the same slug. Moving to another slug never touches another dashboard. */
  lemma RenamingOverwritesOnlyOnMismatch(dir: Directory, slug: string, name: string, base: string, now: string,
                                         given: string, after: Directory)
    requires Steps(dir, Renamed(slug, name, base, now), given, after)
    ensures var stored := dir[slug].dashboard.slug;
            OthersKept(dir, after, slug) <==>
            base != slug || stored == slug || stored !in dir
            || dir[stored] == Stored(dir[slug].dashboard.(name := name, updatedAt := now))
  {
    if base == slug {
      RewritingOverwritesOnlyOnMismatch(dir, slug, dir[slug].dashboard.(name := name, updatedAt := now), after);
    } else {
      FreeSlug(base, dir, given);
    }
  }

  /** With file `a` storing slug `b`, renaming `a` to "A" replaces the dashboard in file `b`. */
  lemma RenamingCanReplaceAnother(d: Dashboard, other: Dashboard, hash: nat, now: string)
    requires d.slug == "b" && other.name != "A"
    ensures var dir: Directory := map["a" := Stored(d), "b" := Stored(other)];
            var after := dir["b" := Stored(d.(name := "A", updatedAt := now))];
            && DeriveSlug("A", hash) == "a"
            && Steps(dir, Renamed("a", "A", DeriveSlug("A", hash), now), "a", after)
            && after["b"] != dir["b"]
  {
    ValidSlugIsFixed("a", hash);
    assert AsciiLower('A') == 'a';
    assert "A"[1..] == "" && Collapse("A", true) == ['a'] + Collapse("", false);
    assert Collapse("A", true) == "a";
  }

  // ---- single operations ------------------------------------------------------------------------

  /** Renaming keeps the layout and the creation date under the new name; duplicating leaves the original and
      adds a dashboard with the same layout. */
  lemma LayoutsSurvive(before: Directory, op: Op, slug: string, after: Directory)
    requires Consistent(before) && Steps(before, op, slug, after) && (op.Renamed? || op.Duplicated?)
    ensures Readable(before, op.slug) && Readable(after, slug)
    ensures after[slug].dashboard.layout == before[op.slug].dashboard.layout && after[slug].dashboard.slug == slug
    ensures op.Renamed? ==> after[slug].dashboard.name == op.name
                            && after[slug].dashboard.createdAt == before[op.slug].dashboard.createdAt
                            && (slug != op.slug ==> op.slug !in after)
    ensures op.Duplicated? ==> slug != op.slug && op.slug in after && after[op.slug] == before[op.slug]
  {
    if op.Duplicated? || op.base != op.slug { FreeSlug(op.base, before, slug); }
  }
}

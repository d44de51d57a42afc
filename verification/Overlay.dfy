/** Overlay snapshot isolation: a scratch overlay mounted on a snapshot, torn down and put up again. */
module Overlay {
  import opened Wrappers
  import MountTable

  // ---------- paths, files and mounts ----------

  type Path = seq<string>

  datatype File = File(content: string) | Whiteout

  type Fs = map<Path, File>

  datatype Config = Config(lower: Path, scratch: Path, name: string) {
    function Upper(): Path { scratch + ["upper"] }
    function Work(): Path { scratch + ["work"] }
    function Merged(): Path { scratch + ["merged"] }

    /** The three directories this tool wipes. */
    function Dirs(): set<Path> { {Merged(), Upper(), Work()} }
  }

  /** The text of an absolute path. */
  function Text(p: Path): (s: string)
    ensures s != "" && s[0] == '/'
  {
    if |p| <= 1 then "/" + (if p == [] then "" else p[0]) else Text(p[..|p| - 1]) + "/" + p[|p| - 1]
  }

  /** Whether this tool finds its own overlay in the mount table. */
  predicate Seen(cfg: Config) {
    MountTable.Recognised(cfg.name, Text(cfg.Merged()))
  }

  predicate Under(p: Path, dir: Path) {
    dir <= p
  }

  predicate UnderAny(p: Path, dirs: set<Path>) {
    exists d | d in dirs :: Under(p, d)
  }

  predicate InScratch(cfg: Config, p: Path) {
    UnderAny(p, cfg.Dirs())
  }

  function At(fs: Fs, p: Path): Option<File> {
    if p in fs then Some(fs[p]) else None
  }

  /** What a reader of the overlay sees at `rel`: the upper file, nothing under a whiteout, else the lower file. */
  function Visible(fs: Fs, cfg: Config, rel: Path): Option<File> {
    match At(fs, cfg.Upper() + rel)
    case Some(Whiteout) => None
    case Some(f) => Some(f)
    case None => At(fs, cfg.lower + rel)
  }

  /** Through the overlay one sees exactly the snapshot. */
  ghost predicate ShowsSnapshot(fs: Fs, cfg: Config) {
    forall rel: Path :: Visible(fs, cfg, rel) == At(fs, cfg.lower + rel)
  }

  /** Nothing outside the three scratch directories differs. */
  ghost predicate Kept(cfg: Config, a: Fs, b: Fs) {
    forall p: Path :: InScratch(cfg, p) || At(a, p) == At(b, p)
  }

  ghost predicate SameUnder(a: Fs, b: Fs, dir: Path) {
    forall p: Path :: Under(p, dir) ==> At(a, p) == At(b, p)
  }

  /** No scratch directory lies inside the snapshot, nor the snapshot inside one. */
  predicate Disjoint(cfg: Config) {
    forall d | d in cfg.Dirs() :: !Under(d, cfg.lower) && !Under(cfg.lower, d)
  }

  datatype Command =
    | Umount(depth: nat)  // with the overlays mounted then
    | LazyUmount(depth: nat)
    | Remove(path: Path, depth: nat, detached: nat)  // and with those detached but open on upper
    | MakeDir(path: Path)
    | OpenUp(path: Path)  // chmod 0777
    | Mount

  /**
   The machine: its files, how many overlays are stacked on merged, how many were detached
   lazily while still in use with the present upper directory, and the commands issued.
   */
  datatype World = World(fs: Fs, depth: nat, detached: nat, log: seq<Command>)

  /** How a command ends: done, failed, or with this tool killed during or after it. */
  datatype Exit = Done | Failed | Killed

  /** A file written or deleted by a container. */
  datatype Change = Change(path: Path, file: Option<File>)

  function ChangedOnce(fs: Fs, allowed: set<Path>, c: Change): Fs {
    if !UnderAny(c.path, allowed) then fs
    else if c.file.Some? then fs[c.path := c.file.value]
    else fs - {c.path}
  }

  function Changed(fs: Fs, allowed: set<Path>, changes: seq<Change>): Fs
    decreases |changes|
  {
    if changes == [] then fs else Changed(ChangedOnce(fs, allowed, changes[0]), allowed, changes[1..])
  }

  lemma {:induction false} ChangedElsewhere(fs: Fs, allowed: set<Path>, changes: seq<Change>, p: Path)
    requires !UnderAny(p, allowed)
    ensures At(Changed(fs, allowed, changes), p) == At(fs, p)
    decreases |changes|
  {
    if changes != [] {
      ChangedElsewhere(ChangedOnce(fs, allowed, changes[0]), allowed, changes[1..], p);
    }
  }

  /** Where container writes land: in upper through an overlay, in the bare merged directory without one. */
  function Writable(cfg: Config, w: World): set<Path> {
    (if w.depth > 0 || w.detached > 0 then {cfg.Upper(), cfg.Work()} else {})
    + (if w.depth == 0 then {cfg.Merged()} else {})
  }

  /** The world can have gone from `a` to `b` by container activity alone. */
  ghost predicate Interfered(cfg: Config, a: World, b: World) {
    b.depth == a.depth && b.detached <= a.detached && b.log == a.log
    && forall p: Path :: UnderAny(p, Writable(cfg, a)) || At(a.fs, p) == At(b.fs, p)
  }

  function Removed(fs: Fs, path: Path, survivors: set<Path>): Fs {
    map p | p in fs && (!Under(p, path) || p in survivors) :: fs[p]
  }

  function UmountCommand(isLazy: bool, depth: nat): Command {
    if isLazy then LazyUmount(depth) else Umount(depth)
  }

  // ---------- the commands ----------

  class Host {
    var w: World

    /** Containers write, delete and let go of detached overlays at any time. */
    method Interfere(cfg: Config)
      modifies this
      ensures Interfered(cfg, old(w), w)
    {
      var changes: seq<Change> := *;
      var released: int := *;
      var allowed := Writable(cfg, w);
      ghost var before := w.fs;
      var after := Changed(w.fs, allowed, changes);
      forall p: Path | !UnderAny(p, allowed) ensures At(after, p) == At(before, p) {
        ChangedElsewhere(before, allowed, changes, p);
      }
      w := w.(fs := after, detached := if 0 <= released <= w.detached then w.detached - released else w.detached);
    }

    /** `umount`, plain or lazy: at best it takes the top overlay off. A lazy one may leave it open. */
    method Unmount(cfg: Config, isLazy: bool) returns (exit: Exit)
      modifies this
      ensures w.fs == old(w.fs) && w.log == old(w.log) + [UmountCommand(isLazy, old(w.depth))]
      ensures w.depth <= old(w.depth) <= w.depth + 1
      ensures w.detached == old(w.detached) || (isLazy && w.detached == old(w.detached) + 1)
    {
      exit := *;
      var works: bool, busy: bool := *, *;
      w := w.(log := w.log + [UmountCommand(isLazy, w.depth)]);
      if works && w.depth > 0 {
        w := w.(depth := w.depth - 1, detached := w.detached + if isLazy && busy then 1 else 0);
      }
    }

    /**
     `rm -rf`: on success nothing is left under `path`; otherwise anything may be. Through a
     mounted overlay it would write into upper. With upper gone, no detached overlay has it.
     */
    method RemoveAll(cfg: Config, path: Path) returns (exit: Exit)
      requires path in cfg.Dirs()
      modifies this
      ensures w.depth == old(w.depth) && w.detached <= old(w.detached)
      ensures w.log == old(w.log) + [Remove(path, old(w.depth), old(w.detached))]
      ensures Kept(cfg, old(w.fs), w.fs)
      ensures old(w.depth) == 0 ==> forall p: Path :: At(w.fs, p) == At(old(w.fs), p) || (Under(p, path) && p !in w.fs)
      ensures exit.Done? && old(w.depth) == 0 ==> forall p | p in w.fs :: !Under(p, path)
      ensures exit.Done? && path == cfg.Upper() ==> w.detached == 0
    {
      exit := *;
      var left: set<Path> := *;
      var survivors := if exit.Done? then {} else left;
      w := w.(fs := Removed(w.fs, path, survivors),
              log := w.log + [Remove(path, w.depth, w.detached)],
              detached := if exit.Done? && path == cfg.Upper() then 0 else w.detached);
      if w.depth > 0 {
        var whiteouts: seq<Change> := *;
        ghost var before := w.fs;
        forall p: Path | !InScratch(cfg, p) ensures At(Changed(before, cfg.Dirs(), whiteouts), p) == At(before, p) {
          ChangedElsewhere(before, cfg.Dirs(), whiteouts, p);
        }
        w := w.(fs := Changed(w.fs, cfg.Dirs(), whiteouts));
      }
    }

    method OnDirectory(c: Command) returns (exit: Exit)
      requires c.MakeDir? || c.OpenUp?
      modifies this
      ensures w == old(w).(log := old(w.log) + [c])
    {
      exit := *;
      w := w.(log := w.log + [c]);
    }

    /** `mount -t overlay`: one more overlay on merged, unless it fails. */
    method MountOverlay() returns (exit: Exit)
      modifies this
      ensures w == old(w).(log := old(w.log) + [Mount], depth := w.depth)
      ensures w.depth == old(w.depth) + (if exit.Done? then 1 else 0) || (exit.Killed? && w.depth == old(w.depth) + 1)
    {
      exit := *;
      var landed: bool := *;
      w := w.(log := w.log + [Mount],
              depth := w.depth + if exit.Done? || (exit.Killed? && landed) then 1 else 0);
    }

    // ---------- running a command, with containers active until then ----------

    method RunUmount(cfg: Config, isLazy: bool) returns (exit: Exit)
      modifies this
      ensures Op(cfg, old(w), w) && Issued(old(w), w) == [UmountCommand(isLazy, old(w.depth))]
      ensures w.depth <= old(w.depth) <= w.depth + 1
      ensures w.detached <= old(w.detached) + if isLazy then 1 else 0
    {
      ghost var before := w;
      Interfere(cfg);
      InterferenceIsOp(cfg, before, w);
      exit := Unmount(cfg, isLazy);
    }

    method RunRemove(cfg: Config, path: Path) returns (exit: Exit)
      requires path in cfg.Dirs() && (Seen(cfg) ==> w.depth == 0)
      modifies this
      ensures Op(cfg, old(w), w) && w.depth == old(w.depth) && w.detached <= old(w.detached)
      ensures exists open: nat :: open <= old(w.detached) && Issued(old(w), w) == [Remove(path, w.depth, open)]
      ensures exit.Done? && path == cfg.Upper() && w.depth == 0 ==> UpperSealed(cfg, w)
      ensures Settled(cfg, old(w), w)
    {
      hide Seen;
      ghost var before := w;
      Interfere(cfg);
      InterferenceIsOp(cfg, before, w);
      SealHolds(cfg, before, w);
      ghost var open := w.detached;
      exit := RemoveAll(cfg, path);
      assert Issued(before, w) == [Remove(path, w.depth, open)];
    }

    method RunOnDirectory(cfg: Config, c: Command) returns (exit: Exit)
      requires c.MakeDir? || c.OpenUp?
      modifies this
      ensures Op(cfg, old(w), w) && Issued(old(w), w) == [c]
      ensures w.depth == old(w.depth) && w.detached <= old(w.detached)
      ensures Settled(cfg, old(w), w)
    {
      ghost var before := w;
      Interfere(cfg);
      InterferenceIsOp(cfg, before, w);
      SealHolds(cfg, before, w);
      exit := OnDirectory(c);
    }

    method RunMount(cfg: Config) returns (exit: Exit)
      modifies this
      ensures Op(cfg, old(w), w) && Issued(old(w), w) == [Mount]
      ensures w.detached <= old(w.detached)
      ensures exit.Done? ==> w.depth == old(w.depth) + 1
      ensures Idle(old(w)) ==> UpperWithin(cfg, w.fs, old(w.fs))
    {
      ghost var before := w;
      Interfere(cfg);
      InterferenceIsOp(cfg, before, w);
      SealHolds(cfg, before, w);
      exit := MountOverlay();
    }

    /** The lines of `/proc/mounts` that are about the overlays on merged. */
    method ReadMounts(cfg: Config) returns (lines: seq<string>)
      ensures |lines| == w.depth
      ensures forall i | 0 <= i < |lines| ::
                MountTable.Matches(MountTable.Words(lines[i]), Text(cfg.Merged())) <==> Seen(cfg)
    {
      lines := [];
      for i := 0 to w.depth
        invariant |lines| == i
        invariant forall j | 0 <= j < i ::
                    MountTable.Matches(MountTable.Words(lines[j]), Text(cfg.Merged())) <==> Seen(cfg)
      {
        var options: string := *;
        MountTable.EntryIsFoundExactlyIf(cfg.name, Text(cfg.Merged()), options);
        lines := lines + [MountTable.Entry(cfg.name, Text(cfg.Merged()), options)];
      }
    }

    /** The search of the mount table: it finds a mounted overlay only where the table's text allows it. */
    method IsMounted(cfg: Config) returns (mounted: bool)
      ensures mounted <==> w.depth > 0 && Seen(cfg)
    {
      hide Seen;
      var target := Text(cfg.Merged());
      var lines := ReadMounts(cfg);
      for i := 0 to |lines|
        invariant 0 < i ==> !Seen(cfg)
      {
        var parts := MountTable.Words(lines[i]);
        if 3 <= |parts| && parts[1] == target && parts[2] == "overlay" {
          return true;
        }
      }
      return false;
    }

    // ---------- the tool ----------

    method UmountWithRetry(cfg: Config, attempts: nat) returns (end: End)
      modifies this
      ensures Op(cfg, old(w), w)
      ensures end.Returned? ==> w.depth == 0 || !Seen(cfg)
      ensures end.Raised? ==> end.error == StillBusy && w.depth > 0 && Seen(cfg)
      ensures old(w.depth) <= w.depth + attempts + 1
      ensures Tried(Issued(old(w), w), attempts)
      ensures end.Raised? ==> |Issued(old(w), w)| == attempts + 1
      ensures Seen(cfg) && old(w.depth) > 0 ==> forall c | c in Issued(old(w), w) :: !c.Remove? && c.depth > 0
      ensures w.detached > old(w.detached) ==> UsesLazy(Issued(old(w), w))
    {
      hide Seen;
      ghost var start := w;
      for attempt := 0 to attempts
        invariant Op(cfg, start, w) && w.detached <= start.detached
        invariant start.depth <= w.depth + attempt
        invariant Tried(Issued(start, w), attempts) && |Issued(start, w)| == attempt
        invariant Seen(cfg) && start.depth > 0 ==> w.depth > 0 && forall c | c in Issued(start, w) :: c.depth > 0
      {
        ghost var before := w;
        var exit := RunUmount(cfg, false);
        OpThen(cfg, start, before, w);
        if exit.Killed? {
          return Crashed;
        }
        var mounted := IsMounted(cfg);
        if !mounted {
          return Returned;
        }
      }
      ghost var before := w;
      var exit := RunUmount(cfg, true);
      OpThen(cfg, start, before, w);
      assert LazyUmount(before.depth) in Issued(start, w);
      if exit.Killed? {
        return Crashed;
      }
      var mounted := IsMounted(cfg);
      return if mounted then Raised(StillBusy) else Returned;
    }

    /**
     A restore leaves nothing mounted and has wiped no live mount exactly where the tool
     sees its mounts, or finds none. `wiped` says whether the wipe of upper reported
     success; the tool itself does not look.
     */
    method Restore(cfg: Config) returns (end: End, ghost wiped: bool)
      modifies this
      ensures Op(cfg, old(w), w)
      ensures end.Returned? ==>
                Restoring(Issued(old(w), w), cfg)
                && (if Seen(cfg) then w.depth == 0 && old(w.depth) <= 6 else w.depth == old(w.depth))
                && (SafeLog(Issued(old(w), w)) <==> Seen(cfg) || old(w.depth) == 0)
      ensures end.Returned? && !(Seen(cfg) && old(w.depth) > 0) ==> |Issued(old(w), w)| == 3
      ensures end.Raised? ==> end.error == StillBusy && w.depth > 0 && Teardown(Issued(old(w), w))
      ensures end.Raised? || (end.Returned? && UsesLazy(Issued(old(w), w))) ==>
                var log := Issued(old(w), w);
                |log| == (if end.Raised? then 6 else 9)
                && log[0].Umount? && log[1].Umount? && log[2].Umount? && log[3].Umount? && log[4].Umount?
                && log[5].LazyUmount?
      ensures end.Returned? && wiped && w.depth == 0 ==> UpperSealed(cfg, w)
      ensures Settled(cfg, old(w), w)
      ensures WipesOpenOverlay(Issued(old(w), w)) ==> old(w.detached) > 0 || UsesLazy(Issued(old(w), w))
    {
      hide Op, Seen, Issued, UpperSealed, UpperWithin, SafeLog;
      hide AllWipes, Restoring, Teardown, WipesOpenOverlay, UsesLazy;
      ghost var start := w;
      OpNothing(cfg, start);
      wiped := false;
      var mounted := IsMounted(cfg);
      if mounted {
        end := UmountWithRetry(cfg, 5);
        TeardownOnly(Issued(start, w));
        if !end.Returned? {
          return;
        }
      }
      ghost var mid := w;
      end, wiped := Wipe(cfg);
      OpThen(cfg, start, mid, w);
      RestoreLog(cfg, Issued(start, mid), Issued(mid, w), mid);
    }

    /** The three wipes, each whatever the one before it reported. */
    method Wipe(cfg: Config) returns (end: End, ghost wiped: bool)
      requires Seen(cfg) ==> w.depth == 0
      modifies this
      ensures Op(cfg, old(w), w) && w.depth == old(w.depth) && end in {Returned, Crashed}
      ensures end.Returned? ==> AllWipes(Issued(old(w), w), cfg)
      ensures end.Returned? && wiped && w.depth == 0 ==> UpperSealed(cfg, w)
      ensures Settled(cfg, old(w), w)
      ensures OnlyWipes(Issued(old(w), w), old(w))
    {
      hide Seen, UpperWithin;
      ghost var w0 := w;
      wiped := false;
      var exit := RunRemove(cfg, cfg.Merged());
      if exit.Killed? {
        return Crashed, wiped;
      }
      ghost var w1 := w;
      exit := RunRemove(cfg, cfg.Upper());
      OpThen(cfg, w0, w1, w);
      SettledThen(cfg, w0, w1, w);
      if exit.Killed? {
        return Crashed, wiped;
      }
      wiped := exit.Done?;
      ghost var w2 := w;
      exit := RunRemove(cfg, cfg.Work());
      OpThen(cfg, w0, w2, w);
      SettledThen(cfg, w0, w2, w);
      SealStays(cfg, w2, w);
      end := if exit.Killed? then Crashed else Returned;
    }

    method PrepareDirs(cfg: Config) returns (end: End)
      modifies this
      ensures Op(cfg, old(w), w) && w.depth == old(w.depth) && w.detached <= old(w.detached)
      ensures Settled(cfg, old(w), w)
      ensures end.Raised? ==> end.error == CommandFailed
      ensures Issued(old(w), w) <= Preparations(cfg)
      ensures end.Returned? ==> Issued(old(w), w) == Preparations(cfg)
    {
      hide Op, Settled, Issued;
      ghost var start := w;
      OpNothing(cfg, start);
      var paths := [cfg.Merged(), cfg.Upper(), cfg.Work()];
      for i := 0 to 3
        invariant Op(cfg, start, w) && w.depth == start.depth && w.detached <= start.detached
        invariant Settled(cfg, start, w)
        invariant Issued(start, w) == Preparations(cfg)[..2 * i]
      {
        ghost var before := w;
        var exit := RunOnDirectory(cfg, MakeDir(paths[i]));
        OpThen(cfg, start, before, w);
        SettledThen(cfg, start, before, w);
        assert Issued(start, w) == Preparations(cfg)[..2 * i + 1];
        if !exit.Done? {
          return if exit.Killed? then Crashed else Raised(CommandFailed);
        }
        before := w;
        exit := RunOnDirectory(cfg, OpenUp(paths[i]));
        OpThen(cfg, start, before, w);
        SettledThen(cfg, start, before, w);
        assert Issued(start, w) == Preparations(cfg)[..2 * i + 2];
        if !exit.Done? {
          return if exit.Killed? then Crashed else Raised(CommandFailed);
        }
      }
      return Returned;
    }

    /**
     Restore, then mount afresh. Exactly one overlay is mounted, and no live one was wiped,
     exactly where the tool sees its mounts or there was none. The overlay shows the snapshot
     if upper was wiped, or held nothing harmful with nobody there to write to it.
     */
    method Up(cfg: Config, snapshotExists: bool) returns (end: End, ghost wiped: bool)
      modifies this
      ensures Op(cfg, old(w), w)
      ensures !snapshotExists <==> end == Raised(NoSnapshot)
      ensures !snapshotExists ==> w == old(w)
      ensures end.Returned? ==> w.depth == (if Seen(cfg) then 1 else old(w.depth) + 1)
      ensures end.Returned? && Seen(cfg) ==> old(w.depth) <= 6
      ensures end.Returned? ==> (SafeLog(Issued(old(w), w)) <==> Seen(cfg) || old(w.depth) == 0)
      ensures end.Returned? ==>
                exists restore: seq<Command> ::
                  Restoring(restore, cfg) && Issued(old(w), w) == restore + Preparations(cfg) + [Mount]
      ensures end.Returned? && wiped && w.depth == 1 ==> ShowsSnapshot(w.fs, cfg)
      ensures end.Returned? && Idle(old(w)) && Disjoint(cfg) && Harmless(old(w.fs), cfg) ==> ShowsSnapshot(w.fs, cfg)
      ensures WipesOpenOverlay(Issued(old(w), w)) ==> old(w.detached) > 0 || UsesLazy(Issued(old(w), w))
    {
      hide Seen, UpperWithin, UpperEmpty, ShowsSnapshot, Disjoint, Harmless, Kept, Restoring, Preparations;
      ghost var start := w;
      OpNothing(cfg, start);
      wiped := false;
      if !snapshotExists {
        return Raised(NoSnapshot), wiped;
      }
      end, wiped := Restore(cfg);
      if !end.Returned? {
        return;
      }
      ghost var restored := w;
      end := MountFresh(cfg);
      OpThen(cfg, start, restored, w);
      if end.Returned? {
        ghost var restore := Issued(start, restored);
        assert Issued(start, w) == restore + Preparations(cfg) + [Mount];
        FreshOverlay(cfg, start, restored, w, wiped);
      }
    }

    /** The second half of `up`: prepare the directories and mount. */
    method MountFresh(cfg: Config) returns (end: End)
      modifies this
      ensures Op(cfg, old(w), w)
      ensures end.Raised? ==> end.error == CommandFailed
      ensures end.Returned? ==> w.depth == old(w.depth) + 1 && Issued(old(w), w) == Preparations(cfg) + [Mount]
      ensures Idle(old(w)) ==> UpperWithin(cfg, w.fs, old(w.fs))
      ensures forall c | c in Issued(old(w), w) :: !c.Remove?
    {
      hide Seen, Kept;
      ghost var start := w;
      end := PrepareDirs(cfg);
      if !end.Returned? {
        return;
      }
      ghost var prepared := w;
      var exit := RunMount(cfg);
      OpThen(cfg, start, prepared, w);
      end := if exit.Done? then Returned else if exit.Killed? then Crashed else Raised(CommandFailed);
    }

    method Down(cfg: Config) returns (end: End)
      modifies this
      ensures Op(cfg, old(w), w)
      ensures end.Returned? ==>
                Restoring(Issued(old(w), w), cfg)
                && (w.depth == 0 <==> Seen(cfg) || old(w.depth) == 0)
                && (SafeLog(Issued(old(w), w)) <==> Seen(cfg) || old(w.depth) == 0)
      ensures end.Raised? ==> w.depth > 0 && Teardown(Issued(old(w), w))
    {
      hide Seen;
      ghost var wiped;
      end, wiped := Restore(cfg);
    }
  }

  datatype ToolError = StillBusy | CommandFailed | NoSnapshot

  /** How an operation of the tool ends; it can be killed between any two commands. */
  datatype End = Returned | Raised(error: ToolError) | Crashed

  /** `rm -rf` was issued only with no overlay on merged. */
  predicate SafeLog(log: seq<Command>) {
    forall c | c in log :: c.Remove? ==> c.depth == 0
  }

  /** Some wipe was issued while a container still had a detached overlay open on upper. */
  predicate WipesOpenOverlay(log: seq<Command>) {
    exists c | c in log :: c.Remove? && c.detached > 0
  }

  function Issued(a: World, b: World): seq<Command> {
    if |a.log| <= |b.log| then b.log[|a.log|..] else []
  }

  /** What every operation of the tool, and every container, keeps. */
  ghost predicate Op(cfg: Config, a: World, b: World) {
    Kept(cfg, a.fs, b.fs) && a.log <= b.log && (Seen(cfg) ==> SafeLog(Issued(a, b)))
  }

  /** Up to `attempts` plain unmounts, and after as many a lazy one. */
  predicate Tried(log: seq<Command>, attempts: nat) {
    |log| <= attempts + 1
    && forall k | 0 <= k < |log| :: if k < attempts then log[k].Umount? else log[k].LazyUmount?
  }

  /** The unmounts of a restore: five tries at most before the lazy one, and none with nothing mounted. */
  predicate Teardown(log: seq<Command>) {
    Tried(log, 5) && forall c | c in log :: !c.Remove? && (c.Umount? || c.LazyUmount?) && c.depth > 0
  }

  predicate UsesLazy(log: seq<Command>) {
    exists c | c in log :: c.LazyUmount?
  }

  /** Wipes of merged, upper and work, in that order. */
  predicate AllWipes(log: seq<Command>, cfg: Config) {
    |log| == 3 && log[0].Remove? && log[0].path == cfg.Merged()
    && log[1].Remove? && log[1].path == cfg.Upper() && log[2].Remove? && log[2].path == cfg.Work()
  }

  /** Wipes alone, issued with the overlays of `a` mounted and no more detached. */
  predicate OnlyWipes(log: seq<Command>, a: World) {
    forall c | c in log :: c.Remove? && c.depth == a.depth && c.detached <= a.detached
  }

  /** A restore's commands, from those of its two halves. */
  lemma RestoreLog(cfg: Config, unmounts: seq<Command>, wipes: seq<Command>, a: World)
    requires Teardown(unmounts) && OnlyWipes(wipes, a)
    ensures AllWipes(wipes, cfg) ==>
              Restoring(unmounts + wipes, cfg) && (SafeLog(unmounts + wipes) <==> a.depth == 0)
    ensures WipesOpenOverlay(unmounts + wipes) ==> a.detached > 0
    ensures UsesLazy(unmounts + wipes) <==> UsesLazy(unmounts)
    ensures AllWipes(wipes, cfg) ==> |unmounts + wipes| == |unmounts| + 3
    ensures UsesLazy(unmounts) ==> |unmounts| == 6
    ensures |unmounts| == 6 ==>
              var log := unmounts + wipes;
              log[0].Umount? && log[1].Umount? && log[2].Umount? && log[3].Umount? && log[4].Umount?
              && log[5].LazyUmount?
  {
    var log := unmounts + wipes;
    if |wipes| == 3 {
      assert log[..|log| - 3] == unmounts && log[|log| - 3..] == wipes;
      assert wipes[0] in log;
    }
  }

  /** A whole restore: unmounts, if any, then the wipes. */
  predicate Restoring(log: seq<Command>, cfg: Config) {
    |log| >= 3 && Teardown(log[..|log| - 3]) && AllWipes(log[|log| - 3..], cfg)
  }

  function Preparations(cfg: Config): seq<Command> {
    [MakeDir(cfg.Merged()), OpenUp(cfg.Merged()), MakeDir(cfg.Upper()), OpenUp(cfg.Upper()),
     MakeDir(cfg.Work()), OpenUp(cfg.Work())]
  }

  /** The directories in the order in which they are wiped and made, by their names. */
  lemma CommandsByName(cfg: Config, wipes: seq<Command>)
    requires AllWipes(wipes, cfg)
    ensures wipes[0].path == cfg.scratch + ["merged"]
    ensures wipes[1].path == cfg.scratch + ["upper"]
    ensures wipes[2].path == cfg.scratch + ["work"]
    ensures Preparations(cfg) ==
            [MakeDir(cfg.scratch + ["merged"]), OpenUp(cfg.scratch + ["merged"]),
             MakeDir(cfg.scratch + ["upper"]), OpenUp(cfg.scratch + ["upper"]),
             MakeDir(cfg.scratch + ["work"]), OpenUp(cfg.scratch + ["work"])]
  {
  }

  predicate UpperEmpty(fs: Fs, cfg: Config) {
    forall p | p in fs :: !Under(p, cfg.Upper())
  }

  /** Nothing is mounted, and nothing detached still has upper open: nobody writes to upper. */
  predicate Idle(w: World) {
    w.depth == 0 && w.detached == 0
  }

  predicate UpperSealed(cfg: Config, w: World) {
    Idle(w) && UpperEmpty(w.fs, cfg)
  }

  /** Upper holds at most what it held in `held`. */
  predicate UpperWithin(cfg: Config, fs: Fs, held: Fs) {
    forall p | p in fs && Under(p, cfg.Upper()) :: p in held && fs[p] == held[p]
  }

  /** If nobody could write to upper, nobody can now and nothing came into it. */
  predicate Settled(cfg: Config, a: World, b: World) {
    Idle(a) ==> Idle(b) && UpperWithin(cfg, b.fs, a.fs)
  }

  lemma SettledThen(cfg: Config, a: World, b: World, c: World)
    requires Settled(cfg, a, b) && Settled(cfg, b, c)
    ensures Settled(cfg, a, c)
  {
  }

  lemma SealStays(cfg: Config, a: World, b: World)
    requires Settled(cfg, a, b)
    ensures UpperSealed(cfg, a) ==> UpperSealed(cfg, b)
  {
  }

  /**
   Nothing in upper would show: each entry is what the snapshot has in its place, or a
   whiteout over nothing.
   */
  predicate Harmless(fs: Fs, cfg: Config) {
    forall p | p in fs && Under(p, cfg.Upper()) ::
      var below := At(fs, cfg.lower + p[|cfg.Upper()|..]);
      if fs[p].Whiteout? then below.None? else below == Some(fs[p])
  }

  lemma OpNothing(cfg: Config, a: World)
    ensures Op(cfg, a, a) && Settled(cfg, a, a) && Issued(a, a) == [] && Teardown(Issued(a, a))
  {
  }

  lemma TeardownOnly(log: seq<Command>)
    requires Tried(log, 5) && forall c | c in log :: !c.Remove? && c.depth > 0
    ensures Teardown(log) && !WipesOpenOverlay(log)
    ensures |log| == 6 ==>
              log[0].Umount? && log[1].Umount? && log[2].Umount? && log[3].Umount? && log[4].Umount?
              && log[5].LazyUmount?
  {
  }

  lemma OpThen(cfg: Config, a: World, b: World, c: World)
    requires Op(cfg, a, b) && Op(cfg, b, c)
    ensures Op(cfg, a, c) && Issued(a, c) == Issued(a, b) + Issued(b, c)
  {
    hide Seen, InScratch;
    assert Issued(a, c) == Issued(a, b) + Issued(b, c);
  }

  lemma InterferenceIsOp(cfg: Config, a: World, b: World)
    requires Interfered(cfg, a, b)
    ensures Op(cfg, a, b) && Issued(a, b) == []
  {
    forall p: Path ensures InScratch(cfg, p) || At(a.fs, p) == At(b.fs, p) {
      if UnderAny(p, Writable(cfg, a)) {
        var d :| d in Writable(cfg, a) && Under(p, d);
        assert d in cfg.Dirs();
      }
    }
  }

  lemma SealHolds(cfg: Config, a: World, b: World)
    requires Interfered(cfg, a, b)
    ensures Settled(cfg, a, b)
  {
    if Idle(a) {
      forall p | p in b.fs && Under(p, cfg.Upper()) ensures p in a.fs && b.fs[p] == a.fs[p] {
        NotInBoth(cfg, p);
        assert At(b.fs, p) == At(a.fs, p);
      }
    }
  }

  lemma NotInBoth(cfg: Config, p: Path)
    ensures !(Under(p, cfg.Upper()) && Under(p, cfg.Merged()))
  {
    if Under(p, cfg.Upper()) {
      assert p[|cfg.scratch|] == cfg.Upper()[|cfg.scratch|] != cfg.Merged()[|cfg.scratch|];
    }
  }

  lemma EmptyUpperShowsSnapshot(fs: Fs, cfg: Config)
    requires UpperEmpty(fs, cfg)
    ensures ShowsSnapshot(fs, cfg)
  {
    forall rel: Path ensures Visible(fs, cfg, rel) == At(fs, cfg.lower + rel) {
      assert Under(cfg.Upper() + rel, cfg.Upper());
    }
  }

  /** What is left of a harmless upper shows exactly the snapshot, if that is what it was. */
  lemma HarmlessShowsSnapshot(fs: Fs, held: Fs, cfg: Config)
    requires Harmless(held, cfg) && UpperWithin(cfg, fs, held) && SameUnder(held, fs, cfg.lower)
    ensures ShowsSnapshot(fs, cfg)
  {
    forall rel: Path ensures Visible(fs, cfg, rel) == At(fs, cfg.lower + rel) {
      var p := cfg.Upper() + rel;
      assert Under(p, cfg.Upper()) && p[|cfg.Upper()|..] == rel;
      assert Under(cfg.lower + rel, cfg.lower);
    }
  }

  /** What a fresh overlay shows, from the restore before it. */
  lemma FreshOverlay(cfg: Config, start: World, restored: World, now: World, wiped: bool)
    requires Op(cfg, start, now) && Settled(cfg, start, restored)
    requires wiped && restored.depth == 0 ==> UpperSealed(cfg, restored)
    requires Idle(restored) ==> UpperWithin(cfg, now.fs, restored.fs)
    ensures wiped && restored.depth == 0 ==> ShowsSnapshot(now.fs, cfg)
    ensures Idle(start) && Disjoint(cfg) && Harmless(start.fs, cfg) ==> ShowsSnapshot(now.fs, cfg)
  {
    hide ShowsSnapshot, Harmless, Disjoint, Seen;
    if wiped && restored.depth == 0 {
      EmptyUpperShowsSnapshot(now.fs, cfg);
    }
    if Idle(start) && Disjoint(cfg) && Harmless(start.fs, cfg) {
      LowerIsKept(cfg, start.fs, now.fs);
      HarmlessShowsSnapshot(now.fs, start.fs, cfg);
    }
  }

  /**
   A wipe of upper that fails leaves any part of it. The snapshot shows through whatever is
   left exactly when nothing in upper was harmful to begin with.
   */
  lemma FailedWipeShowsSnapshotExactlyIf(fs: Fs, cfg: Config)
    requires Disjoint(cfg)
    ensures (forall left: set<Path> :: ShowsSnapshot(Removed(fs, cfg.Upper(), left), cfg)) <==> Harmless(fs, cfg)
  {
    hide ShowsSnapshot;
    forall left: set<Path> ensures SameUnder(fs, Removed(fs, cfg.Upper(), left), cfg.lower) {
      RemovalKeepsLower(fs, cfg, left);
    }
    if Harmless(fs, cfg) {
      forall left: set<Path> ensures ShowsSnapshot(Removed(fs, cfg.Upper(), left), cfg) {
        HarmlessShowsSnapshot(Removed(fs, cfg.Upper(), left), fs, cfg);
      }
    } else {
      assert Removed(fs, cfg.Upper(), fs.Keys) == fs;
      HarmfulShows(fs, cfg);
    }
  }

  lemma RemovalKeepsLower(fs: Fs, cfg: Config, left: set<Path>)
    requires Disjoint(cfg)
    ensures SameUnder(fs, Removed(fs, cfg.Upper(), left), cfg.lower)
  {
    forall p: Path | Under(p, cfg.lower) ensures !Under(p, cfg.Upper()) {
      if Under(p, cfg.Upper()) {
        assert cfg.Upper() in cfg.Dirs();
        PrefixesCompare(p, cfg.Upper(), cfg.lower);
        assert false;
      }
    }
  }

  lemma HarmfulShows(fs: Fs, cfg: Config)
    requires !Harmless(fs, cfg)
    ensures !ShowsSnapshot(fs, cfg)
  {
    var p :| p in fs && Under(p, cfg.Upper())
      && !(var below := At(fs, cfg.lower + p[|cfg.Upper()|..]);
           if fs[p].Whiteout? then below.None? else below == Some(fs[p]));
    var rel := p[|cfg.Upper()|..];
    assert p == cfg.Upper() + rel;
    assert Visible(fs, cfg, rel) != At(fs, cfg.lower + rel);
  }

  // ---------- every history, and what the configuration must grant ----------

  /** Any sequence of operations, crashes and container activity keeps what one of them keeps. */
  lemma {:induction false} EveryHistoryIsSafe(cfg: Config, worlds: seq<World>)
    requires worlds != [] && forall k | 0 < k < |worlds| :: Op(cfg, worlds[k - 1], worlds[k])
    requires Disjoint(cfg)
    ensures var first, last := worlds[0], worlds[|worlds| - 1];
            Op(cfg, first, last) && SameUnder(first.fs, last.fs, cfg.lower)
  {
    var n := |worlds| - 1;
    if n > 0 {
      EveryHistoryIsSafe(cfg, worlds[..n]);
      OpThen(cfg, worlds[0], worlds[n - 1], worlds[n]);
    }
    LowerIsKept(cfg, worlds[0].fs, worlds[n].fs);
  }

  lemma LowerIsKept(cfg: Config, a: Fs, b: Fs)
    requires Disjoint(cfg) && Kept(cfg, a, b)
    ensures SameUnder(a, b, cfg.lower)
  {
    forall p: Path | Under(p, cfg.lower) ensures At(a, p) == At(b, p) {
      if InScratch(cfg, p) {
        var d :| d in cfg.Dirs() && Under(p, d);
        PrefixesCompare(p, d, cfg.lower);
        assert false;
      }
    }
  }

  lemma PrefixesCompare(p: Path, d: Path, e: Path)
    requires d <= p && e <= p
    ensures d <= e || e <= d
  {
    if |d| <= |e| {
      assert d == p[..|d|] == e[..|d|];
    } else {
      assert e == p[..|e|] == d[..|e|];
    }
  }

  /**
   Keeping the snapshot out of the scratch directories, which the tool does not check, is
   exactly what its wipes need: only then does wiping spare the snapshot in every file system.
   */
  lemma WipingSparesSnapshotExactlyIfDisjoint(cfg: Config)
    ensures Disjoint(cfg) <==>
            forall fs: Fs, d: Path | d in cfg.Dirs() :: SameUnder(fs, Removed(fs, d, {}), cfg.lower)
  {
    forall d: Path | d in cfg.Dirs()
      ensures (forall fs: Fs :: SameUnder(fs, Removed(fs, d, {}), cfg.lower))
          <==> !Under(d, cfg.lower) && !Under(cfg.lower, d)
    {
      if Under(d, cfg.lower) || Under(cfg.lower, d) {
        var p := if Under(d, cfg.lower) then d else cfg.lower;
        var fs: Fs := map[p := File("state")];
        assert Under(p, cfg.lower) && At(fs, p) != At(Removed(fs, d, {}), p);
        assert !SameUnder(fs, Removed(fs, d, {}), cfg.lower);
      } else {
        forall fs: Fs ensures SameUnder(fs, Removed(fs, d, {}), cfg.lower) {
          WipeElsewhere(fs, d, cfg.lower);
        }
      }
    }
  }

  lemma WipeElsewhere(fs: Fs, d: Path, dir: Path)
    requires !Under(d, dir) && !Under(dir, d)
    ensures SameUnder(fs, Removed(fs, d, {}), dir)
  {
    forall p: Path | Under(p, dir) ensures !Under(p, d) {
      if Under(p, d) {
        PrefixesCompare(p, d, dir);
        assert false;
      }
    }
  }

  /** The same on the two paths: the snapshot is not at or above scratch, nor in one of its three directories. */
  lemma DisjointExactlyIf(cfg: Config)
    ensures Disjoint(cfg) <==>
            !(cfg.lower <= cfg.scratch)
            && (cfg.scratch < cfg.lower ==> cfg.lower[|cfg.scratch|] !in {"upper", "work", "merged"})
  {
    var n := |cfg.scratch|;
    assert forall d | d in cfg.Dirs() :: |d| == n + 1 && d[..n] == cfg.scratch && d[n] in {"upper", "work", "merged"};
    assert cfg.Merged() in cfg.Dirs() && cfg.Upper() in cfg.Dirs() && cfg.Work() in cfg.Dirs();
    if cfg.lower <= cfg.scratch {
      assert Under(cfg.Merged(), cfg.lower);
    } else if cfg.scratch < cfg.lower {
      var d := cfg.scratch + [cfg.lower[n]];
      assert d == cfg.lower[..n + 1];
      if d[n] in {"upper", "work", "merged"} {
        assert d in cfg.Dirs() && Under(cfg.lower, d);
      }
    }
    if !Disjoint(cfg) {
      var d :| d in cfg.Dirs() && (Under(d, cfg.lower) || Under(cfg.lower, d));
      if Under(cfg.lower, d) {
        assert cfg.lower[..n] == d[..n] && cfg.lower[n] == d[n];
      } else if |cfg.lower| <= n {
        assert cfg.lower == d[..|cfg.lower|] == cfg.scratch[..|cfg.lower|];
      }
    }
  }

  function SplitAtSlashes(text: string): (parts: seq<string>)
    ensures parts != []
    ensures '/' !in text ==> parts == [text]
  {
    if text == "" then [""] else
    var rest := SplitAtSlashes(text[1..]);
    assert text == [text[0]] + text[1..];
    if text[0] == '/' then [""] + rest else [[text[0]] + rest[0]] + rest[1..]
  }

  /** Where a relative path leads to: `..` goes up, and the root is its own parent. */
  function Walk(from: Path, steps: seq<string>): Path
    decreases |steps|
  {
    if steps == [] then from
    else if steps[0] == "" || steps[0] == "." then Walk(from, steps[1..])
    else if steps[0] == ".." then Walk(ParentOf(from), steps[1..])
    else Walk(from + [steps[0]], steps[1..])
  }

  function ParentOf(p: Path): Path {
    if p == [] then [] else p[..|p| - 1]
  }

  /** The default scratch directory: `.overlay-<name>` beside the snapshot. The name is any text. */
  function DefaultScratch(lower: Path, name: string): Path {
    Walk(ParentOf(lower), SplitAtSlashes(".overlay-" + name))
  }

  lemma PlainNameStaysBeside(lower: Path, name: string)
    requires '/' !in name
    ensures DefaultScratch(lower, name) == ParentOf(lower) + [".overlay-" + name]
  {
    var step := ".overlay-" + name;
    assert step[1] == 'o' && SplitAtSlashes(step) == [step];
    assert step != "" && step != "." && step != "..";
    assert Walk(ParentOf(lower) + [step], [step][1..]) == ParentOf(lower) + [step];
  }

  /**
   For a name without a slash the default is safe exactly when the snapshot is neither the
   root nor itself called `.overlay-<name>`.
   */
  lemma DefaultScratchIsSafeExactlyIf(lower: Path, name: string)
    requires '/' !in name
    ensures Disjoint(Config(lower, DefaultScratch(lower, name), name))
       <==> lower != [] && lower[|lower| - 1] != ".overlay-" + name
  {
    var cfg := Config(lower, DefaultScratch(lower, name), name);
    PlainNameStaysBeside(lower, name);
    DisjointExactlyIf(cfg);
    if lower != [] {
      var dir := lower[..|lower| - 1];
      assert lower == dir + [lower[|lower| - 1]] && |cfg.scratch| == |lower|;
      assert cfg.scratch[|dir|] == ".overlay-" + name;
    }
  }

  /** Steps that lead nowhere: no step, a dot, and up from the root. */
  lemma WalkStays(from: Path, steps: seq<string>)
    ensures Walk(from, [""] + steps) == Walk(from, ["."] + steps) == Walk(from, steps)
    ensures Walk([], [".."] + steps) == Walk([], steps)
  {
    assert ([""] + steps)[1..] == (["."] + steps)[1..] == ([".."] + steps)[1..] == steps;
  }

  /** A name with slashes can lead anywhere: every snapshot has names that lead back to it, and it is not spared. */
  lemma SlashedNameReachesSnapshot(dir: Path, last: string, x: string)
    requires '/' !in x && '/' !in last && last !in {"", ".", ".."}
    ensures var lower, name := dir + [last], x + "/" + (".." + "/" + last);
            DefaultScratch(lower, name) == lower && !Disjoint(Config(lower, DefaultScratch(lower, name), name))
  {
    var lower, name, step := dir + [last], x + "/" + (".." + "/" + last), ".overlay-" + x;
    assert ".overlay-" + name == step + "/" + (".." + "/" + last);
    SplitFirst(step, ".." + "/" + last);
    SplitFirst("..", last);
    assert ParentOf(lower) == dir && ParentOf(dir + [step]) == dir;
    assert step[1] == 'o';
    WalkOutAndBack(dir, step, last);
    DisjointExactlyIf(Config(lower, lower, name));
  }

  lemma WalkOutAndBack(dir: Path, step: string, last: string)
    requires step !in {"", ".", ".."} && last !in {"", ".", ".."}
    ensures Walk(dir, [step] + ([".."] + [last])) == dir + [last]
  {
    var back := [".."] + [last];
    assert ([step] + back)[1..] == back && back[1..] == [last] && ParentOf(dir + [step]) == dir;
    assert Walk(dir, [step] + back) == Walk(dir + [step], back) == Walk(dir, [last]);
    assert Walk(dir + [last], [last][1..]) == dir + [last];
  }

  lemma {:induction false} SplitFirst(first: string, rest: string)
    requires '/' !in first
    ensures SplitAtSlashes(first + "/" + rest) == [first] + SplitAtSlashes(rest)
  {
    var text := first + "/" + rest;
    if first == "" {
      assert text[1..] == rest;
    } else {
      assert text[1..] == first[1..] + "/" + rest;
      SplitFirst(first[1..], rest);
      assert [first[0]] + first[1..] == first;
    }
  }

  /** A file left in upper that is not the snapshot's own shows, if the wipe leaves it. */
  lemma StaleUpperShows(cfg: Config, fs: Fs, rel: Path, content: string)
    requires Disjoint(cfg)
    requires At(fs, cfg.Upper() + rel) == Some(File(content)) && At(fs, cfg.lower + rel) != Some(File(content))
    ensures exists left: set<Path> :: !ShowsSnapshot(Removed(fs, cfg.Upper(), left), cfg)
  {
    var p := cfg.Upper() + rel;
    assert p in fs && Under(p, cfg.Upper()) && p[|cfg.Upper()|..] == rel;
    FailedWipeShowsSnapshotExactlyIf(fs, cfg);
  }

  // ---------- what the mount table shows of the merged directory ----------

  /** A name the mount table shows as one word, like the default one. */
  predicate IsOneWord(name: string) {
    name != "" && forall c | c in name :: MountTable.IsSpace(c) ==> MountTable.IsEscaped(c)
  }

  /** With such a name the tool sees its mounts exactly when the merged path is plain text. */
  lemma MountIsSeenExactlyIf(cfg: Config)
    requires IsOneWord(cfg.name)
    ensures Seen(cfg) <==> MountTable.Plain(Text(cfg.Merged()))
  {
    MountTable.PlainNameLeavesItToTarget(cfg.name, Text(cfg.Merged()));
  }

  /** A space anywhere in the scratch path is enough to hide its mounts; so is a tab, a backslash or a wide space. */
  lemma SpaceHidesTheMount(cfg: Config, k: nat, c: char)
    requires c in " \t\n\r\\\U{a0}\U{2009}\U{3000}"
    requires IsOneWord(cfg.name) && k < |cfg.scratch| && c in cfg.scratch[k]
    ensures !Seen(cfg)
  {
    hide Seen, Text;
    MountIsSeenExactlyIf(cfg);
    assert cfg.Merged()[k] == cfg.scratch[k];
    PartOfText(cfg.Merged(), k, c);
  }

  lemma {:induction false} PartOfText(p: Path, k: nat, c: char)
    requires k < |p| && c in p[k]
    ensures c in Text(p)
  {
    if 1 < |p| {
      if k == |p| - 1 {
        assert forall s: string :: c in s + p[k];
      } else {
        PartOfText(p[..|p| - 1], k, c);
      }
    }
  }
}

/**
 The checkpoint/restart protocol of one rank over whole runs: the state variable of mem-ckpt.c, and the
 binding of the upper half to its lower half in upper-half-wrappers.c.
 */
module Protocol {
  import opened Areas
  import opened Bytes
  import opened Checkpoint
  import opened Listing
  import opened Memory
  import opened MmapWrapper
  import opened Pages
  import ProcMaps
  import opened Restore
  import RoundTrip
  import opened Transfer

  datatype CkptState = RUNNING | POST_RESUME | POST_RESTART

  /**
   LowerHalfInfo_t as the upper half holds it, or a function pointer taken from it: zeroed, or that of a lower
   half. `gen` counts the lower halves started so far; `tag` stands for the addresses in its binary, so two
   starts of one statically linked program have the same.
   */
  datatype LhInfo = Zeroed | Of(gen: nat, tag: nat)

  /** The upper half's variables, all of them in the memory that an image may hold. */
  datatype Upper = Upper(state: CkptState, initialized: bool, lhInfo: LhInfo, mmapPtr: LhInfo, sbrkPtr: LhInfo)

  /**
   The image file. `Torn` is truncated or partly written. What a finished one holds depends on the list that
   lhInfo leads to: without a list nothing but the context (`Hollow`), through a pointer into another binary
   nothing that can be relied on (`Stale`), through a list that does not reach all that the process needs
   not enough (`Lacking`); else the process, where its context returns to, and the regions written.
   */
  datatype Image =
    | NoImage
    | Torn
    | Hollow
    | Stale
    | Lacking
    | Complete(upper: Upper, inCall: bool, regions: seq<Region>)

  /** addr.bin, if it exists. */
  datatype AddrFile = Unlinked | Describes(info: LhInfo)

  /** A rank's process, the log of what its lower half has tracked, and its files. */
  datatype World =
    World(alive: bool, upper: Upper, gen: nat, tag: nat, log: seq<Region>, addrFile: AddrFile, image: Image)

  const FRESH: Upper := Upper(RUNNING, false, Zeroed, Zeroed, Zeroed)
  const NOTHING: World := World(false, FRESH, 0, 0, [], Unlinked, NoImage)

  /**
   How far a checkpoint gets. Write errors are ignored by the source; only a crash stops it. `Written` comes with
   the kernel's listing at that time, and with the memory that the process needs to go on: its variables, code
   and stack.
   */
  datatype Progress =
    | OpenFails
    | ContextFails
    | Written(areas: seq<Area>, needs: seq<Region>)
    | WritesFail
    | DiesWriting

  datatype Caller = Mmap | Sbrk

  datatype Action =
    | Launch(tag: nat, log: seq<Region>)                // kernel-loader starts the application, tracking what it maps
    | MpiCall                                           // the application calls an MPI function
    | MemoryCall(caller: Caller, maps: seq<Region>)     // it calls mmap or sbrk, which tracks at most one region
    | DoCheckpoint(progress: Progress)                  // it asks for a checkpoint
    | Signal(progress: Progress)                        // the checkpoint signal arrives
    | Crash
    | Restart(tag: nat, room: bool)                     // kernel-loader --restore, with the image's pages free or not

  datatype Observation =
    | Nothing
    | Returned(state: CkptState)         // what doCheckpoint returned
    | Dispatched(gen: nat)               // the lower half that a wrapper called into
    | Astray                             // a call to an address in another binary
    | Exited                             // the process stopped itself

  datatype Step = Step(world: World, seen: Observation)

  // ---------------------------------------------------------------- what an image holds

  /** x is in an area that is written, and in that area's first match. */
  predicate Reaches(areas: seq<Area>, tracked: seq<Region>, x: nat) {
    exists k | 0 <= k < |areas| ::
      Picked(areas[k], tracked) && InArea(areas[k], x) && Tracks(tracked[FirstMatch(areas[k], tracked, 0)], x)
  }

  predicate ReachesAll(areas: seq<Area>, tracked: seq<Region>, needs: seq<Region>) {
    forall i | 0 <= i < |needs| ::
      forall x: nat | needs[i].addr <= x < needs[i].addr + needs[i].len :: Reaches(areas, tracked, x)
  }

  /** The region of an area's record. */
  function CutRegion(a: Area, r: Region): Region {
    if RegionContains(r.addr, r.addr + r.len, a.addr, a.endAddr) then Region(a.addr, a.size) else r
  }

  /** The regions of the records written for a listing: what a restore of them tracks. */
  function WrittenRegions(areas: seq<Area>, tracked: seq<Region>): seq<Region> {
    if areas == [] then []
    else
      var n := |areas| - 1;
      WrittenRegions(areas[..n], tracked)
      + if Picked(areas[n], tracked) then [CutRegion(areas[n], tracked[FirstMatch(areas[n], tracked, 0)])] else []
  }

  /** The pointer leads into the running lower half's binary. */
  predicate Leads(p: LhInfo, tag: nat) {
    p.Of? && p.tag == tag
  }

  /** What the image holds once everything has been written. */
  function ImageOf(w: World, inCall: bool, areas: seq<Area>, needs: seq<Region>): Image {
    if w.upper.lhInfo.Zeroed? then Hollow
    else if !Leads(w.upper.lhInfo, w.tag) then Stale
    else if !ReachesAll(areas, ReportedList(w.log), needs) then Lacking
    else Complete(w.upper, inCall, WrittenRegions(areas, ReportedList(w.log)))
  }

  // ---------------------------------------------------------------- the code, as functions

  function BindWrappers(w: World): World {
    if w.upper.initialized then w
    else match w.addrFile
      case Unlinked => w.(alive := false)
      case Describes(info) => w.(upper := w.upper.(initialized := true, lhInfo := info), addrFile := Unlinked)
  }

  function UnbindWrappers(u: Upper): Upper {
    u.(initialized := false)
  }

  /** The pointer that the wrapper keeps in its static variable, taken from lhInfo on first use. */
  function CachedPointer(u: Upper, caller: Caller): LhInfo {
    var p := if caller == Mmap then u.mmapPtr else u.sbrkPtr;
    if p == Zeroed then u.lhInfo else p
  }

  function Cache(u: Upper, caller: Caller): Upper {
    var p := CachedPointer(u, caller);
    if caller == Mmap then u.(mmapPtr := p) else u.(sbrkPtr := p)
  }

  /** The wrappers of mmap and sbrk: a pointer into another binary leads nowhere. */
  function CallMemory(w: World, caller: Caller, maps: seq<Region>): Step {
    var bound := BindWrappers(w);
    if !bound.alive then Step(bound, Exited)
    else
      var w' := bound.(upper := Cache(bound.upper, caller));
      if Leads(CachedPointer(bound.upper, caller), w.tag) then Step(w'.(log := w'.log + maps), Dispatched(w.gen))
      else Step(w'.(alive := false), Astray)
  }

  /** The second half of checkpointHandler, from where getcontext returns, the first time or after a restart. */
  function AfterContext(w: World, inCall: bool, progress: Progress): World {
    if w.upper.state == RUNNING || w.upper.state == POST_RESUME then
      var saving := w.(upper := w.upper.(state := POST_RESTART));
      if progress == DiesWriting then saving.(alive := false, image := Torn)
      else
        var image := if progress.Written? then ImageOf(saving, inCall, progress.areas, progress.needs) else Torn;
        w.(upper := w.upper.(state := POST_RESUME), image := image)
    else w.(upper := UnbindWrappers(w.upper))
  }

  /** checkpointHandler: opening the image truncates it. */
  function Handler(w: World, inCall: bool, progress: Progress): World {
    if progress == OpenFails then w
    else if progress == ContextFails then w.(image := Torn)
    else AfterContext(w.(image := Torn), inCall, progress)
  }

  /** The end of doCheckpoint: report the state and reset it. */
  function Report(w: World): Step {
    if !w.alive then Step(w, Exited)
    else if w.upper.state == RUNNING then Step(w, Returned(RUNNING))
    else Step(w.(upper := w.upper.(state := RUNNING)), Returned(w.upper.state))
  }

  /** A new lower half writes its own record over addr.bin. */
  function NewLowerHalf(w: World, tag: nat, log: seq<Region>): World {
    w.(gen := w.gen + 1, tag := tag, log := log, addrFile := Describes(Of(w.gen + 1, tag)))
  }

  /** Listed areas are whole pages, some memory is always needed, and tracked regions are ones that mmap returns. */
  ghost predicate Possible(w: World, a: Action) {
    match a
    case Launch(tag, log) => !w.alive && LogOk(log)
    case Restart(tag, room) => !w.alive
    case MemoryCall(caller, maps) => w.alive && |maps| <= 1 && LogOk(maps)
    case DoCheckpoint(progress) => w.alive && ProgressOk(progress)
    case Signal(progress) => w.alive && ProgressOk(progress)
    case _ => w.alive
  }

  predicate ProgressOk(progress: Progress) {
    progress.Written? ==>
      && progress.needs != [] && progress.needs[0].len > 0
      && forall i :: 0 <= i < |progress.areas| ==> AreaOk(progress.areas[i])
  }

  ghost function Perform(w: World, a: Action): Step
    requires Possible(w, a)
  {
    match a
    case Launch(tag, log) => Step(NewLowerHalf(w, tag, log).(alive := true, upper := FRESH), Nothing)
    case MpiCall =>
      var w' := BindWrappers(w);
      Step(w', if !w'.alive then Exited else if w'.upper.lhInfo.Of? then Dispatched(w'.upper.lhInfo.gen) else Astray)
    case MemoryCall(caller, maps) => CallMemory(w, caller, maps)
    case DoCheckpoint(progress) => Report(Handler(w, true, progress))
    case Signal(progress) => Step(Handler(w, false, progress), Nothing)
    case Crash => Step(w.(alive := false), Nothing)
    case Restart(tag, room) =>
      // without its memory back, the saved context has nowhere to resume
      if !w.image.Complete? || !room then Step(NewLowerHalf(w, tag, []), Exited)
      else
        // memory is back as saved and tracked anew, and the context resumes inside checkpointHandler
        var w' := NewLowerHalf(w, tag, w.image.regions).(alive := true, upper := w.image.upper);
        var resumed := AfterContext(w', w.image.inCall, WritesFail);
        if w.image.inCall then Report(resumed) else Step(resumed, Nothing)
  }

  ghost predicate PossibleRun(w: World, run: seq<Action>)
    decreases |run|
  {
    run == [] || (Possible(w, run[0]) && PossibleRun(Perform(w, run[0]).world, run[1..]))
  }

  ghost function After(w: World, run: seq<Action>): World
    requires PossibleRun(w, run)
    decreases |run|
  {
    if run == [] then w else After(Perform(w, run[0]).world, run[1..])
  }

  // ---------------------------------------------------------------- what happened in a run

  /** The binary under which something was first done, if it was. */
  datatype Since = Never | Under(tag: nat)

  /**
   Of the process: whether a wrapper ran since it was launched or restored, under which binary the image was taken
   that it was restored from, and under which it, or the process it was restored from, first called mmap and
   sbrk. And the last three of the process in the image.
   */
  datatype History =
    History(ran: bool, from: Since, mmap: Since, sbrk: Since, saved: Since, savedMmap: Since, savedSbrk: Since)

  const NO_HISTORY: History := History(false, Never, Never, Never, Never, Never, Never)

  function FirstUnder(s: Since, tag: nat): Since {
    if s == Never then Under(tag) else s
  }

  ghost function NextHistory(h: History, w: World, a: Action): History
    requires Possible(w, a)
  {
    match a
    case Launch(_, _) => h.(ran := false, from := Never, mmap := Never, sbrk := Never)
    case Restart(_, room) =>
      if w.image.Complete? && room then h.(ran := false, from := h.saved, mmap := h.savedMmap, sbrk := h.savedSbrk)
      else h
    case MpiCall => h.(ran := true)
    case MemoryCall(Mmap, _) => h.(ran := true, mmap := FirstUnder(h.mmap, w.tag))
    case MemoryCall(Sbrk, _) => h.(ran := true, sbrk := FirstUnder(h.sbrk, w.tag))
    case DoCheckpoint(progress) => if TakesImage(w, a, progress) then Taken(h, w.tag) else h
    case Signal(progress) => if TakesImage(w, a, progress) then Taken(h, w.tag) else h
    case Crash => h
  }

  function Taken(h: History, tag: nat): History {
    h.(saved := Under(tag), savedMmap := h.mmap, savedSbrk := h.sbrk)
  }

  ghost predicate TakesImage(w: World, a: Action, progress: Progress)
    requires Possible(w, a)
  {
    progress.Written? && Perform(w, a).world.image.Complete?
  }

  ghost function HistoryOf(w: World, run: seq<Action>, h: History): History
    requires PossibleRun(w, run)
    decreases |run|
  {
    if run == [] then h else HistoryOf(Perform(w, run[0]).world, run[1..], NextHistory(h, w, run[0]))
  }

  /** The pointer is of the binary that the history says, or still zeroed. */
  predicate PointsAs(p: LhInfo, s: Since) {
    match s
    case Never => p == Zeroed
    case Under(tag) => Leads(p, tag)
  }

  /** How the upper half's records, in the process and in the image, follow from what happened. */
  ghost predicate Follows(w: World, h: History) {
    && (w.addrFile.Describes? ==> w.addrFile.info == Of(w.gen, w.tag))
    && (w.alive ==>
          && (if h.ran then w.upper.lhInfo == Of(w.gen, w.tag)
              else !w.upper.initialized && PointsAs(w.upper.lhInfo, h.from))
          && PointsAs(w.upper.mmapPtr, h.mmap) && PointsAs(w.upper.sbrkPtr, h.sbrk))
    && (w.image.Complete? ==>
          && w.image.upper.state == POST_RESTART
          && h.saved.Under? && PointsAs(w.image.upper.lhInfo, h.saved)
          && PointsAs(w.image.upper.mmapPtr, h.savedMmap) && PointsAs(w.image.upper.sbrkPtr, h.savedSbrk))
  }

  lemma StepFollows(w: World, h: History, a: Action)
    requires Follows(w, h) && Possible(w, a)
    ensures Follows(Perform(w, a).world, NextHistory(h, w, a))
  {
    hide ReachesAll, WrittenRegions, ReportedList, LogOk, ProgressOk;
    if (a.DoCheckpoint? || a.Signal?) && a.progress.Written? {
      WriteFollows(w, h, a);
    } else if a.DoCheckpoint? || a.Signal? {
      RequestFollows(w, h, a);
    }
  }

  lemma RequestFollows(w: World, h: History, a: Action)
    requires Follows(w, h) && Possible(w, a) && (a.DoCheckpoint? || a.Signal?) && !a.progress.Written?
    ensures Follows(Perform(w, a).world, NextHistory(h, w, a))
  {
    hide ReachesAll, WrittenRegions, ReportedList, LogOk, ProgressOk, ImageOf;
  }

  lemma WriteFollows(w: World, h: History, a: Action)
    requires Follows(w, h) && Possible(w, a) && (a.DoCheckpoint? || a.Signal?) && a.progress.Written?
    ensures Follows(Perform(w, a).world, NextHistory(h, w, a))
  {
    hide ReachesAll, WrittenRegions, ReportedList, LogOk, ProgressOk;
  }

  lemma {:induction false} HistoryFollows(w: World, run: seq<Action>, h: History)
    requires Follows(w, h) && PossibleRun(w, run)
    ensures Follows(After(w, run), HistoryOf(w, run, h))
    decreases |run|
  {
    if run != [] {
      StepFollows(w, h, run[0]);
      HistoryFollows(Perform(w, run[0]).world, run[1..], NextHistory(h, w, run[0]));
    }
  }

  /** The list that a checkpoint would follow is the current lower half's. */
  ghost predicate ListKnown(run: seq<Action>)
    requires PossibleRun(NOTHING, run)
  {
    var h := HistoryOf(NOTHING, run, NO_HISTORY);
    h.ran || h.from == Under(After(NOTHING, run).tag)
  }

  /**
   Over every run, signals included: the list pointer that a checkpoint follows leads into the current lower half
   if and only if a wrapper ran since the process was launched or restored, or it was restored from an image
   taken under the same binary.
   */
  lemma ListIsCurrentIffKnown(run: seq<Action>)
    requires PossibleRun(NOTHING, run) && After(NOTHING, run).alive
    ensures Leads(After(NOTHING, run).upper.lhInfo, After(NOTHING, run).tag) <==> ListKnown(run)
  {
    HistoryFollows(NOTHING, run, NO_HISTORY);
  }

  // ---------------------------------------------------------------- runs with application-initiated checkpoints

  predicate OnlyCalls(run: seq<Action>) {
    forall a :: a in run ==> !a.Signal?
  }

  /** What holds at every point where the application runs, and of the files. */
  ghost predicate Sound(w: World, h: History) {
    && Follows(w, h) && LogOk(w.log)
    && (w.alive ==>
          && w.upper.state == RUNNING && w.upper.initialized == h.ran
          && (!h.ran ==> w.addrFile == Describes(Of(w.gen, w.tag))))
    && (w.image.Complete? ==> w.image.inCall && LogOk(w.image.regions))
  }

  /** A checkpoint written now would hold the process. */
  ghost predicate WouldHold(w: World, areas: seq<Area>, needs: seq<Region>) {
    Leads(w.upper.lhInfo, w.tag) && ReachesAll(areas, ReportedList(w.log), needs)
  }

  /** What each step lets the application see, and leaves in the image. */
  ghost predicate SeenRight(w: World, a: Action, s: Step) {
    match a
    case MpiCall => s.seen == Dispatched(w.gen)
    case MemoryCall(caller, maps) =>
      var p := if caller == Mmap then w.upper.mmapPtr else w.upper.sbrkPtr;
      if p == Zeroed || Leads(p, w.tag) then s.seen == Dispatched(w.gen) && s.world.log == w.log + maps
      else s.seen == Astray && !s.world.alive
    case DoCheckpoint(Written(areas, needs)) =>
      && s.seen == Returned(POST_RESUME) && s.world.image != Torn
      && (s.world.image.Complete? <==> WouldHold(w, areas, needs))
    case DoCheckpoint(WritesFail) => s.seen == Returned(POST_RESUME) && s.world.image == Torn
    case DoCheckpoint(DiesWriting) => s.seen == Exited && s.world.image == Torn
    case DoCheckpoint(OpenFails) => s.seen == Returned(RUNNING) && s.world.image == w.image
    case DoCheckpoint(ContextFails) => s.seen == Returned(RUNNING) && s.world.image == Torn
    case Restart(tag, room) =>
      && s.world.gen > w.gen && s.world.image == w.image
      && (if w.image.Complete? && room then s.seen == Returned(POST_RESTART) && s.world.log == w.image.regions
          else s.seen == Exited && !s.world.alive)
    case _ => s.seen == Nothing
  }

  ghost predicate AllSeenRight(w: World, run: seq<Action>)
    requires PossibleRun(w, run)
    decreases |run|
  {
    run == [] || (SeenRight(w, run[0], Perform(w, run[0])) && AllSeenRight(Perform(w, run[0]).world, run[1..]))
  }

  /** Parts of mappable regions, cut at pages, are mappable. */
  lemma {:induction false} WrittenRegionsOk(areas: seq<Area>, tracked: seq<Region>)
    requires LogOk(tracked) && forall i :: 0 <= i < |areas| ==> AreaOk(areas[i])
    ensures LogOk(WrittenRegions(areas, tracked))
  {
    if areas != [] {
      var n := |areas| - 1;
      WrittenRegionsOk(areas[..n], tracked);
      if Picked(areas[n], tracked) {
        var r := tracked[FirstMatch(areas[n], tracked, 0)];
        assert r in tracked;
        CutIsSection(areas[n], r);
      }
    }
  }

  lemma ReportedIsOk(log: seq<Region>)
    requires LogOk(log)
    ensures LogOk(ReportedList(log))
  {
    ReportIsWholeLogIffNotWrapped(log);
  }

  lemma StepKeepsSound(w: World, h: History, a: Action)
    requires Sound(w, h) && Possible(w, a) && !a.Signal?
    ensures Sound(Perform(w, a).world, NextHistory(h, w, a)) && SeenRight(w, a, Perform(w, a))
  {
    hide ReachesAll, WrittenRegions, ReportedList, LogOk, AreaOk;
    StepFollows(w, h, a);
    LogsTogether(w.log, if a.MemoryCall? then a.maps else []);
    if a.DoCheckpoint? && a.progress.Written? {
      ReportedIsOk(w.log);
      WrittenRegionsOk(a.progress.areas, ReportedList(w.log));
    }
  }

  lemma LogsTogether(a: seq<Region>, b: seq<Region>)
    ensures LogOk(a) && LogOk(b) ==> LogOk(a + b)
    ensures LogOk([])
  {
  }

  /**
   Over every run of launches, wrapper calls, application-initiated checkpoints, crashes and restarts: the
   state is RUNNING whenever the application runs, and every complete image stores POST_RESTART; doCheckpoint
   returns POST_RESUME exactly in a process that went through writing, POST_RESTART exactly where a process
   continues from an image, and RUNNING only on early failure; what is written is a complete image exactly if
   the list in use is the current lower half's and reaches all that the process needs; a restart continues
   exactly from a complete image into free pages; every MPI call goes to the lower half that started or
   restored the process; and so does every call of mmap and sbrk whose kept pointer is of its binary.
   */
  lemma {:induction false} RunsAreSound(w: World, run: seq<Action>, h: History)
    requires Sound(w, h) && PossibleRun(w, run) && OnlyCalls(run)
    ensures Sound(After(w, run), HistoryOf(w, run, h)) && AllSeenRight(w, run)
    decreases |run|
  {
    hide Sound, SeenRight, Possible, Perform, NextHistory;
    if run != [] {
      assert run[0] in run && forall a :: a in run[1..] ==> a in run;
      StepKeepsSound(w, h, run[0]);
      RunsAreSound(Perform(w, run[0]).world, run[1..], NextHistory(h, w, run[0]));
    }
  }

  /** So it is from the first launch on. */
  lemma RunsFromNothingAreSound(run: seq<Action>)
    requires PossibleRun(NOTHING, run) && OnlyCalls(run)
    ensures Sound(After(NOTHING, run), HistoryOf(NOTHING, run, NO_HISTORY)) && AllSeenRight(NOTHING, run)
  {
    LogsTogether([], []);
    assert Sound(NOTHING, NO_HISTORY);
    RunsAreSound(NOTHING, run, NO_HISTORY);
  }

  // ---------------------------------------------------------------- all runs

  /** Restored from a signal-initiated image, and no doCheckpoint since. */
  ghost function Stuck(w: World, run: seq<Action>, before: bool): bool
    requires PossibleRun(w, run)
    decreases |run|
  {
    if run == [] then before else Stuck(Perform(w, run[0]).world, run[1..], StuckAfter(w, run[0], before))
  }

  predicate StuckAfter(w: World, a: Action, before: bool) {
    match a
    case Launch(_, _) => false
    case Restart(_, room) => w.image.Complete? && room && !w.image.inCall
    case DoCheckpoint(_) => false
    case _ => before
  }

  /** Images always hold POST_RESTART, and that state is left behind exactly in a stuck process. */
  ghost predicate StateTracks(w: World, stuck: bool) {
    && (w.image.Complete? ==> w.image.upper.state == POST_RESTART)
    && (w.alive ==> (w.upper.state == POST_RESTART <==> stuck))
  }

  /** Signals included: the state of a running application is POST_RESTART if and only if it is stuck. */
  lemma {:induction false} PostRestartIffStuck(w: World, run: seq<Action>, before: bool)
    requires StateTracks(w, before) && PossibleRun(w, run)
    ensures StateTracks(After(w, run), Stuck(w, run, before))
    decreases |run|
  {
    if run != [] {
      StuckStep(w, run[0], before);
      PostRestartIffStuck(Perform(w, run[0]).world, run[1..], StuckAfter(w, run[0], before));
    }
  }

  lemma StuckStep(w: World, a: Action, before: bool)
    requires StateTracks(w, before) && Possible(w, a)
    ensures StateTracks(Perform(w, a).world, StuckAfter(w, a, before))
  {
    hide ReachesAll, WrittenRegions, ReportedList, LogOk, ProgressOk;
  }

  /** The request gets as far as writing everything. */
  predicate WritesAll(a: Action) {
    (a.DoCheckpoint? || a.Signal?) && a.progress.Written?
  }

  /**
   A checkpoint request that gets as far as writing, from a call or a signal, writes an image if and only if the
   process is not stuck; and that image holds the process if and only if besides the list in use is the
   current lower half's, and every address that the process needs is in a written area's first match.
   */
  lemma RequestWritesIffNotStuck(run: seq<Action>, a: Action)
    requires PossibleRun(NOTHING, run) && After(NOTHING, run).alive && WritesAll(a) && ProgressOk(a.progress)
    ensures var w := After(NOTHING, run);
            var s := Perform(w, a);
            && (s.world.image != Torn <==> !Stuck(NOTHING, run, false))
            && (s.world.image.Complete? <==>
                  && !Stuck(NOTHING, run, false) && ListKnown(run)
                  && ReachesAll(a.progress.areas, ReportedList(w.log), a.progress.needs))
            && (s.seen == Returned(POST_RESTART) <==> a.DoCheckpoint? && Stuck(NOTHING, run, false))
  {
    PostRestartIffStuck(NOTHING, run, false);
    ListIsCurrentIffKnown(run);
    hide ReachesAll, WrittenRegions, ReportedList, ListKnown, ProgressOk, Stuck, After, PossibleRun;
  }

  /**
   So it is exactly from such a checkpoint that a process can be restarted, in free pages and under any binary;
   and then it tracks exactly the regions that were written.
   */
  lemma RestartableIff(run: seq<Action>, a: Action, tag: nat)
    requires PossibleRun(NOTHING, run) && After(NOTHING, run).alive && WritesAll(a) && ProgressOk(a.progress)
    ensures var w := After(NOTHING, run);
            var again := Perform(Perform(Perform(w, a).world, Crash).world, Restart(tag, true)).world;
            && (again.alive <==>
                  && !Stuck(NOTHING, run, false) && ListKnown(run)
                  && ReachesAll(a.progress.areas, ReportedList(w.log), a.progress.needs))
            && (again.alive ==> again.log == WrittenRegions(a.progress.areas, ReportedList(w.log)))
  {
    RequestWritesIffNotStuck(run, a);
    PostRestartIffStuck(NOTHING, run, false);
    hide ReachesAll, WrittenRegions, ReportedList, ListKnown, ProgressOk, Stuck, After, PossibleRun;
  }

  /** A checkpoint right after the launch returns POST_RESUME, and cannot be restarted. */
  lemma EarlyCheckpointIsHollow(tag: nat, log: seq<Region>, areas: seq<Area>, needs: seq<Region>)
    requires LogOk(log) && ProgressOk(Written(areas, needs))
    ensures var launched := Perform(NOTHING, Launch(tag, log)).world;
            var s := Perform(launched, DoCheckpoint(Written(areas, needs)));
            && s.seen == Returned(POST_RESUME) && s.world.image == Hollow
            && Perform(Perform(s.world, Crash).world, Restart(tag, true)).seen == Exited
  {
    hide ReachesAll, WrittenRegions, ReportedList, LogOk, ProgressOk;
  }

  // ---------------------------------------------------------------- the image and the memory in it

  lemma {:induction false} WrittenAreSelected(areas: seq<Area>, tracked: seq<Region>)
    requires LogOk(tracked)
    ensures |WrittenRegions(areas, tracked)| == |Selected(areas, tracked)|
    ensures forall i :: 0 <= i < |Selected(areas, tracked)| ==>
              WrittenRegions(areas, tracked)[i] ==
                  Region(Selected(areas, tracked)[i].addr, Selected(areas, tracked)[i].size)
  {
    if areas != [] {
      var n := |areas| - 1;
      WrittenAreSelected(areas[..n], tracked);
      SelectedAppend(areas[..n], tracked, areas[n]);
      assert areas == areas[..n] + [areas[n]];
      hide Selected;
    }
  }

  /** A restored process tracks what the protocol says. */
  lemma WrittenAreRestored(areas: seq<Area>, tracked: seq<Region>, s: Space)
    requires Lists(areas, s) && WholePages(s) && LogOk(tracked)
    ensures RoundTrip.RegionsOf(CheckpointRecords(areas, tracked, s)) == WrittenRegions(areas, tracked)
  {
    RoundTrip.CheckpointRecordsOk(areas, tracked, s);
    WrittenAreSelected(areas, tracked);
    hide Lists, WholePages, LogOk, Selected, CheckpointRecords, WrittenRegions, RoundTrip.SavedFrom,
         RoundTrip.RecordsOk;
  }

  lemma ReachedAreSaved(areas: seq<Area>, tracked: seq<Region>, s: Space, needs: seq<Region>)
    requires Lists(areas, s) && WholePages(s) && LogOk(tracked)
    ensures ReachesAll(areas, tracked, needs) <==>
            forall i, x :: 0 <= i < |needs| && Tracks(needs[i], x) ==> Saved(areas, tracked, x)
  {
    forall x: nat ensures Reaches(areas, tracked, x) <==> Saved(areas, tracked, x) {
      SavedIffPicked(areas, tracked, s, x);
    }
    hide Reaches, Saved, Lists, WholePages, LogOk;
    if forall i, x :: 0 <= i < |needs| && Tracks(needs[i], x) ==> Saved(areas, tracked, x) {
      forall i, x: nat | 0 <= i < |needs| && needs[i].addr <= x < needs[i].addr + needs[i].len
        ensures Reaches(areas, tracked, x)
      {
        assert Tracks(needs[i], x);
      }
    }
  }

  /**
   What `Complete` stands for. An image holds the process if and only if every address that it needs is a saved one;
   then the image of the kernel's listing, restored into free pages, has all of these bytes in place, and
   the new lower half tracks the regions that the protocol hands it.
   */
  lemma CompleteImageBringsProcessBack(areas: seq<Area>, log: seq<Region>, s: Space, needs: seq<Region>,
                                       ctx: seq<Byte>, m: Machine, schedule: seq<Event>)
    requires Lists(areas, s) && WholePages(s) && LogOk(log) && |ctx| == CONTEXT_SIZE
    requires WholePages(m.space) && m.log == [] && m.refusals == [] && Benign(schedule)
    requires LogOk(ReportedList(log)) && forall x :: RoundTrip.OnSavedPage(areas, ReportedList(log), x) ==>
             x !in m.space
    ensures var tracked := ReportedList(log);
            var r := RestoreImage(m, Present(ImageBytes(ctx, CheckpointRecords(areas, tracked, s)), schedule));
            && r.outcome == Done && r.contexts == [ctx] && r.machine.log == WrittenRegions(areas, tracked)
            && (ReachesAll(areas, tracked, needs) <==>
                  forall i, x :: 0 <= i < |needs| && Tracks(needs[i], x) ==> Saved(areas, tracked, x))
            && (ReachesAll(areas, tracked, needs) ==>
                  forall i, x :: 0 <= i < |needs| && Tracks(needs[i], x) ==>
                    x in s && x in r.machine.space && r.machine.space[x] == s[x])
  {
    hide *;
    var tracked := ReportedList(log);
    var recs := CheckpointRecords(areas, tracked, s);
    NothingLogged(m.log);
    RoundTrip.CheckpointRestoreRoundTrip(areas, tracked, s, ctx, m, schedule);
    RoundTrip.SavedPagesFree(areas, tracked, s, m.space);
    RoundTrip.RestoreOfRecords(m, ctx, recs, schedule);
    WrittenAreRestored(areas, tracked, s);
    ReachedAreSaved(areas, tracked, s, needs);
    var t := RestoreImage(m, Present(ImageBytes(ctx, recs), schedule)).machine.space;
    forall x | Saved(areas, tracked, x) ensures x in s && x in t && t[x] == s[x] {
      RoundTrip.RecoveredAt(t, s, areas, tracked, x);
    }
  }

  lemma NothingLogged(log: seq<Region>)
    requires log == []
    ensures LogOk(log)
    ensures forall rest: seq<Region> :: log + rest == rest
  {
  }

  // ---------------------------------------------------------------- wrapper calls over all runs

  /** A request that gets past opening the image and saving the context. */
  predicate Requests(a: Action) {
    (a.DoCheckpoint? || a.Signal?) && !a.progress.OpenFails? && !a.progress.ContextFails?
  }

  /** Asked for a checkpoint while it held POST_RESTART and had already used up addr.bin, in this process's life. */
  ghost function Severed(w: World, run: seq<Action>, before: bool): bool
    requires PossibleRun(w, run)
    decreases |run|
  {
    if run == [] then before else Severed(Perform(w, run[0]).world, run[1..], SeveredBy(w, run[0], before))
  }

  predicate SeveredBy(w: World, a: Action, before: bool) {
    !a.Launch? && !a.Restart? && (before || (Requests(a) && w.upper.state == POST_RESTART && w.upper.initialized))
  }

  /** Where the record of the current lower half is, unless the process is cut off from it. */
  ghost predicate BindingTracks(w: World, severed: bool) {
    && (w.image.Complete? ==> w.image.upper.state == POST_RESTART)
    && (w.alive ==>
          if severed then !w.upper.initialized && w.addrFile == Unlinked
          else if w.upper.initialized then w.upper.lhInfo == Of(w.gen, w.tag) && w.addrFile == Unlinked
          else w.addrFile == Describes(Of(w.gen, w.tag)))
  }

  lemma StepKeepsBinding(w: World, a: Action, before: bool)
    requires BindingTracks(w, before) && Possible(w, a)
    ensures BindingTracks(Perform(w, a).world, SeveredBy(w, a, before))
  {
    hide ReachesAll, WrittenRegions, ReportedList, LogOk, ProgressOk;
  }

  lemma {:induction false} BindingOverRuns(w: World, run: seq<Action>, before: bool)
    requires BindingTracks(w, before) && PossibleRun(w, run)
    ensures BindingTracks(After(w, run), Severed(w, run, before))
    decreases |run|
  {
    if run != [] {
      StepKeepsBinding(w, run[0], before);
      BindingOverRuns(Perform(w, run[0]).world, run[1..], SeveredBy(w, run[0], before));
    }
  }

  /**
   Over every run, signals included, an MPI call goes to the lower half that started or restored the process if
   and only if the process is not severed; a severed one stops there.
   */
  lemma MpiCallReachesIff(run: seq<Action>)
    requires PossibleRun(NOTHING, run) && After(NOTHING, run).alive
    ensures var w := After(NOTHING, run);
            Perform(w, MpiCall).seen == if Severed(NOTHING, run, false) then Exited else Dispatched(w.gen)
  {
    BindingOverRuns(NOTHING, run, false);
  }

  /**
   Over every run, signals included, a call of mmap or sbrk goes there, and what it maps is tracked there, if and
   only if the process is not severed and its first such call, counted through restarts, was made under the binary
   that runs now. Otherwise a severed process stops, and any other jumps to an address in another binary.
   */
  lemma MemoryCallReachesIff(run: seq<Action>, caller: Caller, maps: seq<Region>)
    requires PossibleRun(NOTHING, run) && Possible(After(NOTHING, run), MemoryCall(caller, maps))
    ensures var w, h := After(NOTHING, run), HistoryOf(NOTHING, run, NO_HISTORY);
            var first := if caller == Mmap then h.mmap else h.sbrk;
            var s := Perform(w, MemoryCall(caller, maps));
            if Severed(NOTHING, run, false) then s.seen == Exited
            else if first == Never || first == Under(w.tag) then
              s.seen == Dispatched(w.gen) && s.world.log == w.log + maps
            else s.seen == Astray
  {
    BindingOverRuns(NOTHING, run, false);
    HistoryFollows(NOTHING, run, NO_HISTORY);
  }

  /**
   What follows from asking a stuck process for a checkpoint once it has used a wrapper: the old image is gone, none
   is written, POST_RESTART is returned, and the next wrapper call of any kind stops the process, for addr.bin has
   been used up.
   */
  lemma StuckCheckpointIsFatal(w: World, progress: Progress, caller: Caller)
    requires w.alive && w.upper.state == POST_RESTART && w.addrFile == Unlinked
    requires Requests(DoCheckpoint(progress)) && ProgressOk(progress)
    ensures var s := Perform(w, DoCheckpoint(progress));
            && s.seen == Returned(POST_RESTART) && s.world.image == Torn && s.world.alive
            && Perform(s.world, MpiCall).seen == Exited
            && CallMemory(s.world, caller, []).seen == Exited
  {
  }

  // ---------------------------------------------------------------- concrete runs

  const PAGE: Region := Region(0x10000, PAGE_SIZE)
  const NEXT_PAGE: Region := Region(0x11000, PAGE_SIZE)

  /** A readable page without a name. */
  const PAGE_AREA: Area :=
    AreaRecord(0x10000, 0x11000, PAGE_SIZE, 0, 1, 0, 0, 0, 0, 0, Zeros(FILENAMESIZE), Zeros(PAD_SIZE))

  /** A checkpoint of a process that needs the page, and has it mapped. */
  const PAGE_WRITTEN: Progress := Written([PAGE_AREA], [PAGE])

  function Mappings(n: nat): seq<Action> {
    if n == 0 then [] else [MemoryCall(Mmap, [NEXT_PAGE])] + Mappings(n - 1)
  }

  lemma PageIsPicked()
    ensures ProgressOk(PAGE_WRITTEN) && !SkipRegion(PAGE_AREA)
    ensures LogOk([PAGE]) && LogOk([NEXT_PAGE]) && Matches(PAGE, PAGE_AREA) && !Matches(NEXT_PAGE, PAGE_AREA)
  {
    assert ProcMaps.CString(PAGE_AREA.name) == [];
  }

  /** While the page's region comes first in the list, the checkpoint holds it; without it, nothing. */
  lemma PageIsHeldIffListed(tracked: seq<Region>)
    requires forall r :: r in tracked ==> r == PAGE || r == NEXT_PAGE
    requires PAGE in tracked ==> tracked[0] == PAGE
    ensures ReachesAll([PAGE_AREA], tracked, [PAGE]) <==> PAGE in tracked
    ensures WrittenRegions([PAGE_AREA], [PAGE]) == [PAGE]
  {
    PageIsPicked();
    var k := FirstMatch(PAGE_AREA, tracked, 0);
    if k < |tracked| {
      assert tracked[k] in tracked;
    }
    assert Picked([PAGE_AREA][0], tracked) <==> PAGE in tracked;
    if PAGE in tracked {
      assert forall x: nat | PAGE.addr <= x < PAGE.addr + PAGE.len :: Reaches([PAGE_AREA], tracked, x);
    } else {
      assert !Reaches([PAGE_AREA], tracked, PAGE.addr);
    }
    assert WrittenRegions([], [PAGE]) == [];
  }

  lemma RunOf(w: World, run: seq<Action>)
    requires run != [] && Possible(w, run[0]) && PossibleRun(Perform(w, run[0]).world, run[1..])
    ensures PossibleRun(w, run) && After(w, run) == After(Perform(w, run[0]).world, run[1..])
  {
  }

  lemma EmptyRun(w: World)
    ensures PossibleRun(w, []) && After(w, []) == w
  {
  }

  /** Bound to the running lower half, which has tracked the page and n other mappings. */
  ghost predicate HasMapped(w: World, n: nat) {
    && w.alive && w.upper.state == RUNNING && w.image == NoImage
    && |w.log| == n + 1 && w.log[0] == PAGE && (forall i :: 1 <= i <= n ==> w.log[i] == NEXT_PAGE)
    && (if n == 0 then w.upper == FRESH && w.addrFile == Describes(Of(w.gen, w.tag))
        else w.upper.initialized && w.upper.lhInfo == w.upper.mmapPtr == Of(w.gen, w.tag))
  }

  lemma {:induction false} MappingsAreTracked(w: World, k: nat, n: nat)
    requires HasMapped(w, k)
    ensures PossibleRun(w, Mappings(n)) && HasMapped(After(w, Mappings(n)), k + n)
    ensures After(w, Mappings(n)).tag == w.tag
    decreases n
  {
    if n > 0 {
      PageIsPicked();
      var call := MemoryCall(Mmap, [NEXT_PAGE]);
      MappingsAreTracked(Perform(w, call).world, k + 1, n - 1);
      assert Mappings(n)[1..] == Mappings(n - 1);
      RunOf(w, Mappings(n));
    }
  }

  /** After mappings by the application, the page is in the reported list until the array wraps, and first there. */
  lemma PageIsListedUntilWrapped(w: World, n: nat)
    requires HasMapped(w, n)
    ensures ReachesAll([PAGE_AREA], ReportedList(w.log), [PAGE]) <==> n + 1 < 1000
  {
    var tracked := ReportedList(w.log);
    assert PAGE in tracked <==> n + 1 < 1000;
    PageIsHeldIffListed(tracked);
  }

  lemma PageIsReportedUntilWrapped(w: World, n: nat)
    requires HasMapped(w, n) && n > 0
    ensures ProgressOk(PAGE_WRITTEN)
    ensures var s := Perform(w, DoCheckpoint(PAGE_WRITTEN));
            && s.seen == Returned(POST_RESUME)
            && Perform(Perform(s.world, Crash).world, Restart(w.tag, true)).seen
               == if n + 1 < 1000 then Returned(POST_RESTART) else Exited
  {
    PageIsPicked();
    PageIsListedUntilWrapped(w, n);
    hide ReachesAll, WrittenRegions, ProgressOk, LogOk, ReportedList;
  }

  /**
   A launch that maps its page, and n more mappings by the application, then a checkpoint: it always returns
   POST_RESUME, but the process can be restarted if and only if fewer than 1000 mappings have been tracked.
   */
  lemma ThousandthMappingLosesImage(tag: nat, n: nat)
    requires n > 0
    ensures var run := [Launch(tag, [PAGE])] + Mappings(n);
            PossibleRun(NOTHING, run) && ProgressOk(PAGE_WRITTEN)
            && var w := After(NOTHING, run);
               w.alive && w.tag == tag
               && var s := Perform(w, DoCheckpoint(PAGE_WRITTEN));
                  && s.seen == Returned(POST_RESUME)
                  && Perform(Perform(s.world, Crash).world, Restart(tag, true)).seen
                     == if n + 1 < 1000 then Returned(POST_RESTART) else Exited
  {
    PageIsPicked();
    var run := [Launch(tag, [PAGE])] + Mappings(n);
    var launched := Perform(NOTHING, Launch(tag, [PAGE])).world;
    assert run[1..] == Mappings(n);
    MappingsAreTracked(launched, 0, n);
    RunOf(NOTHING, run);
    hide *;
    PageIsReportedUntilWrapped(After(NOTHING, run), n);
  }

  /** Such a run: launch, wrapper call, signal, crash, restart, wrapper call. */
  lemma StuckRunExists(tag: nat)
    ensures var run := [Launch(tag, [PAGE]), MpiCall, Signal(PAGE_WRITTEN), Crash, Restart(tag, true), MpiCall];
            PossibleRun(NOTHING, run) && var w := After(NOTHING, run);
            w.alive && w.upper.state == POST_RESTART && w.addrFile == Unlinked
  {
    PageIsPicked();
    PageIsHeldIffListed([PAGE]);
    hide ReachesAll, WrittenRegions, ProgressOk, LogOk, PossibleRun, After;
    var w1 := Perform(NOTHING, Launch(tag, [PAGE])).world;
    var w2 := Perform(w1, MpiCall).world;
    var w3 := Perform(w2, Signal(PAGE_WRITTEN)).world;
    var w4 := Perform(w3, Crash).world;
    var w5 := Perform(w4, Restart(tag, true)).world;
    EmptyRun(Perform(w5, MpiCall).world);
    RunOf(w5, [MpiCall]);
    RunOf(w4, [Restart(tag, true), MpiCall]);
    RunOf(w3, [Crash, Restart(tag, true), MpiCall]);
    RunOf(w2, [Signal(PAGE_WRITTEN), Crash, Restart(tag, true), MpiCall]);
    RunOf(w1, [MpiCall, Signal(PAGE_WRITTEN), Crash, Restart(tag, true), MpiCall]);
    RunOf(NOTHING, [Launch(tag, [PAGE]), MpiCall, Signal(PAGE_WRITTEN), Crash, Restart(tag, true), MpiCall]);
  }

  /** A launched process calls sbrk. */
  lemma SbrkAfterLaunch(tag: nat)
    ensures LogOk([PAGE]) && LogOk([])
    ensures var w := Perform(NOTHING, Launch(tag, [PAGE])).world;
            w.alive && Perform(w, MemoryCall(Sbrk, [])).world
                       == World(true, Upper(RUNNING, true, Of(1, tag), Zeroed, Of(1, tag)), 1, tag, [PAGE], Unlinked,
                                NoImage)
  {
    PageIsPicked();
    NothingLogged([]);
    assert [PAGE] + [] == [PAGE];
    hide LogOk;
  }

  lemma SaveAfterSbrk(w: World, u: Upper)
    requires w.alive && w.upper == u && u.state == RUNNING && u.lhInfo == Of(w.gen, w.tag) && w.log == [PAGE]
    ensures ProgressOk(PAGE_WRITTEN)
    ensures Perform(w, DoCheckpoint(PAGE_WRITTEN)).world ==
            w.(image := Complete(u.(state := POST_RESTART), true, [PAGE]))
  {
    PageIsPicked();
    PageIsHeldIffListed([PAGE]);
    assert ReportedList([PAGE]) == [PAGE];
    hide ReachesAll, WrittenRegions, ProgressOk, LogOk, ReportedList;
  }

  /** A process that has called sbrk, and no mmap, and has been saved. */
  lemma SavedAfterSbrk(tag: nat)
    ensures var run := [Launch(tag, [PAGE]), MemoryCall(Sbrk, []), DoCheckpoint(PAGE_WRITTEN), Crash];
            PossibleRun(NOTHING, run) && var w := After(NOTHING, run);
            !w.alive && w.gen == 1
            && w.image == Complete(Upper(POST_RESTART, true, Of(1, tag), Zeroed, Of(1, tag)), true, [PAGE])
  {
    hide AfterContext, CallMemory, Report, ImageOf, ProgressOk, LogOk;
    SbrkAfterLaunch(tag);
    var w1 := Perform(NOTHING, Launch(tag, [PAGE])).world;
    var w2 := Perform(w1, MemoryCall(Sbrk, [])).world;
    SaveAfterSbrk(w2, w2.upper);
    var w3 := Perform(w2, DoCheckpoint(PAGE_WRITTEN)).world;
    RunOf(w3, [Crash]);
    RunOf(w2, [DoCheckpoint(PAGE_WRITTEN), Crash]);
    RunOf(w1, [MemoryCall(Sbrk, []), DoCheckpoint(PAGE_WRITTEN), Crash]);
    RunOf(NOTHING, [Launch(tag, [PAGE]), MemoryCall(Sbrk, []), DoCheckpoint(PAGE_WRITTEN), Crash]);
  }

  lemma RestoredAfterSbrk(w: World, tag: nat, other: nat)
    requires !w.alive && w.gen == 1
    requires w.image == Complete(Upper(POST_RESTART, true, Of(1, tag), Zeroed, Of(1, tag)), true, [PAGE])
    ensures Perform(w, Restart(other, true)).world
            == World(true, Upper(RUNNING, false, Of(1, tag), Zeroed, Of(1, tag)), 2, other, [PAGE],
                     Describes(Of(2, other)), w.image)
  {
  }

  lemma CallsAfterSbrk(w: World, tag: nat)
    requires w == World(true, Upper(RUNNING, false, Of(1, tag), Zeroed, Of(1, tag)), 2, w.tag, [PAGE],
                        Describes(Of(2, w.tag)), w.image)
    ensures ProgressOk(PAGE_WRITTEN) && LogOk([])
    ensures CallMemory(w, Sbrk, []).seen == if w.tag == tag then Dispatched(2) else Astray
    ensures var image := Perform(w, DoCheckpoint(PAGE_WRITTEN)).world.image;
            if w.tag == tag then image.Complete? else image == Stale
  {
    PageIsPicked();
    PageIsHeldIffListed([PAGE]);
    assert ReportedList([PAGE]) == [PAGE];
    hide ReachesAll, WrittenRegions, ProgressOk, LogOk, ReportedList;
  }

  /**
   That process restored by a lower half of the same or of another binary. Under another its next sbrk goes astray,
   and a checkpoint before any wrapper call follows a stale pointer; under the same one both work.
   */
  lemma OldAddressesNeedSameBinary(tag: nat, other: nat)
    ensures var run := [Launch(tag, [PAGE]), MemoryCall(Sbrk, []), DoCheckpoint(PAGE_WRITTEN), Crash];
            PossibleRun(NOTHING, run) && !After(NOTHING, run).alive && ProgressOk(PAGE_WRITTEN) && LogOk([])
            && var w := Perform(After(NOTHING, run), Restart(other, true)).world;
               w.alive
               && Perform(w, MemoryCall(Sbrk, [])).seen == (if other == tag then Dispatched(2) else Astray)
               && var image := Perform(w, DoCheckpoint(PAGE_WRITTEN)).world.image;
                  if other == tag then image.Complete? else image == Stale
  {
    hide PossibleRun, After, ReachesAll, WrittenRegions, ProgressOk, LogOk, AfterContext, CallMemory, Report, ImageOf;
    PageIsPicked();
    SavedAfterSbrk(tag);
    var saved := After(NOTHING, [Launch(tag, [PAGE]), MemoryCall(Sbrk, []), DoCheckpoint(PAGE_WRITTEN), Crash]);
    RestoredAfterSbrk(saved, tag, other);
    CallsAfterSbrk(Perform(saved, Restart(other, true)).world, tag);
  }

  // ---------------------------------------------------------------- the code, as a program

  /** The files that outlive a process. */
  class Files {
    var addrFile: AddrFile
    var image: Image

    constructor ()
      ensures addrFile == Unlinked && image == NoImage
    {
      addrFile, image := Unlinked, NoImage;
    }
  }

  /** One process: the upper half's static variables, over a lower half of generation `gen` and its tracking. */
  class Process {
    const files: Files
    const gen: nat
    const tag: nat
    var alive: bool
    var state: CkptState
    var initialized: bool
    var lhInfo: LhInfo
    var mmapPtr: LhInfo
    var sbrkPtr: LhInfo
    var log: seq<Region>

    ghost function View(): World
      reads this, files
    {
      World(alive, Upper(state, initialized, lhInfo, mmapPtr, sbrkPtr), gen, tag, log, files.addrFile, files.image)
    }

    /** A launched process: the lower half has written addr.bin, the upper half's variables are zeroed. */
    constructor Launched(files: Files, gen: nat, tag: nat, log: seq<Region>)
      requires files.addrFile == Describes(Of(gen, tag))
      ensures this.files == files && this.gen == gen && this.tag == tag
      ensures View() == World(true, FRESH, gen, tag, log, files.addrFile, files.image)
    {
      this.files, this.gen, this.tag, this.log := files, gen, tag, log;
      alive, state, initialized, lhInfo, mmapPtr, sbrkPtr := true, RUNNING, false, Zeroed, Zeroed, Zeroed;
    }

    /** A restored process: memory, these variables included, is what the image holds. */
    constructor Restored(files: Files, gen: nat, tag: nat)
      requires files.addrFile == Describes(Of(gen, tag)) && files.image.Complete?
      ensures this.files == files && this.gen == gen && this.tag == tag
      ensures View() == World(true, files.image.upper, gen, tag, files.image.regions, files.addrFile, files.image)
    {
      this.files, this.gen, this.tag := files, gen, tag;
      var u := files.image.upper;
      alive, log := true, files.image.regions;
      state, initialized, lhInfo, mmapPtr, sbrkPtr := u.state, u.initialized, u.lhInfo, u.mmapPtr, u.sbrkPtr;
    }

    /** initialize_wrappers: reads addr.bin once and unlinks it; exits if it is not there. */
    method InitializeWrappers()
      requires alive
      modifies this, files
      ensures View() == BindWrappers(old(View()))
    {
      if !initialized {
        if files.addrFile == Unlinked {
          alive := false;
          return;
        }
        lhInfo := files.addrFile.info;
        files.addrFile := Unlinked;
        initialized := true;
      }
    }

    method ResetWrappers()
      modifies this`initialized
      ensures View() == old(View()).(upper := UnbindWrappers(old(View()).upper))
    {
      initialized := false;
    }

    /** An MPI function: binds if needed and jumps into the lower half that lhInfo names. */
    method MpiWrapper() returns (seen: Observation)
      requires alive
      modifies this, files
      ensures Step(View(), seen) == Perform(old(View()), MpiCall)
    {
      InitializeWrappers();
      seen := if !alive then Exited else if lhInfo.Of? then Dispatched(lhInfo.gen) else Astray;
    }

    /** mmap and sbrk: bind if needed, and jump to the address that the wrapper has kept since its first call. */
    method MemoryWrapper(caller: Caller, maps: seq<Region>) returns (seen: Observation)
      requires alive
      modifies this, files
      ensures Step(View(), seen) == CallMemory(old(View()), caller, maps)
    {
      InitializeWrappers();
      if !alive {
        return Exited;
      }
      var target;
      if caller == Mmap {
        if mmapPtr == Zeroed {
          mmapPtr := lhInfo;
        }
        target := mmapPtr;
      } else {
        if sbrkPtr == Zeroed {
          sbrkPtr := lhInfo;
        }
        target := sbrkPtr;
      }
      if Leads(target, tag) {
        log := log + maps;
        seen := Dispatched(gen);
      } else {
        alive := false;
        seen := Astray;
      }
    }

    /** checkpointHandler from where getcontext returns. */
    method AfterGetcontext(inCall: bool, progress: Progress)
      requires alive
      modifies this, files
      ensures View() == AfterContext(old(View()), inCall, progress)
    {
      hide ReachesAll, WrittenRegions, ReportedList;
      if state == RUNNING || state == POST_RESUME {
        state := POST_RESTART;
        files.image := Torn;
        if progress == DiesWriting {
          alive := false;
          return;
        }
        if progress.Written? {
          var tracked := ReportedList(log);
          files.image := if lhInfo == Zeroed then Hollow
                         else if !Leads(lhInfo, tag) then Stale
                         else if !ReachesAll(progress.areas, tracked, progress.needs) then Lacking
                         else Complete(Upper(state, initialized, lhInfo, mmapPtr, sbrkPtr), inCall,
                                       WrittenRegions(progress.areas, tracked));
        }
        state := POST_RESUME;
      } else if state == POST_RESTART {
        ResetWrappers();
      }
    }

    method CheckpointHandler(inCall: bool, progress: Progress)
      requires alive
      modifies this, files
      ensures View() == Handler(old(View()), inCall, progress)
    {
      if progress == OpenFails {
        return;
      }
      files.image := Torn;
      if progress == ContextFails {
        return;
      }
      AfterGetcontext(inCall, progress);
    }

    /** doCheckpoint, and its end reached from a restored context. */
    method DoCheckpoint(progress: Progress) returns (seen: Observation)
      requires alive && ProgressOk(progress)
      modifies this, files
      ensures Step(View(), seen) == Perform(old(View()), Action.DoCheckpoint(progress))
    {
      CheckpointHandler(true, progress);
      seen := ReportState();
    }

    method ReportState() returns (seen: Observation)
      modifies this`state
      ensures Step(View(), seen) == Report(old(View()))
    {
      if !alive {
        return Exited;
      }
      var tempState := state;
      if tempState == POST_RESTART || tempState == POST_RESUME {
        state := RUNNING;
      }
      seen := Returned(tempState);
    }
  }

  /**
   kernel-loader --restore: a new lower half announces itself, memory is restored and tracked anew, and the context
   resumes; from an image without the process's memory, or without room for it, there is no process.
   */
  method RestoreProcess(files: Files, gen: nat, tag: nat, room: bool, ghost w: World)
      returns (p: Process?, seen: Observation)
    requires gen == w.gen && files.addrFile == w.addrFile && files.image == w.image && Possible(w, Restart(tag, room))
    modifies files
    ensures seen == Perform(w, Restart(tag, room)).seen && (p != null <==> Perform(w, Restart(tag, room)).world.alive)
    ensures p == null ==> files.addrFile == Describes(Of(gen + 1, tag)) && files.image == w.image
    ensures p != null ==> fresh(p) && p.files == files && p.View() == Perform(w, Restart(tag, room)).world
  {
    hide ReachesAll, WrittenRegions, ReportedList;
    files.addrFile := Describes(Of(gen + 1, tag));
    if !files.image.Complete? || !room {
      return null, Exited;
    }
    var q := new Process.Restored(files, gen + 1, tag);
    var inCall := files.image.inCall;
    q.AfterGetcontext(inCall, WritesFail);
    seen := Nothing;
    if inCall {
      seen := q.ReportState();
    }
    p := if q.alive then q else null;
  }
}

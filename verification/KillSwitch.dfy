/**
 The halt every order path obeys: skopaq/execution/kill_switch.py, for processes that share one halt
 file and one flag row. Times are milliseconds of one monotonic clock.
*/
module KillSwitch {
  import opened Wrappers

  const CACHE_MS: int := 5000

  datatype Source = FromEnv | FromFile | FromFlag | Nowhere

  datatype HaltStatus = HaltStatus(halted: bool, source: Source)

  /** What one look at the sources finds. The flag row may be unset, cleared or unreadable: all three
      leave trading active on their own. */
  datatype Sources = Sources(envHalted: Option<bool>, filePresent: bool, flagHalted: bool)

  /** The first source that halts, in the order they are asked; without a configuration (`None`) only
      the file is. */
  function Verdict(s: Sources): HaltStatus {
    if s.envHalted == Some(true) then HaltStatus(true, FromEnv)
    else if s.filePresent then HaltStatus(true, FromFile)
    else if s.envHalted.Some? && s.flagHalted then HaltStatus(true, FromFlag)
    else HaltStatus(false, Nowhere)
  }

  /** The halt file, shared by every process on the volume. */
  class HaltFile {
    var present: bool

    constructor ()
      ensures !present
    {
      present := false;
    }
  }

  /** One process: the module's global cache. */
  class Process {
    const file: HaltFile
    var cache: Option<(int, HaltStatus)>

    constructor (file: HaltFile)
      ensures this.file == file && cache == None
    {
      this.file := file;
      cache := None;
    }

    predicate Fresh(now: int)
      reads this
    {
      cache.Some? && now - cache.value.0 < CACHE_MS
    }

    /** `status`: the cached answer while it is fresh, else a new look, stamped when it is done. */
    method Status(useCache: bool, now: int, envHalted: Option<bool>, flagHalted: bool, stamp: int)
      returns (s: HaltStatus)
      modifies this
      ensures old(useCache && Fresh(now)) ==> s == old(cache).value.1 && cache == old(cache)
      ensures !old(useCache && Fresh(now)) ==>
        s == Verdict(Sources(envHalted, file.present, flagHalted)) && cache == Some((stamp, s))
      ensures useCache && old(cache).Some? && now - old(cache).value.0 < 5000 ==> s == old(cache).value.1
      ensures !useCache || old(cache).None? || now - old(cache).value.0 >= 5000 ==>
        && (s.halted <==> envHalted == Some(true) || file.present || (envHalted.Some? && flagHalted))
        && (s.source == FromEnv <==> envHalted == Some(true))
        && (s.source == FromFile <==> envHalted != Some(true) && file.present)
        && (s.source == Nowhere <==> !s.halted)
    {
      if useCache && cache.Some? && now - cache.value.0 < CACHE_MS {
        return cache.value.1;
      }
      s := HaltStatus(false, Nowhere);
      if envHalted.Some? && envHalted.value {
        s := HaltStatus(true, FromEnv);
      } else if file.present {
        s := HaltStatus(true, FromFile);
      } else if envHalted.Some? && flagHalted {
        s := HaltStatus(true, FromFlag);
      }
      cache := Some((stamp, s));
    }

    /** `halt`: writes what it can, drops the cache, and fails when it could write nothing. */
    method Halt(fileWritable: bool, flagWritable: bool) returns (written: Result<nat, string>)
      modifies this, file
      ensures file.present == (old(file.present) || fileWritable) && cache == None
      ensures written.Failure? <==> !fileWritable && !flagWritable
    {
      var places := 0;
      if fileWritable {
        file.present := true;
        places := places + 1;
      }
      if flagWritable {
        places := places + 1;
      }
      cache := None;
      if places == 0 {
        return Failure("Halt not recorded");
      }
      return Success(places);
    }

    /** `resume`: clears the file; the environment variable is not its to clear. A file that cannot be
        removed makes it raise, with the halt and the cache as they were. */
    method Resume(removable: bool) returns (cleared: Result<nat, string>)
      modifies this, file
      ensures cleared.Failure? <==> old(file.present) && !removable
      ensures cleared.Failure? ==> file.present && cache == old(cache)
      ensures cleared.Success? ==> !file.present && cache == None
    {
      var places := 0;
      if file.present {
        if !removable {
          return Failure("Halt file not removed");
        }
        file.present := false;
        places := 1;
      }
      cache := None;
      return Success(places);
    }
  }

  // ---------------------------------------------------------------- many processes at once

  /** A cached answer: stamped when the look was finished, `readAt` when it saw the file. */
  datatype Cached = Cached(stamp: int, readAt: int, halted: bool)

  /** Where a process is: between calls, past the file but not done with the flag row, or inside
      `halt` or `resume` after it touched the file. */
  datatype Pc = Ready | Looking(readAt: int, sawHalt: bool) | Halting | Resuming

  datatype Proc = Proc(cache: Option<Cached>, pc: Pc)

  /** `since`: from when on the file has been present without a break. */
  datatype World = World(now: int, since: Option<int>, procs: map<int, Proc>)

  function FilePresent(w: World): bool { w.since.Some? }

  datatype Step =
    | Tick(ms: nat)
    | BeginLook(p: int, envHalted: bool)
    | FinishLook(p: int, flagHalted: bool)
    | HaltFileStep(p: int, written: bool)
    | HaltDone(p: int)
    | ResumeFileStep(p: int)
    | ResumeDone(p: int)

  ghost predicate Enabled(w: World, s: Step) {
    match s
    case Tick(_) => true
    case BeginLook(p, _) => p in w.procs && w.procs[p].pc == Ready
    case FinishLook(p, _) => p in w.procs && w.procs[p].pc.Looking?
    case HaltFileStep(p, _) => p in w.procs && w.procs[p].pc == Ready
    case HaltDone(p) => p in w.procs && w.procs[p].pc == Halting
    case ResumeFileStep(p) => p in w.procs && w.procs[p].pc == Ready
    case ResumeDone(p) => p in w.procs && w.procs[p].pc == Resuming
  }

  ghost function Next(w: World, s: Step): World
    requires Enabled(w, s)
  {
    match s
    case Tick(ms) => w.(now := w.now + ms)
    case BeginLook(p, env) =>
      w.(procs := w.procs[p := w.procs[p].(pc := Looking(w.now, env || FilePresent(w)))])
    case FinishLook(p, flag) =>
      var look := w.procs[p].pc;
      w.(procs := w.procs[p := Proc(Some(Cached(w.now, look.readAt, look.sawHalt || flag)), Ready)])
    case HaltFileStep(p, written) =>
      w.(since := if written && w.since.None? then Some(w.now) else w.since,
         procs := w.procs[p := w.procs[p].(pc := Halting)])
    case HaltDone(p) => w.(procs := w.procs[p := Proc(None, Ready)])
    case ResumeFileStep(p) => w.(since := None, procs := w.procs[p := w.procs[p].(pc := Resuming)])
    case ResumeDone(p) => w.(procs := w.procs[p := Proc(None, Ready)])
  }

  /** The process would answer "trading is active" from its cache now. */
  ghost predicate ServesActive(w: World, p: int) {
    p in w.procs && w.procs[p].cache.Some?
    && w.now - w.procs[p].cache.value.stamp < CACHE_MS && !w.procs[p].cache.value.halted
  }

  /** Whatever answered "active" saw the file before it was there. */
  ghost predicate Coherent(w: World) {
    && (w.since.Some? ==> w.since.value <= w.now)
    && forall p :: p in w.procs ==>
         && (w.procs[p].cache.Some? ==>
               var c := w.procs[p].cache.value;
               c.readAt <= c.stamp <= w.now &&
               (w.since.Some? && !c.halted ==> c.readAt <= w.since.value))
         && (w.procs[p].pc.Looking? ==>
               var look := w.procs[p].pc;
               look.readAt <= w.now && (w.since.Some? && !look.sawHalt ==> look.readAt <= w.since.value))
  }

  lemma StepKeepsCoherent(w: World, s: Step)
    requires Coherent(w) && Enabled(w, s)
    ensures Coherent(Next(w, s))
  {}

  ghost predicate Run(w: World, steps: seq<Step>)
    decreases |steps|
  {
    steps == [] || (Enabled(w, steps[0]) && Run(Next(w, steps[0]), steps[1..]))
  }

  ghost function End(w: World, steps: seq<Step>): World
    requires Run(w, steps)
    decreases |steps|
  {
    if steps == [] then w else End(Next(w, steps[0]), steps[1..])
  }

  lemma {:induction false} RunKeepsCoherent(w: World, steps: seq<Step>)
    requires Coherent(w) && Run(w, steps)
    ensures Coherent(End(w, steps))
    decreases |steps|
  {
    if steps != [] {
      StepKeepsCoherent(w, steps[0]);
      RunKeepsCoherent(Next(w, steps[0]), steps[1..]);
    }
  }

  /**
   Every process on the file: once it has been halted, "active" is only ever served from a look that
   began before the halt, and for less than five seconds plus the time that look took. With looks of
   at most `look` milliseconds, everyone reports the halt from five seconds plus `look` after it.
  */
  lemma HaltReachesEveryone(w: World, steps: seq<Step>, p: int, look: nat)
    requires Coherent(w) && Run(w, steps)
    requires var end := End(w, steps);
      end.since.Some? && p in end.procs && (end.procs[p].cache.Some? ==>
        end.procs[p].cache.value.stamp - end.procs[p].cache.value.readAt <= look)
    ensures var end := End(w, steps);
      && (ServesActive(end, p) ==> end.procs[p].cache.value.readAt <= end.since.value)
      && (end.now >= end.since.value + look + CACHE_MS ==> !ServesActive(end, p))
  {
    RunKeepsCoherent(w, steps);
  }

  /** The process itself: it holds no "active" answer, and is not about to stamp one, while the file
      is there. */
  ghost predicate KnowsHalt(w: World, p: int) {
    && FilePresent(w) && p in w.procs
    && (w.procs[p].cache.Some? ==> w.procs[p].cache.value.halted)
    && (w.procs[p].pc.Looking? ==> w.procs[p].pc.sawHalt)
  }

  ghost predicate NobodyResumes(steps: seq<Step>) {
    forall i :: 0 <= i < |steps| ==> !steps[i].ResumeFileStep?
  }

  lemma {:induction false} KnowledgeStays(w: World, steps: seq<Step>, p: int)
    requires KnowsHalt(w, p) && Run(w, steps) && NobodyResumes(steps)
    ensures KnowsHalt(End(w, steps), p)
    decreases |steps|
  {
    if steps != [] {
      assert !steps[0].ResumeFileStep?;
      forall i | 0 <= i < |steps[1..]| ensures !steps[1..][i].ResumeFileStep? {
        assert steps[1..][i] == steps[i + 1];
      }
      KnowledgeStays(Next(w, steps[0]), steps[1..], p);
    }
  }

  /**
   A process whose own `halt` wrote the file never serves "active" again, from the moment the call
   returns until somebody resumes, whatever every process does meanwhile.
  */
  lemma OwnHaltHoldsUntilResume(w: World, p: int, steps: seq<Step>)
    requires FilePresent(w) && Enabled(w, HaltDone(p))
    requires Run(Next(w, HaltDone(p)), steps) && NobodyResumes(steps)
    ensures !ServesActive(End(Next(w, HaltDone(p)), steps), p)
  {
    KnowledgeStays(Next(w, HaltDone(p)), steps, p);
  }

  /** Whatever `p` holds, or is about to stamp, was read at `t` or later. */
  ghost predicate ReadSince(w: World, p: int, t: int) {
    && t <= w.now && p in w.procs
    && (w.procs[p].cache.Some? ==> w.procs[p].cache.value.readAt >= t)
    && (w.procs[p].pc.Looking? ==> w.procs[p].pc.readAt >= t)
  }

  lemma {:induction false} ReadSinceStays(w: World, steps: seq<Step>, p: int, t: int)
    requires ReadSince(w, p, t) && Run(w, steps)
    ensures ReadSince(End(w, steps), p, t)
    decreases |steps|
  {
    if steps != [] {
      ReadSinceStays(Next(w, steps[0]), steps[1..], p, t);
    }
  }

  /**
   A process that has halted or resumed never again answers from a look begun before that call was
   over, whatever every process does afterwards: what it cached before is gone.
  */
  lemma OwnCallForgetsOldLooks(w: World, p: int, done: Step, steps: seq<Step>)
    requires done == HaltDone(p) || done == ResumeDone(p)
    requires Enabled(w, done) && Run(Next(w, done), steps)
    ensures var end := End(Next(w, done), steps);
      p in end.procs && (end.procs[p].cache.Some? ==> end.procs[p].cache.value.readAt >= w.now)
  {
    ReadSinceStays(Next(w, done), steps, p, w.now);
  }

  /** `status` in the world of many processes: one look, however long it takes and whatever others do
      to the flag meanwhile, caches the verdict on the sources it saw, stamped when it is done. */
  lemma LookCachesVerdict(w: World, p: int, env: bool, ms: nat, flag: bool)
    requires Enabled(w, BeginLook(p, env))
    ensures var steps := [BeginLook(p, env), Tick(ms), FinishLook(p, flag)];
      && Run(w, steps) && p in End(w, steps).procs
      && End(w, steps).procs[p].cache == Some(Cached(w.now + ms, w.now,
                                                    Verdict(Sources(Some(env), FilePresent(w), flag)).halted))
  {
    var s := [BeginLook(p, env), Tick(ms), FinishLook(p, flag)];
    var w1 := Next(w, s[0]);
    var w2 := Next(w1, s[1]);
    assert s[1..][1..][1..] == [];
    FirstStep(w2, s[1..][1..]);
    FirstStep(w1, s[1..]);
    FirstStep(w, s);
  }

  /** The run that keeps "active" longest: the look began just before the halt and took `look`. */
  function SlowRun(look: nat): seq<Step> {
    [BeginLook(1, false), HaltFileStep(2, true), HaltDone(2), Tick(look), FinishLook(1, false), Tick(CACHE_MS - 1)]
  }

  ghost function TwoProcesses(): World {
    World(0, None, map[1 := Proc(None, Ready), 2 := Proc(None, Ready)])
  }

  /** A look is stamped when it ends, so it stretches the five seconds by the time it took. */
  lemma SlowLookOutlivesTheCache(look: nat)
    ensures var w, steps := TwoProcesses(), SlowRun(look);
      && Coherent(w) && Run(w, steps)
      && var end := End(w, steps);
         && end.since == Some(0) && end.now == look + CACHE_MS - 1 && ServesActive(end, 1)
         && end.procs[1].cache.value.stamp - end.procs[1].cache.value.readAt == look
  {
    var w0 := TwoProcesses();
    var s := SlowRun(look);
    var w1 := Next(w0, s[0]);
    var w2 := Next(w1, s[1]);
    var w3 := Next(w2, s[2]);
    var w4 := Next(w3, s[3]);
    var w5 := Next(w4, s[4]);
    var w6 := Next(w5, s[5]);
    assert s[1..][1..][1..][1..][1..][1..] == [];
    FirstStep(w5, s[1..][1..][1..][1..][1..]);
    FirstStep(w4, s[1..][1..][1..][1..]);
    FirstStep(w3, s[1..][1..][1..]);
    FirstStep(w2, s[1..][1..]);
    FirstStep(w1, s[1..]);
    FirstStep(w0, s);
  }

  /** The answer `p` holds in `w` took at most `look` to find. */
  ghost predicate LookedWithin(w: World, p: int, look: nat) {
    p in w.procs && w.procs[p].cache.Some? ==>
      w.procs[p].cache.value.stamp - w.procs[p].cache.value.readAt <= look
  }

  /** In no run, with looks of at most `look`, does anybody serve "active" once the file has been there
      for `delay`. */
  ghost predicate HaltedEverywhereAfter(look: nat, delay: nat) {
    forall w, steps, p :: Coherent(w) && Run(w, steps) ==> LateAnswersHalt(End(w, steps), p, look, delay)
  }

  ghost predicate LateAnswersHalt(end: World, p: int, look: nat, delay: nat) {
    end.since.Some? && end.now >= end.since.value + delay && LookedWithin(end, p, look) ==> !ServesActive(end, p)
  }

  /**
   How long a halt takes to reach every process on the file: exactly five seconds plus the longest
   look, and not a millisecond less.
  */
  lemma HaltReachesEveryoneExactlyAfter(look: nat, delay: nat)
    ensures HaltedEverywhereAfter(look, delay) <==> delay >= look + 5000
  {
    if delay >= look + CACHE_MS {
      forall w, steps, p | Coherent(w) && Run(w, steps) ensures LateAnswersHalt(End(w, steps), p, look, delay) {
        if ServesActive(End(w, steps), p) && LookedWithin(End(w, steps), p, look) && End(w, steps).since.Some? {
          HaltReachesEveryone(w, steps, p, look);
        }
      }
    } else {
      SlowLookOutlivesTheCache(look);
      assert !LateAnswersHalt(End(TwoProcesses(), SlowRun(look)), 1, look, delay);
    }
  }

  /** So five seconds are enough exactly when a look takes no time at all. */
  lemma FiveSecondsAreEnoughExactlyWhen(look: nat)
    ensures HaltedEverywhereAfter(look, 5000) <==> look == 0
  {
    HaltReachesEveryoneExactlyAfter(look, 5000);
  }

  lemma FirstStep(w: World, steps: seq<Step>)
    requires steps != [] && Enabled(w, steps[0]) && Run(Next(w, steps[0]), steps[1..])
    ensures Run(w, steps) && End(w, steps) == End(Next(w, steps[0]), steps[1..])
  {}
}

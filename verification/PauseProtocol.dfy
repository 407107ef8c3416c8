/** Pausing and resuming a collection while interrupt handlers run on every cpu, as interleaved steps. */
module PauseProtocol {
  // The one scheduling fact built in: a cpu runs one thing at a time, so a freeze or restart call on it never overlaps a
  // handler on it.

  datatype Phase = Running | Pausing | Paused

  /** Where a handler stands; a flag holds what it read earlier. */
  datatype Pc =
    | Entered(stop: bool)
    | Frozen
    | Counted
    | Checked(trigger: bool)
    | Admitted(trigger: bool)
    | Recording(trigger: bool)
    | Tested(trigger: bool)
    | Switched
    | ErrataClear
    | ErrataOn
    | ErrataOff
    | Restarting
    | Acting(go: bool)
    | Leaving

  /** What a cpu is executing: nothing of ours, a freeze or restart call from elsewhere, or a handler. */
  datatype Slot = Free | FreezeCall(stop: bool) | RestartCall(who: nat, go: bool) | Handler(pc: Pc)

  /** The counters' interrupt vector: whether it is unmasked, and whether an interrupt is accepted and not yet taken. */
  datatype Vector = Vector(unmasked: bool, latched: bool)

  datatype Cpu = Cpu(ctrl: nat, accept: bool, inInterrupt: nat, groupSwap: bool, resetMask: nat, group: nat,
                     samples: nat, vector: Vector, slot: Slot)

  datatype Pauser = NoPauser | Clearing(i: nat) | Checking(i: nat, clear: bool) | Freezing(pending: set<nat>)

  /** A Resume that won its exchange: the cpus it has flagged, and those it has still to restart. */
  datatype Resumer = Resumer(flagged: nat, pending: set<nat>)

  datatype World = World(phase: Phase, cpus: seq<Cpu>, pauser: Pauser, resumers: seq<Resumer>)

  /** `globals` holds entry 0 of each group, `mask` the cpus allowed to sample. */
  datatype Config = Config(globals: seq<nat>, mask: seq<bool>, errata: bool)

  /** What the hardware and the event tables decide for a handler. */
  datatype Choice = Choice(reset: nat, trigger: bool, records: nat)

  datatype Action =
    | Latch(k: nat)
    | Interrupt(k: nat)
    | Handle(k: nat, choice: Choice)
    | PauseCas
    | PauseStep
    | FreezeStart(k: nat)
    | FreezeEnd(k: nat)
    | PauseDone
    | ResumeCas
    | ResumeFlag(r: nat)
    | RestartStart(r: nat, k: nat)
    | RestartEnd(k: nat)

  function All(n: nat): (s: set<nat>)
    ensures forall k: nat :: k in s <==> k < n
  {
    if n == 0 then {} else All(n - 1) + {n - 1}
  }

  /** The enable routine once it has read that collection is running. */
  function Enable(cfg: Config, c: Cpu): Cpu
    requires c.group < |cfg.globals|
  {
    var d := c.(vector := c.vector.(unmasked := true));
    if c.resetMask != 0 || c.groupSwap then d.(ctrl := cfg.globals[c.group], resetMask := 0, groupSwap := false) else d
  }

  /** The disable routine, which does nothing if it has read that collection is running. */
  function Disable(c: Cpu, stop: bool): Cpu { if stop then c.(ctrl := 0, vector := c.vector.(unmasked := false)) else c }

  /** The next step of the handler on this cpu. */
  function HandlerStep(cfg: Config, phase: Phase, c: Cpu, x: Choice): Cpu
    requires c.slot.Handler? && c.group < |cfg.globals|
  {
    match c.slot.pc
    case Entered(stop) => Disable(c, stop).(slot := Handler(Frozen))
    case Frozen => c.(inInterrupt := c.inInterrupt + 1, slot := Handler(Counted))
    case Counted => c.(resetMask := x.reset, slot := Handler(Checked(x.trigger)))
    case Checked(t) => c.(slot := Handler(if phase.Running? then Admitted(t) else Tested(t)))
    case Admitted(t) => c.(slot := Handler(if c.accept then Recording(t) else Tested(t)))
    case Recording(t) => c.(samples := c.samples + x.records, slot := Handler(Tested(t)))
    case Tested(t) =>
      if t then c.(group := if c.group + 1 >= |cfg.globals| then 0 else c.group + 1, slot := Handler(Switched))
      else c.(slot := Handler(Restarting))
    case Switched => if cfg.errata then c.(ctrl := 0, slot := Handler(ErrataClear)) else c.(slot := Handler(ErrataOff))
    case ErrataClear => c.(ctrl := 0xf, slot := Handler(ErrataOn))
    case ErrataOn => c.(ctrl := 0, slot := Handler(ErrataOff))
    case ErrataOff => c.(resetMask := 0, groupSwap := true, slot := Handler(Restarting))
    case Restarting => c.(slot := Handler(Acting(phase.Running?)))
    case Acting(go) => (if go then Enable(cfg, c) else c).(slot := Handler(Leaving))
    case Leaving => c.(inInterrupt := 0, slot := Free)
  }

  ghost predicate WorldOk(cfg: Config, w: World) {
    && |cfg.globals| > 0 && |cfg.mask| == |w.cpus|
    && forall k :: 0 <= k < |w.cpus| ==> w.cpus[k].group < |cfg.globals|
  }

  ghost predicate Enabled(cfg: Config, w: World, a: Action) {
    && WorldOk(cfg, w)
    && match a
       case Latch(k) => k < |w.cpus| && w.cpus[k].vector.unmasked && w.cpus[k].ctrl != 0
       case Interrupt(k) => k < |w.cpus| && w.cpus[k].slot.Free?
       case Handle(k, x) => k < |w.cpus| && w.cpus[k].slot.Handler?
       case PauseCas => w.phase.Running? && w.pauser.NoPauser?
       case PauseStep => w.pauser.Clearing? || w.pauser.Checking?
       case FreezeStart(k) => k < |w.cpus| && w.pauser.Freezing? && k in w.pauser.pending && w.cpus[k].slot.Free?
       case FreezeEnd(k) => k < |w.cpus| && w.cpus[k].slot.FreezeCall? && w.pauser.Freezing?
       case PauseDone => w.pauser.Freezing? && w.pauser.pending == {}
       case ResumeCas => w.phase.Paused?
       case ResumeFlag(r) => r < |w.resumers| && w.resumers[r].flagged < |w.cpus|
       case RestartStart(r, k) =>
         && k < |w.cpus| && r < |w.resumers| && w.resumers[r].flagged == |w.cpus| && k in w.resumers[r].pending
         && w.cpus[k].slot.Free?
       case RestartEnd(k) => k < |w.cpus| && w.cpus[k].slot.RestartCall? && w.cpus[k].slot.who < |w.resumers|
  }

  function SetCpu(w: World, k: nat, c: Cpu): World
    requires k < |w.cpus|
  {
    w.(cpus := w.cpus[k := c])
  }

  /** One step of the pausing thread before it calls freeze: clear the accept flags, then wait until no handler runs. */
  function PauserStep(w: World): World
    requires w.pauser.Clearing? || w.pauser.Checking?
  {
    match w.pauser
    case Clearing(i) =>
      if i < |w.cpus| then SetCpu(w, i, w.cpus[i].(accept := false)).(pauser := Clearing(i + 1))
      else w.(pauser := Checking(0, true))
    case Checking(i, clear) =>
      if i < |w.cpus| then w.(pauser := Checking(i + 1, clear && w.cpus[i].inInterrupt == 0))
      else w.(pauser := if clear then Freezing(All(|w.cpus|)) else Checking(0, true))
  }

  function Do(cfg: Config, w: World, a: Action): World
    requires Enabled(cfg, w, a)
  {
    match a
    case Latch(k) => SetCpu(w, k, w.cpus[k].(vector := Vector(false, true)))
    case Interrupt(k) => SetCpu(w, k, w.cpus[k].(vector := w.cpus[k].vector.(latched := false), slot := Handler(Entered(!w.phase.Running?))))
    case Handle(k, x) => SetCpu(w, k, HandlerStep(cfg, w.phase, w.cpus[k], x))
    case PauseCas => w.(phase := Pausing, pauser := Clearing(0))
    case PauseStep => PauserStep(w)
    case FreezeStart(k) => SetCpu(w, k, w.cpus[k].(slot := FreezeCall(!w.phase.Running?)))
    case FreezeEnd(k) =>
      SetCpu(w, k, Disable(w.cpus[k], w.cpus[k].slot.stop).(slot := Free))
      .(pauser := Freezing(w.pauser.pending - {k}))
    case PauseDone => w.(phase := Paused, pauser := NoPauser)
    case ResumeCas => w.(phase := Running, resumers := w.resumers + [Resumer(0, All(|w.cpus|))])
    case ResumeFlag(r) =>
      var i := w.resumers[r].flagged;
      SetCpu(w, i, w.cpus[i].(accept := cfg.mask[i], groupSwap := true))
      .(resumers := w.resumers[r := w.resumers[r].(flagged := i + 1)])
    case RestartStart(r, k) => SetCpu(w, k, w.cpus[k].(slot := RestartCall(r, w.phase.Running?)))
    case RestartEnd(k) =>
      var c := w.cpus[k];
      var r := c.slot.who;
      SetCpu(w, k, (if c.slot.go then Enable(cfg, c) else c).(slot := Free))
      .(resumers := w.resumers[r := w.resumers[r].(pending := w.resumers[r].pending - {k})])
  }

  ghost predicate Leads(cfg: Config, w: World, acts: seq<Action>, r: World)
    decreases |acts|
  {
    if acts == [] then r == w else Enabled(cfg, w, acts[0]) && Leads(cfg, Do(cfg, w, acts[0]), acts[1..], r)
  }

  ghost predicate Programmed(c: Cpu) {
    c.ctrl == 0 && c.groupSwap && c.slot.Free? && c.vector == Vector(false, false) && c.inInterrupt == 0
  }

  /**
    * Programmed, not counting, the interrupt vector masked, samples accepted as the cpu mask says, and about to be
    * restarted for the first time, or started paused.
    */
  ghost predicate Started(cfg: Config, w: World) {
    && WorldOk(cfg, w)
    && w.pauser.NoPauser?
    && (forall k :: 0 <= k < |w.cpus| ==> Programmed(w.cpus[k]) && w.cpus[k].accept == cfg.mask[k])
    && ((w.phase.Running? && w.resumers == [Resumer(|w.cpus|, All(|w.cpus|))]) || (w.phase.Paused? && w.resumers == []))
  }

  // ----- Invariants of one cpu -----

  /** Nothing on this cpu counts or interrupts, and nothing in flight will start it or record a sample. */
  ghost predicate Quiet(c: Cpu) {
    !c.vector.unmasked &&
    match c.slot
    case Free => c.ctrl == 0
    case FreezeCall(stop) => c.ctrl == 0
    case RestartCall(who, go) => c.ctrl == 0 && !go
    case Handler(pc) => c.ctrl == (if pc.ErrataOn? then 0xf else 0) && !pc.Admitted? && !pc.Recording? && pc != Acting(true)
  }

  /** The routine window in which the handler is switching groups. */
  predicate Switching(pc: Pc) { pc.Switched? || pc.ErrataClear? || pc.ErrataOn? || pc.ErrataOff? }

  predicate Counts(cfg: Config, c: Cpu)
    requires c.group < |cfg.globals|
  {
    c.ctrl == cfg.globals[c.group]
  }

  /** A resume has flagged this cpu: it counts, or the next restart on it will see to that. */
  ghost predicate Armed(cfg: Config, c: Cpu)
    requires c.group < |cfg.globals|
  {
    c.groupSwap
    || match c.slot
       case Handler(pc) => Switching(pc) || (Counts(cfg, c) && pc != Entered(true))
       case _ => Counts(cfg, c)
  }

  /** A resume has restarted this cpu: it counts, except while a handler switches groups, which ends with a restart. */
  ghost predicate Live(cfg: Config, c: Cpu)
    requires c.group < |cfg.globals|
  {
    match c.slot
    case Handler(pc) =>
      || Switching(pc)
      || (Counts(cfg, c) && pc != Entered(true))
      || (c.groupSwap && (pc.Restarting? || pc == Acting(true)))
    case _ => Counts(cfg, c)
  }

  ghost predicate ErrataOnlyIfPresent(cfg: Config, c: Cpu) {
    c.slot.Handler? && (c.slot.pc.ErrataClear? || c.slot.pc.ErrataOn?) ==> cfg.errata
  }

  lemma HandlerQuiet(cfg: Config, phase: Phase, c: Cpu, x: Choice)
    requires c.slot.Handler? && c.group < |cfg.globals| && !phase.Running? && Quiet(c)
    ensures Quiet(HandlerStep(cfg, phase, c, x))
    ensures HandlerStep(cfg, phase, c, x).samples == c.samples
  {}

  lemma HandlerArmed(cfg: Config, c: Cpu, x: Choice)
    requires c.slot.Handler? && c.group < |cfg.globals| && HandlerStep(cfg, Running, c, x).group < |cfg.globals|
    requires Armed(cfg, c)
    ensures Armed(cfg, HandlerStep(cfg, Running, c, x))
  {}

  lemma HandlerLive(cfg: Config, c: Cpu, x: Choice)
    requires c.slot.Handler? && c.group < |cfg.globals| && Live(cfg, c)
    ensures HandlerStep(cfg, Running, c, x).group < |cfg.globals|
    ensures Live(cfg, HandlerStep(cfg, Running, c, x))
  {
    HandlerInRange(cfg, Running, c, x);
  }

  lemma HandlerInRange(cfg: Config, phase: Phase, c: Cpu, x: Choice)
    requires c.slot.Handler? && c.group < |cfg.globals|
    ensures HandlerStep(cfg, phase, c, x).group < |cfg.globals|
  {}

  lemma RestartLive(cfg: Config, c: Cpu)
    requires c.slot.RestartCall? && c.slot.go && c.group < |cfg.globals| && Armed(cfg, c)
    ensures var r := Enable(cfg, c).(slot := Free); Armed(cfg, r) && Live(cfg, r)
  {}

  // ----- The invariant -----

  ghost predicate PauserInv(w: World) {
    && (w.phase.Pausing? <==> !w.pauser.NoPauser?)
    && (w.phase.Paused? ==> forall k :: 0 <= k < |w.cpus| ==> Quiet(w.cpus[k]))
    && (w.pauser.Freezing? ==> forall k :: 0 <= k < |w.cpus| && k !in w.pauser.pending ==> Quiet(w.cpus[k]))
    && (w.pauser.Freezing? ==> w.pauser.pending <= All(|w.cpus|))
    && forall k :: 0 <= k < |w.cpus| && w.cpus[k].slot.FreezeCall? ==>
         w.cpus[k].slot.stop && w.pauser.Freezing? && k in w.pauser.pending
  }

  /** What the newest resume has achieved, as long as no pause has begun since. */
  ghost predicate ResumerInv(cfg: Config, w: World)
    requires WorldOk(cfg, w)
  {
    && (w.phase.Running? ==> w.resumers != [])
    && (forall r :: 0 <= r < |w.resumers| ==> ResumerOk(w.resumers[r], |w.cpus|))
    && (w.phase.Running? ==> forall k :: 0 <= k < |w.cpus| ==> CpuResumed(cfg, w.cpus[k], k, Newest(w), |w.resumers| - 1))
  }

  ghost predicate ResumerOk(r: Resumer, n: nat) {
    r.flagged <= n && r.pending <= All(n) && (r.flagged < n ==> r.pending == All(n))
  }

  function Newest(w: World): Resumer
    requires w.resumers != []
  {
    w.resumers[|w.resumers| - 1]
  }

  ghost predicate CpuResumed(cfg: Config, c: Cpu, k: nat, r: Resumer, who: nat)
    requires c.group < |cfg.globals|
  {
    && (k < r.flagged ==> Armed(cfg, c))
    && (k !in r.pending ==> Live(cfg, c))
    && (c.slot.RestartCall? && c.slot.who == who ==> c.slot.go && k < r.flagged)
  }

  ghost predicate Inv(cfg: Config, w: World) {
    && WorldOk(cfg, w)
    && PauserInv(w)
    && ResumerInv(cfg, w)
    && forall k :: 0 <= k < |w.cpus| ==>
         ErrataOnlyIfPresent(cfg, w.cpus[k]) && CallOk(w, w.cpus[k].slot)
  }

  /** Restart calls belong to resumes that have flagged every cpu. */
  ghost predicate CallOk(w: World, s: Slot) {
    s.RestartCall? ==> s.who < |w.resumers| && w.resumers[s.who].flagged == |w.cpus|
  }

  lemma StartedHolds(cfg: Config, w: World)
    requires Started(cfg, w)
    ensures Inv(cfg, w)
  {}

  lemma HandlerStays(cfg: Config, phase: Phase, c: Cpu, x: Choice)
    requires c.slot.Handler? && c.group < |cfg.globals|
    ensures HandlerStep(cfg, phase, c, x).slot.Free? || HandlerStep(cfg, phase, c, x).slot.Handler?
    ensures ErrataOnlyIfPresent(cfg, c) ==> ErrataOnlyIfPresent(cfg, HandlerStep(cfg, phase, c, x))
  {}

  lemma HandlerResumed(cfg: Config, c: Cpu, x: Choice, k: nat, r: Resumer, who: nat)
    requires c.slot.Handler? && c.group < |cfg.globals| && CpuResumed(cfg, c, k, r, who)
    ensures HandlerStep(cfg, Running, c, x).group < |cfg.globals|
    ensures CpuResumed(cfg, HandlerStep(cfg, Running, c, x), k, r, who)
  {
    HandlerInRange(cfg, Running, c, x);
    HandlerStays(cfg, Running, c, x);
    if k < r.flagged {
      HandlerArmed(cfg, c, x);
    }
    if k !in r.pending {
      HandlerLive(cfg, c, x);
    }
  }

  lemma HandleKeeps(cfg: Config, w: World, k: nat, x: Choice)
    requires Inv(cfg, w) && Enabled(cfg, w, Handle(k, x))
    ensures Inv(cfg, Do(cfg, w, Handle(k, x)))
  {
    HandlerStays(cfg, w.phase, w.cpus[k], x);
    HandlerInRange(cfg, w.phase, w.cpus[k], x);
    if w.phase.Running? {
      HandlerResumed(cfg, w.cpus[k], x, k, Newest(w), |w.resumers| - 1);
    } else if Quiet(w.cpus[k]) {
      HandlerQuiet(cfg, w.phase, w.cpus[k], x);
    }
    var d := HandlerStep(cfg, w.phase, w.cpus[k], x);
    SetKeeps(cfg, w, k, d);
  }

  /** A cpu may change to anything that keeps its own part of the invariant. */
  lemma SetKeeps(cfg: Config, w: World, k: nat, d: Cpu)
    requires Inv(cfg, w) && k < |w.cpus| && d.group < |cfg.globals| && (d.slot.Free? || d.slot.Handler?)
    requires !w.cpus[k].slot.FreezeCall? && ErrataOnlyIfPresent(cfg, d)
    requires !w.phase.Running? && Quiet(w.cpus[k]) ==> Quiet(d)
    requires w.phase.Running? ==> CpuResumed(cfg, d, k, Newest(w), |w.resumers| - 1)
    ensures Inv(cfg, SetCpu(w, k, d))
  {}

  lemma CallKeeps(cfg: Config, w: World, a: Action)
    requires Inv(cfg, w) && Enabled(cfg, w, a) && (a.RestartStart? || a.FreezeStart? || a.Interrupt? || a.Latch?)
    ensures Inv(cfg, Do(cfg, w, a))
  {}

  lemma FreezeEndKeeps(cfg: Config, w: World, k: nat)
    requires Inv(cfg, w) && Enabled(cfg, w, FreezeEnd(k))
    ensures Inv(cfg, Do(cfg, w, FreezeEnd(k)))
  {}

  lemma RestartEndKeeps(cfg: Config, w: World, k: nat)
    requires Inv(cfg, w) && Enabled(cfg, w, RestartEnd(k))
    ensures Inv(cfg, Do(cfg, w, RestartEnd(k)))
  {
    if w.phase.Running? && Armed(cfg, w.cpus[k]) && w.cpus[k].slot.go {
      RestartLive(cfg, w.cpus[k]);
    }
  }

  lemma PauseKeeps(cfg: Config, w: World, a: Action)
    requires Inv(cfg, w) && Enabled(cfg, w, a) && (a.PauseCas? || a.PauseStep? || a.PauseDone?)
    ensures Inv(cfg, Do(cfg, w, a))
  {}

  lemma ResumeKeeps(cfg: Config, w: World, a: Action)
    requires Inv(cfg, w) && Enabled(cfg, w, a) && (a.ResumeCas? || a.ResumeFlag?)
    ensures Inv(cfg, Do(cfg, w, a))
  {}

  lemma StepKeeps(cfg: Config, w: World, a: Action)
    requires Inv(cfg, w) && Enabled(cfg, w, a)
    ensures Inv(cfg, Do(cfg, w, a)) && |Do(cfg, w, a).cpus| == |w.cpus|
  {
    match a
    case Handle(k, x) => HandleKeeps(cfg, w, k, x);
    case FreezeEnd(k) => FreezeEndKeeps(cfg, w, k);
    case RestartEnd(k) => RestartEndKeeps(cfg, w, k);
    case RestartStart(_, _) => CallKeeps(cfg, w, a);
    case FreezeStart(_) => CallKeeps(cfg, w, a);
    case Interrupt(_) => CallKeeps(cfg, w, a);
    case Latch(_) => CallKeeps(cfg, w, a);
    case ResumeCas => ResumeKeeps(cfg, w, a);
    case ResumeFlag(_) => ResumeKeeps(cfg, w, a);
    case _ => PauseKeeps(cfg, w, a);
  }

  lemma {:induction false} RunKeeps(cfg: Config, w: World, acts: seq<Action>, r: World)
    requires Inv(cfg, w) && Leads(cfg, w, acts, r)
    ensures Inv(cfg, r) && |r.cpus| == |w.cpus|
    decreases |acts|
  {
    if acts != [] {
      StepKeeps(cfg, w, acts[0]);
      RunKeeps(cfg, Do(cfg, w, acts[0]), acts[1..], r);
    }
  }

  // ----- The theorems -----

  /**
    * Pausing quiesces. In every state reached that is paused, which is from the end of the pause until a resume
    * wins its exchange, the global control register of a cpu is 0 exactly when it is not in the window that the
    * errata routine opens, so always where there is no such routine; its interrupt vector is masked; and no step
    * that can be taken there records a sample.
    */
  lemma PauseQuiesces(cfg: Config, w: World, acts: seq<Action>, r: World, k: nat)
    requires Started(cfg, w) && Leads(cfg, w, acts, r) && r.phase.Paused? && k < |r.cpus|
    ensures r.cpus[k].ctrl == 0 <==> r.cpus[k].slot != Handler(ErrataOn)
    ensures !cfg.errata ==> r.cpus[k].ctrl == 0
    ensures !r.cpus[k].vector.unmasked
    ensures forall a :: Enabled(cfg, r, a) ==>
              k < |Do(cfg, r, a).cpus| && Do(cfg, r, a).cpus[k].samples == r.cpus[k].samples
  {
    StartedHolds(cfg, w);
    RunKeeps(cfg, w, acts, r);
    assert Quiet(r.cpus[k]);
    forall a | Enabled(cfg, r, a)
      ensures k < |Do(cfg, r, a).cpus| && Do(cfg, r, a).cpus[k].samples == r.cpus[k].samples
    {
      PausedRecordsNothing(cfg, r, a, k);
    }
  }

  lemma PausedRecordsNothing(cfg: Config, w: World, a: Action, k: nat)
    requires Inv(cfg, w) && w.phase.Paused? && Enabled(cfg, w, a) && k < |w.cpus|
    ensures k < |Do(cfg, w, a).cpus| && Do(cfg, w, a).cpus[k].samples == w.cpus[k].samples
  {
    if a.Handle? {
      HandlerQuiet(cfg, w.phase, w.cpus[a.k], a.choice);
    }
  }

  /** The handler is past its test of the trigger count and has not run the enable routine yet. */
  predicate Restoring(pc: Pc) { Switching(pc) || pc.Restarting? || pc.Acting? }

  /**
    * Resuming restarts. When the newest resume has returned and no pause has begun since it won its exchange, every
    * cpu has entry 0 of its current group in its global control register, but for one whose handler is between its
    * group switch and the end of its enable routine; that one is sure to be restarted.
    */
  lemma ResumeRestarts(cfg: Config, w: World, acts: seq<Action>, r: World, k: nat)
    requires Started(cfg, w) && Leads(cfg, w, acts, r) && r.phase.Running? && k < |r.cpus|
    requires r.resumers != [] && Newest(r).pending == {}
    ensures WorldOk(cfg, r) && Live(cfg, r.cpus[k])
    ensures !(r.cpus[k].slot.Handler? && Restoring(r.cpus[k].slot.pc)) ==> Counts(cfg, r.cpus[k])
  {
    StartedHolds(cfg, w);
    RunKeeps(cfg, w, acts, r);
    assert CpuResumed(cfg, r.cpus[k], k, Newest(r), |r.resumers| - 1);
  }

  /** How many steps of its own the handler needs at most to be past the enable routine. */
  function StepsLeft(pc: Pc): nat {
    match pc
    case Switched => 6
    case ErrataClear => 5
    case ErrataOn => 4
    case ErrataOff => 3
    case Restarting => 2
    case Acting(_) => 1
    case _ => 0
  }

  lemma HandlerNears(cfg: Config, c: Cpu, x: Choice)
    requires c.slot.Handler? && c.group < |cfg.globals| && Restoring(c.slot.pc)
    ensures var d := HandlerStep(cfg, Running, c, x);
            && d.slot.Handler? && (Restoring(d.slot.pc) || d.slot.pc.Leaving?)
            && StepsLeft(d.slot.pc) < StepsLeft(c.slot.pc)
  {}

  /** Cpu k's handler, taking steps of its own only, brings the world to r with nothing else changed. */
  ghost predicate HandlerLeads(cfg: Config, w: World, k: nat, acts: seq<Action>, r: World) {
    && Leads(cfg, w, acts, r)
    && (forall i :: 0 <= i < |acts| ==> acts[i].Handle? && acts[i].k == k)
    && r == w.(cpus := r.cpus) && |r.cpus| == |w.cpus|
    && forall j :: 0 <= j < |w.cpus| && j != k ==> r.cpus[j] == w.cpus[j]
  }

  /** Cpu k's handler is about to leave, and the cpu counts for its group. */
  ghost predicate Restarted(cfg: Config, w: World, k: nat) {
    && k < |w.cpus| && w.cpus[k].group < |cfg.globals|
    && w.cpus[k].slot == Handler(Leaving) && Counts(cfg, w.cpus[k])
  }

  /** While collection runs, a handler still to restart its cpu does so within six steps of its own, fewer from later ones. */
  lemma {:induction false} HandlerRestarts(cfg: Config, w: World, k: nat, x: Choice)
    requires WorldOk(cfg, w) && w.phase.Running? && k < |w.cpus| && Live(cfg, w.cpus[k])
    requires w.cpus[k].slot.Handler? && (Restoring(w.cpus[k].slot.pc) || w.cpus[k].slot.pc.Leaving?)
    ensures exists acts, r :: HandlerLeads(cfg, w, k, acts, r) && Restarted(cfg, r, k) && |acts| <= StepsLeft(w.cpus[k].slot.pc)
    decreases StepsLeft(w.cpus[k].slot.pc)
  {
    if w.cpus[k].slot.pc.Leaving? {
      assert HandlerLeads(cfg, w, k, [], w);
    } else {
      HandlerNears(cfg, w.cpus[k], x);
      HandlerLive(cfg, w.cpus[k], x);
      var v := Do(cfg, w, Handle(k, x));
      HandlerRestarts(cfg, v, k, x);
      var acts, r :| HandlerLeads(cfg, v, k, acts, r) && Restarted(cfg, r, k) && |acts| <= StepsLeft(v.cpus[k].slot.pc);
      HandlerLeadsOn(cfg, w, k, x, acts, r);
    }
  }

  lemma HandlerLeadsOn(cfg: Config, w: World, k: nat, x: Choice, acts: seq<Action>, r: World)
    requires Enabled(cfg, w, Handle(k, x)) && HandlerLeads(cfg, Do(cfg, w, Handle(k, x)), k, acts, r)
    ensures HandlerLeads(cfg, w, k, [Handle(k, x)] + acts, r)
  {
    assert ([Handle(k, x)] + acts)[1..] == acts;
  }

  // ----- Counting while paused -----

  /** An interrupt is taken only if the counters have raised it, which they do while counting and unmasked. */
  predicate Raised(w: World, a: Action) {
    a.Interrupt? && a.k < |w.cpus| ==> w.cpus[a.k].vector.latched
  }

  /** A run in which every interrupt taken has been raised before. */
  ghost predicate ReallyLeads(cfg: Config, w: World, acts: seq<Action>, r: World)
    decreases |acts|
  {
    if acts == [] then r == w
    else Enabled(cfg, w, acts[0]) && Raised(w, acts[0]) && ReallyLeads(cfg, Do(cfg, w, acts[0]), acts[1..], r)
  }

  lemma {:induction false} ReallyLeadsOn(cfg: Config, w: World, acts: seq<Action>, x: World, a: Action)
    requires ReallyLeads(cfg, w, acts, x) && Enabled(cfg, x, a) && Raised(x, a)
    ensures ReallyLeads(cfg, w, acts + [a], Do(cfg, x, a))
    decreases |acts|
  {
    if acts == [] {
      assert (acts + [a])[1..] == [];
    } else {
      assert (acts + [a])[1..] == acts[1..] + [a];
      ReallyLeadsOn(cfg, Do(cfg, w, acts[0]), acts[1..], x, a);
    }
  }

  /** One cpu, two groups, a processor with the errata routine. */
  const DEMO := Config([3, 5], [true], true)

  function One(phase: Phase, c: Cpu, pauser: Pauser, pending: set<nat>): World { World(phase, [c], pauser, [Resumer(1, pending)]) }

  /** The start of a collection that is not paused. */
  const START := One(Running, Cpu(0, true, 0, true, 0, 0, 0, Vector(false, false), Free), NoPauser, {0})

  lemma StartIsStarted()
    ensures Started(DEMO, START)
  {
    assert All(1) == {0};
  }

  /** Some run from that start, with every interrupt raised before it is taken, leads to x. */
  ghost predicate Reached(x: World) { exists acts :: ReallyLeads(DEMO, START, acts, x) }

  lemma Then(x: World, a: Action, y: World)
    requires Reached(x) && Enabled(DEMO, x, a) && Raised(x, a) && y == Do(DEMO, x, a)
    ensures Reached(y)
  {
    var acts :| ReallyLeads(DEMO, START, acts, x);
    ReallyLeadsOn(DEMO, START, acts, x, a);
  }

  /** What the handler reads of the hardware: one trigger overflow, nothing to reset, nothing to record. */
  const TRIGGER := Choice(0, true, 0)

  /** A step of the one cpu's handler. */
  lemma HandlerThen(phase: Phase, c: Cpu, pauser: Pauser)
    requires Reached(One(phase, c, pauser, {})) && c.slot.Handler? && c.group < 2
    ensures Reached(One(phase, HandlerStep(DEMO, phase, c, TRIGGER), pauser, {}))
  {
    var d := HandlerStep(DEMO, phase, c, TRIGGER);
    assert [c][0 := d] == [d];
    Then(One(phase, c, pauser, {}), Handle(0, TRIGGER), One(phase, d, pauser, {}));
  }

  /** The counting cpu, with its interrupt vector in a given state. */
  function Counting(vector: Vector, accept: bool, slot: Slot): Cpu { Cpu(3, accept, 0, false, 0, 0, 0, vector, slot) }

  lemma StartCounts()
    ensures Reached(One(Running, Counting(Vector(true, false), true, Free), NoPauser, {}))
  {
    var c := START.cpus[0];
    var called, counting := c.(slot := RestartCall(0, true)), Counting(Vector(true, false), true, Free);
    assert ReallyLeads(DEMO, START, [], START);
    assert [c][0 := called] == [called] && [called][0 := counting] == [counting];
    Then(START, RestartStart(0, 0), One(Running, called, NoPauser, {0}));
    assert {0} - {0} == {};
    assert [Resumer(1, {0})][0 := Resumer(1, {})] == [Resumer(1, {})];
    Then(One(Running, called, NoPauser, {0}), RestartEnd(0), One(Running, counting, NoPauser, {}));
  }

  /** The pauser finds no handler on the cpu; then a counter overflows. */
  lemma LatchedAfterCheck()
    ensures Reached(One(Pausing, Counting(Vector(false, true), false, Free), Checking(1, true), {}))
  {
    StartCounts();
    var c, d := Counting(Vector(true, false), true, Free), Counting(Vector(true, false), false, Free);
    var e := Counting(Vector(false, true), false, Free);
    assert [c][0 := d] == [d] && [d][0 := e] == [e];
    Then(One(Running, c, NoPauser, {}), PauseCas, One(Pausing, c, Clearing(0), {}));
    Then(One(Pausing, c, Clearing(0), {}), PauseStep, One(Pausing, d, Clearing(1), {}));
    Then(One(Pausing, d, Clearing(1), {}), PauseStep, One(Pausing, d, Checking(0, true), {}));
    Then(One(Pausing, d, Checking(0, true), {}), PauseStep, One(Pausing, d, Checking(1, true), {}));
    Then(One(Pausing, d, Checking(1, true), {}), Latch(0), One(Pausing, e, Checking(1, true), {}));
  }

  /** The cpu is frozen with the interrupt still to be taken. */
  lemma FrozenAfterLatch()
    ensures Reached(One(Pausing, Cpu(0, false, 0, false, 0, 0, 0, Vector(false, true), Free), Freezing({}), {}))
  {
    LatchedAfterCheck();
    var c := Counting(Vector(false, true), false, Free);
    var called := Counting(Vector(false, true), false, FreezeCall(true));
    var frozen := Cpu(0, false, 0, false, 0, 0, 0, Vector(false, true), Free);
    assert [c][0 := called] == [called] && [called][0 := frozen] == [frozen];
    assert All(1) == {0} && {0} - {0} == {};
    Then(One(Pausing, c, Checking(1, true), {}), PauseStep, One(Pausing, c, Freezing({0}), {}));
    Then(One(Pausing, c, Freezing({0}), {}), FreezeStart(0), One(Pausing, called, Freezing({0}), {}));
    Then(One(Pausing, called, Freezing({0}), {}), FreezeEnd(0), One(Pausing, frozen, Freezing({}), {}));
  }

  /** It is taken as the pause ends. */
  lemma TakenAfterFreeze()
    ensures Reached(One(Paused, Cpu(0, false, 0, false, 0, 0, 0, Vector(false, false), Handler(Entered(true))), NoPauser, {}))
  {
    FrozenAfterLatch();
    var frozen := Cpu(0, false, 0, false, 0, 0, 0, Vector(false, true), Free);
    var taken := Cpu(0, false, 0, false, 0, 0, 0, Vector(false, false), Handler(Entered(true)));
    assert [frozen][0 := taken] == [taken];
    Then(One(Pausing, frozen, Freezing({}), {}), Interrupt(0), One(Pausing, taken, Freezing({}), {}));
    Then(One(Pausing, taken, Freezing({}), {}), PauseDone, One(Paused, taken, NoPauser, {}));
  }

  /** The one cpu counts while collection is paused. */
  function CountingWhilePaused(): World {
    One(Paused, Cpu(0xf, false, 1, false, 0, 1, 0, Vector(false, false), Handler(ErrataOn)), NoPauser, {})
  }

  /**
    * The errata routine does turn the counters on while collection is paused: when a counter overflows between the
    * pauser's check and the freeze call, the handler runs after the freeze and switches groups.
    */
  lemma ErrataCountsWhilePaused()
    ensures Reached(CountingWhilePaused())
  {
    TakenAfterFreeze();
    var off := Vector(false, false);
    HandlerThen(Paused, Cpu(0, false, 0, false, 0, 0, 0, off, Handler(Entered(true))), NoPauser);
    HandlerThen(Paused, Cpu(0, false, 0, false, 0, 0, 0, off, Handler(Frozen)), NoPauser);
    HandlerThen(Paused, Cpu(0, false, 1, false, 0, 0, 0, off, Handler(Counted)), NoPauser);
    HandlerThen(Paused, Cpu(0, false, 1, false, 0, 0, 0, off, Handler(Checked(true))), NoPauser);
    HandlerThen(Paused, Cpu(0, false, 1, false, 0, 0, 0, off, Handler(Tested(true))), NoPauser);
    HandlerThen(Paused, Cpu(0, false, 1, false, 0, 1, 0, off, Handler(Switched)), NoPauser);
    HandlerThen(Paused, Cpu(0, false, 1, false, 0, 1, 0, off, Handler(ErrataClear)), NoPauser);
  }
}

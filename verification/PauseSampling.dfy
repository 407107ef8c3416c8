/** Which handlers record while collection is paused and resumed, what a whole handler does, and whom the pauser waits for. */
module PauseSampling {
  import opened PauseProtocol

  // ----- The cpu mask -----

  /** The newest resume has flagged cpu k, and no pause has begun since. */
  predicate Flagged(w: World, k: nat) {
    w.phase.Running? && w.resumers != [] && k < w.resumers[|w.resumers| - 1].flagged
  }

  predicate AtRecording(c: Cpu) { c.slot.Handler? && c.slot.pc.Recording? }

  /** Whether the handler on this cpu has counted itself in and not yet out. */
  predicate Inside(c: Cpu) { c.slot.Handler? && !c.slot.pc.Entered? && !c.slot.pc.Frozen? }

  ghost predicate Masked(c: Cpu, allowed: bool, flagged: bool) {
    && (c.accept ==> allowed)
    && (AtRecording(c) ==> allowed)
    && (flagged ==> c.accept == allowed)
    && c.inInterrupt == (if Inside(c) then 1 else 0)
  }

  ghost predicate MaskInv(cfg: Config, w: World) {
    && |cfg.mask| == |w.cpus|
    && forall k :: 0 <= k < |w.cpus| ==> Masked(w.cpus[k], cfg.mask[k], Flagged(w, k))
  }

  lemma StartedMasked(cfg: Config, w: World)
    requires Started(cfg, w)
    ensures MaskInv(cfg, w)
  {}

  lemma HandlerMasked(cfg: Config, phase: Phase, c: Cpu, x: Choice, allowed: bool, flagged: bool)
    requires c.slot.Handler? && c.group < |cfg.globals| && Masked(c, allowed, flagged)
    ensures Masked(HandlerStep(cfg, phase, c, x), allowed, flagged)
  {}

  lemma StepMasked(cfg: Config, w: World, a: Action)
    requires Inv(cfg, w) && MaskInv(cfg, w) && Enabled(cfg, w, a)
    ensures MaskInv(cfg, Do(cfg, w, a))
  {
    if a.Handle? {
      HandlerMasked(cfg, w.phase, w.cpus[a.k], a.choice, cfg.mask[a.k], Flagged(w, a.k));
    } else if a.PauseCas? || a.PauseStep? || a.PauseDone? || a.ResumeCas? || a.ResumeFlag? {
      PhaseMasked(cfg, w, a);
    } else {
      CallMasked(cfg, w, a);
    }
  }

  lemma PhaseMasked(cfg: Config, w: World, a: Action)
    requires Inv(cfg, w) && MaskInv(cfg, w) && Enabled(cfg, w, a)
    requires a.PauseCas? || a.PauseStep? || a.PauseDone? || a.ResumeCas? || a.ResumeFlag?
    ensures MaskInv(cfg, Do(cfg, w, a))
  {}

  lemma CallMasked(cfg: Config, w: World, a: Action)
    requires Inv(cfg, w) && MaskInv(cfg, w) && Enabled(cfg, w, a)
    requires a.Latch? || a.Interrupt? || a.FreezeStart? || a.FreezeEnd? || a.RestartStart? || a.RestartEnd?
    ensures MaskInv(cfg, Do(cfg, w, a))
  {}

  lemma {:induction false} RunMasked(cfg: Config, w: World, acts: seq<Action>, r: World)
    requires Inv(cfg, w) && MaskInv(cfg, w) && Leads(cfg, w, acts, r)
    ensures MaskInv(cfg, r)
    decreases |acts|
  {
    if acts != [] {
      StepKeeps(cfg, w, acts[0]);
      StepMasked(cfg, w, acts[0]);
      RunMasked(cfg, Do(cfg, w, acts[0]), acts[1..], r);
    }
  }

  /**
    * Over every run, a cpu that the newest resume has flagged accepts samples exactly if the mask allows it, as long as
    * no pause has begun since; a cpu that the mask does not allow accepts none at any time.
    */
  lemma MaskDecides(cfg: Config, w: World, acts: seq<Action>, r: World, k: nat)
    requires Started(cfg, w) && Leads(cfg, w, acts, r) && k < |r.cpus|
    ensures k < |cfg.mask|
    ensures r.phase.Running? && r.resumers != [] && k < r.resumers[|r.resumers| - 1].flagged ==> r.cpus[k].accept == cfg.mask[k]
    ensures !cfg.mask[k] ==> !r.cpus[k].accept
  {
    StartedHolds(cfg, w);
    StartedMasked(cfg, w);
    RunMasked(cfg, w, acts, r);
  }

  /** The only step that records is the recording step of a handler, and it records what it is given on its own cpu. */
  lemma OnlyRecordingRecords(cfg: Config, w: World, a: Action, k: nat)
    requires Enabled(cfg, w, a) && k < |w.cpus|
    ensures k < |Do(cfg, w, a).cpus|
    ensures Do(cfg, w, a).cpus[k].samples
         == w.cpus[k].samples + (if a.Handle? && a.k == k && AtRecording(w.cpus[k]) then a.choice.records else 0)
  {}

  lemma {:induction false} UnmaskedKeepsSamples(cfg: Config, w: World, acts: seq<Action>, r: World, k: nat)
    requires Inv(cfg, w) && MaskInv(cfg, w) && Leads(cfg, w, acts, r) && k < |w.cpus| && !cfg.mask[k]
    ensures k < |r.cpus| && r.cpus[k].samples == w.cpus[k].samples
    decreases |acts|
  {
    if acts != [] {
      StepKeeps(cfg, w, acts[0]);
      StepMasked(cfg, w, acts[0]);
      OnlyRecordingRecords(cfg, w, acts[0], k);
      UnmaskedKeepsSamples(cfg, Do(cfg, w, acts[0]), acts[1..], r, k);
    }
  }

  /** Over every run, a cpu outside the mask records nothing. */
  lemma UnmaskedRecordsNothing(cfg: Config, w: World, acts: seq<Action>, r: World, k: nat)
    requires Started(cfg, w) && Leads(cfg, w, acts, r) && k < |w.cpus| && !cfg.mask[k]
    ensures k < |r.cpus| && r.cpus[k].samples == w.cpus[k].samples
  {
    StartedHolds(cfg, w);
    StartedMasked(cfg, w);
    UnmaskedKeepsSamples(cfg, w, acts, r, k);
  }

  // ----- A handler's own steps -----

  /** How many steps of its own a handler has left at most, but for the last. */
  function StepsToGo(pc: Pc): nat {
    match pc
    case Entered(_) => 13
    case Frozen => 12
    case Counted => 11
    case Checked(_) => 10
    case Admitted(_) => 9
    case Recording(_) => 8
    case Tested(_) => 7
    case Switched => 6
    case ErrataClear => 5
    case ErrataOn => 4
    case ErrataOff => 3
    case Restarting => 2
    case Acting(_) => 1
    case Leaving => 0
  }

  lemma HandlerProceeds(cfg: Config, phase: Phase, c: Cpu, x: Choice)
    requires c.slot.Handler? && c.group < |cfg.globals|
    ensures var d := HandlerStep(cfg, phase, c, x);
            && d.group < |cfg.globals|
            && if c.slot.pc.Leaving? then d.slot.Free?
               else d.slot.Handler? && StepsToGo(d.slot.pc) < StepsToGo(c.slot.pc)
  {}

  /** The cpu after the handler has run to its end by its own steps, in one phase, with the same hardware throughout. */
  function Finished(cfg: Config, phase: Phase, c: Cpu, x: Choice): (r: Cpu)
    requires c.slot.Handler? && c.group < |cfg.globals|
    ensures r.slot.Free? && r.group < |cfg.globals|
    decreases StepsToGo(c.slot.pc)
  {
    HandlerProceeds(cfg, phase, c, x);
    var d := HandlerStep(cfg, phase, c, x);
    if d.slot.Free? then d else Finished(cfg, phase, d, x)
  }

  function NextGroup(cfg: Config, g: nat): nat { if g + 1 < |cfg.globals| then g + 1 else 0 }

  /** From the test of the trigger count on, while collection runs. */
  lemma TestedFinishes(cfg: Config, c: Cpu, x: Choice)
    requires c.slot.Handler? && c.slot.pc.Tested? && c.group < |cfg.globals|
    ensures var t := c.slot.pc.trigger;
            var g := if t then NextGroup(cfg, c.group) else c.group;
            g < |cfg.globals|
            && Finished(cfg, Running, c, x) ==
               Cpu(if t || c.resetMask != 0 || c.groupSwap then cfg.globals[g] else c.ctrl, c.accept, 0, false, 0, g,
                   c.samples, c.vector.(unmasked := true), Free)
  {
    var d := HandlerStep(cfg, Running, c, x);
    if c.slot.pc.trigger {
      SwitchedFinishes(cfg, d, x);
    } else {
      RestartingFinishes(cfg, d, x);
    }
  }

  lemma RestartingFinishes(cfg: Config, c: Cpu, x: Choice)
    requires c.slot == Handler(Restarting) && c.group < |cfg.globals|
    ensures Finished(cfg, Running, c, x) ==
            Cpu(if c.resetMask != 0 || c.groupSwap then cfg.globals[c.group] else c.ctrl, c.accept, 0, false, 0, c.group,
                c.samples, c.vector.(unmasked := true), Free)
  {
    var d := HandlerStep(cfg, Running, c, x);
    var e := HandlerStep(cfg, Running, d, x);
    assert Finished(cfg, Running, d, x) == Finished(cfg, Running, e, x);
    assert Finished(cfg, Running, e, x) == HandlerStep(cfg, Running, e, x);
  }

  lemma SwitchedFinishes(cfg: Config, c: Cpu, x: Choice)
    requires c.slot == Handler(Switched) && c.group < |cfg.globals|
    ensures Finished(cfg, Running, c, x) ==
            Cpu(cfg.globals[c.group], c.accept, 0, false, 0, c.group, c.samples, c.vector.(unmasked := true), Free)
  {
    var off := if cfg.errata then c.(ctrl := 0, slot := Handler(ErrataOff)) else c.(slot := Handler(ErrataOff));
    if cfg.errata {
      var d := HandlerStep(cfg, Running, c, x);
      var e := HandlerStep(cfg, Running, d, x);
      assert Finished(cfg, Running, d, x) == Finished(cfg, Running, e, x);
      assert Finished(cfg, Running, e, x) == Finished(cfg, Running, off, x);
    }
    assert Finished(cfg, Running, c, x) == Finished(cfg, Running, off, x);
    RestartingFinishes(cfg, HandlerStep(cfg, Running, off, x), x);
  }

  /**
    * A whole handler while collection runs: it records what it is given exactly if the cpu accepts samples, goes on to
    * the next group exactly if the trigger is used up, and leaves the cpu unmasked and counting, with the control value
    * of its group rewritten exactly if something has to be reset or the group is new.
    */
  lemma RunningHandler(cfg: Config, c: Cpu, x: Choice)
    requires c.slot == Handler(Entered(false)) && c.group < |cfg.globals| && c.inInterrupt == 0
    ensures var g := if x.trigger then NextGroup(cfg, c.group) else c.group;
            g < |cfg.globals|
            && Finished(cfg, Running, c, x) ==
               Cpu(if x.trigger || x.reset != 0 || c.groupSwap then cfg.globals[g] else c.ctrl, c.accept, 0, false, 0, g,
                   c.samples + (if c.accept then x.records else 0), c.vector.(unmasked := true), Free)
  {
    var d := HandlerStep(cfg, Running, c, x);
    var e := HandlerStep(cfg, Running, d, x);
    var f := HandlerStep(cfg, Running, e, x);
    assert Finished(cfg, Running, c, x) == Finished(cfg, Running, d, x);
    assert Finished(cfg, Running, d, x) == Finished(cfg, Running, e, x);
    assert Finished(cfg, Running, e, x) == Finished(cfg, Running, f, x);
    CheckedRecords(cfg, f, x);
    TestedFinishes(cfg, Recorded(f, x), x);
  }

  /** The cpu once a handler that found collection running is past its recording. */
  function Recorded(c: Cpu, x: Choice): Cpu
    requires c.slot.Handler? && c.slot.pc.Checked?
  {
    c.(samples := c.samples + (if c.accept then x.records else 0), slot := Handler(Tested(c.slot.pc.trigger)))
  }

  lemma CheckedRecords(cfg: Config, c: Cpu, x: Choice)
    requires c.slot.Handler? && c.slot.pc.Checked? && c.group < |cfg.globals|
    ensures Finished(cfg, Running, c, x) == Finished(cfg, Running, Recorded(c, x), x)
  {
    var d := HandlerStep(cfg, Running, c, x);
    assert Finished(cfg, Running, c, x) == Finished(cfg, Running, d, x);
    if c.accept {
      assert Finished(cfg, Running, d, x) == Finished(cfg, Running, HandlerStep(cfg, Running, d, x), x);
    }
  }

  /** A whole handler while collection does not run: nothing is recorded, and the cpu is left stopped and masked. */
  lemma StoppedHandler(cfg: Config, phase: Phase, c: Cpu, x: Choice)
    requires c.slot == Handler(Entered(true)) && c.group < |cfg.globals| && c.inInterrupt == 0 && !phase.Running?
    ensures var g := if x.trigger then NextGroup(cfg, c.group) else c.group;
            g < |cfg.globals|
            && Finished(cfg, phase, c, x) ==
               Cpu(0, c.accept, 0, c.groupSwap || x.trigger, if x.trigger then 0 else x.reset, g, c.samples,
                   c.vector.(unmasked := false), Free)
  {
    var d := HandlerStep(cfg, phase, c, x);
    var e := HandlerStep(cfg, phase, d, x);
    var f := HandlerStep(cfg, phase, e, x);
    var h := HandlerStep(cfg, phase, f, x);
    assert Finished(cfg, phase, c, x) == Finished(cfg, phase, d, x);
    assert Finished(cfg, phase, d, x) == Finished(cfg, phase, e, x);
    assert Finished(cfg, phase, e, x) == Finished(cfg, phase, f, x);
    assert Finished(cfg, phase, f, x) == Finished(cfg, phase, h, x);
    var i := HandlerStep(cfg, phase, h, x);
    assert Finished(cfg, phase, h, x) == Finished(cfg, phase, i, x);
    if x.trigger {
      StoppedSwitches(cfg, phase, i, x);
    } else {
      StoppedLeaves(cfg, phase, i, x);
    }
  }

  lemma StoppedLeaves(cfg: Config, phase: Phase, c: Cpu, x: Choice)
    requires c.slot == Handler(Restarting) && c.group < |cfg.globals| && !phase.Running?
    ensures Finished(cfg, phase, c, x) == c.(inInterrupt := 0, slot := Free)
  {
    var d := HandlerStep(cfg, phase, c, x);
    var e := HandlerStep(cfg, phase, d, x);
    assert Finished(cfg, phase, d, x) == Finished(cfg, phase, e, x);
    assert Finished(cfg, phase, e, x) == HandlerStep(cfg, phase, e, x);
  }

  lemma StoppedSwitches(cfg: Config, phase: Phase, c: Cpu, x: Choice)
    requires c.slot == Handler(Switched) && c.group < |cfg.globals| && !phase.Running? && c.ctrl == 0
    ensures Finished(cfg, phase, c, x) == c.(resetMask := 0, groupSwap := true, inInterrupt := 0, slot := Free)
  {
    var off := c.(slot := Handler(ErrataOff));
    if cfg.errata {
      var d := HandlerStep(cfg, phase, c, x);
      var e := HandlerStep(cfg, phase, d, x);
      assert Finished(cfg, phase, d, x) == Finished(cfg, phase, e, x);
      assert Finished(cfg, phase, e, x) == Finished(cfg, phase, off, x);
    }
    assert Finished(cfg, phase, c, x) == Finished(cfg, phase, off, x);
    StoppedLeaves(cfg, phase, HandlerStep(cfg, phase, off, x), x);
  }

  /** Cpu k's handler, by its own steps only, comes to its test of the trigger count with n more samples recorded. */
  ghost predicate Records(cfg: Config, w: World, k: nat, x: Choice, n: nat) {
    k < |w.cpus| && exists acts, r ::
      && HandlerLeads(cfg, w, k, acts, r)
      && (forall i :: 0 <= i < |acts| ==> acts[i] == Handle(k, x))
      && r.cpus[k].slot.Handler? && r.cpus[k].slot.pc.Tested?
      && r.cpus[k].samples == w.cpus[k].samples + n
  }

  /** One more step of that handler before. */
  lemma RecordsOn(cfg: Config, w: World, k: nat, x: Choice, n: nat)
    requires Enabled(cfg, w, Handle(k, x)) && Records(cfg, Do(cfg, w, Handle(k, x)), k, x, n)
    requires w.cpus[k].samples <= Do(cfg, w, Handle(k, x)).cpus[k].samples
    ensures Records(cfg, w, k, x, Do(cfg, w, Handle(k, x)).cpus[k].samples - w.cpus[k].samples + n)
  {
    var acts, r :|
      && HandlerLeads(cfg, Do(cfg, w, Handle(k, x)), k, acts, r)
      && (forall i :: 0 <= i < |acts| ==> acts[i] == Handle(k, x))
      && r.cpus[k].slot.Handler? && r.cpus[k].slot.pc.Tested?
      && r.cpus[k].samples == Do(cfg, w, Handle(k, x)).cpus[k].samples + n;
    HandlerLeadsOn(cfg, w, k, x, acts, r);
  }

  lemma AtTestRecordsNothing(cfg: Config, w: World, k: nat, x: Choice)
    requires k < |w.cpus| && w.cpus[k].slot.Handler? && w.cpus[k].slot.pc.Tested?
    ensures Records(cfg, w, k, x, 0)
  {
    assert HandlerLeads(cfg, w, k, [], w);
  }

  lemma CheckedRecordsIn(cfg: Config, w: World, k: nat, x: Choice)
    requires WorldOk(cfg, w) && w.phase.Running? && k < |w.cpus| && w.cpus[k].slot.Handler? && w.cpus[k].slot.pc.Checked?
    ensures Records(cfg, w, k, x, if w.cpus[k].accept then x.records else 0)
  {
    var v := Do(cfg, w, Handle(k, x));
    var u := Do(cfg, v, Handle(k, x));
    if w.cpus[k].accept {
      AtTestRecordsNothing(cfg, Do(cfg, u, Handle(k, x)), k, x);
      RecordsOn(cfg, u, k, x, 0);
      RecordsOn(cfg, v, k, x, x.records);
      RecordsOn(cfg, w, k, x, x.records);
    } else {
      AtTestRecordsNothing(cfg, u, k, x);
      RecordsOn(cfg, v, k, x, 0);
      RecordsOn(cfg, w, k, x, 0);
    }
  }

  /**
    * In every state reached while collection runs, a handler at its phase test, on a cpu that the newest resume has
    * flagged, records by its own steps exactly what it is given if the mask allows its cpu, and nothing otherwise.
    */
  lemma RunningRecordsByMask(cfg: Config, w: World, acts: seq<Action>, r: World, k: nat, x: Choice)
    requires Started(cfg, w) && Leads(cfg, w, acts, r) && k < |r.cpus|
    requires r.phase.Running? && r.resumers != [] && k < r.resumers[|r.resumers| - 1].flagged
    requires r.cpus[k].slot.Handler? && r.cpus[k].slot.pc.Checked?
    ensures k < |cfg.mask| && Records(cfg, r, k, x, if cfg.mask[k] then x.records else 0)
  {
    MaskDecides(cfg, w, acts, r, k);
    StartedHolds(cfg, w);
    RunKeeps(cfg, w, acts, r);
    CheckedRecordsIn(cfg, r, k, x);
  }

  // ----- The pauser -----

  ghost predicate Cleared(w: World) {
    forall k :: 0 <= k < |w.cpus| && (w.pauser.Clearing? ==> k < w.pauser.i) ==> !w.cpus[k].accept
  }

  lemma {:induction false} RunClears(cfg: Config, w: World, acts: seq<Action>, r: World)
    requires Leads(cfg, w, acts, r) && Cleared(w) && forall i :: 0 <= i < |acts| ==> !acts[i].ResumeFlag?
    ensures Cleared(r)
    decreases |acts|
  {
    if acts != [] {
      StepClears(cfg, w, acts[0]);
      RunClears(cfg, Do(cfg, w, acts[0]), acts[1..], r);
    }
  }

  lemma StepClears(cfg: Config, w: World, a: Action)
    requires Enabled(cfg, w, a) && Cleared(w) && !a.ResumeFlag?
    ensures Cleared(Do(cfg, w, a))
  {}

  /** From the start of a pause on, until a resume flags a cpu, no cpu that the pauser has passed accepts samples. */
  lemma PauseClears(cfg: Config, w: World, acts: seq<Action>, r: World, k: nat)
    requires Enabled(cfg, w, PauseCas) && Leads(cfg, Do(cfg, w, PauseCas), acts, r) && k < |r.cpus|
    requires forall i :: 0 <= i < |acts| ==> !acts[i].ResumeFlag?
    ensures !r.pauser.Clearing? || k < r.pauser.i ==> !r.cpus[k].accept
  {
    RunClears(cfg, Do(cfg, w, PauseCas), acts, r);
  }

  /** In some state of the run no handler is inside on cpu k. */
  ghost predicate SeenOutside(cfg: Config, w: World, acts: seq<Action>, k: nat)
    decreases |acts|
  {
    k < |w.cpus| &&
    (!Inside(w.cpus[k]) || (acts != [] && Enabled(cfg, w, acts[0]) && SeenOutside(cfg, Do(cfg, w, acts[0]), acts[1..], k)))
  }

  lemma {:induction false} PauserSees(cfg: Config, w: World, acts: seq<Action>, r: World, k: nat)
    requires Inv(cfg, w) && MaskInv(cfg, w) && Leads(cfg, w, acts, r)
    requires w.pauser.Checking? && r.pauser.Freezing? && k < |w.cpus|
    ensures (k < w.pauser.i && w.pauser.clear) || SeenOutside(cfg, w, acts, k)
    decreases |acts|
  {
    assert acts != [];
    var v := Do(cfg, w, acts[0]);
    StepKeeps(cfg, w, acts[0]);
    StepMasked(cfg, w, acts[0]);
    assert Masked(w.cpus[k], cfg.mask[k], Flagged(w, k));
    if v.pauser.Checking? {
      PauserSees(cfg, v, acts[1..], r, k);
    }
  }

  /**
    * The pauser freezes no cpu before it has, since it began to wait, seen every cpu without a handler that has counted
    * itself in.
    */
  lemma PauserWaits(cfg: Config, w: World, before: seq<Action>, v: World, acts: seq<Action>, r: World, k: nat)
    requires Started(cfg, w) && Leads(cfg, w, before, v) && v.pauser == Checking(0, true)
    requires Leads(cfg, v, acts, r) && r.pauser.Freezing? && k < |v.cpus|
    ensures SeenOutside(cfg, v, acts, k)
  {
    StartedHolds(cfg, w);
    StartedMasked(cfg, w);
    RunKeeps(cfg, w, before, v);
    RunMasked(cfg, w, before, v);
    PauserSees(cfg, v, acts, r, k);
  }

  /** The pauser, by its own steps only, comes to freeze all cpus; nothing else changes. */
  ghost predicate Proceeds(cfg: Config, w: World) {
    exists acts ::
      && (forall i :: 0 <= i < |acts| ==> acts[i] == PauseStep)
      && Leads(cfg, w, acts, w.(pauser := Freezing(All(|w.cpus|))))
  }

  lemma ProceedsOn(cfg: Config, w: World, v: World)
    requires Enabled(cfg, w, PauseStep) && v == Do(cfg, w, PauseStep) && v.(pauser := w.pauser) == w && Proceeds(cfg, v)
    ensures Proceeds(cfg, w)
  {
    var acts :|
      && (forall i :: 0 <= i < |acts| ==> acts[i] == PauseStep)
      && Leads(cfg, v, acts, v.(pauser := Freezing(All(|v.cpus|))));
    assert ([PauseStep] + acts)[1..] == acts;
    assert Leads(cfg, w, [PauseStep] + acts, w.(pauser := Freezing(All(|w.cpus|))));
  }

  /** How many checks the pauser has before it at most, once no handler is inside. */
  function ChecksLeft(w: World): int
    requires w.pauser.Checking?
  {
    (|w.cpus| - w.pauser.i) + (if w.pauser.clear then 0 else |w.cpus| + 1)
  }

  /** It does not wait for ever: with no handler counted in it proceeds, wherever in its checks it stands. */
  lemma {:induction false} PauserProceeds(cfg: Config, w: World)
    requires WorldOk(cfg, w) && w.pauser.Checking? && w.pauser.i <= |w.cpus|
    requires forall k :: 0 <= k < |w.cpus| ==> w.cpus[k].inInterrupt == 0
    ensures Proceeds(cfg, w)
    decreases ChecksLeft(w)
  {
    var v := Do(cfg, w, PauseStep);
    if v.pauser.Checking? {
      PauserProceeds(cfg, v);
    } else {
      assert Leads(cfg, v, [], v.(pauser := Freezing(All(|v.cpus|))));
    }
    ProceedsOn(cfg, w, v);
  }
}

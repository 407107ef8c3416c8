/**
  * A sampling session on one cpu, from reserving the driver to terminating it: the phase machine around the
  * routines that save, use and restore model-specific registers.
  */
module Session {
  import opened Bits
  import opened Records
  import opened EventControl
  import Multiplexing

  const CORE2UNC_DISABLE_BL_BYPASS_MSR: Reg := 0x39C
  const CORE2UNC_BLBYPASS_BITMASK: nat := 1

  datatype Phase = Uninitialized | Reserved | Idle | Running | Paused | PrepareStop | Stopped

  /** `configured` says that a session's memory exists, `hooked` that interrupts reach the handler. */
  datatype State = State(phase: Phase, configured: bool, hooked: bool, saved: Option<(U64, U64)>,
                         bypassSaved: Option<U64>, msrs: Msrs)

  /** What a cpu is asked to do. `Work` stands for everything between: handlers, freezing, enabling, swapping. */
  datatype Action =
    | Reserve
    | Initialize
    | InitPmu(writes: seq<RegWrite>)
    | Start(paused: bool)
    | Pause
    | Resume
    | Work(writes: seq<RegWrite>)
    | PrepareToStop(cleaned: seq<RegWrite>)
    | FinishStop
    | Terminate

  /** Whether this cpu is a socket master whose event groups ask for the bypass to be disabled. */
  datatype Cpu = Cpu(disablesBypass: bool)

  function SetBypassBit(v: U64): (r: U64)
    ensures r == BitOr(v, CORE2UNC_BLBYPASS_BITMASK)
  {
    assert v < Pow2(64) && 1 < Pow2(64) by { SixtyFour(); }
    OrBelow(v, CORE2UNC_BLBYPASS_BITMASK, 64);
    SixtyFour();
    BitOr(v, CORE2UNC_BLBYPASS_BITMASK)
  }

  /** Disabling the bypass sets bit 0 and leaves all other bits. */
  lemma SetBypassBits(v: U64, k: nat)
    ensures Bit(SetBypassBit(v), k) <==> k == 0 || Bit(v, k)
  {
    assert Pow2(0) == CORE2UNC_BLBYPASS_BITMASK;
    SetsOneBit(v, 0, k);
  }

  lemma SixtyFour()
    ensures Pow2(64) == TWO_64
  {
    Pow2Adds(8, 8);
    Pow2Adds(16, 16);
    Pow2Adds(32, 32);
    assert Pow2(8) == 256;
  }

  /** Saves the cpu's registers, then programs the first group. A second call saves again. */
  function InitializeCpu(cpu: Cpu, s: State, writes: seq<RegWrite>): State {
    var saved := s.(saved := Some((Read(s.msrs, IA32_DEBUG_CTRL), Read(s.msrs, IA32_PERF_GLOBAL_CTRL))));
    var bypass := Read(s.msrs, CORE2UNC_DISABLE_BL_BYPASS_MSR);
    var x := if cpu.disablesBypass
             then saved.(bypassSaved := Some(bypass), msrs := s.msrs[CORE2UNC_DISABLE_BL_BYPASS_MSR := SetBypassBit(bypass)])
             else saved;
    x.(msrs := Apply(x.msrs, writes))
  }

  function CleanUpCpu(s: State, cleaned: seq<RegWrite>): State {
    var x := s.(msrs := Apply(s.msrs, cleaned));
    match x.bypassSaved
    case None => x
    case Some(v) => x.(msrs := x.msrs[CORE2UNC_DISABLE_BL_BYPASS_MSR := v], bypassSaved := None)
  }

  function DestroyCpu(s: State): State {
    match s.saved
    case None => s
    case Some(v) => s.(msrs := s.msrs[IA32_DEBUG_CTRL := v.0][IA32_PERF_GLOBAL_CTRL := v.1], saved := None)
  }

  /** One request; a request out of phase is refused and changes nothing. */
  function Do(cpu: Cpu, s: State, a: Action): State {
    match a
    case Reserve => if s.phase.Uninitialized? then s.(phase := Reserved) else s
    case Initialize =>
      if s.phase.Reserved? then s.(phase := Idle, configured := true, hooked := true, saved := None, bypassSaved := None) else s
    case InitPmu(writes) => if s.phase.Idle? then InitializeCpu(cpu, s, writes) else s
    case Start(paused) => if s.phase.Idle? then s.(phase := if paused then Paused else Running) else s
    case Pause => if s.phase.Running? then s.(phase := Paused) else s
    case Resume => if s.phase.Paused? then s.(phase := Running) else s
    case Work(writes) => if s.hooked then s.(msrs := Apply(s.msrs, writes)) else s
    case PrepareToStop(cleaned) =>
      if s.phase.Uninitialized? || !s.configured then s.(phase := PrepareStop) else CleanUpCpu(s, cleaned).(phase := PrepareStop)
    case FinishStop => if s.phase.PrepareStop? && s.configured then s.(phase := Stopped, hooked := false) else s
    case Terminate => if s.phase.Stopped? then DestroyCpu(s).(phase := Uninitialized, configured := false) else s
  }

  function Run(cpu: Cpu, s: State, acts: seq<Action>): State
    decreases |acts|
  {
    if acts == [] then s else Run(cpu, Do(cpu, s, acts[0]), acts[1..])
  }

  /** In which phases a request is served; work reaches the cpu while its interrupts do, and a stop is always prepared. */
  predicate Serves(s: State, a: Action) {
    match a
    case Reserve => s.phase == Uninitialized
    case Initialize => s.phase == Reserved
    case InitPmu(_) => s.phase == Idle
    case Start(_) => s.phase == Idle
    case Pause => s.phase == Running
    case Resume => s.phase == Paused
    case Work(_) => s.hooked
    case PrepareToStop(_) => true
    case FinishStop => s.phase == PrepareStop && s.configured
    case Terminate => s.phase == Stopped
  }

  /** A request out of phase changes nothing; one that is served leads to its own phase, and work to none. */
  lemma RequestsLead(cpu: Cpu, s: State, a: Action)
    ensures !Serves(s, a) ==> Do(cpu, s, a) == s
    ensures Serves(s, a) ==>
              Do(cpu, s, a).phase ==
              match a
              case Reserve => Reserved
              case Initialize => Idle
              case InitPmu(_) => Idle
              case Start(paused) => if paused then Paused else Running
              case Pause => Paused
              case Resume => Running
              case Work(_) => s.phase
              case PrepareToStop(_) => PrepareStop
              case FinishStop => Stopped
              case Terminate => Uninitialized
  {}

  /** Interrupts reach the handler from a session's initialization until its stop, and its memory exists until its end. */
  lemma {:induction false} HookedExactly(cpu: Cpu, s: State, acts: seq<Action>)
    requires s.phase.Uninitialized? && !s.hooked && !s.configured
    ensures var r := Run(cpu, s, acts);
            && (r.hooked ==> r.configured)
            && (r.phase.Idle? || r.phase.Running? || r.phase.Paused? ==> r.hooked)
            && (r.phase.Uninitialized? || r.phase.Reserved? || r.phase.Stopped? ==> !r.hooked)
            && (r.phase.Stopped? ==> r.configured) && (r.phase.Uninitialized? || r.phase.Reserved? ==> !r.configured)
    decreases |acts|
  {
    HookedFrom(cpu, s, acts);
  }

  ghost predicate HookedOk(s: State) {
    && (s.hooked ==> s.configured)
    && (s.phase.Idle? || s.phase.Running? || s.phase.Paused? ==> s.hooked)
    && (s.phase.Uninitialized? || s.phase.Reserved? || s.phase.Stopped? ==> !s.hooked)
    && (s.phase.Stopped? ==> s.configured) && (s.phase.Uninitialized? || s.phase.Reserved? ==> !s.configured)
  }

  lemma {:induction false} HookedFrom(cpu: Cpu, s: State, acts: seq<Action>)
    requires HookedOk(s)
    ensures HookedOk(Run(cpu, s, acts))
    decreases |acts|
  {
    if acts != [] {
      HookedFrom(cpu, Do(cpu, s, acts[0]), acts[1..]);
    }
  }

  predicate Spares(writes: seq<RegWrite>) {
    forall i :: 0 <= i < |writes| ==> writes[i].reg != CORE2UNC_DISABLE_BL_BYPASS_MSR
  }

  /** No event group lists the bypass register. */
  predicate SparesBypass(a: Action) {
    match a
    case InitPmu(ws) => Spares(ws)
    case Work(ws) => Spares(ws)
    case PrepareToStop(ws) => Spares(ws)
    case _ => true
  }

  /** Requests that neither touch registers nor save them. */
  predicate Opens(a: Action) { a.Reserve? || a.Initialize? }

  /** Requests of a session already initialized: anything but saving again or ending it. */
  predicate During(a: Action) { !a.InitPmu? && !a.Initialize? && !a.Terminate? && SparesBypass(a) }

  lemma {:induction false} OpeningKeepsRegisters(cpu: Cpu, s: State, acts: seq<Action>)
    requires forall i :: 0 <= i < |acts| ==> Opens(acts[i])
    ensures Run(cpu, s, acts).msrs == s.msrs
    decreases |acts|
  {
    if acts != [] {
      OpeningKeepsRegisters(cpu, Do(cpu, s, acts[0]), acts[1..]);
    }
  }

  /** What stands between saving and restoring: the saved pair is kept, and the bypass value is saved or already back. */
  ghost predicate Holds(s: State, saved: (U64, U64), bypass: U64) {
    && s.saved == Some(saved)
    && (if s.bypassSaved.Some? then s.bypassSaved.value == bypass
        else Read(s.msrs, CORE2UNC_DISABLE_BL_BYPASS_MSR) == bypass)
    && (s.phase.Stopped? || s.phase.PrepareStop? ==> s.bypassSaved.None?)
    && s.configured
    && !s.phase.Uninitialized?
  }

  lemma DoHolds(cpu: Cpu, s: State, a: Action, saved: (U64, U64), bypass: U64)
    requires During(a) && Holds(s, saved, bypass)
    ensures Holds(Do(cpu, s, a), saved, bypass)
  {
    match a
    case Work(ws) => ApplyElsewhere(s.msrs, ws, CORE2UNC_DISABLE_BL_BYPASS_MSR);
    case PrepareToStop(ws) => ApplyElsewhere(s.msrs, ws, CORE2UNC_DISABLE_BL_BYPASS_MSR);
    case _ =>
  }

  lemma {:induction false} RunHolds(cpu: Cpu, s: State, acts: seq<Action>, saved: (U64, U64), bypass: U64)
    requires (forall i :: 0 <= i < |acts| ==> During(acts[i])) && Holds(s, saved, bypass)
    ensures Holds(Run(cpu, s, acts), saved, bypass)
    decreases |acts|
  {
    if acts != [] {
      DoHolds(cpu, s, acts[0], saved, bypass);
      RunHolds(cpu, Do(cpu, s, acts[0]), acts[1..], saved, bypass);
    }
  }

  /** The saved registers of a cpu. */
  function Controls(s: State): (U64, U64) { (Read(s.msrs, IA32_DEBUG_CTRL), Read(s.msrs, IA32_PERF_GLOBAL_CTRL)) }

  /** From an initialization on, through any requests and any work, to termination. */
  function Finish(cpu: Cpu, x: State, writes: seq<RegWrite>, acts: seq<Action>): State {
    Do(cpu, Run(cpu, Do(cpu, x, InitPmu(writes)), acts), Terminate)
  }

  ghost predicate Completes(cpu: Cpu, x: State, writes: seq<RegWrite>, acts: seq<Action>) {
    && x.phase.Idle? && x.configured && (x.bypassSaved.Some? ==> cpu.disablesBypass)
    && Spares(writes) && (forall i :: 0 <= i < |acts| ==> During(acts[i]))
    && Run(cpu, Do(cpu, x, InitPmu(writes)), acts).phase.Stopped?
  }

  /** Termination brings back what the last initialization found, whatever happened in between. */
  lemma LastInitDecides(cpu: Cpu, x: State, writes: seq<RegWrite>, acts: seq<Action>)
    requires Completes(cpu, x, writes, acts)
    ensures var r := Finish(cpu, x, writes, acts);
            && r.phase.Uninitialized? && Controls(r) == Controls(x)
            && Read(r.msrs, CORE2UNC_DISABLE_BL_BYPASS_MSR) == Read(x.msrs, CORE2UNC_DISABLE_BL_BYPASS_MSR)
  {
    var y := Do(cpu, x, InitPmu(writes));
    var bypass := Read(x.msrs, CORE2UNC_DISABLE_BL_BYPASS_MSR);
    ApplyElsewhere(if cpu.disablesBypass then x.msrs[CORE2UNC_DISABLE_BL_BYPASS_MSR := SetBypassBit(bypass)] else x.msrs,
                   writes, CORE2UNC_DISABLE_BL_BYPASS_MSR);
    assert Holds(y, Controls(x), bypass);
    RunHolds(cpu, y, acts, Controls(x), bypass);
    var z := Run(cpu, y, acts);
    assert Do(cpu, z, Terminate) == DestroyCpu(z).(phase := Uninitialized, configured := false);
  }

  /**
    * A session restores the hardware: initialized once, then any requests and any register work, then stopped
    * and terminated, the debug-control, global-control and bypass registers are back to what they were.
    */
  lemma SessionRestores(cpu: Cpu, s: State, opening: seq<Action>, writes: seq<RegWrite>, acts: seq<Action>)
    requires (forall i :: 0 <= i < |opening| ==> Opens(opening[i])) && Completes(cpu, Run(cpu, s, opening), writes, acts)
    ensures var r := Finish(cpu, Run(cpu, s, opening), writes, acts);
            && r.phase.Uninitialized? && Controls(r) == Controls(s)
            && Read(r.msrs, CORE2UNC_DISABLE_BL_BYPASS_MSR) == Read(s.msrs, CORE2UNC_DISABLE_BL_BYPASS_MSR)
  {
    OpeningKeepsRegisters(cpu, s, opening);
    LastInitDecides(cpu, Run(cpu, s, opening), writes, acts);
  }

  // ----- More than one initialization -----

  /** What initializing the counters writes: the errata routine, then the first group's registers. */
  function Programs(cfg: Multiplexing.Config, noise: seq<RegWrite>): seq<RegWrite>
    requires cfg.groups != []
  {
    var es := cfg.groups[0].entries;
    (if cfg.hwErrata then Multiplexing.ErrataWrites(cfg, noise) else []) + Multiplexing.InitialWrites(cfg, es, |es|)
  }

  /** The last of the first `hi` entries that lists register r. */
  function Listed(es: seq<Entry>, r: Reg, hi: nat): (e: Option<Entry>)
    requires hi <= |es|
    ensures e.Some? ==> e.value in es && e.value.regId == r
  {
    if hi == 0 then None else if es[hi - 1].regId == r then Some(es[hi - 1]) else Listed(es, r, hi - 1)
  }

  lemma {:induction false} InitialWritesRead(cfg: Multiplexing.Config, m: Msrs, es: seq<Entry>, r: Reg, hi: nat)
    requires hi <= |es| && r != 0
    ensures Read(Apply(m, Multiplexing.InitialWrites(cfg, es, hi)), r)
         == match Listed(es, r, hi) case None => Read(m, r) case Some(e) => Multiplexing.InitialValue(cfg, e)
  {
    if hi > 0 {
      InitialWritesRead(cfg, m, es, r, hi - 1);
      var ws := Multiplexing.InitialWrites(cfg, es, hi - 1);
      if es[hi - 1].regId != 0 {
        ApplySnoc(m, ws, RegWrite(es[hi - 1].regId, Multiplexing.InitialValue(cfg, es[hi - 1])));
      } else {
        assert ws + [] == ws;
      }
    }
  }

  /** The control registers after an initialization that found `c`. */
  function Initialized(cfg: Multiplexing.Config, c: (U64, U64)): (U64, U64)
    requires cfg.groups != []
  {
    var es := cfg.groups[0].entries;
    var debug := Listed(es, IA32_DEBUG_CTRL, |es|);
    (if debug.Some? then debug.value.regValue else c.0,
     if cfg.hwErrata || Listed(es, IA32_PERF_GLOBAL_CTRL, |es|).Some? then 0 else c.1)
  }

  /** The errata routine leaves debug control alone and global control 0. */
  lemma ErrataControls(cfg: Multiplexing.Config, m: Msrs, noise: seq<RegWrite>)
    requires cfg.hwErrata && Multiplexing.IsNoise(noise)
    ensures var x := Apply(m, Multiplexing.ErrataWrites(cfg, noise));
            Read(x, IA32_DEBUG_CTRL) == Read(m, IA32_DEBUG_CTRL) && Read(x, IA32_PERF_GLOBAL_CTRL) == 0
  {
    Multiplexing.ErrataClobbers(cfg, m, noise, 0xC1);
    var ws := Multiplexing.ErrataWrites(cfg, noise);
    forall w | w in ws ensures w.reg != IA32_DEBUG_CTRL {
    }
    ApplyElsewhere(m, ws, IA32_DEBUG_CTRL);
  }

  lemma ProgramsControls(cfg: Multiplexing.Config, m: Msrs, noise: seq<RegWrite>)
    requires cfg.groups != [] && Multiplexing.IsNoise(noise)
    ensures var x := Apply(m, Programs(cfg, noise));
            var found := (Read(m, IA32_DEBUG_CTRL), Read(m, IA32_PERF_GLOBAL_CTRL));
            Initialized(cfg, found) == (Read(x, IA32_DEBUG_CTRL), Read(x, IA32_PERF_GLOBAL_CTRL))
  {
    var es := cfg.groups[0].entries;
    var fix := if cfg.hwErrata then Multiplexing.ErrataWrites(cfg, noise) else [];
    if cfg.hwErrata {
      ErrataControls(cfg, m, noise);
    }
    Multiplexing.ApplyConcat(m, fix, Multiplexing.InitialWrites(cfg, es, |es|));
    InitialWritesRead(cfg, Apply(m, fix), es, IA32_DEBUG_CTRL, |es|);
    InitialWritesRead(cfg, Apply(m, fix), es, IA32_PERF_GLOBAL_CTRL, |es|);
  }

  lemma InitControls(cpu: Cpu, cfg: Multiplexing.Config, s: State, noise: seq<RegWrite>)
    requires cfg.groups != [] && Multiplexing.IsNoise(noise)
    ensures Controls(InitializeCpu(cpu, s, Programs(cfg, noise))) == Initialized(cfg, Controls(s))
  {
    var bypass := Read(s.msrs, CORE2UNC_DISABLE_BL_BYPASS_MSR);
    ProgramsControls(cfg, if cpu.disablesBypass then s.msrs[CORE2UNC_DISABLE_BL_BYPASS_MSR := SetBypassBit(bypass)] else s.msrs, noise);
  }

  function Bypass(s: State): U64 { Read(s.msrs, CORE2UNC_DISABLE_BL_BYPASS_MSR) }

  /** The bypass register after an initialization that found v: the value listed, else v with the bit set where asked for. */
  function InitializedBypass(cpu: Cpu, cfg: Multiplexing.Config, v: U64): U64
    requires cfg.groups != []
  {
    var es := cfg.groups[0].entries;
    var bypass := Listed(es, CORE2UNC_DISABLE_BL_BYPASS_MSR, |es|);
    if bypass.Some? then bypass.value.regValue else if cpu.disablesBypass then SetBypassBit(v) else v
  }

  lemma InitBypass(cpu: Cpu, cfg: Multiplexing.Config, s: State, noise: seq<RegWrite>)
    requires cfg.groups != [] && Multiplexing.IsNoise(noise)
    ensures Bypass(InitializeCpu(cpu, s, Programs(cfg, noise))) == InitializedBypass(cpu, cfg, Bypass(s))
  {
    var m := if cpu.disablesBypass then s.msrs[CORE2UNC_DISABLE_BL_BYPASS_MSR := SetBypassBit(Bypass(s))] else s.msrs;
    var es := cfg.groups[0].entries;
    var fix := if cfg.hwErrata then Multiplexing.ErrataWrites(cfg, noise) else [];
    forall w | w in fix ensures w.reg != CORE2UNC_DISABLE_BL_BYPASS_MSR {
    }
    ApplyElsewhere(m, fix, CORE2UNC_DISABLE_BL_BYPASS_MSR);
    Multiplexing.ApplyConcat(m, fix, Multiplexing.InitialWrites(cfg, es, |es|));
    InitialWritesRead(cfg, Apply(m, fix), es, CORE2UNC_DISABLE_BL_BYPASS_MSR, |es|);
  }

  /** What may come before the last initialization: requests that open the session, and other initializations. */
  ghost predicate Prepares(cfg: Multiplexing.Config, a: Action)
    requires cfg.groups != []
  {
    Opens(a) || (a.InitPmu? && exists noise :: Multiplexing.IsNoise(noise) && a.writes == Programs(cfg, noise))
  }

  /** Whether one of the requests initializes the counters: it asks for that when the session is idle. */
  predicate Initializes(cpu: Cpu, s: State, acts: seq<Action>)
    decreases |acts|
  {
    acts != [] && ((acts[0].InitPmu? && s.phase.Idle?) || Initializes(cpu, Do(cpu, s, acts[0]), acts[1..]))
  }

  lemma {:induction false} PreparedControls(cpu: Cpu, cfg: Multiplexing.Config, s: State, before: seq<Action>)
    requires cfg.groups != [] && forall i :: 0 <= i < |before| ==> Prepares(cfg, before[i])
    ensures Controls(Run(cpu, s, before))
         == if Initializes(cpu, s, before) then Initialized(cfg, Controls(s)) else Controls(s)
    decreases |before|
  {
    if before != [] {
      var a := before[0];
      assert Prepares(cfg, a);
      if a.InitPmu? && s.phase.Idle? {
        var noise :| Multiplexing.IsNoise(noise) && a.writes == Programs(cfg, noise);
        InitControls(cpu, cfg, s, noise);
      }
      PreparedControls(cpu, cfg, Do(cpu, s, a), before[1..]);
    }
  }

  /** A second initialization saves the bypass register with its bit already set. */
  lemma {:induction false} PreparedBypass(cpu: Cpu, cfg: Multiplexing.Config, s: State, before: seq<Action>)
    requires cfg.groups != [] && forall i :: 0 <= i < |before| ==> Prepares(cfg, before[i])
    ensures Bypass(Run(cpu, s, before))
         == if Initializes(cpu, s, before) then InitializedBypass(cpu, cfg, Bypass(s)) else Bypass(s)
    decreases |before|
  {
    if before != [] {
      var a := before[0];
      assert Prepares(cfg, a);
      if a.InitPmu? && s.phase.Idle? {
        var noise :| Multiplexing.IsNoise(noise) && a.writes == Programs(cfg, noise);
        InitBypass(cpu, cfg, s, noise);
        OrIdempotent(Bypass(s), CORE2UNC_BLBYPASS_BITMASK);
      }
      PreparedBypass(cpu, cfg, Do(cpu, s, a), before[1..]);
    }
  }

  /** Initializing leaves the bypass register as it is: the value listed is its own, or the bit, where asked for, was set. */
  predicate BypassAsFound(cpu: Cpu, cfg: Multiplexing.Config, v: U64)
    requires cfg.groups != []
  {
    var es := cfg.groups[0].entries;
    var bypass := Listed(es, CORE2UNC_DISABLE_BL_BYPASS_MSR, |es|);
    if bypass.Some? then bypass.value.regValue == v else cpu.disablesBypass ==> SetBypassBit(v) == v
  }

  /** The three registers a session saves and restores. */
  predicate SameRegisters(s: State, r: State) { Controls(r) == Controls(s) && Bypass(r) == Bypass(s) }

  /** What initializing writes to the control registers is what they hold. */
  ghost predicate AsFound(cfg: Multiplexing.Config, c: (U64, U64))
    requires cfg.groups != []
  {
    var es := cfg.groups[0].entries;
    && (Listed(es, IA32_DEBUG_CTRL, |es|).Some? ==> Listed(es, IA32_DEBUG_CTRL, |es|).value.regValue == c.0)
    && (cfg.hwErrata || Listed(es, IA32_PERF_GLOBAL_CTRL, |es|).Some? ==> c.1 == 0)
  }

  /**
    * In general the three registers come back if and only if the counters are initialized once, or: the debug-control
    * value the first group lists, if any, is the original one; global control, if initializing writes it, was 0; and the
    * bypass register holds the value listed, or else had its bit set if this cpu sets it. Each comes back by its own part.
    */
  lemma SessionRestoresExactly(cpu: Cpu, cfg: Multiplexing.Config, s: State, before: seq<Action>, writes: seq<RegWrite>,
                               acts: seq<Action>)
    requires cfg.groups != [] && forall i :: 0 <= i < |before| ==> Prepares(cfg, before[i])
    requires Completes(cpu, Run(cpu, s, before), writes, acts)
    ensures var r := Finish(cpu, Run(cpu, s, before), writes, acts);
            && (Controls(r) == Controls(s) <==> (Initializes(cpu, s, before) ==> AsFound(cfg, Controls(s))))
            && (Bypass(r) == Bypass(s) <==> (Initializes(cpu, s, before) ==> BypassAsFound(cpu, cfg, Bypass(s))))
            && (SameRegisters(s, r) <==>
                  (Initializes(cpu, s, before) ==> AsFound(cfg, Controls(s)) && BypassAsFound(cpu, cfg, Bypass(s))))
  {
    PreparedControls(cpu, cfg, s, before);
    PreparedBypass(cpu, cfg, s, before);
    LastInitDecides(cpu, Run(cpu, s, before), writes, acts);
  }

  lemma {:induction false} RunConcat(cpu: Cpu, s: State, first: seq<Action>, second: seq<Action>)
    ensures Run(cpu, s, first + second) == Run(cpu, Run(cpu, s, first), second)
    decreases |first|
  {
    if first == [] {
      assert first + second == second;
    } else {
      assert (first + second)[1..] == first[1..] + second;
      RunConcat(cpu, Do(cpu, s, first[0]), first[1..], second);
    }
  }

  lemma RunThree(cpu: Cpu, s: State, a: Action, b: Action, c: Action)
    ensures Run(cpu, s, [a, b, c]) == Do(cpu, Do(cpu, Do(cpu, s, a), b), c)
  {
    assert [a, b, c][1..] == [b, c] && [b, c][1..] == [c];
    assert Run(cpu, Do(cpu, Do(cpu, s, a), b), [c]) == Do(cpu, Do(cpu, Do(cpu, s, a), b), c);
    assert Run(cpu, Do(cpu, s, a), [b, c]) == Run(cpu, Do(cpu, Do(cpu, s, a), b), [c]);
  }

  /** An idle session that has been initialized once may be initialized again, started, stopped and terminated. */
  lemma TwicePrepared(cpu: Cpu, s: State, writes: seq<RegWrite>)
    requires s.phase.Uninitialized? && Spares(writes)
    ensures var before := [Reserve, Initialize, InitPmu(writes)];
            && Initializes(cpu, s, before)
            && Completes(cpu, Run(cpu, s, before), writes, [Start(false), PrepareToStop([]), FinishStop])
  {
    var before, acts := [Reserve, Initialize, InitPmu(writes)], [Start(false), PrepareToStop([]), FinishStop];
    RunThree(cpu, s, Reserve, Initialize, InitPmu(writes));
    var x := Run(cpu, s, before);
    RunThree(cpu, Do(cpu, x, InitPmu(writes)), Start(false), PrepareToStop([]), FinishStop);
    assert before[1..] == [Initialize, InitPmu(writes)] && before[1..][1..] == [InitPmu(writes)];
    assert Initializes(cpu, Do(cpu, Do(cpu, s, Reserve), Initialize), [InitPmu(writes)]);
    assert Initializes(cpu, Do(cpu, s, Reserve), before[1..]);
  }

  /** A whole session whose counters are initialized twice: reserve, initialize, program twice, start, stop, terminate. */
  function TwiceInitialized(cpu: Cpu, cfg: Multiplexing.Config, s: State, noise: seq<RegWrite>): State
    requires cfg.groups != []
  {
    var program := InitPmu(Programs(cfg, noise));
    Run(cpu, s, [Reserve, Initialize, program, program, Start(false), PrepareToStop([]), FinishStop, Terminate])
  }

  /**
    * Whatever the configuration and the registers, such a session ends with what the first of its initializations
    * wrote, so with the original values only if that wrote what it found.
    */
  lemma SecondInitForgets(cpu: Cpu, cfg: Multiplexing.Config, s: State, noise: seq<RegWrite>)
    requires cfg.groups != [] && Multiplexing.IsNoise(noise) && Spares(Programs(cfg, noise)) && s.phase.Uninitialized?
    ensures var r := TwiceInitialized(cpu, cfg, s, noise);
            && r.phase.Uninitialized?
            && Controls(r) == Initialized(cfg, Controls(s))
            && Bypass(r) == InitializedBypass(cpu, cfg, Bypass(s))
            && (SameRegisters(s, r) <==> AsFound(cfg, Controls(s)) && BypassAsFound(cpu, cfg, Bypass(s)))
  {
    var program := InitPmu(Programs(cfg, noise));
    var before, acts := [Reserve, Initialize, program], [Start(false), PrepareToStop([]), FinishStop];
    assert [Reserve, Initialize, program, program, Start(false), PrepareToStop([]), FinishStop, Terminate]
        == before + ([program] + (acts + [Terminate]));
    RunConcat(cpu, s, before, [program] + (acts + [Terminate]));
    var x := Run(cpu, s, before);
    assert ([program] + (acts + [Terminate]))[1..] == acts + [Terminate];
    RunConcat(cpu, Do(cpu, x, program), acts, [Terminate]);
    assert [Terminate][1..] == [];
    TwicePrepared(cpu, s, Programs(cfg, noise));
    assert Prepares(cfg, program);
    PreparedControls(cpu, cfg, s, before);
    PreparedBypass(cpu, cfg, s, before);
    LastInitDecides(cpu, x, Programs(cfg, noise), acts);
  }

  /** An entry of the control range. */
  function Control(r: Reg, v: U64): Entry { Entry(r, v, 0, 0, false, false, false, false, false, false, false) }

  /** A group whose first registers are those the enable routine expects. */
  function DemoGroup(debug: U64): Ecb {
    Ecb([Control(IA32_PERF_GLOBAL_CTRL, 3), Control(IA32_PERF_GLOBAL_OVF_CTRL, 0),
         Control(IA32_PEBS_ENABLE, 0), Control(IA32_DEBUG_CTRL, debug)], 0, 0, 0, 0, 0, 0)
  }

  function Demo(debug: U64): (cfg: Multiplexing.Config)
    ensures cfg.groups != []
  {
    Multiplexing.Config([DemoGroup(debug), DemoGroup(debug)], 4, 1, 0, 0, false, false, false)
  }

  /** A machine at rest. */
  const REST := State(Uninitialized, false, false, None, None, map[])

  lemma DemoPrograms(debug: U64)
    ensures Multiplexing.ConfigOk(Demo(debug)) && Spares(Programs(Demo(debug), []))
    ensures Listed(DemoGroup(debug).entries, IA32_DEBUG_CTRL, 4) == Some(Control(IA32_DEBUG_CTRL, debug))
    ensures Listed(DemoGroup(debug).entries, CORE2UNC_DISABLE_BL_BYPASS_MSR, 4) == None
  {
    var cfg, es := Demo(debug), DemoGroup(debug).entries;
    assert Listed(es, CORE2UNC_DISABLE_BL_BYPASS_MSR, 2) == None;
    var ws := [RegWrite(IA32_PERF_GLOBAL_CTRL, 0), RegWrite(IA32_PERF_GLOBAL_OVF_CTRL, 0), RegWrite(IA32_PEBS_ENABLE, 0),
               RegWrite(IA32_DEBUG_CTRL, debug)];
    assert Multiplexing.InitialWrites(cfg, es, 1) == ws[..1];
    assert Multiplexing.InitialWrites(cfg, es, 2) == ws[..2];
    assert Multiplexing.InitialWrites(cfg, es, 3) == ws[..3];
    assert Programs(cfg, []) == ws;
  }

  /** A well-formed configuration for which such a session, from a machine at rest, changes the control registers. */
  lemma SecondInitLoses(cpu: Cpu)
    ensures Multiplexing.ConfigOk(Demo(1)) && Controls(TwiceInitialized(cpu, Demo(1), REST, [])) != Controls(REST)
  {
    DemoPrograms(1);
    SecondInitForgets(cpu, Demo(1), REST, []);
  }

  /** One for which the control registers come back, and the bypass register is left changed. */
  lemma SecondInitLosesBypass()
    ensures Multiplexing.ConfigOk(Demo(0))
    ensures var r := TwiceInitialized(Cpu(true), Demo(0), REST, []);
            Controls(r) == Controls(REST) && Bypass(REST) == 0 && Bypass(r) == 1
  {
    DemoPrograms(0);
    SecondInitForgets(Cpu(true), Demo(0), REST, []);
    assert BitOr(0, 1) == 1;
  }
}

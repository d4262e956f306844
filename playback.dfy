/** The playback state machine every player shares: a current step index into
    a trace, a playing flag, a speed, and a repeating interval whose callback
    advances the index. Timers are abstract: `setInterval` hands out a fresh
    id, `clearInterval` retires one, and a tick is the callback of a live id. */
module Playback {
  import opened Wrappers
  import opened StepModel

  function Min(a: int, b: int): int { if a <= b then a else b }
  function Max(a: int, b: int): int { if a >= b then a else b }

  // ---------------------------------------------------------------------------
  // Intervals

  /** `ref` is the stored handle (`intervalRef.current`, `state.intervalId`);
      `live` maps each interval not yet cleared to the trace length its
      callback reads; `next` is the id the next `setInterval` returns. */
  datatype Timers = Timers(ref: Option<nat>, live: map<nat, int>, next: nat)

  /** At most one interval runs, and it is the stored one. */
  predicate TimersOk(t: Timers) {
    forall id :: id in t.live ==> t.ref == Some(id)
  }

  /** `if (ref) clearInterval(ref)`: the stored interval stops; the handle
      itself stays stored. */
  function ClearStored(t: Timers): (r: Timers)
    ensures r.ref == t.ref && r.next == t.next && r.live.Keys <= t.live.Keys
    ensures TimersOk(t) ==> r.live == map[]
  {
    if t.ref.Some? then t.(live := t.live - {t.ref.value}) else t
  }

  /** Clear the stored interval, then store a fresh one whose callback reads `length`. */
  function StartNew(t: Timers, length: int): (r: Timers)
    ensures TimersOk(t) ==> TimersOk(r) && r.live == map[t.next := length]
    ensures r.ref == Some(t.next) && r.next == t.next + 1
  {
    var c := ClearStored(t);
    Timers(Some(c.next), c.live[c.next := length], c.next + 1)
  }

  /** `stopPlayback` of the static page: clear the stored interval and forget its handle. */
  function ClearAndForget(t: Timers): (r: Timers)
    ensures r.ref.None? && r.next == t.next
    ensures TimersOk(t) ==> r.live == map[]
  {
    if t.ref.Some? then Timers(None, t.live - {t.ref.value}, t.next) else t
  }

  // ---------------------------------------------------------------------------
  // The player state

  datatype Player = Player(steps: seq<Step>, index: int, playing: bool, speed: int, timers: Timers)

  /** What every handler keeps: one stored interval at most, running exactly
      while the player plays, and an index on the trace when there is one. */
  predicate Valid(p: Player) {
    TimersOk(p.timers) && (p.playing <==> p.timers.live != map[]) &&
    (|p.steps| > 0 ==> 0 <= p.index < |p.steps|)
  }

  /** A fresh player: the given initial trace, index 0, paused, no interval. */
  function Fresh(steps: seq<Step>, speed: int): (p: Player)
    ensures Valid(p) && !p.playing && p.index == 0 && p.steps == steps && p.speed == speed
    ensures p.timers.ref.None?
  {
    Player(steps, 0, false, speed, Timers(None, map[], 1))
  }

  // ---------------------------------------------------------------------------
  // The React players (3D visualizer, visualization player, the two enhanced players)

  /** `togglePlayPause`: start a fresh interval (after clearing the stored
      one), or clear the stored one. */
  function TogglePlayPause(p: Player): (r: Player)
    ensures r.playing == !p.playing && r.index == p.index && r.steps == p.steps && r.speed == p.speed
    ensures r.playing ==> r.timers.ref == Some(p.timers.next)
  {
    if !p.playing then p.(playing := true, timers := StartNew(p.timers, |p.steps|))
    else p.(playing := false, timers := ClearStored(p.timers))
  }

  /** Stop playback when playing: the shared prelude of the step and reset buttons. */
  function Paused(p: Player): (r: Player)
    ensures !r.playing && r.index == p.index && r.steps == p.steps && r.speed == p.speed
  {
    if p.playing then p.(playing := false, timers := ClearStored(p.timers)) else p
  }

  /** `stepForward`: pause, then move to `min(i + 1, len - 1)`. */
  function StepForward(p: Player): (r: Player)
    ensures !r.playing && r.index == Min(p.index + 1, |p.steps| - 1) && r.steps == p.steps
  {
    Paused(p).(index := Min(p.index + 1, |p.steps| - 1))
  }

  /** `stepBackward`: pause, then move to `max(i - 1, 0)`. */
  function StepBackward(p: Player): (r: Player)
    ensures !r.playing && r.index == Max(p.index - 1, 0) && r.steps == p.steps
  {
    Paused(p).(index := Max(p.index - 1, 0))
  }

  /** `resetVisualization`: pause and go back to the first step. */
  function Reset(p: Player): (r: Player)
    ensures !r.playing && r.index == 0 && r.steps == p.steps
  {
    Paused(p).(index := 0)
  }

  /** The callback of live interval `id`, reading the current trace: advance
      while not at the last step, else clear the stored interval and stop.
      It does not look at the playing flag. */
  function Tick(p: Player, id: nat): (r: Player)
    requires id in p.timers.live
    ensures r.steps == p.steps && r.speed == p.speed
    ensures r.index == p.index + 1 <==> p.index < |p.steps| - 1
    ensures r.index != p.index + 1 ==>
      r.index == p.index && !r.playing && (TimersOk(p.timers) ==> r.timers.live == map[])
    ensures 0 <= p.index < |p.steps| ==> 0 <= r.index < |p.steps|
  {
    if p.index < |p.steps| - 1 then p.(index := p.index + 1)
    else p.(playing := false, timers := ClearStored(p.timers))
  }

  /** The enhanced players' callback as written: it reads the trace length
      captured when playback started, not the current one. */
  function TickCaptured(p: Player, id: nat): (r: Player)
    requires id in p.timers.live
    ensures r.steps == p.steps && r.speed == p.speed
    ensures r.index == p.index + 1 <==> p.index < p.timers.live[id] - 1
    ensures r.index != p.index + 1 ==>
      r.index == p.index && !r.playing && (TimersOk(p.timers) ==> r.timers.live == map[])
  {
    if p.index < p.timers.live[id] - 1 then p.(index := p.index + 1)
    else p.(playing := false, timers := ClearStored(p.timers))
  }

  /** `updateSpeed` of the 3D visualizer: restart the interval at the new
      speed when playing with a stored handle. */
  function UpdateSpeed3D(p: Player, speed: int): (r: Player)
    ensures r.speed == speed && r.playing == p.playing && r.index == p.index && r.steps == p.steps
  {
    if p.playing && p.timers.ref.Some? then p.(speed := speed, timers := StartNew(p.timers, |p.steps|))
    else p.(speed := speed)
  }

  /** The `+` and `-` keys of the 3D visualizer. */
  function KeySpeedUp(p: Player): Player { UpdateSpeed3D(p, Min(10, p.speed + 1)) }
  function KeySpeedDown(p: Player): Player { UpdateSpeed3D(p, Max(1, p.speed - 1)) }

  /** The speed slider of the visualization player: restart the interval when playing. */
  function UpdateSpeedSlider(p: Player, speed: int): (r: Player)
    ensures r.speed == speed && r.playing == p.playing && r.index == p.index && r.steps == p.steps
  {
    if p.playing then p.(speed := speed, timers := StartNew(p.timers, |p.steps|))
    else p.(speed := speed)
  }

  /** The `-` and `+` buttons of the visualization player: a step of one, only above 1 or below 10. */
  function SpeedDown(p: Player): Player {
    if p.speed > 1 then UpdateSpeedSlider(p, p.speed - 1) else p
  }

  function SpeedUp(p: Player): Player {
    if p.speed < 10 then UpdateSpeedSlider(p, p.speed + 1) else p
  }

  /** A new trace as the 3D visualizer and the visualization player install
      it: index 0 and not playing, but the stored interval is not cleared. */
  function InstalledAsWritten(p: Player, steps: seq<Step>): (r: Player)
    ensures r.steps == steps && r.index == 0 && !r.playing && r.speed == p.speed
    ensures r.timers == p.timers
    ensures Valid(p) && p.playing ==> r.timers.live != map[] && !Valid(r)
  {
    p.(steps := steps, index := 0, playing := false)
  }

  /** A new trace installed with playback stopped, interval included. */
  function Installed(p: Player, steps: seq<Step>): (r: Player)
    ensures r.steps == steps && r.index == 0 && !r.playing && r.speed == p.speed
  {
    Paused(p).(steps := steps, index := 0)
  }

  /** A new trace as the enhanced players install it: index 0, playback untouched. */
  function Replaced(p: Player, steps: seq<Step>): (r: Player)
    ensures r.steps == steps && r.index == 0 && r.playing == p.playing && r.timers == p.timers
  {
    p.(steps := steps, index := 0)
  }

  // ---------------------------------------------------------------------------
  // What the React handlers keep

  /** A live interval means the player is playing; its tick either advances
      by one or, at the last step, stops playback and leaves no interval running. */
  lemma TickWhilePlaying(p: Player, id: nat)
    requires Valid(p) && id in p.timers.live
    ensures p.playing
    ensures var r := Tick(p, id);
      Valid(r) &&
      (if p.index < |p.steps| - 1 then r == p.(index := p.index + 1)
       else !r.playing && r.timers.live == map[] && r.index == p.index)
  {
  }

  /** Every React handler, and either way of installing a trace, keeps the player valid. */
  lemma HandlersKeepValid(p: Player, steps: seq<Step>, speed: int)
    requires Valid(p)
    ensures Valid(TogglePlayPause(p)) && Valid(StepForward(p)) && Valid(StepBackward(p)) && Valid(Reset(p))
    ensures Valid(UpdateSpeed3D(p, speed)) && Valid(UpdateSpeedSlider(p, speed))
    ensures Valid(Installed(p, steps)) && Valid(Replaced(p, steps))
  {
    if p.playing {
      assert p.timers.ref.Some? by {
        var id :| id in p.timers.live;
      }
    }
  }

  /** While playing exactly one interval is live, and it is the stored one;
      so restarting at a new speed never leaves two running. */
  lemma OneIntervalWhilePlaying(p: Player, speed: int)
    requires Valid(p) && p.playing
    ensures p.timers.ref.Some? && p.timers.live.Keys == {p.timers.ref.value}
    ensures var r := UpdateSpeed3D(p, speed); r.timers.live.Keys == {p.timers.next} && r.timers.ref == Some(p.timers.next)
    ensures var r := UpdateSpeedSlider(p, speed); r.timers.live.Keys == {p.timers.next} && r.timers.ref == Some(p.timers.next)
  {
    var id :| id in p.timers.live;
    assert p.timers.ref == Some(id);
  }

  /** Pressing "step forward" `k` times. */
  function ForwardTimes(p: Player, k: nat): Player
    decreases k
  {
    if k == 0 then p else ForwardTimes(StepForward(p), k - 1)
  }

  /** Repeated forward steps from any valid position climb one at a time and
      stay at the last step, paused. */
  lemma {:induction false} ForwardReachesEnd(p: Player, k: nat)
    requires Valid(p) && |p.steps| > 0
    ensures var r := ForwardTimes(p, k);
      Valid(r) && r.steps == p.steps && r.index == Min(p.index + k, |p.steps| - 1) && (k > 0 ==> !r.playing)
    decreases k
  {
    if k > 0 {
      HandlersKeepValid(p, p.steps, p.speed);
      ForwardReachesEnd(StepForward(p), k - 1);
    }
  }

  /** Letting the stored interval fire up to `k` times. */
  function RunTicks(p: Player, k: nat): Player
    decreases k
  {
    if k == 0 || p.timers.ref.None? || p.timers.ref.value !in p.timers.live then p
    else RunTicks(Tick(p, p.timers.ref.value), k - 1)
  }

  /** Playback left alone runs to the last step and stops there, with no
      interval left running. */
  lemma {:induction false} PlayRunsToEnd(p: Player, k: nat)
    requires Valid(p) && p.playing && |p.steps| > 0 && k >= |p.steps| - p.index
    ensures var r := RunTicks(p, k);
      Valid(r) && !r.playing && r.index == |p.steps| - 1 && r.timers.live == map[] && r.steps == p.steps
    decreases k
  {
    var id :| id in p.timers.live;
    assert p.timers.ref == Some(id);
    TickWhilePlaying(p, id);
    var q := Tick(p, id);
    if p.index < |p.steps| - 1 {
      PlayRunsToEnd(q, k - 1);
    } else {
      assert RunTicks(q, k - 1) == q;
    }
  }

  /** The speed keys and buttons keep the speed within `[1, 10]`. */
  lemma SpeedStaysInRange(p: Player)
    requires 1 <= p.speed <= 10
    ensures 1 <= KeySpeedUp(p).speed <= 10 && 1 <= KeySpeedDown(p).speed <= 10
    ensures 1 <= SpeedUp(p).speed <= 10 && 1 <= SpeedDown(p).speed <= 10
    ensures p.speed < 10 ==> KeySpeedUp(p).speed == SpeedUp(p).speed == p.speed + 1
    ensures p.speed > 1 ==> KeySpeedDown(p).speed == SpeedDown(p).speed == p.speed - 1
  {
  }

  /** What the visualization player's `getCurrentStep` shows. */
  datatype Shown = NoSteps(description: string, educationalNote: string) | Record(step: Step) | Undefined

  function CurrentStep(p: Player): (r: Shown)
    ensures |p.steps| == 0 <==> r == NoSteps("No steps available", "")
  {
    if |p.steps| == 0 then NoSteps("No steps available", "")
    else if 0 <= p.index < |p.steps| then Record(p.steps[p.index])
    else Undefined
  }

  /** On a valid player the current step is never undefined. */
  lemma CurrentStepDefined(p: Player)
    requires Valid(p) && |p.steps| > 0
    ensures CurrentStep(p) == Record(p.steps[p.index])
  {
  }

  // ---------------------------------------------------------------------------
  // Two defects of the React handlers

  /** A player mid-playback on a four-step trace. */
  function Playing(): (p: Player)
    ensures Valid(p) && p.playing
  {
    var d := Blank(Kind.Initial, "");
    Player([d, d, d, d], 1, true, 5, Timers(Some(1), map[1 := 4], 2))
  }

  /** A run that completes while playing leaves the interval running behind a
      paused player, and since the callback never checks the flag, the next
      tick moves the index while the controls show a pause. */
  lemma InstallLeavesIntervalRunning()
    ensures var p := InstalledAsWritten(Playing(), Playing().steps);
      !Valid(p) && !p.playing && 1 in p.timers.live && Tick(p, 1).index == 1 && !Tick(p, 1).playing
  {
  }

  /** Installing with the interval cleared keeps the player valid, so no tick
      can arrive while it is paused. */
  lemma InstallStopsTicks(p: Player, steps: seq<Step>)
    requires Valid(p)
    ensures Valid(Installed(p, steps)) && Installed(p, steps).timers.live == map[]
  {
    HandlersKeepValid(p, steps, p.speed);
  }

  /** The enhanced players keep playing across a new, shorter trace, and the
      captured length walks the index past its end. */
  lemma CapturedLengthOverruns()
    ensures var p := Replaced(Playing(), [Blank(Kind.Initial, "")]).(index := 0);
      1 in p.timers.live && Valid(p) && !Valid(TickCaptured(p, 1)) &&
      TickCaptured(p, 1).index == 1 && CurrentStep(TickCaptured(p, 1)) == Undefined
  {
  }

  /** Reading the current length, the tick stays on the new trace. */
  lemma FreshLengthStaysOnTrace(p: Player, steps: seq<Step>, id: nat)
    requires Valid(p) && id in p.timers.live
    ensures Valid(Replaced(p, steps))
    ensures Valid(Tick(Replaced(p, steps), id))
  {
    HandlersKeepValid(p, steps, p.speed);
    TickWhilePlaying(Replaced(p, steps), id);
  }

  // ---------------------------------------------------------------------------
  // The static page

  /** `startPlayback`: clear the stored interval, store a fresh one. */
  function StartPlayback(p: Player): Player {
    p.(timers := StartNew(p.timers, |p.steps|))
  }

  /** `stopPlayback`: clear the stored interval and forget it. */
  function StopPlayback(p: Player): Player {
    p.(timers := ClearAndForget(p.timers))
  }

  /** `togglePlayPause` of the static page: flip the flag, then start or stop. */
  function StaticToggle(p: Player): (r: Player)
    ensures r.playing == !p.playing && r.index == p.index && r.steps == p.steps && r.speed == p.speed
  {
    var q := p.(playing := !p.playing);
    if q.playing then StartPlayback(q) else StopPlayback(q)
  }

  /** Stop through the toggle when playing. */
  function StaticPaused(p: Player): (r: Player)
    ensures !r.playing && r.index == p.index && r.steps == p.steps
  {
    if p.playing then StaticToggle(p) else p
  }

  /** The interval callback: advance while not at the last step, else toggle (stop). */
  function StaticTick(p: Player, id: nat): (r: Player)
    requires id in p.timers.live
    ensures r.steps == p.steps && r.speed == p.speed
    ensures r.index == p.index + 1 <==> p.index < |p.steps| - 1
    ensures r.index != p.index + 1 ==> r.index == p.index && r.playing == !p.playing
    ensures r.index != p.index + 1 && p.playing ==>
      r.timers.ref.None? && (TimersOk(p.timers) ==> r.timers.live == map[])
  {
    if p.index < |p.steps| - 1 then p.(index := p.index + 1) else StaticToggle(p)
  }

  /** `stepForward`: stop, then advance only below the last step. */
  function StaticStepForward(p: Player): (r: Player)
    ensures !r.playing && r.index == (if p.index < |p.steps| - 1 then p.index + 1 else p.index)
  {
    var q := StaticPaused(p);
    if q.index < |q.steps| - 1 then q.(index := q.index + 1) else q
  }

  /** `stepBackward`: stop, then go back only above 0. */
  function StaticStepBackward(p: Player): (r: Player)
    ensures !r.playing && r.index == (if p.index > 0 then p.index - 1 else p.index)
  {
    var q := StaticPaused(p);
    if q.index > 0 then q.(index := q.index - 1) else q
  }

  function StaticReset(p: Player): (r: Player)
    ensures !r.playing && r.index == 0
  {
    StaticPaused(p).(index := 0)
  }

  /** `updateSpeed`: set the speed, and restart the interval when playing. */
  function StaticUpdateSpeed(p: Player, speed: int): (r: Player)
    ensures r.speed == speed && r.playing == p.playing && r.index == p.index
  {
    var q := p.(speed := speed);
    if q.playing then StartPlayback(StopPlayback(q)) else q
  }

  /** `executeAlgorithm` with its response: stop, index 0, then the new trace. */
  function StaticExecute(p: Player, steps: Option<seq<Step>>): (r: Player)
    ensures !r.playing && r.index == 0 && r.steps == (if steps.Some? then steps.value else p.steps)
  {
    var q := StaticPaused(p).(index := 0);
    if steps.Some? then q.(steps := steps.value) else q
  }

  /** Every handler of the static page keeps the player valid, and stopping
      forgets the handle. */
  lemma StaticKeepsValid(p: Player, speed: int, steps: Option<seq<Step>>)
    requires Valid(p)
    ensures Valid(StaticToggle(p)) && Valid(StaticStepForward(p)) && Valid(StaticStepBackward(p))
    ensures Valid(StaticReset(p)) && Valid(StaticUpdateSpeed(p, speed)) && Valid(StaticExecute(p, steps))
    ensures !StaticToggle(p).playing ==> StaticToggle(p).timers.ref.None?
  {
  }

  lemma StaticTickKeepsValid(p: Player, id: nat)
    requires Valid(p) && id in p.timers.live
    ensures p.playing && Valid(StaticTick(p, id))
    ensures p.index >= |p.steps| - 1 ==> !StaticTick(p, id).playing && StaticTick(p, id).timers.ref.None?
  {
  }
}

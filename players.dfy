/** The players themselves: the state each component or page keeps, and its
    handlers as methods that update it in place. Every handler is the
    matching transition of `Playback` applied to the current state, so the
    facts proved there (validity, clamping, speed range) carry over. */
module Players {
  import opened Wrappers
  import opened StepModel
  import opened Playback
  import Helpers
  import FallbackTraces

  /** The 3D visualizer and the visualization player: playback, the loading
      flag, the error banner and the input the last run was asked for. */
  class ReactPlayer {
    var steps: seq<Step>
    var index: int
    var playing: bool
    var speed: int
    var timers: Timers
    var loading: bool
    var error: Option<string>
    var inputData: seq<int>
    /** The size the generators draw; the custom input overwrites it with its length. */
    var inputSize: int

    function State(): Player
      reads this
    {
      Player(steps, index, playing, speed, timers)
    }

    function Form(): (bool, Option<string>, seq<int>, int)
      reads this
    {
      (loading, error, inputData, inputSize)
    }

    predicate Valid()
      reads this
    {
      Playback.Valid(State())
    }

    /** Both components start paused on their initial trace, at speed 5. */
    constructor (initialSteps: seq<Step>, inputData: seq<int>)
      ensures State() == Fresh(initialSteps, 5) && Valid()
      ensures Form() == (false, None, inputData, if |inputData| > 0 then |inputData| else 10)
    {
      steps, index, playing, speed, timers := initialSteps, 0, false, 5, Timers(None, map[], 1);
      loading, error, this.inputData := false, None, inputData;
      inputSize := if |inputData| > 0 then |inputData| else 10;
    }

    method Set(p: Player)
      modifies this`steps, this`index, this`playing, this`speed, this`timers
      ensures State() == p && Form() == old(Form())
    {
      steps, index, playing, speed, timers := p.steps, p.index, p.playing, p.speed, p.timers;
    }

    method TogglePlayPause()
      requires Valid()
      modifies this
      ensures Valid() && State() == Playback.TogglePlayPause(old(State())) && Form() == old(Form())
    {
      HandlersKeepValid(State(), steps, speed);
      Set(Playback.TogglePlayPause(State()));
    }

    /** The callback of a live interval. */
    method Tick(id: nat)
      requires Valid() && id in timers.live
      modifies this
      ensures old(playing) && Valid() && State() == Playback.Tick(old(State()), id) && Form() == old(Form())
    {
      TickWhilePlaying(State(), id);
      Set(Playback.Tick(State(), id));
    }

    method StepForward()
      requires Valid()
      modifies this
      ensures Valid() && State() == Playback.StepForward(old(State())) && Form() == old(Form())
    {
      HandlersKeepValid(State(), steps, speed);
      Set(Playback.StepForward(State()));
    }

    method StepBackward()
      requires Valid()
      modifies this
      ensures Valid() && State() == Playback.StepBackward(old(State())) && Form() == old(Form())
    {
      HandlersKeepValid(State(), steps, speed);
      Set(Playback.StepBackward(State()));
    }

    method Reset()
      requires Valid()
      modifies this
      ensures Valid() && State() == Playback.Reset(old(State())) && Form() == old(Form())
    {
      HandlersKeepValid(State(), steps, speed);
      Set(Playback.Reset(State()));
    }

    /** `updateSpeed` of the 3D visualizer. */
    method UpdateSpeed(newSpeed: int)
      requires Valid()
      modifies this
      ensures Valid() && State() == UpdateSpeed3D(old(State()), newSpeed) && Form() == old(Form())
    {
      HandlersKeepValid(State(), steps, newSpeed);
      Set(UpdateSpeed3D(State(), newSpeed));
    }

    /** The `+` key of the 3D visualizer. */
    method KeyPlus()
      requires Valid() && 1 <= speed <= 10
      modifies this
      ensures Valid() && State() == KeySpeedUp(old(State())) && 1 <= speed <= 10 && Form() == old(Form())
    {
      SpeedStaysInRange(State());
      UpdateSpeed(Min(10, speed + 1));
    }

    /** The `-` key of the 3D visualizer. */
    method KeyMinus()
      requires Valid() && 1 <= speed <= 10
      modifies this
      ensures Valid() && State() == KeySpeedDown(old(State())) && 1 <= speed <= 10 && Form() == old(Form())
    {
      SpeedStaysInRange(State());
      UpdateSpeed(Max(1, speed - 1));
    }

    /** The speed slider of the visualization player. */
    method SlideSpeed(newSpeed: int)
      requires Valid()
      modifies this
      ensures Valid() && State() == UpdateSpeedSlider(old(State()), newSpeed) && Form() == old(Form())
    {
      HandlersKeepValid(State(), steps, newSpeed);
      Set(UpdateSpeedSlider(State(), newSpeed));
    }

    /** The `+` button of the visualization player. */
    method ButtonPlus()
      requires Valid() && 1 <= speed <= 10
      modifies this
      ensures Valid() && State() == SpeedUp(old(State())) && 1 <= speed <= 10 && Form() == old(Form())
    {
      SpeedStaysInRange(State());
      if speed < 10 {
        SlideSpeed(speed + 1);
      }
    }

    /** The `-` button of the visualization player. */
    method ButtonMinus()
      requires Valid() && 1 <= speed <= 10
      modifies this
      ensures Valid() && State() == SpeedDown(old(State())) && 1 <= speed <= 10 && Form() == old(Form())
    {
      SpeedStaysInRange(State());
      if speed > 1 {
        SlideSpeed(speed - 1);
      }
    }

    /** `executeAlgorithm` with the server's answer: the steps, or the
        message of the error the request failed with. The trace is installed
        with playback stopped, the interval included. */
    method ExecuteAlgorithm(response: Result<seq<Step>, string>)
      requires Valid()
      modifies this`steps, this`index, this`playing, this`speed, this`timers, this`loading, this`error
      ensures Valid() && !loading && inputData == old(inputData)
      ensures response.Ok? ==> State() == Installed(old(State()), response.value) && error.None?
      ensures response.Err? ==> State() == old(State()) && error == Some("Error: " + response.error)
    {
      loading, error := true, None;
      match response
      case Ok(result) =>
        HandlersKeepValid(State(), result, speed);
        Set(Installed(State(), result));
        loading := false;
      case Err(message) =>
        error := Some("Error: " + message);
        loading := false;
    }

    /** Remember `data` as the input, its length as the size, and run it. */
    method Run(data: seq<int>, response: Result<seq<Step>, string>)
      requires Valid()
      modifies this
      ensures Valid() && inputData == data && inputSize == |data|
      ensures State() == (if response.Ok? then Installed(old(State()), response.value) else old(State()))
    {
      inputData, inputSize := data, |data|;
      ExecuteAlgorithm(response);
    }

    /** `applyCustomData`: parse the text; on success remember it and run;
        on failure show why and keep the previous input. */
    method ApplyCustomData(text: string, response: Result<seq<Step>, string>)
      requires Valid()
      modifies this
      ensures Valid() && inputData == Helpers.InputAfterCustom(old(inputData), text)
      ensures Helpers.ParseCustomInput(text).Ok? ==> inputSize == |Helpers.ParseCustomInput(text).value|
      ensures Helpers.ParseCustomInput(text).Err? ==> inputSize == old(inputSize)
      ensures Helpers.ParseCustomInput(text).Ok? ==> State() == (if response.Ok? then Installed(old(State()), response.value) else old(State()))
      ensures Helpers.ParseCustomInput(text).Err? ==>
        State() == old(State()) && error == Some("Invalid input format: " + Helpers.ParseCustomInput(text).error)
    {
      var parsed := Helpers.ParseCustomInput(text);
      if parsed.Ok? {
        Run(parsed.value, response);
      } else {
        error := Some("Invalid input format: " + parsed.error);
      }
    }

    /** `handleInputSizeChange`: the slider sets the size the generators use. */
    method SetInputSize(size: int)
      modifies this`inputSize
      ensures inputSize == size
    {
      inputSize := size;
    }

    /** `generateReversedData`: run on `inputSize, inputSize - 1, …, 1`. */
    method GenerateReversedData(response: Result<seq<Step>, string>)
      requires Valid()
      modifies this
      ensures Valid() && inputData == Helpers.ReversedData(old(inputSize)) && inputSize == old(inputSize)
      ensures State() == (if response.Ok? then Installed(old(State()), response.value) else old(State()))
    {
      inputData := Helpers.ReversedData(inputSize);
      ExecuteAlgorithm(response);
    }
  }

  /** The enhanced visualization player. Its fallback trace sorts the input
      array itself. */
  class EnhancedPlayer {
    var steps: seq<Step>
    var index: int
    var playing: bool
    var speed: int
    var timers: Timers
    const hasAlgorithm: bool

    function State(): Player
      reads this
    {
      Player(steps, index, playing, speed, timers)
    }

    predicate Valid()
      reads this
    {
      Playback.Valid(State())
    }

    /** The enhanced players start paused on their initial trace, at speed 3. */
    constructor (initialSteps: seq<Step>, hasAlgorithm: bool)
      ensures State() == Fresh(initialSteps, 3) && Valid() && this.hasAlgorithm == hasAlgorithm
    {
      steps, index, playing, speed, timers := initialSteps, 0, false, 3, Timers(None, map[], 1);
      this.hasAlgorithm := hasAlgorithm;
    }

    method Set(p: Player)
      modifies this
      ensures State() == p
    {
      steps, index, playing, speed, timers := p.steps, p.index, p.playing, p.speed, p.timers;
    }

    method TogglePlayPause()
      requires Valid()
      modifies this
      ensures Valid() && State() == Playback.TogglePlayPause(old(State()))
    {
      HandlersKeepValid(State(), steps, speed);
      Set(Playback.TogglePlayPause(State()));
    }

    /** The callback, reading the trace installed now. */
    method Tick(id: nat)
      requires Valid() && id in timers.live
      modifies this
      ensures old(playing) && Valid() && State() == Playback.Tick(old(State()), id)
    {
      TickWhilePlaying(State(), id);
      Set(Playback.Tick(State(), id));
    }

    method StepForward()
      requires Valid()
      modifies this
      ensures Valid() && State() == Playback.StepForward(old(State()))
    {
      HandlersKeepValid(State(), steps, speed);
      Set(Playback.StepForward(State()));
    }

    method StepBackward()
      requires Valid()
      modifies this
      ensures Valid() && State() == Playback.StepBackward(old(State()))
    {
      HandlersKeepValid(State(), steps, speed);
      Set(Playback.StepBackward(State()));
    }

    method Reset()
      requires Valid()
      modifies this
      ensures Valid() && State() == Playback.Reset(old(State()))
    {
      HandlersKeepValid(State(), steps, speed);
      Set(Playback.Reset(State()));
    }

    /** `executeAlgorithm`: nothing without an algorithm; otherwise the
        server's steps, or on failure the fake trace built from (and sorting)
        `data`, at index 0 with playback left as it was. */
    method ExecuteAlgorithm(data: array<int>, response: Option<seq<Step>>)
      requires Valid()
      modifies this, data
      ensures Valid()
      ensures !hasAlgorithm ==> State() == old(State()) && data[..] == old(data[..])
      ensures hasAlgorithm && response.Some? ==>
        State() == Replaced(old(State()), response.value) && data[..] == old(data[..])
      ensures hasAlgorithm && response.None? ==>
        State() == Replaced(old(State()), steps) && FallbackTraces.IsFakeTrace(old(data[..]), steps) &&
        Last(steps).state == Some(data[..]) && Ascending(data[..])
    {
      if !hasAlgorithm {
        return;
      }
      var installed;
      if response.Some? {
        installed := response.value;
      } else {
        installed := FallbackTraces.GenerateFakeStepsInPlace(data);
      }
      HandlersKeepValid(State(), installed, speed);
      Set(Replaced(State(), installed));
    }
  }

  /** The enhanced visualization player component. Its fallback trace works
      on a copy of the input. */
  class EnhancedPlayerComponent {
    var steps: seq<Step>
    var index: int
    var playing: bool
    var speed: int
    var timers: Timers
    var loading: bool
    const hasAlgorithm: bool

    function State(): Player
      reads this
    {
      Player(steps, index, playing, speed, timers)
    }

    predicate Valid()
      reads this
    {
      Playback.Valid(State())
    }

    constructor (initialSteps: seq<Step>, hasAlgorithm: bool)
      ensures State() == Fresh(initialSteps, 3) && Valid() && this.hasAlgorithm == hasAlgorithm && !loading
    {
      steps, index, playing, speed, timers := initialSteps, 0, false, 3, Timers(None, map[], 1);
      loading := false;
      this.hasAlgorithm := hasAlgorithm;
    }

    method Set(p: Player)
      modifies this
      ensures State() == p && loading == old(loading)
    {
      steps, index, playing, speed, timers := p.steps, p.index, p.playing, p.speed, p.timers;
    }

    method TogglePlayPause()
      requires Valid()
      modifies this
      ensures Valid() && State() == Playback.TogglePlayPause(old(State())) && loading == old(loading)
    {
      HandlersKeepValid(State(), steps, speed);
      Set(Playback.TogglePlayPause(State()));
    }

    method Tick(id: nat)
      requires Valid() && id in timers.live
      modifies this
      ensures old(playing) && Valid() && State() == Playback.Tick(old(State()), id) && loading == old(loading)
    {
      TickWhilePlaying(State(), id);
      Set(Playback.Tick(State(), id));
    }

    method StepForward()
      requires Valid()
      modifies this
      ensures Valid() && State() == Playback.StepForward(old(State())) && loading == old(loading)
    {
      HandlersKeepValid(State(), steps, speed);
      Set(Playback.StepForward(State()));
    }

    method StepBackward()
      requires Valid()
      modifies this
      ensures Valid() && State() == Playback.StepBackward(old(State())) && loading == old(loading)
    {
      HandlersKeepValid(State(), steps, speed);
      Set(Playback.StepBackward(State()));
    }

    method Reset()
      requires Valid()
      modifies this
      ensures Valid() && State() == Playback.Reset(old(State())) && loading == old(loading)
    {
      HandlersKeepValid(State(), steps, speed);
      Set(Playback.Reset(State()));
    }

    /** `executeAlgorithm`: without an algorithm only the loading flag
        clears; otherwise the server's steps or the fake trace of `data`
        replace the trace at index 0, playback left as it was. */
    method ExecuteAlgorithm(data: seq<int>, response: Option<seq<Step>>)
      requires Valid()
      modifies this
      ensures Valid() && !loading
      ensures !hasAlgorithm ==> State() == old(State())
      ensures hasAlgorithm && response.Some? ==> State() == Replaced(old(State()), response.value)
      ensures hasAlgorithm && response.None? ==>
        State() == Replaced(old(State()), steps) && FallbackTraces.IsFakeTrace(data, steps)
    {
      if !hasAlgorithm {
        loading := false;
        return;
      }
      var installed;
      if response.Some? {
        installed := response.value;
      } else {
        installed := FallbackTraces.GenerateFakeSteps(data);
      }
      loading := false;
      HandlersKeepValid(State(), installed, speed);
      Set(Replaced(State(), installed));
    }
  }

  /** The page script's global state. Stopping forgets the interval handle. */
  class StaticPage {
    var steps: seq<Step>
    var index: int
    var playing: bool
    var speed: int
    var timers: Timers
    var inputData: seq<int>

    function State(): Player
      reads this
    {
      Player(steps, index, playing, speed, timers)
    }

    predicate Valid()
      reads this
    {
      Playback.Valid(State())
    }

    constructor ()
      ensures State() == Fresh([], 5) && Valid() && inputData == []
    {
      steps, index, playing, speed, timers := [], 0, false, 5, Timers(None, map[], 1);
      inputData := [];
    }

    method Set(p: Player)
      modifies this
      ensures State() == p && inputData == old(inputData)
    {
      steps, index, playing, speed, timers := p.steps, p.index, p.playing, p.speed, p.timers;
    }

    method TogglePlayPause()
      requires Valid()
      modifies this
      ensures Valid() && State() == StaticToggle(old(State())) && inputData == old(inputData)
      ensures !playing ==> timers.ref.None?
    {
      StaticKeepsValid(State(), speed, None);
      Set(StaticToggle(State()));
    }

    method Tick(id: nat)
      requires Valid() && id in timers.live
      modifies this
      ensures old(playing) && Valid() && State() == StaticTick(old(State()), id) && inputData == old(inputData)
    {
      StaticTickKeepsValid(State(), id);
      Set(StaticTick(State(), id));
    }

    method StepForward()
      requires Valid()
      modifies this
      ensures Valid() && State() == StaticStepForward(old(State())) && inputData == old(inputData)
    {
      StaticKeepsValid(State(), speed, None);
      Set(StaticStepForward(State()));
    }

    method StepBackward()
      requires Valid()
      modifies this
      ensures Valid() && State() == StaticStepBackward(old(State())) && inputData == old(inputData)
    {
      StaticKeepsValid(State(), speed, None);
      Set(StaticStepBackward(State()));
    }

    method Reset()
      requires Valid()
      modifies this
      ensures Valid() && State() == StaticReset(old(State())) && inputData == old(inputData)
    {
      StaticKeepsValid(State(), speed, None);
      Set(StaticReset(State()));
    }

    /** `updateSpeed` with the slider's parsed value. */
    method UpdateSpeed(newSpeed: int)
      requires Valid()
      modifies this
      ensures Valid() && State() == StaticUpdateSpeed(old(State()), newSpeed) && inputData == old(inputData)
    {
      StaticKeepsValid(State(), newSpeed, None);
      Set(StaticUpdateSpeed(State(), newSpeed));
    }

    /** `executeAlgorithm` with the server's steps, or `None` when the request failed. */
    method ExecuteAlgorithm(response: Option<seq<Step>>)
      requires Valid()
      modifies this
      ensures Valid() && State() == StaticExecute(old(State()), response) && inputData == old(inputData)
    {
      StaticKeepsValid(State(), speed, response);
      Set(StaticExecute(State(), response));
    }

    /** `applyCustomData`: comma-separated numbers; any unreadable one keeps
        the previous input and runs nothing. */
    method ApplyCustomData(text: string, response: Option<seq<Step>>)
      requires Valid()
      modifies this
      ensures Valid()
      ensures Helpers.ParseCommaInput(text).None? ==> State() == old(State()) && inputData == old(inputData)
      ensures Helpers.ParseCommaInput(text).Some? ==>
        inputData == Helpers.ParseCommaInput(text).value && State() == StaticExecute(old(State()), response)
    {
      var parsed := Helpers.ParseCommaInput(text);
      if parsed.Some? {
        inputData := parsed.value;
        ExecuteAlgorithm(response);
      }
    }

    /** `generateReversedData` with the size slider's value. */
    method GenerateReversedData(size: int, response: Option<seq<Step>>)
      requires Valid()
      modifies this
      ensures Valid() && inputData == Helpers.ReversedData(size) && State() == StaticExecute(old(State()), response)
    {
      inputData := Helpers.ReversedData(size);
      ExecuteAlgorithm(response);
    }
  }
}

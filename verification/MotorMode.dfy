/**
 Automatic and manual motor control. The server and the device node each keep a mode flag; a
 FIFO MQTT topic carries mode changes and motor commands from one to the other.
 */
module MotorMode {
  const ACTION_AUTO := "auto"
  const ACTION_MANUAL := "manual"
  const ACTION_START := "start"
  const ACTION_ON := "on"
  const ACTION_STOP := "stop"
  const ACTION_OFF := "off"
  const DEVICE_MODE_CONTROL := "mode_control"
  const DEVICE_MOTOR := "motor"
  const DEVICE_SPEAKER := "speaker"
  const DEVICE_DIGITAL_DISPLAY := "digital_display"
  const MSG_MODE_CONTROL := "mode_control"
  const MSG_MOTOR_CONTROL := "motor_control"

  /** A parsed device command of the Qt client; an absent speed has been read as 100. */
  datatype Command = Command(device: string, action: string, speed: int)

  /** A message on the motor topic; an absent speed is read as 0. */
  datatype Message = Message(kind: string, action: string, speed: int)

  datatype Cause = Sensor | SwitchOver | Manual
  datatype Write = Write(speed: int, cause: Cause)

  // ---- The server ----

  predicate IsModeCommand(cmd: Command) {
    cmd.device == DEVICE_MODE_CONTROL && (cmd.action == ACTION_AUTO || cmd.action == ACTION_MANUAL)
  }

  function ModeAfter(auto: bool, cmd: Command): bool {
    if IsModeCommand(cmd) then cmd.action == ACTION_AUTO else auto
  }

  /** What the server publishes on the motor topic for a command, in mode `auto`. */
  function Published(auto: bool, cmd: Command): seq<Message> {
    if IsModeCommand(cmd) then [Message(MSG_MODE_CONTROL, cmd.action, 0)]
    else if !auto && cmd.device == DEVICE_MOTOR then
      if cmd.action == ACTION_START || cmd.action == ACTION_ON then [Message(MSG_MOTOR_CONTROL, ACTION_START, cmd.speed)]
      else if cmd.action == ACTION_STOP || cmd.action == ACTION_OFF then [Message(MSG_MOTOR_CONTROL, ACTION_STOP, 0)]
      else []
    else []
  }

  class Server {
    var autoMode: bool
    var motorTopic: seq<Message>
    var audioTopic: seq<string>
    var displayTopic: seq<string>

    constructor ()
      ensures autoMode && motorTopic == [] && audioTopic == [] && displayTopic == []
    {
      autoMode, motorTopic, audioTopic, displayTopic := true, [], [], [];
    }

    /** `connected`: the publishers have a broker connection; without one, messages are dropped. */
    method HandleDeviceCommand(cmd: Command, connected: bool)
      modifies this
      ensures autoMode == ModeAfter(old(autoMode), cmd)
      ensures motorTopic == old(motorTopic) + (if connected then Published(old(autoMode), cmd) else [])
      ensures connected && cmd.device == DEVICE_MODE_CONTROL && cmd.action == ACTION_AUTO ==>
        motorTopic == old(motorTopic) + [Message("mode_control", "auto", 0)]
      ensures connected && cmd.device == DEVICE_MODE_CONTROL && cmd.action == ACTION_MANUAL ==>
        motorTopic == old(motorTopic) + [Message("mode_control", "manual", 0)]
      ensures connected && !old(autoMode) && cmd.device == DEVICE_MOTOR && (cmd.action == ACTION_START || cmd.action == ACTION_ON) ==>
        motorTopic == old(motorTopic) + [Message("motor_control", "start", cmd.speed)]
      ensures connected && !old(autoMode) && cmd.device == DEVICE_MOTOR && (cmd.action == ACTION_STOP || cmd.action == ACTION_OFF) ==>
        motorTopic == old(motorTopic) + [Message("motor_control", "stop", 0)]
      ensures old(autoMode) && cmd.device != DEVICE_MODE_CONTROL ==>
        autoMode && motorTopic == old(motorTopic) && audioTopic == old(audioTopic) && displayTopic == old(displayTopic)
      ensures audioTopic == old(audioTopic) +
        (if connected && !old(autoMode) && cmd.device == DEVICE_SPEAKER then [cmd.action] else [])
      ensures displayTopic == old(displayTopic) +
        (if connected && !old(autoMode) && cmd.device == DEVICE_DIGITAL_DISPLAY then [cmd.action] else [])
    {
      if cmd.device == DEVICE_MODE_CONTROL {
        if cmd.action == ACTION_AUTO {
          autoMode := true;
          Publish(Message(MSG_MODE_CONTROL, ACTION_AUTO, 0), connected);
        } else if cmd.action == ACTION_MANUAL {
          autoMode := false;
          Publish(Message(MSG_MODE_CONTROL, ACTION_MANUAL, 0), connected);
        }
        return;
      }
      if !autoMode {
        if cmd.device == DEVICE_MOTOR {
          if cmd.action == ACTION_START || cmd.action == ACTION_ON {
            Publish(Message(MSG_MOTOR_CONTROL, ACTION_START, cmd.speed), connected);
          } else if cmd.action == ACTION_STOP || cmd.action == ACTION_OFF {
            Publish(Message(MSG_MOTOR_CONTROL, ACTION_STOP, 0), connected);
          }
        } else if cmd.device == DEVICE_SPEAKER {
          if connected { audioTopic := audioTopic + [cmd.action]; }
        } else if cmd.device == DEVICE_DIGITAL_DISPLAY {
          if connected { displayTopic := displayTopic + [cmd.action]; }
        }
      }
    }

    method Publish(message: Message, connected: bool)
      modifies `motorTopic
      ensures motorTopic == old(motorTopic) + (if connected then [message] else [])
    {
      if connected { motorTopic := motorTopic + [message]; }
    }
  }

  // ---- The device node ----

  /** The flag, the writes to /dev/motor, and how many motor commands were refused. */
  datatype DeviceState = DeviceState(auto: bool, writes: seq<Write>, refused: nat)

  function WithWrite(d: DeviceState, speed: int, cause: Cause): DeviceState {
    d.(writes := d.writes + [Write(speed, cause)])
  }

  function Handled(d: DeviceState, m: Message): DeviceState {
    if m.kind == MSG_MODE_CONTROL then
      if m.action == ACTION_AUTO then d.(auto := true)
      else if m.action == ACTION_MANUAL then WithWrite(d.(auto := false), 0, SwitchOver)
      else d
    else if m.kind == MSG_MOTOR_CONTROL then
      if d.auto then d.(refused := d.refused + 1)
      else if m.action == ACTION_START then WithWrite(d, m.speed, Manual)
      else if m.action == ACTION_STOP then WithWrite(d, 0, Manual)
      else d
    else d
  }

  /** Speed for a reading of CO2 and CO in ppm. */
  function SensorSpeed(co2: real, co: real): int {
    if co2 > 600.0 || co > 25.0 then 100 else if co2 > 400.0 || co > 9.0 then 60 else 0
  }

  function Sensed(d: DeviceState, co2: real, co: real): DeviceState {
    if d.auto then WithWrite(d, SensorSpeed(co2, co), Sensor) else d
  }

  class Device {
    var autoMode: bool
    ghost var writes: seq<Write>
    ghost var refused: nat

    ghost function State(): DeviceState
      reads this
    {
      DeviceState(autoMode, writes, refused)
    }

    constructor ()
      ensures State() == DeviceState(true, [], 0)
    {
      autoMode, writes, refused := true, [], 0;
    }

    method ControlMotor(speed: int, ghost cause: Cause)
      modifies `writes
      ensures writes == old(writes) + [Write(speed, cause)]
    {
      writes := writes + [Write(speed, cause)];
    }

    method HandleMqttCommand(kind: string, action: string, speed: int)
      modifies this
      ensures State() == Handled(old(State()), Message(kind, action, speed))
    {
      if kind == MSG_MODE_CONTROL {
        if action == ACTION_AUTO {
          autoMode := true;
        } else if action == ACTION_MANUAL {
          autoMode := false;
          ControlMotor(0, SwitchOver);
        }
      } else if kind == MSG_MOTOR_CONTROL {
        if autoMode {
          refused := refused + 1;
          return;
        }
        if action == ACTION_START {
          ControlMotor(speed, Manual);
        } else if action == ACTION_STOP {
          ControlMotor(0, Manual);
        }
      }
    }

    method AutoMotorControl(co2: real, co: real)
      modifies this
      ensures State() == Sensed(old(State()), co2, co)
      ensures !autoMode ==> writes == old(writes)
      ensures autoMode ==> |writes| == |old(writes)| + 1 && old(writes) <= writes && Last(writes).cause == Sensor
      ensures autoMode ==> (Last(writes).speed == 100 <==> co2 > 600.0 || co > 25.0)
      ensures autoMode ==> (Last(writes).speed == 60 <==> co2 <= 600.0 && co <= 25.0 && (co2 > 400.0 || co > 9.0))
      ensures autoMode ==> (Last(writes).speed == 0 <==> co2 <= 400.0 && co <= 9.0)
    {
      if !autoMode { return; }
      if co2 > 600.0 || co > 25.0 {
        ControlMotor(100, Sensor);
      } else if co2 > 400.0 || co > 9.0 {
        ControlMotor(60, Sensor);
      } else {
        ControlMotor(0, Sensor);
      }
    }
  }

  // ---- The two together ----

  datatype System = System(serverAuto: bool, channel: seq<Message>, device: DeviceState)

  const START := System(true, [], DeviceState(true, [], 0))

  /** `up`: the server is connected to the broker when it handles the command; if not, nothing is published. */
  datatype Event = Qt(cmd: Command, up: bool) | Deliver | Reading(co2: real, co: real)

  function Next(s: System, e: Event): System {
    match e
    case Qt(cmd, up) =>
      s.(serverAuto := ModeAfter(s.serverAuto, cmd),
         channel := s.channel + (if up then Published(s.serverAuto, cmd) else []))
    case Deliver =>
      if s.channel == [] then s
      else s.(channel := s.channel[1..], device := Handled(s.device, s.channel[0]))
    case Reading(co2, co) => s.(device := Sensed(s.device, co2, co))
  }

  function Earlier<T>(s: seq<T>): seq<T>
    requires s != []
  {
    s[..|s| - 1]
  }

  function Last<T>(s: seq<T>): T
    requires s != []
  {
    s[|s| - 1]
  }

  function Run(es: seq<Event>): System {
    if es == [] then START else Next(Run(Earlier(es)), Last(es))
  }

  // ---- What a run is about, read off its events alone ----

  /** The mode the last mode command of a list names; automatic if there is none. */
  function LastMode(commands: seq<Command>): bool {
    if commands == [] then true
    else if IsModeCommand(Last(commands)) then Last(commands).action == ACTION_AUTO
    else LastMode(Earlier(commands))
  }

  /** The commands the server handled. */
  function Commands(es: seq<Event>): seq<Command> {
    if es == [] then []
    else if Last(es).Qt? then Commands(Earlier(es)) + [Last(es).cmd]
    else Commands(Earlier(es))
  }

  predicate Sends(es: seq<Event>, i: nat)
    requires i < |es|
  {
    es[i].Qt? && es[i].up && Published(LastMode(Commands(es[..i])), es[i].cmd) != []
  }

  /** The commands a message went out for. */
  function Sent(es: seq<Event>): seq<Command> {
    if es == [] then []
    else if Sends(es, |es| - 1) then Sent(Earlier(es)) + [Last(es).cmd]
    else Sent(Earlier(es))
  }

  /** The commands handled while there was a connection. */
  function Connected(es: seq<Event>): seq<Command> {
    if es == [] then []
    else if Last(es).Qt? && Last(es).up then Connected(Earlier(es)) + [Last(es).cmd]
    else Connected(Earlier(es))
  }

  /** A motor command forwarded after a mode message was lost: the device still is in automatic mode. */
  predicate RefusedAt(es: seq<Event>, i: nat)
    requires i < |es|
  {
    Sends(es, i) && es[i].cmd.device == DEVICE_MOTOR && LastMode(Sent(es[..i]))
  }

  function Refusals(es: seq<Event>): set<nat> {
    set i: nat | i < |es| && RefusedAt(es, i)
  }

  /** What the operator has asked for: automatic, or manual at a speed. */
  datatype Intent = Automatic | AtSpeed(speed: int)

  function IntentAfter(before: Intent, cmd: Command): Intent {
    if cmd.device == DEVICE_MODE_CONTROL then
      if cmd.action == ACTION_AUTO then Automatic else if cmd.action == ACTION_MANUAL then AtSpeed(0) else before
    else if before == Automatic || cmd.device != DEVICE_MOTOR then before
    else if cmd.action == ACTION_START || cmd.action == ACTION_ON then AtSpeed(cmd.speed)
    else if cmd.action == ACTION_STOP || cmd.action == ACTION_OFF then AtSpeed(0)
    else before
  }

  /** The intent behind a list of commands. */
  function Intended(commands: seq<Command>): Intent {
    if commands == [] then Automatic else IntentAfter(Intended(Earlier(commands)), Last(commands))
  }

  /** What the device is doing. */
  function Doing(d: DeviceState): Intent
    requires d.auto || d.writes != []
  {
    if d.auto then Automatic else AtSpeed(Last(d.writes).speed)
  }

  /** The device after the messages still under way. */
  function HandledAll(d: DeviceState, ms: seq<Message>): DeviceState {
    if ms == [] then d else Handled(HandledAll(d, Earlier(ms)), Last(ms))
  }

  /** In manual mode the motor was last set by the operator or by the switch to manual. */
  predicate OperatorInCharge(d: DeviceState) {
    !d.auto ==> d.writes != [] && Last(d.writes).cause != Sensor
  }

  // ---- Steps ----

  /** The server's mode, and the device once it has the messages under way, match what the events say. */
  ghost predicate Tracks(s: System, es: seq<Event>) {
    var later := HandledAll(s.device, s.channel);
    && OperatorInCharge(s.device) && OperatorInCharge(later)
    && s.serverAuto == LastMode(Commands(es))
    && later.auto == LastMode(Sent(es)) && Doing(later) == Intended(Sent(es))
    && later.refused == |Refusals(es)|
  }

  lemma {:induction false} HandledAllFirst(d: DeviceState, ms: seq<Message>)
    requires ms != []
    ensures HandledAll(Handled(d, ms[0]), ms[1..]) == HandledAll(d, ms)
    decreases |ms|
  {
    if |ms| == 1 {
      assert HandledAll(d, Earlier(ms)) == d;
    } else {
      var n := |ms| - 1;
      HandledAllFirst(d, ms[..n]);
      assert ms[..n][1..] == ms[1..][..n - 1];
    }
  }

  /** Sensor readings change neither the mode nor what a later message does to it. */
  ghost predicate SameButForReadings(a: DeviceState, b: DeviceState) {
    a.auto == b.auto && a.refused == b.refused && OperatorInCharge(a) && OperatorInCharge(b)
    && Doing(a) == Doing(b)
  }

  lemma {:induction false} ReadingsDoNotMatterLater(a: DeviceState, b: DeviceState, ms: seq<Message>)
    requires SameButForReadings(a, b)
    ensures SameButForReadings(HandledAll(a, ms), HandledAll(b, ms))
    decreases |ms|
  {
    if ms != [] {
      ReadingsDoNotMatterLater(a, b, Earlier(ms));
    }
  }

  lemma WordsDiffer()
    ensures ACTION_AUTO != ACTION_MANUAL && ACTION_START != ACTION_STOP && MSG_MODE_CONTROL != MSG_MOTOR_CONTROL
    ensures DEVICE_MODE_CONTROL != DEVICE_MOTOR && ACTION_ON != ACTION_OFF
  {
    assert |ACTION_AUTO| != |ACTION_MANUAL| && |ACTION_START| != |ACTION_STOP|;
    assert |MSG_MODE_CONTROL| != |MSG_MOTOR_CONTROL| && |DEVICE_MODE_CONTROL| != |DEVICE_MOTOR| && |ACTION_ON| != |ACTION_OFF|;
  }

  /**
   A device that gets a command's message does what the command asks, whatever mode the server was
   in when it sent it; it refuses exactly a motor command that finds it in automatic mode.
   */
  lemma MessageTakesEffect(d: DeviceState, auto: bool, cmd: Command)
    requires OperatorInCharge(d) && Published(auto, cmd) != []
    ensures |Published(auto, cmd)| == 1
    ensures var e := Handled(d, Published(auto, cmd)[0]);
      && OperatorInCharge(e) && Doing(e) == IntentAfter(Doing(d), cmd)
      && e.auto == (if IsModeCommand(cmd) then cmd.action == ACTION_AUTO else d.auto)
      && e.refused == d.refused + (if cmd.device == DEVICE_MOTOR && d.auto then 1 else 0)
  {
    WordsDiffer();
  }

  /** A command without a message asks for nothing new of a device in the server's mode. */
  lemma SilentCommandAsksNothing(auto: bool, intent: Intent, cmd: Command)
    requires Published(auto, cmd) == [] && (auto <==> intent == Automatic)
    ensures IntentAfter(intent, cmd) == intent && !IsModeCommand(cmd)
  {
  }

  lemma EarlierRefusals(es: seq<Event>)
    requires es != []
    ensures |Refusals(es)| == |Refusals(Earlier(es))| + (if RefusedAt(es, |es| - 1) then 1 else 0)
  {
    var n := |es| - 1;
    forall i: nat | i < n
      ensures RefusedAt(es, i) == RefusedAt(es[..n], i)
    {
      assert es[..n][..i] == es[..i];
    }
    hide RefusedAt;
    assert Refusals(es) == Refusals(es[..n]) + (if RefusedAt(es, n) then {n} else {});
  }

  lemma OneMore(commands: seq<Command>, cmd: Command)
    ensures LastMode(commands + [cmd]) == ModeAfter(LastMode(commands), cmd)
    ensures Intended(commands + [cmd]) == IntentAfter(Intended(commands), cmd)
  {
    assert Earlier(commands + [cmd]) == commands;
  }

  lemma OneMoreMessage(d: DeviceState, ms: seq<Message>, m: Message)
    ensures HandledAll(d, ms + [m]) == Handled(HandledAll(d, ms), m)
  {
    assert Earlier(ms + [m]) == ms;
  }

  /** What is neither a mode nor a motor message, or names no known action, is ignored by a device in manual mode. */
  lemma UnknownMessageIgnored(d: DeviceState, m: Message)
    requires (m.kind != "mode_control" && m.kind != "motor_control")
      || (m.kind == "mode_control" && m.action != "auto" && m.action != "manual")
      || (m.kind == "motor_control" && !d.auto && m.action != "start" && m.action != "stop")
    ensures Handled(d, m) == d
  {
    WordsDiffer();
  }

  /** A reading in automatic mode sets the motor by its thresholds, and changes nothing else. */
  lemma ReadingSetsSpeed(es: seq<Event>, co2: real, co: real)
    ensures var s, t := Run(es), Run(es + [Reading(co2, co)]);
      && t.channel == s.channel && t.serverAuto == s.serverAuto && t.device.auto == s.device.auto
      && (!s.device.auto ==> t.device == s.device) && (s.device.auto ==> t.device.writes != [])
    ensures Run(es).device.auto ==>
      var speed := Last(Run(es + [Reading(co2, co)]).device.writes).speed;
      (speed == 100 <==> co2 > 600.0 || co > 25.0) && (speed == 0 <==> co2 <= 400.0 && co <= 9.0) && speed in {0, 60, 100}
  {
    assert Earlier(es + [Reading(co2, co)]) == es;
  }

  lemma QtTracks(s: System, es: seq<Event>, cmd: Command, up: bool)
    requires es != [] && Last(es) == Qt(cmd, up) && Tracks(s, Earlier(es))
    ensures Tracks(Next(s, Last(es)), es)
  {
    var before, t, later := Earlier(es), Next(s, Last(es)), HandledAll(s.device, s.channel);
    OneMore(Commands(before), cmd);
    OneMore(Sent(before), cmd);
    EarlierRefusals(es);
    hide IntentAfter, Handled, Refusals, LastMode, Intended, HandledAll, IsModeCommand, Published;
    if Sends(es, |es| - 1) {
      MessageTakesEffect(later, s.serverAuto, cmd);
      var out := Published(s.serverAuto, cmd);
      assert out == [out[0]];
      OneMoreMessage(s.device, s.channel, out[0]);
    } else {
      assert t.channel == s.channel;
    }
  }

  lemma OtherTracks(s: System, es: seq<Event>)
    requires es != [] && !Last(es).Qt? && Tracks(s, Earlier(es))
    ensures Tracks(Next(s, Last(es)), es)
  {
    EarlierRefusals(es);
    assert !Sends(es, |es| - 1);
    hide Refusals, LastMode, Intended, Handled;
    match Last(es)
    case Deliver =>
      if s.channel != [] {
        HandledAllFirst(s.device, s.channel);
        DeviceKeepsOrder(s.device, s.channel[0]);
      }
    case Reading(co2, co) =>
      ReadingsDoNotMatterLater(s.device, Sensed(s.device, co2, co), s.channel);
  }

  /** The device's own steps keep sensor readings out of manual mode. */
  lemma DeviceKeepsOrder(d: DeviceState, m: Message)
    requires OperatorInCharge(d)
    ensures OperatorInCharge(Handled(d, m))
  {
  }

  // ---- Every run ----

  lemma {:induction false} RunTracks(es: seq<Event>)
    ensures Tracks(Run(es), es)
    decreases |es|
  {
    if es != [] {
      RunTracks(Earlier(es));
      if Last(es).Qt? {
        QtTracks(Run(Earlier(es)), es, Last(es).cmd, Last(es).up);
      } else {
        OtherTracks(Run(Earlier(es)), es);
      }
    }
  }

  lemma {:induction false} RefusedOnlyGrows(d: DeviceState, ms: seq<Message>)
    ensures d.refused <= HandledAll(d, ms).refused
  {
    if ms != [] {
      RefusedOnlyGrows(d, Earlier(ms));
    }
  }

  /**
   In every interleaving of commands, deliveries and sensor readings, with commands lost at any
   time for want of a connection: the server is in the mode last commanded; once the messages under
   way are handled, the device is in the mode last sent, does exactly what the commands sent ask
   for, and has refused one motor command for each one sent after it missed the switch to manual;
   in manual mode its last motor write is never sensor-driven.
   */
  lemma EveryRun(es: seq<Event>)
    ensures var s := Run(es); var later := HandledAll(s.device, s.channel);
      && s.serverAuto == LastMode(Commands(es))
      && later.auto == LastMode(Sent(es))
      && (later.auto || later.writes != []) && Doing(later) == Intended(Sent(es))
      && s.device.refused <= later.refused == |Refusals(es)|
      && (!s.device.auto ==> s.device.writes != [] && Last(s.device.writes).cause != Sensor)
  {
    RunTracks(es);
    RefusedOnlyGrows(Run(es).device, Run(es).channel);
  }

  lemma {:induction false} ConnectedModes(es: seq<Event>)
    ensures LastMode(Sent(es)) == LastMode(Connected(es))
  {
    if es != [] {
      hide LastMode, Published, IsModeCommand, Intended, IntentAfter;
      var before := Earlier(es);
      ConnectedModes(before);
      if Last(es).Qt? && Last(es).up {
        var cmd := Last(es).cmd;
        OneMore(Sent(before), cmd);
        OneMore(Connected(before), cmd);
        ModeCommandIsSent(LastMode(Commands(before)), cmd);
      }
    }
  }

  lemma ModeCommandIsSent(auto: bool, cmd: Command)
    ensures IsModeCommand(cmd) ==> Published(auto, cmd) != []
  {
  }

  /**
   After any losses, server and device end in one mode exactly if the last mode command handled
   while connected names the mode last commanded; the device does what the operator asked for
   exactly if the commands a message went out for ask for the same as all commands; and it refuses
   nothing exactly if no motor command is sent to a device that was last sent to automatic mode.
   */
  lemma LossesHealIff(es: seq<Event>)
    ensures var s := Run(es); var later := HandledAll(s.device, s.channel);
      && (later.auto == s.serverAuto <==> LastMode(Connected(es)) == LastMode(Commands(es)))
      && (later.auto || later.writes != [])
      && (Doing(later) == Intended(Commands(es)) <==> Intended(Sent(es)) == Intended(Commands(es)))
      && (later.refused == 0 <==> forall i: nat :: i < |es| ==> !RefusedAt(es, i))
  {
    RunTracks(es);
    ConnectedModes(es);
    if Refusals(es) != {} {
      var i :| i in Refusals(es);
      assert RefusedAt(es, i);
    }
    assert Refusals(es) == {} <==> |Refusals(es)| == 0;
    assert forall i: nat :: i < |es| && RefusedAt(es, i) ==> i in Refusals(es);
  }

  lemma {:induction false} IntentHasMode(commands: seq<Command>)
    ensures LastMode(commands) <==> Intended(commands) == Automatic
  {
    WordsDiffer();
    if commands != [] {
      IntentHasMode(Earlier(commands));
    }
  }

  /** Nothing was lost from event `n` on, and a mode command was sent just before, or `n` is the start. */
  predicate CleanSince(es: seq<Event>, n: nat)
    requires n <= |es|
  {
    && (n > 0 ==> es[n - 1].Qt? && es[n - 1].up && IsModeCommand(es[n - 1].cmd))
    && forall i :: n <= i < |es| && es[i].Qt? ==> es[i].up
  }

  lemma {:induction false} CleanRunAgrees(es: seq<Event>, n: nat)
    requires n <= |es| && CleanSince(es, n)
    ensures Intended(Sent(es)) == Intended(Commands(es)) && LastMode(Sent(es)) == LastMode(Commands(es))
    decreases |es|
  {
    if es != [] {
      var before := Earlier(es);
      if n < |es| {
        CleanRunAgrees(before, n);
      }
      if Last(es).Qt? {
        CleanStep(es);
      }
    }
  }

  /** A command that is not lost leads back to agreement if it sets the mode, and otherwise keeps it. */
  lemma CleanStep(es: seq<Event>)
    requires es != [] && Last(es).Qt? && Last(es).up
    requires IsModeCommand(Last(es).cmd) ||
      (Intended(Sent(Earlier(es))) == Intended(Commands(Earlier(es))) && LastMode(Sent(Earlier(es))) == LastMode(Commands(Earlier(es))))
    ensures Intended(Sent(es)) == Intended(Commands(es)) && LastMode(Sent(es)) == LastMode(Commands(es))
  {
    var before, cmd := Earlier(es), Last(es).cmd;
    OneMore(Commands(before), cmd);
    OneMore(Sent(before), cmd);
    IntentHasMode(Commands(before));
    hide Intended, LastMode;
    if Published(LastMode(Commands(before)), cmd) == [] {
      SilentCommandAsksNothing(LastMode(Commands(before)), Intended(Commands(before)), cmd);
    }
  }

  /**
   However many commands were lost, the first mode command that gets through repairs it: from then
   on, as long as nothing is lost, the device does what all the commands ask for, in the server's
   mode. In particular it always does if nothing was ever lost (`n` is 0), and then no forwarded
   motor command is ever refused.
   */
  lemma ModeCommandRepairs(es: seq<Event>, n: nat)
    requires n <= |es| && CleanSince(es, n)
    ensures var s := Run(es); var later := HandledAll(s.device, s.channel);
      && later.auto == s.serverAuto
      && (later.auto || later.writes != []) && Doing(later) == Intended(Commands(es))
      && (s.channel == [] ==> Doing(s.device) == Intended(Commands(es)) && s.device.auto == s.serverAuto)
      && (n == 0 ==> s.device.refused == later.refused == 0)
  {
    EveryRun(es);
    CleanRunAgrees(es, n);
    LossesHealIff(es);
    if n == 0 {
      forall i: nat | i < |es|
        ensures !RefusedAt(es, i)
      {
        CleanRunAgrees(es[..i], 0);
        NotRefused(es, i);
      }
    }
  }

  lemma NotRefused(es: seq<Event>, i: nat)
    requires i < |es| && LastMode(Sent(es[..i])) == LastMode(Commands(es[..i]))
    ensures !RefusedAt(es, i)
  {
    WordsDiffer();
  }

  // ---- Losses that show ----

  lemma RunMore(es: seq<Event>, e: Event)
    ensures Run(es + [e]) == Next(Run(es), e)
    ensures Commands(es + [e]) == if e.Qt? then Commands(es) + [e.cmd] else Commands(es)
  {
    assert Earlier(es + [e]) == es;
  }

  lemma RunOfThree(a: Event, b: Event, c: Event)
    ensures Run([a, b, c]) == Next(Next(Next(START, a), b), c)
    ensures a.Qt? && !b.Qt? && c.Qt? ==> Commands([a, b, c]) == [a.cmd, c.cmd]
  {
    assert [] + [a] == [a] && [a] + [b] == [a, b] && [a, b] + [c] == [a, b, c];
    RunMore([], a);
    RunMore([a], b);
    RunMore([a, b], c);
  }

  /** A lost motor command: one mode, but the device does not do what was asked. */
  lemma LostStartShows(speed: int)
    requires speed != 0
    ensures var es := [Qt(Command(DEVICE_MODE_CONTROL, ACTION_MANUAL, 0), true), Deliver,
                       Qt(Command(DEVICE_MOTOR, ACTION_START, speed), false)];
      var s := Run(es);
      && s.channel == [] && s.device.auto == s.serverAuto && s.device.writes != []
      && Doing(s.device) == AtSpeed(0) && Intended(Commands(es)) == AtSpeed(speed)
  {
    hide Run, Commands;
    WordsDiffer();
    var manual, start := Command(DEVICE_MODE_CONTROL, ACTION_MANUAL, 0), Command(DEVICE_MOTOR, ACTION_START, speed);
    RunOfThree(Qt(manual, true), Deliver, Qt(start, false));
    assert [] + [manual] == [manual] && [manual] + [start] == [manual, start];
    OneMore([], manual);
    OneMore([manual], start);
  }

  /** A lost switch to manual: the next motor command is forwarded and refused. */
  lemma LostSwitchShows(speed: int)
    ensures var es := [Qt(Command(DEVICE_MODE_CONTROL, ACTION_MANUAL, 0), false),
                       Qt(Command(DEVICE_MOTOR, ACTION_START, speed), true), Deliver];
      var s := Run(es); !s.serverAuto && s.device.auto && s.device.refused == 1
  {
    hide Run, Commands;
    WordsDiffer();
    var manual, start := Command(DEVICE_MODE_CONTROL, ACTION_MANUAL, 0), Command(DEVICE_MOTOR, ACTION_START, speed);
    RunOfThree(Qt(manual, false), Qt(start, true), Deliver);
  }
}

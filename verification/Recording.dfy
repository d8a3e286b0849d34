/**
 The recording life cycle of the cameras: frames, user calls, tasks deferred through the Qt
 event queue, ffmpeg processes, and shutdown. Here as functions on one state value; the class
 `RecordingManager` implements them on the source's maps.
 */
module Recording {
  import opened Wrappers

  type Jpeg = seq<int>

  const CALIBRATION_SKIP := 5
  const CALIBRATION_FRAMES := 60
  const CALIBRATION_TOTAL := CALIBRATION_SKIP + CALIBRATION_FRAMES

  /** Calls queued for the event loop. */
  datatype Task = AutoStart(camera: int) | RollSegment(camera: int)

  /**
   A launched ffmpeg. `session` are the frames received in its recording session,
   `delivered[i]` says whether frame i was written to its input, `closed` lists the frame
   counts recorded each time its input was closed.
   */
  datatype Proc = Proc(camera: int, session: seq<Jpeg>, delivered: seq<bool>, written: seq<Jpeg>, closed: seq<nat>)

  datatype Cam = Cam(
    recording: bool,
    manualStop: bool,
    autoStartPending: bool,
    calibrating: bool,
    calibBuf: seq<Jpeg>,
    frameCount: nat,
    process: Option<nat>,
    segmentRolling: bool,
    session: seq<Jpeg>)  // frames received since this session started

  const FRESH := Cam(false, false, false, false, [], 0, None, false, [])

  type Cams = m: imap<int, Cam> | forall c: int :: c in m ghost witness imap c: int :: FRESH

  datatype World = World(cams: Cams, tasks: seq<Task>, procs: seq<Proc>)

  /** What the environment answers while a frame is handled. */
  datatype Env = Env(ffmpegFound: bool, started: bool, running: seq<bool>, overdue: bool)

  datatype Event =
    | Start(camera: int, found: bool)
    | Stop(camera: int)
    | FrameIn(camera: int, jpeg: Jpeg, env: Env)
    | RunTask(found: bool)
    | Shutdown

  predicate Runs(env: Env, i: nat) {
    i < |env.running| && env.running[i]
  }

  ghost function Put(w: World, c: int, k: Cam): World {
    w.(cams := w.cams[c := k])
  }

  function StartCam(k: Cam, found: bool): Cam {
    if k.recording then k
    else if !found then k.(manualStop := false)
    else k.(recording := true, manualStop := false, calibrating := true, calibBuf := [], frameCount := 0,
            process := None, segmentRolling := false, session := [])
  }

  /** closeWriteChannel on the held process, if any, with the frame count that goes to meta.json. */
  function Close(procs: seq<Proc>, held: Option<nat>, count: nat): (r: seq<Proc>)
    ensures |r| == |procs|
  {
    if held.Some? && held.value < |procs| then
      procs[held.value := procs[held.value].(closed := procs[held.value].closed + [count])]
    else procs
  }

  /** Writes frames to a process; `first` is the number of the first write within this call. */
  function Feed(p: Proc, frames: seq<Jpeg>, env: Env, first: nat): Proc
    decreases |frames|
  {
    if frames == [] then p
    else
      var n := |frames| - 1;
      var q := Feed(p, frames[..n], env, first);
      var ok := Runs(env, first + n);
      q.(session := q.session + [frames[n]], delivered := q.delivered + [ok],
         written := q.written + (if ok then [frames[n]] else []))
  }

  function FeedHeld(procs: seq<Proc>, held: Option<nat>, frames: seq<Jpeg>, env: Env): (r: seq<Proc>)
    ensures |r| == |procs|
  {
    if held.Some? && held.value < |procs| then procs[held.value := Feed(procs[held.value], frames, env, 0)] else procs
  }

  ghost function StopStep(w: World, c: int, manual: bool): World {
    var k := w.cams[c];
    if !k.recording then w
    else if k.calibrating then
      Put(w, c, k.(manualStop := manual || k.manualStop, calibrating := false, calibBuf := [], recording := false))
    else
      Put(w, c, k.(manualStop := manual || k.manualStop, recording := false, process := None))
        .(procs := Close(w.procs, k.process, k.frameCount))
  }

  ghost function RollStep(w: World, c: int): World {
    var k := w.cams[c];
    if !k.recording then w
    else Put(w, c, k.(recording := false, process := None)).(procs := Close(w.procs, k.process, k.frameCount))
  }

  ghost function FrameStep(w: World, c: int, jpeg: Jpeg, env: Env): World {
    var k := w.cams[c];
    if !k.recording then
      if !k.manualStop && !k.autoStartPending then
        Put(w, c, k.(autoStartPending := true)).(tasks := w.tasks + [AutoStart(c)])
      else w
    else if k.calibrating then
      var buf := k.calibBuf + [jpeg];
      if |buf| < CALIBRATION_TOTAL then Put(w, c, k.(calibBuf := buf, session := k.session + [jpeg]))
      else
        var launched := env.ffmpegFound && env.started;
        var procs := if launched then w.procs + [Proc(c, [], [], [], [])] else w.procs;
        var held := if launched then Some(|w.procs|) else k.process;
        Put(w, c, k.(calibBuf := [], calibrating := false, process := held,
                     frameCount := k.frameCount + |buf|, session := k.session + [jpeg]))
          .(procs := FeedHeld(procs, held, buf, env))
    else
      var roll := !k.segmentRolling && env.overdue;
      Put(w, c, k.(frameCount := k.frameCount + 1, session := k.session + [jpeg], segmentRolling := k.segmentRolling || roll))
        .(procs := FeedHeld(w.procs, k.process, [jpeg], env),
          tasks := if roll then w.tasks + [RollSegment(c)] else w.tasks)
  }

  ghost function TaskStep(w: World, found: bool): World {
    if w.tasks == [] then w
    else
      var v := w.(tasks := w.tasks[1..]);
      match w.tasks[0]
      case AutoStart(c) => Put(v, c, StartCam(v.cams[c], found).(autoStartPending := false))
      case RollSegment(c) => RollStep(v, c)
  }

  ghost function ShutdownUpTo(w: World, n: nat): World {
    if n == 0 then w else StopStep(ShutdownUpTo(w, n - 1), n, false)
  }

  ghost function Next(w: World, e: Event): World {
    match e
    case Start(c, found) => Put(w, c, StartCam(w.cams[c], found))
    case Stop(c) => StopStep(w, c, true)
    case FrameIn(c, jpeg, env) => FrameStep(w, c, jpeg, env)
    case RunTask(found) => TaskStep(w, found)
    case Shutdown => ShutdownUpTo(w, 4)
  }

  ghost const INITIAL := World(imap c: int :: FRESH, [], [])

  ghost function Run(w: World, es: seq<Event>): World
    decreases |es|
  {
    if es == [] then w else Run(Next(w, es[0]), es[1..])
  }

  // ---- The invariant ----

  /** The frames that were delivered, in order. */
  function Selected(frames: seq<Jpeg>, delivered: seq<bool>): seq<Jpeg>
    requires |frames| == |delivered|
  {
    if frames == [] then []
    else
      var n := |frames| - 1;
      Selected(frames[..n], delivered[..n]) + (if delivered[n] then [frames[n]] else [])
  }

  /** A process got exactly the delivered frames of its session, and recorded its count at most once. */
  ghost predicate ProcOk(p: Proc) {
    && |p.session| == |p.delivered| && p.written == Selected(p.session, p.delivered)
    && |p.closed| <= 1
    && (p.closed != [] ==> p.closed == [|p.session|])
  }

  ghost predicate CamOk(k: Cam) {
    && |k.calibBuf| < CALIBRATION_TOTAL
    && (!k.calibrating ==> k.calibBuf == [])
    && (k.process.Some? ==> k.recording && !k.calibrating)
    && (k.recording ==> !k.manualStop)
    && (k.recording ==> k.frameCount + |k.calibBuf| == |k.session|)
    && (k.recording && k.calibrating ==> k.frameCount == 0 && k.calibBuf == k.session)
    && (k.recording && !k.calibrating ==> k.frameCount >= CALIBRATION_TOTAL)
  }

  /** The process a camera holds belongs to it, is open, and has seen the whole session. */
  ghost predicate HoldsOk(c: int, k: Cam, procs: seq<Proc>) {
    k.process.Some? ==>
      && k.process.value < |procs|
      && var p := procs[k.process.value];
         p.camera == c && p.closed == [] && p.session == k.session
  }

  ghost predicate TasksOk(c: int, k: Cam, tasks: seq<Task>) {
    multiset(tasks)[AutoStart(c)] == if k.autoStartPending then 1 else 0
  }

  ghost predicate CameraOk(w: World, c: int) {
    CamOk(w.cams[c]) && HoldsOk(c, w.cams[c], w.procs) && TasksOk(c, w.cams[c], w.tasks)
  }

  /** An open process is the one its camera holds: none is lost or overwritten. */
  ghost predicate ProcessOk(w: World, i: nat)
    requires i < |w.procs|
  {
    ProcOk(w.procs[i]) && (w.procs[i].closed == [] <==> w.cams[w.procs[i].camera].process == Some(i))
  }

  ghost predicate Inv(w: World) {
    && (forall c: int :: CameraOk(w, c))
    && (forall i: nat :: i < |w.procs| ==> ProcessOk(w, i))
  }

  // ---- Every step keeps the invariant ----

  /** What a step on camera `c` must show for the invariant to carry over. */
  ghost predicate Local(w: World, v: World, c: int) {
    && v.cams == w.cams[c := v.cams[c]]
    && |w.procs| <= |v.procs|
    && (forall i: nat :: i < |w.procs| && w.cams[c].process != Some(i) ==> v.procs[i] == w.procs[i])
    && (forall i: nat :: i < |v.procs| && (w.cams[c].process == Some(i) || |w.procs| <= i) ==> v.procs[i].camera == c && ProcessOk(v, i))
    && (v.cams[c].process.Some? ==> v.cams[c].process == w.cams[c].process || v.cams[c].process.value >= |w.procs|)
    && (forall d: int :: d != c ==> multiset(v.tasks)[AutoStart(d)] == multiset(w.tasks)[AutoStart(d)])
  }

  lemma LocalStepKeeps(w: World, v: World, c: int)
    requires Inv(w) && Local(w, v, c) && CameraOk(v, c)
    ensures Inv(v)
  {
    forall d: int
      ensures CameraOk(v, d)
    {
      assert CameraOk(w, d) && CameraOk(w, c);
      if d != c && w.cams[d].process.Some? {
        var i := w.cams[d].process.value;
        assert w.procs[i].camera == d;
        assert w.cams[c].process != Some(i);
      }
    }
    forall i: nat | i < |v.procs|
      ensures ProcessOk(v, i)
    {
      if w.cams[c].process != Some(i) && i < |w.procs| {
        assert ProcessOk(w, i) && v.procs[i] == w.procs[i];
      }
    }
  }

  lemma {:induction false} FeedOk(p: Proc, frames: seq<Jpeg>, env: Env, first: nat)
    requires |p.session| == |p.delivered| && p.written == Selected(p.session, p.delivered)
    ensures var q := Feed(p, frames, env, first);
      && q.session == p.session + frames && q.camera == p.camera && q.closed == p.closed
      && |q.session| == |q.delivered| && q.written == Selected(q.session, q.delivered)
    decreases |frames|
  {
    if frames == [] {
      assert p.session + frames == p.session;
    } else {
      var n := |frames| - 1;
      FeedOk(p, frames[..n], env, first);
      var before, q := Feed(p, frames[..n], env, first), Feed(p, frames, env, first);
      assert p.session + frames == p.session + frames[..n] + [frames[n]];
      assert q.session[..|before.session|] == before.session && q.delivered[..|before.session|] == before.delivered;
    }
  }

  lemma ClosedOk(w: World, c: int, v: World)
    requires Inv(w) && w.cams[c].recording && !w.cams[c].calibrating
    requires v.procs == Close(w.procs, w.cams[c].process, w.cams[c].frameCount)
    requires v.cams == w.cams[c := v.cams[c]] && v.cams[c].process == None && v.tasks == w.tasks
    ensures Local(w, v, c)
  {
    assert CameraOk(w, c);
    if w.cams[c].process.Some? {
      var i := w.cams[c].process.value;
      assert ProcessOk(w, i);
      assert v.procs[i].closed == [|v.procs[i].session|];
    }
  }

  lemma StopKeeps(w: World, c: int, manual: bool)
    requires Inv(w)
    ensures Inv(StopStep(w, c, manual))
  {
    var v := StopStep(w, c, manual);
    assert CameraOk(w, c);
    if w.cams[c].recording {
      if w.cams[c].calibrating {
        assert Local(w, v, c);
      } else {
        ClosedOk(w, c, v);
      }
      LocalStepKeeps(w, v, c);
    }
  }

  lemma RollKeeps(w: World, c: int)
    requires Inv(w)
    ensures Inv(RollStep(w, c))
  {
    var k, v := w.cams[c], RollStep(w, c);
    assert CameraOk(w, c);
    if k.recording {
      if k.calibrating {
        assert Local(w, v, c);
      } else {
        ClosedOk(w, c, v);
      }
      LocalStepKeeps(w, v, c);
    }
  }

  lemma StartKeeps(w: World, c: int, found: bool)
    requires Inv(w)
    ensures Inv(Put(w, c, StartCam(w.cams[c], found)))
  {
    var v := Put(w, c, StartCam(w.cams[c], found));
    assert CameraOk(w, c);
    if w.cams[c].recording {
      assert v.cams == w.cams;
    } else {
      assert CameraOk(v, c) && Local(w, v, c);
      LocalStepKeeps(w, v, c);
    }
  }

  /** A frame to a camera that is not recording. */
  lemma IdleFrameKeeps(w: World, c: int, jpeg: Jpeg, env: Env)
    requires Inv(w) && !w.cams[c].recording
    ensures Inv(FrameStep(w, c, jpeg, env))
  {
    var v := FrameStep(w, c, jpeg, env);
    assert CameraOk(w, c);
    if v != w {
      assert CameraOk(v, c) && Local(w, v, c);
      LocalStepKeeps(w, v, c);
    }
  }

  /** A frame that only fills the calibration buffer, or completes it. */
  lemma CalibrationFrameKeeps(w: World, c: int, jpeg: Jpeg, env: Env)
    requires Inv(w) && w.cams[c].recording && w.cams[c].calibrating
    ensures Inv(FrameStep(w, c, jpeg, env))
  {
    assert CameraOk(w, c);
    if |w.cams[c].calibBuf| + 1 < CALIBRATION_TOTAL || !env.ffmpegFound || !env.started {
      var v := FrameStep(w, c, jpeg, env);
      assert CameraOk(v, c) && Local(w, v, c);
      LocalStepKeeps(w, v, c);
    } else {
      LaunchKeeps(w, c, jpeg, env);
    }
  }

  /** The frame that completes the calibration and launches ffmpeg. */
  lemma LaunchKeeps(w: World, c: int, jpeg: Jpeg, env: Env)
    requires Inv(w) && w.cams[c].recording && w.cams[c].calibrating
    requires |w.cams[c].calibBuf| + 1 == CALIBRATION_TOTAL && env.ffmpegFound && env.started
    ensures Inv(FrameStep(w, c, jpeg, env))
  {
    var k := w.cams[c];
    assert CameraOk(w, c);
    var buf := k.calibBuf + [jpeg];
    var p := Launched(c, buf, env);
    FedLaunch(w.procs, c, buf, env);
    AddProcessKeeps(w, c, k.(calibBuf := [], calibrating := false, process := Some(|w.procs|),
      frameCount := k.frameCount + |buf|, session := k.session + [jpeg]), p);
  }

  /** The process launched with the calibration frames. */
  function Launched(c: int, buf: seq<Jpeg>, env: Env): Proc {
    Feed(Proc(c, [], [], [], []), buf, env, 0)
  }

  lemma FedLaunch(procs: seq<Proc>, c: int, buf: seq<Jpeg>, env: Env)
    ensures FeedHeld(procs + [Proc(c, [], [], [], [])], Some(|procs|), buf, env) == procs + [Launched(c, buf, env)]
    ensures var p := Launched(c, buf, env); p.camera == c && p.session == buf && p.closed == [] && ProcOk(p)
  {
    var launched := Proc(c, [], [], [], []);
    FeedOk(launched, buf, env, 0);
    assert (procs + [launched])[|procs|] == launched;
    assert [] + buf == buf;
  }

  lemma AddProcessKeeps(w: World, c: int, k: Cam, p: Proc)
    requires Inv(w) && w.cams[c].process == None
    requires CamOk(k) && k.process == Some(|w.procs|) && k.session == p.session && k.autoStartPending == w.cams[c].autoStartPending
    requires ProcOk(p) && p.camera == c && p.closed == []
    ensures Inv(Put(w, c, k).(procs := w.procs + [p]))
  {
    var v := Put(w, c, k).(procs := w.procs + [p]);
    assert CameraOk(w, c);
    assert v.procs[|w.procs|] == p;
    assert ProcessOk(v, |w.procs|);
    assert CameraOk(v, c);
    assert Local(w, v, c);
    LocalStepKeeps(w, v, c);
  }

  /** A frame of a running session. */
  lemma RecordedFrameKeeps(w: World, c: int, jpeg: Jpeg, env: Env)
    requires Inv(w) && w.cams[c].recording && !w.cams[c].calibrating
    ensures Inv(FrameStep(w, c, jpeg, env))
  {
    assert CameraOk(w, c);
    if w.cams[c].process.Some? {
      var i := w.cams[c].process.value;
      assert ProcessOk(w, i);
      FeedOk(w.procs[i], [jpeg], env, 0);
      FeedingKeeps(w, c, jpeg, env, Feed(w.procs[i], [jpeg], env, 0));
    } else {
      var v := FrameStep(w, c, jpeg, env);
      assert CameraOk(v, c) && Local(w, v, c);
      LocalStepKeeps(w, v, c);
    }
  }

  lemma FeedingKeeps(w: World, c: int, jpeg: Jpeg, env: Env, q: Proc)
    requires Inv(w) && CameraOk(w, c) && w.cams[c].recording && !w.cams[c].calibrating && w.cams[c].process.Some?
    requires q == Feed(w.procs[w.cams[c].process.value], [jpeg], env, 0) && q.camera == c && q.closed == []
    requires ProcOk(q) && q.session == w.procs[w.cams[c].process.value].session + [jpeg]
    ensures Inv(FrameStep(w, c, jpeg, env))
  {
    hide Feed, ProcOk;
    var v := FrameStep(w, c, jpeg, env);
    assert CameraOk(v, c) && Local(w, v, c);
    LocalStepKeeps(w, v, c);
  }

  lemma TaskKeeps(w: World, found: bool)
    requires Inv(w)
    ensures Inv(TaskStep(w, found))
  {
    if w.tasks != [] {
      var task, v := w.tasks[0], TaskStep(w, found);
      assert w.tasks == [task] + w.tasks[1..];
      var c := task.camera;
      assert CameraOk(w, c);
      match task {
        case AutoStart(_) =>
          if w.cams[c].recording {
            HeldStays(w, v, c);
          }
          assert CameraOk(v, c) && Local(w, v, c);
          LocalStepKeeps(w, v, c);
        case RollSegment(_) =>
          var u := w.(tasks := w.tasks[1..]);
          assert forall d: int :: CameraOk(w, d) ==> CameraOk(u, d);
          assert forall i: nat :: i < |w.procs| && ProcessOk(w, i) ==> ProcessOk(u, i);
          RollKeeps(u, c);
      }
    }
  }

  /** The process a camera holds is still in order when only flags of the camera change. */
  lemma HeldStays(w: World, v: World, c: int)
    requires Inv(w) && v.procs == w.procs && v.cams == w.cams[c := v.cams[c]]
    requires v.cams[c].process == w.cams[c].process
    ensures forall i: nat :: i < |v.procs| && w.cams[c].process == Some(i) ==> v.procs[i].camera == c && ProcessOk(v, i)
  {
    assert CameraOk(w, c);
    forall i: nat | i < |v.procs| && w.cams[c].process == Some(i)
      ensures v.procs[i].camera == c && ProcessOk(v, i)
    {
      assert ProcessOk(w, i);
    }
  }

  lemma {:induction false} ShutdownKeeps(w: World, n: nat)
    requires Inv(w)
    ensures Inv(ShutdownUpTo(w, n))
  {
    if n > 0 {
      ShutdownKeeps(w, n - 1);
      StopKeeps(ShutdownUpTo(w, n - 1), n, false);
    }
  }

  lemma StepKeeps(w: World, e: Event)
    requires Inv(w)
    ensures Inv(Next(w, e))
  {
    match e
    case Start(c, found) => StartKeeps(w, c, found);
    case Stop(c) => StopKeeps(w, c, true);
    case FrameIn(c, jpeg, env) =>
      if !w.cams[c].recording {
        IdleFrameKeeps(w, c, jpeg, env);
      } else if w.cams[c].calibrating {
        CalibrationFrameKeeps(w, c, jpeg, env);
      } else {
        RecordedFrameKeeps(w, c, jpeg, env);
      }
    case RunTask(found) => TaskKeeps(w, found);
    case Shutdown => ShutdownKeeps(w, 4);
  }

  /** The invariant holds in every run of frames, user calls, deferred tasks and shutdowns. */
  lemma {:induction false} RunKeeps(w: World, es: seq<Event>)
    requires Inv(w)
    ensures Inv(Run(w, es))
    decreases |es|
  {
    if es != [] {
      StepKeeps(w, es[0]);
      RunKeeps(Next(w, es[0]), es[1..]);
    }
  }

  lemma InitiallyGood()
    ensures Inv(INITIAL)
  {
  }

  // ---- What follows for every run ----

  lemma {:induction false} SelectedAll(frames: seq<Jpeg>, delivered: seq<bool>)
    requires |frames| == |delivered| && forall i :: 0 <= i < |delivered| ==> delivered[i]
    ensures Selected(frames, delivered) == frames
    decreases |frames|
  {
    if frames != [] {
      var n := |frames| - 1;
      SelectedAll(frames[..n], delivered[..n]);
      assert frames == frames[..n] + [frames[n]];
    }
  }

  /**
   Every camera in every run: a held process implies recording and not calibrating, is the
   camera's own, is open, and has been offered every frame of the session; frames counted plus
   frames buffered are the frames received while recording; the calibration buffer holds at most
   64 frames and is empty outside calibration; a pending auto-start is queued exactly once; once
   calibrated at least 65 frames are counted, so no later frame is ever number 1.
   */
  lemma EveryRunOfACamera(es: seq<Event>, c: int)
    ensures var w := Run(INITIAL, es); var k := w.cams[c];
      && (k.process.Some? ==> k.recording && !k.calibrating && k.process.value < |w.procs|)
      && HoldsOk(c, k, w.procs)
      && (k.recording ==> k.frameCount + |k.calibBuf| == |k.session|)
      && |k.calibBuf| <= 64 && (!k.calibrating ==> k.calibBuf == [])
      && multiset(w.tasks)[AutoStart(c)] == (if k.autoStartPending then 1 else 0)
      && (k.recording && !k.calibrating ==> k.frameCount >= 65)
  {
    InitiallyGood();
    RunKeeps(INITIAL, es);
    hide Run;
    assert CameraOk(Run(INITIAL, es), c);
  }

  /**
   Every launched process in every run: it is open exactly while its camera holds it, so none is
   lost or overwritten; its input is closed at most once, with a recorded frame count equal to the
   number of frames of its session; what was written to it are the delivered session frames in
   arrival order, and all of them if it kept running.
   */
  lemma EveryRunOfAProcess(es: seq<Event>, i: nat)
    requires i < |Run(INITIAL, es).procs|
    ensures var w := Run(INITIAL, es); var p := w.procs[i];
      && (p.closed == [] <==> w.cams[p.camera].process == Some(i))
      && (p.closed == [] || p.closed == [|p.session|])
      && |p.delivered| == |p.session| && p.written == Selected(p.session, p.delivered)
      && ((forall j :: 0 <= j < |p.delivered| ==> p.delivered[j]) ==> p.written == p.session)
  {
    InitiallyGood();
    RunKeeps(INITIAL, es);
    hide Run;
    assert ProcessOk(Run(INITIAL, es), i);
    var p := Run(INITIAL, es).procs[i];
    if forall j :: 0 <= j < |p.delivered| ==> p.delivered[j] {
      SelectedAll(p.session, p.delivered);
    }
  }

  // ---- When a process is closed ----

  /** The events that end the session of camera `c`: manual stop, segment roll, shutdown of cameras 1 to 4. */
  ghost predicate EndsSession(w: World, e: Event, c: int) {
    e == Stop(c) || (e == Shutdown && 1 <= c <= 4) || (e.RunTask? && w.tasks != [] && w.tasks[0] == RollSegment(c))
  }

  lemma {:induction false} ShutdownCloses(w: World, n: nat, i: nat)
    requires Inv(w) && i < |w.procs| && w.procs[i].closed == []
    ensures var v := ShutdownUpTo(w, n);
      && |v.procs| == |w.procs| && v.procs[i].camera == w.procs[i].camera
      && (v.procs[i].closed != [] <==> 1 <= w.procs[i].camera <= n)
  {
    if n > 0 {
      ShutdownCloses(w, n - 1, i);
      ShutdownKeeps(w, n - 1);
      StopCloses(ShutdownUpTo(w, n - 1), n, false, i);
    }
  }

  lemma StopCloses(w: World, c: int, manual: bool, i: nat)
    requires Inv(w) && i < |w.procs|
    ensures var v := StopStep(w, c, manual);
      && |v.procs| == |w.procs| && v.procs[i].camera == w.procs[i].camera
      && (w.procs[i].closed == [] ==> (v.procs[i].closed != [] <==> w.procs[i].camera == c))
      && (w.procs[i].closed != [] ==> v.procs[i] == w.procs[i])
  {
    assert ProcessOk(w, i) && CameraOk(w, c) && CameraOk(w, w.procs[i].camera);
  }

  lemma RollCloses(w: World, c: int, i: nat)
    requires Inv(w) && i < |w.procs|
    ensures var v := RollStep(w, c);
      && |v.procs| == |w.procs|
      && (w.procs[i].closed == [] ==> (v.procs[i].closed != [] <==> w.procs[i].camera == c))
      && (w.procs[i].closed != [] ==> v.procs[i] == w.procs[i])
  {
    assert ProcessOk(w, i) && CameraOk(w, c) && CameraOk(w, w.procs[i].camera);
  }

  lemma FrameClosesNothing(w: World, c: int, jpeg: Jpeg, env: Env, i: nat)
    requires Inv(w) && i < |w.procs|
    ensures var v := FrameStep(w, c, jpeg, env);
      && |w.procs| <= |v.procs| && v.procs[i].closed == w.procs[i].closed
      && (w.procs[i].closed != [] ==> v.procs[i] == w.procs[i])
  {
    var k := w.cams[c];
    assert ProcessOk(w, i) && CameraOk(w, c);
    if k.recording && !k.calibrating && k.process == Some(i) {
      FeedOk(w.procs[i], [jpeg], env, 0);
    }
  }

  lemma PoppedGood(w: World) returns (u: World)
    requires Inv(w) && w.tasks != [] && w.tasks[0].RollSegment?
    ensures u == w.(tasks := w.tasks[1..]) && Inv(u)
  {
    u := w.(tasks := w.tasks[1..]);
    assert w.tasks == [w.tasks[0]] + w.tasks[1..];
    assert forall d: int :: CameraOk(w, d) ==> CameraOk(u, d);
    assert forall i: nat :: i < |w.procs| && ProcessOk(w, i) ==> ProcessOk(u, i);
  }

  /** The input of an open process is closed by a step exactly when that step ends its camera's session. */
  lemma ClosedIffSessionEnds(w: World, e: Event, i: nat)
    requires Inv(w) && i < |w.procs| && w.procs[i].closed == []
    ensures |w.procs| <= |Next(w, e).procs|
    ensures Next(w, e).procs[i].closed != [] <==> EndsSession(w, e, w.procs[i].camera)
  {
    match e
    case Start(c, found) =>
    case Stop(c) => StopCloses(w, c, true, i);
    case FrameIn(c, jpeg, env) => FrameClosesNothing(w, c, jpeg, env, i);
    case RunTask(found) =>
      if w.tasks != [] && w.tasks[0].RollSegment? {
        var u := PoppedGood(w);
        RollCloses(u, w.tasks[0].camera, i);
      }
    case Shutdown => ShutdownCloses(w, 4, i);
  }

  // ---- Manual stop ----

  ghost predicate StartsByHand(es: seq<Event>, c: int) {
    exists i :: 0 <= i < |es| && es[i].Start? && es[i].camera == c
  }

  /** Stopped by hand with no auto-start queued. */
  ghost predicate Parked(w: World, c: int) {
    Inv(w) && w.cams[c].manualStop && !w.cams[c].recording && !w.cams[c].autoStartPending
  }

  lemma {:induction false} ShutdownLeavesParked(w: World, c: int, n: nat)
    requires !w.cams[c].recording
    ensures ShutdownUpTo(w, n).cams[c] == w.cams[c]
  {
    if n > 0 {
      ShutdownLeavesParked(w, c, n - 1);
    }
  }

  lemma ParkedStep(w: World, e: Event, c: int)
    requires Parked(w, c) && !(e.Start? && e.camera == c)
    ensures Parked(Next(w, e), c)
  {
    StepKeeps(w, e);
    hide Inv;
    match e
    case RunTask(found) => ParkedTask(w, found, c);
    case Shutdown => ShutdownLeavesParked(w, c, 4);
    case FrameIn(d, jpeg, env) =>
    case _ =>
  }

  lemma ParkedTask(w: World, found: bool, c: int)
    requires Parked(w, c)
    ensures var k := TaskStep(w, found).cams[c]; k.manualStop && !k.recording && !k.autoStartPending
  {
    assert CameraOk(w, c);
    if w.tasks != [] {
      assert w.tasks[0] in multiset(w.tasks);
      assert w.tasks[0] != AutoStart(c);
    }
  }

  lemma {:induction false} ParkedStaysParked(w: World, es: seq<Event>, c: int)
    requires Parked(w, c) && !StartsByHand(es, c)
    ensures Parked(Run(w, es), c)
    decreases |es|
  {
    if es != [] {
      assert !(es[0].Start? && es[0].camera == c);
      ParkedStep(w, es[0], c);
      assert !StartsByHand(es[1..], c) by {
        assert forall i :: 0 <= i < |es[1..]| ==> es[1..][i] == es[i + 1];
      }
      ParkedStaysParked(Next(w, es[0]), es[1..], c);
    }
  }

  /** Running the queued tasks restarts a stopped camera whose auto-start is still queued. */
  lemma {:induction false} QueuedAutoStartRestarts(w: World, c: int, k: nat)
    requires k < |w.tasks| && w.tasks[k] == AutoStart(c) && forall j :: 0 <= j < k ==> w.tasks[j] != AutoStart(c)
    requires !w.cams[c].recording
    ensures Run(w, seq(k + 1, _ => RunTask(true))).cams[c].recording
    decreases k
  {
    var es := seq(k + 1, _ => RunTask(true));
    assert es[0] == RunTask(true) && es[1..] == seq(k, _ => RunTask(true));
    var v := Next(w, RunTask(true));
    if k == 0 {
      assert Run(v, []) == v;
    } else {
      assert w.tasks[0] != AutoStart(c);
      assert v.tasks == w.tasks[1..] && v.cams[c].recording == false;
      QueuedAutoStartRestarts(v, c, k - 1);
    }
  }

  lemma FirstQueued(tasks: seq<Task>, t: Task) returns (k: nat)
    requires t in tasks
    ensures k < |tasks| && tasks[k] == t && forall j :: 0 <= j < k ==> tasks[j] != t
  {
    k := 0;
    while tasks[k] != t
      invariant k < |tasks| && t in tasks[k..] && forall j :: 0 <= j < k ==> tasks[j] != t
      decreases |tasks| - k
    {
      assert tasks[k..] == [tasks[k]] + tasks[k + 1..];
      k := k + 1;
    }
  }

  /**
   After a manual stop, the camera stays off in every run without an explicit start exactly when
   no auto-start was queued at the time of the stop.
   */
  lemma ManualStopHoldsIff(w: World, c: int)
    requires Inv(w) && w.cams[c].recording
    ensures (forall es: seq<Event> :: !StartsByHand(es, c) ==> !Run(Next(w, Stop(c)), es).cams[c].recording)
      <==> !w.cams[c].autoStartPending
  {
    var v := Next(w, Stop(c));
    StepKeeps(w, Stop(c));
    if w.cams[c].autoStartPending {
      assert CameraOk(v, c);
      assert AutoStart(c) in multiset(v.tasks);
      var k := FirstQueued(v.tasks, AutoStart(c));
      QueuedAutoStartRestarts(v, c, k);
      var es := seq(k + 1, _ => RunTask(true));
      assert !StartsByHand(es, c) && Run(v, es).cams[c].recording;
    } else {
      forall es: seq<Event> | !StartsByHand(es, c)
        ensures !Run(v, es).cams[c].recording
      {
        ParkedStaysParked(v, es, c);
      }
    }
  }

  /** A run in which a manual stop does not hold: an automatic start was queued before a start by hand. */
  lemma ManualStopCanFail(c: int, jpeg: Jpeg, env: Env)
    ensures var w := Run(INITIAL, [FrameIn(c, jpeg, env), Start(c, true)]);
      && w.cams[c].recording && w.cams[c].autoStartPending
      && Run(w, [Stop(c), RunTask(true)]).cams[c].recording
  {
    var w1 := Next(INITIAL, FrameIn(c, jpeg, env));
    var w2 := Next(w1, Start(c, true));
    TwoSteps(INITIAL, FrameIn(c, jpeg, env), Start(c, true));
    TwoSteps(w2, Stop(c), RunTask(true));
    assert w2.tasks == [AutoStart(c)];
  }

  lemma TwoSteps(w: World, a: Event, b: Event)
    ensures Run(w, [a, b]) == Next(Next(w, a), b)
  {
    hide Next;
    assert [a, b][1..] == [b] && [b][1..] == [];
    assert Run(Next(w, a), [b]) == Run(Next(Next(w, a), b), []);
  }

  lemma {:induction false} RunAppend(w: World, a: seq<Event>, b: seq<Event>)
    ensures Run(w, a + b) == Run(Run(w, a), b)
    decreases |a|
  {
    hide Next;
    if a == [] {
      assert a + b == b;
    } else {
      assert (a + b)[1..] == a[1..] + b;
      RunAppend(Next(w, a[0]), a[1..], b);
    }
  }

  // ---- When a session begins ----

  /** A start by hand or from the queue, with ffmpeg found. */
  ghost predicate Starts(w: World, e: Event, c: int) {
    e == Start(c, true) || (e == RunTask(true) && w.tasks != [] && w.tasks[0] == AutoStart(c))
  }

  lemma {:induction false} ShutdownStartsNothing(w: World, n: nat, c: int)
    requires !w.cams[c].recording
    ensures ShutdownUpTo(w, n).cams[c] == w.cams[c]
  {
    if n > 0 {
      ShutdownStartsNothing(w, n - 1, c);
    }
  }

  /** A camera that is not recording starts recording exactly by a start that finds ffmpeg, and calibrates anew. */
  lemma SessionBeginsIff(w: World, e: Event, c: int)
    requires !w.cams[c].recording
    ensures var k := Next(w, e).cams[c];
      && (k.recording <==> Starts(w, e, c))
      && (k.recording ==> k.calibrating && k.calibBuf == [] && k.session == [] && k.frameCount == 0)
  {
    if e.Shutdown? {
      ShutdownStartsNothing(w, 4, c);
    }
  }

  /** A start by hand takes back a manual stop, even if it finds no ffmpeg; the next frame then tries again. */
  lemma StartRevokesManualStop(w: World, c: int, found: bool)
    requires !w.cams[c].recording
    ensures var k := Next(w, Start(c, found)).cams[c]; !k.manualStop && k.recording == found
  {
  }

  // ---- After a segment roll ----

  /** `t` stands in the queue at `k`, and not before. */
  predicate FirstAt(tasks: seq<Task>, t: Task, k: nat) {
    k < |tasks| && tasks[k] == t && forall j :: 0 <= j < k ==> tasks[j] != t
  }

  /** Whether the task run as number `k`, counted from 0, finds ffmpeg; None if fewer tasks are run. */
  function Answer(es: seq<Event>, k: nat): Option<bool> {
    if es == [] then None
    else if !es[0].RunTask? then Answer(es[1..], k)
    else if k == 0 then Some(es[0].found)
    else Answer(es[1..], k - 1)
  }

  /** The camera records at some point of the run. */
  ghost predicate Records(w: World, es: seq<Event>, c: int)
    decreases |es|
  {
    w.cams[c].recording || (es != [] && Records(Next(w, es[0]), es[1..], c))
  }

  lemma {:induction false} ShutdownKeepsTasks(w: World, n: nat)
    ensures ShutdownUpTo(w, n).tasks == w.tasks
  {
    if n > 0 {
      ShutdownKeepsTasks(w, n - 1);
    }
  }

  lemma TasksQueueUp(w: World, e: Event)
    ensures !e.RunTask? ==> w.tasks <= Next(w, e).tasks
    ensures e.RunTask? && w.tasks != [] ==> Next(w, e).tasks == w.tasks[1..]
  {
    if e.Shutdown? {
      ShutdownKeepsTasks(w, 4);
    }
  }

  lemma {:induction false} QueuedStartRuns(w: World, es: seq<Event>, c: int, k: nat)
    requires FirstAt(w.tasks, AutoStart(c), k) && Answer(es, k) == Some(true)
    ensures Records(w, es, c)
    decreases |es|
  {
    if !w.cams[c].recording {
      var e, v := es[0], Next(w, es[0]);
      TasksQueueUp(w, e);
      SessionBeginsIff(w, e, c);
      assert e == RunTask(true) && k == 0 ==> Starts(w, e, c);
      hide Next, Starts;
      if !e.RunTask? {
        QueuedStartRuns(v, es[1..], c, k);
      } else if k > 0 {
        QueuedStartRuns(v, es[1..], c, k - 1);
      } else {
        assert Records(v, es[1..], c);
      }
    }
  }

  lemma WillingStays(w: World, e: Event, c: int)
    requires !w.cams[c].recording && !w.cams[c].manualStop && !Next(w, e).cams[c].recording
    ensures !Next(w, e).cams[c].manualStop
  {
    if e.Shutdown? {
      ShutdownStartsNothing(w, 4, c);
    }
  }

  /**
   A camera that was not stopped by hand comes back: whatever happens before the next frame of the
   camera, that frame leads to a new session once the automatic start queued for it runs and finds
   ffmpeg, if nothing else starts one earlier.
   */
  lemma {:induction false} WillingCameraRestarts(w: World, c: int, before: seq<Event>, jpeg: Jpeg, env: Env, after: seq<Event>)
    requires Inv(w) && !w.cams[c].manualStop
    requires var u := Run(w, before + [FrameIn(c, jpeg, env)]);
      forall k: nat :: FirstAt(u.tasks, AutoStart(c), k) ==> Answer(after, k) == Some(true)
    ensures Records(w, before + [FrameIn(c, jpeg, env)] + after, c)
    decreases |before|
  {
    var frame := FrameIn(c, jpeg, env);
    if w.cams[c].recording {
    } else if before == [] {
      var v := Next(w, frame);
      assert before + [frame] == [frame] && [frame][1..] == [];
      assert Run(v, []) == v && ([frame] + after)[1..] == after;
      StepKeeps(w, frame);
      assert CameraOk(v, c) && v.cams[c].autoStartPending;
      assert AutoStart(c) in multiset(v.tasks);
      var k := FirstQueued(v.tasks, AutoStart(c));
      assert FirstAt(v.tasks, AutoStart(c), k);
      QueuedStartRuns(v, after, c, k);
    } else {
      var v := Next(w, before[0]);
      assert (before + [frame])[1..] == before[1..] + [frame];
      assert (before + [frame] + after)[1..] == before[1..] + [frame] + after;
      StepKeeps(w, before[0]);
      if v.cams[c].recording {
        assert Records(v, before[1..] + [frame] + after, c);
      } else {
        WillingStays(w, before[0], c);
        WillingCameraRestarts(v, c, before[1..], jpeg, env, after);
      }
    }
  }

  /** A segment roll leaves the camera off and willing, so the next frame brings the next segment. */
  lemma RolledCameraRestarts(w: World, c: int, before: seq<Event>, jpeg: Jpeg, env: Env, after: seq<Event>)
    requires Inv(w) && w.cams[c].recording
    requires var u := Run(RollStep(w, c), before + [FrameIn(c, jpeg, env)]);
      forall k: nat :: FirstAt(u.tasks, AutoStart(c), k) ==> Answer(after, k) == Some(true)
    ensures !RollStep(w, c).cams[c].recording
    ensures Records(RollStep(w, c), before + [FrameIn(c, jpeg, env)] + after, c)
  {
    assert CameraOk(w, c);
    RollKeeps(w, c);
    WillingCameraRestarts(RollStep(w, c), c, before, jpeg, env, after);
  }

  // ---- Calibration over a run ----

  /** No event of the run ends the session of camera `c`; any others may be among them. */
  ghost predicate Undisturbed(w: World, es: seq<Event>, c: int)
    decreases |es|
  {
    es == [] || (!EndsSession(w, es[0], c) && Undisturbed(Next(w, es[0]), es[1..], c))
  }

  datatype Arrival = Arrival(jpeg: Jpeg, env: Env)

  /** The frames of one camera in a run, with what the environment answered for each. */
  function FramesOf(es: seq<Event>, c: int): seq<Arrival> {
    if es == [] then []
    else if es[0].FrameIn? && es[0].camera == c then [Arrival(es[0].jpeg, es[0].env)] + FramesOf(es[1..], c)
    else FramesOf(es[1..], c)
  }

  function Jpegs(fs: seq<Arrival>): (s: seq<Jpeg>)
    ensures |s| == |fs| && forall i :: 0 <= i < |fs| ==> s[i] == fs[i].jpeg
  {
    seq(|fs|, i requires 0 <= i < |fs| => fs[i].jpeg)
  }

  predicate Launches(env: Env) {
    env.ffmpegFound && env.started
  }

  lemma {:induction false} ShutdownElsewhere(w: World, n: nat, c: int)
    requires !(1 <= c <= n)
    ensures ShutdownUpTo(w, n).cams[c] == w.cams[c]
  {
    if n > 0 {
      ShutdownElsewhere(w, n - 1, c);
    }
  }

  /**
   From `k` to `l` one session went on and took the frames `fs`; if the calibration was completed
   by one of them, a process was launched exactly if ffmpeg was there then.
   */
  predicate GoesOn(k: Cam, fs: seq<Arrival>, l: Cam)
    requires k.calibrating ==> |k.session| < CALIBRATION_TOTAL
  {
    && l.recording && l.session == k.session + Jpegs(fs)
    && (l.calibrating <==> k.calibrating && |k.session| + |fs| < CALIBRATION_TOTAL)
    && (!k.calibrating ==> l.process == k.process)
    && (k.calibrating && !l.calibrating ==> (l.process.Some? <==> Launches(fs[CALIBRATION_TOTAL - 1 - |k.session|].env)))
  }

  lemma GoesOnAndOn(k: Cam, a: seq<Arrival>, m: Cam, b: seq<Arrival>, l: Cam)
    requires k.calibrating ==> |k.session| < CALIBRATION_TOTAL
    requires GoesOn(k, a, m) && GoesOn(m, b, l)
    ensures GoesOn(k, a + b, l)
  {
    hide Launches;
    assert k.session + Jpegs(a) + Jpegs(b) == k.session + Jpegs(a + b);
  }

  lemma QuietStep(w: World, e: Event, c: int)
    requires CameraOk(w, c) && w.cams[c].recording && !EndsSession(w, e, c) && !(e.FrameIn? && e.camera == c)
    ensures w.cams[c].calibrating ==> |w.cams[c].session| < CALIBRATION_TOTAL
    ensures GoesOn(w.cams[c], [], Next(w, e).cams[c])
  {
    assert w.cams[c].session + Jpegs([]) == w.cams[c].session;
    if e.Shutdown? {
      ShutdownElsewhere(w, 4, c);
    }
  }

  lemma FrameOfSession(w: World, c: int, jpeg: Jpeg, env: Env)
    requires CameraOk(w, c) && w.cams[c].recording
    ensures w.cams[c].calibrating ==> |w.cams[c].session| < CALIBRATION_TOTAL
    ensures GoesOn(w.cams[c], [Arrival(jpeg, env)], FrameStep(w, c, jpeg, env).cams[c])
  {
    assert Jpegs([Arrival(jpeg, env)]) == [jpeg];
  }

  /** A session that is not ended collects every frame, and launches ffmpeg with frame 65. */
  lemma {:induction false} SessionGoesOn(w: World, es: seq<Event>, c: int)
    requires Inv(w) && w.cams[c].recording && Undisturbed(w, es, c)
    ensures w.cams[c].calibrating ==> |w.cams[c].session| < CALIBRATION_TOTAL
    ensures GoesOn(w.cams[c], FramesOf(es, c), Run(w, es).cams[c])
    decreases |es|
  {
    assert CameraOk(w, c);
    if es == [] {
      assert w.cams[c].session + Jpegs([]) == w.cams[c].session;
    } else {
      var v, first := Next(w, es[0]), FramesOf([es[0]], c);
      StepKeeps(w, es[0]);
      SessionStep(w, es[0], c);
      FramesOfMore(es, c);
      hide GoesOn, Inv, Next, EndsSession;
      SessionGoesOn(v, es[1..], c);
      GoesOnAndOn(w.cams[c], first, v.cams[c], FramesOf(es[1..], c), Run(w, es).cams[c]);
    }
  }

  lemma FramesOfMore(es: seq<Event>, c: int)
    requires es != []
    ensures FramesOf(es, c) == FramesOf([es[0]], c) + FramesOf(es[1..], c)
  {
    assert [es[0]][1..] == [];
    assert FramesOf([], c) == [];
  }

  lemma SessionStep(w: World, e: Event, c: int)
    requires CameraOk(w, c) && w.cams[c].recording && !EndsSession(w, e, c)
    ensures w.cams[c].calibrating ==> |w.cams[c].session| < CALIBRATION_TOTAL
    ensures GoesOn(w.cams[c], FramesOf([e], c), Next(w, e).cams[c])
  {
    assert [e][1..] == [] && FramesOf([], c) == [];
    hide CameraOk, EndsSession, GoesOn, FrameStep, TaskStep, StopStep, ShutdownUpTo;
    if e.FrameIn? && e.camera == c {
      assert FramesOf([e], c) == [Arrival(e.jpeg, e.env)];
      FrameOfSession(w, c, e.jpeg, e.env);
    } else {
      QuietStep(w, e, c);
    }
  }

  /**
   Calibration, in any run that does not end the session: the frames of the camera collect behind
   those already buffered, whatever else happens in between. With frame 65 the calibration is over;
   a process is held from then on exactly if ffmpeg was found and started at that frame, and it has
   been offered every frame of the session from the first.
   */
  lemma CalibrationCompletes(w: World, es: seq<Event>, c: int)
    requires Inv(w) && w.cams[c].recording && w.cams[c].calibrating && Undisturbed(w, es, c)
    ensures |w.cams[c].calibBuf| < CALIBRATION_TOTAL
    ensures var held, fs, v := w.cams[c].calibBuf, FramesOf(es, c), Run(w, es);
      var k, n := v.cams[c], CALIBRATION_TOTAL - |held|;
      && k.recording && (k.calibrating <==> |fs| < n)
      && (k.calibrating ==> k.calibBuf == held + Jpegs(fs) && k.process == None)
      && (!k.calibrating ==> k.calibBuf == [] && k.frameCount == |held| + |fs|)
      && (!k.calibrating ==> (k.process.Some? <==> Launches(fs[n - 1].env)))
      && (k.process.Some? ==> k.process.value < |v.procs| && v.procs[k.process.value].session == held + Jpegs(fs))
  {
    assert CameraOk(w, c);
    SessionGoesOn(w, es, c);
    RunKeeps(w, es);
    hide Run, Undisturbed, FramesOf, Launches;
    assert CameraOk(Run(w, es), c);
  }

  // ---- One roll per session ----

  /** Some frame came when the segment was overdue. */
  ghost predicate AnyOverdue(fs: seq<Arrival>) {
    exists i :: 0 <= i < |fs| && fs[i].env.overdue
  }

  /** How many rolls of the camera are queued. */
  function Rolls(tasks: seq<Task>, c: int): nat {
    multiset(tasks)[RollSegment(c)]
  }

  lemma {:induction false} ShutdownKeepsRolling(w: World, n: nat, c: int)
    ensures ShutdownUpTo(w, n).cams[c].segmentRolling == w.cams[c].segmentRolling
  {
    if n > 0 {
      ShutdownKeepsRolling(w, n - 1, c);
    }
  }

  /** A step of a calibrated session queues a roll exactly if it is the first frame that comes overdue. */
  lemma RollQueued(w: World, e: Event, c: int)
    requires w.cams[c].recording && !w.cams[c].calibrating && !EndsSession(w, e, c)
    ensures var v := Next(w, e); var late := e.FrameIn? && e.camera == c && e.env.overdue;
      && v.cams[c].segmentRolling == (w.cams[c].segmentRolling || late)
      && Rolls(v.tasks, c) == Rolls(w.tasks, c) + (if late && !w.cams[c].segmentRolling then 1 else 0)
  {
    match e
    case Start(_, _) =>
    case Stop(_) =>
    case FrameIn(d, jpeg, env) => RollQueuedByFrame(w, d, jpeg, env, c);
    case Shutdown =>
      ShutdownKeepsRolling(w, 4, c);
      ShutdownKeepsTasks(w, 4);
    case RunTask(found) => RollQueuedByTask(w, found, c);
  }

  lemma RollQueuedByFrame(w: World, d: int, jpeg: Jpeg, env: Env, c: int)
    requires w.cams[c].recording && !w.cams[c].calibrating
    ensures var v, late := FrameStep(w, d, jpeg, env), d == c && env.overdue;
      && v.cams[c].segmentRolling == (w.cams[c].segmentRolling || late)
      && Rolls(v.tasks, c) == Rolls(w.tasks, c) + (if late && !w.cams[c].segmentRolling then 1 else 0)
  {
    hide FeedHeld, Rolls;
    RollsMore(w.tasks, AutoStart(d), c);
    RollsMore(w.tasks, RollSegment(d), c);
  }

  lemma RollsMore(tasks: seq<Task>, t: Task, c: int)
    ensures Rolls(tasks + [t], c) == Rolls(tasks, c) + (if t == RollSegment(c) then 1 else 0)
  {
  }

  lemma RollQueuedByTask(w: World, found: bool, c: int)
    requires w.cams[c].recording && (w.tasks != [] ==> w.tasks[0] != RollSegment(c))
    ensures var v := TaskStep(w, found);
      v.cams[c].segmentRolling == w.cams[c].segmentRolling && Rolls(v.tasks, c) == Rolls(w.tasks, c)
  {
    hide Close;
    if w.tasks != [] { assert w.tasks == [w.tasks[0]] + w.tasks[1..]; }
  }

  /** A session that is not ended queues one roll if any frame comes overdue, however many do. */
  lemma {:induction false} OneRollPerSession(w: World, es: seq<Event>, c: int)
    requires Inv(w) && w.cams[c].recording && !w.cams[c].calibrating && Undisturbed(w, es, c)
    ensures Rolls(Run(w, es).tasks, c) ==
      Rolls(w.tasks, c) + (if !w.cams[c].segmentRolling && AnyOverdue(FramesOf(es, c)) then 1 else 0)
    decreases |es|
  {
    if es != [] {
      var e, v, later := es[0], Next(w, es[0]), FramesOf(es[1..], c);
      StepKeeps(w, e);
      assert CameraOk(w, c);
      SessionStep(w, e, c);
      RollQueued(w, e, c);
      FramesOfMore(es, c);
      var late := e.FrameIn? && e.camera == c && e.env.overdue;
      OverdueFirst(e, c, later);
      hide Inv, Next, EndsSession, AnyOverdue, FramesOf, Rolls, CameraOk;
      OneRollPerSession(v, es[1..], c);
    }
  }

  lemma OverdueFirst(e: Event, c: int, later: seq<Arrival>)
    ensures AnyOverdue(FramesOf([e], c) + later) <==> (e.FrameIn? && e.camera == c && e.env.overdue) || AnyOverdue(later)
    ensures !AnyOverdue([])
  {
    var fs := FramesOf([e], c) + later;
    if e.FrameIn? && e.camera == c {
      FramesOfOwn(e.jpeg, e.env, c);
      assert e == FrameIn(c, e.jpeg, e.env);
      assert fs[0] == Arrival(e.jpeg, e.env) && forall i :: 0 <= i < |later| ==> fs[i + 1] == later[i];
    } else {
      FramesOfOther(e, c);
      assert fs == later;
    }
  }

  // ---- What ffmpeg is given ----

  /** Whether ffmpeg was running at the first `n` writes of one call. */
  function Running(env: Env, n: nat): (flags: seq<bool>)
    ensures |flags| == n && forall i :: 0 <= i < n ==> flags[i] == (i < |env.running| && env.running[i])
  {
    seq(n, i requires 0 <= i < n => i < |env.running| && env.running[i])
  }

  /** Whether ffmpeg was running at the single write of each of these frames. */
  function RunningAtEach(fs: seq<Arrival>): (flags: seq<bool>)
    ensures |flags| == |fs| && forall i :: 0 <= i < |fs| ==> flags[i] == (fs[i].env.running != [] && fs[i].env.running[0])
  {
    seq(|fs|, i requires 0 <= i < |fs| => fs[i].env.running != [] && fs[i].env.running[0])
  }

  /** The frames of a session that are written: those at which ffmpeg is running. */
  function Given(fs: seq<Arrival>): seq<Jpeg> {
    Selected(Jpegs(fs), RunningAtEach(fs))
  }

  /** Selecting frames goes frame by frame. */
  lemma {:induction false} SelectedAppend(a: seq<Jpeg>, fa: seq<bool>, b: seq<Jpeg>, fb: seq<bool>)
    requires |a| == |fa| && |b| == |fb|
    ensures Selected(a + b, fa + fb) == Selected(a, fa) + Selected(b, fb)
    decreases |b|
  {
    if b == [] {
      assert a + b == a && fa + fb == fa && Selected(a, fa) + [] == Selected(a, fa);
    } else {
      var n := |b| - 1;
      SelectedAppend(a, fa, b[..n], fb[..n]);
      assert (a + b)[..|a| + n] == a + b[..n] && (fa + fb)[..|a| + n] == fa + fb[..n];
      assert (a + b)[|a| + n] == b[n] && (fa + fb)[|a| + n] == fb[n];
      var last := if fb[n] then [b[n]] else [];
      assert (Selected(a, fa) + Selected(b[..n], fb[..n])) + last == Selected(a, fa) + (Selected(b[..n], fb[..n]) + last);
    }
  }

  lemma SelectedOne(jpeg: Jpeg, ok: bool)
    ensures Selected([jpeg], [ok]) == if ok then [jpeg] else []
    ensures Selected([], []) == []
  {
    assert [jpeg][..0] == [] && [ok][..0] == [];
  }

  lemma {:induction false} FeedWrites(p: Proc, frames: seq<Jpeg>, env: Env)
    ensures Feed(p, frames, env, 0).written == p.written + Selected(frames, Running(env, |frames|))
    decreases |frames|
  {
    if frames == [] {
      assert p.written + [] == p.written;
    } else {
      var n := |frames| - 1;
      FeedWrites(p, frames[..n], env);
      assert Running(env, n + 1)[..n] == Running(env, n);
    }
  }

  /** A frame of a running session goes to the process held, and only there, exactly if ffmpeg is running. */
  lemma RecordedFrameWrites(w: World, c: int, jpeg: Jpeg, env: Env)
    requires Inv(w) && w.cams[c].recording && !w.cams[c].calibrating && w.cams[c].process.Some?
    ensures var v, i := Next(w, FrameIn(c, jpeg, env)), w.cams[c].process.value;
      && i < |w.procs| == |v.procs| && v.cams[c].process == Some(i)
      && v.procs[i].written == w.procs[i].written + (if env.running != [] && env.running[0] then [jpeg] else [])
      && forall j: nat :: j < |w.procs| && j != i ==> v.procs[j] == w.procs[j]
  {
    hide Inv, FeedHeld, Next;
    HeldProcess(w, c);
    RecordedFrameFeeds(w, c, jpeg, env);
    OneFrameFed(w.procs, w.cams[c].process.value, jpeg, env);
  }

  lemma RecordedFrameFeeds(w: World, c: int, jpeg: Jpeg, env: Env)
    requires w.cams[c].recording && !w.cams[c].calibrating
    ensures var v := Next(w, FrameIn(c, jpeg, env));
      v.procs == FeedHeld(w.procs, w.cams[c].process, [jpeg], env) && v.cams[c].process == w.cams[c].process
  {
    hide FeedHeld;
  }

  lemma OneFrameFed(procs: seq<Proc>, i: nat, jpeg: Jpeg, env: Env)
    requires i < |procs|
    ensures var after := FeedHeld(procs, Some(i), [jpeg], env);
      && after[i].written == procs[i].written + (if env.running != [] && env.running[0] then [jpeg] else [])
      && forall j: nat :: j < |procs| && j != i ==> after[j] == procs[j]
  {
    hide Feed, Selected;
    FeedWrites(procs[i], [jpeg], env);
    assert Running(env, 1) == [env.running != [] && env.running[0]];
    SelectedOne(jpeg, env.running != [] && env.running[0]);
  }

  /** The frame that completes the calibration writes those buffered frames at which ffmpeg is running. */
  lemma LaunchWrites(w: World, c: int, jpeg: Jpeg, env: Env)
    requires Inv(w) && w.cams[c].recording && w.cams[c].calibrating && |w.cams[c].calibBuf| + 1 == CALIBRATION_TOTAL
    requires env.ffmpegFound && env.started
    ensures var v, i := Next(w, FrameIn(c, jpeg, env)), |w.procs|;
      && |v.procs| == i + 1 && v.cams[c].process == Some(i) && v.procs[..i] == w.procs
      && v.procs[i].written == Selected(w.cams[c].calibBuf + [jpeg], Running(env, CALIBRATION_TOTAL))
  {
    var buf := w.cams[c].calibBuf + [jpeg];
    FedLaunch(w.procs, c, buf, env);
    FeedWrites(Proc(c, [], [], [], []), buf, env);
    assert [] + Selected(buf, Running(env, CALIBRATION_TOTAL)) == Selected(buf, Running(env, CALIBRATION_TOTAL));
  }

  lemma StopSpares(w: World, d: int, manual: bool, i: nat)
    requires Inv(w) && i < |w.procs| && w.procs[i].camera != d
    ensures var v := StopStep(w, d, manual); |v.procs| == |w.procs| && v.procs[i] == w.procs[i]
  {
    assert CameraOk(w, d);
  }

  lemma {:induction false} ShutdownSpares(w: World, n: nat, i: nat)
    requires Inv(w) && i < |w.procs| && !(1 <= w.procs[i].camera <= n)
    ensures var v := ShutdownUpTo(w, n); |v.procs| == |w.procs| && v.procs[i] == w.procs[i]
  {
    if n > 0 {
      ShutdownSpares(w, n - 1, i);
      ShutdownKeeps(w, n - 1);
      hide Inv, StopStep;
      StopSpares(ShutdownUpTo(w, n - 1), n, false, i);
    }
  }

  lemma FrameSpares(w: World, d: int, jpeg: Jpeg, env: Env, i: nat)
    requires Inv(w) && i < |w.procs| && w.procs[i].camera != d
    ensures var v := FrameStep(w, d, jpeg, env); |w.procs| <= |v.procs| && v.procs[i] == w.procs[i]
  {
    assert CameraOk(w, d);
  }

  /** What happens elsewhere leaves the process of a session alone. */
  lemma OthersSpare(w: World, e: Event, c: int, i: nat)
    requires Inv(w) && i < |w.procs| && w.procs[i].camera == c
    requires !EndsSession(w, e, c) && !(e.FrameIn? && e.camera == c)
    ensures i < |Next(w, e).procs| && Next(w, e).procs[i] == w.procs[i]
  {
    match e
    case Start(_, _) =>
    case Stop(d) => StopSpares(w, d, true, i);
    case FrameIn(d, jpeg, env) => FrameSpares(w, d, jpeg, env, i);
    case Shutdown => ShutdownSpares(w, 4, i);
    case RunTask(_) =>
      if w.tasks != [] && w.tasks[0].RollSegment? {
        var u := PoppedGood(w);
        RollSpares(u, w.tasks[0].camera, i);
      }
  }

  lemma RollSpares(w: World, d: int, i: nat)
    requires Inv(w) && i < |w.procs| && w.procs[i].camera != d
    ensures var v := RollStep(w, d); |v.procs| == |w.procs| && v.procs[i] == w.procs[i]
  {
    assert CameraOk(w, d);
  }

  lemma GivenAppend(a: seq<Arrival>, b: seq<Arrival>)
    ensures Given(a + b) == Given(a) + Given(b)
  {
    assert Jpegs(a + b) == Jpegs(a) + Jpegs(b) && RunningAtEach(a + b) == RunningAtEach(a) + RunningAtEach(b);
    SelectedAppend(Jpegs(a), RunningAtEach(a), Jpegs(b), RunningAtEach(b));
  }

  lemma GivenOne(jpeg: Jpeg, env: Env)
    ensures Given([Arrival(jpeg, env)]) == if env.running != [] && env.running[0] then [jpeg] else []
    ensures Given([]) == []
  {
    var fs := [Arrival(jpeg, env)];
    assert Jpegs(fs) == [jpeg] && RunningAtEach(fs) == [env.running != [] && env.running[0]];
    SelectedOne(jpeg, env.running != [] && env.running[0]);
  }

  lemma HeldProcess(w: World, c: int)
    requires Inv(w) && w.cams[c].process.Some?
    ensures var i := w.cams[c].process.value;
      i < |w.procs| && w.procs[i].camera == c && w.procs[i].session == w.cams[c].session && w.cams[c].recording && !w.cams[c].calibrating
  {
    assert CameraOk(w, c);
  }

  lemma OneEventWrites(w: World, e: Event, c: int)
    requires Inv(w) && w.cams[c].process.Some? && !EndsSession(w, e, c)
    ensures var v, i := Next(w, e), w.cams[c].process.value;
      && i < |w.procs| && i < |v.procs| && v.procs[i].written == w.procs[i].written + Given(FramesOf([e], c))
  {
    hide Inv, Next, Given, EndsSession, FramesOf, Selected;
    HeldProcess(w, c);
    var i := w.cams[c].process.value;
    if e.FrameIn? && e.camera == c {
      RecordedFrameWrites(w, c, e.jpeg, e.env);
      GivenOne(e.jpeg, e.env);
      FramesOfOwn(e.jpeg, e.env, c);
      assert e == FrameIn(c, e.jpeg, e.env);
    } else {
      OthersSpare(w, e, c, i);
      FramesOfOther(e, c);
      GivenOne([], Env(false, false, [], false));
      NothingWritten(w.procs[i].written);
    }
  }

  lemma NothingWritten(a: seq<Jpeg>)
    ensures a + [] == a
  {
  }

  lemma FramesOfOwn(jpeg: Jpeg, env: Env, c: int)
    ensures FramesOf([FrameIn(c, jpeg, env)], c) == [Arrival(jpeg, env)]
  {
    assert [FrameIn(c, jpeg, env)][1..] == [] && FramesOf([], c) == [];
  }

  /** After calibration each frame of the session is written exactly if ffmpeg is running when it comes. */
  lemma {:induction false} SessionWrites(w: World, es: seq<Event>, c: int)
    requires Inv(w) && w.cams[c].process.Some? && Undisturbed(w, es, c)
    ensures var v, i := Run(w, es), w.cams[c].process.value;
      && v.cams[c].process == Some(i) && i < |w.procs| && i < |v.procs|
      && v.procs[i].written == w.procs[i].written + Given(FramesOf(es, c))
    decreases |es|
  {
    HeldProcess(w, c);
    var i := w.cams[c].process.value;
    if es == [] {
      GivenOne([], Env(false, false, [], false));
      assert w.procs[i].written + [] == w.procs[i].written;
    } else {
      var e, v, first, later := es[0], Next(w, es[0]), FramesOf([es[0]], c), FramesOf(es[1..], c);
      StepKeeps(w, e);
      StaysHeld(w, e, c);
      FramesOfMore(es, c);
      OneEventWrites(w, e, c);
      hide Inv, Next, EndsSession, Given, FramesOf;
      SessionWrites(v, es[1..], c);
      GivenAppend(first, later);
      WrittenOn(w.procs[i].written, Given(first), Given(later));
    }
  }

  lemma WrittenOn(a: seq<Jpeg>, b: seq<Jpeg>, c: seq<Jpeg>)
    ensures (a + b) + c == a + (b + c)
  {
  }

  lemma StaysHeld(w: World, e: Event, c: int)
    requires Inv(w) && w.cams[c].process.Some? && !EndsSession(w, e, c)
    ensures Next(w, e).cams[c].process == w.cams[c].process
  {
    assert CameraOk(w, c);
    SessionStep(w, e, c);
  }

  /** With these frames behind those held, the calibration is completed and ffmpeg is launched. */
  predicate ReachesLaunch(held: seq<Jpeg>, fs: seq<Arrival>) {
    |held| < CALIBRATION_TOTAL <= |held| + |fs| && Launches(fs[CALIBRATION_TOTAL - 1 - |held|].env)
  }

  /** What is written of a session: frames flushed at its launch, and later ones. */
  function LaunchGiven(held: seq<Jpeg>, fs: seq<Arrival>): seq<Jpeg>
    requires ReachesLaunch(held, fs)
  {
    var n := CALIBRATION_TOTAL - |held|;
    Selected(held + Jpegs(fs[..n]), Running(fs[n - 1].env, CALIBRATION_TOTAL)) + Given(fs[n..])
  }

  lemma LaunchGivenLater(held: seq<Jpeg>, a: Arrival, later: seq<Arrival>)
    requires |held| + 1 < CALIBRATION_TOTAL && ReachesLaunch(held, [a] + later)
    ensures ReachesLaunch(held + [a.jpeg], later)
    ensures LaunchGiven(held, [a] + later) == LaunchGiven(held + [a.jpeg], later)
  {
    hide Selected, Given;
    FirstArrivals(held, a, later, CALIBRATION_TOTAL - |held|);
  }

  lemma LaunchGivenNow(held: seq<Jpeg>, a: Arrival, later: seq<Arrival>)
    requires |held| + 1 == CALIBRATION_TOTAL && ReachesLaunch(held, [a] + later)
    ensures Launches(a.env)
    ensures LaunchGiven(held, [a] + later) == Selected(held + [a.jpeg], Running(a.env, CALIBRATION_TOTAL)) + Given(later)
  {
    hide Selected, Given;
    FirstArrivals(held, a, later, 1);
    assert later[0..] == later && held + [a.jpeg] + Jpegs(later[..0]) == held + [a.jpeg];
  }

  /** The camera holds a process that has been given exactly these frames. */
  ghost predicate Wrote(w: World, c: int, frames: seq<Jpeg>) {
    var k := w.cams[c];
    k.process.Some? && k.process.value < |w.procs| && w.procs[k.process.value].written == frames
  }

  /**
   What a process has been given when its session goes on to its launch and beyond: of the first 65
   frames those at which ffmpeg was running when they were flushed, and of the later ones those at
   which it was running when they came.
   */
  lemma {:induction false} LaunchedSessionWrites(w: World, es: seq<Event>, c: int)
    requires Inv(w) && w.cams[c].recording && w.cams[c].calibrating && Undisturbed(w, es, c)
    requires ReachesLaunch(w.cams[c].calibBuf, FramesOf(es, c))
    ensures Wrote(Run(w, es), c, LaunchGiven(w.cams[c].calibBuf, FramesOf(es, c)))
    decreases |es|
  {
    assert es != [];
    hide Inv, Next, EndsSession, LaunchGiven, ReachesLaunch, Wrote, Given, FramesOf;
    var e, v, later, held := es[0], Next(w, es[0]), FramesOf(es[1..], c), w.cams[c].calibBuf;
    StepKeeps(w, e);
    FramesOfMore(es, c);
    if e.FrameIn? && e.camera == c {
      var a := Arrival(e.jpeg, e.env);
      CalibrationGrows(w, c, e.jpeg, e.env);
      FramesOfOwn(e.jpeg, e.env, c);
      assert e == FrameIn(c, e.jpeg, e.env);
      if |held| + 1 < CALIBRATION_TOTAL {
        LaunchGivenLater(held, a, later);
        LaunchedSessionWrites(v, es[1..], c);
      } else {
        LaunchGivenNow(held, a, later);
        LaunchedNow(w, c, e.jpeg, e.env, es[1..]);
      }
    } else {
      CalibrationWaits(w, e, c);
      FramesOfOther(e, c);
      assert [] + later == later;
      LaunchedSessionWrites(v, es[1..], c);
    }
  }

  /** The frame that launches ffmpeg, and the session from there. */
  lemma LaunchedNow(w: World, c: int, jpeg: Jpeg, env: Env, es: seq<Event>)
    requires Inv(w) && w.cams[c].recording && w.cams[c].calibrating && |w.cams[c].calibBuf| + 1 == CALIBRATION_TOTAL
    requires Launches(env) && Undisturbed(Next(w, FrameIn(c, jpeg, env)), es, c)
    ensures Wrote(Run(Next(w, FrameIn(c, jpeg, env)), es), c,
      Selected(w.cams[c].calibBuf + [jpeg], Running(env, CALIBRATION_TOTAL)) + Given(FramesOf(es, c)))
  {
    hide Inv, Next, Selected, Given, FramesOf, Undisturbed, Run;
    StepKeeps(w, FrameIn(c, jpeg, env));
    LaunchWrites(w, c, jpeg, env);
    SessionWrites(Next(w, FrameIn(c, jpeg, env)), es, c);
  }

  lemma FramesOfOther(e: Event, c: int)
    requires !(e.FrameIn? && e.camera == c)
    ensures FramesOf([e], c) == []
  {
    assert [e][1..] == [];
  }

  lemma FirstArrivals(held: seq<Jpeg>, a: Arrival, later: seq<Arrival>, n: nat)
    requires 0 < n <= 1 + |later|
    ensures ([a] + later)[n..] == later[n - 1..] && ([a] + later)[n - 1] == if n == 1 then a else later[n - 2]
    ensures held + Jpegs(([a] + later)[..n]) == (held + [a.jpeg]) + Jpegs(later[..n - 1])
  {
    assert ([a] + later)[..n] == [a] + later[..n - 1];
    assert Jpegs([a] + later[..n - 1]) == [a.jpeg] + Jpegs(later[..n - 1]);
    WrittenOn(held, [a.jpeg], Jpegs(later[..n - 1]));
  }

  lemma CalibrationGrows(w: World, c: int, jpeg: Jpeg, env: Env)
    requires Inv(w) && w.cams[c].recording && w.cams[c].calibrating
    ensures |w.cams[c].calibBuf| < CALIBRATION_TOTAL
    ensures var k := Next(w, FrameIn(c, jpeg, env)).cams[c];
      |w.cams[c].calibBuf| + 1 < CALIBRATION_TOTAL ==> k.recording && k.calibrating && k.calibBuf == w.cams[c].calibBuf + [jpeg]
  {
    assert CameraOk(w, c);
  }

  lemma CalibrationWaits(w: World, e: Event, c: int)
    requires Inv(w) && w.cams[c].recording && w.cams[c].calibrating
    requires !EndsSession(w, e, c) && !(e.FrameIn? && e.camera == c)
    ensures var k := Next(w, e).cams[c]; k.recording && k.calibrating && k.calibBuf == w.cams[c].calibBuf
  {
    assert CameraOk(w, c);
    if e.Shutdown? {
      ShutdownElsewhere(w, 4, c);
    }
  }

  /** If ffmpeg is running at every write from its launch on, it is given every frame of the session. */
  lemma RunningProcessGetsAll(w: World, es: seq<Event>, c: int)
    requires Inv(w) && w.cams[c].recording && w.cams[c].calibrating && Undisturbed(w, es, c)
    requires ReachesLaunch(w.cams[c].calibBuf, FramesOf(es, c))
    requires var n := CALIBRATION_TOTAL - |w.cams[c].calibBuf|;
      && AllTrue(Running(FramesOf(es, c)[n - 1].env, CALIBRATION_TOTAL))
      && AllTrue(RunningAtEach(FramesOf(es, c)[n..]))
    ensures var v := Run(w, es); Wrote(v, c, v.cams[c].session)
    ensures Run(w, es).cams[c].session == w.cams[c].calibBuf + Jpegs(FramesOf(es, c))
  {
    LaunchedSessionWrites(w, es, c);
    SessionAfter(w, es, c);
    hide Inv, Run, Undisturbed, FramesOf, Running, RunningAtEach, Selected, Given, AllTrue, Wrote;
    var held, fs := w.cams[c].calibBuf, FramesOf(es, c);
    AllAreGiven(held, fs, CALIBRATION_TOTAL - |held|, Running(fs[CALIBRATION_TOTAL - 1 - |held|].env, CALIBRATION_TOTAL));
  }

  lemma SessionAfter(w: World, es: seq<Event>, c: int)
    requires Inv(w) && w.cams[c].recording && w.cams[c].calibrating && Undisturbed(w, es, c)
    ensures Run(w, es).cams[c].session == w.cams[c].calibBuf + Jpegs(FramesOf(es, c))
  {
    SessionGoesOn(w, es, c);
    assert CameraOk(w, c);
  }

  lemma AllAreGiven(held: seq<Jpeg>, fs: seq<Arrival>, n: nat, flags: seq<bool>)
    requires n <= |fs| && |held| + n == |flags| && AllTrue(flags) && AllTrue(RunningAtEach(fs[n..]))
    ensures Selected(held + Jpegs(fs[..n]), flags) + Given(fs[n..]) == held + Jpegs(fs)
  {
    hide Selected, AllTrue;
    AllSelected(held + Jpegs(fs[..n]), flags);
    AllSelected(Jpegs(fs[n..]), RunningAtEach(fs[n..]));
    JpegParts(fs, n);
    WrittenOn(held, Jpegs(fs[..n]), Jpegs(fs[n..]));
  }

  lemma AllSelected(frames: seq<Jpeg>, flags: seq<bool>)
    requires |frames| == |flags| && AllTrue(flags)
    ensures Selected(frames, flags) == frames
  {
    SelectedAll(frames, flags);
  }

  lemma JpegParts(fs: seq<Arrival>, n: nat)
    requires n <= |fs|
    ensures Jpegs(fs) == Jpegs(fs[..n]) + Jpegs(fs[n..])
  {
  }

  predicate AllTrue(flags: seq<bool>) {
    forall i :: 0 <= i < |flags| ==> flags[i]
  }

  // ---- Calibrating without recording ----

  predicate Stuck(k: Cam) {
    k.calibrating && !k.recording
  }

  /** A queued roll runs while the camera calibrates, so it was queued by an earlier session. */
  ghost predicate StaleRoll(w: World, e: Event, c: int) {
    e.RunTask? && w.tasks != [] && w.tasks[0] == RollSegment(c) && w.cams[c].recording && w.cams[c].calibrating
  }

  lemma {:induction false} ShutdownNeverSticks(w: World, n: nat, c: int)
    ensures Stuck(ShutdownUpTo(w, n).cams[c]) <==> Stuck(w.cams[c])
  {
    if n > 0 {
      ShutdownNeverSticks(w, n - 1, c);
    }
  }

  /** A camera gets stuck exactly by a stale roll, and unstuck exactly by a start that finds ffmpeg. */
  lemma StuckStepIff(w: World, e: Event, c: int)
    ensures Stuck(Next(w, e).cams[c]) <==> if Stuck(w.cams[c]) then !Starts(w, e, c) else StaleRoll(w, e, c)
  {
    if e.Shutdown? {
      ShutdownNeverSticks(w, 4, c);
    }
  }

  /** Event `i` of the run is a stale roll, and nothing after it starts the camera. */
  ghost predicate StuckSince(w: World, es: seq<Event>, c: int, i: nat) {
    && i < |es| && StaleRoll(Run(w, es[..i]), es[i], c)
    && forall j :: i < j < |es| ==> !Starts(Run(w, es[..j]), es[j], c)
  }

  /**
   After any run from a state in which the camera is not stuck, it is calibrating without recording
   exactly if a stale roll was run and nothing has started it since.
   */
  lemma {:induction false} CalibratingNotRecordingIff(w: World, es: seq<Event>, c: int)
    requires !Stuck(w.cams[c])
    ensures Stuck(Run(w, es).cams[c]) <==> exists i: nat :: StuckSince(w, es, c, i)
    decreases |es|
  {
    if es != [] {
      var n := |es| - 1;
      var before, last := es[..n], es[n];
      CalibratingNotRecordingIff(w, before, c);
      RunSnoc(w, es);
      StuckStepIff(Run(w, before), last, c);
      hide Run, Next, StaleRoll, Starts;
      forall i: nat | i < n
        ensures StuckSince(w, es, c, i) <==> StuckSince(w, before, c, i) && !Starts(Run(w, before), last, c)
      {
        StuckSinceMore(w, es, c, i);
      }
      StaleRollNeedsRecording(Run(w, before), last, c);
      if Stuck(Run(w, es).cams[c]) && !Stuck(Run(w, before).cams[c]) {
        assert StuckSince(w, es, c, n);
      }
    }
  }

  lemma StaleRollNeedsRecording(w: World, e: Event, c: int)
    ensures Stuck(w.cams[c]) ==> !StaleRoll(w, e, c)
  {
  }

  lemma RunSnoc(w: World, es: seq<Event>)
    requires es != []
    ensures Run(w, es) == Next(Run(w, es[..|es| - 1]), es[|es| - 1])
  {
    var n := |es| - 1;
    hide Next;
    assert es[..n] + [es[n]] == es && [es[n]][1..] == [];
    RunAppend(w, es[..n], [es[n]]);
    assert Run(Run(w, es[..n]), [es[n]]) == Run(Next(Run(w, es[..n]), es[n]), []);
  }

  lemma StuckSinceMore(w: World, es: seq<Event>, c: int, i: nat)
    requires i < |es| - 1
    ensures var n := |es| - 1;
      StuckSince(w, es, c, i) <==> StuckSince(w, es[..n], c, i) && !Starts(Run(w, es[..n]), es[n], c)
  {
    hide Run, Starts, StaleRoll;
    var n := |es| - 1;
    assert forall j :: 0 <= j < n ==> es[..n][..j] == es[..j];
  }

  /** The same frame over and over. */
  function Frames(c: int, jpeg: Jpeg, env: Env, n: nat): seq<Event> {
    seq(n, _ => FrameIn(c, jpeg, env))
  }

  lemma {:induction false} CalibratedByFrames(w: World, c: int, jpeg: Jpeg, env: Env, n: nat)
    requires Inv(w) && w.cams[c].recording && w.cams[c].calibrating && !w.cams[c].segmentRolling
    requires |w.cams[c].calibBuf| + n == CALIBRATION_TOTAL && n > 0
    ensures var v := Run(w, Frames(c, jpeg, env, n)); var k := v.cams[c];
      k.recording && !k.calibrating && !k.segmentRolling && v.tasks == w.tasks
    decreases n
  {
    var es := Frames(c, jpeg, env, n);
    var v := Next(w, es[0]);
    assert es[1..] == Frames(c, jpeg, env, n - 1);
    StepKeeps(w, es[0]);
    hide Inv;
    if n > 1 {
      CalibratedByFrames(v, c, jpeg, env, n - 1);
    } else {
      assert Run(v, es[1..]) == v;
    }
  }

  /** Such a run: a segment becomes overdue, and its roll runs only after a stop and a restart. */
  lemma StaleRollHappens(c: int, jpeg: Jpeg)
    ensures var env := Env(true, true, [], true);
      Stuck(Run(INITIAL, [Start(c, true)] + Frames(c, jpeg, env, 65)
        + [FrameIn(c, jpeg, env), Stop(c), Start(c, true), RunTask(true)]).cams[c])
  {
    var env := Env(true, true, [], true);
    var start, calibration := [Start(c, true)], Frames(c, jpeg, env, 65);
    var rest := [FrameIn(c, jpeg, env), Stop(c), Start(c, true), RunTask(true)];
    InitiallyGood();
    StepKeeps(INITIAL, Start(c, true));
    var w1 := Next(INITIAL, Start(c, true));
    assert start[1..] == [] && Run(INITIAL, start) == Run(w1, []);
    CalibratedByFrames(w1, c, jpeg, env, 65);
    var w := Run(w1, calibration);
    StaleRollAfterRestart(w, c, jpeg, env);
    hide Next, Frames;
    RunAppend(INITIAL, start, calibration);
    RunAppend(INITIAL, start + calibration, rest);
    assert [rest[0], rest[1]] + [rest[2], rest[3]] == rest;
    RunAppend(w, [rest[0], rest[1]], [rest[2], rest[3]]);
    TwoSteps(w, rest[0], rest[1]);
    TwoSteps(Next(Next(w, rest[0]), rest[1]), rest[2], rest[3]);
  }

  lemma StaleRollAfterRestart(w: World, c: int, jpeg: Jpeg, env: Env)
    requires w.cams[c].recording && !w.cams[c].calibrating && !w.cams[c].segmentRolling && w.tasks == [] && env.overdue
    ensures Stuck(Next(Next(Next(Next(w, FrameIn(c, jpeg, env)), Stop(c)), Start(c, true)), RunTask(true)).cams[c])
  {
    var w1 := Next(w, FrameIn(c, jpeg, env));
    assert w1.tasks == [RollSegment(c)];
    var w3 := Next(Next(w1, Stop(c)), Start(c, true));
    assert StaleRoll(w3, RunTask(true), c);
  }

  /**
   After shutdown cameras 1 to 4 neither record nor calibrate nor hold a process, but count as not
   stopped by hand if they did so before; other cameras are as before.
   */
  lemma {:induction false} ShutdownStops(w: World, n: nat, c: int)
    requires Inv(w)
    ensures var k := ShutdownUpTo(w, n).cams[c];
      if 1 <= c <= n
      then !k.recording && k.process == None && k.manualStop == w.cams[c].manualStop && (w.cams[c].recording ==> !k.calibrating)
      else k == w.cams[c]
  {
    if n > 0 {
      ShutdownStops(w, n - 1, c);
      ShutdownKeeps(w, n - 1);
      assert CameraOk(ShutdownUpTo(w, n - 1), n);
    }
  }
}

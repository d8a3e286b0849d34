/**
 The recording manager of the client. The source keeps one QMap per attribute, all keyed by the
 camera id; here they are one map from camera id to the record of its attributes.
 */
module RecordingManagers {
  import opened Wrappers
  import opened Recording

  /** `QMap::value` with the defaults the source passes. */
  function Attributes(cameras: map<int, Cam>, c: int): Cam {
    if c in cameras then cameras[c] else FRESH
  }

  ghost function AllCams(cameras: map<int, Cam>): Cams {
    imap c: int :: Attributes(cameras, c)
  }

  lemma AllCamsPut(cameras: map<int, Cam>, c: int, k: Cam)
    ensures AllCams(cameras[c := k]) == AllCams(cameras)[c := k]
  {
  }

  lemma AllCamsSame(cameras: map<int, Cam>, c: int)
    ensures AllCams(cameras)[c := Attributes(cameras, c)] == AllCams(cameras)
  {
  }

  lemma PutTwice(cams: Cams, c: int, a: Cam, b: Cam)
    ensures cams[c := a][c := b] == cams[c := b]
  {
  }

  class RecordingManager {
    var cameras: map<int, Cam>
    var tasks: seq<Task>  // invocations queued in the event loop
    var procs: seq<Proc>  // all processes launched so far

    /** The state as the value the theorems speak about. */
    ghost function State(): World
      reads this
    {
      World(AllCams(cameras), tasks, procs)
    }

    ghost predicate Valid()
      reads this
    {
      Inv(State())
    }

    constructor ()
      ensures Valid() && State() == INITIAL
    {
      cameras := map[1 := FRESH, 2 := FRESH, 3 := FRESH, 4 := FRESH];
      tasks, procs := [], [];
      new;
      InitiallyGood();
      assert AllCams(cameras) == INITIAL.cams;
    }

    /** `found` is what findFfmpeg answers. */
    method StartRecording(c: int, found: bool)
      requires Valid()
      modifies this
      ensures Valid() && State() == Next(old(State()), Start(c, found))
    {
      StepKeeps(State(), Start(c, found));
      hide Inv, AllCams;
      StartCamera(c, found);
    }

    method StartCamera(c: int, found: bool)
      modifies this
      ensures State() == Put(old(State()), c, StartCam(old(State()).cams[c], found))
    {
      var k := Attributes(cameras, c);
      AllCamsSame(cameras, c);
      if k.recording { return; }
      k := k.(manualStop := false);
      AllCamsPut(cameras, c, k);
      if !found {
        cameras := cameras[c := k];
        return;
      }
      k := k.(session := [], frameCount := 0);
      k := k.(process := None);
      k := k.(calibrating := true, calibBuf := []);
      k := k.(segmentRolling := false);
      k := k.(recording := true);
      AllCamsPut(cameras, c, k);
      cameras := cameras[c := k];
    }

    method StopRecording(c: int)
      requires Valid()
      modifies this
      ensures Valid() && State() == Next(old(State()), Stop(c))
    {
      StepKeeps(State(), Stop(c));
      hide Inv, AllCams;
      EndSession(c, true);
    }

    /** What stopRecording and shutdownAll do to one camera; only the former sets `manualStop`. */
    method EndSession(c: int, manual: bool)
      modifies this
      ensures State() == StopStep(old(State()), c, manual)
    {
      var k := Attributes(cameras, c);
      if !k.recording { return; }
      if manual {
        k := k.(manualStop := true);
      }
      if k.calibrating {
        k := k.(calibrating := false, calibBuf := []);
        k := k.(recording := false);
        AllCamsPut(cameras, c, k);
        cameras := cameras[c := k];
        return;
      }
      var proc, frameCount := k.process, k.frameCount;
      k := k.(recording := false, process := None);
      AllCamsPut(cameras, c, k);
      cameras := cameras[c := k];
      procs := Close(procs, proc, frameCount);
    }

    method RollCamera(c: int)
      modifies this
      ensures State() == RollStep(old(State()), c)
    {
      var k := Attributes(cameras, c);
      if !k.recording { return; }
      var proc, frameCount := k.process, k.frameCount;
      k := k.(recording := false, process := None);
      AllCamsPut(cameras, c, k);
      cameras := cameras[c := k];
      procs := Close(procs, proc, frameCount);
    }

    method OnFrameReceived(c: int, jpeg: Jpeg, env: Env)
      requires Valid()
      modifies this
      ensures Valid() && State() == Next(old(State()), FrameIn(c, jpeg, env))
      ensures var k := Attributes(old(cameras), c); k.recording && !k.calibrating && k.process.Some? ==>
        && k.process.value < |old(procs)| == |procs|
        && procs[k.process.value].written ==
          old(procs)[k.process.value].written + (if env.running != [] && env.running[0] then [jpeg] else [])
      ensures var k := Attributes(old(cameras), c);
        k.recording && k.calibrating && |k.calibBuf| == 64 && env.ffmpegFound && env.started ==>
        && |procs| == |old(procs)| + 1
        && procs[|old(procs)|].written == Selected(k.calibBuf + [jpeg], Running(env, 65))
    {
      if Attributes(cameras, c).recording && Attributes(cameras, c).process.Some? && !Attributes(cameras, c).calibrating {
        RecordedFrameWrites(State(), c, jpeg, env);
      } else if Attributes(cameras, c).recording && Attributes(cameras, c).calibrating && |Attributes(cameras, c).calibBuf| == 64
        && env.ffmpegFound && env.started {
        LaunchWrites(State(), c, jpeg, env);
      }
      assert CamOk(Attributes(cameras, c)) by { assert CameraOk(State(), c); }
      StepKeeps(State(), FrameIn(c, jpeg, env));
      hide Inv;
      var k := Attributes(cameras, c);
      if !k.recording {
        if !k.manualStop && !k.autoStartPending {
          k := k.(autoStartPending := true);
          AllCamsPut(cameras, c, k);
          cameras := cameras[c := k];
          tasks := tasks + [AutoStart(c)];
        }
        return;
      }
      if k.calibrating {
        CalibrationFrame(c, jpeg, env);
      } else {
        SessionFrame(c, jpeg, env);
      }
    }

    /** A frame during calibration: buffered, or the one that launches ffmpeg and flushes the buffer. */
    method CalibrationFrame(c: int, jpeg: Jpeg, env: Env)
      requires Attributes(cameras, c).recording && Attributes(cameras, c).calibrating
      modifies this
      ensures State() == FrameStep(old(State()), c, jpeg, env)
    {
      var k := Attributes(cameras, c);
      k := k.(calibBuf := k.calibBuf + [jpeg], session := k.session + [jpeg]);
      var bufSize := |k.calibBuf|;
      if bufSize < CALIBRATION_SKIP + CALIBRATION_FRAMES {
        AllCamsPut(cameras, c, k);
        cameras := cameras[c := k];
        return;
      }
      var flushFrames := k.calibBuf;
      k := k.(calibBuf := [], calibrating := false);
      if env.ffmpegFound && env.started {
        procs := procs + [Proc(c, [], [], [], [])];
        k := k.(process := Some(|procs| - 1));
      }
      WriteFrames(k.process, flushFrames, env);
      k := k.(frameCount := k.frameCount + |flushFrames|);
      AllCamsPut(cameras, c, k);
      cameras := cameras[c := k];
    }

    /** A frame after calibration; the first-frame thumbnail branch is dead. */
    method SessionFrame(c: int, jpeg: Jpeg, env: Env)
      requires Attributes(cameras, c).recording && !Attributes(cameras, c).calibrating && CamOk(Attributes(cameras, c))
      modifies this
      ensures State() == FrameStep(old(State()), c, jpeg, env)
    {
      var k := Attributes(cameras, c);
      var proc := k.process;
      var frameNum := k.frameCount + 1;
      k := k.(frameCount := frameNum, session := k.session + [jpeg]);
      if frameNum == 1 {
        assert false;
      }
      if !k.segmentRolling && env.overdue {
        k := k.(segmentRolling := true);
        tasks := tasks + [RollSegment(c)];
      }
      AllCamsPut(cameras, c, k);
      cameras := cameras[c := k];
      WriteFrames(proc, [jpeg], env);
    }

    /** Offers frames to the process, which gets those at which it is running. */
    method WriteFrames(proc: Option<nat>, frames: seq<Jpeg>, env: Env)
      modifies `procs
      ensures procs == FeedHeld(old(procs), proc, frames, env)
    {
      ghost var start := procs;
      for i := 0 to |frames|
        invariant procs == FeedHeld(start, proc, frames[..i], env)
      {
        assert frames[..i + 1][..i] == frames[..i];
        if proc.Some? && proc.value < |procs| {
          var p := procs[proc.value];
          var running := i < |env.running| && env.running[i];
          p := p.(session := p.session + [frames[i]], delivered := p.delivered + [running]);
          if running {
            p := p.(written := p.written + [frames[i]]);
          }
          assert start[proc.value].written + [] == start[proc.value].written && p.written + [] == p.written;
          procs := procs[proc.value := p];
        }
      }
      assert frames[..|frames|] == frames;
    }

    /** The event loop runs the oldest queued invocation. */
    method RunQueuedTask(found: bool)
      requires Valid()
      modifies this
      ensures Valid() && State() == Next(old(State()), RunTask(found))
    {
      StepKeeps(State(), RunTask(found));
      hide Inv;
      if tasks == [] { return; }
      var task := tasks[0];
      tasks := tasks[1..];
      match task {
        case AutoStart(c) =>
          StartCamera(c, found);
          var k := Attributes(cameras, c).(autoStartPending := false);
          AllCamsPut(cameras, c, k);
          PutTwice(AllCams(old(cameras)), c, Attributes(cameras, c), k);
          cameras := cameras[c := k];
        case RollSegment(c) =>
          RollCamera(c);
      }
    }

    method ShutdownAll()
      requires Valid()
      modifies this
      ensures Valid() && State() == Next(old(State()), Shutdown)
    {
      StepKeeps(State(), Shutdown);
      hide Inv, AllCams;
      for i := 1 to 5
        invariant State() == ShutdownUpTo(old(State()), i - 1)
      {
        EndSession(i, false);
      }
    }
  }
}

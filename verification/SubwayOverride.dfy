/** The display override on a train's arrival: polls, an event screen, and the way back. */
module SubwayOverride {
  import opened Wrappers

  const TARGET_SUBWAY_ID := 1003
  const INT32_MAX := 2147483647

  /** One row of the arrival list, its numbers already read (-1 where unreadable or missing). */
  datatype Row = Row(up: bool, subwayId: int, seconds: int, line: string, message: string)

  datatype Train = Train(seconds: int, line: string, message: string)

  predicate Eligible(r: Row) {
    r.up && r.subwayId == TARGET_SUBWAY_ID && 0 <= r.seconds < INT32_MAX
  }

  /** The best row comes first among the eligible rows with the least time. */
  ghost predicate IsBest(rows: seq<Row>, t: Train) {
    exists i :: 0 <= i < |rows| && Eligible(rows[i]) && t == Train(rows[i].seconds, rows[i].line, rows[i].message)
      && (forall j :: 0 <= j < |rows| && Eligible(rows[j]) ==> rows[i].seconds <= rows[j].seconds)
      && (forall j :: 0 <= j < i && Eligible(rows[j]) ==> rows[i].seconds < rows[j].seconds)
  }

  method ParseBestUpTrain(rows: seq<Row>) returns (best: Option<Train>)
    requires forall r :: r in rows ==> r.seconds <= INT32_MAX
    ensures best.None? <==> forall i :: 0 <= i < |rows| ==> !Eligible(rows[i])
    ensures best.Some? ==> IsBest(rows, best.value)
    ensures forall r :: r in rows && r.up && r.subwayId == 1003 && 0 <= r.seconds < 2147483647 ==>
      best.Some? && best.value.seconds <= r.seconds
    ensures best.Some? ==> exists r :: (r in rows && r.up && r.subwayId == 1003 && 0 <= r.seconds
      && best.value == Train(r.seconds, r.line, r.message))
  {
    var bestSeconds, line, message := INT32_MAX, "", "";
    ghost var at := -1;
    for i := 0 to |rows|
      invariant bestSeconds <= INT32_MAX && (bestSeconds == INT32_MAX <==> at == -1)
      invariant forall j :: 0 <= j < i && Eligible(rows[j]) ==> bestSeconds <= rows[j].seconds
      invariant at == -1 ==> forall j :: 0 <= j < i ==> !Eligible(rows[j])
      invariant at != -1 ==> 0 <= at < i && Eligible(rows[at]) && bestSeconds == rows[at].seconds
      invariant at != -1 ==> line == rows[at].line && message == rows[at].message
      invariant at != -1 ==> forall j :: 0 <= j < at && Eligible(rows[j]) ==> bestSeconds < rows[j].seconds
    {
      var row := rows[i];
      assert row in rows;
      if !row.up || row.subwayId != TARGET_SUBWAY_ID { continue; }
      if row.seconds < 0 { continue; }
      if row.seconds < bestSeconds {
        bestSeconds, line, message, at := row.seconds, row.line, row.message, i;
      }
    }
    if bestSeconds == INT32_MAX { return None; }
    assert rows[at] in rows;
    best := Some(Train(bestSeconds, line, message));
  }

  // ---- The loop ----

  datatype Output = Destination(code: nat) | EventScreen | BaseScreen

  /**
   One poll: the time at its start, what the API gave (None for a failed fetch or no train), the
   time after the commands were sent, and the destination code of the train's line.
   */
  datatype Poll = Poll(now: int, seconds: Option<int>, later: int, code: nat)

  datatype State = State(active: bool, armed: bool, until: int)

  function Restored(s: State, p: Poll): bool {
    s.active && p.now >= s.until
  }

  /** The override loop, one turn. */
  method Turn(s: State, p: Poll, hold: int) returns (t: State, out: seq<Output>)
    ensures t == NextState(s, p, hold) && out == Outputs(s, p)
  {
    t, out := s, [];
    if t.active && p.now >= t.until {
      out := out + [BaseScreen];
      t := t.(active := false);
    }
    match p.seconds {
      case None =>
      case Some(seconds) =>
        if !t.active && t.armed && seconds <= 0 {
          out := out + [Destination(p.code)];
          out := out + [EventScreen];
          t := State(true, false, p.later + hold);
        } else if !t.active {
          if seconds > 0 {
            t := t.(armed := true);
          }
        }
    }
  }

  /** The train is here, the loop is armed, and no event is showing. */
  predicate Triggers(s: State, p: Poll) {
    (!s.active || Restored(s, p)) && s.armed && p.seconds.Some? && p.seconds.value <= 0
  }

  /** A successful poll with a positive arrival time while no event is showing. */
  predicate Rearms(s: State, p: Poll) {
    (!s.active || Restored(s, p)) && p.seconds.Some? && p.seconds.value > 0
  }

  function NextState(s: State, p: Poll, hold: int): State {
    if Triggers(s, p) then State(true, false, p.later + hold)
    else State(s.active && !Restored(s, p), s.armed || Rearms(s, p), s.until)
  }

  function Outputs(s: State, p: Poll): seq<Output> {
    (if Restored(s, p) then [BaseScreen] else []) +
    (if Triggers(s, p) then [Destination(p.code), EventScreen] else [])
  }

  const INITIAL := State(false, true, 0)

  function StateAfter(polls: seq<Poll>, hold: int): State {
    if polls == [] then INITIAL
    else NextState(StateAfter(polls[..|polls| - 1], hold), polls[|polls| - 1], hold)
  }

  function Trace(polls: seq<Poll>, hold: int): seq<Output> {
    if polls == [] then []
    else
      var n := |polls| - 1;
      Trace(polls[..n], hold) + Outputs(StateAfter(polls[..n], hold), polls[n])
  }

  /** The loop on any series of polls. */
  method RunOverrideLoop(polls: seq<Poll>, hold: int) returns (out: seq<Output>)
    ensures out == Trace(polls, hold) && Alternates(out)
  {
    out := [];
    var s := State(false, true, 0);
    for i := 0 to |polls|
      invariant s == StateAfter(polls[..i], hold) && out == Trace(polls[..i], hold)
    {
      var more;
      s, more := Turn(s, polls[i], hold);
      out := out + more;
      assert polls[..i + 1][..i] == polls[..i];
    }
    assert polls[..|polls|] == polls;
    CommandsAlternate(polls, hold);
  }

  /** Destination, event screen, base screen, and again; possibly stopping at the event screen. */
  ghost predicate Alternates(out: seq<Output>) {
    (forall i :: 0 <= i < |out| ==>
      match i % 3
      case 0 => out[i].Destination?
      case 1 => out[i].EventScreen?
      case _ => out[i].BaseScreen?)
    && |out| % 3 != 1
  }

  /**
   In every run of polls the commands to the display are destination, event screen, base screen,
   over and over, starting with a destination; the last event is still showing exactly if the loop
   is active, and an active loop is not armed.
   */
  lemma {:induction false} CommandsAlternate(polls: seq<Poll>, hold: int)
    ensures Alternates(Trace(polls, hold))
    ensures var s := StateAfter(polls, hold); (s.active <==> |Trace(polls, hold)| % 3 == 2) && (s.active ==> !s.armed)
    decreases |polls|
  {
    if polls != [] {
      var n := |polls| - 1;
      CommandsAlternate(polls[..n], hold);
    }
  }

  // ---- When the screens come, in terms of the polls alone ----

  predicate Arrived(p: Poll) {
    p.seconds.Some? && p.seconds.value <= 0
  }

  predicate Approaching(p: Poll) {
    p.seconds.Some? && p.seconds.value > 0
  }

  /** The event screen is sent at poll `i`. */
  ghost predicate EventAt(polls: seq<Poll>, hold: int, i: nat) {
    i < |polls| && EventScreen in Outputs(StateAfter(polls[..i], hold), polls[i])
  }

  /** The base screen is sent at poll `i`. */
  ghost predicate BaseAt(polls: seq<Poll>, hold: int, i: nat) {
    i < |polls| && BaseScreen in Outputs(StateAfter(polls[..i], hold), polls[i])
  }

  /** All that one poll sends: the base screen, then the destination of its train and the event screen. */
  lemma PollSends(polls: seq<Poll>, hold: int, i: nat)
    requires i < |polls|
    ensures Trace(polls[..i + 1], hold) == Trace(polls[..i], hold) + (if BaseAt(polls, hold, i) then [BaseScreen] else [])
      + (if EventAt(polls, hold, i) then [Destination(polls[i].code), EventScreen] else [])
  {
    assert polls[..i + 1][..i] == polls[..i];
    var out := Outputs(StateAfter(polls[..i], hold), polls[i]);
    var base := if BaseAt(polls, hold, i) then [BaseScreen] else [];
    var event := if EventAt(polls, hold, i) then [Destination(polls[i].code), EventScreen] else [];
    assert out == base + event;
    assert Trace(polls[..i], hold) + (base + event) == Trace(polls[..i], hold) + base + event;
  }

  /** The hold time of the event at poll `i` is over at some poll behind it and not behind `m`. */
  ghost predicate HeldLongEnough(polls: seq<Poll>, hold: int, i: nat, m: nat) {
    i < m < |polls| && exists r :: i < r <= m && polls[r].now >= polls[i].later + hold
  }

  ghost predicate LastEvent(polls: seq<Poll>, hold: int, i: nat, k: nat) {
    i < k <= |polls| && EventAt(polls, hold, i) && forall j: nat :: i < j < k ==> !EventAt(polls, hold, j)
  }

  /** The state some polls after an event and before the next. */
  lemma {:induction false} AfterEvent(polls: seq<Poll>, hold: int, i: nat, k: nat)
    requires LastEvent(polls, hold, i, k)
    ensures var s := StateAfter(polls[..k], hold);
      && s.until == polls[i].later + hold
      && (s.active <==> !HeldLongEnough(polls, hold, i, k - 1))
      && (s.armed <==> exists m: nat :: i < m < k && Approaching(polls[m]) && HeldLongEnough(polls, hold, i, m))
    decreases k
  {
    var n := k - 1;
    assert polls[..k][..n] == polls[..n];
    if n > i {
      AfterEvent(polls, hold, i, n);
      assert !EventAt(polls, hold, n);
      HeldFurther(polls, hold, i, n);
    }
  }

  lemma HeldFurther(polls: seq<Poll>, hold: int, i: nat, n: nat)
    requires i < n < |polls|
    ensures HeldLongEnough(polls, hold, i, n) <==> HeldLongEnough(polls, hold, i, n - 1) || polls[n].now >= polls[i].later + hold
  {
  }

  /** The base screen comes at the first poll that starts when the hold time is over, and at no other. */
  lemma BaseScreenComesOnTime(polls: seq<Poll>, hold: int, i: nat, k: nat)
    requires LastEvent(polls, hold, i, k) && k < |polls|
    ensures BaseAt(polls, hold, k) <==>
      polls[k].now >= polls[i].later + hold && forall r :: i < r < k ==> polls[r].now < polls[i].later + hold
  {
    AfterEvent(polls, hold, i, k);
  }

  /**
   The next event comes at the first poll that sees the train arrived after one that saw it
   approaching, both when the hold time is over.
   */
  lemma NextEventIff(polls: seq<Poll>, hold: int, i: nat, k: nat)
    requires LastEvent(polls, hold, i, k) && k < |polls|
    ensures EventAt(polls, hold, k) <==>
      Arrived(polls[k]) && exists m: nat :: i < m < k && Approaching(polls[m]) && HeldLongEnough(polls, hold, i, m)
  {
    AfterEvent(polls, hold, i, k);
    if exists m: nat :: i < m < k && Approaching(polls[m]) && HeldLongEnough(polls, hold, i, m) {
      var m: nat :| i < m < k && Approaching(polls[m]) && HeldLongEnough(polls, hold, i, m);
      var r :| i < r <= m && polls[r].now >= polls[i].later + hold;
      assert HeldLongEnough(polls, hold, i, k - 1);
    }
  }

  /** The first event comes at the first poll that sees the train arrived, with no base screen before it. */
  lemma {:induction false} FirstEventIff(polls: seq<Poll>, hold: int, k: nat)
    requires k < |polls| && forall j: nat :: j < k ==> !EventAt(polls, hold, j)
    ensures EventAt(polls, hold, k) <==> Arrived(polls[k])
    ensures !BaseAt(polls, hold, k)
    ensures var s := StateAfter(polls[..k], hold); !s.active && s.armed
    decreases k
  {
    if k > 0 {
      FirstEventIff(polls, hold, k - 1);
      assert polls[..k][..k - 1] == polls[..k - 1];
    }
  }

  ghost predicate TriggeredAt(polls: seq<Poll>, hold: int, i: nat)
    requires i < |polls|
  {
    Triggers(StateAfter(polls[..i], hold), polls[i])
  }

  ghost predicate RearmedAt(polls: seq<Poll>, hold: int, i: nat)
    requires i < |polls|
  {
    Rearms(StateAfter(polls[..i], hold), polls[i])
  }

  /** The loop is armed unless an event happened that no rearming poll followed. */
  lemma {:induction false} ArmedOnlyByRearming(polls: seq<Poll>, hold: int, i: nat)
    requires i < |polls| && TriggeredAt(polls, hold, i) && StateAfter(polls, hold).armed
    ensures exists k :: i < k < |polls| && RearmedAt(polls, hold, k)
    decreases |polls|
  {
    var n := |polls| - 1;
    var before := polls[..n];
    if i < n && !RearmedAt(polls, hold, n) {
      assert before[..i] == polls[..i];
      ArmedOnlyByRearming(before, hold, i);
      var k :| i < k < n && RearmedAt(before, hold, k);
      assert before[..k] == polls[..k];
      assert RearmedAt(polls, hold, k);
    }
  }

  /** Between two events there is a successful poll with positive arrival time while none is showing. */
  lemma RearmedBetweenEvents(polls: seq<Poll>, hold: int, i: nat, j: nat)
    requires i < j < |polls| && TriggeredAt(polls, hold, i) && TriggeredAt(polls, hold, j)
    ensures exists k :: i < k < j && RearmedAt(polls, hold, k)
  {
    var early := polls[..j];
    assert early[..i] == polls[..i];
    ArmedOnlyByRearming(early, hold, i);
    var k :| i < k < j && RearmedAt(early, hold, k);
    assert early[..k] == polls[..k];
    assert RearmedAt(polls, hold, k);
  }

  function Events(polls: seq<Poll>, hold: int): nat {
    if polls == [] then 0
    else
      var n := |polls| - 1;
      Events(polls[..n], hold) + (if Triggers(StateAfter(polls[..n], hold), polls[n]) then 1 else 0)
  }

  function Rearmings(polls: seq<Poll>, hold: int): nat {
    if polls == [] then 0
    else
      var n := |polls| - 1;
      Rearmings(polls[..n], hold) + (if Rearms(StateAfter(polls[..n], hold), polls[n]) then 1 else 0)
  }

  /** One event per arming: there is at most one event more than there are rearming polls. */
  lemma {:induction false} EventsAreRationed(polls: seq<Poll>, hold: int)
    ensures Events(polls, hold) + (if StateAfter(polls, hold).armed then 1 else 0) <= 1 + Rearmings(polls, hold)
    decreases |polls|
  {
    if polls != [] {
      EventsAreRationed(polls[..|polls| - 1], hold);
    }
  }
}

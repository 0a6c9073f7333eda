/**
 The task and timer tables of `mass.py`. A task started eagerly runs its first step inside its
 constructor, before it is tracked, so creating one is two steps with other operations between.
 */
module TaskTracking {
  import opened Wrappers

  datatype Task = Task(id: string, done: bool, cancelRequested: bool)

  datatype TimerState = Pending | Cancelled | Fired

  datatype Timer = Timer(id: string, state: TimerState)

  /** All tasks and timers ever made, by creation number; the tables track some of them by id. */
  datatype State = State(
    tasks: seq<Task>, tracked: map<string, nat>, starting: seq<nat>,
    timers: seq<Timer>, trackedTimers: map<string, nat>)

  datatype Action =
    | BeginCreate(id: string, abortExisting: bool) // create_task up to the constructor
    | EndCreate                                    // the constructor of the innermost one returns
    | Finish(task: nat)                            // a task ends
    | DoneCallback(task: nat)
    | Cancel(task: nat)                            // by anyone who holds the task
    | CancelTask(id: string)
    | Stop                                         // the cancel loop of stop()
    | CallLater(id: string)
    | CancelTimer(id: string)
    | Fire(timer: nat)                             // the callback of a timer that is not cancelled

  function Start(): State {
    State([], map[], [], [], map[])
  }

  // ----- the steps

  predicate IsLive(s: State, t: nat) {
    t < |s.tasks| && !s.tasks[t].done && !s.tasks[t].cancelRequested
  }

  predicate Enabled(s: State, a: Action) {
    match a
    case EndCreate => s.starting != []
    case Finish(t) => t < |s.tasks|
    case DoneCallback(t) => t < |s.tasks| && s.tasks[t].done && t !in s.starting
    case Cancel(t) => t < |s.tasks|
    case Fire(h) => h < |s.timers| && s.timers[h].state.Pending?
    case _ => true
  }

  predicate WellFormed(s: State) {
    && (forall id | id in s.tracked :: s.tracked[id] < |s.tasks|)
    && (forall id | id in s.trackedTimers :: s.trackedTimers[id] < |s.timers|)
    && (forall i | 0 <= i < |s.starting| :: s.starting[i] < |s.tasks|)
  }

  function CancelOne(tasks: seq<Task>, t: nat): seq<Task>
    requires t < |tasks|
  {
    if tasks[t].done then tasks else tasks[t := tasks[t].(cancelRequested := true)]
  }

  /** The task a call with this id would find still running; an empty id finds none. */
  function Existing(s: State, id: string): Option<nat>
    requires WellFormed(s)
  {
    if id != "" && id in s.tracked && !s.tasks[s.tracked[id]].done then Some(s.tracked[id]) else None
  }

  function StartTask(s: State, id: string): State {
    s.(tasks := s.tasks + [Task(id, false, false)], starting := s.starting + [|s.tasks|])
  }

  function TrackLast(s: State): State
    requires WellFormed(s) && s.starting != []
  {
    var t := s.starting[|s.starting| - 1];
    s.(tracked := s.tracked[s.tasks[t].id := t], starting := s.starting[..|s.starting| - 1])
  }

  function CancelTracked(s: State): seq<Task>
    requires WellFormed(s)
  {
    seq(|s.tasks|, t requires 0 <= t < |s.tasks| =>
      if (exists id | id in s.tracked :: s.tracked[id] == t) && !s.tasks[t].done
      then s.tasks[t].(cancelRequested := true) else s.tasks[t])
  }

  function CancelHandle(s: State, id: string): seq<Timer>
    requires WellFormed(s)
  {
    if id in s.trackedTimers then
      var h := s.trackedTimers[id];
      s.timers[h := s.timers[h].(state := Cancelled)]
    else s.timers
  }

  function Step(s: State, a: Action): State
    requires WellFormed(s) && Enabled(s, a)
  {
    match a
    case BeginCreate(id, abortExisting) =>
      (match Existing(s, id)
       case None => StartTask(s, id)
       case Some(t) => if abortExisting then StartTask(s.(tasks := CancelOne(s.tasks, t)), id) else s)
    case EndCreate => TrackLast(s)
    case Finish(t) => s.(tasks := s.tasks[t := s.tasks[t].(done := true)])
    case DoneCallback(t) =>
      var id := s.tasks[t].id;
      if id in s.tracked && s.tracked[id] == t then s.(tracked := s.tracked - {id}) else s
    case Cancel(t) => s.(tasks := CancelOne(s.tasks, t))
    case CancelTask(id) =>
      if id in s.tracked then s.(tasks := CancelOne(s.tasks, s.tracked[id]), tracked := s.tracked - {id}) else s
    case Stop => s.(tasks := CancelTracked(s))
    case CallLater(id) =>
      s.(timers := CancelHandle(s, id) + [Timer(id, Pending)], trackedTimers := s.trackedTimers[id := |s.timers|])
    case CancelTimer(id) => s.(timers := CancelHandle(s, id), trackedTimers := s.trackedTimers - {id})
    case Fire(h) =>
      s.(timers := s.timers[h := s.timers[h].(state := Fired)], trackedTimers := s.trackedTimers - {s.timers[h].id})
  }

  // ----- the invariant

  predicate IsStarting(s: State, t: nat) {
    t in s.starting
  }

  ghost predicate EntriesMatch(s: State)
    requires WellFormed(s)
  {
    forall id | id in s.tracked :: s.tasks[s.tracked[id]].id == id && !IsStarting(s, s.tracked[id])
  }

  /** A live task is tracked, unless its constructor has not returned yet. */
  ghost predicate LiveTracked(s: State)
    requires WellFormed(s)
  {
    forall t: nat | IsLive(s, t) && !IsStarting(s, t) :: s.tasks[t].id in s.tracked && s.tracked[s.tasks[t].id] == t
  }

  /** At most one constructor runs for each id, and nothing else of that id is live. */
  ghost predicate StartingUnique(s: State)
    requires WellFormed(s)
  {
    && (forall i, j | 0 <= i < j < |s.starting| :: s.tasks[s.starting[i]].id != s.tasks[s.starting[j]].id)
    && (forall i, t: nat | 0 <= i < |s.starting| && IsLive(s, t) && s.tasks[t].id == s.tasks[s.starting[i]].id ::
          t == s.starting[i])
  }

  ghost predicate TasksTracked(s: State)
    requires WellFormed(s)
  {
    EntriesMatch(s) && LiveTracked(s) && StartingUnique(s)
  }

  ghost predicate TimersTracked(s: State)
    requires WellFormed(s)
  {
    && (forall id | id in s.trackedTimers ::
          s.timers[s.trackedTimers[id]].id == id && s.timers[s.trackedTimers[id]].state.Pending?)
    && (forall h | 0 <= h < |s.timers| && s.timers[h].state.Pending? ::
          s.timers[h].id in s.trackedTimers && s.trackedTimers[s.timers[h].id] == h)
    // a pending timer is the last one that was asked for under its id
    && (forall h, g | 0 <= h < |s.timers| && s.timers[h].state.Pending? && h < g < |s.timers| ::
          s.timers[g].id != s.timers[h].id)
  }

  ghost predicate Inv(s: State) {
    WellFormed(s) && TasksTracked(s) && TimersTracked(s)
  }

  /** Ids are not empty, and a first step does not create its own id again. */
  predicate Legal(s: State, a: Action)
    requires WellFormed(s)
  {
    a.BeginCreate? ==>
      a.id != "" && forall i | 0 <= i < |s.starting| :: s.tasks[s.starting[i]].id != a.id
  }

  lemma EndKeepsStarting(s: State)
    requires Inv(s) && s.starting != []
    ensures StartingUnique(TrackLast(s))
    ensures forall k: nat :: IsStarting(s, k) <==> IsStarting(TrackLast(s), k) || k == s.starting[|s.starting| - 1]
    ensures !IsStarting(TrackLast(s), s.starting[|s.starting| - 1])
  {
    hide TimersTracked, LiveTracked, EntriesMatch;
    var t, last := TrackLast(s), |s.starting| - 1;
    forall k: nat | IsStarting(s, k) && k != s.starting[last] ensures IsStarting(t, k) {
      var i :| 0 <= i < |s.starting| && s.starting[i] == k;
      assert t.starting[i] == k;
    }
    assert forall k: nat | IsLive(t, k) :: IsLive(s, k);
  }

  lemma EndKeeps(s: State)
    requires Inv(s) && s.starting != []
    ensures Inv(Step(s, EndCreate))
  {
    var t, r := TrackLast(s), s.starting[|s.starting| - 1];
    assert TimersTracked(t);
    EndKeepsStarting(s);
    forall k: nat | IsLive(t, k) && k != r ensures t.tasks[k].id != t.tasks[r].id {
      assert IsLive(s, k);
    }
    hide TimersTracked, StartingUnique, IsStarting;
    assert forall k: nat | IsLive(t, k) :: IsLive(s, k);
    assert LiveTracked(t);
    assert EntriesMatch(t);
  }

  /** No task becomes live, and only tasks that are not live become untracked. */
  ghost predicate Quieter(s: State, t: State)
    requires WellFormed(s)
  {
    && t.starting == s.starting && t.timers == s.timers && t.trackedTimers == s.trackedTimers
    && |t.tasks| == |s.tasks|
    && (forall k | 0 <= k < |s.tasks| :: t.tasks[k].id == s.tasks[k].id)
    && (forall k: nat | IsLive(t, k) :: IsLive(s, k))
    && (forall id | id in t.tracked :: id in s.tracked && t.tracked[id] == s.tracked[id])
    && (forall id | id in s.tracked && id !in t.tracked :: !IsLive(t, s.tracked[id]))
  }

  lemma QuieterKeeps(s: State, t: State)
    requires Inv(s) && Quieter(s, t)
    ensures Inv(t)
  {
  }

  lemma EndingIsQuieter(s: State, a: Action)
    requires Inv(s) && Enabled(s, a) && (a.Finish? || a.DoneCallback? || a.Cancel? || a.CancelTask?)
    ensures Quieter(s, Step(s, a))
  {
    hide TimersTracked;
  }

  /** The cancel loop of stop() reaches every live task that is tracked. */
  lemma StopCancelsAll(s: State)
    requires Inv(s)
    ensures Quieter(s, Step(s, Stop))
    ensures forall k: nat | IsLive(Step(s, Stop), k) :: IsStarting(s, k)
  {
    hide TimersTracked;
    var t := Step(s, Stop);
    forall k: nat | IsLive(t, k) ensures IsStarting(s, k) && IsLive(s, k) {
      assert IsLive(s, k);
    }
  }

  lemma StartTaskKeeps(s: State, id: string)
    requires Inv(s)
    requires forall i | 0 <= i < |s.starting| :: s.tasks[s.starting[i]].id != id
    requires forall k: nat | IsLive(s, k) && !IsStarting(s, k) :: s.tasks[k].id != id
    ensures Inv(StartTask(s, id))
  {
    var t := StartTask(s, id);
    assert TimersTracked(t);
    hide TimersTracked;
    assert forall k: nat | IsLive(t, k) && k < |s.tasks| :: IsLive(s, k);
    assert t.starting[|s.starting|] == |s.tasks|;
    assert forall k: nat | k < |s.tasks| && IsLive(s, k) && IsStarting(s, k) :: s.tasks[k].id != id;
  }

  lemma BeginKeeps(s: State, a: Action)
    requires Inv(s) && a.BeginCreate? && Legal(s, a)
    ensures Inv(Step(s, a))
  {
    hide TimersTracked;
    match Existing(s, a.id)
    case None =>
      StartTaskKeeps(s, a.id);
    case Some(t) =>
      if a.abortExisting {
        EndingIsQuieter(s, Cancel(t));
        QuieterKeeps(s, Step(s, Cancel(t)));
        StartTaskKeeps(Step(s, Cancel(t)), a.id);
      }
  }

  lemma CancelTimerKeeps(s: State, id: string)
    requires Inv(s)
    ensures Inv(Step(s, CancelTimer(id)))
  {
    var t := Step(s, CancelTimer(id));
    assert TasksTracked(t);
    hide TasksTracked;
    assert forall h | 0 <= h < |s.timers| ::
        && t.timers[h].id == s.timers[h].id
        && (t.timers[h].state.Pending? ==> s.timers[h].state.Pending? && s.timers[h].id != id);
  }

  lemma FireKeeps(s: State, h: nat)
    requires Inv(s) && Enabled(s, Fire(h))
    ensures Inv(Step(s, Fire(h)))
  {
    var t := Step(s, Fire(h));
    assert TasksTracked(t);
    hide TasksTracked;
    assert forall g | 0 <= g < |s.timers| ::
        && t.timers[g].id == s.timers[g].id
        && (t.timers[g].state.Pending? ==> s.timers[g].state.Pending? && s.timers[g].id != s.timers[h].id);
  }

  lemma NewTimerKeeps(s: State, id: string)
    requires Inv(s) && id !in s.trackedTimers
    ensures Inv(s.(timers := s.timers + [Timer(id, Pending)], trackedTimers := s.trackedTimers[id := |s.timers|]))
  {
    var t := s.(timers := s.timers + [Timer(id, Pending)], trackedTimers := s.trackedTimers[id := |s.timers|]);
    assert TasksTracked(t);
    hide TasksTracked;
  }

  lemma CallLaterKeeps(s: State, id: string)
    requires Inv(s)
    ensures Inv(Step(s, CallLater(id)))
  {
    CancelTimerKeeps(s, id);
    var u := Step(s, CancelTimer(id));
    NewTimerKeeps(u, id);
    hide Inv;
    assert u.trackedTimers[id := |u.timers|] == s.trackedTimers[id := |s.timers|];
  }

  lemma StepKeeps(s: State, a: Action)
    requires Inv(s) && Enabled(s, a) && Legal(s, a)
    ensures Inv(Step(s, a))
  {
    assert WellFormed(s);
    hide Inv, Step, Quieter, WellFormed;
    match a
    case BeginCreate(_, _) => BeginKeeps(s, a);
    case EndCreate => EndKeeps(s);
    case Stop => StopCancelsAll(s); QuieterKeeps(s, Step(s, a));
    case CallLater(id) => CallLaterKeeps(s, id);
    case CancelTimer(id) => CancelTimerKeeps(s, id);
    case Fire(h) => FireKeeps(s, h);
    case _ => EndingIsQuieter(s, a); QuieterKeeps(s, Step(s, a));
  }

  // ----- runs

  ghost predicate Run(s: State, actions: seq<Action>, t: State)
    decreases |actions|
  {
    if actions == [] then s == t
    else
      && WellFormed(s) && Enabled(s, actions[0]) && Legal(s, actions[0])
      && Run(Step(s, actions[0]), actions[1..], t)
  }

  lemma {:induction false} RunKeeps(s: State, actions: seq<Action>, t: State)
    requires Inv(s) && Run(s, actions, t)
    ensures Inv(t)
    decreases |actions|
  {
    hide Inv, Step, Enabled, Legal;
    if actions != [] {
      StepKeeps(s, actions[0]);
      RunKeeps(Step(s, actions[0]), actions[1..], t);
    }
  }

  /** No id has two live tasks; a live task is tracked once its constructor has returned, so stop() cancels it. */
  lemma TasksAreTracked(actions: seq<Action>, s: State, t: nat)
    requires Run(Start(), actions, s) && IsLive(s, t)
    ensures forall u: nat | IsLive(s, u) && s.tasks[u].id == s.tasks[t].id :: u == t
    ensures !IsStarting(s, t) ==> s.tasks[t].id in s.tracked && s.tracked[s.tasks[t].id] == t
    ensures WellFormed(s) && (IsLive(Step(s, Stop), t) ==> IsStarting(s, t))
  {
    RunKeeps(Start(), actions, s);
    StopCancelsAll(s);
    forall u: nat | IsLive(s, u) && s.tasks[u].id == s.tasks[t].id ensures u == t {
      if IsStarting(s, t) {
        var i :| 0 <= i < |s.starting| && s.starting[i] == t;
        assert s.tasks[u].id == s.tasks[s.starting[i]].id;
      }
    }
  }

  /** A timer that can fire is the tracked one of its id, so the pop of its callback finds it. */
  lemma TimersAreTracked(actions: seq<Action>, s: State)
    requires Run(Start(), actions, s)
    ensures forall h: nat | Enabled(s, Fire(h)) ::
              s.timers[h].id in s.trackedTimers && s.trackedTimers[s.timers[h].id] == h
    ensures forall id | id in s.trackedTimers ::
              Enabled(s, Fire(s.trackedTimers[id])) && s.timers[s.trackedTimers[id]].id == id
  {
    RunKeeps(Start(), actions, s);
  }

  lemma StepKeepsTimerIds(s: State, a: Action)
    requires WellFormed(s) && Enabled(s, a)
    ensures |s.timers| <= |Step(s, a).timers|
    ensures forall h | 0 <= h < |s.timers| :: Step(s, a).timers[h].id == s.timers[h].id
  {
  }

  lemma {:induction false} RunKeepsTimerIds(s: State, actions: seq<Action>, t: State)
    requires Run(s, actions, t)
    ensures |s.timers| <= |t.timers|
    ensures forall h | 0 <= h < |s.timers| :: t.timers[h].id == s.timers[h].id
    decreases |actions|
  {
    hide Step, Enabled, Legal, WellFormed;
    if actions != [] {
      StepKeepsTimerIds(s, actions[0]);
      RunKeepsTimerIds(Step(s, actions[0]), actions[1..], t);
    }
  }

  /** After a debounced call nothing asked for earlier under its id can fire any more. */
  lemma OnlyTheLastCallFires(before: seq<Action>, s: State, id: string, after: seq<Action>, t: State, h: nat)
    requires Run(Start(), before, s) && WellFormed(s) && Run(Step(s, CallLater(id)), after, t)
    requires Enabled(t, Fire(h)) && t.timers[h].id == id
    ensures h >= |s.timers|
  {
    RunKeeps(Start(), before, s);
    var u := Step(s, CallLater(id));
    StepKeeps(s, CallLater(id));
    RunKeeps(u, after, t);
    RunKeepsTimerIds(u, after, t);
    assert u.timers[|s.timers|].id == id;
  }

  // ----- exactly when creating a task keeps the tables right

  predicate IsBeingMade(s: State, id: string)
    requires WellFormed(s)
  {
    exists i | 0 <= i < |s.starting| :: s.tasks[s.starting[i]].id == id
  }

  predicate HasLive(s: State, id: string) {
    exists t: nat | t < |s.tasks| :: IsLive(s, t) && s.tasks[t].id == id
  }

  /** Two constructors of one id, or a new task beside a live one, break the tracking at once. */
  lemma StartBreaks(s: State, id: string)
    requires Inv(s) && Inv(StartTask(s, id))
    ensures !IsBeingMade(s, id) && !HasLive(s, id)
  {
    var t := StartTask(s, id);
    var n := |s.starting|;
    assert t.starting[n] == |s.tasks| && IsLive(t, |s.tasks|) && t.tasks[|s.tasks|].id == id;
    forall i | 0 <= i < n ensures s.tasks[s.starting[i]].id != id {
      assert t.starting[i] == s.starting[i] && t.tasks[s.starting[i]] == s.tasks[s.starting[i]];
    }
    forall k: nat | IsLive(s, k) ensures s.tasks[k].id != id {
      assert IsLive(t, k) && t.tasks[k] == s.tasks[k];
    }
  }

  /**
   Creating a task keeps the tables right exactly if the running one is returned, or no constructor of that
   id is running: a first step must not create its own id again.
   */
  lemma CreateKeepsExactly(s: State, id: string, abortExisting: bool)
    requires Inv(s) && id != ""
    ensures Inv(Step(s, BeginCreate(id, abortExisting)))
            <==> (Existing(s, id).Some? && !abortExisting) || !IsBeingMade(s, id)
  {
    if Existing(s, id).None? || abortExisting {
      if !IsBeingMade(s, id) {
        BeginKeeps(s, BeginCreate(id, abortExisting));
      } else {
        OwnIdBreaks(s, id, abortExisting);
      }
    }
  }

  lemma OwnIdBreaks(s: State, id: string, abortExisting: bool)
    requires Inv(s) && IsBeingMade(s, id) && (Existing(s, id).None? || abortExisting)
    ensures !Inv(Step(s, BeginCreate(id, abortExisting)))
  {
    hide TasksTracked, TimersTracked;
    if Existing(s, id).None? {
      if Inv(StartTask(s, id)) { StartBreaks(s, id); }
    } else {
      var t := Existing(s, id).value;
      EndingIsQuieter(s, Cancel(t));
      QuieterKeeps(s, Step(s, Cancel(t)));
      CancelKeepsIds(s, t, id);
      if Inv(StartTask(Step(s, Cancel(t)), id)) { StartBreaks(Step(s, Cancel(t)), id); }
    }
  }

  lemma CancelKeepsIds(s: State, t: nat, id: string)
    requires WellFormed(s) && t < |s.tasks| && IsBeingMade(s, id)
    ensures WellFormed(Step(s, Cancel(t))) && IsBeingMade(Step(s, Cancel(t)), id)
  {
    var u := Step(s, Cancel(t));
    var i :| 0 <= i < |s.starting| && s.tasks[s.starting[i]].id == id;
    assert u.tasks[u.starting[i]].id == id;
  }

  /** An empty id skips the lookup, so there must be no other live task of it either. */
  lemma EmptyIdIsNotDeduplicated(s: State, abortExisting: bool)
    requires Inv(s)
    ensures Inv(Step(s, BeginCreate("", abortExisting))) <==> !IsBeingMade(s, "") && !HasLive(s, "")
  {
    assert Step(s, BeginCreate("", abortExisting)) == StartTask(s, "");
    if !IsBeingMade(s, "") && !HasLive(s, "") {
      StartTaskKeeps(s, "");
    }
    if Inv(StartTask(s, "")) {
      StartBreaks(s, "");
    }
  }

  // ----- what is lost when a first step creates its own id again

  /** The innermost `m` constructors return. */
  function EndMany(s: State, m: nat): State
    requires WellFormed(s) && m <= |s.starting|
    decreases m
  {
    if m == 0 then s else EndMany(TrackLast(s), m - 1)
  }

  predicate IsTracked(s: State, t: nat) {
    exists id | id in s.tracked :: s.tracked[id] == t
  }

  /** Until the constructor behind it returns, the new task is tracked under its id only. */
  lemma {:induction false} EndManyLoses(s: State, t: nat, m: nat)
    requires WellFormed(s) && 0 < m <= |s.starting| && t < |s.tasks| && t !in s.starting
    requires forall id | id in s.tracked && s.tracked[id] == t :: id == s.tasks[t].id
    requires s.tasks[s.starting[|s.starting| - m]].id == s.tasks[t].id
    ensures var w := EndMany(s, m);
            WellFormed(w) && w.tasks == s.tasks && !IsTracked(w, t) && !IsStarting(w, t)
    decreases m
  {
    var u := TrackLast(s);
    assert forall i | 0 <= i < |u.starting| :: u.starting[i] == s.starting[i];
    if m > 1 {
      assert u.starting[|u.starting| - (m - 1)] == s.starting[|s.starting| - m];
      EndManyLoses(u, t, m - 1);
    }
  }

  lemma UntrackedOutlivesStop(s: State, t: nat)
    requires WellFormed(s) && IsLive(s, t) && !IsTracked(s, t)
    ensures IsLive(Step(s, Stop), t)
  {
  }

  /** Right after its own constructor the new task is tracked, and the others go on where they were. */
  lemma NestedBegins(s: State, id: string, abortExisting: bool)
    requires WellFormed(s) && (Existing(s, id).None? || abortExisting)
    ensures var u := Step(s, BeginCreate(id, abortExisting));
            && WellFormed(u) && u.starting == s.starting + [|s.tasks|]
            && var v := TrackLast(u);
               && WellFormed(v) && v.starting == s.starting
               && |v.tasks| == |s.tasks| + 1 && v.tasks[|s.tasks|] == Task(id, false, false)
               && (forall k | k in v.tracked && v.tracked[k] == |s.tasks| :: k == id)
               && (forall k | 0 <= k < |s.tasks| :: v.tasks[k].id == s.tasks[k].id)
  {
    var u := Step(s, BeginCreate(id, abortExisting));
    assert u.starting == s.starting + [|s.tasks|] && u.tasks[|s.tasks|] == Task(id, false, false);
    assert TrackLast(u).starting == s.starting;
  }

  /**
   A task made by the first step of the `i`-th running constructor under that one's own id: once the
   constructors have returned it runs untracked, and stop does not cancel it.
   */
  lemma NestedIdLosesTask(s: State, i: nat, abortExisting: bool)
    requires Inv(s) && i < |s.starting|
    requires Existing(s, s.tasks[s.starting[i]].id).None? || abortExisting
    ensures var u := Step(s, BeginCreate(s.tasks[s.starting[i]].id, abortExisting));
            && WellFormed(u) && u.starting == s.starting + [|s.tasks|]
            && var w := EndMany(u, |s.starting| - i + 1);
               && WellFormed(w) && IsLive(w, |s.tasks|)
               && !IsTracked(w, |s.tasks|) && !IsStarting(w, |s.tasks|)
               && IsLive(Step(w, Stop), |s.tasks|)
  {
    hide TimersTracked, TasksTracked, Step, Existing, TrackLast, IsTracked;
    var n, m := |s.tasks|, |s.starting| - i;
    var u := Step(s, BeginCreate(s.tasks[s.starting[i]].id, abortExisting));
    NestedBegins(s, s.tasks[s.starting[i]].id, abortExisting);
    EndManyLoses(TrackLast(u), n, m);
    UntrackedOutlivesStop(EndMany(u, m + 1), n);
  }

  // ----- the tables as code

  class Tracker {
    var tasks: seq<Task>
    var trackedTasks: map<string, nat>
    var starting: seq<nat>
    var timers: seq<Timer>
    var trackedTimers: map<string, nat>

    ghost function View(): State
      reads this
    {
      State(tasks, trackedTasks, starting, timers, trackedTimers)
    }

    /** One live task for each id, tracked; and the pending timers are those tracked. */
    ghost predicate Valid()
      reads this
    {
      Inv(View())
    }

    constructor ()
      ensures Valid() && View() == Start()
    {
      tasks, trackedTasks, starting, timers, trackedTimers := [], map[], [], [], map[];
    }

    method Cancel(task: nat)
      requires task < |tasks|
      modifies this`tasks
      ensures tasks == CancelOne(old(tasks), task)
      ensures |tasks| == |old(tasks)| && forall t | 0 <= t < |tasks| && t != task :: tasks[t] == old(tasks)[t]
      ensures tasks[task] == if old(tasks)[task].done then old(tasks)[task] else Task(old(tasks)[task].id, false, true)
    {
      if !tasks[task].done {
        tasks := tasks[task := tasks[task].(cancelRequested := true)];
      }
    }

    /** `create_task` up to the constructor: the running task of that id it returns instead, if any. */
    method CreateTask(id: string, abortExisting: bool) returns (existing: Option<nat>)
      requires Valid()
      modifies this
      ensures View() == Step(old(View()), BeginCreate(id, abortExisting))
      ensures id != "" ==> (Valid() <==> existing.Some? || !old(IsBeingMade(View(), id)))
      ensures existing.Some? <==> !abortExisting && old(Existing(View(), id)).Some?
      ensures existing.Some? ==>
                && View() == old(View()) && existing.value < |tasks|
                && tasks[existing.value].id == id && !tasks[existing.value].done
      // the running task of that id, if it is tracked, and otherwise one more task
      ensures
        var running := id != "" && id in old(trackedTasks) && !old(tasks)[old(trackedTasks)[id]].done;
        && existing == (if running && !abortExisting then Some(old(trackedTasks)[id]) else None)
        && trackedTasks == old(trackedTasks) && timers == old(timers) && trackedTimers == old(trackedTimers)
        && (existing == None ==>
              && |tasks| == |old(tasks)| + 1 && tasks[|old(tasks)|] == Task(id, false, false)
              && starting == old(starting) + [|old(tasks)|]
              && forall t | 0 <= t < |old(tasks)| ::
                   tasks[t] == if running && t == old(trackedTasks)[id] then Task(id, false, true) else old(tasks)[t])
    {
      hide Inv, IsBeingMade;
      if id != "" { CreateKeepsExactly(View(), id, abortExisting); }
      FoundIsRunning(View(), id);
      if id != "" && id in trackedTasks && !tasks[trackedTasks[id]].done {
        if abortExisting {
          Cancel(trackedTasks[id]);
        } else {
          return Some(trackedTasks[id]);
        }
      }
      starting := starting + [|tasks|];
      tasks := tasks + [Task(id, false, false)];
      return None;
    }

    method TrackTask() returns (task: nat)
      requires Valid() && starting != []
      modifies this
      ensures Valid() && View() == Step(old(View()), EndCreate)
      ensures task < |tasks| && tasks[task].id in trackedTasks && trackedTasks[tasks[task].id] == task
      ensures old(starting) == starting + [task] && tasks == old(tasks)
      ensures trackedTasks == old(trackedTasks)[tasks[task].id := task]
    {
      hide Inv;
      EndKeeps(View());
      InvIsWellFormed(View());
      task := starting[|starting| - 1];
      starting := starting[..|starting| - 1];
      trackedTasks := trackedTasks[tasks[task].id := task];
    }

    method TaskDone(task: nat)
      requires Valid() && Enabled(View(), DoneCallback(task))
      modifies this
      ensures Valid() && View() == Step(old(View()), DoneCallback(task))
      ensures tasks == old(tasks)
      ensures trackedTasks == map id | id in old(trackedTasks) && old(trackedTasks)[id] != task :: old(trackedTasks)[id]
    {
      hide Inv;
      StepKeeps(View(), DoneCallback(task));
      TrackedUnderOwnId(View());
      InvIsWellFormed(View());
      var id := tasks[task].id;
      if id in trackedTasks && trackedTasks[id] == task {
        trackedTasks := trackedTasks - {id};
      }
    }

    /** No task of that id is live any more, unless it is still in its constructor. */
    method CancelTrackedTask(id: string)
      requires Valid()
      modifies this
      ensures Valid() && View() == Step(old(View()), CancelTask(id))
      ensures trackedTasks == old(trackedTasks) - {id}
      ensures forall t: nat | IsLive(View(), t) && tasks[t].id == id :: IsStarting(View(), t)
    {
      hide Inv, IsLive, IsStarting;
      CancelTaskReaches(View(), id);
      InvIsWellFormed(View());
      if id in trackedTasks {
        Cancel(trackedTasks[id]);
        trackedTasks := trackedTasks - {id};
      }
    }

    method CancelAllTracked()
      requires WellFormed(View())
      modifies this`tasks
      ensures tasks == CancelTracked(old(View()))
    {
      var ids := trackedTasks.Keys;
      ghost var before := tasks;
      while ids != {}
        invariant ids <= trackedTasks.Keys
        invariant |tasks| == |before|
        invariant forall t | 0 <= t < |tasks| ::
                    tasks[t] ==
                      if (exists id | id in trackedTasks && id !in ids :: trackedTasks[id] == t) && !before[t].done
                      then before[t].(cancelRequested := true) else before[t]
        decreases ids
      {
        var id :| id in ids;
        ids := ids - {id};
        Cancel(trackedTasks[id]);
      }
    }

    /** The cancel loop of `stop`: only tasks still in their constructor are live afterwards. */
    method StopTasks()
      requires Valid()
      modifies this
      ensures Valid() && View() == Step(old(View()), Stop)
      ensures forall t: nat | IsLive(View(), t) :: IsStarting(View(), t)
    {
      hide Inv, IsLive, IsStarting;
      InvIsWellFormed(View());
      StopReaches(View());
      CancelAllTracked();
    }

    /** The new timer is the one tracked, and no other of that id can fire. */
    method RunLater(id: string) returns (handle: nat)
      requires Valid()
      modifies this
      ensures Valid() && View() == Step(old(View()), CallLater(id)) && handle == |old(timers)|
      ensures trackedTimers == old(trackedTimers)[id := handle]
      ensures timers[handle] == Timer(id, Pending) && |timers| == |old(timers)| + 1
      ensures forall h | 0 <= h < |old(timers)| && old(timers)[h].id != id :: timers[h] == old(timers)[h]
      ensures forall h: nat | Enabled(View(), Fire(h)) && timers[h].id == id :: h == handle
    {
      hide Inv;
      StepKeeps(View(), CallLater(id));
      InvIsWellFormed(View());
      PendingIsTracked(Step(View(), CallLater(id)), id);
      TrackedUnderOwnId(View());
      if id in trackedTimers {
        var existing := trackedTimers[id];
        timers := timers[existing := timers[existing].(state := Cancelled)];
      }
      handle := |timers|;
      timers := timers + [Timer(id, Pending)];
      trackedTimers := trackedTimers[id := handle];
    }

    method CancelTrackedTimer(id: string)
      requires Valid()
      modifies this
      ensures Valid() && View() == Step(old(View()), CancelTimer(id))
      ensures forall h: nat | Enabled(View(), Fire(h)) :: timers[h].id != id
      ensures trackedTimers == old(trackedTimers) - {id} && |timers| == |old(timers)|
      ensures forall h | 0 <= h < |timers| && old(timers)[h].id != id :: timers[h] == old(timers)[h]
    {
      hide Inv;
      StepKeeps(View(), CancelTimer(id));
      InvIsWellFormed(View());
      PendingIsTracked(Step(View(), CancelTimer(id)), id);
      TrackedUnderOwnId(View());
      if id in trackedTimers {
        var existing := trackedTimers[id];
        timers := timers[existing := timers[existing].(state := Cancelled)];
        trackedTimers := trackedTimers - {id};
      }
    }

    /** The callback of a timer: `popped` is the entry its pop removes, which raises on a missing key. */
    method TimerFires(handle: nat) returns (popped: nat)
      requires Valid() && Enabled(View(), Fire(handle))
      modifies this
      ensures Valid() && View() == Step(old(View()), Fire(handle)) && popped == handle
      ensures trackedTimers == old(trackedTimers) - {timers[handle].id}
      ensures timers == old(timers)[handle := Timer(old(timers)[handle].id, Fired)]
    {
      hide Inv;
      InvIsWellFormed(View());
      StepKeeps(View(), Fire(handle));
      PendingIsTracked(View(), timers[handle].id);
      var id := timers[handle].id;
      timers := timers[handle := timers[handle].(state := Fired)];
      popped := trackedTimers[id];
      trackedTimers := trackedTimers - {id};
    }
  }

  lemma InvIsWellFormed(s: State)
    requires Inv(s)
    ensures WellFormed(s)
  {
  }

  lemma FoundIsRunning(s: State, id: string)
    requires Inv(s)
    ensures WellFormed(s)
    ensures Existing(s, id).Some? ==>
              var t := Existing(s, id).value;
              t < |s.tasks| && s.tasks[t].id == id && !s.tasks[t].done
  {
  }

  lemma TrackedUnderOwnId(s: State)
    requires Inv(s)
    ensures forall id | id in s.tracked :: s.tracked[id] < |s.tasks| && s.tasks[s.tracked[id]].id == id
    ensures forall id | id in s.trackedTimers ::
              s.trackedTimers[id] < |s.timers| && s.timers[s.trackedTimers[id]].id == id
  {
  }

  lemma CancelTaskReaches(s: State, id: string)
    requires Inv(s)
    ensures Inv(Step(s, CancelTask(id)))
    ensures var u := Step(s, CancelTask(id));
            id !in u.tracked && forall t: nat | IsLive(u, t) && u.tasks[t].id == id :: IsStarting(u, t)
  {
    StepKeeps(s, CancelTask(id));
    hide TimersTracked, StartingUnique, EntriesMatch;
  }

  lemma StopReaches(s: State)
    requires Inv(s)
    ensures Inv(Step(s, Stop)) && forall t: nat | IsLive(Step(s, Stop), t) :: IsStarting(Step(s, Stop), t)
  {
    hide Inv, IsLive;
    InvIsWellFormed(s);
    StepKeeps(s, Stop);
    StopCancelsAll(s);
    assert Step(s, Stop).starting == s.starting;
  }

  lemma PendingIsTracked(s: State, id: string)
    requires Inv(s)
    ensures forall h: nat | Enabled(s, Fire(h)) && s.timers[h].id == id ::
              id in s.trackedTimers && s.trackedTimers[id] == h
  {
    hide TasksTracked;
  }
}

/**
 Deferred commits of `database.py`: all tasks share one connection, whose commit makes the
 writes of every task durable; a task inside a `deferred_commit` scope skips the commit behind
 each of its statements and commits once when its outermost scope exits.
 */
module DeferredCommit {

  /** The await at which a task is between two atomic pieces of code. */
  datatype Point = Idle | Wrote | Leaving

  datatype Task = Task(depth: nat, point: Point, commits: nat, commitsAtEntry: nat)

  /** `pending` lists the owners of the uncommitted writes on the connection. */
  datatype State = State(tasks: seq<Task>, pending: seq<nat>)

  datatype Action =
    | Write(task: nat)       // the statement of an insert, upsert, update, delete or execute_write
    | MaybeCommit(task: nat) // the _maybe_commit behind it
    | Abandon(task: nat)     // an error or a cancellation between the two
    | EnterScope(task: nat)
    | ExitScope(task: nat)   // normally, by an error or by a cancellation
    | CommitScope(task: nat) // the commit of the outermost scope

  function Start(tasks: nat): State {
    State(seq(tasks, _ => Task(0, Idle, 0, 0)), [])
  }

  predicate Enabled(s: State, a: Action) {
    && a.task < |s.tasks|
    && var t := s.tasks[a.task];
       match a
       case Write(_) => t.point.Idle?
       case MaybeCommit(_) => t.point.Wrote?
       case Abandon(_) => t.point.Wrote?
       case EnterScope(_) => t.point.Idle?
       case ExitScope(_) => t.point.Idle? && t.depth > 0
       case CommitScope(_) => t.point.Leaving?
  }

  function With(s: State, task: nat, t: Task): State
    requires task < |s.tasks|
  {
    s.(tasks := s.tasks[task := t])
  }

  function Commit(s: State, task: nat): State
    requires task < |s.tasks|
  {
    var t := s.tasks[task];
    With(s, task, t.(commits := t.commits + 1, point := Idle)).(pending := [])
  }

  function Step(s: State, a: Action): State
    requires Enabled(s, a)
  {
    var t := s.tasks[a.task];
    match a
    case Write(i) => With(s, i, t.(point := Wrote)).(pending := s.pending + [i])
    case MaybeCommit(i) => if t.depth == 0 then Commit(s, i) else With(s, i, t.(point := Idle))
    case Abandon(i) => With(s, i, t.(point := Idle))
    case EnterScope(i) =>
      With(s, i, t.(depth := t.depth + 1, commitsAtEntry := if t.depth == 0 then t.commits else t.commitsAtEntry))
    case ExitScope(i) => With(s, i, t.(depth := t.depth - 1, point := if t.depth == 1 then Leaving else Idle))
    case CommitScope(i) => Commit(s, i)
  }

  // ----- the invariant

  /** The task will still commit: it is in a scope, or on its way to a commit. */
  predicate WillCommit(t: Task) {
    t.depth > 0 || t.point.Wrote? || t.point.Leaving?
  }

  predicate Covered(s: State) {
    forall i | i in s.pending :: i < |s.tasks| && WillCommit(s.tasks[i])
  }

  /** Inside its scopes a task has not committed since it entered the outermost one. */
  predicate NoCommitInside(s: State) {
    forall t | t in s.tasks :: t.depth > 0 || t.point.Leaving? ==> t.commits == t.commitsAtEntry
  }

  predicate LeavesOutermost(s: State) {
    forall t | t in s.tasks :: t.point.Leaving? ==> t.depth == 0
  }

  predicate Inv(s: State) {
    Covered(s) && NoCommitInside(s) && LeavesOutermost(s)
  }

  /** Outside every scope, a statement is not abandoned between its write and its commit. */
  predicate Legal(s: State, a: Action)
    requires Enabled(s, a)
  {
    a.Abandon? ==> s.tasks[a.task].depth > 0
  }

  lemma StepKeeps(s: State, a: Action)
    requires Inv(s) && Enabled(s, a) && Legal(s, a)
    ensures Inv(Step(s, a))
  {
    var u := Step(s, a);
    assert s.tasks[a.task] in s.tasks;
    forall t | t in u.tasks
      ensures t.depth > 0 || t.point.Leaving? ==> t.commits == t.commitsAtEntry
      ensures t.point.Leaving? ==> t.depth == 0
    {
      assert t == u.tasks[a.task] || t in s.tasks;
    }
    assert forall i | 0 <= i < |s.tasks| && i != a.task :: u.tasks[i] == s.tasks[i];
  }

  ghost predicate Run(s: State, actions: seq<Action>, t: State)
    decreases |actions|
  {
    if actions == [] then s == t
    else
      && Enabled(s, actions[0]) && Legal(s, actions[0])
      && Run(Step(s, actions[0]), actions[1..], t)
  }

  lemma {:induction false} RunKeeps(s: State, actions: seq<Action>, t: State)
    requires Inv(s) && Run(s, actions, t)
    ensures Inv(t)
    decreases |actions|
  {
    hide Inv, Step, Enabled, Legal;
    if actions != [] {
      StepKeeps(s, actions[0]);
      RunKeeps(Step(s, actions[0]), actions[1..], t);
    }
  }

  lemma StartIsCovered(tasks: nat)
    ensures Inv(Start(tasks))
  {
  }

  predicate Settled(s: State) {
    forall t | t in s.tasks :: t.depth == 0 && t.point.Idle?
  }

  lemma PendingMeansUnsettled(s: State)
    ensures Inv(s) && |s.pending| > 0 ==> !Settled(s)
  {
    if Inv(s) && |s.pending| > 0 {
      var i := s.pending[0];
      assert i in s.pending;
      assert s.tasks[i] in s.tasks;
    }
  }

  /** In every interleaving each uncommitted write has an owner that will commit, so none is left once all is over. */
  lemma NothingStaysPending(tasks: nat, actions: seq<Action>, s: State)
    requires Run(Start(tasks), actions, s)
    ensures forall i | i in s.pending :: i < |s.tasks| && WillCommit(s.tasks[i])
    ensures Settled(s) ==> s.pending == []
  {
    StartIsCovered(tasks);
    RunKeeps(Start(tasks), actions, s);
    PendingMeansUnsettled(s);
  }

  /** From entry to exit, the outermost scope of a task commits once, at its exit, and then all is durable. */
  lemma ScopeCommitsOnce(tasks: nat, actions: seq<Action>, s: State, i: nat)
    requires Run(Start(tasks), actions, s) && i < |s.tasks|
    ensures s.tasks[i].depth > 0 ==> s.tasks[i].commits == s.tasks[i].commitsAtEntry
    ensures Enabled(s, CommitScope(i)) ==>
              var u := Step(s, CommitScope(i));
              u.tasks[i].commits == s.tasks[i].commitsAtEntry + 1 && u.tasks[i].depth == 0 && u.pending == []
  {
    StartIsCovered(tasks);
    RunKeeps(Start(tasks), actions, s);
    assert s.tasks[i] in s.tasks;
  }

  /**
   A write abandoned outside every scope, such as by a cancellation while the statement runs, stays
   uncommitted with nobody to commit it, unless another task's commit already took it along.
   */
  lemma AbandonedOutsideScope(s: State, i: nat)
    requires Inv(s) && Enabled(s, Abandon(i)) && s.tasks[i].depth == 0
    ensures Inv(Step(s, Abandon(i))) <==> i !in s.pending
  {
    var u := Step(s, Abandon(i));
    assert s.tasks[i] in s.tasks;
    assert !WillCommit(u.tasks[i]);
    forall t | t in u.tasks ensures t == u.tasks[i] || t in s.tasks {}
    assert forall j | 0 <= j < |s.tasks| && j != i :: u.tasks[j] == s.tasks[j];
  }

  // ----- the connection as code

  class Database {
    var tasks: seq<Task>
    var pending: seq<nat>

    ghost function View(): State
      reads this
    {
      State(tasks, pending)
    }

    /** Every uncommitted write has an owner that will commit. */
    ghost predicate Valid()
      reads this
    {
      Inv(View())
    }

    constructor (count: nat)
      ensures Valid() && View() == Start(count)
    {
      tasks, pending := seq(count, _ => Task(0, Idle, 0, 0)), [];
    }

    method CommitConnection(i: nat)
      requires i < |tasks|
      modifies this
      ensures View() == Commit(old(View()), i)
    {
      pending := [];
      tasks := tasks[i := tasks[i].(commits := tasks[i].commits + 1, point := Idle)];
    }

    method ExecuteStatement(i: nat)
      requires Valid() && Enabled(View(), Write(i))
      modifies this
      ensures Valid() && View() == Step(old(View()), Write(i))
      ensures pending == old(pending) + [i] && WillCommit(tasks[i])
    {
      hide Inv;
      StepKeeps(View(), Write(i));
      pending := pending + [i];
      tasks := tasks[i := tasks[i].(point := Wrote)];
    }

    /** Outside every scope all writes are durable now; inside one nothing is committed. */
    method MaybeCommitConnection(i: nat)
      requires Valid() && Enabled(View(), MaybeCommit(i))
      modifies this
      ensures Valid() && View() == Step(old(View()), MaybeCommit(i))
      ensures if old(tasks[i].depth) == 0 then pending == [] else pending == old(pending)
      ensures tasks[i].commits == old(tasks[i].commits) + if old(tasks[i].depth) == 0 then 1 else 0
    {
      hide Inv;
      StepKeeps(View(), MaybeCommit(i));
      if tasks[i].depth == 0 {
        CommitConnection(i);
      } else {
        tasks := tasks[i := tasks[i].(point := Idle)];
      }
    }

    /** An error or a cancellation between the statement and its commit. */
    method AbandonStatement(i: nat)
      requires Valid() && Enabled(View(), Abandon(i))
      modifies this
      ensures View() == Step(old(View()), Abandon(i))
      ensures Valid() <==> tasks[i].depth > 0 || i !in pending
      ensures pending == old(pending) && tasks[i] == old(tasks[i]).(point := Idle)
    {
      hide Inv;
      if tasks[i].depth > 0 {
        StepKeeps(View(), Abandon(i));
      } else {
        AbandonedOutsideScope(View(), i);
      }
      tasks := tasks[i := tasks[i].(point := Idle)];
    }

    method EnterDeferred(i: nat)
      requires Valid() && Enabled(View(), EnterScope(i))
      modifies this
      ensures Valid() && View() == Step(old(View()), EnterScope(i))
      ensures tasks[i].commits == tasks[i].commitsAtEntry == old(tasks[i].commits)
      ensures tasks[i].depth == old(tasks[i].depth) + 1 && pending == old(pending)
    {
      hide Inv;
      StepKeeps(View(), EnterScope(i));
      DepthMeansNoCommit(View(), i);
      var t := tasks[i];
      if t.depth == 0 {
        t := t.(commitsAtEntry := t.commits);
      }
      tasks := tasks[i := t.(depth := t.depth + 1)];
    }

    method ExitDeferred(i: nat)
      requires Valid() && Enabled(View(), ExitScope(i))
      modifies this
      ensures Valid() && View() == Step(old(View()), ExitScope(i))
      ensures tasks[i].depth == old(tasks[i].depth) - 1 && pending == old(pending)
      ensures tasks[i].depth == 0 <==> Enabled(View(), CommitScope(i))
    {
      hide Inv;
      StepKeeps(View(), ExitScope(i));
      var depth := tasks[i].depth - 1;
      tasks := tasks[i := tasks[i].(depth := depth, point := if depth == 0 then Leaving else Idle)];
    }

    /** The one commit since the outermost scope was entered, after which nothing is pending. */
    method CommitDeferred(i: nat)
      requires Valid() && Enabled(View(), CommitScope(i))
      modifies this
      ensures Valid() && View() == Step(old(View()), CommitScope(i))
      ensures pending == [] && tasks[i].commits == old(tasks[i].commitsAtEntry) + 1
    {
      hide Inv;
      StepKeeps(View(), CommitScope(i));
      DepthMeansNoCommit(View(), i);
      CommitConnection(i);
    }

    /** The scheduler resumes a task where `a` is enabled. */
    method Perform(a: Action)
      requires Valid() && Enabled(View(), a) && Legal(View(), a)
      modifies this
      ensures Valid() && View() == Step(old(View()), a)
      ensures Settled(View()) ==> pending == []
    {
      hide Inv, Step, Settled;
      PendingMeansUnsettled(Step(View(), a));
      StepKeeps(View(), a);
      match a
      case Write(i) => ExecuteStatement(i);
      case MaybeCommit(i) => MaybeCommitConnection(i);
      case Abandon(i) => AbandonStatement(i);
      case EnterScope(i) => EnterDeferred(i);
      case ExitScope(i) => ExitDeferred(i);
      case CommitScope(i) => CommitDeferred(i);
    }
  }

  lemma DepthMeansNoCommit(s: State, i: nat)
    requires Inv(s) && i < |s.tasks|
    ensures s.tasks[i].depth > 0 || s.tasks[i].point.Leaving? ==> s.tasks[i].commits == s.tasks[i].commitsAtEntry
    ensures s.tasks[i].point.Leaving? ==> s.tasks[i].depth == 0
  {
    assert s.tasks[i] in s.tasks;
  }
}

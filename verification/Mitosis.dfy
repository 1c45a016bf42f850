/** Spawning threads from a running one: the root thread, the worker that starts goroutines for the
  * spawn requests in a channel, and those goroutines, in every interleaving. */
module Mitosis {

  // What ExecuteWithMitosis collects per thread; the root has id 0 and no parent.
  datatype ThreadResult = ThreadResult(id: nat, parent: int, children: seq<nat>)

  // The root thread runs, ends, reports, closes the channel, and returns once nothing is pending.
  datatype Root = Running | Ended | Reported | Closed | Returned

  // The worker waits for a request, takes one, counts it as pending and starts a goroutine for it.
  datatype Worker = Waiting | Took(id: nat) | Counted(id: nat) | Exited

  // A goroutine runs its thread, appends the result, and is no longer pending.
  datatype Task = Started | Appended | Finished

  datatype State = State(
    root: Root, threadCount: nat, children: seq<nat>, channel: seq<nat>, worker: Worker,
    tasks: map<nat, Task>, pending: int, results: seq<ThreadResult>)

  const START := State(Running, 0, [], [], Waiting, map[], 0, [])

  // A limit that is not positive means 256.
  function MaxThreads(requested: int): (n: nat)
    ensures n >= 1
  {
    if requested <= 0 then 256 else requested
  }

  datatype Event =
    | Spawn | End | Report | Close | Return
    | Take | Count | Start | Exit
    | Append(id: nat) | Finish(id: nat)

  // Whether an event can happen; a send into a full channel has to wait.
  predicate Enabled(max: nat, s: State, e: Event) {
    match e
    case Spawn => s.root.Running? && (s.threadCount + 1 < max ==> |s.channel| < max)
    case End => s.root.Running?
    case Report => s.root.Ended?
    case Close => s.root.Reported?
    case Return => s.root.Closed? && s.pending == 0
    case Take => s.worker.Waiting? && s.channel != []
    case Count => s.worker.Took?
    case Start => s.worker.Counted?
    case Exit => s.worker.Waiting? && s.channel == [] && (s.root.Closed? || s.root.Returned?)
    case Append(id) => id in s.tasks && s.tasks[id].Started?
    case Finish(id) => id in s.tasks && s.tasks[id].Appended?
  }

  function Next(max: nat, s: State, e: Event): State
    requires Enabled(max, s, e)
  {
    match e
    case Spawn =>
      var id := s.threadCount + 1;
      if id < max then s.(threadCount := id, channel := s.channel + [id], children := s.children + [id])
      else s.(threadCount := id)
    case End => s.(root := Ended)
    case Report => s.(root := Reported, results := s.results + [ThreadResult(0, -1, s.children)])
    case Close => s.(root := Closed)
    case Return => s.(root := Returned)
    case Take => s.(worker := Took(s.channel[0]), channel := s.channel[1..])
    case Count => s.(worker := Counted(s.worker.id), pending := s.pending + 1)
    case Start => s.(worker := Waiting, tasks := s.tasks[s.worker.id := Started])
    case Exit => s.(worker := Exited)
    case Append(id) => s.(tasks := s.tasks[id := Appended], results := s.results + [ThreadResult(id, 0, [])])
    case Finish(id) => s.(tasks := s.tasks[id := Finished], pending := s.pending - 1)
  }

  // The states some interleaving leads to.
  ghost predicate Run(max: nat, from: State, events: seq<Event>, to: State)
    decreases |events|
  {
    if events == [] then to == from
    else Enabled(max, from, events[0]) && Run(max, Next(max, from, events[0]), events[1..], to)
  }

  // ---- the invariant ----

  function Held(w: Worker): set<nat> {
    match w
    case Took(id) => {id}
    case Counted(id) => {id}
    case _ => {}
  }

  // How many requests the worker has taken out of the channel.
  function Taken(s: State): int {
    |s.children| - |s.channel|
  }

  function Upto(n: nat): seq<nat> {
    seq(n, i => i + 1)
  }

  function Unfinished(tasks: map<nat, Task>): set<nat> {
    set id | id in tasks && !tasks[id].Finished?
  }

  // Who has reported, as the phases of the threads say.
  function Reporters(s: State): set<nat> {
    (if s.root.Running? || s.root.Ended? then {} else {0}) + (set id | id in s.tasks && !s.tasks[id].Started?)
  }

  function Ids(results: seq<ThreadResult>): set<nat> {
    set r | r in results :: r.id
  }

  // Requests are numbered from 1 and leave the channel in order; the worker holds the last one taken
  // until it has started a goroutine for it.
  ghost predicate Queued(max: nat, s: State) {
    && max >= 1 && s.children == Upto(if s.threadCount < max then s.threadCount else max - 1)
    && |s.channel| <= |s.children| && s.channel == s.children[Taken(s)..]
    && (s.worker.Took? || s.worker.Counted? ==> Taken(s) > 0 && s.worker.id == Taken(s))
    && (forall id :: id in s.tasks <==> 1 <= id <= Taken(s) && id !in Held(s.worker))
    && (s.worker.Exited? ==> s.channel == [] && (s.root.Closed? || s.root.Returned?))
  }

  // The wait group counts the unfinished goroutines, and the request just counted.
  ghost predicate PendingRight(s: State) {
    s.pending == |Unfinished(s.tasks)| + (if s.worker.Counted? then 1 else 0)
  }

  // Exactly those have reported that should have, each once, with the children they have.
  ghost predicate ReportsRight(s: State) {
    && Ids(s.results) == Reporters(s) && |s.results| == |Reporters(s)|
    && (forall r | r in s.results :: r == ThreadResult(r.id, if r.id == 0 then -1 else 0, if r.id == 0 then s.children else []))
  }

  ghost predicate Inv(max: nat, s: State) {
    max >= 1 && Queued(max, s) && PendingRight(s) && ReportsRight(s)
  }

  lemma InvStart(max: nat)
    requires max >= 1
    ensures Inv(max, START)
  {
    assert Unfinished(map[]) == {} && Ids([]) == {} && Reporters(START) == {};
  }

  lemma UnfinishedSet(tasks: map<nat, Task>, id: nat, t: Task)
    ensures Unfinished(tasks[id := t]) == if t.Finished? then Unfinished(tasks) - {id} else Unfinished(tasks) + {id}
  {
  }

  lemma IdsAppend(results: seq<ThreadResult>, r: ThreadResult)
    ensures Ids(results + [r]) == Ids(results) + {r.id}
  {
    forall x ensures x in Ids(results + [r]) <==> x in Ids(results) + {r.id} {
      if x in Ids(results) {
        var q :| q in results && q.id == x;
        assert q in results + [r];
      }
      if x == r.id {
        assert r in results + [r];
      }
    }
  }

  lemma Sent(max: nat, s: State)
    requires max >= 1 && Queued(max, s)
    ensures |s.children| <= max - 1 && forall i | 0 <= i < |s.children| :: s.children[i] == i + 1
  {
  }

  lemma UptoNext(n: nat)
    ensures Upto(n + 1) == Upto(n) + [n + 1]
  {
  }

  lemma QueuedStep(max: nat, s: State, e: Event)
    requires Queued(max, s) && Enabled(max, s, e)
    ensures Queued(max, Next(max, s, e))
  {
    hide Upto;
    match e
    case Spawn => QueuedSpawn(max, s);
    case Take => QueuedTake(max, s);
    case _ =>
  }

  lemma QueuedSpawn(max: nat, s: State)
    requires Queued(max, s) && Enabled(max, s, Spawn)
    ensures Queued(max, Next(max, s, Spawn))
  {
    hide Upto;
    UptoNext(s.threadCount);
    var s' := Next(max, s, Spawn);
    if s.threadCount + 1 < max {
      SuffixAppend(s.children, Taken(s), s.threadCount + 1);
    }
  }

  lemma SuffixAppend(l: seq<nat>, n: nat, x: nat)
    requires n <= |l|
    ensures (l + [x])[n..] == l[n..] + [x]
  {
  }

  lemma QueuedTake(max: nat, s: State)
    requires Queued(max, s) && Enabled(max, s, Take)
    ensures Queued(max, Next(max, s, Take))
  {
    Sent(max, s);
    hide Upto;
    var n := Taken(s);
    assert s.channel[0] == s.children[n] == n + 1;
    assert s.children[n..][1..] == s.children[n + 1..];
  }

  lemma PendingStep(max: nat, s: State, e: Event)
    requires Queued(max, s) && PendingRight(s) && Enabled(max, s, e)
    ensures PendingRight(Next(max, s, e))
  {
    hide Unfinished, Upto;
    match e
    case Start =>
      UnfinishedSet(s.tasks, s.worker.id, Started);
      UnfinishedIn(s.tasks, s.worker.id);
    case Append(id) =>
      UnfinishedSet(s.tasks, id, Appended);
      UnfinishedIn(s.tasks, id);
      assert Unfinished(s.tasks) + {id} == Unfinished(s.tasks);
    case Finish(id) =>
      UnfinishedSet(s.tasks, id, Finished);
      UnfinishedIn(s.tasks, id);
    case _ =>
  }

  lemma UnfinishedIn(tasks: map<nat, Task>, id: nat)
    ensures id in Unfinished(tasks) <==> id in tasks && !tasks[id].Finished?
  {
  }

  lemma ReportersNext(max: nat, s: State, e: Event)
    requires Queued(max, s) && Enabled(max, s, e)
    ensures Reporters(Next(max, s, e)) ==
              if e.Report? then Reporters(s) + {0} else if e.Append? then Reporters(s) + {e.id} else Reporters(s)
    ensures e.Append? ==> e.id != 0 && e.id !in Reporters(s)
    ensures e.Report? ==> 0 !in Reporters(s)
    ensures e.Spawn? ==> 0 !in Reporters(s)
  {
    hide Upto;
    var s' := Next(max, s, e);
    forall id ensures id in Reporters(s') <==>
                        id in Reporters(s) || (e.Report? && id == 0) || (e.Append? && id == e.id)
    {
    }
  }

  lemma ReportsStep(max: nat, s: State, e: Event)
    requires Queued(max, s) && ReportsRight(s) && Enabled(max, s, e)
    ensures ReportsRight(Next(max, s, e))
  {
    hide Queued, Reporters, Ids;
    ReportersNext(max, s, e);
    match e
    case Spawn => RootSilent(s);
    case Report => OneMore(s, Next(max, s, e), ThreadResult(0, -1, s.children));
    case Append(id) => OneMore(s, Next(max, s, e), ThreadResult(id, 0, []));
    case _ =>
  }

  lemma RootSilent(s: State)
    requires ReportsRight(s) && 0 !in Reporters(s)
    ensures forall r | r in s.results :: r.id != 0
  {
    hide Reporters;
    forall r | r in s.results ensures r.id != 0 {
      IdsHas(s.results, r);
    }
  }

  lemma OneMore(s: State, s': State, r: ThreadResult)
    requires ReportsRight(s) && s'.results == s.results + [r] && s'.children == s.children
    requires Reporters(s') == Reporters(s) + {r.id} && r.id !in Reporters(s)
    requires r == ThreadResult(r.id, if r.id == 0 then -1 else 0, if r.id == 0 then s.children else [])
    ensures ReportsRight(s')
  {
    hide Reporters, Ids;
    IdsAppend(s.results, r);
  }

  lemma IdsHas(results: seq<ThreadResult>, r: ThreadResult)
    requires r in results
    ensures r.id in Ids(results)
  {
  }

  lemma InvStep(max: nat, s: State, e: Event)
    requires Inv(max, s) && Enabled(max, s, e)
    ensures Inv(max, Next(max, s, e))
  {
    hide Queued, PendingRight, ReportsRight, Enabled, Next;
    QueuedStep(max, s, e);
    PendingStep(max, s, e);
    ReportsStep(max, s, e);
  }

  lemma {:induction false} InvRun(max: nat, from: State, events: seq<Event>, to: State)
    requires Inv(max, from) && Run(max, from, events, to)
    ensures Inv(max, to)
    decreases |events|
  {
    hide Inv, Enabled, Next;
    if events != [] {
      InvStep(max, from, events[0]);
      InvRun(max, Next(max, from, events[0]), events[1..], to);
    }
  }

  // ---- what it gives ----

  // In every interleaving, whatever limit is asked for: thread ids are unique and consecutive, fewer
  // than the limit are ever sent, a send never has to wait, and no thread reports twice or without
  // having been spawned.
  lemma Safety(requested: int, events: seq<Event>, s: State)
    requires Run(MaxThreads(requested), START, events, s)
    ensures |s.children| <= MaxThreads(requested) - 1 && forall i | 0 <= i < |s.children| :: s.children[i] == i + 1
    ensures s.root.Running? ==> Enabled(MaxThreads(requested), s, Spawn)
    ensures |s.results| == |Ids(s.results)|
    ensures forall r | r in s.results :: r.id == 0 || (r.id in s.children && r.parent == 0)
  {
    var max := MaxThreads(requested);
    hide Run;
    InvStart(max);
    InvRun(max, START, events, s);
    Sent(max, s);
    forall r | r in s.results && r.id != 0 ensures r.id in s.children {
      assert r.id in Ids(s.results);
      assert r.id in s.tasks;
      assert s.children[r.id - 1] == r.id;
    }
  }

  // Root and children, each once.
  ghost predicate Complete(s: State) {
    && ThreadResult(0, -1, s.children) in s.results
    && (forall id | id in s.children :: ThreadResult(id, 0, []) in s.results)
    && |s.results| == |s.children| + 1
  }

  // Once the worker has drained the channel and every child is done, the results are complete.
  lemma CompleteAtTheEnd(max: nat, events: seq<Event>, s: State)
    requires max >= 1 && Run(max, START, events, s)
    requires s.worker.Exited? && forall id | id in s.tasks :: s.tasks[id].Finished?
    ensures Complete(s)
  {
    hide Run;
    InvStart(max);
    InvRun(max, START, events, s);
    AllReported(max, s);
  }

  lemma AllReported(max: nat, s: State)
    requires Inv(max, s) && s.channel == [] && Held(s.worker) == {}
    requires !s.root.Running? && !s.root.Ended?
    requires forall id | id in s.tasks :: !s.tasks[id].Started?
    ensures Complete(s)
  {
    hide Upto, Ids, Numbers;
    Sent(max, s);
    var n := |s.children|;
    Counting(n);
    assert Reporters(s) == Numbers(n);
    hide Reporters;
    ReportOf(s, 0);
    forall id | id in s.children ensures ThreadResult(id, 0, []) in s.results {
      ReportOf(s, id);
    }
  }

  lemma ReportOf(s: State, id: nat)
    requires ReportsRight(s) && id in Reporters(s)
    ensures ThreadResult(id, if id == 0 then -1 else 0, if id == 0 then s.children else []) in s.results
  {
    hide Reporters;
    var r :| r in s.results && r.id == id;
  }

  // 0 to n.
  function Numbers(n: nat): set<nat> {
    if n == 0 then {0} else Numbers(n - 1) + {n}
  }

  lemma {:induction false} Counting(n: nat)
    ensures |Numbers(n)| == n + 1 && forall i :: i in Numbers(n) <==> 0 <= i <= n
  {
    if n > 0 {
      Counting(n - 1);
    }
  }

  // But the root may return before that: waiting for pending children does not wait for requests
  // the worker has not counted yet. The results it returns are complete exactly if there are none.
  lemma ReturnComplete(max: nat, events: seq<Event>, s: State)
    requires max >= 1 && Run(max, START, events, s) && Enabled(max, s, Return)
    ensures Complete(s) <==> s.channel == [] && !s.worker.Took?
  {
    hide Run;
    InvStart(max);
    InvRun(max, START, events, s);
    assert Unfinished(s.tasks) == {};
    forall id | id in s.tasks ensures s.tasks[id].Finished? {
      UnfinishedIn(s.tasks, id);
    }
    if s.channel == [] && !s.worker.Took? {
      AllReported(max, s);
    } else {
      SomeMissing(max, s, if s.worker.Took? then Taken(s) else Taken(s) + 1);
    }
  }

  // A thread sent but not started has not reported.
  lemma SomeMissing(max: nat, s: State, id: nat)
    requires Inv(max, s) && 1 <= id <= |s.children| && id !in s.tasks
    ensures !Complete(s)
  {
    Sent(max, s);
    hide Upto;
    assert s.children[id - 1] == id;
    assert id !in Reporters(s);
    if ThreadResult(id, 0, []) in s.results {
      IdsHas(s.results, ThreadResult(id, 0, []));
    }
  }

  // Such a return does happen.
  lemma ReturnTooEarly(max: nat)
    requires max >= 2
    ensures exists events, s :: Run(max, START, events, s) && s.root.Returned? && !Complete(s)
  {
    var s1 := Next(max, START, Spawn);
    var s2 := Next(max, s1, End);
    var s3 := Next(max, s2, Report);
    var s4 := Next(max, s3, Close);
    var s5 := Next(max, s4, Return);
    assert Run(max, s5, [], s5);
    assert [Return][1..] == [];
    assert Run(max, s4, [Return], s5);
    assert [Close, Return][1..] == [Return];
    assert Run(max, s3, [Close, Return], s5);
    assert [Report, Close, Return][1..] == [Close, Return];
    assert Run(max, s2, [Report, Close, Return], s5);
    assert [End, Report, Close, Return][1..] == [Report, Close, Return];
    assert Run(max, s1, [End, Report, Close, Return], s5);
    assert [Spawn, End, Report, Close, Return][1..] == [End, Report, Close, Return];
    assert Run(max, START, [Spawn, End, Report, Close, Return], s5);
    assert |s5.results| == 1 && |s5.children| == 1;
  }

  // ---- liveness ----

  // Everything has come to rest.
  predicate AtRest(s: State) {
    s.root.Returned? && s.worker.Exited? && forall id | id in s.tasks :: s.tasks[id].Finished?
  }

  // No deadlock: short of rest, something can happen.
  lemma Progress(max: nat, events: seq<Event>, s: State)
    requires max >= 1 && Run(max, START, events, s) && !AtRest(s)
    ensures exists e :: Enabled(max, s, e)
  {
    hide Run;
    InvStart(max);
    InvRun(max, START, events, s);
    var e := SomeEvent(max, s);
  }

  lemma SomeEvent(max: nat, s: State) returns (e: Event)
    requires max >= 1 && Inv(max, s) && !AtRest(s)
    ensures Enabled(max, s, e)
  {
    if id :| id in s.tasks && !s.tasks[id].Finished? {
      e := if s.tasks[id].Started? then Append(id) else Finish(id);
    } else {
      assert Unfinished(s.tasks) == {};
      e := match s.root
           case Running => End
           case Ended => Report
           case Reported => Close
           case Closed => if s.worker.Counted? then Start else Return
           case Returned =>
             if s.worker.Took? then Count
             else if s.worker.Counted? then Start
             else if s.channel != [] then Take
             else Exit;
    }
  }

  // What is still to be done once the root has ended.
  function Remaining(s: State): int {
    (match s.root case Running => 5 case Ended => 4 case Reported => 3 case Closed => 2 case Returned => 0)
    + 6 * |s.channel|
    + (match s.worker case Took(_) => 5 case Counted(_) => 4 case Waiting => 1 case Exited => 0)
    + |Unfinished(s.tasks)| + |Silent(s.tasks)|
  }

  function Silent(tasks: map<nat, Task>): set<nat> {
    set id | id in tasks && tasks[id].Started?
  }

  lemma SilentSet(tasks: map<nat, Task>, id: nat, t: Task)
    ensures Silent(tasks[id := t]) == if t.Started? then Silent(tasks) + {id} else Silent(tasks) - {id}
    ensures id in Silent(tasks) <==> id in tasks && tasks[id].Started?
  {
  }

  lemma StartedCounts(tasks: map<nat, Task>, id: nat)
    requires id !in tasks
    ensures |Unfinished(tasks[id := Started])| == |Unfinished(tasks)| + 1
    ensures |Silent(tasks[id := Started])| == |Silent(tasks)| + 1
  {
    UnfinishedSet(tasks, id, Started);
    SilentSet(tasks, id, Started);
    UnfinishedIn(tasks, id);
  }

  lemma AppendedCounts(tasks: map<nat, Task>, id: nat)
    requires id in tasks && tasks[id].Started?
    ensures Unfinished(tasks[id := Appended]) == Unfinished(tasks)
    ensures |Silent(tasks[id := Appended])| == |Silent(tasks)| - 1
  {
    UnfinishedSet(tasks, id, Appended);
    SilentSet(tasks, id, Appended);
    UnfinishedIn(tasks, id);
  }

  lemma FinishedCounts(tasks: map<nat, Task>, id: nat)
    requires id in tasks && tasks[id].Appended?
    ensures |Unfinished(tasks[id := Finished])| == |Unfinished(tasks)| - 1
    ensures Silent(tasks[id := Finished]) == Silent(tasks)
  {
    UnfinishedSet(tasks, id, Finished);
    SilentSet(tasks, id, Finished);
    UnfinishedIn(tasks, id);
  }

  lemma HeldNotStarted(max: nat, s: State)
    requires Inv(max, s) && s.worker.Counted?
    ensures s.worker.id !in s.tasks
  {
    hide PendingRight, ReportsRight;
  }

  // After the root's end every event brings rest nearer: with Progress, every run comes to rest.
  lemma Settles(max: nat, s: State, e: Event)
    requires Inv(max, s) && !s.root.Running? && Enabled(max, s, e)
    ensures 0 <= Remaining(Next(max, s, e)) < Remaining(s) && !Next(max, s, e).root.Running?
  {
    hide Unfinished, Silent, Inv;
    match e
    case Start =>
      HeldNotStarted(max, s);
      StartedCounts(s.tasks, s.worker.id);
    case Append(id) => AppendedCounts(s.tasks, id);
    case Finish(id) => FinishedCounts(s.tasks, id);
    case _ =>
  }
}

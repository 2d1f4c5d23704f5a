/** The bookkeeping of `AiScoreWorkerPool` (aiscore_worker.py) and the per-match work of
    `_run_task`: skip a task without team names, look for the match, then stream statistics
    snapshots until an external stop, the finished flag or minute 100. Tasks run one event at a
    time: starting a task, a task running its `finally` block, and closing the pool are separate
    steps, which is how asyncio interleaves them on one event loop. */
module AiScorePool {
  import opened Wrappers
  import opened AiScoreScan

  // ---------------------------------------------------------------------------------------------
  // The map of running tasks
  // ---------------------------------------------------------------------------------------------

  /** `_running`: the task last started for each match id. Tasks are numbered in the order they
      were created; `created[t]` is the match id task `t` was started for, and `done` holds the
      tasks that have finished (asyncio's `Task.done()`). */
  class WorkerPool<K(==)> {
    var running: map<K, nat>
    var created: seq<K>
    var done: set<nat>

    /** Every entry names a task created for that match id which has not finished, and only
        created tasks finish. */
    predicate Valid()
      reads this
    {
      && (forall m :: m in running ==> running[m] < |created| && created[running[m]] == m && running[m] !in done)
      && (forall t :: t in done ==> t < |created|)
    }

    constructor()
      ensures Valid() && running == map[] && created == [] && done == {}
    {
      running := map[];
      created := [];
      done := {};
    }

    /** `is_running`: an entry exists and its task is not done. */
    function IsRunning(mid: K): (r: bool)
      reads this
      ensures Valid() ==> (r <==> mid in running)
    {
      mid in running && running[mid] !in done
    }

    /** `count_running`: the entries whose task is not done. */
    function CountRunning(): (n: nat)
      reads this
      ensures n <= |running.Keys|
      ensures Valid() ==> n == |running.Keys|
    {
      var live := set m | m in running && running[m] !in done;
      assert live <= running.Keys;
      assert Valid() ==> live == running.Keys;
      SubsetCard(live, running.Keys);
      |live|
    }

    /** The tasks started for `mid` that have not finished. */
    function UnfinishedFor(mid: K): (ts: set<nat>)
      reads this
      ensures forall t :: t in ts ==> t < |created| && created[t] == mid && t !in done
    {
      Unfinished(created, done, mid)
    }

    /** `submit`: start a task for the match unless one is running for it already; a second
        submit of a running match changes nothing. */
    method Submit(mid: K) returns (started: Option<nat>)
      requires Valid()
      modifies this
      ensures Valid() && IsRunning(mid)
      ensures old(IsRunning(mid)) ==> started == None && running == old(running) && created == old(created)
      ensures !old(IsRunning(mid)) ==> started == Some(|old(created)|) && running == old(running)[mid := |old(created)|]
                                        && created == old(created) + [mid]
      ensures done == old(done)
    {
      if mid in running && running[mid] !in done {
        return None;
      }
      started := Some(|created|);
      running := running[mid := |created|];
      created := created + [mid];
    }

    /** The `finally` of `_guarded_run_task` for task `t`: the entry under its match id is popped,
        whichever task it names, and `t` is done. */
    method TaskFinished(t: nat)
      requires Valid() && t < |created| && t !in done
      modifies this
      ensures created == old(created) && done == old(done) + {t}
      ensures running == old(running) - {created[t]}
      ensures Valid() && !IsRunning(created[t])
    {
      running := running - {created[t]};
      done := done + {t};
    }

    /** `close`: request cancellation of every running task and clear the map; the cancelled
        tasks are not done until their own `finally` runs. */
    method Close()
      requires Valid()
      modifies this
      ensures Valid() && running == map[] && created == old(created) && done == old(done)
      ensures CountRunning() == 0
    {
      running := map[];
    }
  }

  /** The tasks of `created` started for `mid` and not in `done`. */
  function Unfinished<K(==)>(created: seq<K>, done: set<nat>, mid: K): (ts: set<nat>)
    ensures forall t: nat :: t in ts <==> t < |created| && created[t] == mid && t !in done
  {
    set t | 0 <= t < |created| && created[t] == mid && t !in done
  }

  /** Three tasks for one match of which only the first finished leave two unfinished. */
  lemma TwoOfThreeUnfinished<K>(created: seq<K>, mid: K)
    requires |created| == 3 && created[0] == mid && created[1] == mid && created[2] == mid
    ensures |Unfinished(created, {0}, mid)| == 2
  {
    assert Unfinished(created, {0}, mid) == {1, 2};
  }

  /** A subset is no larger than the set. */
  lemma SubsetCard<T>(a: set<T>, b: set<T>)
    requires a <= b
    ensures |a| <= |b|
  {
    assert b == a + (b - a);
  }

  /** The `finally` pop goes by match id, not by task. A task cancelled by `close` finishes later;
      when the match was submitted again in between, the pop removes the entry of the new task,
      which keeps running unseen, and a further submit starts a second task for the same match. */
  method StaleFinishAfterClose<K(==)>(mid: K) returns (trackedAfterPop: bool, thirdStarted: Option<nat>, unfinished: nat)
    ensures !trackedAfterPop
    ensures thirdStarted == Some(2)
    ensures unfinished == 2
  {
    var pool := new WorkerPool<K>();
    var first := pool.Submit(mid);
    pool.Close();
    var second := pool.Submit(mid);
    pool.TaskFinished(0);
    trackedAfterPop := pool.IsRunning(mid);
    thirdStarted := pool.Submit(mid);
    assert pool.created == [mid, mid, mid] && pool.done == {0};
    TwoOfThreeUnfinished(pool.created, mid);
    unfinished := |pool.UnfinishedFor(mid)|;
  }

  // ---------------------------------------------------------------------------------------------
  // _run_task: the streaming loop
  // ---------------------------------------------------------------------------------------------

  /** `window.__bbStats` as the loop reads it: the minute, the ended flag and the statistics fields
      of `_emit_row`, in their order (None for JavaScript null). */
  datatype Snapshot = Snapshot(minute: Option<int>, ended: Option<int>, stats: seq<Option<real>>)

  /** One pass of the loop: what the stop callback answered (false without a callback) and the
      snapshot read, None when the page had none. */
  datatype Poll = Poll(stop: bool, snap: Option<Snapshot>)

  /** A row handed to `on_insert`, without its wall-clock time stamp. */
  datatype Row<K> = Row(matchId: K, minute: Option<int>, stats: seq<Option<real>>)

  datatype StreamEnd = StopRequested | MatchFinished | PollsExhausted

  datatype Stream<K> = Stream(rows: seq<Row<K>>, end: StreamEnd)

  /** The streaming loop ends after a snapshot whose ended flag is 1 or whose minute is at least 100. */
  predicate IsFinal(s: Snapshot) {
    s.ended == Some(1) || (s.minute.Some? && s.minute.value >= 100)
  }

  function EmitRow<K>(mid: K, s: Snapshot): Row<K> {
    Row(mid, s.minute, s.stats)
  }

  /** The rows the loop emits for the remaining polls and why it ends. The source loop has no
      bound; when the polls run out, the stream ends as exhausted. */
  function StreamFrom<K>(mid: K, polls: seq<Poll>): (r: Stream<K>)
    ensures |r.rows| <= |polls|
    decreases |polls|
  {
    if polls == [] then Stream([], PollsExhausted)
    else if polls[0].stop then Stream([], StopRequested)
    else if polls[0].snap.None? then StreamFrom(mid, polls[1..])
    else if IsFinal(polls[0].snap.value) then Stream([EmitRow(mid, polls[0].snap.value)], MatchFinished)
    else
      var rest := StreamFrom(mid, polls[1..]);
      Stream([EmitRow(mid, polls[0].snap.value)] + rest.rows, rest.end)
  }

  /** The `while True` loop of `_run_task`: check the stop callback, read a snapshot, emit a row for
      it and stop on the finished rule, then wait for the next interval. */
  method RunStream<K>(mid: K, polls: seq<Poll>) returns (rows: seq<Row<K>>, end: StreamEnd)
    ensures Stream(rows, end) == StreamFrom(mid, polls)
  {
    rows := [];
    var i := 0;
    assert polls[0..] == polls;
    while i < |polls|
      invariant 0 <= i <= |polls|
      invariant var r := StreamFrom(mid, polls[i..]); Stream(rows + r.rows, r.end) == StreamFrom(mid, polls)
    {
      assert polls[i..][1..] == polls[i + 1..];
      if polls[i].stop {
        assert rows + [] == rows;
        end := StopRequested;
        return;
      }
      var snap := polls[i].snap;
      if snap.Some? {
        rows := rows + [EmitRow(mid, snap.value)];
        if snap.value.ended == Some(1) || (snap.value.minute.Some? && snap.value.minute.value >= 100) {
          end := MatchFinished;
          return;
        }
      }
      i := i + 1;
    }
    assert rows + [] == rows;
    end := PollsExhausted;
  }

  /** Nothing after a stop answer or a final snapshot matters: the stream is decided by the polls
      up to and including it. */
  lemma {:induction false} StreamCutAt<K>(mid: K, polls: seq<Poll>, k: nat)
    requires k < |polls|
    requires polls[k].stop || (polls[k].snap.Some? && IsFinal(polls[k].snap.value))
    ensures StreamFrom(mid, polls) == StreamFrom(mid, polls[..k + 1])
    decreases k
  {
    var pre := polls[..k + 1];
    if k > 0 {
      assert pre[1..] == polls[1..][..k];
      assert pre[0] == polls[0];
      StreamCutAt(mid, polls[1..], k - 1);
    } else {
      assert pre == [polls[0]];
    }
  }

  /** The stream ends on a stop answer only if some poll gave one, ends as finished only on a
      final snapshot, and runs out of polls only when none of them stops it. */
  lemma {:induction false} StreamEndReasons<K>(mid: K, polls: seq<Poll>)
    ensures var r := StreamFrom(mid, polls);
      && (r.end == StopRequested ==> exists k :: 0 <= k < |polls| && polls[k].stop)
      && (r.end == MatchFinished ==>
            exists k :: 0 <= k < |polls| && !polls[k].stop && polls[k].snap.Some? && IsFinal(polls[k].snap.value))
      && (r.end == PollsExhausted ==>
            forall k :: 0 <= k < |polls| ==> !polls[k].stop && (polls[k].snap.None? || !IsFinal(polls[k].snap.value)))
    decreases |polls|
  {
    if polls != [] && !polls[0].stop && (polls[0].snap.None? || !IsFinal(polls[0].snap.value)) {
      StreamEndReasons(mid, polls[1..]);
      var r := StreamFrom(mid, polls);
      assert r.end == StreamFrom(mid, polls[1..]).end;
      if r.end == StopRequested {
        var k :| 0 <= k < |polls| - 1 && polls[1..][k].stop;
        assert polls[k + 1].stop;
      } else if r.end == MatchFinished {
        var k :| 0 <= k < |polls| - 1 && !polls[1..][k].stop && polls[1..][k].snap.Some? && IsFinal(polls[1..][k].snap.value);
        assert polls[1..][k] == polls[k + 1];
      } else {
        assert forall k :: 1 <= k < |polls| ==> polls[k] == polls[1..][k - 1];
      }
    }
  }

  /** Only the last row can carry a minute of 100 or more, and a stream that ends because the
      match finished ends with a row. */
  lemma {:induction false} OnlyLastRowFinal<K>(mid: K, polls: seq<Poll>)
    ensures var r := StreamFrom(mid, polls);
      && (forall i :: 0 <= i < |r.rows| - 1 ==> r.rows[i].minute.None? || r.rows[i].minute.value < 100)
      && (r.end == MatchFinished ==> r.rows != [])
      && (forall i :: 0 <= i < |r.rows| ==> r.rows[i].matchId == mid)
    decreases |polls|
  {
    if polls != [] && !polls[0].stop {
      OnlyLastRowFinal(mid, polls[1..]);
      var rest := StreamFrom(mid, polls[1..]);
      if polls[0].snap.Some? && !IsFinal(polls[0].snap.value) {
        var rows := [EmitRow(mid, polls[0].snap.value)] + rest.rows;
        assert forall i :: 1 <= i < |rows| ==> rows[i] == rest.rows[i - 1];
      }
    }
  }

  // ---------------------------------------------------------------------------------------------
  // _run_task
  // ---------------------------------------------------------------------------------------------

  /** A submitted task: its match id and the optional team names. */
  datatype TaskInput<K> = TaskInput(matchId: K, home: Option<string>, away: Option<string>)

  /** `task.get(...) or ""`. */
  function NameOf(n: Option<string>): string {
    if n.Some? then n.value else ""
  }

  datatype TaskOutcome<K> = Skipped | NotFound | Streamed(stream: Stream<K>)

  /** `_run_task`: skip when both names are empty, look for the match with the worker's scan, and
      stream its statistics once the page is open. `rounds` are the polls of the scan, `polls`
      those of the streaming loop. */
  method RunTask<K>(ratio: (string, string) -> real, task: TaskInput<K>, rounds: seq<Round>, polls: seq<Poll>)
    returns (outcome: TaskOutcome<K>)
    ensures NameOf(task.home) == "" && NameOf(task.away) == "" ==> outcome == Skipped
    ensures !(NameOf(task.home) == "" && NameOf(task.away) == "") ==>
      var target := ActiveScanResult(WorkerConfig, Query(ratio, NameOf(task.home), NameOf(task.away)), rounds).href;
      outcome == if Truthy(target) then Streamed(StreamFrom(task.matchId, polls)) else NotFound
  {
    var home := NameOf(task.home);
    var away := NameOf(task.away);
    if home == "" && away == "" {
      return Skipped;
    }
    var found, target := FindAndOpenMatch(WorkerConfig, Query(ratio, home, away), rounds);
    if !found {
      return NotFound;
    }
    var rows, end := RunStream(task.matchId, polls);
    outcome := Streamed(Stream(rows, end));
  }
}

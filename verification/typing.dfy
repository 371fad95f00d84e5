/** The typing job (app.py): the record a job keeps, its creation, and `typing_worker`, which
    sends the lines one by one. The chat API call, the cancellation flag written by `/stop`
    and `time.sleep` are replaced by oracles and events:
      - `results[i]` is what the chat API call for line `i` did (a `SendResult`);
      - `stopSeen[k]` says the status read at loop boundary `k` was "stopped" (an external
        `/stop` landed before it); `stopSeen[|lines|]` is the read after the loop;
      - a pause between lines is recorded as a `Slept` event. */
module Typing {
  import opened Base

  datatype JobStatus = Starting | Running | Completed | Error | Stopped

  /** The record stored for a job; `error` is present only after a failed send. */
  datatype Job = Job(
    status: JobStatus,
    total: nat,
    current: nat,
    lastMessage: string,
    delay: int,
    error: Option<string>)

  /** The error text a failed send leaves in the record. */
  const SendFailedText: string := "Failed to send. Check token/channel."

  /** What the worker did, in order: a call of the chat API with a line (whatever it
      returned), or a pause. */
  datatype Event = Sent(text: string) | Slept(seconds: int)

  /** What one call of `send_discord_message` did: the reply had status 200, the reply had
      another status, or `requests.post` raised (a connection error, say). A call that never
      returns leaves the record as a raising one does, so `Raised` stands for it too. */
  datatype SendResult = Delivered | Refused | Raised

  /** The largest number of seconds `time.sleep` accepts: CPython converts the argument to
      nanoseconds in a signed 64-bit integer and raises OverflowError beyond it. */
  const MaxSleepSeconds: int := 9223372036

  /** `time.sleep(seconds)` raises: ValueError for a negative argument, OverflowError for
      one too large to convert. */
  predicate SleepRaises(seconds: int) {
    seconds < 0 || seconds > MaxSleepSeconds
  }

  /** Why the worker stopped: it ran out of lines, a send was refused, a send raised, it saw
      a stop, or `time.sleep` raised. After a raise the worker thread dies and nothing more
      is written to the record. */
  datatype Halt = AllSent | SendFailed | SendRaised | Cancelled | SleepRaised

  /** A whole worker run: the final record, the events, and every record state the worker
      wrote (the start state, then one per line it began sending). */
  datatype Run = Run(job: Job, events: seq<Event>, history: seq<Job>, halt: Halt)

  /** The record created for a fresh job over `lines` (the `/start` handler): not yet
      started, nothing sent, and a total that counts the lines. */
  function NewJob(lines: seq<string>, delay: int): (job: Job)
    ensures job.status == Starting && job.error.None?
    ensures job.current == 0 <= job.total == |lines|
    ensures job.lastMessage == "" && job.delay == delay
  {
    Job(Starting, |lines|, 0, "", delay, None)
  }

  /** The texts of the `Sent` events, in order. */
  function Sends(events: seq<Event>): seq<string> {
    if |events| == 0 then []
    else (if events[0].Sent? then [events[0].text] else []) + Sends(events[1..])
  }

  /** The number of `Slept` events. */
  function Sleeps(events: seq<Event>): nat {
    if |events| == 0 then 0
    else (if events[0].Slept? then 1 else 0) + Sleeps(events[1..])
  }

  lemma {:induction false} SendsAppend(a: seq<Event>, b: seq<Event>)
    ensures Sends(a + b) == Sends(a) + Sends(b)
    ensures Sleeps(a + b) == Sleeps(a) + Sleeps(b)
    decreases |a|
  {
    if |a| == 0 {
      assert a + b == b;
    } else {
      assert (a + b)[0] == a[0];
      assert (a + b)[1..] == a[1..] + b;
      SendsAppend(a[1..], b);
    }
  }

  /** One send, optionally followed by a pause, contributes exactly that line. */
  lemma SendThenPause(line: string, delay: int, pause: bool)
    ensures var head := if pause then [Sent(line), Slept(delay)] else [Sent(line)];
      Sends(head) == [line]
  {
    var tail: seq<Event> := [Slept(delay)];
    assert tail[1..] == [];
    assert Sends(tail) == [];
    assert [Sent(line), Slept(delay)][1..] == tail;
    assert [Sent(line)][1..] == [];
  }

  /** The oracles cover every line and every status read. */
  predicate OraclesFit(lines: seq<string>, results: seq<SendResult>, stopSeen: seq<bool>) {
    |results| == |lines| && |stopSeen| == |lines| + 1
  }

  /** What the worker writes before the loop. */
  function Begin(job: Job): Job {
    job.(status := Running, current := 0, lastMessage := "")
  }

  /** The loop of `typing_worker` from index `i` on, with the record as it stands there. */
  function Loop(lines: seq<string>, delay: int, results: seq<SendResult>, stopSeen: seq<bool>, job: Job, i: nat): (r: Run)
    requires OraclesFit(lines, results, stopSeen) && i <= |lines|
    ensures |r.history| <= |lines| - i
    ensures forall k :: 0 <= k < |r.history| ==>
      r.history[k] == job.(current := i + k + 1, lastMessage := lines[i + k])
    ensures r.job.total == job.total && r.job.delay == job.delay
    ensures r.job.current == if |r.history| == 0 then job.current else i + |r.history|
    decreases |lines| - i
  {
    if i == |lines| then
      Run(job.(status := if stopSeen[i] then Stopped else Completed), [], [], AllSent)
    else if stopSeen[i] then
      Run(job.(status := Stopped), [], [], Cancelled)
    else
      var sending := job.(current := i + 1, lastMessage := lines[i]);
      if results[i].Refused? then
        Run(sending.(status := Error, error := Some(SendFailedText)), [Sent(lines[i])], [sending], SendFailed)
      else if results[i].Raised? then
        Run(sending, [Sent(lines[i])], [sending], SendRaised)
      else if i < |lines| - 1 && SleepRaises(delay) then
        Run(sending, [Sent(lines[i])], [sending], SleepRaised)
      else
        var rest := Loop(lines, delay, results, stopSeen, sending, i + 1);
        var head := if i < |lines| - 1 then [Sent(lines[i]), Slept(delay)] else [Sent(lines[i])];
        var history := [sending] + rest.history;
        assert forall k :: 1 <= k < |history| ==> history[k] == rest.history[k - 1];
        Run(rest.job, head + rest.events, history, rest.halt)
  }

  /** The lines a loop sends from index `i` are the next lines of the input, one for every
      state it wrote. */
  lemma {:induction false} LoopSends(lines: seq<string>, delay: int, results: seq<SendResult>, stopSeen: seq<bool>, job: Job, i: nat)
    requires OraclesFit(lines, results, stopSeen) && i <= |lines|
    ensures var r := Loop(lines, delay, results, stopSeen, job, i);
      Sends(r.events) == lines[i..i + |r.history|]
    decreases |lines| - i
  {
    if i < |lines| && !stopSeen[i] {
      var sending := job.(current := i + 1, lastMessage := lines[i]);
      var pause := i < |lines| - 1;
      SendThenPause(lines[i], delay, false);
      if results[i].Delivered? && !(i < |lines| - 1 && SleepRaises(delay)) {
        var rest := Loop(lines, delay, results, stopSeen, sending, i + 1);
        var head := if pause then [Sent(lines[i]), Slept(delay)] else [Sent(lines[i])];
        LoopSends(lines, delay, results, stopSeen, sending, i + 1);
        SendThenPause(lines[i], delay, pause);
        SendsAppend(head, rest.events);
        assert lines[i..i + 1 + |rest.history|] == [lines[i]] + lines[i + 1..i + 1 + |rest.history|];
      }
    }
  }

  /** `typing_worker`: mark the job running, then walk the lines. Every state it writes has
      `current` equal to the number of lines begun, and what it sent is exactly that many
      lines from the front of the list, in order. */
  function Work(job: Job, lines: seq<string>, delay: int, results: seq<SendResult>, stopSeen: seq<bool>): (r: Run)
    requires OraclesFit(lines, results, stopSeen)
    ensures 1 <= |r.history| <= |lines| + 1
    ensures forall k :: 0 <= k < |r.history| ==>
      && r.history[k].status == Running
      && r.history[k].current == k
      && r.history[k].total == job.total
    ensures forall k :: 1 <= k < |r.history| ==> r.history[k].lastMessage == lines[k - 1]
    ensures Sends(r.events) == lines[..|r.history| - 1]
    ensures r.job.current == |r.history| - 1
    ensures r.job.total == job.total && r.job.delay == job.delay
  {
    var start := Begin(job);
    var rest := Loop(lines, delay, results, stopSeen, start, 0);
    LoopSends(lines, delay, results, stopSeen, start, 0);
    Run(rest.job, rest.events, [start] + rest.history, rest.halt)
  }

  /** The events of an undisturbed run: each line sent, with a pause between two lines and
      none after the last. */
  function Schedule(lines: seq<string>, delay: int): seq<Event> {
    if |lines| == 0 then []
    else if |lines| == 1 then [Sent(lines[0])]
    else [Sent(lines[0]), Slept(delay)] + Schedule(lines[1..], delay)
  }

  /** An undisturbed schedule sends every line in order, pauses one time fewer than it sends,
      and ends with a send. */
  lemma {:induction false} ScheduleShape(lines: seq<string>, delay: int)
    requires |lines| > 0
    ensures Sends(Schedule(lines, delay)) == lines
    ensures Sleeps(Schedule(lines, delay)) == |lines| - 1
    ensures Schedule(lines, delay)[|Schedule(lines, delay)| - 1] == Sent(lines[|lines| - 1])
    decreases |lines|
  {
    if |lines| > 1 {
      ScheduleShape(lines[1..], delay);
      SendsAppend([Sent(lines[0]), Slept(delay)], Schedule(lines[1..], delay));
    }
  }

  /** The worker's first `count` pauses all return: none is attempted, or `time.sleep`
      accepts the delay. */
  predicate PausesSucceed(delay: int, count: int) {
    count <= 0 || !SleepRaises(delay)
  }

  /** Every send is delivered and nothing stops the job. */
  predicate Undisturbed(results: seq<SendResult>, stopSeen: seq<bool>, from: nat) {
    && (forall k :: from <= k < |results| ==> results[k] == Delivered)
    && (forall k :: from <= k < |stopSeen| ==> !stopSeen[k])
  }

  lemma {:induction false} LoopUndisturbed(lines: seq<string>, delay: int, results: seq<SendResult>, stopSeen: seq<bool>, job: Job, i: nat)
    requires OraclesFit(lines, results, stopSeen) && i < |lines|
    requires Undisturbed(results, stopSeen, i) && PausesSucceed(delay, |lines| - 1 - i)
    ensures var r := Loop(lines, delay, results, stopSeen, job, i);
      && r.halt == AllSent
      && r.job == job.(status := Completed, current := |lines|, lastMessage := lines[|lines| - 1])
      && r.events == Schedule(lines[i..], delay)
    decreases |lines| - i
  {
    var sending := job.(current := i + 1, lastMessage := lines[i]);
    if i + 1 < |lines| {
      LoopUndisturbed(lines, delay, results, stopSeen, sending, i + 1);
      assert lines[i..][1..] == lines[i + 1..];
    }
  }

  /** All sends are delivered, no stop arrives and every pause between lines returns:
      the job completes with every line sent in input order, `current == total`, the last
      line as `lastMessage`, and exactly one pause between consecutive lines. */
  lemma WorkAllSucceed(job: Job, lines: seq<string>, delay: int, results: seq<SendResult>, stopSeen: seq<bool>)
    requires OraclesFit(lines, results, stopSeen) && |lines| > 0
    requires Undisturbed(results, stopSeen, 0) && PausesSucceed(delay, |lines| - 1)
    ensures var r := Work(job, lines, delay, results, stopSeen);
      && r.halt == AllSent
      && r.job.status == Completed
      && r.job.current == |lines|
      && r.job.lastMessage == lines[|lines| - 1]
      && r.events == Schedule(lines, delay)
      && Sends(r.events) == lines
      && Sleeps(r.events) == |lines| - 1
  {
    LoopUndisturbed(lines, delay, results, stopSeen, Begin(job), 0);
    assert lines[0..] == lines;
    ScheduleShape(lines, delay);
  }

  lemma {:induction false} LoopCompletedOnlyIf(lines: seq<string>, delay: int, results: seq<SendResult>, stopSeen: seq<bool>, job: Job, i: nat)
    requires OraclesFit(lines, results, stopSeen) && i <= |lines| && job.status == Running
    ensures Loop(lines, delay, results, stopSeen, job, i).job.status == Completed ==>
      Undisturbed(results, stopSeen, i) && PausesSucceed(delay, |lines| - 1 - i)
    decreases |lines| - i
  {
    if i < |lines| && !stopSeen[i] && results[i].Delivered? && !(i < |lines| - 1 && SleepRaises(delay)) {
      LoopCompletedOnlyIf(lines, delay, results, stopSeen, job.(current := i + 1, lastMessage := lines[i]), i + 1);
    }
  }

  /** A job completes exactly when every send is delivered, every pause returns and no
      stop is read, the read after the last line included. */
  lemma WorkCompletesIff(job: Job, lines: seq<string>, delay: int, results: seq<SendResult>, stopSeen: seq<bool>)
    requires OraclesFit(lines, results, stopSeen)
    ensures Work(job, lines, delay, results, stopSeen).job.status == Completed <==>
      Undisturbed(results, stopSeen, 0) && PausesSucceed(delay, |lines| - 1)
  {
    LoopCompletedOnlyIf(lines, delay, results, stopSeen, Begin(job), 0);
    if |lines| > 0 && Undisturbed(results, stopSeen, 0) && PausesSucceed(delay, |lines| - 1) {
      WorkAllSucceed(job, lines, delay, results, stopSeen);
    }
  }

  /** The record after the first undelivered send, at index `fail`: an error record for a
      refused send, the sending state untouched for one that raised. */
  function Unsent(job: Job, lines: seq<string>, result: SendResult, fail: nat): Job
    requires fail < |lines|
  {
    var sending := job.(current := fail + 1, lastMessage := lines[fail]);
    if result.Refused? then sending.(status := Error, error := Some(SendFailedText)) else sending
  }

  lemma {:induction false} LoopFirstFailure(lines: seq<string>, delay: int, results: seq<SendResult>, stopSeen: seq<bool>, job: Job, i: nat, fail: nat)
    requires OraclesFit(lines, results, stopSeen) && i <= fail < |lines|
    requires !results[fail].Delivered? && PausesSucceed(delay, fail - i)
    requires forall k :: i <= k < fail ==> results[k] == Delivered
    requires forall k :: i <= k <= fail ==> !stopSeen[k]
    ensures var r := Loop(lines, delay, results, stopSeen, job, i);
      && r.halt == (if results[fail].Refused? then SendFailed else SendRaised)
      && r.job == Unsent(job, lines, results[fail], fail)
    decreases |lines| - i
  {
    if i < fail {
      LoopFirstFailure(lines, delay, results, stopSeen, job.(current := i + 1, lastMessage := lines[i]), i + 1, fail);
    }
  }

  /** The first undelivered send, at index `fail`, is refused after every earlier pause
      returned: the job ends in error with
      the fixed text, `current == fail + 1`, the failing line as `lastMessage`, and exactly
      the lines up to and including it were sent. */
  lemma WorkFirstFailure(job: Job, lines: seq<string>, delay: int, results: seq<SendResult>, stopSeen: seq<bool>, fail: nat)
    requires OraclesFit(lines, results, stopSeen) && fail < |lines|
    requires results[fail] == Refused && PausesSucceed(delay, fail)
    requires forall k :: 0 <= k < fail ==> results[k] == Delivered
    requires forall k :: 0 <= k <= fail ==> !stopSeen[k]
    ensures var r := Work(job, lines, delay, results, stopSeen);
      && r.halt == SendFailed
      && r.job.status == Error
      && r.job.error == Some(SendFailedText)
      && r.job.current == fail + 1
      && r.job.lastMessage == lines[fail]
      && Sends(r.events) == lines[..fail + 1]
  {
    LoopFirstFailure(lines, delay, results, stopSeen, Begin(job), 0, fail);
  }

  /** The first undelivered send, at index `fail`, raises after every earlier pause
      returned: the worker thread dies and the
      record stays `Running` with `current == fail + 1`, the line as `lastMessage` and its
      error untouched; exactly the lines up to and including it were sent. */
  lemma WorkSendRaisedStalls(job: Job, lines: seq<string>, delay: int, results: seq<SendResult>, stopSeen: seq<bool>, fail: nat)
    requires OraclesFit(lines, results, stopSeen) && fail < |lines|
    requires results[fail] == Raised && PausesSucceed(delay, fail)
    requires forall k :: 0 <= k < fail ==> results[k] == Delivered
    requires forall k :: 0 <= k <= fail ==> !stopSeen[k]
    ensures var r := Work(job, lines, delay, results, stopSeen);
      && r.halt == SendRaised
      && r.job.status == Running
      && r.job.error == job.error
      && r.job.current == fail + 1
      && r.job.lastMessage == lines[fail]
      && Sends(r.events) == lines[..fail + 1]
  {
    LoopFirstFailure(lines, delay, results, stopSeen, Begin(job), 0, fail);
  }

  lemma {:induction false} LoopSeesStop(lines: seq<string>, delay: int, results: seq<SendResult>, stopSeen: seq<bool>, job: Job, i: nat, stop: nat)
    requires OraclesFit(lines, results, stopSeen) && i <= stop <= |lines|
    requires stopSeen[stop] && job.status == Running
    ensures var r := Loop(lines, delay, results, stopSeen, job, i);
      && |r.history| <= stop - i
      && r.job.status != Completed
    decreases |lines| - i
  {
    if i < stop && !stopSeen[i] && results[i].Delivered? && !(i < |lines| - 1 && SleepRaises(delay)) {
      LoopSeesStop(lines, delay, results, stopSeen, job.(current := i + 1, lastMessage := lines[i]), i + 1, stop);
    }
  }

  /** Once the status reads "stopped" at boundary `stop`, no line from index `stop` on is
      sent, and the worker never turns the job into `Completed`. */
  lemma WorkHonoursStop(job: Job, lines: seq<string>, delay: int, results: seq<SendResult>, stopSeen: seq<bool>, stop: nat)
    requires OraclesFit(lines, results, stopSeen) && stop <= |lines|
    requires stopSeen[stop]
    ensures var r := Work(job, lines, delay, results, stopSeen);
      && |Sends(r.events)| <= stop
      && r.job.status != Completed
  {
    LoopSeesStop(lines, delay, results, stopSeen, Begin(job), 0, stop);
  }

  lemma {:induction false} LoopFirstStop(lines: seq<string>, delay: int, results: seq<SendResult>, stopSeen: seq<bool>, job: Job, i: nat, stop: nat)
    requires OraclesFit(lines, results, stopSeen) && i <= stop <= |lines|
    requires stopSeen[stop] && PausesSucceed(delay, (if stop < |lines| then stop else |lines| - 1) - i)
    requires forall k :: i <= k < stop ==> results[k] == Delivered && !stopSeen[k]
    ensures var r := Loop(lines, delay, results, stopSeen, job, i);
      && r.job.status == Stopped
      && |r.history| == stop - i
      && r.halt == (if stop < |lines| then Cancelled else AllSent)
    decreases |lines| - i
  {
    if i < stop {
      LoopFirstStop(lines, delay, results, stopSeen, job.(current := i + 1, lastMessage := lines[i]), i + 1, stop);
    }
  }

  /** The first stop is seen at boundary `stop`, and every send and pause before it
      succeeded: the job ends `Stopped` with exactly the first `stop`
      lines sent and `current == stop`. */
  lemma WorkFirstStop(job: Job, lines: seq<string>, delay: int, results: seq<SendResult>, stopSeen: seq<bool>, stop: nat)
    requires OraclesFit(lines, results, stopSeen) && stop <= |lines|
    requires stopSeen[stop] && PausesSucceed(delay, if stop < |lines| then stop else |lines| - 1)
    requires forall k :: 0 <= k < stop ==> results[k] == Delivered && !stopSeen[k]
    ensures var r := Work(job, lines, delay, results, stopSeen);
      && r.job.status == Stopped
      && r.job.current == stop
      && Sends(r.events) == lines[..stop]
  {
    LoopFirstStop(lines, delay, results, stopSeen, Begin(job), 0, stop);
  }

  /** A delay `time.sleep` rejects (negative, or too large): after the first of two or more
      lines is sent, the sleep raises, the worker thread ends, and the record stays
      `Running` with `current == 1`. */
  lemma WorkSleepRaisedStalls(job: Job, lines: seq<string>, delay: int, results: seq<SendResult>, stopSeen: seq<bool>)
    requires OraclesFit(lines, results, stopSeen) && |lines| >= 2
    requires results[0] == Delivered && !stopSeen[0] && SleepRaises(delay)
    ensures var r := Work(job, lines, delay, results, stopSeen);
      && r.halt == SleepRaised
      && r.job.status == Running
      && r.job.current == 1
      && Sends(r.events) == [lines[0]]
  {
  }

  /** `current` never decreases and never exceeds `total` over the states a worker writes,
      for a job created over the same lines. */
  lemma WorkProgressBounded(lines: seq<string>, delay: int, results: seq<SendResult>, stopSeen: seq<bool>)
    requires OraclesFit(lines, results, stopSeen)
    ensures var r := Work(NewJob(lines, delay), lines, delay, results, stopSeen);
      var states := r.history + [r.job];
      && (forall a, b :: 0 <= a <= b < |states| ==> states[a].current <= states[b].current)
      && (forall a :: 0 <= a < |states| ==> states[a].current <= states[a].total == |lines|)
  {
    var r := Work(NewJob(lines, delay), lines, delay, results, stopSeen);
    var states := r.history + [r.job];
    forall a | 0 <= a < |states|
      ensures states[a].current == if a < |r.history| then a else |r.history| - 1
    {
    }
  }

  /** Allowed status changes: starting → running → {completed | error | stopped}. */
  predicate Transition(from: JobStatus, to: JobStatus) {
    || (from == Starting && to == Running)
    || (from == Running && to in {Running, Completed, Error, Stopped})
  }

  /** The worker thread died in a raise, so its record is never finished. */
  predicate Stalled(halt: Halt) {
    halt == SleepRaised || halt == SendRaised
  }

  /** The status moves along the job's lifecycle: from the created record through the
      states the worker writes to the final one. A run ends with the status still
      `Running` exactly when a sleep or a send raised. */
  lemma WorkFollowsLifecycle(lines: seq<string>, delay: int, results: seq<SendResult>, stopSeen: seq<bool>)
    requires OraclesFit(lines, results, stopSeen)
    ensures var r := Work(NewJob(lines, delay), lines, delay, results, stopSeen);
      var states := [NewJob(lines, delay)] + r.history + [r.job];
      && (forall k :: 0 <= k < |states| - 1 ==> Transition(states[k].status, states[k + 1].status))
      && (r.job.status == Running <==> Stalled(r.halt))
  {
    var job := NewJob(lines, delay);
    var r := Work(job, lines, delay, results, stopSeen);
    LoopFinalStatus(lines, delay, results, stopSeen, Begin(job), 0);
    var states := [job] + r.history + [r.job];
    forall k | 0 <= k < |states| - 1
      ensures Transition(states[k].status, states[k + 1].status)
    {
      if k == 0 {
        assert states[1] == r.history[0];
      } else if k < |r.history| {
        assert states[k] == r.history[k - 1] && states[k + 1] == r.history[k];
      } else {
        assert states[k] == r.history[k - 1] && states[k + 1] == r.job;
      }
    }
  }

  lemma {:induction false} LoopFinalStatus(lines: seq<string>, delay: int, results: seq<SendResult>, stopSeen: seq<bool>, job: Job, i: nat)
    requires OraclesFit(lines, results, stopSeen) && i <= |lines|
    requires job.status == Running
    ensures var r := Loop(lines, delay, results, stopSeen, job, i);
      && r.job.status in {Running, Completed, Error, Stopped}
      && (r.job.status == Running <==> Stalled(r.halt))
    decreases |lines| - i
  {
    if i < |lines| && !stopSeen[i] && results[i].Delivered? && !(i < |lines| - 1 && SleepRaises(delay)) {
      LoopFinalStatus(lines, delay, results, stopSeen, job.(current := i + 1, lastMessage := lines[i]), i + 1);
    }
  }

  /** Three lines, no delay, every send delivered: completed, three lines, last "c". */
  lemma ScenarioAllSent()
    ensures var r := Work(NewJob(["a", "b", "c"], 0), ["a", "b", "c"], 0, [Delivered, Delivered, Delivered], [false, false, false, false]);
      r.job.status == Completed && r.job.current == 3 && r.job.lastMessage == "c"
  {
    WorkAllSucceed(NewJob(["a", "b", "c"], 0), ["a", "b", "c"], 0, [Delivered, Delivered, Delivered], [false, false, false, false]);
  }

  /** The same lines with the second send refused: error, two lines begun, last "b". */
  lemma ScenarioSecondFails()
    ensures var r := Work(NewJob(["a", "b", "c"], 0), ["a", "b", "c"], 0, [Delivered, Refused, Delivered], [false, false, false, false]);
      r.job.status == Error && r.job.current == 2 && r.job.lastMessage == "b"
  {
    WorkFirstFailure(NewJob(["a", "b", "c"], 0), ["a", "b", "c"], 0, [Delivered, Refused, Delivered], [false, false, false, false], 1);
  }
}

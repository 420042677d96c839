/** Thumbnails: requestors that wait for a file share one worker, and at most two workers are busy at a
    time (data/data_image/data_image.go). Every section under a lock is one step. */
module Thumbnails {
  import opened DataRequest
  import Runs

  // a requestor's own channel, by number
  type Requestor = nat

  // a worker: waiting for admission, busy, done with informing its requestors, or with its failure noted
  datatype Phase = Waiting | Working | Drained(error: bool) | Noted

  datatype Worker = Worker(file: Id, phase: Phase)

  const MAX_WORKERS := 2

  // passed: requests behind the check for earlier failures, with their file
  // channels: everything that was ever sent to a requestor; answers: what it took from its channel
  // asked: the file of a requestor's latest request that got behind the check; outcomes: of workers, by file
  datatype State = State(
    failed: set<Id>,
    queue: map<Id, seq<Requestor>>,
    workChan: nat,
    workers: map<nat, Worker>,
    spawned: nat,
    passed: map<Requestor, Id>,
    channels: map<Requestor, seq<bool>>,
    answers: map<Requestor, bool>,
    asked: map<Requestor, Id>,
    outcomes: set<(Id, bool)>)

  const START := State({}, map[], 0, map[], 0, map[], map[], map[], map[], {})

  // ---- the steps

  function Pass(s: State, r: Requestor, file: Id): State {
    if file in s.failed then s else s.(passed := s.passed[r := file], asked := s.asked[r := file])
  }

  // behind the check: start a worker if there is none for the file, and queue up if the result is wanted
  function Enqueue(s: State, r: Requestor, wait: bool): State
    requires r in s.passed
  {
    var file := s.passed[r];
    var queue := if file in s.queue then s.queue else s.queue[file := []];
    var workers := if file in s.queue then s.workers else s.workers[s.spawned := Worker(file, Waiting)];
    var spawned := if file in s.queue then s.spawned else s.spawned + 1;
    if !wait then
      s.(queue := queue, workers := workers, spawned := spawned, passed := s.passed - {r})
    else
      s.(queue := queue[file := queue[file] + [r]], workers := workers, spawned := spawned,
         passed := s.passed - {r}, channels := s.channels[r := []])
  }

  function Admit(s: State, w: nat): State
    requires w in s.workers
  {
    s.(workChan := s.workChan + 1, workers := s.workers[w := s.workers[w].(phase := Working)])
  }

  function SendAll(channels: map<Requestor, seq<bool>>, rs: seq<Requestor>, error: bool): map<Requestor, seq<bool>> {
    map r | r in channels :: if r in rs then channels[r] + [error] else channels[r]
  }

  lemma OneMoreSent(channels: map<Requestor, seq<bool>>, rs: seq<Requestor>, r: Requestor, error: bool)
    requires r in channels && channels[r] == [] && r !in rs
    ensures SendAll(channels, rs, error)[r] == []
    ensures SendAll(channels, rs + [r], error) == SendAll(channels, rs, error)[r := [error]]
  {
    assert [] + [error] == [error];
  }

  function Drain(s: State, w: nat, error: bool): State
    requires w in s.workers
  {
    var file := s.workers[w].file;
    s.(queue := s.queue - {file},
       channels := if file in s.queue then SendAll(s.channels, s.queue[file], error) else s.channels,
       workers := s.workers[w := s.workers[w].(phase := Drained(error))],
       outcomes := s.outcomes + {(file, error)})
  }

  function NoteFailure(s: State, w: nat): State
    requires w in s.workers
  {
    s.(failed := s.failed + {s.workers[w].file}, workers := s.workers[w := s.workers[w].(phase := Noted)])
  }

  function Release(s: State, w: nat): State
    requires s.workChan > 0
  {
    s.(workChan := s.workChan - 1, workers := s.workers - {w})
  }

  function Receive(s: State, r: Requestor): State
    requires r in s.channels && s.channels[r] != []
  {
    s.(answers := s.answers[r := s.channels[r][0]])
  }

  // ---- what holds in between

  predicate Undrained(s: State, w: nat, file: Id) {
    w in s.workers && s.workers[w].file == file && (s.workers[w].phase.Waiting? || s.workers[w].phase.Working?)
  }

  // every entry has its one worker, and every such worker has its entry
  ghost predicate OneWorkerPerEntry(s: State) {
    && (forall file :: file in s.queue ==> exists w :: Undrained(s, w, file))
    && (forall w, file :: Undrained(s, w, file) ==> file in s.queue)
    && (forall v, w, file :: Undrained(s, v, file) && Undrained(s, w, file) ==> v == w)
    && (forall w :: w in s.workers ==> w < s.spawned)
  }

  predicate Queued(s: State, r: Requestor) {
    exists file :: file in s.queue && r in s.queue[file]
  }

  // a requestor waits in one place of the queue with nothing sent to it
  ghost predicate QueuedOnce(s: State) {
    && (forall file, r :: file in s.queue && r in s.queue[file] ==> r in s.channels && s.channels[r] == [])
    && (forall file, i, j :: file in s.queue && 0 <= i < j < |s.queue[file]| ==> s.queue[file][i] != s.queue[file][j])
    && (forall f, g, r :: f in s.queue && g in s.queue && r in s.queue[f] && r in s.queue[g] ==> f == g)
  }

  // or was sent one result
  ghost predicate SentOnce(s: State) {
    && (forall r :: r in s.channels && !Queued(s, r) ==> |s.channels[r]| == 1)
    && (forall r :: r in s.answers ==> r in s.channels && s.channels[r] == [s.answers[r]])
    && (forall r :: r in s.passed ==> r !in s.channels)
  }

  ghost predicate OneResultEach(s: State) {
    QueuedOnce(s) && SentOnce(s)
  }

  function Busy(s: State): set<nat> {
    set w | w in s.workers && !s.workers[w].phase.Waiting?
  }

  ghost predicate SlotsMatch(s: State) {
    s.workChan == |Busy(s)| <= MAX_WORKERS
  }

  ghost predicate Consistent(s: State) {
    OneWorkerPerEntry(s) && OneResultEach(s) && SlotsMatch(s)
  }

  // ---- the program's own sections

  class Imager {
    var fileIdMapFailed: set<Id>
    var fileIdMapQueue: map<Id, seq<Requestor>>
    var workChan: nat
    var channels: map<Requestor, seq<bool>>
    ghost var workers: map<nat, Worker>
    ghost var spawned: nat
    ghost var passed: map<Requestor, Id>
    ghost var answers: map<Requestor, bool>
    ghost var asked: map<Requestor, Id>
    ghost var outcomes: set<(Id, bool)>

    constructor ()
      ensures Now() == START
    {
      fileIdMapFailed, fileIdMapQueue, workChan, channels := {}, map[], 0, map[];
      workers, spawned, passed, answers := map[], 0, map[], map[];
      asked, outcomes := map[], {};
    }

    ghost function Now(): State
      reads this
    {
      State(fileIdMapFailed, fileIdMapQueue, workChan, workers, spawned, passed, channels, answers, asked, outcomes)
    }

    // CreateThumbnail up to the check for earlier failures
    method CheckFailedBefore(ghost r: Requestor, fileId: Id) returns (goOn: bool)
      modifies this
      ensures Now() == Pass(old(Now()), r, fileId)
      ensures goOn <==> fileId !in fileIdMapFailed
    {
      if fileId in fileIdMapFailed {
        return false;
      }
      passed, asked := passed[r := fileId], asked[r := fileId];
      return true;
    }

    // the rest of CreateThumbnail, up to waiting for the result
    method CreateThumbnail(r: Requestor, fileId: Id, waitForResult: bool)
      requires r in passed && passed[r] == fileId
      modifies this
      ensures Now() == Enqueue(old(Now()), r, waitForResult)
    {
      passed := passed - {r};
      if fileId !in fileIdMapQueue {
        fileIdMapQueue := fileIdMapQueue[fileId := []];
        workers, spawned := workers[spawned := Worker(fileId, Waiting)], spawned + 1;
      }
      if !waitForResult {
        return;
      }
      channels := channels[r := []];
      fileIdMapQueue := fileIdMapQueue[fileId := fileIdMapQueue[fileId] + [r]];
    }

    // workChan <- true goes through as long as the channel has room
    method RequestWorker(ghost w: nat)
      requires workChan < MAX_WORKERS
      requires w in workers && workers[w].phase.Waiting?
      modifies this
      ensures Now() == Admit(old(Now()), w)
    {
      workChan := workChan + 1;
      workers := workers[w := workers[w].(phase := Working)];
    }

    // A send on a requestor's channel would block if something were in it already.
    method Send(r: Requestor, error: bool)
      requires r in channels && channels[r] == []
      modifies this`channels
      ensures channels == old(channels)[r := [error]]
    {
      assert channels[r] + [error] == [error];
      channels := channels[r := channels[r] + [error]];
    }

    method SendToAll(waiting: seq<Requestor>, error: bool)
      requires forall r :: r in waiting ==> r in channels && channels[r] == []
      requires forall i, j :: 0 <= i < j < |waiting| ==> waiting[i] != waiting[j]
      modifies this`channels
      ensures channels == SendAll(old(channels), waiting, error)
    {
      for i := 0 to |waiting|
        invariant channels == SendAll(old(channels), waiting[..i], error)
      {
        assert waiting[..i + 1] == waiting[..i] + [waiting[i]];
        assert waiting[i] in waiting && waiting[i] !in waiting[..i];
        OneMoreSent(old(channels), waiting[..i], waiting[i], error);
        Send(waiting[i], error);
      }
      assert waiting[..|waiting|] == waiting;
    }

    // the deferred section under the queue's lock
    method InformRequestors(ghost w: nat, fileId: Id, returnErr: bool)
      requires Consistent(Now()) && w in workers && workers[w] == Worker(fileId, Working)
      modifies this
      ensures Now() == Drain(old(Now()), w, returnErr)
    {
      workers := workers[w := workers[w].(phase := Drained(returnErr))];
      outcomes := outcomes + {(fileId, returnErr)};
      if fileId in fileIdMapQueue {
        SendToAll(fileIdMapQueue[fileId], returnErr);
        fileIdMapQueue := fileIdMapQueue - {fileId};
      }
    }

    method RegisterFailure(ghost w: nat, fileId: Id)
      requires w in workers && workers[w] == Worker(fileId, Drained(true))
      modifies this
      ensures Now() == NoteFailure(old(Now()), w)
    {
      fileIdMapFailed := fileIdMapFailed + {fileId};
      workers := workers[w := workers[w].(phase := Noted)];
    }

    // <-workChan
    method FreeWorker(ghost w: nat)
      requires workChan > 0
      modifies this
      ensures Now() == Release(old(Now()), w)
    {
      workChan := workChan - 1;
      workers := workers - {w};
    }
  }

  // ---- any interleaving

  datatype Event =
    | Requested(r: Requestor, file: Id)
    | Enqueued(r: Requestor, wait: bool)
    | Admitted(w: nat)
    | Finished(w: nat, error: bool)
    | FailureNoted(w: nat)
    | Released(w: nat)
    | Received(r: Requestor)

  predicate Enabled(s: State, e: Event) {
    match e
    case Requested(r, _) => r !in s.channels && r !in s.passed
    case Enqueued(r, _) => r in s.passed
    case Admitted(w) => w in s.workers && s.workers[w].phase.Waiting? && s.workChan < MAX_WORKERS
    case Finished(w, _) => w in s.workers && s.workers[w].phase.Working?
    case FailureNoted(w) => w in s.workers && s.workers[w].phase == Drained(true)
    case Released(w) => w in s.workers && (s.workers[w].phase == Drained(false) || s.workers[w].phase.Noted?) &&
        s.workChan > 0
    case Received(r) => r in s.channels && s.channels[r] != [] && r !in s.answers
  }

  function Apply(s: State, e: Event): State
    requires Enabled(s, e)
  {
    match e
    case Requested(r, file) => Pass(s, r, file)
    case Enqueued(r, wait) => Enqueue(s, r, wait)
    case Admitted(w) => Admit(s, w)
    case Finished(w, error) => Drain(s, w, error)
    case FailureNoted(w) => NoteFailure(s, w)
    case Released(w) => Release(s, w)
    case Received(r) => Receive(s, r)
  }

  ghost function Next(s: State, e: Event): State {
    if Enabled(s, e) then Apply(s, e) else s
  }

  ghost const SYSTEM: Runs.System<State, Event> := Runs.System(Enabled, Next)

  ghost predicate IsRun(es: seq<Event>) {
    Runs.IsRun(SYSTEM, START, es)
  }

  ghost function After(es: seq<Event>): State {
    Runs.After(SYSTEM, START, es)
  }

  lemma EnqueueKeepsWorkers(s: State, r: Requestor, wait: bool)
    requires OneWorkerPerEntry(s) && r in s.passed
    ensures OneWorkerPerEntry(Enqueue(s, r, wait))
  {
    var t := Enqueue(s, r, wait);
    var file := s.passed[r];
    assert forall w, f :: Undrained(s, w, f) ==> Undrained(t, w, f);
    assert forall w, f :: Undrained(t, w, f) ==>
             Undrained(s, w, f) || (file !in s.queue && w == s.spawned && f == file);
    if file !in s.queue {
      assert Undrained(t, s.spawned, file);
    }
  }

  lemma NewEntryKeepsResults(s: State, t: State, file: Id)
    requires OneResultEach(s) && file !in s.queue
    requires t.queue == s.queue[file := []] && t.channels == s.channels && t.answers == s.answers &&
             t.passed == s.passed
    ensures OneResultEach(t)
  {
    forall x | Queued(s, x)
      ensures Queued(t, x)
    {
      var f :| f in s.queue && x in s.queue[f];
      assert f in t.queue && x in t.queue[f];
    }
  }

  lemma NewRequestorQueued(s: State, t: State, file: Id, r: Requestor)
    requires file in s.queue && t.queue == s.queue[file := s.queue[file] + [r]]
    ensures forall x :: Queued(t, x) <==> Queued(s, x) || x == r
  {
    forall x
      ensures Queued(t, x) <==> Queued(s, x) || x == r
    {
      if Queued(s, x) {
        var f :| f in s.queue && x in s.queue[f];
        assert f in t.queue && x in t.queue[f];
      }
      assert file in t.queue && r in t.queue[file];
    }
  }

  lemma NewRequestorQueuedOnce(s: State, t: State, file: Id, r: Requestor)
    requires QueuedOnce(s) && file in s.queue && r !in s.channels
    requires t.queue == s.queue[file := s.queue[file] + [r]] && t.channels == s.channels[r := []]
    ensures QueuedOnce(t)
  {
    assert forall f, x :: f in s.queue && x in s.queue[f] ==> x != r;
  }

  lemma NewRequestorKeepsResults(s: State, t: State, file: Id, r: Requestor)
    requires OneResultEach(s) && file in s.queue && r !in s.channels
    requires t.queue == s.queue[file := s.queue[file] + [r]] && t.channels == s.channels[r := []]
    requires t.answers == s.answers && t.passed == s.passed - {r}
    ensures OneResultEach(t)
  {
    NewRequestorQueuedOnce(s, t, file, r);
    NewRequestorQueued(s, t, file, r);
  }

  lemma EnqueueKeepsResults(s: State, r: Requestor, wait: bool)
    requires OneResultEach(s) && r in s.passed
    ensures OneResultEach(Enqueue(s, r, wait))
  {
    var file := s.passed[r];
    var entered := if file in s.queue then s else s.(queue := s.queue[file := []]);
    if file !in s.queue {
      NewEntryKeepsResults(s, entered, file);
    }
    if wait {
      NewRequestorKeepsResults(entered, Enqueue(s, r, wait), file, r);
    } else {
      SameQueueKeepsResults(entered, Enqueue(s, r, wait));
    }
  }

  lemma DrainKeepsWorkers(s: State, w: nat, error: bool)
    requires OneWorkerPerEntry(s) && Enabled(s, Finished(w, error))
    ensures OneWorkerPerEntry(Drain(s, w, error))
  {
    var t := Drain(s, w, error);
    var file := s.workers[w].file;
    assert Undrained(s, w, file);
    assert forall v, f :: Undrained(t, v, f) <==> Undrained(s, v, f) && v != w;
  }

  lemma DrainKeepsResults(s: State, w: nat, error: bool)
    requires OneWorkerPerEntry(s) && OneResultEach(s) && Enabled(s, Finished(w, error))
    ensures OneResultEach(Drain(s, w, error))
  {
    var t := Drain(s, w, error);
    var file := s.workers[w].file;
    assert Undrained(s, w, file);
    forall r | Queued(s, r) && r !in s.queue[file]
      ensures Queued(t, r)
    {
      var f :| f in s.queue && r in s.queue[f];
      assert f in t.queue && r in t.queue[f];
    }
    forall r | r in s.answers
      ensures r in t.channels && t.channels[r] == [s.answers[r]]
    {
      assert r !in s.queue[file];
    }
  }

  lemma OthersKeepWorkers(s: State, e: Event)
    requires OneWorkerPerEntry(s) && Enabled(s, e) && !e.Enqueued? && !e.Finished?
    ensures OneWorkerPerEntry(Apply(s, e))
  {
    assert forall v, f :: Undrained(Apply(s, e), v, f) <==> Undrained(s, v, f);
  }

  lemma SameQueueKeepsResults(s: State, t: State)
    requires OneResultEach(s)
    requires t.queue == s.queue && t.channels == s.channels && t.answers == s.answers
    requires forall r :: r in t.passed ==> r !in s.channels
    ensures OneResultEach(t)
  {
    assert forall r :: Queued(t, r) <==> Queued(s, r);
  }

  lemma ReceiveKeepsResults(s: State, r: Requestor)
    requires OneResultEach(s) && Enabled(s, Received(r))
    ensures OneResultEach(Receive(s, r))
  {
    var t := Receive(s, r);
    assert forall x :: Queued(t, x) <==> Queued(s, x);
    assert !Queued(s, r);
    assert s.channels[r] == [s.channels[r][0]];
  }

  lemma OthersKeepResults(s: State, e: Event)
    requires OneResultEach(s) && Enabled(s, e) && !e.Enqueued? && !e.Finished?
    ensures OneResultEach(Apply(s, e))
  {
    if e.Received? {
      ReceiveKeepsResults(s, e.r);
    } else {
      SameQueueKeepsResults(s, Apply(s, e));
    }
  }

  lemma StepKeepsSlots(s: State, e: Event)
    requires SlotsMatch(s) && OneWorkerPerEntry(s) && Enabled(s, e)
    ensures SlotsMatch(Apply(s, e))
  {
    var t := Apply(s, e);
    match e
    case Admitted(w) => assert Busy(t) == Busy(s) + {w};
    case Released(w) => assert w in Busy(s) && Busy(t) == Busy(s) - {w};
    case Enqueued(r, _) =>
      assert s.spawned !in s.workers;
      assert Busy(t) == Busy(s);
    case _ => assert Busy(t) == Busy(s);
  }

  lemma StepKeeps(s: State, e: Event)
    requires Consistent(s) && Enabled(s, e)
    ensures Consistent(Apply(s, e))
  {
    StepKeepsSlots(s, e);
    match e
    case Enqueued(r, wait) =>
      EnqueueKeepsWorkers(s, r, wait);
      EnqueueKeepsResults(s, r, wait);
    case Finished(w, error) =>
      DrainKeepsWorkers(s, w, error);
      DrainKeepsResults(s, w, error);
    case _ =>
      OthersKeepWorkers(s, e);
      OthersKeepResults(s, e);
  }

  // After any interleaving: a file is in the queue exactly if one worker is on its way to inform its
  // requestors, every requestor is queued once or was sent exactly one result, and at most two workers
  // are past admission.
  lemma QueueStaysConsistent(es: seq<Event>)
    requires IsRun(es)
    ensures Consistent(After(es))
    ensures forall file :: file in After(es).queue <==> exists w :: Undrained(After(es), w, file)
    ensures forall r :: r in After(es).channels ==> |After(es).channels[r]| == if Queued(After(es), r) then 0 else 1
    ensures After(es).workChan == |Busy(After(es))| <= 2
  {
    forall s, e | Consistent(s) && Enabled(s, e)
      ensures Consistent(Next(s, e))
    {
      StepKeeps(s, e);
    }
    assert Busy(START) == {};
    Runs.RunKeeps(SYSTEM, Consistent, START, es);
  }

  // What a requestor is sent is the outcome of the worker of the file it is queued under, and nothing else.
  lemma ResultIsOfOwnFile(es: seq<Event>, e: Event, r: Requestor)
    requires IsRun(es) && Enabled(After(es), e) && r in After(es).channels
    ensures var s := After(es);
            var t := Apply(s, e);
            r in t.channels && (t.channels[r] != s.channels[r] <==>
              e.Finished? && s.workers[e.w].file in s.queue && r in s.queue[s.workers[e.w].file])
    ensures var s := After(es);
            Apply(s, e).channels[r] != s.channels[r] ==> Apply(s, e).channels[r] == [e.error]
  {
    QueueStaysConsistent(es);
    StepSends(After(es), e, r);
  }

  lemma StepSends(s: State, e: Event, r: Requestor)
    requires QueuedOnce(s) && Enabled(s, e) && r in s.channels && r !in s.passed
    ensures var t := Apply(s, e);
            r in t.channels && (t.channels[r] != s.channels[r] <==>
              e.Finished? && s.workers[e.w].file in s.queue && r in s.queue[s.workers[e.w].file])
    ensures Apply(s, e).channels[r] != s.channels[r] ==> Apply(s, e).channels[r] == [e.error]
  {
    if e.Finished? && s.workers[e.w].file in s.queue && r in s.queue[s.workers[e.w].file] {
      assert s.channels[r] == [] && [] + [e.error] == [e.error];
    }
  }

  // ---- which file a requestor asked for

  // requests and the queue keep the file that was asked for
  ghost predicate QueuedAsAsked(s: State) {
    && (forall r :: r in s.passed ==> r in s.asked && s.asked[r] == s.passed[r])
    && (forall file, r :: file in s.queue && r in s.queue[file] ==>
          r in s.channels && r in s.asked && s.asked[r] == file)
  }

  // what a requestor was sent are outcomes of the file that it asked for
  predicate SentOutcomes(s: State, r: Requestor)
    requires r in s.channels
  {
    r in s.asked && forall error :: error in s.channels[r] ==> (s.asked[r], error) in s.outcomes
  }

  ghost predicate SentAsAsked(s: State) {
    && (forall r :: r in s.channels ==> SentOutcomes(s, r))
    && (forall r :: r in s.answers ==> r in s.channels && s.answers[r] in s.channels[r])
  }

  ghost predicate AsAsked(s: State) {
    Consistent(s) && QueuedAsAsked(s) && SentAsAsked(s)
  }

  lemma RequestKeepsAsked(s: State, r: Requestor, file: Id)
    requires QueuedAsAsked(s) && SentAsAsked(s) && r !in s.channels
    ensures QueuedAsAsked(Pass(s, r, file)) && SentAsAsked(Pass(s, r, file))
  {
    forall x | x in s.channels
      ensures SentOutcomes(Pass(s, r, file), x)
    {
      assert SentOutcomes(s, x);
    }
  }

  lemma EnqueueKeepsAsked(s: State, r: Requestor, wait: bool)
    requires QueuedAsAsked(s) && SentAsAsked(s) && r in s.passed && r !in s.channels
    ensures QueuedAsAsked(Enqueue(s, r, wait)) && SentAsAsked(Enqueue(s, r, wait))
  {
    var t := Enqueue(s, r, wait);
    forall x | x in t.channels
      ensures SentOutcomes(t, x)
    {
      assert x in s.channels ==> SentOutcomes(s, x);
    }
  }

  lemma DrainKeepsAsked(s: State, w: nat, error: bool)
    requires QueuedAsAsked(s) && SentAsAsked(s) && w in s.workers
    ensures QueuedAsAsked(Drain(s, w, error)) && SentAsAsked(Drain(s, w, error))
  {
    var t := Drain(s, w, error);
    var file := s.workers[w].file;
    forall r | r in t.channels
      ensures SentOutcomes(t, r)
    {
      assert SentOutcomes(s, r);
      if file in s.queue && r in s.queue[file] {
        assert t.channels[r] == s.channels[r] + [error];
      }
    }
    forall r | r in t.answers
      ensures r in t.channels && t.answers[r] in t.channels[r]
    {
      assert t.channels[r] == s.channels[r] || t.channels[r] == s.channels[r] + [error];
    }
  }

  lemma SameKeepsAsked(s: State, t: State)
    requires QueuedAsAsked(s) && SentAsAsked(s)
    requires t.queue == s.queue && t.passed == s.passed && t.asked == s.asked && t.outcomes == s.outcomes
    requires t.channels == s.channels
    requires forall r :: r in t.answers ==> (r in s.answers && t.answers[r] == s.answers[r]) ||
                                            (r in s.channels && t.answers[r] in s.channels[r])
    ensures QueuedAsAsked(t) && SentAsAsked(t)
  {
    forall r | r in t.channels
      ensures SentOutcomes(t, r)
    {
      assert SentOutcomes(s, r);
    }
  }

  lemma StepKeepsAsked(s: State, e: Event)
    requires AsAsked(s) && Enabled(s, e)
    ensures AsAsked(Apply(s, e))
  {
    StepKeeps(s, e);
    match e
    case Requested(r, file) => RequestKeepsAsked(s, r, file);
    case Enqueued(r, wait) => EnqueueKeepsAsked(s, r, wait);
    case Finished(w, error) => DrainKeepsAsked(s, w, error);
    case _ => SameKeepsAsked(s, Apply(s, e));
  }

  // a worker of the file finished with this outcome at step k
  ghost predicate FinishedAt(s: State, es: seq<Event>, k: nat, file: Id, error: bool)
    requires k < |es|
  {
    var before := Runs.After(SYSTEM, s, es[..k]);
    es[k].Finished? && es[k].error == error && es[k].w in before.workers && before.workers[es[k].w].file == file
  }

  lemma {:induction false} OutcomesAreFinished(s: State, es: seq<Event>, file: Id, error: bool)
    requires Runs.IsRun(SYSTEM, s, es) && (file, error) in Runs.After(SYSTEM, s, es).outcomes
    ensures (file, error) in s.outcomes || exists k :: 0 <= k < |es| && FinishedAt(s, es, k, file, error)
    decreases |es|
  {
    if es != [] {
      var t := Next(s, es[0]);
      OutcomesAreFinished(t, es[1..], file, error);
      if (file, error) !in t.outcomes {
        var k :| 0 <= k < |es| - 1 && FinishedAt(t, es[1..], k, file, error);
        assert es[..k + 1][0] == es[0] && es[..k + 1][1..] == es[1..][..k];
        assert FinishedAt(s, es, k + 1, file, error);
      } else if (file, error) !in s.outcomes {
        assert FinishedAt(s, es, 0, file, error);
      }
    }
  }

  // After any interleaving: what a requestor got is how a worker of the very file that it asked for finished.
  lemma AnswerIsOfAskedFile(es: seq<Event>, r: Requestor)
    requires IsRun(es) && r in After(es).answers
    ensures var s := After(es);
            r in s.asked && exists k :: 0 <= k < |es| && FinishedAt(START, es, k, s.asked[r], s.answers[r])
  {
    forall s, e | AsAsked(s) && Enabled(s, e)
      ensures AsAsked(Next(s, e))
    {
      StepKeepsAsked(s, e);
    }
    assert Busy(START) == {};
    Runs.RunKeeps(SYSTEM, AsAsked, START, es);
    assert SentOutcomes(After(es), r);
    OutcomesAreFinished(START, es, After(es).asked[r], After(es).answers[r]);
  }

  // the step a worker is going to do next
  function NextStep(s: State, w: nat, error: bool): Event
    requires w in s.workers
  {
    match s.workers[w].phase
    case Waiting => Admitted(w)
    case Working => Finished(w, error)
    case Drained(failed) => if failed then FailureNoted(w) else Released(w)
    case Noted => Released(w)
  }

  function InPhase(s: State, phases: set<nat>): set<nat> {
    set w | w in s.workers && Rank(s.workers[w].phase) in phases
  }

  function Rank(p: Phase): nat {
    match p
    case Waiting => 4
    case Working => 3
    case Drained(error) => if error then 2 else 1
    case Noted => 1
  }

  // steps that all workers together still have to do
  function WorkLeft(s: State): nat {
    |InPhase(s, {1, 2, 3, 4})| + |InPhase(s, {2, 3, 4})| + |InPhase(s, {3, 4})| + |InPhase(s, {4})|
  }

  // While someone waits in the queue, some worker can go on, without anyone else doing anything.
  lemma NobodyWaitsForever(s: State, r: Requestor) returns (w: nat)
    requires Consistent(s) && Queued(s, r)
    ensures w in s.workers && forall error :: Enabled(s, NextStep(s, w, error))
  {
    var file :| file in s.queue && r in s.queue[file];
    var v :| Undrained(s, v, file);
    if s.workers[v].phase.Working? || s.workChan < MAX_WORKERS {
      w := v;
    } else {
      assert Busy(s) != {};
      w :| w in Busy(s);
    }
  }

  // And whatever a worker does brings all of them closer to the end of their work.
  lemma WorkerStepsAreBounded(s: State, w: nat, error: bool)
    requires w in s.workers && Enabled(s, NextStep(s, w, error))
    ensures WorkLeft(Apply(s, NextStep(s, w, error))) < WorkLeft(s)
  {
    var t := Apply(s, NextStep(s, w, error));
    WorkerStep(s, w, error);
    PhaseStep(s, t, w, {1, 2, 3, 4});
    PhaseStep(s, t, w, {2, 3, 4});
    PhaseStep(s, t, w, {3, 4});
    PhaseStep(s, t, w, {4});
  }

  lemma WorkerStep(s: State, w: nat, error: bool)
    requires w in s.workers && Enabled(s, NextStep(s, w, error))
    ensures var t := Apply(s, NextStep(s, w, error));
            && (forall v :: v != w ==> (v in t.workers <==> v in s.workers))
            && (forall v :: v != w && v in s.workers && v in t.workers ==> t.workers[v] == s.workers[v])
            && (w in t.workers ==> Rank(t.workers[w].phase) < Rank(s.workers[w].phase))
  {
  }

  lemma PhaseStep(s: State, t: State, w: nat, phases: set<nat>)
    requires w in s.workers
    requires forall v :: v != w ==> (v in t.workers <==> v in s.workers)
    requires forall v :: v != w && v in s.workers && v in t.workers ==> t.workers[v] == s.workers[v]
    ensures |InPhase(t, phases)| + (if Rank(s.workers[w].phase) in phases then 1 else 0) ==
            |InPhase(s, phases)| + (if w in t.workers && Rank(t.workers[w].phase) in phases then 1 else 0)
  {
    var a, b := InPhase(s, phases), InPhase(t, phases);
    forall v | v != w
      ensures v in a <==> v in b
    {
      assert v in s.workers ==> s.workers[v] == t.workers[v];
    }
    WithoutOne(a, b, w);
  }

  lemma WithoutOne(a: set<nat>, b: set<nat>, w: nat)
    requires forall v :: v != w ==> (v in a <==> v in b)
    ensures |b| + (if w in a then 1 else 0) == |a| + (if w in b then 1 else 0)
  {
    var rest := a - {w};
    assert rest == b - {w};
    assert a == if w in a then rest + {w} else rest;
    assert b == if w in b then rest + {w} else rest;
  }

  // ---- which files are refused

  // a worker of the file noted its failure at step k
  ghost predicate NotedAt(s: State, es: seq<Event>, k: nat, file: Id)
    requires k < |es|
  {
    var before := Runs.After(SYSTEM, s, es[..k]);
    es[k].FailureNoted? && es[k].w in before.workers && before.workers[es[k].w].file == file
  }

  lemma {:induction false} FailedIsNoted(s: State, es: seq<Event>, file: Id)
    requires Runs.IsRun(SYSTEM, s, es)
    ensures file in Runs.After(SYSTEM, s, es).failed <==>
            file in s.failed || exists k :: 0 <= k < |es| && NotedAt(s, es, k, file)
    decreases |es|
  {
    if es != [] {
      var t := Next(s, es[0]);
      FailedIsNoted(t, es[1..], file);
      forall k | 0 <= k < |es| - 1
        ensures NotedAt(t, es[1..], k, file) <==> NotedAt(s, es, k + 1, file)
      {
        assert es[..k + 1][0] == es[0] && es[..k + 1][1..] == es[1..][..k];
      }
      assert es[..0] == [];
      if file in t.failed && file !in s.failed {
        assert NotedAt(s, es, 0, file);
      }
      if k :| 0 <= k < |es| && NotedAt(s, es, k, file) {
        assert k > 0 ==> NotedAt(t, es[1..], k - 1, file);
      }
      if k :| 0 <= k < |es| - 1 && NotedAt(t, es[1..], k, file) {
        assert NotedAt(s, es, k + 1, file);
      }
    }
  }

  // After any interleaving, a request changes nothing if and only if some worker has noted a failure of the very
  // file before; any other request goes on to the queue, for its file.
  lemma RefusedIffFailedBefore(es: seq<Event>, r: Requestor, file: Id)
    requires IsRun(es) && Enabled(After(es), Requested(r, file))
    ensures var t := Next(After(es), Requested(r, file));
            && (t == After(es) <==> exists k :: 0 <= k < |es| && NotedAt(START, es, k, file))
            && (t != After(es) ==> t.passed == After(es).passed[r := file])
  {
    FailedIsNoted(START, es, file);
    assert r !in After(es).passed;
  }

  // A worker that was admitted never waits for anyone.
  lemma AdmittedWorkersGoOn(s: State, w: nat, error: bool)
    requires Consistent(s) && w in s.workers && !s.workers[w].phase.Waiting?
    ensures Enabled(s, NextStep(s, w, error))
  {
    assert w in Busy(s);
  }

  // What was sent to a requestor is there for it to take, once.
  lemma SentIsTaken(es: seq<Event>, r: Requestor, error: bool)
    requires IsRun(es) && r in After(es).channels && After(es).channels[r] == [error] && r !in After(es).answers
    ensures var more := es + [Received(r)];
            && IsRun(more) && r in After(more).answers && After(more).answers[r] == error
            && !Enabled(After(more), Received(r))
  {
    Runs.OneMoreStep(SYSTEM, START, es, Received(r));
  }
}

/** The asynchronous audit pipeline (plugins/audit/service.go:63-97, 380-459) as interleaved
    steps of Record calls, batching workers and Close. */
module AuditPipeline {

  datatype Record = Record(id: nat)

  datatype Phase = Looping | Draining | Exited

  datatype Worker = Worker(batch: seq<Record>, phase: Phase)

  /** How far Close has come: nothing, stopCh closed, asyncCh closed too, returned. */
  datatype Closing = Open | Stopped | Closed | Returned

  datatype Config = Config(workers: nat, buffer: nat, batch: nat) {
    predicate Ok() {
      workers > 0 && buffer > 0 && batch > 0
    }
  }

  /** The channel, the workers and Close; what recordBatch and the synchronous fallback were
      given; and, as history, what was ever sent and received and how much had been sent when
      Close began. */
  datatype State = State(
    chan: seq<Record>,
    workers: seq<Worker>,
    closing: Closing,
    handed: seq<seq<Record>>,
    synced: seq<Record>,
    sent: seq<Record>,
    taken: seq<Record>,
    sentBefore: nat)

  datatype Action =
    | Send(r: Record)                // a Record call that finds room
    | SyncRecord(r: Record)          // one that finds the buffer full
    | CancelRecord(r: Record)        // one whose context is done
    | PanicRecord(r: Record)         // one after asyncCh was closed
    | Receive(w: nat)
    | FlushFull(w: nat)
    | Tick(w: nat)
    | SeeStop(w: nat)
    | Leave(w: nat)
    | CloseStop
    | CloseChannel
    | CloseReturn

  function Start(cfg: Config): State {
    State([], seq(cfg.workers, _ => Worker([], Looping)), Open, [], [], [], [], 0)
  }

  predicate Full(cfg: Config, w: Worker) {
    |w.batch| >= cfg.batch
  }

  predicate StopSeen(s: State) {
    s.closing != Open
  }

  predicate ChannelClosed(s: State) {
    s.closing == Closed || s.closing == Returned
  }

  /** The select statements: which steps are possible. */
  predicate Enabled(cfg: Config, s: State, a: Action) {
    match a
    case Send(_) => !ChannelClosed(s) && |s.chan| < cfg.buffer
    case SyncRecord(_) => !ChannelClosed(s) && |s.chan| >= cfg.buffer
    case CancelRecord(_) => true
    case PanicRecord(_) => ChannelClosed(s)
    case Receive(w) => w < |s.workers| && s.workers[w].phase != Exited && !Full(cfg, s.workers[w]) && s.chan != []
    case FlushFull(w) => w < |s.workers| && s.workers[w].phase != Exited && Full(cfg, s.workers[w])
    case Tick(w) => w < |s.workers| && s.workers[w].phase == Looping && !Full(cfg, s.workers[w])
    case SeeStop(w) => w < |s.workers| && s.workers[w].phase == Looping && !Full(cfg, s.workers[w]) && StopSeen(s)
    case Leave(w) =>
      && w < |s.workers| && !Full(cfg, s.workers[w]) && s.chan == []
      && (s.workers[w].phase == Draining || (s.workers[w].phase == Looping && ChannelClosed(s)))
    case CloseStop => s.closing == Open
    case CloseChannel => s.closing == Stopped
    case CloseReturn => s.closing == Closed && forall w :: 0 <= w < |s.workers| ==> s.workers[w].phase == Exited
  }

  /** flush: the batch goes to recordBatch unless it is empty, and is emptied. */
  function Flushed(s: State, w: nat, phase: Phase): State
    requires w < |s.workers|
  {
    var batch := s.workers[w].batch;
    s.(workers := s.workers[w := Worker([], phase)], handed := if batch == [] then s.handed else s.handed + [batch])
  }

  /** The oldest record in the channel moves to a worker's batch. */
  function Received(s: State, w: nat): State
    requires w < |s.workers| && s.chan != []
  {
    var worker := s.workers[w];
    s.(chan := s.chan[1..], workers := s.workers[w := worker.(batch := worker.batch + [s.chan[0]])],
       taken := s.taken + [s.chan[0]])
  }

  function Next(cfg: Config, s: State, a: Action): State
    requires Enabled(cfg, s, a)
  {
    match a
    case Send(r) => s.(chan := s.chan + [r], sent := s.sent + [r])
    case SyncRecord(r) => s.(synced := s.synced + [r])
    case CancelRecord(_) => s
    case PanicRecord(_) => s
    case Receive(w) => Received(s, w)
    case FlushFull(w) => Flushed(s, w, s.workers[w].phase)
    case Tick(w) => Flushed(s, w, Looping)
    case SeeStop(w) => s.(workers := s.workers[w := s.workers[w].(phase := Draining)])
    case Leave(w) => Flushed(s, w, Exited)
    case CloseStop => s.(closing := Stopped, sentBefore := |s.sent|)
    case CloseChannel => s.(closing := Closed)
    case CloseReturn => s.(closing := Returned)
  }

  predicate Possible(cfg: Config, s: State, actions: seq<Action>)
    decreases |actions|
  {
    actions == [] || (Enabled(cfg, s, actions[0]) && Possible(cfg, Next(cfg, s, actions[0]), actions[1..]))
  }

  function Run(cfg: Config, s: State, actions: seq<Action>): State
    requires Possible(cfg, s, actions)
    decreases |actions|
  {
    if actions == [] then s else Run(cfg, Next(cfg, s, actions[0]), actions[1..])
  }

  // ---------------------------------------------------------------- what Record calls and workers can do

  /** A Record call: the channel takes the record while it is open and has room, the record is
      stored directly while it is full, and the call panics once it is closed. */
  lemma RecordExactly(cfg: Config, s: State, r: Record)
    ensures var closed := s.closing == Closed || s.closing == Returned;
      && (Enabled(cfg, s, Send(r)) <==> !closed && |s.chan| < cfg.buffer)
      && (Enabled(cfg, s, SyncRecord(r)) <==> !closed && |s.chan| >= cfg.buffer)
      && (Enabled(cfg, s, PanicRecord(r)) <==> closed) && Enabled(cfg, s, CancelRecord(r))
      && Next(cfg, s, CancelRecord(r)) == s && (closed ==> Next(cfg, s, PanicRecord(r)) == s)
  {
  }

  /** A worker: it flushes exactly when its batch is full, before anything else; it receives while
      there is something to receive, and leaves when nothing is left once it has seen the stop
      or the closed channel. */
  lemma WorkerExactly(cfg: Config, s: State, w: nat)
    requires w < |s.workers| && s.workers[w].phase != Exited
    ensures var full := |s.workers[w].batch| >= cfg.batch;
      var looping := s.workers[w].phase == Looping;
      && (Enabled(cfg, s, FlushFull(w)) <==> full)
      && (Enabled(cfg, s, Receive(w)) <==> !full && |s.chan| > 0)
      && (Enabled(cfg, s, Tick(w)) <==> !full && looping)
      && (Enabled(cfg, s, SeeStop(w)) <==> !full && looping && s.closing != Open)
      && (Enabled(cfg, s, Leave(w)) <==>
          !full && |s.chan| == 0 && (looping ==> s.closing == Closed || s.closing == Returned))
  {
  }

  /** Close: its three steps in order, the last one waiting for all workers. */
  lemma CloseExactly(cfg: Config, s: State)
    ensures Enabled(cfg, s, CloseStop) <==> s.closing == Open
    ensures Enabled(cfg, s, CloseChannel) <==> s.closing == Stopped
    ensures Enabled(cfg, s, CloseReturn) <==>
      s.closing == Closed && forall w :: 0 <= w < |s.workers| ==> s.workers[w].phase == Exited
    ensures s.closing == Open ==> Next(cfg, s, CloseStop) == s.(closing := Stopped, sentBefore := |s.sent|)
    ensures s.closing == Stopped ==> Next(cfg, s, CloseChannel) == s.(closing := Closed)
  {
  }

  /** The records of the calls that sent, and of those that stored directly. */
  function Sends(actions: seq<Action>): seq<Record> {
    if actions == [] then [] else (if actions[0].Send? then [actions[0].r] else []) + Sends(actions[1..])
  }

  function Syncs(actions: seq<Action>): seq<Record> {
    if actions == [] then [] else (if actions[0].SyncRecord? then [actions[0].r] else []) + Syncs(actions[1..])
  }

  lemma StepAccepts(cfg: Config, s: State, a: Action)
    requires Enabled(cfg, s, a)
    ensures Next(cfg, s, a).sent == s.sent + if a.Send? then [a.r] else []
    ensures Next(cfg, s, a).synced == s.synced + if a.SyncRecord? then [a.r] else []
  {
  }

  /** In every interleaving what was sent and what was stored directly are exactly the records of
      the calls that did so, in order. */
  lemma {:induction false} AcceptedInOrder(cfg: Config, s: State, actions: seq<Action>)
    requires Possible(cfg, s, actions)
    ensures Run(cfg, s, actions).sent == s.sent + Sends(actions)
    ensures Run(cfg, s, actions).synced == s.synced + Syncs(actions)
    decreases |actions|
  {
    hide Enabled, Next;
    if actions != [] {
      StepAccepts(cfg, s, actions[0]);
      AcceptedInOrder(cfg, Next(cfg, s, actions[0]), actions[1..]);
      var (send, sync) := (Sends(actions[..1]), Syncs(actions[..1]));
      FirstAccepted(actions);
      hide Sends, Syncs, Run, Possible;
      Regrouped(s.sent, send, Sends(actions[1..]));
      Regrouped(s.synced, sync, Syncs(actions[1..]));
    }
  }

  lemma FirstAccepted(actions: seq<Action>)
    requires actions != []
    ensures Sends(actions[..1]) == (if actions[0].Send? then [actions[0].r] else [])
    ensures Syncs(actions[..1]) == (if actions[0].SyncRecord? then [actions[0].r] else [])
    ensures Sends(actions) == Sends(actions[..1]) + Sends(actions[1..])
    ensures Syncs(actions) == Syncs(actions[..1]) + Syncs(actions[1..])
  {
    assert actions[..1][1..] == [];
  }

  lemma Regrouped(a: seq<Record>, b: seq<Record>, c: seq<Record>)
    ensures a + b + c == a + (b + c)
  {
  }

  // ---------------------------------------------------------------- conservation

  /** What the workers hold. */
  function Held(workers: seq<Worker>): multiset<Record> {
    if workers == [] then multiset{} else Held(workers[..|workers| - 1]) + multiset(workers[|workers| - 1].batch)
  }

  function Flat(batches: seq<seq<Record>>): seq<Record> {
    if batches == [] then [] else Flat(batches[..|batches| - 1]) + batches[|batches| - 1]
  }

  predicate WorkersOk(cfg: Config, s: State) {
    && |s.workers| == cfg.workers
    && forall w :: 0 <= w < |s.workers| ==>
      && |s.workers[w].batch| <= cfg.batch
      && (s.workers[w].phase == Draining ==> StopSeen(s))
      && (s.workers[w].phase == Exited ==> s.workers[w].batch == [] && StopSeen(s) && s.sentBefore <= |s.taken|)
  }

  predicate BatchesOk(cfg: Config, s: State) {
    forall i :: 0 <= i < |s.handed| ==> 1 <= |s.handed[i]| <= cfg.batch
  }

  predicate Conserved(s: State) {
    && s.sent == s.taken + s.chan
    && multiset(s.taken) == Held(s.workers) + multiset(Flat(s.handed))
  }

  predicate Inv(cfg: Config, s: State) {
    && WorkersOk(cfg, s) && BatchesOk(cfg, s) && Conserved(s) && |s.chan| <= cfg.buffer
    && (StopSeen(s) ==> s.sentBefore <= |s.sent|)
    && (s.closing == Returned ==> forall w :: 0 <= w < |s.workers| ==> s.workers[w].phase == Exited)
  }

  lemma AddToBoth(a: multiset<Record>, b: multiset<Record>, c: multiset<Record>, d: multiset<Record>,
                  e: multiset<Record>)
    requires a + b == c + d
    ensures (a + e) + b == (c + e) + d
  {
    assert (a + e) + b == (a + b) + e;
    assert (c + e) + d == (c + d) + e;
  }

  lemma {:induction false} HeldAfter(workers: seq<Worker>, w: nat, after: Worker)
    requires w < |workers|
    ensures Held(workers[w := after]) + multiset(workers[w].batch) == Held(workers) + multiset(after.batch)
  {
    var n := |workers| - 1;
    var more := workers[w := after];
    var (was, now) := (multiset(workers[w].batch), multiset(after.batch));
    if w < n {
      assert more[..n] == workers[..n][w := after] && more[n] == workers[n];
      HeldAfter(workers[..n], w, after);
      AddToBoth(Held(more[..n]), was, Held(workers[..n]), now, multiset(workers[n].batch));
    } else {
      assert more[..n] == workers[..n];
      Swap(Held(workers[..n]), now, was);
    }
  }

  lemma Swap(a: multiset<Record>, b: multiset<Record>, c: multiset<Record>)
    ensures (a + b) + c == (a + c) + b
  {
  }

  /** Moving one record from the channel side to a batch, or a batch to those handed over. */
  lemma Balance(taken: multiset<Record>, held: multiset<Record>, handed: multiset<Record>, held': multiset<Record>,
                gone: multiset<Record>, came: multiset<Record>)
    requires taken == held + handed && held' + gone == held + came
    ensures taken + came == held' + (handed + gone)
  {
    assert taken + came == (held + came) + handed;
    assert held' + (handed + gone) == (held' + gone) + handed;
  }

  lemma FlatAdds(batches: seq<seq<Record>>, batch: seq<Record>)
    ensures Flat(batches + [batch]) == Flat(batches) + batch
  {
    assert (batches + [batch])[..|batches|] == batches;
  }

  lemma {:induction false} NothingHeld(workers: seq<Worker>)
    requires forall w :: 0 <= w < |workers| ==> workers[w].batch == []
    ensures Held(workers) == multiset{}
  {
    if workers != [] {
      NothingHeld(workers[..|workers| - 1]);
    }
  }

  lemma Plus<T>(a: multiset<T>)
    ensures a + multiset{} == a && multiset{} + a == a
  {
  }

  lemma FlushConserves(s: State, w: nat, phase: Phase)
    requires Conserved(s) && w < |s.workers|
    ensures Conserved(Flushed(s, w, phase))
  {
    var batch := s.workers[w].batch;
    var after := Flushed(s, w, phase);
    var m := multiset(batch);
    HeldAfter(s.workers, w, Worker([], phase));
    FlatAdds(s.handed, batch);
    hide Held, Flat;
    assert multiset(Worker([], phase).batch) == multiset{};
    Balance(multiset(s.taken), Held(s.workers), multiset(Flat(s.handed)), Held(after.workers), m, multiset{});
    Plus(multiset(s.taken));
    Plus(multiset(Flat(s.handed)));
    assert batch != [] ==> multiset(Flat(after.handed)) == multiset(Flat(s.handed)) + m;
  }

  lemma ReceiveConserves(s: State, w: nat)
    requires Conserved(s) && w < |s.workers| && s.chan != []
    ensures Conserved(Received(s, w))
  {
    hide Held, Flat;
    var r, batch := s.chan[0], s.workers[w].batch;
    var after := Received(s, w);
    HeldAfter(s.workers, w, after.workers[w]);
    MovedOver(s.taken, s.chan);
    AddedOne(batch, r);
    AddedOne(s.taken, r);
    Cancel(Held(after.workers), Held(s.workers), multiset(batch), multiset{r});
    Plus(multiset(Flat(s.handed)));
    Balance(multiset(s.taken), Held(s.workers), multiset(Flat(s.handed)), Held(after.workers), multiset{}, multiset{r});
  }

  lemma MovedOver(a: seq<Record>, b: seq<Record>)
    requires b != []
    ensures a + b == (a + [b[0]]) + b[1..]
  {
  }

  lemma AddedOne(a: seq<Record>, r: Record)
    ensures multiset(a + [r]) == multiset(a) + multiset{r}
  {
  }

  lemma Cancel(a: multiset<Record>, b: multiset<Record>, c: multiset<Record>, d: multiset<Record>)
    requires a + c == b + (c + d)
    ensures a + multiset{} == b + d
  {
    assert b + (c + d) == (b + d) + c;
    assert a == (a + c) - c && b + d == ((b + d) + c) - c;
  }

  lemma PhaseConserves(s: State, w: nat, phase: Phase)
    requires Conserved(s) && w < |s.workers|
    ensures Conserved(s.(workers := s.workers[w := s.workers[w].(phase := phase)]))
  {
    var after := s.workers[w].(phase := phase);
    HeldAfter(s.workers, w, after);
    hide Held, Flat;
    Plus(multiset(after.batch));
    Plus(Held(s.workers));
    Plus(Held(s.workers[w := after]));
    Cancel(Held(s.workers[w := after]), Held(s.workers), multiset(after.batch), multiset{});
  }

  lemma StepConserves(cfg: Config, s: State, a: Action)
    requires Conserved(s) && Enabled(cfg, s, a)
    ensures Conserved(Next(cfg, s, a))
  {
    hide Held, Flat, Flushed, Received;
    match a
    case Send(r) =>
      assert s.taken + (s.chan + [r]) == (s.taken + s.chan) + [r];
    case Receive(w) => ReceiveConserves(s, w);
    case FlushFull(w) => FlushConserves(s, w, s.workers[w].phase);
    case Tick(w) => FlushConserves(s, w, Looping);
    case SeeStop(w) => PhaseConserves(s, w, Draining);
    case Leave(w) => FlushConserves(s, w, Exited);
    case _ =>
  }

  lemma TakenSoFar(s: State)
    requires Conserved(s)
    ensures |s.taken| + |s.chan| == |s.sent|
  {
  }

  lemma FlushKeeps(cfg: Config, s: State, w: nat, phase: Phase)
    requires cfg.Ok() && Inv(cfg, s) && w < |s.workers| && s.closing != Returned
    requires phase == Looping || StopSeen(s)
    requires phase == Exited ==> s.chan == []
    ensures Inv(cfg, Flushed(s, w, phase))
  {
    hide Conserved;
    FlushConserves(s, w, phase);
    TakenSoFar(s);
  }

  lemma ReceiveKeeps(cfg: Config, s: State, w: nat)
    requires cfg.Ok() && Inv(cfg, s) && w < |s.workers| && s.chan != []
    requires s.workers[w].phase != Exited && !Full(cfg, s.workers[w])
    ensures Inv(cfg, Received(s, w))
  {
    hide Conserved;
    ReceiveConserves(s, w);
  }

  /** Steps of Record, of Close, and a worker noticing the stop signal. */
  lemma OtherStepKeeps(cfg: Config, s: State, a: Action)
    requires cfg.Ok() && Inv(cfg, s) && Enabled(cfg, s, a)
    requires !(a.FlushFull? || a.Tick? || a.Leave? || a.Receive?)
    ensures Inv(cfg, Next(cfg, s, a))
  {
    hide Conserved;
    StepConserves(cfg, s, a);
  }

  lemma StepKeepsInv(cfg: Config, s: State, a: Action)
    requires cfg.Ok() && Inv(cfg, s) && Enabled(cfg, s, a)
    ensures Inv(cfg, Next(cfg, s, a))
  {
    hide Flushed, Received, Inv;
    InvMeansOk(cfg, s);
    if a.FlushFull? || a.Tick? || a.Leave? {
      FlushKeeps(cfg, s, a.w, if a.Leave? then Exited else s.workers[a.w].phase);
    } else if a.Receive? {
      ReceiveKeeps(cfg, s, a.w);
    } else {
      OtherStepKeeps(cfg, s, a);
    }
  }

  lemma InvMeansOk(cfg: Config, s: State)
    requires Inv(cfg, s)
    ensures WorkersOk(cfg, s)
      && (s.closing == Returned ==> forall w :: 0 <= w < |s.workers| ==> s.workers[w].phase == Exited)
  {
  }

  lemma {:induction false} RunKeepsInv(cfg: Config, s: State, actions: seq<Action>)
    requires cfg.Ok() && Inv(cfg, s) && Possible(cfg, s, actions)
    ensures Inv(cfg, Run(cfg, s, actions))
    decreases |actions|
  {
    hide Inv, Enabled, Next;
    if actions != [] {
      StepKeepsInv(cfg, s, actions[0]);
      RunKeepsInv(cfg, Next(cfg, s, actions[0]), actions[1..]);
    }
  }

  lemma StartIsFine(cfg: Config)
    requires cfg.Ok()
    ensures Inv(cfg, Start(cfg))
  {
    NothingHeld(Start(cfg).workers);
  }

  // ---------------------------------------------------------------- the theorems

  /** In every interleaving the records accepted for asynchronous recording are exactly those in
      the channel, in the workers' batches and in the batches handed over, each of a size within
      bounds; the channel holds the latest ones in order. */
  lemma Conservation(cfg: Config, actions: seq<Action>)
    requires cfg.Ok() && Possible(cfg, Start(cfg), actions)
    ensures var s := Run(cfg, Start(cfg), actions);
      && multiset(s.sent) == multiset(s.chan) + Held(s.workers) + multiset(Flat(s.handed))
      && |s.chan| <= |s.sent| && s.chan == s.sent[|s.sent| - |s.chan|..]
      && (forall i :: 0 <= i < |s.handed| ==> 1 <= |s.handed[i]| <= cfg.batch)
      && |s.chan| <= cfg.buffer && forall w :: 0 <= w < |s.workers| ==> |s.workers[w].batch| <= cfg.batch
  {
    StartIsFine(cfg);
    RunKeepsInv(cfg, Start(cfg), actions);
    hide Held, Flat, Run, Possible;
  }

  lemma ReturnedMeansHanded(cfg: Config, s: State)
    requires cfg.Ok() && Inv(cfg, s) && s.closing == Returned
    ensures s.sentBefore <= |s.sent| && multiset(s.sent[..s.sentBefore]) <= multiset(Flat(s.handed))
    ensures multiset(s.sent) == multiset(Flat(s.handed)) + multiset(s.chan)
    ensures |s.chan| <= |s.sent| - s.sentBefore
    ensures s.chan == [] ==> multiset(Flat(s.handed)) == multiset(s.sent)
  {
    NothingHeld(s.workers);
    assert s.workers[0].phase == Exited;
    assert multiset(s.taken) == multiset(Flat(s.handed));
    assert s.taken == s.sent[..|s.taken|];
    assert s.taken == s.sent[..s.sentBefore] + s.taken[s.sentBefore..];
    hide Held, Flat;
  }

  /** When Close returns, in every interleaving, every record sent before Close began has been
      handed over; the records sent are those handed over and those left in the channel; and if
      no Record call overlapped Close nothing is left. */
  lemma CloseLosesNothing(cfg: Config, actions: seq<Action>)
    requires cfg.Ok() && Possible(cfg, Start(cfg), actions) && Run(cfg, Start(cfg), actions).closing == Returned
    ensures var s := Run(cfg, Start(cfg), actions);
      && s.sentBefore <= |s.sent|
      && multiset(s.sent[..s.sentBefore]) <= multiset(Flat(s.handed))
      && multiset(s.sent) == multiset(Flat(s.handed)) + multiset(s.chan)
      && |s.chan| <= |s.sent| - s.sentBefore
      && (|s.sent| == s.sentBefore ==> multiset(Flat(s.handed)) == multiset(s.sent))
  {
    hide Inv, Held, Flat, Run, Possible;
    StartIsFine(cfg);
    RunKeepsInv(cfg, Start(cfg), actions);
    ReturnedMeansHanded(cfg, Run(cfg, Start(cfg), actions));
  }

  // ---------------------------------------------------------------- what is lost

  predicate AllExited(s: State) {
    forall w :: 0 <= w < |s.workers| ==> s.workers[w].phase == Exited
  }

  /** The records sent when the last worker had already gone. */
  function Orphans(cfg: Config, s: State, actions: seq<Action>): seq<Record>
    requires Possible(cfg, s, actions)
    decreases |actions|
  {
    if actions == [] then []
    else
      var rest := Orphans(cfg, Next(cfg, s, actions[0]), actions[1..]);
      if AllExited(s) && actions[0].Send? then [actions[0].r] + rest else rest
  }

  /** Without workers a step can only send, and the last worker leaves an empty channel. */
  lemma StepWithoutWorkers(cfg: Config, s: State, a: Action)
    requires Enabled(cfg, s, a)
    ensures AllExited(s) ==>
      AllExited(Next(cfg, s, a)) && Next(cfg, s, a).chan == if a.Send? then s.chan + [a.r] else s.chan
    ensures !AllExited(s) && AllExited(Next(cfg, s, a)) ==> Next(cfg, s, a).chan == []
  {
    var t := Next(cfg, s, a);
    if !AllExited(s) && !a.Leave? {
      var w :| 0 <= w < |s.workers| && s.workers[w].phase != Exited;
      assert t.workers[w].phase != Exited;
    }
  }

  lemma {:induction false} LeftoverIsOrphaned(cfg: Config, s: State, actions: seq<Action>)
    requires Possible(cfg, s, actions) && AllExited(Run(cfg, s, actions))
    ensures Run(cfg, s, actions).chan
      == if AllExited(s) then s.chan + Orphans(cfg, s, actions) else Orphans(cfg, s, actions)
    decreases |actions|
  {
    if actions != [] {
      var t, rest := Next(cfg, s, actions[0]), actions[1..];
      StepWithoutWorkers(cfg, s, actions[0]);
      hide AllExited, Enabled, Next;
      LeftoverIsOrphaned(cfg, t, rest);
      if AllExited(s) && actions[0].Send? {
        Associates(s.chan, [actions[0].r], Orphans(cfg, t, rest));
      }
    }
  }

  lemma Associates<T>(a: seq<T>, b: seq<T>, c: seq<T>)
    ensures (a + b) + c == a + (b + c)
  {
  }

  lemma InvReturned(cfg: Config, s: State)
    requires Inv(cfg, s) && s.closing == Returned
    ensures AllExited(s)
  {
  }

  /** When Close has returned, a record was lost if and only if it was sent after every worker had
      exited; those records, in the order sent, are what is left in the channel. */
  lemma LostExactlyWhenOrphaned(cfg: Config, actions: seq<Action>)
    requires cfg.Ok() && Possible(cfg, Start(cfg), actions) && Run(cfg, Start(cfg), actions).closing == Returned
    ensures var (s, orphans) := (Run(cfg, Start(cfg), actions), Orphans(cfg, Start(cfg), actions));
      && s.chan == orphans
      && multiset(s.sent) == multiset(Flat(s.handed)) + multiset(orphans)
      && (multiset(s.sent) == multiset(Flat(s.handed)) <==> orphans == [])
  {
    var s := Run(cfg, Start(cfg), actions);
    assert Start(cfg).workers[0].phase == Looping;
    assert !AllExited(Start(cfg));
    hide Inv, Held, Flat, Run, Possible, Orphans, AllExited;
    StartIsFine(cfg);
    RunKeepsInv(cfg, Start(cfg), actions);
    InvReturned(cfg, s);
    LeftoverIsOrphaned(cfg, Start(cfg), actions);
    ReturnedMeansHanded(cfg, s);
    if multiset(s.sent) == multiset(Flat(s.handed)) {
      assert |multiset(s.sent)| == |multiset(Flat(s.handed))| + |multiset(s.chan)|;
    }
  }

  // ---------------------------------------------------------------- one worker

  predicate InOrder(s: State) {
    |s.workers| == 1 && s.taken == Flat(s.handed) + s.workers[0].batch
  }

  lemma FlushKeepsOrder(s: State, phase: Phase)
    requires InOrder(s)
    ensures InOrder(Flushed(s, 0, phase))
  {
    var batch := s.workers[0].batch;
    FlatAdds(s.handed, batch);
    hide Flat;
    NothingAdded(Flat(s.handed));
    NothingAdded(Flat(s.handed + [batch]));
  }

  lemma NothingAdded<T>(a: seq<T>)
    ensures a + [] == a
  {
  }

  lemma StepKeepsOrder(cfg: Config, s: State, a: Action)
    requires InOrder(s) && Enabled(cfg, s, a)
    ensures InOrder(Next(cfg, s, a))
  {
    hide Flat, Flushed;
    if a.FlushFull? || a.Tick? || a.Leave? {
      FlushKeepsOrder(s, if a.Leave? then Exited else s.workers[0].phase);
      hide InOrder;
    } else if a.Receive? {
      Associates(Flat(s.handed), s.workers[0].batch, [s.chan[0]]);
    }
  }

  lemma {:induction false} RunKeepsOrder(cfg: Config, s: State, actions: seq<Action>)
    requires InOrder(s) && Possible(cfg, s, actions)
    ensures InOrder(Run(cfg, s, actions))
    decreases |actions|
  {
    hide InOrder, Enabled, Next;
    if actions != [] {
      StepKeepsOrder(cfg, s, actions[0]);
      RunKeepsOrder(cfg, Next(cfg, s, actions[0]), actions[1..]);
    }
  }

  /** A single worker hands the records over in the order in which they were sent, and all of
      them if no Record call overlapped Close. */
  lemma OneWorkerKeepsOrder(cfg: Config, actions: seq<Action>)
    requires cfg.Ok() && cfg.workers == 1 && Possible(cfg, Start(cfg), actions)
    ensures var s := Run(cfg, Start(cfg), actions);
      && Flat(s.handed) <= s.sent
      && (s.closing == Returned && |s.sent| == s.sentBefore ==> Flat(s.handed) == s.sent)
  {
    StartIsFine(cfg);
    RunKeepsInv(cfg, Start(cfg), actions);
    RunKeepsOrder(cfg, Start(cfg), actions);
    hide Flat, Held, Run, Possible;
  }

  /** A Record call between the two closes of Close can succeed and its record be lost: the only
      worker has already found the channel empty and gone. */
  lemma RecordDuringCloseIsLost(cfg: Config, r: Record)
    requires cfg.Ok() && cfg.workers == 1
    ensures var actions := [CloseStop, SeeStop(0), Leave(0), Send(r), CloseChannel, CloseReturn];
      Possible(cfg, Start(cfg), actions)
      && var s := Run(cfg, Start(cfg), actions);
      s.closing == Returned && s.sent == [r] && s.chan == [r] && Flat(s.handed) == [] && s.synced == []
  {
    var s0 := Start(cfg);
    assert s0.workers == [Worker([], Looping)];
    var s1 := Next(cfg, s0, CloseStop);
    var s2 := Next(cfg, s1, SeeStop(0));
    var s3 := Next(cfg, s2, Leave(0));
    var s4 := Next(cfg, s3, Send(r));
    var s5 := Next(cfg, s4, CloseChannel);
    var s6 := Next(cfg, s5, CloseReturn);
    assert s6 == State([r], [Worker([], Exited)], Returned, [], [], [r], [], 0);
    assert Possible(cfg, s6, []) && Run(cfg, s6, []) == s6;
    hide Next, Possible, Run;
    OneThen(cfg, s5, CloseReturn, []);
    OneThen(cfg, s4, CloseChannel, [CloseReturn]);
    OneThen(cfg, s3, Send(r), [CloseChannel, CloseReturn]);
    OneThen(cfg, s2, Leave(0), [Send(r), CloseChannel, CloseReturn]);
    OneThen(cfg, s1, SeeStop(0), [Leave(0), Send(r), CloseChannel, CloseReturn]);
    OneThen(cfg, s0, CloseStop, [SeeStop(0), Leave(0), Send(r), CloseChannel, CloseReturn]);
  }

  lemma OneThen(cfg: Config, s: State, a: Action, rest: seq<Action>)
    requires Enabled(cfg, s, a) && Possible(cfg, Next(cfg, s, a), rest)
    ensures Possible(cfg, s, [a] + rest) && Run(cfg, s, [a] + rest) == Run(cfg, Next(cfg, s, a), rest)
  {
    hide Enabled, Next;
    assert ([a] + rest)[1..] == rest;
  }
}

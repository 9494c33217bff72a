/** The audit service's calls and worker code on the pipeline state, step by step
    (plugins/audit/service.go). */
module AuditService {
  import opened AuditPipeline

  datatype Outcome = Accepted | StoredDirectly | ContextDone | Panicked

  lemma {:induction false} RunAppend(cfg: Config, s: State, actions: seq<Action>, more: seq<Action>)
    requires Possible(cfg, s, actions) && Possible(cfg, Run(cfg, s, actions), more)
    ensures Possible(cfg, s, actions + more) && Run(cfg, s, actions + more) == Run(cfg, Run(cfg, s, actions), more)
    decreases |actions|
  {
    hide Enabled, Next;
    if actions == [] {
      assert actions + more == more;
    } else {
      assert (actions + more)[1..] == actions[1..] + more;
      RunAppend(cfg, Next(cfg, s, actions[0]), actions[1..], more);
    }
  }

  /** One more step at the end of a schedule. */
  lemma RunOneMore(cfg: Config, s: State, actions: seq<Action>, a: Action)
    requires Possible(cfg, s, actions) && Enabled(cfg, Run(cfg, s, actions), a)
    ensures Possible(cfg, s, actions + [a]) && Run(cfg, s, actions + [a]) == Next(cfg, Run(cfg, s, actions), a)
  {
    hide Enabled, Next;
    var end := Run(cfg, s, actions);
    assert [a][1..] == [];
    assert Possible(cfg, Next(cfg, end, a), []);
    RunAppend(cfg, s, actions, [a]);
  }

  class Service {
    const cfg: Config
    var s: State

    constructor (cfg: Config)
      requires cfg.Ok()
      ensures this.cfg == cfg && s == Start(cfg) && Inv(cfg, s)
    {
      this.cfg, s := cfg, Start(cfg);
      new;
      StartIsFine(cfg);
    }

    /** The select of Record: any ready case, the fallback only if none is. */
    method Record(r: Record, contextDone: bool) returns (outcome: Outcome)
      requires cfg.Ok() && Inv(cfg, s)
      modifies this
      ensures Inv(cfg, s)
      ensures match outcome
        case Accepted => Enabled(cfg, old(s), Send(r)) && s == Next(cfg, old(s), Send(r))
        case StoredDirectly => Enabled(cfg, old(s), SyncRecord(r)) && s == Next(cfg, old(s), SyncRecord(r))
        case ContextDone => contextDone && s == old(s)
        case Panicked => ChannelClosed(s) && s == old(s)
      ensures !contextDone && !ChannelClosed(old(s)) ==> outcome == Accepted || outcome == StoredDirectly
    {
      var sendReady := ChannelClosed(s) || |s.chan| < cfg.buffer;
      if {
        case sendReady =>
          if ChannelClosed(s) {
            return Panicked;
          }
          StepKeepsInv(cfg, s, Send(r));
          s := s.(chan := s.chan + [r], sent := s.sent + [r]);
          outcome := Accepted;
        case contextDone =>
          outcome := ContextDone;
        case !sendReady && !contextDone =>
          StepKeepsInv(cfg, s, SyncRecord(r));
          s := s.(synced := s.synced + [r]);
          outcome := StoredDirectly;
      }
    }

    /** Flushes a full batch, as the loops do right after an append. */
    method FlushIfFull(w: nat, ghost schedule: seq<Action>) returns (ghost longer: seq<Action>)
      requires cfg.Ok() && Inv(cfg, s) && w < |s.workers| && s.workers[w].phase != Exited
      modifies this
      ensures Inv(cfg, s) && |s.workers| == |old(s).workers| && !Full(cfg, s.workers[w])
      ensures s == if Full(cfg, old(s).workers[w]) then Next(cfg, old(s), FlushFull(w)) else old(s)
      ensures longer == if Full(cfg, old(s).workers[w]) then schedule + [FlushFull(w)] else schedule
    {
      longer := schedule;
      if |s.workers[w].batch| >= cfg.batch {
        StepKeepsInv(cfg, s, FlushFull(w));
        var batch := s.workers[w].batch;
        s := s.(workers := s.workers[w := s.workers[w].(batch := [])],
                handed := if batch == [] then s.handed else s.handed + [batch]);
        longer := schedule + [FlushFull(w)];
      }
    }

    /** The draining loop of a worker that has seen the stop signal, run without interruption: it
        empties the channel, hands its last batch over and exits. */
    method Drain(w: nat, ghost origin: State, ghost schedule: seq<Action>) returns (ghost longer: seq<Action>)
      requires cfg.Ok() && Inv(cfg, s) && w < |s.workers| && s.workers[w].phase == Draining
      requires Possible(cfg, origin, schedule) && Run(cfg, origin, schedule) == s
      modifies this
      ensures Inv(cfg, s) && s.chan == [] && s.closing == old(s).closing && s.sent == old(s).sent
      ensures |s.workers| == |old(s).workers| && s.workers[w].phase == Exited
      ensures forall v :: 0 <= v < |s.workers| && v != w ==> s.workers[v] == old(s).workers[v]
      ensures Possible(cfg, origin, longer) && Run(cfg, origin, longer) == s
    {
      hide Inv, Run, Possible;
      longer := schedule;
      ghost var before := s;
      if Full(cfg, s.workers[w]) {
        RunOneMore(cfg, origin, longer, FlushFull(w));
      }
      longer := FlushIfFull(w, longer);
      while s.chan != []
        invariant Inv(cfg, s) && |s.workers| == |before.workers| && s.closing == before.closing && s.sent == before.sent
        invariant s.workers[w].phase == Draining && !Full(cfg, s.workers[w])
        invariant forall v :: 0 <= v < |s.workers| && v != w ==> s.workers[v] == before.workers[v]
        invariant Possible(cfg, origin, longer) && Run(cfg, origin, longer) == s
        decreases |s.chan|
      {
        RunOneMore(cfg, origin, longer, Receive(w));
        StepKeepsInv(cfg, s, Receive(w));
        longer := longer + [Receive(w)];
        var r, worker := s.chan[0], s.workers[w];
        s := s.(chan := s.chan[1..], workers := s.workers[w := worker.(batch := worker.batch + [r])],
                taken := s.taken + [r]);
        if Full(cfg, s.workers[w]) {
          RunOneMore(cfg, origin, longer, FlushFull(w));
        }
        longer := FlushIfFull(w, longer);
      }
      RunOneMore(cfg, origin, longer, Leave(w));
      StepKeepsInv(cfg, s, Leave(w));
      longer := longer + [Leave(w)];
      var batch := s.workers[w].batch;
      s := s.(workers := s.workers[w := Worker([], Exited)],
              handed := if batch == [] then s.handed else s.handed + [batch]);
    }

    /** A looping worker takes the stop case of its select. */
    method StopWorker(w: nat, ghost origin: State, ghost schedule: seq<Action>) returns (ghost longer: seq<Action>)
      requires cfg.Ok() && Inv(cfg, s) && w < |s.workers| && s.workers[w].phase == Looping && StopSeen(s)
      requires Possible(cfg, origin, schedule) && Run(cfg, origin, schedule) == s
      modifies this
      ensures Inv(cfg, s) && s.chan == [] && s.closing == old(s).closing && s.sent == old(s).sent
      ensures |s.workers| == |old(s).workers| && s.workers[w].phase == Exited
      ensures forall v :: 0 <= v < |s.workers| && v != w ==> s.workers[v] == old(s).workers[v]
      ensures Possible(cfg, origin, longer) && Run(cfg, origin, longer) == s
    {
      hide Inv, Run, Possible;
      if Full(cfg, s.workers[w]) {
        RunOneMore(cfg, origin, schedule, FlushFull(w));
      }
      longer := FlushIfFull(w, schedule);
      RunOneMore(cfg, origin, longer, SeeStop(w));
      StepKeepsInv(cfg, s, SeeStop(w));
      s := s.(workers := s.workers[w := s.workers[w].(phase := Draining)]);
      longer := Drain(w, origin, longer + [SeeStop(w)]);
    }

    /** Both channels are closed, in this order. */
    method CloseChannels() returns (ghost schedule: seq<Action>)
      requires cfg.Ok() && Inv(cfg, s) && s.closing == Open
      modifies this
      ensures Inv(cfg, s) && s == old(s).(closing := Closed, sentBefore := |s.sent|)
      ensures Possible(cfg, old(s), schedule) && Run(cfg, old(s), schedule) == s
    {
      ghost var origin := s;
      schedule := [];
      assert Possible(cfg, origin, schedule) && Run(cfg, origin, schedule) == s;
      hide Inv, Run, Possible;
      RunOneMore(cfg, origin, schedule, CloseStop);
      StepKeepsInv(cfg, s, CloseStop);
      s := s.(closing := Stopped, sentBefore := |s.sent|);
      RunOneMore(cfg, origin, schedule + [CloseStop], CloseChannel);
      StepKeepsInv(cfg, s, CloseChannel);
      s := s.(closing := Closed);
      schedule := schedule + [CloseStop] + [CloseChannel];
    }

    /** The workers one after the other. */
    method StopWorkers(ghost origin: State, ghost schedule: seq<Action>) returns (ghost longer: seq<Action>)
      requires cfg.Ok() && Inv(cfg, s) && s.closing == Closed
      requires forall w :: 0 <= w < |s.workers| ==> s.workers[w].phase == Looping
      requires Possible(cfg, origin, schedule) && Run(cfg, origin, schedule) == s
      modifies this
      ensures Inv(cfg, s) && s.closing == Closed && s.sent == old(s).sent && s.chan == []
      ensures forall w :: 0 <= w < |s.workers| ==> s.workers[w].phase == Exited
      ensures Possible(cfg, origin, longer) && Run(cfg, origin, longer) == s
    {
      SomeWorker(cfg, s);
      hide Inv, Run, Possible, Flat;
      longer := schedule;
      ghost var before := s;
      for w := 0 to |s.workers|
        invariant Inv(cfg, s) && |s.workers| == |before.workers| && s.closing == Closed && s.sent == before.sent
        invariant w > 0 ==> s.chan == []
        invariant forall v :: 0 <= v < |s.workers| ==> s.workers[v].phase == if v < w then Exited else Looping
        invariant Possible(cfg, origin, longer) && Run(cfg, origin, longer) == s
      {
        longer := StopWorker(w, origin, longer);
      }
    }

    /** Close, with no Record call in its way: from any reachable state it can run to its end, and
        everything sent has then been handed over. */
    method Close() returns (ghost schedule: seq<Action>)
      requires cfg.Ok() && Inv(cfg, s) && s.closing == Open
      modifies this
      ensures Inv(cfg, s) && s.closing == Returned && s.sent == old(s).sent
      ensures Possible(cfg, old(s), schedule) && Run(cfg, old(s), schedule) == s
      ensures s.chan == [] && multiset(Flat(s.handed)) == multiset(s.sent)
    {
      ghost var origin := s;
      NoneStopped(cfg, s);
      hide Inv, Run, Possible, Flat;
      schedule := CloseChannels();
      schedule := StopWorkers(origin, schedule);
      RunOneMore(cfg, origin, schedule, CloseReturn);
      StepKeepsInv(cfg, s, CloseReturn);
      schedule := schedule + [CloseReturn];
      s := s.(closing := Returned);
      ReturnedMeansHanded(cfg, s);
    }
  }

  lemma NoneStopped(cfg: Config, s: State)
    requires Inv(cfg, s) && s.closing == Open
    ensures forall w :: 0 <= w < |s.workers| ==> s.workers[w].phase == Looping
  {
  }

  lemma SomeWorker(cfg: Config, s: State)
    requires cfg.Ok() && Inv(cfg, s)
    ensures |s.workers| > 0
  {
  }
}

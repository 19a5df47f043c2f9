/** What one call of the import does when nothing disturbs it, step by step, and how it ends. */
module ImportCompletion {
  import opened Common
  import opened ImportProtocol

  predicate Reviewed(req: Request, remote: Snapshot) { STATE in remote.files && remote.files[STATE] == req.reviewed }

  /** The call may be made: nobody works on the journal, the remote state is the reviewed one and can be planned on,
      and no attempt of this trial is on record. */
  ghost predicate MayRun(plan: Planner, s: System, op: nat, req: Request) {
    && s.At(op) == Idle && s.lock == None && Reviewed(req, s.remote)
    && plan(req, s.remote).Some? && req.claim !in s.backups
    && forall c | c in s.journal :: s.journal[c] == Whole && c.trial != req.claim.trial
  }

  lemma RunHead(plan: Planner, s: System, e: Event, rest: seq<Event>)
    ensures Run(plan, s, [e] + rest) == Run(plan, Step(plan, s, e), rest)
  {
    assert ([e] + rest)[1..] == rest;
    hide Step;
  }

  /** An operator moves on, and everything else stays. */
  ghost predicate Moved(s: System, t: System, op: nat, stage: Stage) {
    && t.At(op) == stage && t.remote == s.remote && t.patches == s.patches && t.reports == s.reports
    && t.journal == s.journal && t.backups == s.backups && t.lock == s.lock
  }

  lemma Enters(plan: Planner, s: System, op: nat, req: Request)
    ensures s.At(op) == Idle ==> Moved(s, Step(plan, s, Begin(op, req)), op, Waiting(req))
    ensures s.At(op) == Waiting(req) && s.lock == None ==>
              Moved(s.(lock := Some(op)), Step(plan, s, Acquire(op)), op, Locked(req))
  {
  }

  lemma Plans(plan: Planner, s: System, op: nat, req: Request, content: string)
    ensures s.At(op) == Locked(req) && Reviewed(req, s.remote) && plan(req, s.remote) == Some(content) ==>
              Moved(s, Step(plan, s, ReadFirst(op)), op, Planned(req, s.remote, content))
    ensures s.At(op) == Planned(req, s.remote, content)
            && (forall c | c in s.journal :: s.journal[c] == Whole && c.trial != req.claim.trial) ==>
              Moved(s, Step(plan, s, CheckJournal(op)), op, Clear(req, s.remote, content))
    ensures s.At(op) == Clear(req, s.remote, content) ==>
              Moved(s, Step(plan, s, ReadSecond(op)), op, Agreed(req, s.remote, content))
  {
  }

  lemma Marks(plan: Planner, s: System, op: nat, req: Request, first: Snapshot, content: string)
    ensures s.At(op) == Agreed(req, first, content) && req.claim !in s.backups ==>
              Moved(s.(backups := s.backups + {req.claim}), Step(plan, s, MakeBackup(op)), op, BackedUp(req, first, content))
    ensures s.At(op) == BackedUp(req, first, content) && req.claim !in s.journal ==>
              Moved(s.(journal := s.journal[req.claim := Torn]), Step(plan, s, OpenMarker(op)), op, Marking(req, first, content))
    ensures s.At(op) == Marking(req, first, content) ==>
              Moved(s.(journal := s.journal[req.claim := Whole]), Step(plan, s, SyncMarker(op)), op, Marked(req, first, content))
    ensures s.At(op) == Marked(req, first, content) && plan(req, first) == Some(content) ==>
              Moved(s, Step(plan, s, PlanAgain(op)), op, Cleared(req, first, content))
  {
  }

  lemma Enter(plan: Planner, s: System, op: nat, req: Request, rest: seq<Event>) returns (t: System)
    requires MayRun(plan, s, op, req)
    ensures Moved(s.(lock := Some(op)), t, op, Locked(req))
    ensures Run(plan, s, [Begin(op, req)] + ([Acquire(op)] + rest)) == Run(plan, t, rest)
  {
    var a := Step(plan, s, Begin(op, req));
    t := Step(plan, a, Acquire(op));
    Enters(plan, s, op, req);
    Enters(plan, a, op, req);
    hide Step, Run;
    RunHead(plan, a, Acquire(op), rest);
    RunHead(plan, s, Begin(op, req), [Acquire(op)] + rest);
  }

  lemma Agree(plan: Planner, s: System, op: nat, req: Request, content: string, rest: seq<Event>) returns (t: System)
    requires s.At(op) == Locked(req) && Reviewed(req, s.remote)
    requires plan(req, s.remote) == Some(content) && forall c | c in s.journal :: s.journal[c] == Whole && c.trial != req.claim.trial
    ensures Moved(s, t, op, Agreed(req, s.remote, content))
    ensures Run(plan, s, [ReadFirst(op)] + ([CheckJournal(op)] + ([ReadSecond(op)] + rest))) == Run(plan, t, rest)
  {
    var a := Step(plan, s, ReadFirst(op));
    var b := Step(plan, a, CheckJournal(op));
    t := Step(plan, b, ReadSecond(op));
    Plans(plan, s, op, req, content);
    Plans(plan, a, op, req, content);
    Plans(plan, b, op, req, content);
    hide Step, Run;
    RunHead(plan, b, ReadSecond(op), rest);
    RunHead(plan, a, CheckJournal(op), [ReadSecond(op)] + rest);
    RunHead(plan, s, ReadFirst(op), [CheckJournal(op)] + ([ReadSecond(op)] + rest));
  }

  lemma Mark(plan: Planner, s: System, op: nat, req: Request, first: Snapshot, content: string, rest: seq<Event>) returns (t: System)
    requires s.At(op) == Agreed(req, first, content) && plan(req, first) == Some(content)
    requires req.claim !in s.backups && req.claim !in s.journal
    ensures Moved(s.(backups := s.backups + {req.claim}, journal := s.journal[req.claim := Whole]), t, op, Cleared(req, first, content))
    ensures Run(plan, s, [MakeBackup(op)] + ([OpenMarker(op)] + ([SyncMarker(op)] + ([PlanAgain(op)] + rest)))) == Run(plan, t, rest)
  {
    var a := Step(plan, s, MakeBackup(op));
    var b := Step(plan, a, OpenMarker(op));
    var c := Step(plan, b, SyncMarker(op));
    t := Step(plan, c, PlanAgain(op));
    Marks(plan, s, op, req, first, content);
    Marks(plan, a, op, req, first, content);
    Marks(plan, b, op, req, first, content);
    Marks(plan, c, op, req, first, content);
    hide Step, Run;
    RunHead(plan, c, PlanAgain(op), rest);
    RunHead(plan, b, SyncMarker(op), [PlanAgain(op)] + rest);
    RunHead(plan, a, OpenMarker(op), [SyncMarker(op)] + ([PlanAgain(op)] + rest));
    RunHead(plan, s, MakeBackup(op), [OpenMarker(op)] + ([SyncMarker(op)] + ([PlanAgain(op)] + rest)));
  }

  /** The remote after the write, if it landed, as the call itself leaves it. */
  function Written(remote: Snapshot, content: string, landed: bool): Snapshot {
    if landed then remote.(files := remote.files[STATE := content]) else remote
  }

  /** What the readback is reported as. */
  function Ending(first: Snapshot, content: string, acknowledged: bool, after: Option<Snapshot>): Outcome {
    match after
    case None => Unknown
    case Some(a) =>
      if a.flags != first.flags || a.files != first.files[STATE := content] then ReadbackConflict
      else if acknowledged then ConfirmedPending else ConfirmedAfterUncertain
  }

  /** The last steps: the write, whatever others do before the readback, the readback and the report. */
  lemma Send(plan: Planner, s: System, op: nat, req: Request, first: Snapshot, content: string, landed: bool, acknowledged: bool,
             others: Option<Snapshot>, answered: bool) returns (t: System)
    requires s.At(op) == Cleared(req, first, content) && s.lock == Some(op)
    ensures var now := if others.Some? then others.value else Written(s.remote, content, landed);
      var after := if answered then Some(now) else None;
      && t == Run(plan, s, [SendPatch(op, landed, acknowledged)]
                + ((if others.Some? then [OtherWriter(others.value)] else []) + ([ReadAfter(op, answered)] + [WriteReport(op)])))
      && t.patches == s.patches + [Patch(req.claim, content)] && t.journal == s.journal && t.lock == None && t.At(op) == Idle
      && t.reports == s.reports + [Report(req, first, content, acknowledged, Ending(first, content, acknowledged, after), after)]
      && t.remote == now
  {
    var a := Step(plan, s, SendPatch(op, landed, acknowledged));
    var b := if others.Some? then Step(plan, a, OtherWriter(others.value)) else a;
    var c := Step(plan, b, ReadAfter(op, answered));
    t := Step(plan, c, WriteReport(op));
    var now := if others.Some? then others.value else Written(s.remote, content, landed);
    var after := if answered then Some(now) else None;
    Sends(plan, s, op, req, first, content, landed, acknowledged);
    if others.Some? {
      Overwrites(plan, a, op, others.value);
    }
    Reads(plan, b, op, req, first, content, acknowledged, answered);
    Reports(plan, c, op, req, first, content, acknowledged, after);
    hide Step, Run, Ending, Written;
    SendRuns(plan, s, a, b, c, op, landed, acknowledged, others, answered);
  }

  lemma Sends(plan: Planner, s: System, op: nat, req: Request, first: Snapshot, content: string, landed: bool, acknowledged: bool)
    requires s.At(op) == Cleared(req, first, content)
    ensures Moved(s.(patches := s.patches + [Patch(req.claim, content)], remote := Written(s.remote, content, landed)),
                  Step(plan, s, SendPatch(op, landed, acknowledged)), op, Patched(req, first, content, acknowledged))
  {
  }

  lemma Overwrites(plan: Planner, s: System, op: nat, remote: Snapshot)
    ensures Moved(s.(remote := remote), Step(plan, s, OtherWriter(remote)), op, s.At(op))
  {
  }

  lemma Reads(plan: Planner, s: System, op: nat, req: Request, first: Snapshot, content: string, acknowledged: bool, answered: bool)
    requires s.At(op) == Patched(req, first, content, acknowledged)
    ensures var after := if answered then Some(s.remote) else None;
      Moved(s, Step(plan, s, ReadAfter(op, answered)), op,
            ReadBack(req, first, content, acknowledged, Ending(first, content, acknowledged, after), after))
  {
    EndingIsVerdict(first, content, acknowledged, s.remote);
    hide Verdict;
  }

  lemma Reports(plan: Planner, s: System, op: nat, req: Request, first: Snapshot, content: string, acknowledged: bool,
                after: Option<Snapshot>)
    requires s.At(op) == ReadBack(req, first, content, acknowledged, Ending(first, content, acknowledged, after), after)
    requires s.lock == Some(op)
    ensures var r := Report(req, first, content, acknowledged, Ending(first, content, acknowledged, after), after);
      Moved(s.(lock := None, reports := s.reports + [r]), Step(plan, s, WriteReport(op)), op, Idle)
  {
    hide Ending;
  }

  lemma EndingIsVerdict(first: Snapshot, content: string, acknowledged: bool, after: Snapshot)
    ensures Verdict(acknowledged, first, content, after) == Ending(first, content, acknowledged, Some(after))
  {
  }

  lemma SendRuns(plan: Planner, s: System, a: System, b: System, c: System, op: nat, landed: bool, acknowledged: bool,
                 others: Option<Snapshot>, answered: bool)
    requires a == Step(plan, s, SendPatch(op, landed, acknowledged))
    requires b == if others.Some? then Step(plan, a, OtherWriter(others.value)) else a
    requires c == Step(plan, b, ReadAfter(op, answered))
    ensures Run(plan, s, [SendPatch(op, landed, acknowledged)]
              + ((if others.Some? then [OtherWriter(others.value)] else []) + ([ReadAfter(op, answered)] + [WriteReport(op)])))
         == Step(plan, c, WriteReport(op))
  {
    hide Step;
    var last := [ReadAfter(op, answered)] + [WriteReport(op)];
    var more := if others.Some? then [OtherWriter(others.value)] else [];
    assert [] + last == last;
    RunHead(plan, s, SendPatch(op, landed, acknowledged), more + last);
    if others.Some? {
      RunHead(plan, a, OtherWriter(others.value), last);
    }
    RunHead(plan, b, ReadAfter(op, answered), [WriteReport(op)]);
    assert [WriteReport(op)] + [] == [WriteReport(op)];
    RunHead(plan, c, WriteReport(op), []);
  }

  /** All steps of one call, with another writer between the write and the readback or without. */
  function Call(op: nat, req: Request, landed: bool, acknowledged: bool, others: Option<Snapshot>, answered: bool): seq<Event> {
    [Begin(op, req)] + ([Acquire(op)] + ([ReadFirst(op)] + ([CheckJournal(op)] + ([ReadSecond(op)] + ([MakeBackup(op)]
      + ([OpenMarker(op)] + ([SyncMarker(op)] + ([PlanAgain(op)] + ([SendPatch(op, landed, acknowledged)]
      + ((if others.Some? then [OtherWriter(others.value)] else []) + ([ReadAfter(op, answered)] + [WriteReport(op)])))))))))))
  }

  /** MAIN RESULT. A call that nobody interrupts goes through: it leaves the attempt durable, sends the planned payload once,
      and reports what it read back: unknown if nothing, confirmed exactly if the snapshot is the first one with
      the planned content as its state file, after an uncertain response if the write was not acknowledged, and a
      conflict in every other case. */
  lemma CallCompletes(plan: Planner, s: System, op: nat, req: Request, landed: bool, acknowledged: bool,
                      others: Option<Snapshot>, answered: bool)
    requires MayRun(plan, s, op, req)
    ensures var t := Run(plan, s, Call(op, req, landed, acknowledged, others, answered));
      var content := plan(req, s.remote).value;
      var now := if others.Some? then others.value else Written(s.remote, content, landed);
      var after := if answered then Some(now) else None;
      && t.patches == s.patches + [Patch(req.claim, content)] && t.journal == s.journal[req.claim := Whole]
      && t.reports == s.reports + [Report(req, s.remote, content, acknowledged, Ending(s.remote, content, acknowledged, after), after)]
      && t.remote == now && t.lock == None && t.At(op) == Idle
  {
    var content := plan(req, s.remote).value;
    var send := [SendPatch(op, landed, acknowledged)]
      + ((if others.Some? then [OtherWriter(others.value)] else []) + ([ReadAfter(op, answered)] + [WriteReport(op)]));
    var mark := [MakeBackup(op)] + ([OpenMarker(op)] + ([SyncMarker(op)] + ([PlanAgain(op)] + send)));
    var agree := [ReadFirst(op)] + ([CheckJournal(op)] + ([ReadSecond(op)] + mark));
    assert Call(op, req, landed, acknowledged, others, answered) == [Begin(op, req)] + ([Acquire(op)] + agree);
    hide Run, Step, Ending, Written, Call;
    var a := Enter(plan, s, op, req, agree);
    var b := Agree(plan, a, op, req, content, mark);
    var c := Mark(plan, b, op, req, s.remote, content, send);
    var d := Send(plan, c, op, req, s.remote, content, landed, acknowledged, others, answered);
  }
}

/** The write protocol of the import: any number of operators share one journal directory, any of
    them may refuse, fail or die between two steps, and other writers may change the remote
    state at any moment. A run is a list of events; `Step` says what each one does. */
module ImportProtocol {
  import opened Common

  type Id = string

  /** One draft of one trial. Its SHA-256 names the journal files, so distinct claims have distinct files. */
  datatype Claim = Claim(trial: Id, draft: Id)

  /** What one read returns: the two files and the control flags. */
  datatype Snapshot = Snapshot(files: map<string, string>, flags: map<string, string>)

  datatype Request = Request(claim: Claim, reviewed: string)

  /** The payload that `plan` computes from a snapshot, when it does not refuse. The clock can only
      add refusals, which are `Refuse` events. */
  type Planner = (Request, Snapshot) -> Option<string>

  const STATE := "state.json"

  /** An attempt file: opened exclusively but not yet on disk as a whole, or durable. */
  datatype Marker = Torn | Whole

  datatype Outcome = Unknown | ConfirmedPending | ConfirmedAfterUncertain | ReadbackConflict

  /** How far one call of `execute` has come. */
  datatype Stage =
    | Idle
    | Waiting(req: Request)
    | Locked(req: Request)
    | Planned(req: Request, first: Snapshot, content: string)
    | Clear(req: Request, first: Snapshot, content: string)
    | Agreed(req: Request, first: Snapshot, content: string)
    | BackedUp(req: Request, first: Snapshot, content: string)
    | Marking(req: Request, first: Snapshot, content: string)
    | Marked(req: Request, first: Snapshot, content: string)
    | Cleared(req: Request, first: Snapshot, content: string)
    | Patched(req: Request, first: Snapshot, content: string, acknowledged: bool)
    | ReadBack(req: Request, first: Snapshot, content: string, acknowledged: bool, outcome: Outcome, after: Option<Snapshot>)

  datatype Patch = Patch(claim: Claim, content: string)

  /** The result file: whether the write was acknowledged, the outcome, and the snapshot read afterwards. */
  datatype Report = Report(
    req: Request, first: Snapshot, content: string, acknowledged: bool, outcome: Outcome, after: Option<Snapshot>)

  datatype System = System(
    journal: map<Claim, Marker>,
    backups: set<Claim>,
    lock: Option<nat>,
    stages: map<nat, Stage>,
    remote: Snapshot,
    patches: seq<Patch>,
    reports: seq<Report>)
  {
    function At(op: nat): Stage { if op in stages then stages[op] else Idle }

    function Put(op: nat, stage: Stage): System { this.(stages := stages[op := stage]) }

    /** Leaving `execute`, in whatever way, gives the lock back. */
    function Leave(op: nat): System {
      this.(stages := stages[op := Idle], lock := if lock == Some(op) then None else lock)
    }
  }

  /** What is left of a marker whose writer died before it was durable. */
  datatype Fate = Lost | LeftTorn | LeftWhole

  datatype Event =
    | Begin(op: nat, req: Request)
    | Acquire(op: nat)
    | ReadFirst(op: nat)
    | CheckJournal(op: nat)
    | ReadSecond(op: nat)
    | MakeBackup(op: nat)
    | OpenMarker(op: nat)
    | SyncMarker(op: nat)
    | PlanAgain(op: nat)
    | SendPatch(op: nat, landed: bool, acknowledged: bool)
    | ReadAfter(op: nat, answered: bool)
    | WriteReport(op: nat)
    | Refuse(op: nat)
    | Crash(op: nat, fate: Fate)
    | TornMarkerVanishes(claim: Claim)
    | OtherWriter(remote: Snapshot)

  /** No earlier attempt of this trial is recorded, and every record can be read. */
  ghost predicate JournalClear(journal: map<Claim, Marker>, claim: Claim) {
    claim !in journal && forall c | c in journal :: journal[c] == Whole && c.trial != claim.trial
  }

  function Expected(first: Snapshot, content: string): Snapshot {
    first.(files := first.files[STATE := content])
  }

  function Verdict(acknowledged: bool, first: Snapshot, content: string, after: Snapshot): Outcome {
    if after != Expected(first, content) then ReadbackConflict
    else if acknowledged then ConfirmedPending
    else ConfirmedAfterUncertain
  }

  /** One event. An event that its operator is not ready for, or whose check fails, is a refusal:
      the call ends and the lock is free again. */
  ghost function Step(plan: Planner, s: System, e: Event): System {
    match e
    case Begin(op, req) =>
      if s.At(op) == Idle then s.Put(op, Waiting(req)) else s
    case Acquire(op) =>
      if s.At(op).Waiting? && s.lock == None then s.Put(op, Locked(s.At(op).req)).(lock := Some(op)) else s
    case ReadFirst(op) =>
      if !s.At(op).Locked? then s
      else
        var req := s.At(op).req;
        var content := plan(req, s.remote);
        if STATE in s.remote.files && s.remote.files[STATE] == req.reviewed && content.Some?
        then s.Put(op, Planned(req, s.remote, content.value)) else s.Leave(op)
    case CheckJournal(op) =>
      (match s.At(op)
       case Planned(req, first, content) =>
         if JournalClear(s.journal, req.claim) then s.Put(op, Clear(req, first, content)) else s.Leave(op)
       case _ => s)
    case ReadSecond(op) =>
      (match s.At(op)
       case Clear(req, first, content) =>
         if s.remote == first then s.Put(op, Agreed(req, first, content)) else s.Leave(op)
       case _ => s)
    case MakeBackup(op) =>
      (match s.At(op)
       case Agreed(req, first, content) =>
         if req.claim in s.backups then s.Leave(op)
         else s.Put(op, BackedUp(req, first, content)).(backups := s.backups + {req.claim})
       case _ => s)
    case OpenMarker(op) =>
      (match s.At(op)
       case BackedUp(req, first, content) =>
         if req.claim in s.journal then s.Leave(op)
         else s.Put(op, Marking(req, first, content)).(journal := s.journal[req.claim := Torn])
       case _ => s)
    case SyncMarker(op) =>
      (match s.At(op)
       case Marking(req, first, content) =>
         s.Put(op, Marked(req, first, content)).(journal := s.journal[req.claim := Whole])
       case _ => s)
    case PlanAgain(op) =>
      (match s.At(op)
       case Marked(req, first, content) =>
         if plan(req, first) == Some(content) then s.Put(op, Cleared(req, first, content)) else s.Leave(op)
       case _ => s)
    case SendPatch(op, landed, acknowledged) =>
      (match s.At(op)
       case Cleared(req, first, content) =>
         var sent := s.Put(op, Patched(req, first, content, acknowledged)).(patches := s.patches + [Patch(req.claim, content)]);
         if landed then sent.(remote := s.remote.(files := s.remote.files[STATE := content])) else sent
       case _ => s)
    case ReadAfter(op, answered) =>
      (match s.At(op)
       case Patched(req, first, content, acknowledged) =>
         if answered
         then s.Put(op, ReadBack(req, first, content, acknowledged, Verdict(acknowledged, first, content, s.remote), Some(s.remote)))
         else s.Put(op, ReadBack(req, first, content, acknowledged, Unknown, None))
       case _ => s)
    case WriteReport(op) =>
      (match s.At(op)
       case ReadBack(req, first, content, acknowledged, outcome, after) =>
         s.Leave(op).(reports := s.reports + [Report(req, first, content, acknowledged, outcome, after)])
       case _ => s)
    case Refuse(op) => s.Leave(op)
    case Crash(op, fate) =>
      (match s.At(op)
       case Marking(req, _, _) =>
         s.Leave(op).(journal :=
           match fate
           case Lost => map c | c in s.journal && c != req.claim :: s.journal[c]
           case LeftTorn => s.journal
           case LeftWhole => s.journal[req.claim := Whole])
       case _ => s.Leave(op))
    case TornMarkerVanishes(claim) =>
      if s.lock == None && claim in s.journal && s.journal[claim] == Torn
      then s.(journal := map c | c in s.journal && c != claim :: s.journal[c]) else s
    case OtherWriter(remote) => s.(remote := remote)
  }

  ghost function Run(plan: Planner, s: System, events: seq<Event>): System
    decreases |events|
  {
    if events == [] then s else Run(plan, Step(plan, s, events[0]), events[1..])
  }

  /** An empty journal and nobody at work. */
  function Initial(remote: Snapshot): System {
    System(map[], {}, None, map[], remote, [], [])
  }

  // ----- the invariant

  ghost predicate HoldsLock(stage: Stage) {
    !stage.Idle? && !stage.Waiting?
  }

  ghost predicate OnlyMarker(journal: map<Claim, Marker>, claim: Claim, marker: Marker) {
    claim in journal && journal[claim] == marker && forall c | c in journal && c != claim :: c.trial != claim.trial
  }

  ghost predicate NotSent(patches: seq<Patch>, trial: Id) {
    forall i | 0 <= i < |patches| :: patches[i].claim.trial != trial
  }

  /** The payload is the planned one for the snapshot that holds exactly the reviewed state. */
  ghost predicate Based(plan: Planner, req: Request, first: Snapshot, content: string) {
    && STATE in first.files && first.files[STATE] == req.reviewed
    && plan(req, first) == Some(content)
  }

  /** What an operator knows at its stage. */
  ghost predicate Knows(plan: Planner, s: System, stage: Stage) {
    match stage
    case Planned(req, first, content) => Based(plan, req, first, content)
    case Clear(req, first, content) => MayAttempt(plan, s, req, first, content)
    case Agreed(req, first, content) => MayAttempt(plan, s, req, first, content)
    case BackedUp(req, first, content) => MayAttempt(plan, s, req, first, content)
    case Marking(req, first, content) => Attempting(plan, s, req, first, content, Torn)
    case Marked(req, first, content) => Attempting(plan, s, req, first, content, Whole)
    case Cleared(req, first, content) => Attempting(plan, s, req, first, content, Whole)
    case Patched(req, first, content, _) =>
      Based(plan, req, first, content) && Patch(req.claim, content) in s.patches
    case ReadBack(req, first, content, acknowledged, outcome, after) =>
      Sound(plan, s, Report(req, first, content, acknowledged, outcome, after))
    case _ => true
  }

  ghost predicate MayAttempt(plan: Planner, s: System, req: Request, first: Snapshot, content: string) {
    Based(plan, req, first, content) && NotSent(s.patches, req.claim.trial) && JournalClear(s.journal, req.claim)
  }

  ghost predicate Attempting(plan: Planner, s: System, req: Request, first: Snapshot, content: string, marker: Marker) {
    Based(plan, req, first, content) && NotSent(s.patches, req.claim.trial) && OnlyMarker(s.journal, req.claim, marker)
  }

  /** A report speaks of a patch that was sent, with the planned content. It says unknown exactly when nothing
      could be read back; confirmed exactly when what was read back is the first snapshot with that content as
      its state file, plainly if the write was acknowledged and after an uncertain response if not; and
      a conflict exactly when it is anything else. */
  ghost predicate Sound(plan: Planner, s: System, r: Report) {
    && Based(plan, r.req, r.first, r.content)
    && Patch(r.req.claim, r.content) in s.patches
    && (r.outcome == Unknown <==> r.after.None?)
    && (r.outcome == ConfirmedPending <==> r.acknowledged && r.after == Some(r.first.(files := r.first.files[STATE := r.content])))
    && (r.outcome == ConfirmedAfterUncertain <==>
          !r.acknowledged && r.after == Some(r.first.(files := r.first.files[STATE := r.content])))
  }

  ghost predicate Exclusive(s: System) {
    forall op | op in s.stages && HoldsLock(s.stages[op]) :: s.lock == Some(op)
  }

  ghost predicate Recorded(journal: map<Claim, Marker>, patches: seq<Patch>) {
    forall i | 0 <= i < |patches| :: patches[i].claim in journal && journal[patches[i].claim] == Whole
  }

  ghost predicate OnePatchPerTrial(patches: seq<Patch>) {
    forall i, j | 0 <= i < j < |patches| :: patches[i].claim.trial != patches[j].claim.trial
  }

  ghost predicate ReportsSound(plan: Planner, s: System) {
    forall i | 0 <= i < |s.reports| :: Sound(plan, s, s.reports[i])
  }

  ghost predicate Inv(plan: Planner, s: System) {
    && Exclusive(s)
    && (s.lock.Some? ==> Knows(plan, s, s.At(s.lock.value)))
    && Recorded(s.journal, s.patches) && OnePatchPerTrial(s.patches) && ReportsSound(plan, s)
  }

  /** Leaving needs nothing of the operator that leaves. */
  lemma LeaveKeepsInv(plan: Planner, s: System, op: nat)
    requires Exclusive(s) && Recorded(s.journal, s.patches) && OnePatchPerTrial(s.patches) && ReportsSound(plan, s)
    requires s.lock.Some? && s.lock != Some(op) ==> Knows(plan, s, s.At(s.lock.value))
    ensures Inv(plan, s.Leave(op))
  {
    var t := s.Leave(op);
    assert ReportsSound(plan, t) by {
      assert t.patches == s.patches && t.reports == s.reports;
    }
  }

  /** The operator with the lock goes on to a stage it knows enough for. */
  lemma MoveKeepsInv(plan: Planner, s: System, t: System, op: nat, stage: Stage)
    requires Inv(plan, s) && HoldsLock(s.At(op))
    requires t.stages == s.stages[op := stage] && t.lock == s.lock && t.reports == s.reports && s.patches <= t.patches
    requires Recorded(t.journal, t.patches) && OnePatchPerTrial(t.patches)
    requires Knows(plan, t, stage)
    ensures Inv(plan, t)
  {
    assert s.lock == Some(op);
    forall i | 0 <= i < |t.reports| ensures Sound(plan, t, t.reports[i]) {
      assert Sound(plan, s, s.reports[i]);
    }
  }

  lemma OpenKeepsInv(plan: Planner, s: System, op: nat)
    requires Inv(plan, s)
    ensures Inv(plan, Step(plan, s, OpenMarker(op)))
  {
    var t := Step(plan, s, OpenMarker(op));
    if s.At(op).BackedUp? && s.At(op).req.claim !in s.journal {
      MoveKeepsInv(plan, s, t, op, t.At(op));
    } else if s.At(op).BackedUp? {
      LeaveKeepsInv(plan, s, op);
    }
  }

  lemma SyncKeepsInv(plan: Planner, s: System, op: nat)
    requires Inv(plan, s)
    ensures Inv(plan, Step(plan, s, SyncMarker(op)))
  {
    var t := Step(plan, s, SyncMarker(op));
    if s.At(op).Marking? {
      MoveKeepsInv(plan, s, t, op, t.At(op));
    }
  }

  lemma SendKeepsInv(plan: Planner, s: System, e: Event)
    requires Inv(plan, s) && e.SendPatch?
    ensures Inv(plan, Step(plan, s, e))
  {
    var t := Step(plan, s, e);
    if s.At(e.op).Cleared? {
      assert t.patches[|s.patches|] == Patch(s.At(e.op).req.claim, s.At(e.op).content);
      MoveKeepsInv(plan, s, t, e.op, t.At(e.op));
    }
  }

  lemma CrashKeepsInv(plan: Planner, s: System, op: nat, fate: Fate)
    requires Inv(plan, s)
    ensures Inv(plan, Step(plan, s, Crash(op, fate)))
  {
    var t := Step(plan, s, Crash(op, fate));
    if s.At(op).Marking? {
      assert s.lock == Some(op);
      assert Recorded(t.journal, t.patches) by {
        assert NotSent(s.patches, s.At(op).req.claim.trial);
      }
      assert ReportsSound(plan, t) by {
        assert t.patches == s.patches && t.reports == s.reports;
      }
    } else {
      LeaveKeepsInv(plan, s, op);
    }
  }

  lemma PassiveKeepsInv(plan: Planner, s: System, e: Event)
    requires Inv(plan, s)
    requires !(e.OpenMarker? || e.SyncMarker? || e.SendPatch? || e.Crash? || e.TornMarkerVanishes? || e.OtherWriter?)
    ensures Inv(plan, Step(plan, s, e))
  {
    var t := Step(plan, s, e);
    if t == s {
    } else if e.Begin? {
      assert ReportsSound(plan, t);
    } else if e.Acquire? {
      assert ReportsSound(plan, t);
    } else if e.WriteReport? {
      var r := t.reports[|s.reports|];
      var u := s.(reports := s.reports + [r]);
      forall i | 0 <= i < |u.reports| ensures Sound(plan, u, u.reports[i]) {
        if i < |s.reports| {
          assert Sound(plan, s, s.reports[i]);
        }
      }
      LeaveKeepsInv(plan, u, e.op);
    } else if t == s.Leave(e.op) {
      LeaveKeepsInv(plan, s, e.op);
    } else {
      MoveKeepsInv(plan, s, t, e.op, t.At(e.op));
    }
  }

  /** Every event keeps the invariant, whoever is at whatever step. */
  lemma StepKeepsInv(plan: Planner, s: System, e: Event)
    requires Inv(plan, s)
    ensures Inv(plan, Step(plan, s, e))
  {
    var t := Step(plan, s, e);
    if e.OpenMarker? {
      OpenKeepsInv(plan, s, e.op);
    } else if e.SyncMarker? {
      SyncKeepsInv(plan, s, e.op);
    } else if e.SendPatch? {
      SendKeepsInv(plan, s, e);
    } else if e.Crash? {
      CrashKeepsInv(plan, s, e.op, e.fate);
    } else if e.TornMarkerVanishes? || e.OtherWriter? {
      assert ReportsSound(plan, t);
    } else {
      PassiveKeepsInv(plan, s, e);
    }
  }

  lemma {:induction false} RunKeepsInv(plan: Planner, s: System, events: seq<Event>)
    requires Inv(plan, s)
    ensures Inv(plan, Run(plan, s, events))
    decreases |events|
  {
    if events != [] {
      StepKeepsInv(plan, s, events[0]);
      RunKeepsInv(plan, Step(plan, s, events[0]), events[1..]);
    }
  }

  // ----- main results

  function Sent(patches: seq<Patch>, trial: Id): nat {
    if patches == [] then 0 else (if patches[0].claim.trial == trial then 1 else 0) + Sent(patches[1..], trial)
  }

  lemma {:induction false} NoneSent(patches: seq<Patch>, trial: Id)
    requires NotSent(patches, trial)
    ensures Sent(patches, trial) == 0
  {
    if patches != [] {
      NoneSent(patches[1..], trial);
    }
  }

  lemma {:induction false} SentAtMostOnce(patches: seq<Patch>, trial: Id)
    requires OnePatchPerTrial(patches)
    ensures Sent(patches, trial) <= 1
  {
    if patches != [] {
      if patches[0].claim.trial == trial {
        forall i | 0 <= i < |patches[1..]| ensures patches[1..][i].claim.trial != trial {
          assert patches[1..][i] == patches[i + 1];
        }
        NoneSent(patches[1..], trial);
      } else {
        assert OnePatchPerTrial(patches[1..]);
        SentAtMostOnce(patches[1..], trial);
      }
    }
  }

  /** MAIN RESULT. Over every run of any number of operators, with refusals and crashes anywhere and
      other writers at any time, at most one PATCH is sent for a trial; each one that was sent has
      its durable attempt file; and a confirmed report means that the readback was the reviewed
      snapshot with exactly the planned content as its state file. */
  lemma AtMostOnePatchPerTrial(plan: Planner, remote: Snapshot, events: seq<Event>, trial: Id)
    ensures var s := Run(plan, Initial(remote), events);
      && Sent(s.patches, trial) <= 1
      && Recorded(s.journal, s.patches)
      && ReportsSound(plan, s)
  {
    RunKeepsInv(plan, Initial(remote), events);
    SentAtMostOnce(Run(plan, Initial(remote), events).patches, trial);
  }

  /** At the moment a PATCH leaves, its attempt file is already durable. */
  lemma MarkerBeforePatch(plan: Planner, s: System, e: Event)
    requires Inv(plan, s)
    ensures var t := Step(plan, s, e);
      t.patches != s.patches ==>
      && e.SendPatch?
      && t.patches == s.patches + [Patch(s.At(e.op).req.claim, s.At(e.op).content)]
      && s.lock == Some(e.op) && s.At(e.op).Cleared?
      && OnlyMarker(s.journal, s.At(e.op).req.claim, Whole)
  {
  }

  /** A durable attempt file of this trial exists, and nobody is between writing it and sending. */
  ghost predicate Consumed(s: System, trial: Id) {
    && (exists c | c in s.journal :: c.trial == trial && s.journal[c] == Whole)
    && (s.lock.Some? ==>
          var stage := s.At(s.lock.value);
          !((stage.Marked? || stage.Cleared?) && stage.req.claim.trial == trial))
  }

  /** A durable attempt file is never removed or rewritten. */
  lemma WholeStays(plan: Planner, s: System, e: Event, c: Claim)
    requires Inv(plan, s) && c in s.journal && s.journal[c] == Whole
    ensures var t := Step(plan, s, e); c in t.journal && t.journal[c] == Whole
  {
  }

  /** While another attempt of the trial is on record, nobody gets as far as its own attempt file. */
  lemma NobodyAttempts(plan: Planner, s: System, e: Event, c: Claim)
    requires Inv(plan, s) && c in s.journal && s.journal[c] == Whole
    requires var t := Step(plan, s, e);
      t.lock.Some? && (t.At(t.lock.value).Marked? || t.At(t.lock.value).Cleared?)
      && t.At(t.lock.value).req.claim.trial == c.trial
    ensures s.lock.Some? && (s.At(s.lock.value).Marked? || s.At(s.lock.value).Cleared?)
    ensures s.At(s.lock.value).req.claim.trial == c.trial
  {
    var t := Step(plan, s, e);
    var op := t.lock.value;
    assert s.lock == Some(op);
  }

  lemma ConsumedStays(plan: Planner, s: System, e: Event, trial: Id)
    requires Inv(plan, s) && Consumed(s, trial)
    ensures Consumed(Step(plan, s, e), trial)
    ensures Sent(Step(plan, s, e).patches, trial) == Sent(s.patches, trial)
  {
    hide Step, Inv;
    var t := Step(plan, s, e);
    var c :| c in s.journal && c.trial == trial && s.journal[c] == Whole;
    WholeStays(plan, s, e, c);
    if t.lock.Some? && (t.At(t.lock.value).Marked? || t.At(t.lock.value).Cleared?) && t.At(t.lock.value).req.claim.trial == trial {
      NobodyAttempts(plan, s, e, c);
    }
    if t.patches != s.patches {
      MarkerBeforePatch(plan, s, e);
      SentAppend(s.patches, t.patches[|s.patches|], trial);
    }
  }

  lemma {:induction false} SentAppend(patches: seq<Patch>, p: Patch, trial: Id)
    ensures Sent(patches + [p], trial) == Sent(patches, trial) + if p.claim.trial == trial then 1 else 0
  {
    if patches != [] {
      assert (patches + [p])[1..] == patches[1..] + [p];
      SentAppend(patches[1..], p, trial);
    } else {
      assert (patches + [p])[1..] == [];
    }
  }

  /** MAIN RESULT. An uncertain write is never resent: once an attempt is durable and its operator is
      past sending it, or dead, no continuation whatever sends another PATCH for the trial. */
  lemma {:induction false} NeverResent(plan: Planner, s: System, events: seq<Event>, trial: Id)
    requires Inv(plan, s) && Consumed(s, trial)
    ensures Sent(Run(plan, s, events).patches, trial) == Sent(s.patches, trial)
    decreases |events|
  {
    if events != [] {
      StepKeepsInv(plan, s, events[0]);
      ConsumedStays(plan, s, events[0], trial);
      NeverResent(plan, Step(plan, s, events[0]), events[1..], trial);
    }
  }

  /** A crash at any step after the attempt file is durable leaves the attempt consumed, patched or not. */
  lemma CrashConsumes(plan: Planner, s: System, op: nat, fate: Fate)
    requires Inv(plan, s)
    requires s.At(op).Marked? || s.At(op).Cleared? || s.At(op).Patched? || s.At(op).ReadBack?
    ensures Consumed(Step(plan, s, Crash(op, fate)), s.At(op).req.claim.trial)
    ensures Inv(plan, Step(plan, s, Crash(op, fate)))
  {
    StepKeepsInv(plan, s, Crash(op, fate));
    var c := s.At(op).req.claim;
    assert c in s.journal && s.journal[c] == Whole;
  }
}

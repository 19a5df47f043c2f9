/** Reconciling two observed snapshots of one draft: which one wins, which evidence of publication
    survives the winner, and which authority a conflict takes away.

    A SHA-256 is modelled by what it is taken of. Passive observations are left out; an absent or
    falsy field is `None`, and a time is the instant that the state's parser gives it. */
module Drafts {
  import opened Common

  type Time = int

  datatype Outcome = NoOutcome | Submitted | UnknownOutcome | NotSent | Confirmed | OtherOutcome

  /** What a decision is bound to: the revision, its text and its evidence. */
  datatype Identity = Identity(revision: nat, text: string, evidence: string)

  /** The fields of a draft without its own history; also one snapshot of that history. */
  datatype Core = Core(
    id: Option<string>,
    identity: Identity,
    decision: nat,
    status: string,
    updatedAt: Option<Time>,
    postedAt: Option<Time>,
    approvedAt: Option<Time>,
    createdAt: Option<Time>,
    review: Option<string>,
    approval: Option<string>,
    autoApproveAt: Option<Time>,
    autoship: Option<bool>,
    tweet: Option<string>,
    intent: Option<string>,
    attempted: bool,
    lastAttempt: Option<Time>,
    outcome: Outcome,
    postError: Option<string>,
    rest: string)

  /** A draft with its observed history and its unresolved conflicts; both lists are kept without
      duplicates in fingerprint order, so they are sets. */
  datatype Draft = Draft(core: Core, history: set<Core>, conflicts: set<Core>)

  function StatusRank(status: string): int {
    if status == "posted" then 4 else if status == "approved" then 3
    else if status == "rejected" then 2 else if status == "pending" then 1 else 0
  }

  function Or<T>(a: Option<T>, b: Option<T>): Option<T> { if a.Some? then a else b }

  /** An absent time is read as the epoch. */
  function Instant(t: Option<Time>): Time { if t.Some? then t.value else 0 }

  function Recency(c: Core): Time {
    Instant(Or(Or(c.updatedAt, c.postedAt), Or(c.approvedAt, c.createdAt)))
  }

  /** The selection key; `place` is the position of an identity's fingerprint among all. */
  datatype SelectionKey = SelectionKey(revision: nat, decision: nat, time: Time, status: int, seal: int)

  function KeyOf(place: Identity -> int, c: Core): SelectionKey {
    SelectionKey(c.identity.revision, c.decision, Recency(c), StatusRank(c.status), place(c.identity))
  }

  predicate KeyGe(a: SelectionKey, b: SelectionKey) {
    if a.revision != b.revision then a.revision > b.revision
    else if a.decision != b.decision then a.decision > b.decision
    else if a.time != b.time then a.time > b.time
    else if a.status != b.status then a.status > b.status
    else a.seal >= b.seal
  }

  /** A platform call of this draft may have happened, and nothing says how it ended. */
  predicate Unresolved(c: Core) {
    || c.outcome.Submitted? || c.outcome.UnknownOutcome?
    || ((c.attempted || c.lastAttempt.Some?) && !c.outcome.NotSent? && !c.outcome.Confirmed?)
  }

  /** `_draft_attempt_protected`. */
  predicate Protected(d: Draft) {
    d.core.intent.Some? || d.conflicts != {} || Unresolved(d.core)
  }

  /** Traces of a platform call, whether resolved or not. */
  predicate Touched(c: Core) {
    c.attempted || c.lastAttempt.Some? || c.outcome.Submitted? || c.outcome.UnknownOutcome?
  }

  const DIFFERENT_REVISION := "Publication evidence exists for a different draft revision; reconciliation required."

  /** The incoming snapshot wins a tie. */
  predicate IncomingWins(place: Identity -> int, current: Draft, incoming: Draft) {
    KeyGe(KeyOf(place, incoming.core), KeyOf(place, current.core))
  }

  function Histories(current: Draft, incoming: Draft, loser: Draft): set<Core> {
    current.history + incoming.history
    + if current.core.identity != incoming.core.identity || current.core.review != incoming.core.review
         || current.core.approval != incoming.core.approval
      then {loser.core} else {}
  }

  function Conflicts(current: Draft, incoming: Draft, winner: Draft): set<Core> {
    var same := current.core.identity == incoming.core.identity;
    var kept := (if current.core.identity.revision == winner.core.identity.revision then current.conflicts else {})
              + (if incoming.core.identity.revision == winner.core.identity.revision then incoming.conflicts else {});
    kept
    + (if !same && current.core.identity.revision == incoming.core.identity.revision
       then {current.core, incoming.core} else {})
    + (if same && current.core.decision == incoming.core.decision && current.core.approval != incoming.core.approval
       then {current.core, incoming.core} else {})
  }

  /** A conflict takes the approval and both automatic releases away. */
  function Disarm(c: Core, conflicted: bool): Core {
    if conflicted then c.(approval := None, autoApproveAt := None, autoship := None) else c
  }

  /** The loser's publication evidence, which no timestamp can outdate. */
  function WithEvidence(out: Core, loser: Draft): Core {
    var same := out.identity == loser.core.identity;
    var l := loser.core;
    if same && l.tweet.Some? then
      out.(tweet := l.tweet, postedAt := Or(l.postedAt, out.postedAt), lastAttempt := Or(l.lastAttempt, out.lastAttempt),
           status := "posted", outcome := Confirmed)
    else if !same && (l.tweet.Some? || Protected(loser)) then
      if l.tweet.Some? || Touched(l) then
        out.(attempted := true, outcome := UnknownOutcome, postError := Some(DIFFERENT_REVISION),
             lastAttempt := Or(l.lastAttempt, out.lastAttempt))
      else out
    else if same && Protected(loser) then
      if l.lastAttempt == out.lastAttempt && (out.outcome.NotSent? || out.outcome.Confirmed?) then out
      else if Touched(l) then
        out.(attempted := true, outcome := UnknownOutcome, lastAttempt := Or(l.lastAttempt, out.lastAttempt))
      else out
    else out
  }

  /** `_merge_draft_pair`. */
  function MergePair(place: Identity -> int, current: Draft, incoming: Draft): Draft {
    var (winner, loser) := if IncomingWins(place, current, incoming) then (incoming, current) else (current, incoming);
    var conflicts := Conflicts(current, incoming, winner);
    Draft(WithEvidence(Disarm(winner.core, conflicts != {}), loser), Histories(current, incoming, loser), conflicts)
  }

  /** The last part of the reconciliation: platform evidence of the losing row. */
  method CarryEvidence(winner: Core, same: bool, loser: Draft) returns (out: Core)
    requires same == (winner.identity == loser.core.identity)
    ensures out == WithEvidence(winner, loser)
  {
    out := winner;
    var l := loser.core;
    if same && l.tweet.Some? {
      out := out.(tweet := l.tweet);
      if l.postedAt.Some? {
        out := out.(postedAt := l.postedAt);
      }
      if l.lastAttempt.Some? {
        out := out.(lastAttempt := l.lastAttempt);
      }
      out := out.(status := "posted", outcome := Confirmed);
    } else if !same && (l.tweet.Some? || Protected(loser)) {
      if l.tweet.Some? || Touched(l) {
        out := out.(attempted := true, outcome := UnknownOutcome, postError := Some(DIFFERENT_REVISION));
        if l.lastAttempt.Some? {
          out := out.(lastAttempt := l.lastAttempt);
        }
      }
    } else if same && Protected(loser) {
      var sameAttempt := l.lastAttempt == out.lastAttempt;
      if !(sameAttempt && (out.outcome.NotSent? || out.outcome.Confirmed?)) && Touched(l) {
        out := out.(attempted := true, outcome := UnknownOutcome);
        if l.lastAttempt.Some? {
          out := out.(lastAttempt := l.lastAttempt);
        }
      }
    }
  }

  /** The reconciliation step by step, as the code makes it on a copy of the winner. */
  method MergeDraftPair(place: Identity -> int, current: Draft, incoming: Draft) returns (m: Draft)
    ensures m == MergePair(place, current, incoming)
  {
    hide WithEvidence, IncomingWins;
    var winner, loser := current, incoming;
    if IncomingWins(place, current, incoming) {
      winner, loser := incoming, current;
    }
    var out := winner.core;
    var same := current.core.identity == incoming.core.identity;
    var histories := current.history + incoming.history;
    if !same || current.core.review != incoming.core.review || current.core.approval != incoming.core.approval {
      histories := histories + {loser.core};
    }
    assert histories == Histories(current, incoming, loser);
    var conflicts: set<Core> := {};
    if current.core.identity.revision == winner.core.identity.revision {
      conflicts := conflicts + current.conflicts;
    }
    if incoming.core.identity.revision == winner.core.identity.revision {
      conflicts := conflicts + incoming.conflicts;
    }
    if !same && current.core.identity.revision == incoming.core.identity.revision {
      conflicts := conflicts + {current.core, incoming.core};
    }
    if same && current.core.decision == incoming.core.decision && current.core.approval != incoming.core.approval {
      conflicts := conflicts + {current.core, incoming.core};
    }
    assert conflicts == Conflicts(current, incoming, winner);
    if conflicts != {} {
      out := out.(approval := None, autoApproveAt := None, autoship := None);
    }
    out := CarryEvidence(out, same, loser);
    m := Draft(out, histories, conflicts);
  }

  function Winner(place: Identity -> int, a: Draft, b: Draft): Draft { if IncomingWins(place, a, b) then b else a }

  function Loser(place: Identity -> int, a: Draft, b: Draft): Draft { if IncomingWins(place, a, b) then a else b }

  // ----- uncertainty is sticky

  /** What may never be lost: an unresolved platform call, or a receipt on a posted draft. */
  predicate Marked(d: Draft) {
    Unresolved(d.core) || (d.core.tweet.Some? && d.core.status == "posted")
  }

  /** What neither trim nor cap may drop. */
  predicate Kept(d: Draft) { d.core.status == "posted" || Protected(d) }

  /** The winner records the loser's own attempt as ended. (Two absent attempt times are equal here,
      as they are in the code.) */
  predicate Settles(w: Core, l: Core) {
    w.identity == l.identity && w.lastAttempt == l.lastAttempt && (w.outcome.NotSent? || w.outcome.Confirmed?)
  }

  /** Exactly when the merged draft is posted or protected. */
  lemma KeptExactly(place: Identity -> int, a: Draft, b: Draft)
    ensures var m, w, l := MergePair(place, a, b), Winner(place, a, b), Loser(place, a, b);
      Kept(m) <==>
        (w.core.status == "posted" || w.core.intent.Some? || Unresolved(w.core) || m.conflicts != {}
         || l.core.tweet.Some? || (Protected(l) && Touched(l.core) && !Settles(w.core, l.core)))
  {
  }

  /** The winner records the loser's unresolved attempt as ended, and carries no mark itself. */
  predicate Releases(place: Identity -> int, a: Draft, b: Draft) {
    var w, l := Winner(place, a, b), Loser(place, a, b);
    Unresolved(l.core) && l.core.tweet.None? && Settles(w.core, l.core) && !Marked(w)
  }

  /** MAIN RESULT. If either snapshot is marked, so is the merged draft, unless and only unless the
      losing one's unresolved attempt is recorded as ended by a winner without a mark. */
  lemma MarkSurvivesMerge(place: Identity -> int, a: Draft, b: Draft)
    requires Marked(a) || Marked(b)
    ensures Marked(MergePair(place, a, b)) <==> !Releases(place, a, b)
    ensures Marked(MergePair(place, a, b)) ==> Kept(MergePair(place, a, b))
  {
  }

  /** A terminal outcome that no posted receipt stands behind. */
  predicate BareTerminal(d: Draft) {
    (d.core.outcome.NotSent? || d.core.outcome.Confirmed?) && !(d.core.tweet.Some? && d.core.status == "posted")
  }

  // ----- conflicts

  /** MAIN RESULT. A merge that leaves conflicts leaves no approval and no automatic release; and the
      conflicts of a snapshot are all still there unless a strictly higher revision won. */
  lemma ConflictsDisarmAndPersist(place: Identity -> int, a: Draft, b: Draft)
    ensures var m := MergePair(place, a, b);
      && (m.conflicts != {} ==> m.core.approval.None? && m.core.autoApproveAt.None? && m.core.autoship.None?)
      && m.core.identity.revision == (if a.core.identity.revision < b.core.identity.revision
                                      then b.core.identity.revision else a.core.identity.revision)
      && (a.core.identity.revision == m.core.identity.revision ==> a.conflicts <= m.conflicts)
      && (b.core.identity.revision == m.core.identity.revision ==> b.conflicts <= m.conflicts)
  {
  }

  /** Two contents under one revision number are always a conflict, with both of them kept. */
  lemma DivergenceIsConflict(place: Identity -> int, a: Draft, b: Draft)
    requires a.core.identity != b.core.identity && a.core.identity.revision == b.core.identity.revision
    ensures {a.core, b.core} <= MergePair(place, a, b).conflicts
  {
  }

  // ----- order

  /** The pair merge does not depend on the order whenever the selection keys differ. */
  lemma MergeCommutes(place: Identity -> int, a: Draft, b: Draft)
    requires KeyOf(place, a.core) != KeyOf(place, b.core)
    ensures MergePair(place, a, b) == MergePair(place, b, a)
  {
    assert Winner(place, a, b) == Winner(place, b, a) && Loser(place, a, b) == Loser(place, b, a);
    var w, l := Winner(place, a, b), Loser(place, a, b);
    assert Histories(a, b, l) == Histories(b, a, l);
    assert Conflicts(a, b, w) == Conflicts(b, a, w);
  }

  /** With equal keys the later snapshot wins, so the order shows in any field outside the key. */
  lemma TieDependsOnOrder(place: Identity -> int, a: Draft, rest: string)
    requires a.core.rest != rest
    ensures var b := a.(core := a.core.(rest := rest));
      MergePair(place, a, b) != MergePair(place, b, a)
  {
    var b := a.(core := a.core.(rest := rest));
    assert MergePair(place, a, b).core.rest == rest;
    assert MergePair(place, b, a).core.rest == a.core.rest;
  }

  // ----- receipts

  /** The receipts a draft still shows: its own, and those of its retained snapshots. */
  function Receipts(d: Draft): set<string> {
    set c | c in {d.core} + d.history + d.conflicts && c.tweet.Some? :: c.tweet.value
  }

  lemma ReceiptShown(d: Draft, c: Core)
    requires c in {d.core} + d.history + d.conflicts && c.tweet.Some?
    ensures c.tweet.value in Receipts(d)
  {
  }

  /** The losing snapshot's receipt is always still shown. The winner's own receipt is not: it is
      overwritten exactly when the loser carries another one for the same identity and no retained
      snapshot has it. */
  lemma ReceiptsOfMerge(place: Identity -> int, a: Draft, b: Draft)
    ensures var m, w, l := MergePair(place, a, b), Winner(place, a, b), Loser(place, a, b);
      && (l.core.tweet.Some? ==> l.core.tweet.value in Receipts(m))
      && (w.core.tweet.Some? ==>
            (w.core.tweet.value in Receipts(m) <==>
               !(w.core.identity == l.core.identity && l.core.tweet.Some? && l.core.tweet != w.core.tweet)
               || exists c | c in m.history + m.conflicts :: c.tweet == w.core.tweet))
  {
    var m, w, l := MergePair(place, a, b), Winner(place, a, b), Loser(place, a, b);
    if l.core.tweet.Some? {
      if w.core.identity == l.core.identity {
        ReceiptShown(m, m.core);
      } else {
        ReceiptShown(m, l.core);
      }
    }
    if w.core.tweet.Some? {
      if !(w.core.identity == l.core.identity && l.core.tweet.Some? && l.core.tweet != w.core.tweet) {
        assert m.core.tweet == w.core.tweet;
        ReceiptShown(m, m.core);
      } else {
        assert m.core.tweet == l.core.tweet;
        if c :| c in m.history + m.conflicts && c.tweet == w.core.tweet {
          ReceiptShown(m, c);
        }
      }
    }
  }

  // ----- histories of one draft

  datatype History = Snapshot(draft: Draft) | Merge(left: History, right: History)

  function Merged(place: Identity -> int, h: History): Draft {
    match h
    case Snapshot(d) => d
    case Merge(l, r) => MergePair(place, Merged(place, l), Merged(place, r))
  }

  /** Some snapshot of the history is marked. */
  predicate AnyMarked(h: History) {
    match h
    case Snapshot(d) => Marked(d)
    case Merge(l, r) => AnyMarked(l) || AnyMarked(r)
  }

  /** No snapshot of the history records a bare terminal outcome. */
  predicate NoneTerminal(h: History) {
    match h
    case Snapshot(d) => !BareTerminal(d)
    case Merge(l, r) => NoneTerminal(l) && NoneTerminal(r)
  }

  /** No merge of the history releases an attempt. */
  ghost predicate NeverReleases(place: Identity -> int, h: History) {
    match h
    case Snapshot(_) => true
    case Merge(l, r) =>
      NeverReleases(place, l) && NeverReleases(place, r) && !Releases(place, Merged(place, l), Merged(place, r))
  }

  /** Whatever was marked on the way stays marked at the next merge. */
  ghost predicate MarksKept(place: Identity -> int, h: History) {
    match h
    case Snapshot(_) => true
    case Merge(l, r) =>
      && MarksKept(place, l) && MarksKept(place, r)
      && (Marked(Merged(place, l)) || Marked(Merged(place, r)) ==> Marked(Merged(place, h)))
  }

  /** MAIN RESULT. Over merges in any order, grouping and number, marks are kept all the way exactly
      when no merge releases an attempt, and then one marked snapshot anywhere leaves the result marked. */
  lemma {:induction false} MarkSurvivesHistory(place: Identity -> int, h: History)
    ensures NeverReleases(place, h) <==> MarksKept(place, h)
    ensures NeverReleases(place, h) && AnyMarked(h) ==> Marked(Merged(place, h))
  {
    match h
    case Snapshot(d) =>
    case Merge(l, r) =>
      MarkSurvivesHistory(place, l);
      MarkSurvivesHistory(place, r);
      var a, b := Merged(place, l), Merged(place, r);
      assert Releases(place, a, b) ==> Marked(a) || Marked(b);
      if Marked(a) || Marked(b) {
        MarkSurvivesMerge(place, a, b);
      }
      hide MergePair, Marked, Releases;
  }

  /** Histories without a bare terminal outcome never release anything, whatever their order. */
  lemma {:induction false} NoTerminalNeverReleases(place: Identity -> int, h: History)
    requires NoneTerminal(h)
    ensures NeverReleases(place, h) && !BareTerminal(Merged(place, h))
  {
    match h
    case Snapshot(d) =>
    case Merge(l, r) =>
      NoTerminalNeverReleases(place, l);
      NoTerminalNeverReleases(place, r);
      NoBareTerminal(place, Merged(place, l), Merged(place, r));
  }

  lemma NoBareTerminal(place: Identity -> int, a: Draft, b: Draft)
    requires !BareTerminal(a) && !BareTerminal(b)
    ensures !BareTerminal(MergePair(place, a, b)) && !Releases(place, a, b)
  {
  }

  /** A draft with an attempt made at `attempt`, last written at `updated`. */
  function Attempted(attempt: Time, outcome: Outcome, updated: Time, intent: Option<string>): Draft {
    Draft(Core(Some("d"), Identity(0, "text", "evidence"), 0, "approved", Some(updated), None, None, None, None, None, None,
               None, None, intent, true, Some(attempt), outcome, None, ""), {}, {})
  }

  /** It is not enough that no snapshot records the unresolved attempt as ended. An authorized draft whose
      first attempt ended hands the time of that attempt on when it loses against the unresolved second
      one, and then a later record of the first attempt's end releases the second. */
  lemma HandedTimeReleases(place: Identity -> int)
    ensures var ended, open, later := Attempted(1, NotSent, 1, Some("intent")), Attempted(2, UnknownOutcome, 2, None),
                                      Attempted(1, NotSent, 3, None);
      && Marked(open) && !Settles(ended.core, open.core) && !Settles(later.core, open.core)
      && Marked(MergePair(place, ended, open)) && Marked(MergePair(place, open, later))
      && !Marked(MergePair(place, MergePair(place, ended, open), later))
  {
    var ended, open, later := Attempted(1, NotSent, 1, Some("intent")), Attempted(2, UnknownOutcome, 2, None),
                              Attempted(1, NotSent, 3, None);
    var m := MergePair(place, ended, open);
    assert m.core.lastAttempt == Some(1) && m.core.updatedAt == Some(2);
    assert Winner(place, m, later) == later && Loser(place, m, later) == m;
    assert MergePair(place, m, later).core.outcome == NotSent;
  }

  /** Two attempts without a recorded time count as one: the end of some attempt releases an unresolved one. */
  lemma AbsentTimesRelease(place: Identity -> int)
    ensures var open, ended := Attempted(1, UnknownOutcome, 1, None), Attempted(2, NotSent, 2, None);
            var a, b := open.(core := open.core.(lastAttempt := None)), ended.(core := ended.core.(lastAttempt := None));
      Marked(MergePair(place, open, ended)) && Marked(a) && Releases(place, a, b) && !Marked(MergePair(place, a, b))
  {
    var open, ended := Attempted(1, UnknownOutcome, 1, None), Attempted(2, NotSent, 2, None);
    assert Winner(place, open, ended) == ended;
    var a, b := open.(core := open.core.(lastAttempt := None)), ended.(core := ended.core.(lastAttempt := None));
    assert Winner(place, a, b) == b && Loser(place, a, b) == a;
  }

  /** The revision a history ends at. */
  function TopRevision(h: History): nat {
    match h
    case Snapshot(d) => d.core.identity.revision
    case Merge(l, r) => if TopRevision(l) < TopRevision(r) then TopRevision(r) else TopRevision(l)
  }

  /** The conflicts of all snapshots of one revision. */
  function ConflictsAt(h: History, revision: nat): set<Core> {
    match h
    case Snapshot(d) => if d.core.identity.revision == revision then d.conflicts else {}
    case Merge(l, r) => ConflictsAt(l, revision) + ConflictsAt(r, revision)
  }

  lemma {:induction false} NoneAbove(h: History, revision: nat)
    requires TopRevision(h) < revision
    ensures ConflictsAt(h, revision) == {}
  {
    match h
    case Snapshot(d) =>
    case Merge(l, r) =>
      NoneAbove(l, revision);
      NoneAbove(r, revision);
  }

  /** MAIN RESULT. Over merges in any order, grouping and number the result has the greatest revision of the
      snapshots and every conflict that a snapshot of that revision has, and while it has any conflict
      it has no approval and no automatic release. */
  lemma {:induction false} ConflictsSurviveHistory(place: Identity -> int, h: History)
    ensures var m := Merged(place, h);
      && m.core.identity.revision == TopRevision(h)
      && ConflictsAt(h, TopRevision(h)) <= m.conflicts
      && (h.Merge? && m.conflicts != {} ==> m.core.approval.None? && m.core.autoApproveAt.None? && m.core.autoship.None?)
  {
    match h
    case Snapshot(d) =>
    case Merge(l, r) =>
      ConflictsSurviveHistory(place, l);
      ConflictsSurviveHistory(place, r);
      ConflictsDisarmAndPersist(place, Merged(place, l), Merged(place, r));
      hide MergePair;
      if TopRevision(l) < TopRevision(r) {
        NoneAbove(l, TopRevision(r));
      } else if TopRevision(r) < TopRevision(l) {
        NoneAbove(r, TopRevision(l));
      }
  }

  // ----- snapshots that arrive one after the other

  /** Each snapshot is merged into what the ones before it became. */
  function Chain(drafts: seq<Draft>): History
    requires drafts != []
  {
    var n := |drafts| - 1;
    if n == 0 then Snapshot(drafts[0]) else Merge(Chain(drafts[..n]), Snapshot(drafts[n]))
  }

  lemma {:induction false} ChainMarked(drafts: seq<Draft>)
    requires drafts != []
    ensures AnyMarked(Chain(drafts)) <==> exists d | d in drafts :: Marked(d)
  {
    var n := |drafts| - 1;
    assert drafts == drafts[..n] + [drafts[n]];
    if n > 0 {
      ChainMarked(drafts[..n]);
    }
  }

  lemma {:induction false} ChainConflicts(d: Draft, later: seq<Draft>)
    requires forall x | x in later :: x.core.identity.revision <= d.core.identity.revision
    ensures var h := Chain([d] + later);
      TopRevision(h) == d.core.identity.revision && d.conflicts <= ConflictsAt(h, d.core.identity.revision)
  {
    var n := |later|;
    if n > 0 {
      ChainConflicts(d, later[..n - 1]);
      assert ([d] + later)[..n] == [d] + later[..n - 1];
      assert later[n - 1] in later;
    }
  }

  /** Over any run of later snapshots without a higher revision a conflicted draft keeps its conflicts and
      stays without approval. */
  lemma ConflictSurvivesRun(place: Identity -> int, d: Draft, later: seq<Draft>)
    requires d.conflicts != {}
    requires forall x | x in later :: x.core.identity.revision <= d.core.identity.revision
    ensures var m := Merged(place, Chain([d] + later));
      && d.conflicts <= m.conflicts && m.core.identity.revision == d.core.identity.revision
      && (later != [] ==> m.core.approval.None? && m.core.autoApproveAt.None? && m.core.autoship.None?)
  {
    ChainConflicts(d, later);
    hide MergePair;
    ConflictsSurviveHistory(place, Chain([d] + later));
  }
}

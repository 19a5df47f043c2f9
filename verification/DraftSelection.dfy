/** Which of two snapshots of a draft wins and what is taken from the other, field by field. */
module DraftSelection {
  import opened Common
  import opened Drafts

  /** The merge has the content, the decision and the times of `w`, and its status unless `l` proves that the same
      content was posted. What conflicts take away is the approval and the automatic releases. The retained
      snapshots are those of both, and `l` itself when its content, review or approval is another. */
  ghost predicate ContentOf(m: Draft, w: Draft, l: Draft) {
    && m.core.id == w.core.id && m.core.identity == w.core.identity && m.core.decision == w.core.decision
    && m.core.updatedAt == w.core.updatedAt && m.core.approvedAt == w.core.approvedAt && m.core.createdAt == w.core.createdAt
    && m.core.review == w.core.review && m.core.intent == w.core.intent && m.core.rest == w.core.rest
    && m.core.status == (if w.core.identity == l.core.identity && l.core.tweet.Some? then "posted" else w.core.status)
    && (m.conflicts == {} ==>
          m.core.approval == w.core.approval && m.core.autoApproveAt == w.core.autoApproveAt && m.core.autoship == w.core.autoship)
    && m.history == w.history + l.history +
         if w.core.identity != l.core.identity || w.core.review != l.core.review || w.core.approval != l.core.approval
         then {l.core} else {}
  }

  /** `w` is what remains of the two, in either order. */
  ghost predicate Wins(place: Identity -> int, w: Draft, l: Draft) {
    ContentOf(MergePair(place, w, l), w, l) && ContentOf(MergePair(place, l, w), w, l)
  }

  lemma GreaterKeyWins(place: Identity -> int, a: Draft, b: Draft)
    requires IncomingWins(place, b, a) && !IncomingWins(place, a, b)
    ensures Wins(place, a, b)
  {
    assert Histories(a, b, b) == Histories(b, a, b);
    hide IncomingWins, Protected, Touched, Conflicts, WithEvidence;
    EvidenceKeeps(Disarm(a.core, Conflicts(a, b, a) != {}), b);
    EvidenceKeeps(Disarm(a.core, Conflicts(b, a, a) != {}), b);
  }

  /** Evidence of publication touches neither content nor decision, and the status only to say posted. */
  lemma EvidenceKeeps(out: Core, l: Draft)
    ensures var e := WithEvidence(out, l);
      && e.id == out.id && e.identity == out.identity && e.decision == out.decision
      && e.updatedAt == out.updatedAt && e.approvedAt == out.approvedAt && e.createdAt == out.createdAt
      && e.review == out.review && e.intent == out.intent && e.rest == out.rest
      && e.status == (if out.identity == l.core.identity && l.core.tweet.Some? then "posted" else out.status)
      && e.approval == out.approval && e.autoApproveAt == out.autoApproveAt && e.autoship == out.autoship
  {
  }

  lemma HigherRevisionWins(place: Identity -> int, a: Draft, b: Draft)
    requires a.core.identity.revision > b.core.identity.revision
    ensures Wins(place, a, b)
  {
    hide Wins;
    GreaterKeyWins(place, a, b);
  }

  /** MAIN RESULT. Of two snapshots with one content revision the one with the higher decision revision wins,
      whatever their times and statuses. */
  lemma HigherDecisionWins(place: Identity -> int, a: Draft, b: Draft)
    requires a.core.identity.revision == b.core.identity.revision && a.core.decision > b.core.decision
    ensures Wins(place, a, b)
  {
    hide Wins;
    GreaterKeyWins(place, a, b);
  }

  /** The time a snapshot was last written: the first it has of updated, posted, approved and created. */
  predicate WrittenAt(c: Core, t: Time) {
    || c.updatedAt == Some(t)
    || (c.updatedAt.None? && c.postedAt == Some(t))
    || (c.updatedAt.None? && c.postedAt.None? && c.approvedAt == Some(t))
    || (c.updatedAt.None? && c.postedAt.None? && c.approvedAt.None? && c.createdAt == Some(t))
    || (c.updatedAt.None? && c.postedAt.None? && c.approvedAt.None? && c.createdAt.None? && t == 0)
  }

  predicate SameRevisions(a: Draft, b: Draft) {
    a.core.identity.revision == b.core.identity.revision && a.core.decision == b.core.decision
  }

  /** With both revisions equal the later one wins. */
  lemma LaterWins(place: Identity -> int, a: Draft, b: Draft, s: Time, t: Time)
    requires SameRevisions(a, b) && WrittenAt(a.core, s) && WrittenAt(b.core, t) && s > t
    ensures Wins(place, a, b)
  {
    hide Wins;
    GreaterKeyWins(place, a, b);
  }

  /** Posted before approved before rejected before pending before any other status. */
  predicate StatusAbove(s: string, t: string) {
    || (s == "posted" && t != "posted")
    || (s == "approved" && t !in ["posted", "approved"])
    || (s == "rejected" && t !in ["posted", "approved", "rejected"])
    || (s == "pending" && t !in ["posted", "approved", "rejected", "pending"])
  }

  /** With the same time, too, the higher status wins, and with no higher status the content with the higher seal. */
  lemma HigherStatusWins(place: Identity -> int, a: Draft, b: Draft, t: Time)
    requires SameRevisions(a, b) && WrittenAt(a.core, t) && WrittenAt(b.core, t)
    requires StatusAbove(a.core.status, b.core.status)
      || (!StatusAbove(b.core.status, a.core.status) && place(a.core.identity) > place(b.core.identity))
    ensures Wins(place, a, b)
  {
    hide Wins;
    GreaterKeyWins(place, a, b);
  }

  // ----- what the loser adds

  /** The conflicts of a merge are those of the winning revision, and both of two snapshots that share a revision
      with different contents or a decision with different approvals; no retained snapshot is lost. */
  lemma RetainedExactly(place: Identity -> int, a: Draft, b: Draft)
    ensures var m := MergePair(place, a, b);
      && a.history + b.history <= m.history <= a.history + b.history + {a.core, b.core}
      && (forall c :: c in m.conflicts <==>
            || (a.core.identity.revision >= b.core.identity.revision && c in a.conflicts)
            || (b.core.identity.revision >= a.core.identity.revision && c in b.conflicts)
            || (c in {a.core, b.core}
                && if a.core.identity == b.core.identity
                   then a.core.decision == b.core.decision && a.core.approval != b.core.approval
                   else a.core.identity.revision == b.core.identity.revision))
  {
  }

  // ----- histories

  /** The greatest decision revision of the snapshots of one content revision; 0 is below all. */
  function TopDecision(h: History, revision: nat): nat {
    match h
    case Snapshot(d) => if d.core.identity.revision == revision then d.core.decision else 0
    case Merge(l, r) =>
      if TopDecision(l, revision) < TopDecision(r, revision) then TopDecision(r, revision) else TopDecision(l, revision)
  }

  /** Everything that the snapshots retain. */
  function AllRetained(h: History): set<Core> {
    match h
    case Snapshot(d) => d.history
    case Merge(l, r) => AllRetained(l) + AllRetained(r)
  }

  lemma {:induction false} NoDecisionAbove(h: History, revision: nat)
    requires TopRevision(h) < revision
    ensures TopDecision(h, revision) == 0
  {
    match h
    case Snapshot(d) =>
    case Merge(l, r) =>
      NoDecisionAbove(l, revision);
      NoDecisionAbove(r, revision);
  }

  lemma PairDecision(place: Identity -> int, a: Draft, b: Draft)
    ensures var m, r, s := MergePair(place, a, b), a.core.identity.revision, b.core.identity.revision;
      && a.history + b.history <= m.history
      && m.core.decision == (if r > s then a.core.decision else if s > r then b.core.decision
                             else if a.core.decision > b.core.decision then a.core.decision else b.core.decision)
  {
    hide Protected, Touched, Conflicts, Recency, StatusRank;
  }

  /** MAIN RESULT. Over merges in any order, grouping and number the result has the greatest decision revision among
      the snapshots of the greatest content revision, and every snapshot that any of them retains. */
  lemma {:induction false} DecisionIsGreatest(place: Identity -> int, h: History)
    ensures Merged(place, h).core.decision == TopDecision(h, TopRevision(h))
    ensures AllRetained(h) <= Merged(place, h).history
  {
    match h
    case Snapshot(d) =>
    case Merge(l, r) =>
      DecisionIsGreatest(place, l);
      DecisionIsGreatest(place, r);
      ConflictsSurviveHistory(place, l);
      ConflictsSurviveHistory(place, r);
      PairDecision(place, Merged(place, l), Merged(place, r));
      hide MergePair;
      if TopRevision(l) < TopRevision(r) {
        NoDecisionAbove(l, TopRevision(r));
      } else if TopRevision(r) < TopRevision(l) {
        NoDecisionAbove(r, TopRevision(l));
      }
  }
}

/** Which drafts a trim keeps and which it drops, told by statuses, attempts and creation times. */
module DraftAging {
  import opened Common
  import opened Sorting
  import opened Drafts
  import opened DraftRetention

  // ----- what is never dropped

  /** A draft under review or delivery or already posted, an authorized one, one in conflict, and one of which a
      platform call may have happened and no end is recorded. */
  ghost predicate Needed(d: Draft) {
    || d.core.status == "pending" || d.core.status == "approved" || d.core.status == "posted"
    || d.core.intent != None || d.conflicts != {}
    || d.core.outcome == Submitted || d.core.outcome == UnknownOutcome
    || ((d.core.attempted || d.core.lastAttempt != None) && d.core.outcome != NotSent && d.core.outcome != Confirmed)
  }

  /** MAIN RESULT. However small the cap and however old, every such draft stays, and all of them in their order. */
  lemma NeededStays(drafts: seq<Draft>, cap: nat, now: Time)
    ensures Filter(Trimmed(drafts, cap, now), d => Secure(d)) == Filter(drafts, d => Secure(d))
    ensures forall d :: Secure(d) <==> Needed(d)
    ensures forall d | d in drafts && Needed(d) :: d in Trimmed(drafts, cap, now)
  {
    TrimKeepsSecure(drafts, cap, now);
    assert forall d :: Secure(d) <==> Needed(d);
    hide Secure, Needed, Trimmed;
    forall d | d in drafts && Needed(d) ensures d in Trimmed(drafts, cap, now) {
      FilterMembers(drafts, x => Secure(x), d);
      FilterMembers(Trimmed(drafts, cap, now), x => Secure(x), d);
    }
  }

  // ----- the thirty days

  /** A rejected draft of no further use, created more than thirty days ago. */
  predicate Outdated(d: Draft, now: Time) {
    d.core.status == "rejected" && !Protected(d) && Instant(d.core.createdAt) < now - 30 * 24 * 3600
  }

  /** What the time trim leaves: exactly what is not outdated; or, when everything is, the ten created last. */
  lemma RetainedExactly(drafts: seq<Draft>, now: Time)
    ensures (exists d | d in drafts :: !Outdated(d, now)) ==> Retained(drafts, now) == Filter(drafts, d => !Outdated(d, now))
    ensures (forall d | d in drafts :: Outdated(d, now)) ==>
              var kept := Retained(drafts, now);
              var dropped := multiset(drafts) - multiset(kept);
              && |kept| == (if |drafts| < 10 then |drafts| else 10) && multiset(kept) <= multiset(drafts)
              && forall x, y | x in kept && y in dropped :: Instant(y.core.createdAt) <= Instant(x.core.createdAt)
  {
    FilterSame(drafts, d => !Expired(d, now), d => !Outdated(d, now));
    var young := Filter(drafts, d => !Expired(d, now));
    if d :| d in drafts && !Outdated(d, now) {
      FilterMembers(drafts, x => !Expired(x, now), d);
    }
    if forall d | d in drafts :: Outdated(d, now) {
      if young != [] {
        FilterMembers(drafts, x => !Expired(x, now), young[0]);
      }
      NoneSecure(drafts, now);
      var sorted := Sort(drafts, ByCreation());
      assert Retained(drafts, now) == LastOnes(sorted, 10);
      SortKeeps(drafts, ByCreation());
      SortSorts(drafts, ByCreation());
      TailIsLatest(sorted, 10);
    }
  }

  lemma {:induction false} FilterSame(drafts: seq<Draft>, p: Draft -> bool, q: Draft -> bool)
    requires forall d :: p(d) == q(d)
    ensures Filter(drafts, p) == Filter(drafts, q)
  {
    if drafts != [] {
      FilterSame(drafts[1..], p, q);
    }
  }

  lemma TailIsLatest(sorted: seq<Draft>, n: nat)
    requires Sorted(sorted, ByCreation())
    ensures var kept := LastOnes(sorted, n);
      && multiset(kept) <= multiset(sorted)
      && forall x, y | x in kept && y in multiset(sorted) - multiset(kept) ::
           Instant(y.core.createdAt) <= Instant(x.core.createdAt)
  {
    var k := if |sorted| <= n then 0 else |sorted| - n;
    var kept := LastOnes(sorted, n);
    assert kept == sorted[k..] && sorted == sorted[..k] + sorted[k..];
    assert multiset(sorted) - multiset(kept) == multiset(sorted[..k]);
    forall x, y | x in kept && y in sorted[..k] ensures Instant(y.core.createdAt) <= Instant(x.core.createdAt) {
      var i :| 0 <= i < |kept| && kept[i] == x;
      var j :| 0 <= j < k && sorted[..k][j] == y;
      assert ByCreation()(sorted[j], sorted[k + i]);
    }
  }

  // ----- the cap on the merged list

  /** `y` was created before `x`, or at once and last updated no later; a missing time is read as the other one. */
  predicate NoNewer(y: Core, x: Core) {
    var a := if y.createdAt.Some? then y.createdAt else y.updatedAt;
    var b := if x.createdAt.Some? then x.createdAt else x.updatedAt;
    var c := if y.updatedAt.Some? then y.updatedAt else y.createdAt;
    var d := if x.updatedAt.Some? then x.updatedAt else x.createdAt;
    Instant(a) < Instant(b) || (Instant(a) == Instant(b) && Instant(c) <= Instant(d))
  }

  ghost predicate Aged(drafts: seq<Draft>) {
    forall i, j | 0 <= i < j < |drafts| :: NoNewer(drafts[i].core, drafts[j].core)
  }

  lemma {:induction false} FilterAged(drafts: seq<Draft>, p: Draft -> bool)
    requires Aged(drafts)
    ensures Aged(Filter(drafts, p))
  {
    if drafts != [] {
      var rest := drafts[1..];
      assert forall i, j | 0 <= i < j < |rest| :: rest[i] == drafts[i + 1] && rest[j] == drafts[j + 1];
      FilterAged(rest, p);
      var f := Filter(rest, p);
      if p(drafts[0]) {
        forall j | 0 <= j < |f| ensures NoNewer(drafts[0].core, f[j].core) {
          FilterMembers(rest, p, f[j]);
          var k :| 0 <= k < |rest| && rest[k] == f[j];
          assert rest[k] == drafts[k + 1];
        }
      }
    }
  }

  /** The merged list is in the order of creation. */
  lemma MergedIsAged(place: Identity -> int, current: seq<Draft>, incoming: seq<Draft>)
    ensures Aged(Ordered(place, current, incoming))
  {
    var g := AddAll(place, EMPTY, current + incoming);
    SortSorts(g.Values() + g.anonymous, ByAge());
    var all := Ordered(place, current, incoming);
    hide AddAll, Sort;
    forall i, j | 0 <= i < j < |all| ensures NoNewer(all[i].core, all[j].core) {
      assert ByAge()(all[i], all[j]);
    }
  }

  /** MAIN RESULT. What the merged list loses beside outdated drafts are the oldest of those that are not needed, and no
      more of them than the cap asks for. */
  lemma CapDropsOldest(place: Identity -> int, current: seq<Draft>, incoming: seq<Draft>, cap: nat, now: Time) returns (k: nat)
    requires exists d | d in Ordered(place, current, incoming) :: !Outdated(d, now)
    ensures var base := Filter(Ordered(place, current, incoming), d => !Outdated(d, now));
      var kept := Trimmed(Ordered(place, current, incoming), cap, now);
      && k <= |InsecureOnes(base)| && InsecureOnes(kept) == InsecureOnes(base)[k..]
      && (forall x, y | x in InsecureOnes(base)[k..] && y in InsecureOnes(base)[..k] :: NoNewer(y.core, x.core))
      && (|base| <= cap ==> k == 0)
      && (|base| > cap ==> k == (if |base| - cap <= |InsecureOnes(base)| then |base| - cap else |InsecureOnes(base)|))
  {
    var all := Ordered(place, current, incoming);
    RetainedExactly(all, now);
    MergedIsAged(place, current, incoming);
    FilterAged(all, d => !Outdated(d, now));
    assert Trimmed(all, cap, now) == Survivors(Retained(all, now), Excess(Retained(all, now), cap));
    hide *;
    k := CapDrops(Filter(all, d => !Outdated(d, now)), cap);
  }

  lemma CapDrops(base: seq<Draft>, cap: nat) returns (k: nat)
    requires Aged(base)
    ensures k <= |InsecureOnes(base)| && InsecureOnes(Survivors(base, Excess(base, cap))) == InsecureOnes(base)[k..]
    ensures forall x, y | x in InsecureOnes(base)[k..] && y in InsecureOnes(base)[..k] :: NoNewer(y.core, x.core)
    ensures |base| <= cap ==> k == 0
    ensures |base| > cap ==> k == (if |base| - cap <= |InsecureOnes(base)| then |base| - cap else |InsecureOnes(base)|)
  {
    k := Excess(base, cap);
    FilterAged(base, d => !Secure(d));
    Split(base);
    SurvivorsAre(base, k);
    hide Filter, Secure, NoNewer, Aged;
    AgedSplit(InsecureOnes(base), k);
  }

  lemma AgedSplit(drafts: seq<Draft>, k: nat)
    requires Aged(drafts) && k <= |drafts|
    ensures forall x, y | x in drafts[k..] && y in drafts[..k] :: NoNewer(y.core, x.core)
  {
    hide NoNewer;
    forall x, y | x in drafts[k..] && y in drafts[..k] ensures NoNewer(y.core, x.core) {
      var i :| 0 <= i < |drafts| - k && drafts[k..][i] == x;
      var j :| 0 <= j < k && drafts[..k][j] == y;
      assert drafts[k + i] == x && drafts[j] == y;
    }
  }
}

/** Merging whole draft lists and trimming them: what may be dropped, and what never is. */
module DraftRetention {
  import opened Common
  import opened Sorting
  import opened Drafts

  const RETENTION: Time := 30 * 86400
  const GUARDRAIL: nat := 10

  /** What the cap keeps in any case. */
  predicate Secure(d: Draft) {
    d.core.status == "pending" || d.core.status == "approved" || d.core.status == "posted" || Protected(d)
  }

  /** A rejected, unprotected draft whose thirty days are over. */
  predicate Expired(d: Draft, now: Time) {
    d.core.status == "rejected" && !Protected(d) && Instant(d.core.createdAt) < now - RETENTION
  }

  function Filter(drafts: seq<Draft>, p: Draft -> bool): seq<Draft> {
    if drafts == [] then []
    else (if p(drafts[0]) then [drafts[0]] else []) + Filter(drafts[1..], p)
  }

  lemma {:induction false} FilterAppend(a: seq<Draft>, b: seq<Draft>, p: Draft -> bool)
    ensures Filter(a + b, p) == Filter(a, p) + Filter(b, p)
  {
    if a == [] {
      assert a + b == b;
    } else {
      FilterAppend(a[1..], b, p);
      assert (a + b)[1..] == a[1..] + b;
    }
  }

  lemma {:induction false} FilterMembers(drafts: seq<Draft>, p: Draft -> bool, d: Draft)
    ensures d in Filter(drafts, p) <==> d in drafts && p(d)
  {
    if drafts != [] {
      FilterMembers(drafts[1..], p, d);
      assert drafts == [drafts[0]] + drafts[1..];
    }
  }

  // ----- the cap

  /** The list without its first `k` insecure drafts. */
  function Survivors(drafts: seq<Draft>, k: nat): seq<Draft> {
    if drafts == [] then []
    else if Secure(drafts[0]) then [drafts[0]] + Survivors(drafts[1..], k)
    else if k > 0 then Survivors(drafts[1..], k - 1)
    else [drafts[0]] + Survivors(drafts[1..], 0)
  }

  function SecureOnes(drafts: seq<Draft>): seq<Draft> { Filter(drafts, d => Secure(d)) }

  function InsecureOnes(drafts: seq<Draft>): seq<Draft> { Filter(drafts, d => !Secure(d)) }

  /** How many insecure drafts the cap drops. */
  function Excess(drafts: seq<Draft>, cap: nat): nat {
    if |drafts| <= cap then 0
    else if |SecureOnes(drafts)| >= cap then |InsecureOnes(drafts)|
    else if |InsecureOnes(drafts)| <= cap - |SecureOnes(drafts)| then 0
    else |InsecureOnes(drafts)| - (cap - |SecureOnes(drafts)|)
  }

  lemma {:induction false} Split(drafts: seq<Draft>)
    ensures |SecureOnes(drafts)| + |InsecureOnes(drafts)| == |drafts|
  {
    if drafts != [] {
      Split(drafts[1..]);
    }
  }

  /** What dropping the first `k` insecure drafts leaves: every secure one, in order and number, and
      of the insecure ones all but the first `k`. */
  lemma {:induction false} SurvivorsAre(drafts: seq<Draft>, k: nat)
    ensures var r := Survivors(drafts, k);
      && SecureOnes(r) == SecureOnes(drafts)
      && InsecureOnes(r) == (if k <= |InsecureOnes(drafts)| then InsecureOnes(drafts)[k..] else [])
  {
    if drafts != [] {
      var d, rest := drafts[0], drafts[1..];
      if Secure(d) {
        SurvivorsAre(rest, k);
        assert ([d] + Survivors(rest, k))[1..] == Survivors(rest, k);
      } else if k > 0 {
        SurvivorsAre(rest, k - 1);
      } else {
        SurvivorsAre(rest, 0);
        assert ([d] + Survivors(rest, 0))[1..] == Survivors(rest, 0);
        assert InsecureOnes(drafts) == [d] + InsecureOnes(rest);
      }
    }
  }

  /** MAIN RESULT on the cap: the result has at most `cap` drafts, or consists of secure drafts
      only; the secure drafts are all there in their order; the insecure ones that stay are the
      newest, and as many as fit. */
  lemma CapKeepsSecure(drafts: seq<Draft>, cap: nat)
    ensures var r := Survivors(drafts, Excess(drafts, cap));
      && SecureOnes(r) == SecureOnes(drafts)
      && (|r| <= cap || InsecureOnes(r) == [])
      && (|drafts| <= cap ==> r == drafts)
      && (|drafts| > cap > |SecureOnes(drafts)| ==> |r| == cap)
      && exists k | 0 <= k <= |InsecureOnes(drafts)| :: InsecureOnes(r) == InsecureOnes(drafts)[k..]
  {
    var k := Excess(drafts, cap);
    var r := Survivors(drafts, k);
    Split(drafts);
    SurvivorsAre(drafts, k);
    Split(r);
    if k == 0 {
      NothingDropped(drafts);
    }
  }

  lemma {:induction false} NothingDropped(drafts: seq<Draft>)
    ensures Survivors(drafts, 0) == drafts
  {
    if drafts != [] {
      NothingDropped(drafts[1..]);
    }
  }

  /** `candidates` are the positions of the insecure ones among the first `n` drafts, in order. */
  ghost predicate CandidatesOf(drafts: seq<Draft>, n: nat, candidates: seq<nat>)
    requires n <= |drafts|
  {
    && |candidates| == |InsecureOnes(drafts[..n])|
    && (forall m | 0 <= m < |candidates| ::
          candidates[m] < n && !Secure(drafts[candidates[m]]) && m == |InsecureOnes(drafts[..candidates[m]])|)
    && (forall j | 0 <= j < n && !Secure(drafts[j]) ::
          |InsecureOnes(drafts[..j])| < |candidates| && candidates[|InsecureOnes(drafts[..j])|] == j)
  }

  lemma MoreCandidates(drafts: seq<Draft>, n: nat, candidates: seq<nat>)
    requires n < |drafts| && CandidatesOf(drafts, n, candidates)
    ensures CandidatesOf(drafts, n + 1, if Secure(drafts[n]) then candidates else candidates + [n])
  {
    FilterLast(drafts, n);
  }

  /** A draft is in the tail of the candidates exactly when enough candidates stand before it. */
  lemma InTail(drafts: seq<Draft>, candidates: seq<nat>, first: nat, i: nat)
    requires CandidatesOf(drafts, |drafts|, candidates) && first <= |candidates| && i < |drafts|
    ensures i in candidates[first..] <==> !Secure(drafts[i]) && |InsecureOnes(drafts[..i])| >= first
  {
    if !Secure(drafts[i]) && |InsecureOnes(drafts[..i])| >= first {
      assert candidates[first..][|InsecureOnes(drafts[..i])| - first] == i;
    }
  }

  /** `_enforce_draft_cap`: positions stand for object identity. */
  method EnforceDraftCap(drafts: seq<Draft>, cap: nat) returns (kept: seq<Draft>)
    ensures kept == Survivors(drafts, Excess(drafts, cap))
  {
    hide CandidatesOf, Secure;
    if |drafts| <= cap {
      NothingDropped(drafts);
      return drafts;
    }
    var secure: seq<Draft>, candidates: seq<nat> := [], [];
    NoCandidates(drafts);
    for i := 0 to |drafts|
      invariant secure == SecureOnes(drafts[..i])
      invariant CandidatesOf(drafts, i, candidates)
    {
      FilterLast(drafts, i);
      MoreCandidates(drafts, i, candidates);
      if Secure(drafts[i]) {
        secure := secure + [drafts[i]];
      } else {
        candidates := candidates + [i];
      }
    }
    assert drafts[..|drafts|] == drafts;
    CandidateCount(drafts, candidates);
    if |secure| >= cap {
      AllInsecureDropped(drafts, |candidates|);
      return secure;
    }
    var slots := cap - |secure|;
    var first := if |candidates| <= slots then 0 else |candidates| - slots;
    var keep := candidates[first..];
    kept := [];
    for i := 0 to |drafts|
      invariant kept == Survivors(drafts[..i], first)
    {
      SurvivorsLast(drafts[..i], drafts[i], first);
      assert drafts[..i + 1] == drafts[..i] + [drafts[i]];
      InTail(drafts, candidates, first, i);
      if Secure(drafts[i]) || i in keep {
        kept := kept + [drafts[i]];
      }
    }
    assert drafts[..|drafts|] == drafts;
  }

  lemma NoCandidates(drafts: seq<Draft>)
    ensures CandidatesOf(drafts, 0, [])
  {
  }

  lemma CandidateCount(drafts: seq<Draft>, candidates: seq<nat>)
    requires CandidatesOf(drafts, |drafts|, candidates)
    ensures |candidates| == |InsecureOnes(drafts)|
  {
    assert drafts[..|drafts|] == drafts;
  }

  lemma FilterLast(drafts: seq<Draft>, i: nat)
    requires i < |drafts|
    ensures SecureOnes(drafts[..i + 1]) == SecureOnes(drafts[..i]) + if Secure(drafts[i]) then [drafts[i]] else []
    ensures InsecureOnes(drafts[..i + 1]) == InsecureOnes(drafts[..i]) + if Secure(drafts[i]) then [] else [drafts[i]]
  {
    assert drafts[..i + 1] == drafts[..i] + [drafts[i]];
    FilterAppend(drafts[..i], [drafts[i]], d => Secure(d));
    FilterAppend(drafts[..i], [drafts[i]], d => !Secure(d));
    assert [drafts[i]][1..] == [];
  }

  /** Going on with one more draft: it stays if it is secure or enough insecure ones came before it. */
  lemma {:induction false} SurvivorsLast(drafts: seq<Draft>, d: Draft, k: nat)
    ensures Survivors(drafts + [d], k) ==
      Survivors(drafts, k) + if Secure(d) || |InsecureOnes(drafts)| >= k then [d] else []
  {
    if drafts == [] {
      assert [d][1..] == [];
      assert drafts + [d] == [d];
    } else {
      assert (drafts + [d])[1..] == drafts[1..] + [d];
      SurvivorsLast(drafts[1..], d, if Secure(drafts[0]) then k else if k > 0 then k - 1 else 0);
    }
  }

  lemma {:induction false} AllInsecureDropped(drafts: seq<Draft>, k: nat)
    requires |InsecureOnes(drafts)| <= k
    ensures Survivors(drafts, k) == SecureOnes(drafts)
  {
    if drafts != [] {
      AllInsecureDropped(drafts[1..], if Secure(drafts[0]) || k == 0 then k else k - 1);
    }
  }

  // ----- the trim

  function ByCreation(): (Draft, Draft) -> bool {
    (a: Draft, b: Draft) => Instant(a.core.createdAt) <= Instant(b.core.createdAt)
  }

  /** What the time trim leaves: everything that has not expired, or the newest expired ones if that is nothing. */
  function Retained(drafts: seq<Draft>, now: Time): seq<Draft> {
    var retained := Filter(drafts, d => !Expired(d, now));
    if retained == [] then LastOnes(Sort(Filter(drafts, d => Expired(d, now)), ByCreation()), GUARDRAIL) else retained
  }

  function Trimmed(drafts: seq<Draft>, cap: nat, now: Time): seq<Draft> {
    Survivors(Retained(drafts, now), Excess(Retained(drafts, now), cap))
  }

  /** The part of the state that the trim rewrites in place. */
  class DraftStore {
    var drafts: seq<Draft>

    constructor (drafts: seq<Draft>)
      ensures this.drafts == drafts
    {
      this.drafts := drafts;
    }

    method Trim(cap: nat, now: Time)
      modifies this
      ensures drafts == Trimmed(old(drafts), cap, now)
    {
      var retained: seq<Draft>, expired: seq<Draft> := [], [];
      for i := 0 to |drafts|
        invariant drafts == old(drafts)
        invariant retained == Filter(drafts[..i], d => !Expired(d, now))
        invariant expired == Filter(drafts[..i], d => Expired(d, now))
      {
        assert drafts[..i + 1] == drafts[..i] + [drafts[i]];
        FilterAppend(drafts[..i], [drafts[i]], d => !Expired(d, now));
        FilterAppend(drafts[..i], [drafts[i]], d => Expired(d, now));
        assert [drafts[i]][1..] == [];
        if Expired(drafts[i], now) {
          expired := expired + [drafts[i]];
        } else {
          retained := retained + [drafts[i]];
        }
      }
      assert drafts[..|drafts|] == drafts;
      if retained == [] && expired != [] {
        expired := Sort(expired, ByCreation());
        retained := LastOnes(expired, GUARDRAIL);
      }
      drafts := EnforceDraftCap(retained, cap);
    }
  }

  lemma {:induction false} FilterFilter(drafts: seq<Draft>, now: Time)
    ensures SecureOnes(Filter(drafts, d => !Expired(d, now))) == SecureOnes(drafts)
  {
    if drafts != [] {
      FilterFilter(drafts[1..], now);
      var p := (d: Draft) => !Expired(d, now);
      var f := Filter(drafts[1..], p);
      assert Filter(drafts, p) == if p(drafts[0]) then [drafts[0]] + f else f;
      assert ([drafts[0]] + f)[1..] == f;
      assert SecureOnes(f) == SecureOnes(drafts[1..]);
    }
  }

  /** MAIN RESULT. Neither the thirty-day trim nor the cap ever drops a secure draft: posted, pending,
      approved, in conflict, authorized for publication, or with an unresolved attempt. Their
      sequence is unchanged. And a nonempty list is never emptied by a cap of at least one. */
  lemma TrimKeepsSecure(drafts: seq<Draft>, cap: nat, now: Time)
    ensures SecureOnes(Trimmed(drafts, cap, now)) == SecureOnes(drafts)
    ensures drafts != [] && cap > 0 ==> Trimmed(drafts, cap, now) != []
    ensures forall d | d in Trimmed(drafts, cap, now) :: d in drafts
  {
    var base := Retained(drafts, now);
    CapKeepsSecure(base, cap);
    FilterFilter(drafts, now);
    var retained := Filter(drafts, d => !Expired(d, now));
    if retained == [] {
      NoneSecure(drafts, now);
    }
    forall d | d in base ensures d in drafts {
      FilterMembers(drafts, x => !Expired(x, now), d);
      FilterMembers(drafts, x => Expired(x, now), d);
      SortMembers(Filter(drafts, x => Expired(x, now)), ByCreation(), d);
    }
    forall d | d in Trimmed(drafts, cap, now) ensures d in drafts {
      SurvivorMembers(base, Excess(base, cap), d);
    }
  }

  lemma {:induction false} SurvivorMembers(drafts: seq<Draft>, k: nat, d: Draft)
    requires d in Survivors(drafts, k)
    ensures d in drafts
  {
    if d != drafts[0] {
      SurvivorMembers(drafts[1..], if Secure(drafts[0]) then k else if k > 0 then k - 1 else 0, d);
    }
  }

  /** When everything has expired, nothing is secure, and the newest few are kept all the same. */
  lemma {:induction false} NoneSecure(drafts: seq<Draft>, now: Time)
    requires Filter(drafts, d => !Expired(d, now)) == []
    ensures SecureOnes(drafts) == [] && Filter(drafts, d => Expired(d, now)) == drafts
    ensures SecureOnes(Retained(drafts, now)) == []
    ensures |Retained(drafts, now)| == if |drafts| <= GUARDRAIL then |drafts| else GUARDRAIL
  {
    AllExpired(drafts, now);
    var sorted := Sort(drafts, ByCreation());
    forall d | d in LastOnes(sorted, GUARDRAIL) ensures !Secure(d) {
      SortMembers(drafts, ByCreation(), d);
    }
    NoSecure(LastOnes(sorted, GUARDRAIL));
  }

  lemma {:induction false} AllExpired(drafts: seq<Draft>, now: Time)
    requires Filter(drafts, d => !Expired(d, now)) == []
    ensures SecureOnes(drafts) == [] && Filter(drafts, d => Expired(d, now)) == drafts
    ensures forall d | d in drafts :: !Secure(d)
  {
    if drafts != [] {
      AllExpired(drafts[1..], now);
      assert drafts == [drafts[0]] + drafts[1..];
    }
  }

  lemma {:induction false} NoSecure(drafts: seq<Draft>)
    requires forall d | d in drafts :: !Secure(d)
    ensures SecureOnes(drafts) == []
  {
    if drafts != [] {
      NoSecure(drafts[1..]);
    }
  }

  // ----- merging two lists

  /** Drafts by their id, in order of first appearance, and those without one. */
  datatype Group = Group(order: seq<string>, byId: map<string, Draft>, anonymous: seq<Draft>) {
    ghost predicate Valid() { forall id :: id in order <==> id in byId }

    function Values(): seq<Draft>
      requires Valid()
    {
      seq(|order|, i requires 0 <= i < |order| => assert order[i] in order; byId[order[i]])
    }
  }

  function AddDraft(place: Identity -> int, g: Group, d: Draft): Group {
    match d.core.id
    case None => g.(anonymous := g.anonymous + [d])
    case Some(id) =>
      if id in g.byId then g.(byId := g.byId[id := MergePair(place, g.byId[id], d)])
      else g.(order := g.order + [id], byId := g.byId[id := d])
  }

  function AddAll(place: Identity -> int, g: Group, drafts: seq<Draft>): (r: Group)
    requires g.Valid()
    ensures r.Valid()
    decreases |drafts|
  {
    if drafts == [] then g else AddAll(place, AddDraft(place, g, drafts[0]), drafts[1..])
  }

  const EMPTY := Group([], map[], [])

  function FirstSeen(d: Draft): Time { Instant(Or(d.core.createdAt, d.core.updatedAt)) }

  function LastSeen(d: Draft): Time { Instant(Or(d.core.updatedAt, d.core.createdAt)) }

  function ByAge(): (Draft, Draft) -> bool {
    (a: Draft, b: Draft) =>
      if FirstSeen(a) != FirstSeen(b) then FirstSeen(a) < FirstSeen(b) else LastSeen(a) <= LastSeen(b)
  }

  function Ordered(place: Identity -> int, current: seq<Draft>, incoming: seq<Draft>): seq<Draft> {
    var g := AddAll(place, EMPTY, current + incoming);
    Sort(g.Values() + g.anonymous, ByAge())
  }

  /** `_merge_drafts`. */
  method MergeDrafts(place: Identity -> int, current: seq<Draft>, incoming: seq<Draft>, cap: nat, now: Time)
    returns (merged: seq<Draft>)
    ensures merged == Trimmed(Ordered(place, current, incoming), cap, now)
  {
    var all := current + incoming;
    var g := EMPTY;
    for i := 0 to |all|
      invariant g.Valid() && AddAll(place, g, all[i..]) == AddAll(place, EMPTY, all)
    {
      var d := all[i];
      assert all[i..][0] == d && all[i..][1..] == all[i + 1..];
      if d.core.id.None? {
        g := g.(anonymous := g.anonymous + [d]);
      } else {
        var id := d.core.id.value;
        if id in g.byId {
          var m := MergeDraftPair(place, g.byId[id], d);
          g := g.(byId := g.byId[id := m]);
        } else {
          g := g.(order := g.order + [id], byId := g.byId[id := d]);
        }
      }
    }
    var store := new DraftStore(Sort(g.Values() + g.anonymous, ByAge()));
    store.Trim(cap, now);
    merged := store.drafts;
  }

  // ----- the merged list as histories

  /** The snapshots of one draft, in the order in which they are merged. */
  function OfId(drafts: seq<Draft>, id: string): seq<Draft> { Filter(drafts, (d: Draft) => d.core.id == Some(id)) }

  lemma OfIdAppend(drafts: seq<Draft>, d: Draft, id: string)
    ensures OfId(drafts + [d], id) == OfId(drafts, id) + if d.core.id == Some(id) then [d] else []
  {
    FilterAppend(drafts, [d], (x: Draft) => x.core.id == Some(id));
    assert [d][1..] == [];
  }

  lemma ChainStep(place: Identity -> int, drafts: seq<Draft>, d: Draft)
    ensures Merged(place, Chain(drafts + [d]))
         == if drafts == [] then d else MergePair(place, Merged(place, Chain(drafts)), d)
  {
    hide MergePair;
    assert (drafts + [d])[..|drafts|] == drafts;
    if drafts == [] {
      assert Chain(drafts + [d]) == Snapshot(d);
    } else {
      assert Chain(drafts + [d]) == Merge(Chain(drafts), Snapshot(d));
    }
  }

  /** The group holds under `id` what the snapshots of it have become. */
  ghost predicate Holds(place: Identity -> int, g: Group, seen: seq<Draft>, id: string) {
    && (id in g.byId <==> OfId(seen, id) != [])
    && (id in g.byId ==> g.byId[id] == Merged(place, Chain(OfId(seen, id))))
  }

  lemma AddDraftHolds(place: Identity -> int, g: Group, seen: seq<Draft>, d: Draft, id: string)
    requires Holds(place, g, seen, id)
    ensures Holds(place, AddDraft(place, g, d), seen + [d], id)
  {
    OfIdAppend(seen, d, id);
    ChainStep(place, OfId(seen, id), d);
    hide MergePair, Chain, OfId, Merged;
    assert OfId(seen, id) + [] == OfId(seen, id);
    assert d.core.id == Some(id) ==> AddDraft(place, g, d).byId[id] == Merged(place, Chain(OfId(seen + [d], id)));
  }

  lemma {:induction false} AddAllHolds(place: Identity -> int, g: Group, seen: seq<Draft>, drafts: seq<Draft>, id: string)
    requires g.Valid() && Holds(place, g, seen, id)
    ensures Holds(place, AddAll(place, g, drafts), seen + drafts, id)
    decreases |drafts|
  {
    hide Holds, MergePair;
    if drafts == [] {
      assert seen + drafts == seen;
    } else {
      AddDraftHolds(place, g, seen, drafts[0], id);
      assert seen + [drafts[0]] + drafts[1..] == seen + drafts;
      assert AddDraft(place, g, drafts[0]).Valid();
      hide AddDraft;
      AddAllHolds(place, AddDraft(place, g, drafts[0]), seen + [drafts[0]], drafts[1..], id);
    }
  }

  /** Every draft of the group is where its id says. */
  ghost predicate Named(g: Group) {
    (forall k | k in g.byId :: g.byId[k].core.id == Some(k)) && (forall d | d in g.anonymous :: d.core.id.None?)
  }

  lemma MergeKeepsId(place: Identity -> int, a: Draft, b: Draft)
    requires a.core.id == b.core.id
    ensures MergePair(place, a, b).core.id == a.core.id
  {
  }

  lemma {:induction false} AddAllNamed(place: Identity -> int, g: Group, drafts: seq<Draft>)
    requires g.Valid() && Named(g)
    ensures Named(AddAll(place, g, drafts))
    decreases |drafts|
  {
    if drafts != [] {
      var d := drafts[0];
      if d.core.id.Some? && d.core.id.value in g.byId {
        MergeKeepsId(place, g.byId[d.core.id.value], d);
      }
      hide MergePair;
      AddAllNamed(place, AddDraft(place, g, d), drafts[1..]);
    }
  }

  lemma ValueOf(g: Group, id: string)
    requires g.Valid() && Named(g)
    ensures forall d :: d in g.Values() + g.anonymous && d.core.id == Some(id) <==> id in g.byId && d == g.byId[id]
  {
    if id in g.byId {
      var i :| 0 <= i < |g.order| && g.order[i] == id;
      assert g.Values()[i] == g.byId[id];
    }
  }

  /** MAIN RESULT. Merging two lists merges the snapshots of each id, those of the current list first, one after
      the other: the merged list has under an id what its snapshots become, and nothing else. */
  lemma OrderedIsHistories(place: Identity -> int, current: seq<Draft>, incoming: seq<Draft>, id: string)
    ensures var mine := OfId(current + incoming, id);
      forall d :: d in Ordered(place, current, incoming) && d.core.id == Some(id)
        <==> mine != [] && d == Merged(place, Chain(mine))
  {
    var all := current + incoming;
    var g := AddAll(place, EMPTY, all);
    assert [] + all == all;
    AddAllHolds(place, EMPTY, [], all, id);
    AddAllNamed(place, EMPTY, all);
    ValueOf(g, id);
    hide AddAll, Chain, OfId, Named;
    forall d ensures d in Ordered(place, current, incoming) <==> d in g.Values() + g.anonymous {
      SortMembers(g.Values() + g.anonymous, ByAge(), d);
    }
  }

  // ----- a mark in the merged, trimmed and capped list

  ghost predicate StillMarked(drafts: seq<Draft>, id: string) { exists d | d in drafts :: d.core.id == Some(id) && Marked(d) }

  /** Marked drafts are secure, so a trim keeps exactly them. */
  lemma TrimKeepsMarked(drafts: seq<Draft>, cap: nat, now: Time, id: string)
    ensures StillMarked(Trimmed(drafts, cap, now), id) <==> StillMarked(drafts, id)
  {
    TrimKeepsSecure(drafts, cap, now);
    assert forall d | Marked(d) :: Secure(d);
    hide Marked, Secure;
    forall d ensures d in SecureOnes(drafts) <==> d in drafts && Secure(d) {
      FilterMembers(drafts, x => Secure(x), d);
    }
    forall d ensures d in SecureOnes(Trimmed(drafts, cap, now)) <==> d in Trimmed(drafts, cap, now) && Secure(d) {
      FilterMembers(Trimmed(drafts, cap, now), x => Secure(x), d);
    }
  }

  /** MAIN RESULT, end to end and exact. However small the cap and however old the draft, the merged, trimmed
      and capped list has a marked draft of an id exactly when merging its snapshots leaves a mark. */
  lemma MarkedExactly(place: Identity -> int, current: seq<Draft>, incoming: seq<Draft>, cap: nat, now: Time, id: string)
    ensures var mine := OfId(current + incoming, id);
      StillMarked(Trimmed(Ordered(place, current, incoming), cap, now), id) <==>
        mine != [] && Marked(Merged(place, Chain(mine)))
  {
    hide Trimmed, Ordered, OfId, Marked, Chain;
    OrderedIsHistories(place, current, incoming, id);
    TrimKeepsMarked(Ordered(place, current, incoming), cap, now, id);
  }

  lemma OfIdMembers(drafts: seq<Draft>, id: string, d: Draft)
    ensures d in OfId(drafts, id) <==> d in drafts && d.core.id == Some(id)
  {
    FilterMembers(drafts, (x: Draft) => x.core.id == Some(id), d);
  }

  /** MAIN RESULT. Whatever the two lists hold, a mark of any snapshot is still there in the end if no merge of
      that draft releases an attempt. */
  lemma MarkedDraftSurvives(place: Identity -> int, current: seq<Draft>, incoming: seq<Draft>, cap: nat, now: Time, id: string)
    requires StillMarked(current + incoming, id)
    requires OfId(current + incoming, id) != [] ==> NeverReleases(place, Chain(OfId(current + incoming, id)))
    ensures StillMarked(Trimmed(Ordered(place, current, incoming), cap, now), id)
  {
    var all := current + incoming;
    var d :| d in all && d.core.id == Some(id) && Marked(d);
    OfIdMembers(all, id, d);
    ChainMarked(OfId(all, id));
    MarkSurvivesHistory(place, Chain(OfId(all, id)));
    hide NeverReleases, OfId, Trimmed, Ordered, Marked;
    MarkedExactly(place, current, incoming, cap, now, id);
  }

  /** MAIN RESULT. Lists that hold the draft once each: a mark of either snapshot is still there in the end
      unless and only unless the merge of the two releases the attempt. So a stale record of another
      attempt's end, in either list, takes no mark away. */
  lemma MarkedPairSurvives(place: Identity -> int, current: seq<Draft>, incoming: seq<Draft>, cap: nat, now: Time, id: string,
                           a: Draft, b: Draft)
    requires OfId(current, id) == [a] && OfId(incoming, id) == [b] && (Marked(a) || Marked(b))
    ensures StillMarked(Trimmed(Ordered(place, current, incoming), cap, now), id) <==> !Releases(place, a, b)
    ensures !Releases(place, a, b) ==>
              MergePair(place, a, b) in Ordered(place, current, incoming) && Marked(MergePair(place, a, b))
  {
    FilterAppend(current, incoming, (d: Draft) => d.core.id == Some(id));
    assert [a] + [b] == OfId(current + incoming, id);
    MarkSurvivesMerge(place, a, b);
    hide *;
    ChainOfTwo(place, a, b);
    MarkedExactly(place, current, incoming, cap, now, id);
    OrderedIsHistories(place, current, incoming, id);
  }

  lemma ChainOfTwo(place: Identity -> int, a: Draft, b: Draft)
    ensures Merged(place, Chain([a] + [b])) == MergePair(place, a, b)
  {
    ChainStep(place, [a], b);
    hide MergePair;
    assert Chain([a]) == Snapshot(a);
  }

  /** The same of a draft that only one list holds, once: nothing ever takes its mark away. */
  lemma MarkedSingleSurvives(place: Identity -> int, current: seq<Draft>, incoming: seq<Draft>, cap: nat, now: Time, id: string,
                             a: Draft)
    requires OfId(current + incoming, id) == [a] && Marked(a)
    ensures StillMarked(Trimmed(Ordered(place, current, incoming), cap, now), id)
  {
    assert Chain([a]) == Snapshot(a);
    hide Trimmed, Ordered, OfId, Marked;
    MarkedExactly(place, current, incoming, cap, now, id);
  }
}

/** Which daily diffs a threshold refresh asks for, and how far its watermark may then advance.
    Days are day numbers. */
module Watermark {
  import opened Common

  type Day = int
  type Payload = string

  datatype Refusal = InvalidWindow | LineageUnknown | GapRequiresRebuild | AheadOfWindow

  /** The diff between two snapshot days, when the archive has one. */
  type Archive = (Day, Day) -> Option<Payload>

  datatype Interval = Interval(start: Day, end: Day, content: Payload)

  // ----- the candidate days

  function DaysAfter(checkpoint: Day, cutoff: Day): (days: seq<Day>)
    requires checkpoint <= cutoff
    ensures |days| == cutoff - checkpoint && forall i | 0 <= i < |days| :: days[i] == checkpoint + 1 + i
    decreases cutoff - checkpoint
  {
    if checkpoint == cutoff then [] else [checkpoint + 1] + DaysAfter(checkpoint + 1, cutoff)
  }

  /** `pending_diff_dates`, with its refusals in their order. */
  function PendingDates(watermark: Option<Day>, days: int, lag: int, today: Day): Result<seq<Day>, Refusal> {
    if !(1 <= lag <= days <= 31) then Err(InvalidWindow)
    else match watermark
      case None => Err(LineageUnknown)
      case Some(checkpoint) =>
        if checkpoint < today - (days + 1) then Err(GapRequiresRebuild)
        else if checkpoint > today - lag then Err(AheadOfWindow)
        else Ok(DaysAfter(checkpoint, today - lag))
  }

  /** The days end at the lag cutoff, follow the checkpoint without a gap, and are at most 31. */
  lemma PendingWindow(watermark: Option<Day>, days: int, lag: int, today: Day)
    requires PendingDates(watermark, days, lag, today).Ok?
    ensures watermark.Some?
    ensures var dates := PendingDates(watermark, days, lag, today).value;
            && |dates| == today - lag - watermark.value <= days + 1 - lag <= 31
            && (forall i | 0 <= i < |dates| :: dates[i] == watermark.value + 1 + i)
            && (dates != [] ==> dates[|dates| - 1] == today - lag)
  {
  }

  /** When there are days to ask for, and otherwise which refusal is given. */
  lemma WindowExactly(watermark: Option<Day>, days: int, lag: int, today: Day)
    ensures var r := PendingDates(watermark, days, lag, today);
      && (r == Err(InvalidWindow) <==> lag < 1 || days < lag || days > 31)
      && (r == Err(LineageUnknown) <==> watermark == None && 1 <= lag <= days < 32)
      && (r == Err(GapRequiresRebuild) <==> watermark.Some? && 1 <= lag <= days < 32 && today - watermark.value > days + 1)
      && (r == Err(AheadOfWindow) <==>
           watermark.Some? && 1 <= lag <= days < 32 && today - watermark.value < lag)
      && (r.Ok? <==> watermark.Some? && 1 <= lag <= days < 32 && lag <= today - watermark.value < days + 2)
  {
    hide DaysAfter;
  }

  // ----- the walk

  /** `intervals` are the diffs found; `empty` says that the walk ended at a diff without content. */
  datatype Walked = Walked(intervals: seq<Interval>, cursor: Day, empty: bool)

  /** From one predecessor, probe later and later ends until the archive has that diff. */
  function Walk(diff: Archive, cursor: Day, dates: seq<Day>): Walked
    decreases |dates|
  {
    if dates == [] then Walked([], cursor, false)
    else match diff(cursor, dates[0])
      case None => Walk(diff, cursor, dates[1..])
      case Some(content) =>
        if content == [] then Walked([], cursor, true)
        else
          var rest := Walk(diff, dates[0], dates[1..]);
          rest.(intervals := [Interval(cursor, dates[0], content)] + rest.intervals)
  }

  /** The questions the walk puts to the archive, in order. */
  function Asked(diff: Archive, cursor: Day, dates: seq<Day>): (asked: seq<(Day, Day)>)
    ensures |asked| <= |dates|
    decreases |dates|
  {
    if dates == [] then []
    else
      [(cursor, dates[0])] +
      match diff(cursor, dates[0])
      case None => Asked(diff, cursor, dates[1..])
      case Some(content) => if content == [] then [] else Asked(diff, dates[0], dates[1..])
  }

  /** Only the answers to its own questions decide a walk. */
  lemma {:induction false} WalkAgrees(f: Archive, g: Archive, cursor: Day, dates: seq<Day>)
    requires forall q | q in Asked(f, cursor, dates) :: f(q.0, q.1) == g(q.0, q.1)
    ensures Walk(f, cursor, dates) == Walk(g, cursor, dates) && Asked(f, cursor, dates) == Asked(g, cursor, dates)
    decreases |dates|
  {
    if dates != [] {
      var asked := Asked(f, cursor, dates);
      assert asked[0] in asked && asked[0] == (cursor, dates[0]);
      assert f(cursor, dates[0]) == g(cursor, dates[0]);
      assert forall q | q in asked[1..] :: q in asked;
      match f(cursor, dates[0])
      case None => WalkAgrees(f, g, cursor, dates[1..]);
      case Some(content) =>
        if content != [] {
          WalkAgrees(f, g, dates[0], dates[1..]);
        }
    }
  }

  /** Gapless and without overlap: each interval starts where the one before it ends. */
  predicate Chain(intervals: seq<Interval>, start: Day, end: Day)
    decreases |intervals|
  {
    if intervals == [] then start == end
    else intervals[0].start == start < intervals[0].end && Chain(intervals[1..], intervals[0].end, end)
  }

  predicate Ascend(cursor: Day, dates: seq<Day>) {
    (forall i | 0 <= i < |dates| :: cursor < dates[i]) && (forall i, j | 0 <= i < j < |dates| :: dates[i] < dates[j])
  }

  lemma AscendRest(cursor: Day, dates: seq<Day>)
    requires Ascend(cursor, dates) && dates != []
    ensures Ascend(cursor, dates[1..]) && Ascend(dates[0], dates[1..])
  {
  }

  /** The diffs found are one exact chain from the old watermark to the cursor, each with content and each as archived. */
  lemma {:induction false} WalkIsChain(diff: Archive, cursor: Day, dates: seq<Day>)
    requires Ascend(cursor, dates)
    ensures var w := Walk(diff, cursor, dates);
            && Chain(w.intervals, cursor, w.cursor)
            && (forall i | 0 <= i < |w.intervals| ::
                  w.intervals[i].content != [] && diff(w.intervals[i].start, w.intervals[i].end) == Some(w.intervals[i].content))
    decreases |dates|
  {
    if dates != [] {
      AscendRest(cursor, dates);
      WalkIsChain(diff, cursor, dates[1..]);
      WalkIsChain(diff, dates[0], dates[1..]);
      hide Ascend;
      if diff(cursor, dates[0]).Some? && diff(cursor, dates[0]).value != [] {
        var rest := Walk(diff, dates[0], dates[1..]);
        assert Walk(diff, cursor, dates).intervals[1..] == rest.intervals;
      }
    }
  }

  lemma {:induction false} AskedWithin(diff: Archive, cursor: Day, dates: seq<Day>, low: Day, high: Day)
    requires Ascend(cursor, dates) && low <= cursor && forall i | 0 <= i < |dates| :: dates[i] <= high
    ensures forall q | q in Asked(diff, cursor, dates) :: low <= q.0 < q.1 <= high
    decreases |dates|
  {
    if dates != [] {
      AscendRest(cursor, dates);
      AskedWithin(diff, cursor, dates[1..], low, high);
      AskedWithin(diff, dates[0], dates[1..], low, high);
      hide Ascend;
    }
  }

  /** MAIN RESULT. The guard on the length of a diff interval never fires: every question of a walk
      over pending days spans between 1 and 31 days. */
  lemma IntervalGuardNeverFires(diff: Archive, watermark: Day, days: int, lag: int, today: Day)
    requires PendingDates(Some(watermark), days, lag, today).Ok?
    ensures forall q | q in Asked(diff, watermark, PendingDates(Some(watermark), days, lag, today).value) :: 0 < q.1 - q.0 <= 31
  {
    var dates := PendingDates(Some(watermark), days, lag, today).value;
    PendingWindow(Some(watermark), days, lag, today);
    AskedWithin(diff, watermark, dates, watermark, watermark + 31);
  }

  /** The walk skips no day that the archive could have joined: between two ends that it took, every probe from the same
      start came back empty-handed. */
  lemma {:induction false} WalkTakesFirst(diff: Archive, cursor: Day, dates: seq<Day>, i: nat, d: Day)
    requires Ascend(cursor, dates) && i < |Walk(diff, cursor, dates).intervals| && d in dates
    requires Walk(diff, cursor, dates).intervals[i].start < d < Walk(diff, cursor, dates).intervals[i].end
    ensures diff(Walk(diff, cursor, dates).intervals[i].start, d).None?
    decreases |dates|
  {
    AscendRest(cursor, dates);
    var rest := dates[1..];
    assert dates == [dates[0]] + rest;
    var w := Walk(diff, cursor, dates);
    match diff(cursor, dates[0])
    case None =>
      WalkStarts(diff, cursor, rest, i);
      if d != dates[0] {
        WalkTakesFirst(diff, cursor, rest, i, d);
      } else if i > 0 {
        WalkIsChain(diff, cursor, rest);
        WalkStarts(diff, cursor, rest, i);
      }
    case Some(content) =>
      if i > 0 {
        assert w.intervals[i] == Walk(diff, dates[0], rest).intervals[i - 1];
        WalkStarts(diff, dates[0], rest, i - 1);
        WalkTakesFirst(diff, dates[0], rest, i - 1, d);
      }
  }

  /** Every interval of a walk starts at the cursor or at one of the days, and only the first at the cursor. */
  lemma {:induction false} WalkStarts(diff: Archive, cursor: Day, dates: seq<Day>, i: nat)
    requires Ascend(cursor, dates) && i < |Walk(diff, cursor, dates).intervals|
    ensures var s := Walk(diff, cursor, dates).intervals[i].start; if i == 0 then s == cursor else s in dates
    decreases |dates|
  {
    AscendRest(cursor, dates);
    match diff(cursor, dates[0])
    case None => WalkStarts(diff, cursor, dates[1..], i);
    case Some(content) =>
      if i > 0 {
        WalkStarts(diff, dates[0], dates[1..], i - 1);
      }
  }

  // ----- the new watermark

  function Resolve(intervals: seq<Interval>, base: Day, latest: Day): Day
    decreases |intervals|
  {
    if intervals == [] then latest
    else
      var x := intervals[0];
      if x.end <= base then Resolve(intervals[1..], base, latest)
      else if x.start == latest && x.end > x.start then Resolve(intervals[1..], base, x.end)
      else latest
  }

  /** `_resolve_new_watermark` */
  method ResolveNewWatermark(intervals: seq<Interval>, current: Option<Day>) returns (r: Option<Day>)
    ensures current.None? ==> r.None?
    ensures current.Some? ==> r == Some(Resolve(intervals, current.value, current.value))
  {
    if current.None? {
      return None;
    }
    var latest := current.value;
    for i := 0 to |intervals|
      invariant Resolve(intervals[i..], current.value, latest) == Resolve(intervals, current.value, current.value)
    {
      var x := intervals[i];
      assert intervals[i..][0] == x && intervals[i..][1..] == intervals[i + 1..];
      if x.end <= current.value {
        continue;
      }
      if x.start == latest && x.end > x.start {
        latest := x.end;
        continue;
      }
      break;
    }
    r := Some(latest);
  }

  /** Some of the intervals, in their order, lead from `a` to `b` without a gap. */
  predicate Reaches(intervals: seq<Interval>, a: Day, b: Day)
    decreases |intervals|
  {
    a == b || (intervals != [] && (Reaches(intervals[1..], a, b)
      || (intervals[0].start == a < intervals[0].end && Reaches(intervals[1..], intervals[0].end, b))))
  }

  /** MAIN RESULT, for arbitrary lists: the new watermark is connected to the old one by listed
      intervals, so it never crosses a gap and never goes back. */
  lemma {:induction false} NeverCrossesGap(intervals: seq<Interval>, base: Day, latest: Day)
    requires base <= latest
    ensures Reaches(intervals, latest, Resolve(intervals, base, latest)) && latest <= Resolve(intervals, base, latest)
    decreases |intervals|
  {
    if intervals != [] {
      NeverCrossesGap(intervals[1..], base, latest);
      if base <= intervals[0].end {
        NeverCrossesGap(intervals[1..], base, intervals[0].end);
      }
    }
  }

  /** It stops only at an interval that does not continue the chain. */
  lemma {:induction false} StopsOnlyAtGap(intervals: seq<Interval>, base: Day, latest: Day) returns (k: nat)
    ensures k <= |intervals| && Resolve(intervals[..k], base, latest) == Resolve(intervals, base, latest)
    ensures k < |intervals| ==>
              var r := Resolve(intervals, base, latest);
              intervals[k].end > base && (intervals[k].start != r || intervals[k].end <= r)
    ensures k == |intervals| || Resolve(intervals[..k + 1], base, latest) == Resolve(intervals, base, latest)
    decreases |intervals|
  {
    if intervals == [] {
      k := 0;
    } else {
      var x, rest := intervals[0], intervals[1..];
      if x.end <= base || (x.start == latest && x.end > x.start) {
        k := StopsOnlyAtGap(rest, base, if x.end <= base then latest else x.end);
        k := k + 1;
        assert intervals[..k][0] == x && intervals[..k][1..] == rest[..k - 1];
        if k < |intervals| {
          assert intervals[..k + 1][0] == x && intervals[..k + 1][1..] == rest[..k];
        }
      } else {
        k := 0;
      }
    }
  }

  lemma {:induction false} ChainResolves(intervals: seq<Interval>, base: Day, start: Day, end: Day)
    requires Chain(intervals, start, end) && base <= start
    ensures Resolve(intervals, base, start) == end
    decreases |intervals|
  {
    if intervals != [] {
      ChainResolves(intervals[1..], base, intervals[0].end, end);
    }
  }

  /** MAIN RESULT. After a walk the new watermark is exactly the end of the chain it found, and there is
      progress exactly when the walk found a diff. */
  lemma WalkResolves(diff: Archive, watermark: Day, dates: seq<Day>)
    requires Ascend(watermark, dates)
    ensures var w := Walk(diff, watermark, dates);
            && Resolve(w.intervals, watermark, watermark) == w.cursor
            && (w.cursor == watermark <==> w.intervals == [])
            && (w.cursor == watermark || w.cursor in dates)
  {
    WalkIsChain(diff, watermark, dates);
    var w := Walk(diff, watermark, dates);
    ChainResolves(w.intervals, watermark, watermark, w.cursor);
    ChainGrows(w.intervals, watermark, w.cursor);
    WalkEnds(diff, watermark, dates);
  }

  lemma {:induction false} ChainGrows(intervals: seq<Interval>, start: Day, end: Day)
    requires Chain(intervals, start, end)
    ensures start <= end && (start == end <==> intervals == [])
    decreases |intervals|
  {
    if intervals != [] {
      ChainGrows(intervals[1..], intervals[0].end, end);
    }
  }

  lemma {:induction false} WalkEnds(diff: Archive, cursor: Day, dates: seq<Day>)
    ensures var w := Walk(diff, cursor, dates); w.cursor == cursor || w.cursor in dates
    decreases |dates|
  {
    if dates != [] {
      WalkEnds(diff, cursor, dates[1..]);
      WalkEnds(diff, dates[0], dates[1..]);
    }
  }
}

/**
 * Recording reports: built and redelivered by the node (node/main.go), merged into one row per
 * event and stream by the control plane (app/server/services/media-node-handlers.ts).
 */
module RecordingMerge {
  import opened Bytes

  datatype Segment = Segment(relPath: string, sizeBytes: int)

  datatype Report = Report(
    streamName: string, eventId: Option<int>, sessionId: Option<int>, nodeId: Option<string>,
    segments: seq<Segment>, sizeBytes: int, durationSec: int,
    avgFps: Option<real>, width: Option<int>, height: Option<int>)

  datatype Row = Row(
    eventId: Option<int>, sessionId: Option<int>, streamName: string, nodeId: Option<string>,
    filePath: string, segments: seq<string>, sizeBytes: int, durationSec: int,
    avgFps: Option<real>, width: Option<int>, height: Option<int>, startedAt: int, endedAt: int)

  function Sum(segs: seq<Segment>): int {
    if segs == [] then 0 else Sum(segs[..|segs| - 1]) + segs[|segs| - 1].sizeBytes
  }

  function Paths(segs: seq<Segment>): (ps: seq<string>)
    ensures |ps| == |segs| && forall i | 0 <= i < |segs| :: ps[i] == segs[i].relPath
  {
    seq(|segs|, i requires 0 <= i < |segs| => segs[i].relPath)
  }

  /** The segments whose path is not among `known`. */
  function Fresh(known: seq<string>, segs: seq<Segment>): seq<Segment> {
    if segs == [] then []
    else
      var last := segs[|segs| - 1];
      Fresh(known, segs[..|segs| - 1]) + if last.relPath in known then [] else [last]
  }

  predicate Truthy(x: Option<real>) {
    x.Some? && x.value != 0.0
  }

  function OrElse<T>(x: Option<T>, y: Option<T>): Option<T> {
    if x.Some? then x else y
  }

  function FramesIn(fps: real, dur: int): real {
    fps * dur as real
  }

  /** The mean of two rates over `before` and `after - before` seconds, as the merge computes it. */
  function Mean(fps: real, before: int, fps': real, after: int): real {
    (FramesIn(fps, before) + FramesIn(fps', after - before)) / (if after < 1 then 1 else after) as real
  }

  function MergedFps(fps: Option<real>, before: int, fps': Option<real>, after: int): Option<real> {
    if Truthy(fps) && Truthy(fps') then Some(Mean(fps.value, before, fps'.value, after)) else OrElse(fps', fps)
  }

  function Merge(row: Row, p: Report, now: int): Row {
    var added := Fresh(row.segments, p.segments);
    var nextDur := if |added| > 0 then row.durationSec + p.durationSec else row.durationSec;
    row.(segments := row.segments + Paths(added), sizeBytes := row.sizeBytes + Sum(added),
         durationSec := nextDur, avgFps := MergedFps(row.avgFps, row.durationSec, p.avgFps, nextDur),
         width := OrElse(p.width, row.width), height := OrElse(p.height, row.height), endedAt := now)
  }

  function NewRow(p: Report, now: int): Row {
    Row(p.eventId, p.sessionId, p.streamName, p.nodeId,
        if p.segments == [] then "" else p.segments[0].relPath, Paths(p.segments), p.sizeBytes, p.durationSec,
        p.avgFps, p.width, p.height, now - p.durationSec * 1000, now)
  }

  predicate Matches(row: Row, event: int, stream: string) {
    row.eventId == Some(event) && row.streamName == stream
  }

  /** The matching row that started last. */
  function MergeTarget(rows: seq<Row>, event: int, stream: string): (t: Option<nat>)
    ensures t.Some? ==> t.value < |rows| && Matches(rows[t.value], event, stream)
    ensures t.Some? ==> forall i | 0 <= i < |rows| && Matches(rows[i], event, stream) ::
                          rows[i].startedAt <= rows[t.value].startedAt
    ensures t.None? ==> forall i | 0 <= i < |rows| :: !Matches(rows[i], event, stream)
  {
    if rows == [] then None
    else
      var n := |rows| - 1;
      var t := MergeTarget(rows[..n], event, stream);
      if Matches(rows[n], event, stream) && (t.None? || rows[n].startedAt > rows[t.value].startedAt) then Some(n) else t
  }

  function Target(rows: seq<Row>, p: Report): (t: Option<nat>)
    ensures t.Some? ==> t.value < |rows|
  {
    if p.eventId.Some? then MergeTarget(rows, p.eventId.value, p.streamName) else None
  }

  function Deliver(rows: seq<Row>, p: Report, now: int): seq<Row> {
    var t := Target(rows, p);
    if t.Some? then rows[t.value := Merge(rows[t.value], p, now)] else rows + [NewRow(p, now)]
  }

  // ---- reference: a ledger computed from the whole delivery history ----

  datatype Delivery = Delivery(report: Report, now: int)

  /** What `reportRecording` guarantees of a report. */
  ghost predicate Honest(p: Report) {
    DistinctPaths(p.segments) && p.sizeBytes == Sum(p.segments)
  }

  ghost predicate DistinctPaths(segs: seq<Segment>) {
    forall i, j | 0 <= i < j < |segs| :: segs[i].relPath != segs[j].relPath
  }

  /** The reports of a history about one event and stream, oldest first. */
  function About(history: seq<Delivery>, event: int, stream: string): seq<Report> {
    if history == [] then []
    else
      var p := history[|history| - 1].report;
      About(history[..|history| - 1], event, stream)
      + if p.eventId == Some(event) && p.streamName == stream then [p] else []
  }

  /** All segments ever listed, in order, with repeats. */
  function Listed(h: seq<Report>): seq<Segment> {
    if h == [] then [] else Listed(h[..|h| - 1]) + h[|h| - 1].segments
  }

  /** The first mention of every path. */
  function FirstMentions(segs: seq<Segment>): seq<Segment> {
    if segs == [] then []
    else
      var earlier := FirstMentions(segs[..|segs| - 1]);
      var last := segs[|segs| - 1];
      earlier + if last.relPath in Paths(earlier) then [] else [last]
  }

  /** A delivery contributes when it is the first, or lists a path nobody listed before. */
  predicate Contributes(h: seq<Report>, p: Report) {
    h == [] || exists s | s in p.segments :: s.relPath !in Paths(Listed(h))
  }

  function Duration(h: seq<Report>): int {
    if h == [] then 0
    else
      var past, p := h[..|h| - 1], h[|h| - 1];
      Duration(past) + if Contributes(past, p) then p.durationSec else 0
  }

  /** Frames over all contributing deliveries. */
  function Frames(h: seq<Report>): real {
    if h == [] then 0.0
    else
      var past, p := h[..|h| - 1], h[|h| - 1];
      Frames(past) + if Contributes(past, p) && p.avgFps.Some? then FramesIn(p.avgFps.value, p.durationSec) else 0.0
  }

  /** Every report measured a positive frame rate over a non-negative duration. */
  predicate Measured(h: seq<Report>) {
    forall p | p in h :: p.avgFps.Some? && p.avgFps.value > 0.0 && p.durationSec >= 0
  }

  /** A positive rate over `dur` seconds that makes `frames`; over no time any rate will do. */
  predicate Weighs(fps: Option<real>, dur: int, frames: real) {
    dur >= 0 && fps.Some? && FramesIn(fps.value, dur) == frames && (fps.value > 0.0 || dur == 0)
  }

  ghost predicate FpsAgrees(row: Row, h: seq<Report>) {
    Weighs(row.avgFps, row.durationSec, Frames(h))
  }

  ghost predicate TotalsAgree(row: Row, h: seq<Report>) {
    var first := FirstMentions(Listed(h));
    && row.segments == Paths(first)
    && row.sizeBytes == Sum(first)
    && row.durationSec == Duration(h)
  }

  ghost predicate Agrees(row: Row, h: seq<Report>) {
    TotalsAgree(row, h) && (Measured(h) ==> FpsAgrees(row, h))
  }

  // ---- the merge keeps the ledger ----

  lemma {:induction false} FirstMentionsPaths(segs: seq<Segment>, path: string)
    ensures path in Paths(FirstMentions(segs)) <==> path in Paths(segs)
  {
    if segs != [] {
      var n := |segs| - 1;
      FirstMentionsPaths(segs[..n], path);
      var earlier, last := FirstMentions(segs[..n]), segs[n];
      assert Paths(earlier + [last]) == Paths(earlier) + [last.relPath];
      assert Paths(segs) == Paths(segs[..n]) + [last.relPath];
      assert earlier + [] == earlier;
    }
  }

  lemma {:induction false} FirstMentionsDistinct(segs: seq<Segment>)
    ensures DistinctPaths(FirstMentions(segs))
  {
    if segs != [] {
      var n := |segs| - 1;
      FirstMentionsDistinct(segs[..n]);
      var earlier := FirstMentions(segs[..n]);
      forall i | 0 <= i < |earlier| && segs[n].relPath !in Paths(earlier)
        ensures earlier[i].relPath != segs[n].relPath
      {
        assert Paths(earlier)[i] == earlier[i].relPath;
      }
    }
  }

  /** `s` is listed, and no earlier segment has its path. */
  ghost predicate MentionedFirst(s: Segment, segs: seq<Segment>) {
    exists i | 0 <= i < |segs| :: segs[i] == s && s.relPath !in Paths(segs[..i])
  }

  /** Each path is kept once, with the size that was reported for it first. */
  lemma {:induction false} FirstMentionsAreFirst(segs: seq<Segment>, s: Segment)
    ensures DistinctPaths(FirstMentions(segs))
    ensures s in FirstMentions(segs) ==> MentionedFirst(s, segs)
  {
    FirstMentionsDistinct(segs);
    if s in FirstMentions(segs) {
      var n := |segs| - 1;
      FirstMentionsPaths(segs[..n], segs[n].relPath);
      if s in FirstMentions(segs[..n]) {
        FirstMentionsAreFirst(segs[..n], s);
        var i :| 0 <= i < n && segs[..n][i] == s && s.relPath !in Paths(segs[..n][..i]);
        assert segs[..n][..i] == segs[..i];
      } else {
        assert segs[n] == s;
      }
    }
  }

  lemma {:induction false} FreshPaths(known: seq<string>, segs: seq<Segment>)
    ensures forall path :: path in Paths(Fresh(known, segs)) <==> path in Paths(segs) && path !in known
  {
    if segs != [] {
      var n := |segs| - 1;
      FreshPaths(known, segs[..n]);
      var older := Fresh(known, segs[..n]);
      assert Paths(older + [segs[n]]) == Paths(older) + [segs[n].relPath];
      assert Paths(segs) == Paths(segs[..n]) + [segs[n].relPath];
      assert older + [] == older;
    }
  }

  lemma FirstMentionsSnoc(segs: seq<Segment>, x: Segment)
    ensures FirstMentions(segs + [x]) ==
            FirstMentions(segs) + if x.relPath in Paths(FirstMentions(segs)) then [] else [x]
  {
    assert (segs + [x])[..|segs|] == segs;
  }

  lemma FreshSnoc(known: seq<string>, segs: seq<Segment>, x: Segment)
    ensures Fresh(known, segs + [x]) == Fresh(known, segs) + if x.relPath in known then [] else [x]
  {
    assert (segs + [x])[..|segs|] == segs;
  }

  lemma PathsOfSum(a: seq<Segment>, b: seq<Segment>)
    ensures Paths(a + b) == Paths(a) + Paths(b)
  {
  }

  lemma KnownOrNew(first: seq<Segment>, init: seq<Segment>, x: Segment)
    requires x.relPath !in Paths(init)
    ensures x.relPath in Paths(first + Fresh(Paths(first), init)) <==> x.relPath in Paths(first)
  {
    FreshPaths(Paths(first), init);
    PathsOfSum(first, Fresh(Paths(first), init));
  }

  lemma ExtendStep(all: seq<Segment>, first: seq<Segment>, init: seq<Segment>, x: Segment)
    requires FirstMentions(all) == first + Fresh(Paths(first), init) && x.relPath !in Paths(init)
    ensures FirstMentions(all + [x]) == first + Fresh(Paths(first), init + [x])
  {
    var added := Fresh(Paths(first), init);
    FirstMentionsSnoc(all, x);
    FreshSnoc(Paths(first), init, x);
    KnownOrNew(first, init, x);
    SegmentsAssociative(first, added, if x.relPath in Paths(first) then [] else [x]);
  }

  lemma SegmentsAssociative(a: seq<Segment>, b: seq<Segment>, c: seq<Segment>)
    ensures (a + b) + c == a + (b + c)
  {
  }

  lemma DistinctInit(segs: seq<Segment>)
    requires segs != [] && DistinctPaths(segs)
    ensures var init, x := segs[..|segs| - 1], segs[|segs| - 1];
            segs == init + [x] && DistinctPaths(init) && x.relPath !in Paths(init)
  {
  }

  lemma LastApart(a: seq<Segment>, b: seq<Segment>)
    requires b != []
    ensures a + b == (a + b[..|b| - 1]) + [b[|b| - 1]] && b == b[..|b| - 1] + [b[|b| - 1]]
  {
  }

  /** First mentions of a history extended by one report: the old ones and the report's new ones. */
  lemma {:induction false} FirstMentionsExtend(a: seq<Segment>, b: seq<Segment>)
    requires DistinctPaths(b)
    ensures FirstMentions(a + b) == FirstMentions(a) + Fresh(Paths(FirstMentions(a)), b)
  {
    if b == [] {
      assert a + b == a && FirstMentions(a) + [] == FirstMentions(a);
    } else {
      var init, x := b[..|b| - 1], b[|b| - 1];
      DistinctInit(b);
      FirstMentionsExtend(a, init);
      ExtendStep(a + init, FirstMentions(a), init, x);
      LastApart(a, b);
    }
  }

  lemma {:induction false} TotalsAppend(a: seq<Segment>, b: seq<Segment>)
    ensures Paths(a + b) == Paths(a) + Paths(b) && Sum(a + b) == Sum(a) + Sum(b)
  {
    if b == [] {
      assert a + b == a;
    } else {
      assert (a + b)[..|a + b| - 1] == a + b[..|b| - 1];
      TotalsAppend(a, b[..|b| - 1]);
    }
  }

  lemma {:induction false} FirstMentionsOfDistinct(segs: seq<Segment>)
    requires DistinctPaths(segs)
    ensures FirstMentions(segs) == segs
  {
    if segs != [] {
      FirstMentionsOfDistinct(segs[..|segs| - 1]);
    }
  }

  lemma LedgerSnoc(h: seq<Report>, p: Report)
    ensures Listed(h + [p]) == Listed(h) + p.segments
    ensures Duration(h + [p]) == Duration(h) + if Contributes(h, p) then p.durationSec else 0
    ensures Frames(h + [p]) ==
            Frames(h) + if Contributes(h, p) && p.avgFps.Some? then FramesIn(p.avgFps.value, p.durationSec) else 0.0
    ensures Measured(h + [p]) <==> Measured(h) && Measured([p])
  {
    var all := h + [p];
    assert all[..|h|] == h && all[|h|] == p;
    if Measured(all) {
      forall q | q in h ensures q in all {}
      assert p in all;
    }
  }

  lemma ContributesWhenNew(row: Row, h: seq<Report>, p: Report)
    requires TotalsAgree(row, h) && h != []
    ensures Contributes(h, p) <==> |Fresh(row.segments, p.segments)| > 0
  {
    var added := Fresh(row.segments, p.segments);
    FreshPaths(row.segments, p.segments);
    if Contributes(h, p) {
      var s :| s in p.segments && s.relPath !in Paths(Listed(h));
      FirstMentionsPaths(Listed(h), s.relPath);
      assert s.relPath in Paths(p.segments);
      assert s.relPath in Paths(added);
    }
    if |added| > 0 {
      var path := Paths(added)[0];
      assert path in Paths(added);
      var i :| 0 <= i < |p.segments| && Paths(p.segments)[i] == path;
      FirstMentionsPaths(Listed(h), path);
      assert p.segments[i] in p.segments;
    }
  }

  lemma MeanKeepsFrames(fps: real, before: int, fps': real, after: int)
    requires fps > 0.0 && fps' > 0.0 && 0 <= before <= after
    ensures FramesIn(Mean(fps, before, fps', after), after) == FramesIn(fps, before) + FramesIn(fps', after - before)
    ensures Mean(fps, before, fps', after) > 0.0 || after == 0
  {
    var total := FramesIn(fps, before) + FramesIn(fps', after - before);
    if after > 0 {
      assert total / after as real * after as real == total;
      FramesPositive(fps, before);
      FramesPositive(fps', after - before);
      assert total / after as real > 0.0;
    }
  }

  lemma FramesPositive(fps: real, dur: int)
    requires fps > 0.0 && dur >= 0
    ensures FramesIn(fps, dur) >= 0.0 && (dur > 0 ==> FramesIn(fps, dur) > 0.0)
  {
  }

  lemma MergedFpsWeighs(fps: Option<real>, before: int, frames: real, fps': real, after: int)
    requires Weighs(fps, before, frames) && fps' > 0.0 && before <= after
    ensures Weighs(MergedFps(fps, before, Some(fps'), after), after, frames + FramesIn(fps', after - before))
  {
    if before > 0 || fps.value > 0.0 {
      MeanKeepsFrames(fps.value, before, fps', after);
    } else {
      assert frames == 0.0;
      FramesPositive(fps', after);
      if after > 0 {
        assert FramesIn(fps', after) / after as real * after as real == FramesIn(fps', after);
      }
    }
  }

  lemma MergeKeepsFps(row: Row, h: seq<Report>, p: Report, now: int)
    requires FpsAgrees(row, h) && p.avgFps.Some? && p.avgFps.value > 0.0 && p.durationSec >= 0
    requires Contributes(h, p) <==> |Fresh(row.segments, p.segments)| > 0
    ensures FpsAgrees(Merge(row, p, now), h + [p])
  {
    LedgerSnoc(h, p);
    var add := if Contributes(h, p) then p.durationSec else 0;
    assert FramesIn(p.avgFps.value, 0) == 0.0;
    assert Frames(h + [p]) == Frames(h) + FramesIn(p.avgFps.value, add);
    MergedFpsWeighs(row.avgFps, row.durationSec, Frames(h), p.avgFps.value, row.durationSec + add);
  }

  lemma TotalsExtend(all: seq<Segment>, segs: seq<Segment>)
    requires DistinctPaths(segs)
    ensures var first := FirstMentions(all);
            var added := Fresh(Paths(first), segs);
            && Paths(FirstMentions(all + segs)) == Paths(first) + Paths(added)
            && Sum(FirstMentions(all + segs)) == Sum(first) + Sum(added)
  {
    var first, both := FirstMentions(all), FirstMentions(all + segs);
    var added := Fresh(Paths(first), segs);
    assert both == first + added by { FirstMentionsExtend(all, segs); }
    TotalsAppend(first, added);
  }

  lemma MergedDuration(row: Row, h: seq<Report>, p: Report, now: int)
    requires TotalsAgree(row, h) && h != [] && DistinctPaths(p.segments)
    ensures Merge(row, p, now).durationSec == Duration(h + [p])
  {
    LedgerSnoc(h, p);
    ContributesWhenNew(row, h, p);
  }

  lemma MergeKeepsTotals(row: Row, h: seq<Report>, p: Report, now: int)
    requires TotalsAgree(row, h) && h != [] && DistinctPaths(p.segments)
    ensures TotalsAgree(Merge(row, p, now), h + [p])
  {
    MergedDuration(row, h, p, now);
    LedgerSnoc(h, p);
    TotalsExtend(Listed(h), p.segments);
  }

  lemma MergeAgrees(row: Row, h: seq<Report>, p: Report, now: int)
    requires Agrees(row, h) && h != [] && DistinctPaths(p.segments)
    ensures Agrees(Merge(row, p, now), h + [p])
  {
    MergeKeepsTotals(row, h, p, now);
    LedgerSnoc(h, p);
    if Measured(h + [p]) {
      ContributesWhenNew(row, h, p);
      assert p in [p];
      MergeKeepsFps(row, h, p, now);
    }
  }

  lemma NewRowTotals(p: Report, now: int)
    requires Honest(p)
    ensures TotalsAgree(NewRow(p, now), [p])
  {
    LedgerSnoc([], p);
    assert [] + [p] == [p] && Listed([]) + p.segments == p.segments;
    FirstMentionsOfDistinct(p.segments);
  }

  lemma NewRowFps(p: Report, now: int)
    requires Measured([p])
    ensures FpsAgrees(NewRow(p, now), [p])
  {
    LedgerSnoc([], p);
    assert [] + [p] == [p] && p in [p];
  }

  // ---- the whole table ----

  function DeliverAll(history: seq<Delivery>): seq<Row> {
    if history == [] then []
    else
      var d := history[|history| - 1];
      Deliver(DeliverAll(history[..|history| - 1]), d.report, d.now)
  }

  ghost predicate OneRow(rows: seq<Row>, event: int, stream: string, i: nat) {
    && i < |rows| && Matches(rows[i], event, stream)
    && forall j | 0 <= j < |rows| && Matches(rows[j], event, stream) :: j == i
  }

  /** The rows of one event and stream against the reports about them. */
  ghost predicate KeyAgrees(rows: seq<Row>, h: seq<Report>, event: int, stream: string) {
    if h == [] then forall i | 0 <= i < |rows| :: !Matches(rows[i], event, stream)
    else exists i: nat :: OneRow(rows, event, stream, i) && Agrees(rows[i], h)
  }

  lemma DeliverElsewhere(rows: seq<Row>, h: seq<Report>, p: Report, now: int, event: int, stream: string)
    requires KeyAgrees(rows, h, event, stream) && !(p.eventId == Some(event) && p.streamName == stream)
    ensures KeyAgrees(Deliver(rows, p, now), h, event, stream)
  {
    var rows' := Deliver(rows, p, now);
    if h != [] {
      var i: nat :| OneRow(rows, event, stream, i) && Agrees(rows[i], h);
      assert OneRow(rows', event, stream, i) && rows'[i] == rows[i];
    }
  }

  lemma DeliverFirst(rows: seq<Row>, p: Report, now: int, event: int, stream: string)
    requires KeyAgrees(rows, [], event, stream) && p.eventId == Some(event) && p.streamName == stream && Honest(p)
    ensures KeyAgrees(Deliver(rows, p, now), [p], event, stream)
  {
    var rows' := Deliver(rows, p, now);
    assert rows' == rows + [NewRow(p, now)];
    NewRowTotals(p, now);
    if Measured([p]) { NewRowFps(p, now); }
    assert OneRow(rows', event, stream, |rows|) && Agrees(rows'[|rows|], [p]);
  }

  /** The one row of an event and stream is where a report about them goes. */
  lemma OneRowIsTarget(rows: seq<Row>, p: Report, now: int, event: int, stream: string, i: nat)
    requires OneRow(rows, event, stream, i) && p.eventId == Some(event) && p.streamName == stream
    ensures Deliver(rows, p, now) == rows[i := Merge(rows[i], p, now)]
  {
    var t := MergeTarget(rows, event, stream);
    assert t == Some(i);
  }

  lemma UpdatedStaysOne(rows: seq<Row>, event: int, stream: string, i: nat, row: Row)
    requires OneRow(rows, event, stream, i) && Matches(row, event, stream)
    ensures OneRow(rows[i := row], event, stream, i)
  {
  }

  lemma DeliverAgain(rows: seq<Row>, h: seq<Report>, p: Report, now: int, event: int, stream: string)
    requires KeyAgrees(rows, h, event, stream) && h != []
    requires p.eventId == Some(event) && p.streamName == stream && Honest(p)
    ensures KeyAgrees(Deliver(rows, p, now), h + [p], event, stream)
  {
    var i: nat :| OneRow(rows, event, stream, i) && Agrees(rows[i], h);
    OneRowIsTarget(rows, p, now, event, stream, i);
    MergeAgrees(rows[i], h, p, now);
    UpdatedStaysOne(rows, event, stream, i, Merge(rows[i], p, now));
    assert OneRow(Deliver(rows, p, now), event, stream, i) && Agrees(Deliver(rows, p, now)[i], h + [p]);
  }

  ghost predicate AllHonest(history: seq<Delivery>) {
    forall d | d in history :: d.report.eventId.Some? ==> Honest(d.report)
  }

  /**
   * Whatever is delivered, however often and in whatever order: an event and stream reported at
   * all have exactly one row, which lists every path once and holds the size first reported for
   * each, the duration of the contributing deliveries, and their weighted average rate.
   */
  lemma {:induction false} TableAgreesWithLedger(history: seq<Delivery>, event: int, stream: string)
    requires AllHonest(history)
    ensures KeyAgrees(DeliverAll(history), About(history, event, stream), event, stream)
  {
    if history != [] {
      var past, d := history[..|history| - 1], history[|history| - 1];
      HonestPast(history);
      TableAgreesWithLedger(past, event, stream);
      DeliveryKeeps(DeliverAll(past), About(past, event, stream), d, event, stream);
    }
  }

  lemma HonestPast(history: seq<Delivery>)
    requires AllHonest(history) && history != []
    ensures AllHonest(history[..|history| - 1])
    ensures var d := history[|history| - 1]; d.report.eventId.Some? ==> Honest(d.report)
  {
    assert history[|history| - 1] in history;
    forall e | e in history[..|history| - 1] ensures e in history {}
  }

  /** One more delivery, about these or about others. */
  lemma DeliveryKeeps(rows: seq<Row>, h: seq<Report>, d: Delivery, event: int, stream: string)
    requires KeyAgrees(rows, h, event, stream) && (d.report.eventId.Some? ==> Honest(d.report))
    ensures KeyAgrees(Deliver(rows, d.report, d.now),
                      h + (if d.report.eventId == Some(event) && d.report.streamName == stream then [d.report] else []),
                      event, stream)
  {
    if d.report.eventId == Some(event) && d.report.streamName == stream {
      if h == [] {
        assert h + [d.report] == [d.report];
        DeliverFirst(rows, d.report, d.now, event, stream);
      } else {
        DeliverAgain(rows, h, d.report, d.now, event, stream);
      }
    } else {
      assert h + [] == h;
      DeliverElsewhere(rows, h, d.report, d.now, event, stream);
    }
  }

  /** The segment list of every keyed row is free of duplicates. */
  lemma SegmentsAreDistinct(history: seq<Delivery>, i: nat)
    requires AllHonest(history) && i < |DeliverAll(history)| && DeliverAll(history)[i].eventId.Some?
    ensures var segs := DeliverAll(history)[i].segments;
            forall j, k | 0 <= j < k < |segs| :: segs[j] != segs[k]
  {
    var row := DeliverAll(history)[i];
    TableAgreesWithLedger(history, row.eventId.value, row.streamName);
    assert Matches(row, row.eventId.value, row.streamName);
    FirstMentionsDistinct(Listed(About(history, row.eventId.value, row.streamName)));
  }

  lemma {:induction false} ListedContains(h: seq<Report>, p: Report, path: string)
    requires p in h && path in Paths(p.segments)
    ensures path in Paths(Listed(h))
  {
    var past, last := h[..|h| - 1], h[|h| - 1];
    assert Paths(Listed(past) + last.segments) == Paths(Listed(past)) + Paths(last.segments);
    if p != last {
      ListedContains(past, p, path);
    }
  }

  /** A report that is in the history already has nothing new for the row. */
  lemma NothingNew(row: Row, h: seq<Report>, q: Report, p: Report)
    requires TotalsAgree(row, h) && q in h && q.segments == p.segments
    ensures Fresh(row.segments, p.segments) == []
  {
    var added := Fresh(row.segments, p.segments);
    FreshPaths(row.segments, p.segments);
    if |added| > 0 {
      var path := Paths(added)[0];
      assert path in Paths(added);
      ListedContains(h, q, path);
      FirstMentionsPaths(Listed(h), path);
    }
  }

  /** The rows agree in what was recorded. */
  predicate SameRecording(a: Row, b: Row) {
    a.segments == b.segments && a.sizeBytes == b.sizeBytes && a.durationSec == b.durationSec
  }

  /**
   * When a report without news leaves the rate alone: it brings none or the same, or both rates
   * count and there is a duration to weigh them with. Over no time the rate drops to zero.
   */
  predicate RateKept(row: Row, p: Report) {
    if Truthy(row.avgFps) && Truthy(p.avgFps) then row.durationSec >= 1 else p.avgFps.None? || p.avgFps == row.avgFps
  }

  lemma MergeWithoutNews(row: Row, p: Report, now: int)
    requires Fresh(row.segments, p.segments) == []
    ensures SameRecording(Merge(row, p, now), row)
    ensures Merge(row, p, now).avgFps == row.avgFps <==> RateKept(row, p)
  {
    assert row.segments + Paths([]) == row.segments;
    if Truthy(row.avgFps) && Truthy(p.avgFps) {
      MeanWithoutTime(row.avgFps.value, row.durationSec, p.avgFps.value);
    }
  }

  lemma MeanWithoutTime(fps: real, dur: int, fps': real)
    requires fps != 0.0
    ensures Mean(fps, dur, fps', dur) == fps <==> dur >= 1
  {
    assert FramesIn(fps', 0) == 0.0;
    if dur >= 1 {
      assert fps * dur as real / dur as real == fps;
    } else {
      assert fps * dur as real == fps ==> dur as real == 1.0;
    }
  }

  /**
   * Delivering the files of a report `q` again, at any later point, as it was or with another rate,
   * duration or size, changes neither segments, size nor duration; and it changes the rate exactly as
   * said above.
   */
  lemma RedeliveryHarmless(history: seq<Delivery>, q: Report, p: Report, now: int, event: int, stream: string)
    returns (i: nat)
    requires AllHonest(history) && p.eventId == Some(event) && p.streamName == stream
    requires q in About(history, event, stream) && q.segments == p.segments
    ensures var rows := DeliverAll(history);
            var rows' := Deliver(rows, p, now);
            && OneRow(rows, event, stream, i) && rows' == rows[i := rows'[i]]
            && SameRecording(rows'[i], rows[i])
            && (rows'[i].avgFps == rows[i].avgFps <==> RateKept(rows[i], p))
  {
    var rows, h := DeliverAll(history), About(history, event, stream);
    TableAgreesWithLedger(history, event, stream);
    i :| OneRow(rows, event, stream, i) && Agrees(rows[i], h);
    OneRowIsTarget(rows, p, now, event, stream, i);
    NothingNew(rows[i], h, q, p);
    MergeWithoutNews(rows[i], p, now);
  }

  /** Without an event nothing is ever merged: a redelivery doubles the row. */
  lemma UnkeyedReportsDouble(rows: seq<Row>, p: Report, now: int, later: int)
    requires p.eventId.None?
    ensures Deliver(Deliver(rows, p, now), p, later) == rows + [NewRow(p, now), NewRow(p, later)]
  {
  }

  // ---- the control plane's table ----

  class Recordings {
    var rows: seq<Row>

    constructor ()
      ensures rows == []
    {
      rows := [];
    }

    method HandleRecordingReady(p: Report, now: int)
      modifies this
      ensures rows == Deliver(old(rows), p, now)
    {
      var existing := if p.eventId.Some? then MergeTarget(rows, p.eventId.value, p.streamName) else None;
      if existing.Some? {
        var row := rows[existing.value];
        var added := Fresh(row.segments, p.segments);
        var segs := row.segments + Paths(added);
        var prevDur := row.durationSec;
        var nextDur := if |added| > 0 then prevDur + p.durationSec else prevDur;
        var avg := OrElse(p.avgFps, row.avgFps);
        if Truthy(row.avgFps) && Truthy(p.avgFps) {
          avg := Some(Mean(row.avgFps.value, prevDur, p.avgFps.value, nextDur));
        }
        rows := rows[existing.value := row.(segments := segs, sizeBytes := row.sizeBytes + Sum(added),
                                            durationSec := nextDur, avgFps := avg,
                                            width := OrElse(p.width, row.width),
                                            height := OrElse(p.height, row.height), endedAt := now)];
      } else {
        rows := rows + [NewRow(p, now)];
      }
    }
  }

  // ---- the node's report ----

  /** A directory entry; `info` is None when it cannot be read. */
  datatype Entry = Entry(name: string, isDir: bool, info: Option<Info>)
  datatype Info = Info(size: int, modTime: int)

  predicate EndsInFlv(name: string) {
    |name| >= 4 && name[|name| - 4..] == ".flv"
  }

  /** A segment file written during the session. */
  predicate Wanted(e: Entry, since: int) {
    !e.isDir && EndsInFlv(e.name) && e.info.Some? && e.info.value.modTime >= since
  }

  /**
   * One delivery attempt: whether it was acknowledged, whether the deadline had passed after it, and
   * what the node is called and the session measures when it is made.
   */
  datatype Attempt = Attempt(
    ok: bool, late: bool, nodeId: Option<string>, avgFps: Option<real>, width: Option<int>, height: Option<int>)

  ghost predicate DistinctNames(entries: seq<Entry>) {
    forall i, j | 0 <= i < j < |entries| :: entries[i].name != entries[j].name
  }

  /** `segs` are the segments of the wanted entries. */
  ghost predicate SegmentsOf(dir: string, entries: seq<Entry>, since: int, segs: seq<Segment>) {
    && (forall s | s in segs :: exists e | e in entries :: Wanted(e, since) && s == SegmentOf(dir, e))
    && (forall e | e in entries && Wanted(e, since) :: SegmentOf(dir, e) in segs)
  }

  method Scan(dir: string, entries: seq<Entry>, since: int) returns (segs: seq<Segment>, total: int)
    requires DistinctNames(entries)
    ensures SegmentsOf(dir, entries, since, segs) && DistinctPaths(segs) && total == Sum(segs)
    ensures forall s | s in segs ::
              exists e | e in entries ::
                !e.isDir && |e.name| >= 4 && e.name[|e.name| - 4..] == ".flv"
                && e.info.Some? && e.info.value.modTime >= since
                && s == Segment(dir + "/" + e.name, e.info.value.size)
    ensures forall e | e in entries && !e.isDir && |e.name| >= 4 && e.name[|e.name| - 4..] == ".flv"
                       && e.info.Some? && e.info.value.modTime >= since ::
              Segment(dir + "/" + e.name, e.info.value.size) in segs
  {
    segs, total := [], 0;
    for k := 0 to |entries|
      invariant SegmentsOf(dir, entries[..k], since, segs) && DistinctPaths(segs) && total == Sum(segs)
    {
      var e := entries[k];
      assert entries[..k + 1] == entries[..k] + [e];
      if e.isDir || !EndsInFlv(e.name) { continue; }
      if e.info.None? { continue; }
      if e.info.value.modTime < since { continue; }
      NewPath(dir, entries, since, segs, k);
      segs := segs + [SegmentOf(dir, e)];
      total := total + e.info.value.size;
    }
    assert entries[..|entries|] == entries;
  }

  lemma NewPath(dir: string, entries: seq<Entry>, since: int, segs: seq<Segment>, k: nat)
    requires DistinctNames(entries) && k < |entries| && SegmentsOf(dir, entries[..k], since, segs)
    ensures forall s | s in segs :: s.relPath != dir + "/" + entries[k].name
  {
    forall s | s in segs ensures s.relPath != dir + "/" + entries[k].name {
      var e :| e in entries[..k] && Wanted(e, since) && s == SegmentOf(dir, e);
      PathsDiffer(dir, e.name, entries[k].name);
    }
  }

  /** Whether delivery ends with this attempt. */
  predicate Final(a: Attempt) {
    a.ok || a.late
  }

  /** The report of an attempt: what was scanned once, and what its session and node are by then. */
  function Built(scanned: Report, a: Attempt): Report {
    scanned.(nodeId := a.nodeId, avgFps := a.avgFps, width := a.width, height := a.height)
  }

  /**
   * Scans the directory once, and delivers a report of what it found until one is accepted or the
   * deadline passes. Each is built anew: the files stay the same, the rate may not. `empty` is the
   * report without its segments.
   */
  method ReportRecording(dir: string, entries: seq<Entry>, since: int, empty: Report, attempts: seq<Attempt>)
    returns (scanned: Report, sent: seq<Report>)
    requires DistinctNames(entries)
    ensures Honest(scanned) && SegmentsOf(dir, entries, since, scanned.segments)
    ensures scanned == empty.(segments := scanned.segments, sizeBytes := scanned.sizeBytes)
    ensures |sent| <= |attempts| && forall i :: 0 <= i < |sent| ==> sent[i] == Built(scanned, attempts[i])
    ensures scanned.segments == [] ==> sent == []
    ensures scanned.segments != [] ==>
              && (forall i :: 0 <= i < |sent| - 1 ==> !Final(attempts[i]))
              && (|sent| < |attempts| ==> sent != [] && Final(attempts[|sent| - 1]))
  {
    var segs, total := Scan(dir, entries, since);
    scanned, sent := empty.(segments := segs, sizeBytes := total), [];
    if |segs| == 0 { return; }
    while |sent| < |attempts|
      invariant |sent| <= |attempts| && forall i :: 0 <= i < |sent| ==> sent[i] == Built(scanned, attempts[i])
      invariant forall i :: 0 <= i < |sent| ==> !Final(attempts[i])
      decreases |attempts| - |sent|
    {
      var a := attempts[|sent|];
      sent := sent + [Built(scanned, a)];
      if Final(a) { return; }
    }
  }

  function SegmentOf(dir: string, e: Entry): Segment
    requires e.info.Some?
  {
    Segment(dir + "/" + e.name, e.info.value.size)
  }

  lemma PathsDiffer(dir: string, a: string, b: string)
    requires a != b
    ensures dir + "/" + a != dir + "/" + b
  {
    var pre := dir + "/";
    assert (pre + a)[|pre|..] == a && (pre + b)[|pre|..] == b;
  }
}

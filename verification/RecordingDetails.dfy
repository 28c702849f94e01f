/**
 * What the row of a recording says beside its segments (app/server/services/media-node-handlers.ts):
 * who was first to report it, when it began and was last heard of, and its dimensions.
 */
module RecordingDetails {
  import opened Bytes
  import opened RecordingMerge

  /** The deliveries of a history about one event and stream, oldest first. */
  function Concerning(history: seq<Delivery>, event: int, stream: string): seq<Delivery> {
    if history == [] then []
    else
      var d := history[|history| - 1];
      Concerning(history[..|history| - 1], event, stream)
      + if d.report.eventId == Some(event) && d.report.streamName == stream then [d] else []
  }

  /** The last width, or height, that was reported at all. */
  function LastWidth(ds: seq<Delivery>): Option<int> {
    if ds == [] then None
    else
      var w := ds[|ds| - 1].report.width;
      if w.Some? then w else LastWidth(ds[..|ds| - 1])
  }

  function LastHeight(ds: seq<Delivery>): Option<int> {
    if ds == [] then None
    else
      var h := ds[|ds| - 1].report.height;
      if h.Some? then h else LastHeight(ds[..|ds| - 1])
  }

  /** Session, node, main file and start come from the first delivery, the end and the dimensions from the last. */
  ghost predicate Remembers(row: Row, ds: seq<Delivery>)
    requires ds != []
  {
    var first, last := ds[0], ds[|ds| - 1];
    && row.sessionId == first.report.sessionId && row.nodeId == first.report.nodeId
    && row.filePath == (if first.report.segments == [] then "" else first.report.segments[0].relPath)
    && row.startedAt == first.now - 1000 * first.report.durationSec
    && row.endedAt == last.now
    && row.width == LastWidth(ds) && row.height == LastHeight(ds)
  }

  /** No row for what nobody reported; one row that remembers for everything else. */
  ghost predicate KeyRemembers(rows: seq<Row>, ds: seq<Delivery>, event: int, stream: string) {
    if ds == [] then forall i | 0 <= i < |rows| :: !Matches(rows[i], event, stream)
    else exists i: nat :: OneRow(rows, event, stream, i) && Remembers(rows[i], ds)
  }

  lemma NewRowRemembers(d: Delivery)
    ensures Remembers(NewRow(d.report, d.now), [d])
  {
    assert [d][..0] == [];
  }

  lemma MergeRemembers(row: Row, ds: seq<Delivery>, d: Delivery)
    requires ds != [] && Remembers(row, ds)
    ensures Remembers(Merge(row, d.report, d.now), ds + [d])
  {
    assert (ds + [d])[..|ds|] == ds;
  }

  lemma ElsewhereKeeps(rows: seq<Row>, ds: seq<Delivery>, d: Delivery, event: int, stream: string)
    requires KeyRemembers(rows, ds, event, stream) && !(d.report.eventId == Some(event) && d.report.streamName == stream)
    ensures KeyRemembers(Deliver(rows, d.report, d.now), ds, event, stream)
  {
    if ds != [] {
      var i: nat :| OneRow(rows, event, stream, i) && Remembers(rows[i], ds);
      var rows' := Deliver(rows, d.report, d.now);
      assert OneRow(rows', event, stream, i) && rows'[i] == rows[i];
    }
  }

  lemma DeliveryKeeps(rows: seq<Row>, ds: seq<Delivery>, d: Delivery, event: int, stream: string)
    requires KeyRemembers(rows, ds, event, stream) && d.report.eventId == Some(event) && d.report.streamName == stream
    ensures KeyRemembers(Deliver(rows, d.report, d.now), ds + [d], event, stream)
  {
    var rows' := Deliver(rows, d.report, d.now);
    if ds == [] {
      assert rows' == rows + [NewRow(d.report, d.now)] && [] + [d] == [d];
      NewRowRemembers(d);
      assert OneRow(rows', event, stream, |rows|) && Remembers(rows'[|rows|], [d]);
    } else {
      var i: nat :| OneRow(rows, event, stream, i) && Remembers(rows[i], ds);
      OneRowIsTarget(rows, d.report, d.now, event, stream, i);
      MergeRemembers(rows[i], ds, d);
      UpdatedStaysOne(rows, event, stream, i, Merge(rows[i], d.report, d.now));
      assert OneRow(rows', event, stream, i) && Remembers(rows'[i], ds + [d]);
    }
  }

  /**
   * Whatever is delivered, however often and in whatever order: an event and stream have a row exactly
   * if they were reported, and one only, which bears the session, node, main file and start of the first
   * delivery about them, the time of the last one, and the dimensions last reported.
   */
  lemma {:induction false} RowRemembersHistory(history: seq<Delivery>, event: int, stream: string)
    ensures KeyRemembers(DeliverAll(history), Concerning(history, event, stream), event, stream)
  {
    if history != [] {
      var past, d := history[..|history| - 1], history[|history| - 1];
      var ds := Concerning(past, event, stream);
      RowRemembersHistory(past, event, stream);
      if d.report.eventId == Some(event) && d.report.streamName == stream {
        DeliveryKeeps(DeliverAll(past), ds, d, event, stream);
      } else {
        ElsewhereKeeps(DeliverAll(past), ds, d, event, stream);
        assert ds + [] == ds;
      }
    }
  }
}

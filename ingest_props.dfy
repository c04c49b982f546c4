/**
 * What collect_analytics promises about one batch and about successive batches, proved of the
 * specification `Ingest.Run` (and so, through `Collector.Collect`'s postcondition, of the loop).
 */
module IngestProperties {
  import opened Schemas
  import opened EventPayload
  import opened Ingest

  /** The events of a batch that are not mousemoves, in batch order. */
  function NonMouse(es: seq<Event>): (r: seq<Event>)
    ensures |r| <= |es|
    ensures forall i :: 0 <= i < |r| ==> r[i].kind != MOUSEMOVE
    decreases |es|
  {
    if es == [] then []
    else NonMouse(es[..|es| - 1]) + (if es[|es| - 1].kind != MOUSEMOVE then [es[|es| - 1]] else [])
  }

  /** Number of mousemoves of session `s` in `es`. */
  function MouseMoves(es: seq<Event>, s: string): (n: nat)
    ensures n <= |es|
    decreases |es|
  {
    if es == [] then 0
    else MouseMoves(es[..|es| - 1], s) + (if es[|es| - 1].kind == MOUSEMOVE && es[|es| - 1].sessionId == s then 1 else 0)
  }

  /** Number of mousemoves of any session in `es`. */
  function AllMouseMoves(es: seq<Event>): (n: nat)
    ensures n + |NonMouse(es)| == |es|
    decreases |es|
  {
    if es == [] then 0
    else AllMouseMoves(es[..|es| - 1]) + (if es[|es| - 1].kind == MOUSEMOVE then 1 else 0)
  }

  /** The session ids occurring in `es`. */
  function SessionIds(es: seq<Event>): set<string> {
    set i | 0 <= i < |es| :: es[i].sessionId
  }

  function EventRowsOf(ctx: Context, f: seq<Event>): seq<EventRow> {
    seq(|f|, i requires 0 <= i < |f| => EventRowOf(ctx, f[i]))
  }

  /** The effect of one loop turn on each part of the state, field by field. */
  lemma StepEffect(ctx: Context, b: Batch, e: Event)
    ensures var r := Step(ctx, b, e);
      var mouse := e.kind == MOUSEMOVE;
      var sampled := mouse && (Count(b.counters, e.sessionId) + 1) % MOUSE_SAMPLE_RATE == 0;
      && r.sessionsSeen == b.sessionsSeen + {e.sessionId}
      && r.sessionInserts == b.sessionInserts +
           (if e.sessionId !in b.sessionsSeen && (ctx.siteId, e.sessionId) !in ctx.knownSessions
            then [NewSessionRow(ctx, e)] else [])
      && (forall s :: Count(r.counters, s) == Count(b.counters, s) + (if mouse && e.sessionId == s then 1 else 0))
      && r.mouseEventsSampled == b.mouseEventsSampled + (if sampled then 1 else 0)
      && r.heatmapInserts == b.heatmapInserts + (if sampled && HasPosition(e) then [HeatmapRowOf(ctx, e)] else [])
      && r.eventInserts == b.eventInserts + (if mouse then [] else [EventRowOf(ctx, e)])
      && r.eventsStored == b.eventsStored + (if mouse then 0 else 1)
  {
  }

  // ---------------------------------------------------------------- sampling counters

  /**
   * Each mousemove adds exactly 1 to its own session's counter and nothing else moves a
   * counter: after the batch, a session's counter is its old value plus its mousemoves.
   */
  lemma {:induction false} CountersAfterRun(ctx: Context, b: Batch, es: seq<Event>, s: string)
    ensures Count(Run(ctx, b, es).counters, s) == Count(b.counters, s) + MouseMoves(es, s)
    decreases |es|
  {
    if es != [] {
      CountersAfterRun(ctx, b, es[..|es| - 1], s);
      StepEffect(ctx, Run(ctx, b, es[..|es| - 1]), es[|es| - 1]);
    }
  }

  /** `(m + 1) / 5 - m / 5` is 1 exactly when `m + 1` is a multiple of 5. */
  lemma FloorStep(m: nat)
    ensures (m + 1) / MOUSE_SAMPLE_RATE - m / MOUSE_SAMPLE_RATE == if (m + 1) % MOUSE_SAMPLE_RATE == 0 then 1 else 0
  {
  }

  /**
   * For a batch whose mousemoves all belong to session `s`, starting from counter `c` with `n`
   * mousemoves, the number sampled is `(c + n) / 5 - c / 5`, whether or not they carry a position.
   */
  lemma {:induction false} SampledOneSession(ctx: Context, b: Batch, es: seq<Event>, s: string)
    requires forall i :: 0 <= i < |es| && es[i].kind == MOUSEMOVE ==> es[i].sessionId == s
    ensures Run(ctx, b, es).mouseEventsSampled - b.mouseEventsSampled
            == (Count(b.counters, s) + MouseMoves(es, s)) / MOUSE_SAMPLE_RATE - Count(b.counters, s) / MOUSE_SAMPLE_RATE
    decreases |es|
  {
    if es != [] {
      var p, e := es[..|es| - 1], es[|es| - 1];
      SampledOneSession(ctx, b, p, s);
      CountersAfterRun(ctx, b, p, s);
      StepEffect(ctx, Run(ctx, b, p), e);
      var m := Count(b.counters, s) + MouseMoves(p, s);
      if e.kind == MOUSEMOVE {
        FloorStep(m);
      }
    }
  }

  /**
   * The mousemoves of `es` that bring their own session's counter (starting from `counters`)
   * to a multiple of 5, counted without reference to the loop: the j-th event is one when it
   * is a mousemove and its session's starting counter plus that session's mousemoves up to and
   * including it is a multiple of 5. `positioned` restricts the count to those with a position.
   */
  function SampledMoves(counters: map<string, nat>, es: seq<Event>, positioned: bool): nat
    decreases |es|
  {
    if es == [] then 0
    else
      var e := es[|es| - 1];
      SampledMoves(counters, es[..|es| - 1], positioned) +
      (if && e.kind == MOUSEMOVE
          && (Count(counters, e.sessionId) + MouseMoves(es, e.sessionId)) % MOUSE_SAMPLE_RATE == 0
          && (positioned ==> HasPosition(e))
       then 1 else 0)
  }

  /**
   * For every batch, whatever its sessions: `mouse_events_sampled` grows by exactly the
   * mousemoves that bring their counter to a multiple of 5, positionless ones included.
   */
  lemma {:induction false} SampledExact(ctx: Context, b: Batch, es: seq<Event>)
    ensures Run(ctx, b, es).mouseEventsSampled == b.mouseEventsSampled + SampledMoves(b.counters, es, false)
    decreases |es|
  {
    if es != [] {
      var p, e := es[..|es| - 1], es[|es| - 1];
      SampledExact(ctx, b, p);
      CountersAfterRun(ctx, b, p, e.sessionId);
      StepEffect(ctx, Run(ctx, b, p), e);
    }
  }

  /**
   * The heatmap rows of `es`, in batch order, without reference to the loop: one
   * `HeatmapRowOf` for each mousemove with a position that brings its session's counter
   * (starting from `counters`) to a multiple of 5.
   */
  function PlottedRows(ctx: Context, counters: map<string, nat>, es: seq<Event>): seq<HeatmapRow>
    decreases |es|
  {
    if es == [] then []
    else
      var e := es[|es| - 1];
      PlottedRows(ctx, counters, es[..|es| - 1]) +
      (if && e.kind == MOUSEMOVE
          && (Count(counters, e.sessionId) + MouseMoves(es, e.sessionId)) % MOUSE_SAMPLE_RATE == 0
          && HasPosition(e)
       then [HeatmapRowOf(ctx, e)] else [])
  }

  /**
   * For every batch: the heatmap rows added are exactly `PlottedRows`, one per sampled
   * mousemove with a position, in batch order, after the rows already there.
   */
  lemma {:induction false} PlottedExact(ctx: Context, b: Batch, es: seq<Event>)
    ensures Run(ctx, b, es).heatmapInserts == b.heatmapInserts + PlottedRows(ctx, b.counters, es)
    decreases |es|
  {
    if es != [] {
      var p, e := es[..|es| - 1], es[|es| - 1];
      PlottedExact(ctx, b, p);
      CountersAfterRun(ctx, b, p, e.sessionId);
      StepEffect(ctx, Run(ctx, b, p), e);
    }
  }

  /** There are as many heatmap rows as sampled mousemoves with a position. */
  lemma {:induction false} PlottedRowsCount(ctx: Context, counters: map<string, nat>, es: seq<Event>)
    ensures |PlottedRows(ctx, counters, es)| == SampledMoves(counters, es, true)
    decreases |es|
  {
    if es != [] {
      PlottedRowsCount(ctx, counters, es[..|es| - 1]);
    }
  }

  /**
   * A heatmap row is only ever added for a sampled mousemove, so there are at most as many as
   * `mouse_events_sampled`, and exactly as many when every mousemove has a position; at most
   * every mousemove is sampled. Each row belongs to the batch's site, counts 1, and is built
   * from one mousemove with a position.
   */
  lemma {:induction false} HeatmapFromSampled(ctx: Context, b: Batch, es: seq<Event>)
    ensures Run(ctx, b, es).mouseEventsSampled >= b.mouseEventsSampled
    ensures |Run(ctx, b, es).heatmapInserts| >= |b.heatmapInserts|
    ensures |Run(ctx, b, es).heatmapInserts| - |b.heatmapInserts| <= Run(ctx, b, es).mouseEventsSampled - b.mouseEventsSampled
    ensures (forall j :: 0 <= j < |es| && es[j].kind == MOUSEMOVE ==> HasPosition(es[j])) ==>
              |Run(ctx, b, es).heatmapInserts| - |b.heatmapInserts| == Run(ctx, b, es).mouseEventsSampled - b.mouseEventsSampled
    ensures Run(ctx, b, es).mouseEventsSampled - b.mouseEventsSampled <= AllMouseMoves(es)
    ensures Run(ctx, b, es).heatmapInserts[..|b.heatmapInserts|] == b.heatmapInserts
    ensures forall k :: |b.heatmapInserts| <= k < |Run(ctx, b, es).heatmapInserts| ==>
              Run(ctx, b, es).heatmapInserts[k].siteId == ctx.siteId &&
              Run(ctx, b, es).heatmapInserts[k].count == 1 &&
              exists j :: 0 <= j < |es| && es[j].kind == MOUSEMOVE && HasPosition(es[j]) &&
                          Run(ctx, b, es).heatmapInserts[k] == HeatmapRowOf(ctx, es[j])
    decreases |es|
  {
    if es != [] {
      var p, e := es[..|es| - 1], es[|es| - 1];
      HeatmapFromSampled(ctx, b, p);
      var rp, r := Run(ctx, b, p), Run(ctx, b, es);
      StepEffect(ctx, rp, e);
      assert forall j :: 0 <= j < |p| ==> p[j] == es[j];
      forall k | |b.heatmapInserts| <= k < |r.heatmapInserts|
        ensures r.heatmapInserts[k].siteId == ctx.siteId && r.heatmapInserts[k].count == 1
        ensures exists j :: 0 <= j < |es| && es[j].kind == MOUSEMOVE && HasPosition(es[j]) &&
                            r.heatmapInserts[k] == HeatmapRowOf(ctx, es[j])
      {
        if k < |rp.heatmapInserts| {
          assert r.heatmapInserts[k] == rp.heatmapInserts[k];
          var j :| 0 <= j < |p| && p[j].kind == MOUSEMOVE && HasPosition(p[j]) &&
                   rp.heatmapInserts[k] == HeatmapRowOf(ctx, p[j]);
          assert es[j] == p[j];
        } else {
          assert es[|es| - 1] == e;
        }
      }
    }
  }

  // ---------------------------------------------------------------- event rows

  lemma EventRowsOfAppend(ctx: Context, f: seq<Event>, g: seq<Event>)
    ensures EventRowsOf(ctx, f + g) == EventRowsOf(ctx, f) + EventRowsOf(ctx, g)
  {
  }

  /**
   * Every event that is not a mousemove yields exactly one event row, in batch order, and
   * `events_stored` grows by exactly that many.
   */
  lemma {:induction false} EventInsertsAreNonMouse(ctx: Context, b: Batch, es: seq<Event>)
    ensures Run(ctx, b, es).eventInserts == b.eventInserts + EventRowsOf(ctx, NonMouse(es))
    ensures Run(ctx, b, es).eventsStored == b.eventsStored + |NonMouse(es)|
    decreases |es|
  {
    if es != [] {
      var p, e := es[..|es| - 1], es[|es| - 1];
      EventInsertsAreNonMouse(ctx, b, p);
      StepEffect(ctx, Run(ctx, b, p), e);
      if e.kind != MOUSEMOVE {
        EventRowsOfAppend(ctx, NonMouse(p), [e]);
      } else {
        assert NonMouse(es) == NonMouse(p);
      }
    }
  }

  /**
   * Over a whole batch from the start state, the event rows are the non-mousemove events in
   * order, each carrying the batch's site id and the event's own session, visitor and type,
   * with a missing page title or referrer stored as the empty string, and `events_stored` is
   * their number.
   */
  lemma EventRowsOfBatch(ctx: Context, counters: map<string, nat>, es: seq<Event>)
    ensures var r := Run(ctx, Start(counters), es);
      && |r.eventInserts| == |NonMouse(es)| == r.eventsStored
      && forall i :: 0 <= i < |r.eventInserts| ==> StoredAs(ctx, r.eventInserts[i], NonMouse(es)[i])
  {
    EventInsertsAreNonMouse(ctx, Start(counters), es);
    var rows, f := Run(ctx, Start(counters), es).eventInserts, NonMouse(es);
    assert rows == EventRowsOf(ctx, f);
    forall i | 0 <= i < |rows| ensures StoredAs(ctx, rows[i], f[i]) {
      assert rows[i] == EventRowOf(ctx, f[i]);
    }
  }

  /**
   * `row` is the `analytics_events` row of `e` in the batch of `ctx`: the batch's site and the
   * event's own session, visitor, type, time, page and payload, with a missing page title or
   * referrer stored as the empty string.
   */
  predicate StoredAs(ctx: Context, row: EventRow, e: Event) {
    && row.siteId == ctx.siteId && row.sessionId == e.sessionId && row.visitorId == e.visitorId
    && row.eventType == e.kind && row.timestamp == e.timestamp
    && row.pageUrl == e.page.url && row.pagePath == e.page.path
    && (e.page.title.None? ==> row.pageTitle == "")
    && (e.page.title.Some? ==> row.pageTitle == e.page.title.value)
    && (e.page.referrer.None? ==> row.pageReferrer == "")
    && (e.page.referrer.Some? ==> row.pageReferrer == e.page.referrer.value)
    && row.eventData == SelectEventData(e)
  }

  // ---------------------------------------------------------------- session rows

  /** Index of the first event of session `sid` in `es`, or `|es|` when it has none. */
  function FirstIndex(es: seq<Event>, sid: string): (r: nat)
    ensures r <= |es|
    ensures r < |es| ==> es[r].sessionId == sid
    ensures forall k :: 0 <= k < r ==> es[k].sessionId != sid
    decreases |es|
  {
    if es == [] then 0
    else
      var f := FirstIndex(es[..|es| - 1], sid);
      if f < |es| - 1 then f
      else if es[|es| - 1].sessionId == sid then |es| - 1
      else |es|
  }

  lemma SessionIdsLast(es: seq<Event>)
    requires es != []
    ensures SessionIds(es) == SessionIds(es[..|es| - 1]) + {es[|es| - 1].sessionId}
  {
    var p := es[..|es| - 1];
    forall s | s in SessionIds(es) ensures s in SessionIds(p) + {es[|es| - 1].sessionId} {
      var j :| 0 <= j < |es| && es[j].sessionId == s;
      if j < |p| { assert p[j].sessionId == s; }
    }
    forall s | s in SessionIds(p) ensures s in SessionIds(es) {
      var j :| 0 <= j < |p| && p[j].sessionId == s;
      assert es[j].sessionId == s;
    }
  }

  /** `sessions_seen` ends up holding exactly the batch's session ids (that each is looked up only once is `LookupAtFirstEvent`). */
  lemma {:induction false} SeenIsSessionIds(ctx: Context, counters: map<string, nat>, es: seq<Event>)
    ensures Run(ctx, Start(counters), es).sessionsSeen == SessionIds(es)
    decreases |es|
  {
    if es != [] {
      var p := es[..|es| - 1];
      SeenIsSessionIds(ctx, counters, p);
      StepEffect(ctx, Run(ctx, Start(counters), p), es[|es| - 1]);
      SessionIdsLast(es);
    } else {
      assert SessionIds(es) == {};
    }
  }

  /**
   * The stored-session lookup sits in the not-yet-seen branch, and it is taken at event `j`
   * exactly when `j` is the first event of its session in the batch.
   */
  lemma LookupAtFirstEvent(ctx: Context, counters: map<string, nat>, es: seq<Event>, j: nat)
    requires j < |es|
    ensures es[j].sessionId !in Run(ctx, Start(counters), es[..j]).sessionsSeen
            <==> j == FirstIndex(es, es[j].sessionId)
  {
    SeenIsSessionIds(ctx, counters, es[..j]);
    var sid := es[j].sessionId;
    var f := FirstIndex(es, sid);
    assert f <= j;
    if f < j {
      assert es[..j][f].sessionId == sid;
    } else {
      forall k | 0 <= k < j ensures es[..j][k].sessionId != sid {
        assert es[k].sessionId != sid;
      }
    }
  }

  /** So each session of the batch is looked up once: a later event of the same session finds it seen. */
  lemma LookupOnce(ctx: Context, counters: map<string, nat>, es: seq<Event>, j: nat, k: nat)
    requires j < k < |es| && es[j].sessionId == es[k].sessionId
    ensures es[k].sessionId in Run(ctx, Start(counters), es[..k]).sessionsSeen
  {
    LookupAtFirstEvent(ctx, counters, es, k);
    assert FirstIndex(es, es[k].sessionId) <= j;
  }

  /** New-session rows have pairwise distinct session ids, each a session of the batch not yet stored for the site. */
  lemma {:induction false} SessionRowsDistinct(ctx: Context, counters: map<string, nat>, es: seq<Event>)
    ensures var rows := Run(ctx, Start(counters), es).sessionInserts;
      && (forall i, j :: 0 <= i < j < |rows| ==> rows[i].sessionId != rows[j].sessionId)
      && (forall i :: 0 <= i < |rows| ==>
            rows[i].sessionId in SessionIds(es) && (ctx.siteId, rows[i].sessionId) !in ctx.knownSessions)
    decreases |es|
  {
    if es != [] {
      var p, e := es[..|es| - 1], es[|es| - 1];
      SessionRowsDistinct(ctx, counters, p);
      SeenIsSessionIds(ctx, counters, p);
      StepEffect(ctx, Run(ctx, Start(counters), p), e);
      SessionIdsLast(es);
    }
  }

  /** Every session of the batch that is not yet stored for the site gets a new-session row. */
  lemma {:induction false} SessionRowsCover(ctx: Context, counters: map<string, nat>, es: seq<Event>)
    ensures forall s :: s in SessionIds(es) && (ctx.siteId, s) !in ctx.knownSessions ==>
      exists i :: 0 <= i < |Run(ctx, Start(counters), es).sessionInserts| &&
                  Run(ctx, Start(counters), es).sessionInserts[i].sessionId == s
    decreases |es|
  {
    if es != [] {
      var p, e := es[..|es| - 1], es[|es| - 1];
      SessionRowsCover(ctx, counters, p);
      SeenIsSessionIds(ctx, counters, p);
      var rp, r := Run(ctx, Start(counters), p), Run(ctx, Start(counters), es);
      StepEffect(ctx, rp, e);
      SessionIdsLast(es);
      forall s | s in SessionIds(es) && (ctx.siteId, s) !in ctx.knownSessions
        ensures exists i :: 0 <= i < |r.sessionInserts| && r.sessionInserts[i].sessionId == s
      {
        if s in SessionIds(p) {
          var i :| 0 <= i < |rp.sessionInserts| && rp.sessionInserts[i].sessionId == s;
          assert r.sessionInserts[i] == rp.sessionInserts[i];
        } else {
          assert r.sessionInserts[|rp.sessionInserts|].sessionId == s;
        }
      }
      assert r == Run(ctx, Start(counters), es);
    } else {
      assert SessionIds(es) == {};
    }
  }

  /** Each new-session row is built from the first event of its session in the batch. */
  lemma {:induction false} SessionRowsFromFirstEvent(ctx: Context, counters: map<string, nat>, es: seq<Event>)
    ensures forall i :: 0 <= i < |Run(ctx, Start(counters), es).sessionInserts| ==>
      var row := Run(ctx, Start(counters), es).sessionInserts[i];
      FirstIndex(es, row.sessionId) < |es| && row == NewSessionRow(ctx, es[FirstIndex(es, row.sessionId)])
    decreases |es|
  {
    if es != [] {
      var p, e := es[..|es| - 1], es[|es| - 1];
      SessionRowsFromFirstEvent(ctx, counters, p);
      SeenIsSessionIds(ctx, counters, p);
      var rp, r := Run(ctx, Start(counters), p), Run(ctx, Start(counters), es);
      StepEffect(ctx, rp, e);
      forall i | 0 <= i < |r.sessionInserts|
        ensures FirstIndex(es, r.sessionInserts[i].sessionId) < |es|
        ensures r.sessionInserts[i] == NewSessionRow(ctx, es[FirstIndex(es, r.sessionInserts[i].sessionId)])
      {
        var sid := r.sessionInserts[i].sessionId;
        if i < |rp.sessionInserts| {
          assert r.sessionInserts[i] == rp.sessionInserts[i];
          assert es[FirstIndex(p, sid)] == p[FirstIndex(p, sid)];
        } else {
          assert sid == e.sessionId && sid !in SessionIds(p);
        }
      }
    }
  }

  /**
   * Over a whole batch from the start state: `sessions_seen` ends as the batch's session ids
   * (the single lookup per session is `LookupAtFirstEvent` and `LookupOnce`); there is at most one new-session row per session id; a row is written exactly for the
   * batch's sessions not already stored for the site, built from the session's first event,
   * with status "active", event count 1, zero duration, engagement and final scroll depth, and
   * `now` as first and last seen.
   */
  lemma SessionInsertsExact(ctx: Context, counters: map<string, nat>, es: seq<Event>)
    ensures var r := Run(ctx, Start(counters), es);
      && r.sessionsSeen == SessionIds(es)
      && (forall i, j :: 0 <= i < j < |r.sessionInserts| ==> r.sessionInserts[i].sessionId != r.sessionInserts[j].sessionId)
      && (forall s :: s in SessionIds(es) && (ctx.siteId, s) !in ctx.knownSessions <==>
            exists i :: 0 <= i < |r.sessionInserts| && r.sessionInserts[i].sessionId == s)
      && (forall i :: 0 <= i < |r.sessionInserts| ==>
            var row := r.sessionInserts[i];
            && FirstIndex(es, row.sessionId) < |es| && row == NewSessionRow(ctx, es[FirstIndex(es, row.sessionId)])
            && row.siteId == ctx.siteId && row.status == "active" && row.eventCount == 1
            && row.durationMs == 0 && row.engagementTimeMs == 0 && row.finalScrollDepth == 0
            && row.firstSeen == ctx.now && row.lastSeen == ctx.now)
  {
    SeenIsSessionIds(ctx, counters, es);
    SessionRowsDistinct(ctx, counters, es);
    SessionRowsCover(ctx, counters, es);
    SessionRowsFromFirstEvent(ctx, counters, es);
  }

  // ---------------------------------------------------------------- the endpoint

  /**
   * For an accepted batch: `events_stored` is the number of non-mousemove events;
   * `mouse_events_sampled` is the number of mousemoves that bring their session's counter to a
   * multiple of 5, and the heatmap rows are `PlottedRows`, one for each of them with a position, so there are at most
   * as many rows as sampled moves and at most as many sampled moves as mousemoves; every
   * session's counter grew by exactly its mousemoves.
   */
  lemma IngestCounts(header: Option<string>, payload: Payload, liveSites: set<string>,
                     knownSessions: set<(string, string)>, now: int, counters: map<string, nat>, s: string)
    requires Truthy(ResolveSiteId(header, payload.siteId)) && ResolveSiteId(header, payload.siteId).value in liveSites
    ensures var (o, after) := CollectAnalytics(header, payload, liveSites, knownSessions, now, counters);
      && o.Stored?
      && o.eventsStored == |o.eventInserts| == |NonMouse(payload.events)|
      && o.mouseEventsSampled == SampledMoves(counters, payload.events, false)
      && o.heatmapInserts == PlottedRows(Context(ResolveSiteId(header, payload.siteId).value, payload.meta,
                                                 knownSessions, now), counters, payload.events)
      && |o.heatmapInserts| == SampledMoves(counters, payload.events, true)
      && |o.heatmapInserts| <= o.mouseEventsSampled <= AllMouseMoves(payload.events)
      && Count(after, s) == Count(counters, s) + MouseMoves(payload.events, s)
  {
    var ctx := Context(ResolveSiteId(header, payload.siteId).value, payload.meta, knownSessions, now);
    EventInsertsAreNonMouse(ctx, Start(counters), payload.events);
    HeatmapFromSampled(ctx, Start(counters), payload.events);
    SampledExact(ctx, Start(counters), payload.events);
    PlottedExact(ctx, Start(counters), payload.events);
    PlottedRowsCount(ctx, counters, payload.events);
    CountersAfterRun(ctx, Start(counters), payload.events, s);
  }

  /**
   * The counters outlive a request: after two accepted batches, a session's counter is its
   * starting value plus its mousemoves in both, just as if the two batches had been one.
   */
  lemma CountersPersistAcrossBatches(header1: Option<string>, p1: Payload, live1: set<string>,
                                     known1: set<(string, string)>, now1: int,
                                     header2: Option<string>, p2: Payload, live2: set<string>,
                                     known2: set<(string, string)>, now2: int,
                                     counters: map<string, nat>, s: string)
    requires Truthy(ResolveSiteId(header1, p1.siteId)) && ResolveSiteId(header1, p1.siteId).value in live1
    requires Truthy(ResolveSiteId(header2, p2.siteId)) && ResolveSiteId(header2, p2.siteId).value in live2
    ensures var (_, mid) := CollectAnalytics(header1, p1, live1, known1, now1, counters);
            var (_, after) := CollectAnalytics(header2, p2, live2, known2, now2, mid);
            Count(after, s) == Count(counters, s) + MouseMoves(p1.events + p2.events, s)
  {
    var mid := CollectAnalytics(header1, p1, live1, known1, now1, counters).1;
    IngestCounts(header1, p1, live1, known1, now1, counters, s);
    IngestCounts(header2, p2, live2, known2, now2, mid, s);
    MouseMovesAppend(p1.events, p2.events, s);
  }

  lemma {:induction false} MouseMovesAppend(a: seq<Event>, c: seq<Event>, s: string)
    ensures MouseMoves(a + c, s) == MouseMoves(a, s) + MouseMoves(c, s)
    decreases |c|
  {
    if c == [] {
      assert a + c == a;
    } else {
      assert (a + c)[..|a + c| - 1] == a + c[..|c| - 1];
      MouseMovesAppend(a, c[..|c| - 1], s);
    }
  }
}

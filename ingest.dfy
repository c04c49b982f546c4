/**
 * The batch ingestion endpoint `POST /api/analytics` (collect_analytics in backend/main.py).
 *
 * The database is abstracted: `liveSites` is the set of site ids with a non-deleted website
 * row, `knownSessions` the set of (site id, session id) pairs already in `session_meta` before
 * the batch. The three bulk inserts are the three row sequences the endpoint returns, and
 * `now` is the single `datetime.utcnow()` reading taken per batch.
 *
 * The pure fold `Run` of `Step` over the batch is the specification; the class `Collector`
 * owns the module-level `mouse_sample_counters` and its method `Collect` is the loop.
 */
module Ingest {
  import opened Schemas
  import opened EventPayload

  /** Every 5th mousemove of a session is stored. */
  const MOUSE_SAMPLE_RATE: nat := 5
  const MOUSEMOVE := "mousemove"

  const MISSING_SITE_DETAIL := "site_id is required. Pass as X-Site-ID header or in payload."
  const INVALID_SITE_DETAIL := "Invalid site_id"

  /** A `session_meta` row inserted for a session first seen in this batch. */
  datatype SessionRow = SessionRow(
    siteId: string, sessionId: string, visitorId: string,
    userAgent: string, language: string, platform: string, screenResolution: string,
    firstSeen: int, lastSeen: int, status: string,
    durationMs: int, engagementTimeMs: int, finalScrollDepth: int, eventCount: int)

  /** An `analytics_events` row. `timestamp` keeps the client's milliseconds. */
  datatype EventRow = EventRow(
    siteId: string, sessionId: string, visitorId: string, eventType: string, timestamp: int,
    pageUrl: string, pagePath: string, pageTitle: string, pageReferrer: string,
    viewportWidth: int, viewportHeight: int, eventData: EventData, createdAt: int)

  /** A `mouse_heatmap` row for one sampled mousemove. */
  datatype HeatmapRow = HeatmapRow(
    siteId: string, sessionId: string, pageUrl: string, x: int, y: int, count: int, createdAt: int)

  /** What one call sees besides the events: the resolved site, the batch metadata, the lookup, the clock. */
  datatype Context = Context(siteId: string, meta: Meta, knownSessions: set<(string, string)>, now: int)

  /** The local state of the loop, plus the sampling counters it updates. */
  datatype Batch = Batch(
    sessionInserts: seq<SessionRow>, eventInserts: seq<EventRow>, heatmapInserts: seq<HeatmapRow>,
    sessionsSeen: set<string>, counters: map<string, nat>,
    eventsStored: nat, mouseEventsSampled: nat)

  /** The endpoint's answer: an HTTP error, or the three inserts with the two reported counters. */
  datatype Outcome =
    | Rejected(failure: Failure)
    | Stored(sessionInserts: seq<SessionRow>, eventInserts: seq<EventRow>, heatmapInserts: seq<HeatmapRow>,
             eventsStored: nat, mouseEventsSampled: nat)

  /**
   * `request.headers.get("X-Site-ID") or payload.site_id`, followed by the `if not site_id`
   * rejection: a non-empty header wins, otherwise a non-empty payload field, otherwise none.
   */
  function ResolveSiteId(header: Option<string>, body: Option<string>): (r: Option<string>)
    ensures r.Some? ==> r.value != "" && (r == header || r == body)
    ensures Truthy(header) ==> r == header
    ensures r.None? <==> !Truthy(header) && !Truthy(body)
  {
    var candidate := if Truthy(header) then header else body;
    if Truthy(candidate) then candidate else None
  }

  /** Reading a `defaultdict(int)`: an absent session has counter 0. */
  function Count(counters: map<string, nat>, sessionId: string): nat {
    if sessionId in counters then counters[sessionId] else 0
  }

  /** `if event.position:` — the dict is present and non-empty. */
  predicate HasPosition(e: Event) {
    e.position.Some? && |e.position.value| > 0
  }

  /** `position.get(key, 0)`. */
  function Coordinate(p: Position, key: string): int {
    if key in p then p[key] else 0
  }

  function NewSessionRow(ctx: Context, e: Event): SessionRow {
    SessionRow(ctx.siteId, e.sessionId, e.visitorId,
               ctx.meta.userAgent, ctx.meta.language, ctx.meta.platform, ctx.meta.screenResolution,
               ctx.now, ctx.now, "active", 0, 0, 0, 1)
  }

  function EventRowOf(ctx: Context, e: Event): EventRow {
    EventRow(ctx.siteId, e.sessionId, e.visitorId, e.kind, e.timestamp,
             e.page.url, e.page.path, e.page.title.GetOr(""), e.page.referrer.GetOr(""),
             e.viewport.width, e.viewport.height, SelectEventData(e), ctx.now)
  }

  function HeatmapRowOf(ctx: Context, e: Event): HeatmapRow
    requires e.position.Some?
  {
    HeatmapRow(ctx.siteId, e.sessionId, e.page.url,
               Coordinate(e.position.value, "x"), Coordinate(e.position.value, "y"), 1, ctx.now)
  }

  /** The state before the first event: empty inserts, nothing seen, the counters left by earlier batches. */
  function Start(counters: map<string, nat>): Batch {
    Batch([], [], [], {}, counters, 0, 0)
  }

  /** The session part of a loop turn: the first event of a session in the batch checks the store once. */
  function SeeSession(ctx: Context, b: Batch, e: Event): Batch {
    if e.sessionId in b.sessionsSeen then b
    else if (ctx.siteId, e.sessionId) in ctx.knownSessions then b.(sessionsSeen := b.sessionsSeen + {e.sessionId})
    else b.(sessionsSeen := b.sessionsSeen + {e.sessionId},
            sessionInserts := b.sessionInserts + [NewSessionRow(ctx, e)])
  }

  /** A mousemove: bump its session's counter, and on every 5th one count it and keep its position. */
  function SampleMouse(ctx: Context, b: Batch, e: Event): Batch {
    var c := Count(b.counters, e.sessionId) + 1;
    var b1 := b.(counters := b.counters[e.sessionId := c]);
    if c % MOUSE_SAMPLE_RATE != 0 then b1
    else if HasPosition(e) then
      b1.(mouseEventsSampled := b1.mouseEventsSampled + 1,
          heatmapInserts := b1.heatmapInserts + [HeatmapRowOf(ctx, e)])
    else b1.(mouseEventsSampled := b1.mouseEventsSampled + 1)
  }

  /** Any other event: one event row. */
  function StoreEvent(ctx: Context, b: Batch, e: Event): Batch {
    b.(eventInserts := b.eventInserts + [EventRowOf(ctx, e)], eventsStored := b.eventsStored + 1)
  }

  /** One turn of the loop body. */
  function Step(ctx: Context, b: Batch, e: Event): Batch {
    var b1 := SeeSession(ctx, b, e);
    if e.kind == MOUSEMOVE then SampleMouse(ctx, b1, e) else StoreEvent(ctx, b1, e)
  }

  /** The loop over the first `|es|` events of a batch, starting from `b`. */
  function Run(ctx: Context, b: Batch, es: seq<Event>): Batch
    decreases |es|
  {
    if es == [] then b else Step(ctx, Run(ctx, b, es[..|es| - 1]), es[|es| - 1])
  }

  /**
   * The whole endpoint as a function of its inputs and the counters before the call; the second
   * component is the counters after it. A batch without a usable site id is refused with 400 and
   * one whose site is unknown with 404, in both cases before any event is looked at.
   */
  function CollectAnalytics(header: Option<string>, payload: Payload, liveSites: set<string>,
                  knownSessions: set<(string, string)>, now: int, counters: map<string, nat>)
    : (r: (Outcome, map<string, nat>))
    ensures r.0 == Rejected(Failure(400, MISSING_SITE_DETAIL)) <==> ResolveSiteId(header, payload.siteId).None?
    ensures r.0 == Rejected(Failure(404, INVALID_SITE_DETAIL)) <==>
              ResolveSiteId(header, payload.siteId).Some? && ResolveSiteId(header, payload.siteId).value !in liveSites
    ensures r.0.Rejected? ==> r.0.failure.status in {400, 404} && r.1 == counters
    ensures r.0.Stored? <==> ResolveSiteId(header, payload.siteId).Some? && ResolveSiteId(header, payload.siteId).value in liveSites
  {
    match ResolveSiteId(header, payload.siteId)
    case None => (Rejected(Failure(400, MISSING_SITE_DETAIL)), counters)
    case Some(site) =>
      if site !in liveSites then (Rejected(Failure(404, INVALID_SITE_DETAIL)), counters)
      else
        var b := Run(Context(site, payload.meta, knownSessions, now), Start(counters), payload.events);
        (Stored(b.sessionInserts, b.eventInserts, b.heatmapInserts, b.eventsStored, b.mouseEventsSampled),
         b.counters)
  }

  lemma RunAppend(ctx: Context, b: Batch, es: seq<Event>, i: nat)
    requires i < |es|
    ensures Run(ctx, b, es[..i + 1]) == Step(ctx, Run(ctx, b, es[..i]), es[i])
  {
    assert es[..i + 1][..i] == es[..i];
  }

  /** The process that serves the endpoint: it owns `mouse_sample_counters`, which outlives each request. */
  class Collector {
    var counters: map<string, nat>

    constructor ()
      ensures counters == map[]
    {
      counters := map[];
    }

    method Collect(header: Option<string>, payload: Payload, liveSites: set<string>,
                   knownSessions: set<(string, string)>, now: int)
      returns (outcome: Outcome)
      modifies this
      ensures (outcome, counters) == CollectAnalytics(header, payload, liveSites, knownSessions, now, old(counters))
    {
      var siteId := if Truthy(header) then header else payload.siteId;
      if !Truthy(siteId) {
        return Rejected(Failure(400, MISSING_SITE_DETAIL));
      }
      if siteId.value !in liveSites {
        return Rejected(Failure(404, INVALID_SITE_DETAIL));
      }
      var ctx := Context(siteId.value, payload.meta, knownSessions, now);

      var eventsStored, mouseEventsSampled := 0, 0;
      var sessionInserts: seq<SessionRow> := [];
      var eventInserts: seq<EventRow> := [];
      var heatmapInserts: seq<HeatmapRow> := [];
      var sessionsSeen: set<string> := {};

      for i := 0 to |payload.events|
        invariant Batch(sessionInserts, eventInserts, heatmapInserts, sessionsSeen, counters,
                        eventsStored, mouseEventsSampled)
                  == Run(ctx, Start(old(counters)), payload.events[..i])
      {
        RunAppend(ctx, Start(old(counters)), payload.events, i);
        var event := payload.events[i];
        var sessionId := event.sessionId;
        ghost var before := Batch(sessionInserts, eventInserts, heatmapInserts, sessionsSeen, counters,
                                  eventsStored, mouseEventsSampled);

        if sessionId !in sessionsSeen {
          sessionsSeen := sessionsSeen + {sessionId};
          var existing := (ctx.siteId, sessionId) in knownSessions;
          if !existing {
            sessionInserts := sessionInserts + [NewSessionRow(ctx, event)];
          }
        }
        ghost var seen := Batch(sessionInserts, eventInserts, heatmapInserts, sessionsSeen, counters,
                                eventsStored, mouseEventsSampled);
        assert seen == SeeSession(ctx, before, event);

        if event.kind == MOUSEMOVE {
          assert Step(ctx, before, event) == SampleMouse(ctx, seen, event);
          counters := counters[sessionId := Count(counters, sessionId) + 1];
          if counters[sessionId] % MOUSE_SAMPLE_RATE != 0 {
            assert Batch(sessionInserts, eventInserts, heatmapInserts, sessionsSeen, counters, eventsStored, mouseEventsSampled) == Step(ctx, before, event);
            continue;
          }
          mouseEventsSampled := mouseEventsSampled + 1;
          if HasPosition(event) {
            heatmapInserts := heatmapInserts + [HeatmapRowOf(ctx, event)];
          }
          assert Batch(sessionInserts, eventInserts, heatmapInserts, sessionsSeen, counters, eventsStored, mouseEventsSampled) == Step(ctx, before, event);
          continue;
        }

        assert Step(ctx, before, event) == StoreEvent(ctx, seen, event);
        eventInserts := eventInserts + [EventRowOf(ctx, event)];
        eventsStored := eventsStored + 1;
        assert Batch(sessionInserts, eventInserts, heatmapInserts, sessionsSeen, counters, eventsStored, mouseEventsSampled) == Step(ctx, before, event);
      }
      assert payload.events[..|payload.events|] == payload.events;
      outcome := Stored(sessionInserts, eventInserts, heatmapInserts, eventsStored, mouseEventsSampled);
    }
  }
}

# Website analytics backend: batch ingestion, heatmap bucketing, session listing

This project models in Dafny the part of the analytics backend (`backend/main.py`) that does real
work on the data rather than passing it to the database:

- **Batch ingestion** (`POST /api/analytics`, `collect_analytics`). One request carries a batch of
  events from the tracking script. The site id comes from the `X-Site-ID` header or, failing
  that, from the payload. Without a site id the batch is refused with 400; a site id with no
  live website is refused with 404. Otherwise the events are walked in order and three insert
  lists are built:
  - a `session_meta` row for each session that is new to the site;
  - an `analytics_events` row for each event that is not a mousemove, with a type-specific
    `event_data`;
  - a `mouse_heatmap` row for every 5th mousemove of a session that has a position.

  The per-session mousemove counters live at module level, so they carry over from one request
  to the next. The model keeps them as the field `counters` of the class `Ingest.Collector`. The
  pure fold `Ingest.Run` of `Ingest.Step` over the batch is the specification, and
  `Collector.Collect` is the loop proved against it. The database is replaced by inputs:
  - `liveSites`: site ids whose website row is not deleted;
  - `knownSessions`: (site, session) pairs already in `session_meta`;
  - `now`: the one clock reading of the request.
- **Event payload selection** (`EventPayload`). Each known event type gets its own payload
  shape. A `custom:` type stores its name with every `custom:` occurrence removed, as Python's
  `str.replace` does. Any other type stores the empty string.
- **Heatmap bucketing** (`GET /heatmap/{session_id}`, `Heatmap`). Stored points snap to a
  10-pixel grid by floor division, and counts are summed per cell in a dict. The dict is kept
  as its insertion-ordered key list plus a map, which is what Python's dict is.
- **Session listing** (`GET /sessions`, `Sessions`). A missing or empty status reads as
  `"active"` and a missing event count as 0. The same status default appears in the session
  detail endpoint (backend/main.py:413).
- **The dashboard site guard** (`Access`). A missing `site_id` query parameter is refused with
  400 and a site the user does not own with 404.

Request shapes follow `backend/schemas.py`. Each optional field is an `Option`, and the event's
`type` field is called `kind`, since `type` is a Dafny keyword.

The backend's own sampling, every 5th mousemove per session, is modelled. Any throttling done
by the tracking script is not.

## Model

| member | source | states |
|---|---|---|
| EventPayload.RemoveMarker | backend/main.py:221 | `str.replace("custom:", "")` never lengthens a string; it leaves a string with no `custom:` in it unchanged and makes one that contains `custom:` strictly shorter |
| EventPayload.MarkerFreeIff | backend/main.py:221 | the left-to-right check `MarkerFree` used by the other marker lemmas holds exactly when `custom:` occurs nowhere in the string |
| EventPayload.SelectEventData | backend/main.py:173-223 | `event_data` is empty exactly when the type is none of the eight typed kinds and does not start with `custom:`; each typed kind gets its own shape (both directions); a `custom:` type gets its name with the marker removed, plus the `custom` dict |
| EventPayload.CustomEventName | backend/main.py:219-223 | an event typed `"custom:" + name`, with no marker inside `name`, is stored under the event name `name` |
| EventPayload.RemoveMarkerRepeated | backend/main.py:221 | any number of leading `custom:` markers are all removed |
| EventPayload.RemoveInnerMarker | backend/main.py:221 | for all strings: a `custom:` that follows a stretch `a` with no marker starting in it is removed, `a` is kept, and the scan goes on in the rest |
| Ingest.ResolveSiteId | backend/main.py:94-97 | a non-empty header wins; otherwise the payload field is used; the result is never empty; it is missing exactly when neither is a non-empty string |
| Ingest.CollectAnalytics | backend/main.py:94-106 | the batch is refused with 400 exactly when no site id resolves, and with 404 exactly when the resolved site is not live; a refused batch leaves the counters unchanged; the batch is stored exactly when the site resolves and is live |
| Ingest.Collector.Collect | backend/main.py:85-261 | the loop's outcome and the new counters equal the specification `CollectAnalytics` applied to the old counters |
| IngestProperties.CountersAfterRun | backend/main.py:150-151 | after a batch, each session's counter is its old value plus its number of mousemoves |
| IngestProperties.SampledOneSession | backend/main.py:150-157 | for mousemoves of one session, from counter c with n moves, exactly (c+n)/5 − c/5 are sampled, whether or not they have a position |
| IngestProperties.SampledExact | backend/main.py:150-157 | for any batch, `mouse_events_sampled` grows by exactly the number of mousemoves whose session counter (its old value plus that session's mousemoves so far) reaches a multiple of 5, positionless ones included |
| IngestProperties.PlottedExact | backend/main.py:150-170 | for any batch, the heatmap rows appended are exactly `PlottedRows`: one row per sampled mousemove that has a position, built from that event, in batch order |
| IngestProperties.PlottedRowsCount | backend/main.py:150-170 | the number of those rows is the count of sampled, positioned mousemoves that `SampledExact` uses |
| IngestProperties.HeatmapFromSampled | backend/main.py:154-170 | heatmap rows ≤ `mouse_events_sampled` ≤ number of mousemoves, with equality on the left when every mousemove has a position; earlier rows are kept; each new row has the batch's site and count 1 and is built from a mousemove with a position |
| IngestProperties.EventInsertsAreNonMouse | backend/main.py:150-241 | the event rows are the non-mousemove events of the batch in order, one row each, and `events_stored` grows by their number |
| IngestProperties.EventRowsOfBatch | backend/main.py:226-241 | each event row has the batch's site id and the event's session, visitor, type, timestamp, URL, path and `event_data`; a missing title or referrer becomes `""`; `events_stored` equals the number of rows |
| IngestProperties.SeenIsSessionIds | backend/main.py:122-128 | `sessions_seen` ends as exactly the batch's session ids |
| IngestProperties.LookupAtFirstEvent | backend/main.py:122-128 | the stored-session lookup (the not-yet-seen branch) is taken at an event exactly when it is the first event of its session in the batch |
| IngestProperties.LookupOnce | backend/main.py:122-128 | a later event of an already-looked-up session finds it in `sessions_seen`, so each session is looked up once per batch |
| IngestProperties.SessionRowsDistinct | backend/main.py:122-147 | no two new-session rows share a session id, and each is for a session of the batch not already stored for the site |
| IngestProperties.SessionRowsCover | backend/main.py:130-147 | every session of the batch not already stored for the site gets a new-session row |
| IngestProperties.SessionRowsFromFirstEvent | backend/main.py:130-147 | each new-session row is built from the first event of its session in the batch |
| IngestProperties.SessionInsertsExact | backend/main.py:116-147 | a session row exists if and only if the session is in the batch and not stored; rows are unique per session; each has status "active", event count 1, zero duration, engagement and final scroll depth, and first/last seen = now |
| IngestProperties.IngestCounts | backend/main.py:108-261 | for an accepted batch: `events_stored` = event rows = non-mousemove events; `mouse_events_sampled` is exactly the count of `SampledExact`; the heatmap rows are exactly `PlottedRows` (hence their number is exact), with heatmap rows ≤ `mouse_events_sampled` ≤ mousemoves; each counter grows by its session's mousemoves |
| IngestProperties.CountersPersistAcrossBatches | backend/main.py:45-47 | after two accepted batches, each with its own header, live sites and stored sessions, a counter has grown by its mousemoves in both, the same as for one combined batch |
| Access.RequireOwnedSite | backend/main.py:504-514 | access is granted exactly when a non-empty site id is given and is owned; otherwise 400 for a missing id, 404 for an unowned one |
| Heatmap.Snap | backend/main.py:470-475 | a bucket coordinate is a multiple of 10, with bucket ≤ v < bucket + 10 (floor, also for negative values) |
| Heatmap.AggregateKeys | backend/main.py:471-476 | the dict's insertion order lists each key exactly once |
| Heatmap.AggregateDomain | backend/main.py:473-476 | the dict's keys are exactly the cells some point falls in |
| Heatmap.AggregateCounts | backend/main.py:473-476 | each cell's value is the sum of the counts of the points in that cell |
| Heatmap.AggregateSum | backend/main.py:473-476 | the dict's values sum to the sum of the points' counts |
| Heatmap.CellsOfPoints | backend/main.py:478-487 | in the response list, no two entries share a cell, all coordinates are multiples of 10, the cells are exactly those hit, each count is its cell's sum, and the counts sum to the points' counts |
| Heatmap.BucketPoints | backend/main.py:469-487 | the loop returns `total_points` = number of points and the cells in dict order, with the distinctness, coverage, per-cell sums and total of `CellsOfPoints` |
| Heatmap.GetHeatmapData | backend/main.py:446-487 | the site guard's failure is returned as is; otherwise the response echoes session, site and page URL and carries the bucketed cells and the point count |
| Sessions.ListedStatus | backend/main.py:532 | a non-empty stored status is reported unchanged, and any other is reported as "active"; the result is "active" exactly when the status is missing, empty or "active" |
| Sessions.ListedEventCount | backend/main.py:535 | a stored event count is reported unchanged and a missing one as 0; the result is 0 exactly when the count is missing or 0 |
| Sessions.ListSessions | backend/main.py:503-539 | the site guard's failure is returned as is; otherwise there is one entry per stored session, in query order, with its own fields and only the status and event count defaulted |

## Left out

- The browser tracking script is not part of this model. Its source is not among the files
  modelled; only the backend that receives its batches is.
- Database access (SQL and ClickHouse queries, `FINAL`, bulk inserts, `commit`, `rollback`) is
  foreign library code. Lookups are input sets, inserts are the returned row lists, and query
  results are input sequences. The filters, ordering and `limit` of the `/sessions` and
  `/heatmap` queries are therefore inputs, not modelled.
- The 500 response that wraps any library exception is left out. So is the case where an
  insert fails after the loop has already advanced the counters: the model has no failing
  database.
- `datetime.utcnow()` is the parameter `now`. `datetime.fromtimestamp(timestamp / 1000)` is a
  float conversion, so the row keeps the client's millisecond timestamp instead.
- `json.dumps(event_data)` is a library serialiser. `event_data` is the tagged value
  `EventData`, and `NoData` stands for the empty string.
- Pydantic validation of the request body (the 422 answer to a malformed body) and the extra
  fields allowed by `extra = "allow"` are left out. The `Dict[str, Any]` fields hold JSON
  scalars only, and `position` holds integers only, as the integer `x`/`y` columns need.
- `mouse_sample_counters` is shared by concurrent request handlers. The model makes it one field
  updated by one request at a time.
- The database lookups are not modelled as calls. `LookupAtFirstEvent` places the stored-session
  lookup at the first event of each session, by the branch it sits in.
- The statistics endpoint (`/stats`) and the session detail endpoint are left out beyond the
  site guard they share, because their content is database counting. So are authentication,
  OAuth, website management, static file serving and the health and root endpoints: they are
  request plumbing around hashing, HTTP clients and the database.

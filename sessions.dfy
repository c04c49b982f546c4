/**
 * `GET /sessions` (list_sessions in backend/main.py): after the site guard, every stored
 * session the query returns is reported with two defaults filled in. The query result
 * (filtered by site and optional status, newest first, at most `limit` rows) is the input.
 */
module Sessions {
  import opened Schemas
  import opened Access

  /** The `session_meta` columns the listing reads; any of the nullable ones may be missing. */
  datatype StoredSession = StoredSession(
    sessionId: string, visitorId: string, firstSeen: Option<int>, lastSeen: Option<int>,
    userAgent: string, status: Option<string>, durationMs: Option<int>,
    engagementTimeMs: Option<int>, eventCount: Option<int>)

  /** One entry of the response's `sessions` list. */
  datatype ListedSession = ListedSession(
    sessionId: string, visitorId: string, firstSeen: Option<int>, lastSeen: Option<int>,
    userAgent: string, status: string, durationMs: Option<int>,
    engagementTimeMs: Option<int>, eventCount: int)

  datatype SessionList = SessionList(siteId: string, sessions: seq<ListedSession>)

  /** `s.status or "active"`: a missing or empty status reads as "active", any other passes through. */
  function ListedStatus(status: Option<string>): (r: string)
    ensures r != ""
    ensures Truthy(status) ==> r == status.value
    ensures r == "active" <==> !Truthy(status) || status.value == "active"
  {
    if Truthy(status) then status.value else "active"
  }

  /** `s.event_count or 0`: a missing count reads as 0 (a stored 0 stays 0), any other passes through. */
  function ListedEventCount(eventCount: Option<int>): (r: int)
    ensures eventCount.Some? ==> r == eventCount.value
    ensures r == 0 <==> eventCount.None? || eventCount.value == 0
  {
    if eventCount.Some? && eventCount.value != 0 then eventCount.value else 0
  }

  function Listed(s: StoredSession): ListedSession {
    ListedSession(s.sessionId, s.visitorId, s.firstSeen, s.lastSeen, s.userAgent,
                  ListedStatus(s.status), s.durationMs, s.engagementTimeMs, ListedEventCount(s.eventCount))
  }

  /**
   * The endpoint: the site guard, then one entry per stored session in query order, each with
   * its own fields, only status and event count defaulted.
   */
  function ListSessions(siteId: Option<string>, owned: set<string>, rows: seq<StoredSession>)
    : (r: Result<SessionList>)
    ensures RequireOwnedSite(siteId, owned).Err? ==> r == Err(RequireOwnedSite(siteId, owned).failure)
    ensures RequireOwnedSite(siteId, owned).Ok? ==>
      && r.Ok? && r.value.siteId == siteId.value && |r.value.sessions| == |rows|
      && forall i :: 0 <= i < |rows| ==>
           var (out, s) := (r.value.sessions[i], rows[i]);
           && out.sessionId == s.sessionId && out.visitorId == s.visitorId
           && out.firstSeen == s.firstSeen && out.lastSeen == s.lastSeen && out.userAgent == s.userAgent
           && out.durationMs == s.durationMs && out.engagementTimeMs == s.engagementTimeMs
           && out.status == ListedStatus(s.status) && out.eventCount == ListedEventCount(s.eventCount)
  {
    match RequireOwnedSite(siteId, owned)
    case Err(f) => Err(f)
    case Ok(site) => Ok(SessionList(site, seq(|rows|, i requires 0 <= i < |rows| => Listed(rows[i]))))
  }
}

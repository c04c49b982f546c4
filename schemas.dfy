/**
 * Request shapes accepted by the collection endpoint (backend/schemas.py).
 * Every `Optional[...] = None` field of the source is an `Option` here.
 */
module Schemas {

  datatype Option<+T> = None | Some(value: T) {
    /** The value, or `default` when there is none; with `default == ""` this is Python's `x or ""`
        on an optional string. */
    function GetOr(default: T): T {
      match this
      case Some(v) => v
      case None => default
    }
  }

  /** Python truthiness of an optional string: present and non-empty. */
  predicate Truthy(s: Option<string>) {
    s.Some? && s.value != ""
  }

  /** An `HTTPException` raised by an endpoint: its status code and detail message. */
  datatype Failure = Failure(status: int, detail: string)

  datatype Result<+T> = Ok(value: T) | Err(failure: Failure)

  /** A JSON scalar carried in one of the free-form `Dict[str, Any]` fields. */
  datatype Value = Null | Bool(b: bool) | Int(i: int) | Str(s: string)

  /** A free-form JSON object (`element`, `traits`, `custom`). */
  type Dict = map<string, Value>

  /** The `position` object of click, scroll and mousemove events; its coordinates are integers. */
  type Position = map<string, int>

  datatype Page = Page(url: string, path: string, title: Option<string>, referrer: Option<string>)

  datatype Viewport = Viewport(width: int, height: int)

  /** One captured event. The source field `type` is called `kind` here (`type` is a Dafny keyword). */
  datatype Event = Event(
    kind: string,
    timestamp: int,
    sessionId: string,
    visitorId: string,
    page: Page,
    viewport: Viewport,
    // click
    element: Option<Dict>,
    position: Option<Position>,
    // scroll
    depth: Option<int>,
    // form interaction
    eventType: Option<string>,
    // visibility
    state: Option<string>,
    hidden: Option<bool>,
    // error
    message: Option<string>,
    source: Option<string>,
    line: Option<int>,
    column: Option<int>,
    stack: Option<string>,
    // page exit
    timeOnPage: Option<int>,
    engagementTime: Option<int>,
    scrollDepth: Option<int>,
    // identify
    userId: Option<string>,
    traits: Option<Dict>,
    // pageview
    isNewVisitor: Option<bool>,
    pageViewNumber: Option<int>,
    // custom events
    custom: Option<Dict>
  )

  datatype Meta = Meta(userAgent: string, language: string, platform: string, screenResolution: string)

  /** One batch as posted by the tracking script; `siteId` may instead come from the `X-Site-ID` header. */
  datatype Payload = Payload(events: seq<Event>, meta: Meta, siteId: Option<string>)
}

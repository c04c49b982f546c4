/**
 * Selection of the type-specific `event_data` stored with each non-mousemove event
 * (backend/main.py, the if/elif chain of collect_analytics). The source builds a dict and
 * stores `json.dumps` of it, or the empty string when no branch matched; here the dict is a
 * tagged value and `NoData` stands for the empty string.
 */
module EventPayload {
  import opened Schemas

  const CUSTOM_PREFIX := "custom:"

  datatype EventData =
    | NoData
    | ClickData(element: Option<Dict>, position: Option<Position>)
    | ScrollData(depth: Option<int>, position: Option<Position>)
    | FormData(eventType: Option<string>, element: Option<Dict>)
    | VisibilityData(state: Option<string>, hidden: Option<bool>)
    | ErrorData(message: Option<string>, source: Option<string>, line: Option<int>,
                column: Option<int>, stack: Option<string>)
    | PageExitData(timeOnPage: Option<int>, engagementTime: Option<int>, scrollDepth: Option<int>)
    | IdentifyData(userId: Option<string>, traits: Option<Dict>)
    | PageviewData(isNewVisitor: Option<bool>, pageViewNumber: Option<int>)
    | CustomData(eventName: string, custom: Option<Dict>)

  /** The event types that have a payload shape of their own. */
  const TYPED_KINDS: set<string> :=
    {"click", "scroll", "form_interaction", "visibility", "error", "page_exit", "identify", "pageview"}

  predicate StartsWith(s: string, prefix: string) {
    |prefix| <= |s| && s[..|prefix|] == prefix
  }

  /** `"custom:"` occurs in `s` starting at index `i`. */
  predicate MarkerAt(s: string, i: int) {
    0 <= i && i + |CUSTOM_PREFIX| <= |s| && s[i..i + |CUSTOM_PREFIX|] == CUSTOM_PREFIX
  }

  predicate HasMarker(s: string) {
    exists i | 0 <= i <= |s| :: MarkerAt(s, i)
  }

  /** No position of `s` starts a marker, checked left to right. */
  predicate MarkerFree(s: string)
    decreases |s|
  {
    |s| < |CUSTOM_PREFIX| || (s[..|CUSTOM_PREFIX|] != CUSTOM_PREFIX && MarkerFree(s[1..]))
  }

  lemma MarkerShift(s: string, i: int)
    requires 0 < |s| && MarkerAt(s[1..], i)
    ensures MarkerAt(s, i + 1)
  {
    forall k | 0 <= k < |CUSTOM_PREFIX|
      ensures s[i + 1..i + 1 + |CUSTOM_PREFIX|][k] == CUSTOM_PREFIX[k]
    {
      assert s[i + 1..i + 1 + |CUSTOM_PREFIX|][k] == s[1..][i..i + |CUSTOM_PREFIX|][k];
    }
  }

  lemma MarkerUnshift(s: string, i: int)
    requires 0 < i && MarkerAt(s, i)
    ensures MarkerAt(s[1..], i - 1)
  {
    forall k | 0 <= k < |CUSTOM_PREFIX|
      ensures s[1..][i - 1..i - 1 + |CUSTOM_PREFIX|][k] == CUSTOM_PREFIX[k]
    {
      assert s[1..][i - 1..i - 1 + |CUSTOM_PREFIX|][k] == s[i..i + |CUSTOM_PREFIX|][k];
    }
  }

  /** The left-to-right check agrees with "the marker occurs nowhere in `s`". */
  lemma {:induction false} MarkerFreeIff(s: string)
    ensures MarkerFree(s) <==> !HasMarker(s)
    decreases |s|
  {
    if |s| < |CUSTOM_PREFIX| {
      assert !HasMarker(s) by {
        forall i | 0 <= i <= |s| ensures !MarkerAt(s, i) { }
      }
    } else if s[..|CUSTOM_PREFIX|] == CUSTOM_PREFIX {
      assert MarkerAt(s, 0);
    } else {
      MarkerFreeIff(s[1..]);
      if HasMarker(s[1..]) {
        var i :| 0 <= i <= |s[1..]| && MarkerAt(s[1..], i);
        MarkerShift(s, i);
        assert 0 <= i + 1 <= |s|;
      }
      if HasMarker(s) {
        var i :| 0 <= i <= |s| && MarkerAt(s, i);
        assert i != 0;
        MarkerUnshift(s, i);
        assert 0 <= i - 1 <= |s[1..]|;
      }
    }
  }

  /**
   * Python's `s.replace("custom:", "")`: a left-to-right scan that drops every
   * non-overlapping occurrence of the marker. A text without the marker is returned
   * unchanged, a text with one comes back strictly shorter, and the result is never longer
   * than the input.
   */
  function RemoveMarker(s: string): (r: string)
    ensures |r| <= |s|
    ensures MarkerFree(s) ==> r == s
    ensures !MarkerFree(s) ==> |r| < |s|
    decreases |s|
  {
    if |s| < |CUSTOM_PREFIX| then s
    else if s[..|CUSTOM_PREFIX|] == CUSTOM_PREFIX then RemoveMarker(s[|CUSTOM_PREFIX|..])
    else [s[0]] + RemoveMarker(s[1..])
  }

  /**
   * The `event_data` of one event, chosen by its type exactly as the if/elif chain does:
   * every typed kind gets its own shape, a `custom:` kind gets its name with the marker
   * removed, and every other kind gets no data (stored as the empty string).
   */
  function SelectEventData(e: Event): (r: EventData)
    ensures r.NoData? <==> e.kind !in TYPED_KINDS && !StartsWith(e.kind, CUSTOM_PREFIX)
    ensures r.CustomData? <==> e.kind !in TYPED_KINDS && StartsWith(e.kind, CUSTOM_PREFIX)
    ensures r.CustomData? ==> r.eventName == RemoveMarker(e.kind) && r.custom == e.custom
    ensures e.kind == "click" <==> r.ClickData?
    ensures e.kind == "scroll" <==> r.ScrollData?
    ensures e.kind == "form_interaction" <==> r.FormData?
    ensures e.kind == "visibility" <==> r.VisibilityData?
    ensures e.kind == "error" <==> r.ErrorData?
    ensures e.kind == "page_exit" <==> r.PageExitData?
    ensures e.kind == "identify" <==> r.IdentifyData?
    ensures e.kind == "pageview" <==> r.PageviewData?
  {
    if e.kind == "click" then ClickData(e.element, e.position)
    else if e.kind == "scroll" then ScrollData(e.depth, e.position)
    else if e.kind == "form_interaction" then FormData(e.eventType, e.element)
    else if e.kind == "visibility" then VisibilityData(e.state, e.hidden)
    else if e.kind == "error" then ErrorData(e.message, e.source, e.line, e.column, e.stack)
    else if e.kind == "page_exit" then PageExitData(e.timeOnPage, e.engagementTime, e.scrollDepth)
    else if e.kind == "identify" then IdentifyData(e.userId, e.traits)
    else if e.kind == "pageview" then PageviewData(e.isNewVisitor, e.pageViewNumber)
    else if StartsWith(e.kind, CUSTOM_PREFIX) then CustomData(RemoveMarker(e.kind), e.custom)
    else NoData
  }

  /** A custom event posted as `"custom:" + name`, with no marker inside `name`, is stored under `name`. */
  lemma CustomEventName(e: Event, name: string)
    requires e.kind == CUSTOM_PREFIX + name && MarkerFree(name)
    ensures SelectEventData(e) == CustomData(name, e.custom)
  {
    assert (CUSTOM_PREFIX + name)[..|CUSTOM_PREFIX|] == CUSTOM_PREFIX;
    assert (CUSTOM_PREFIX + name)[|CUSTOM_PREFIX|..] == name;
    assert e.kind !in TYPED_KINDS by {
      assert e.kind[6] == ':';
    }
  }

  /** A leading marker is dropped and the scan goes on after it. */
  lemma RemoveLeadingMarker(s: string, rest: string)
    requires s == CUSTOM_PREFIX + rest
    ensures RemoveMarker(s) == RemoveMarker(rest)
  {
    assert s[..|CUSTOM_PREFIX|] == CUSTOM_PREFIX;
    assert s[|CUSTOM_PREFIX|..] == rest;
  }

  /** A character that does not start a marker is kept and the scan goes on after it. */
  lemma KeepLeadingChar(s: string)
    requires |CUSTOM_PREFIX| <= |s| && s[..|CUSTOM_PREFIX|] != CUSTOM_PREFIX
    ensures RemoveMarker(s) == [s[0]] + RemoveMarker(s[1..])
  {
  }

  /**
   * A marker after a marker-free stretch `a` is removed wherever it stands, and the text before
   * it is kept. `a + "custom"` being marker-free says no marker starts inside `a`, including one
   * that would run on into the marker that follows.
   */
  lemma {:induction false} RemoveInnerMarker(a: string, b: string)
    requires MarkerFree(a + CUSTOM_PREFIX[..|CUSTOM_PREFIX| - 1])
    ensures RemoveMarker(a + CUSTOM_PREFIX + b) == a + RemoveMarker(b)
    decreases |a|
  {
    if a == [] {
      assert a + CUSTOM_PREFIX + b == CUSTOM_PREFIX + b;
      RemoveLeadingMarker(CUSTOM_PREFIX + b, b);
    } else {
      InnerMarkerStep(a, b);
      RemoveInnerMarker(a[1..], b);
      HeadTail(a, RemoveMarker(b));
    }
  }

  /** The first character of a marker-free `a` is kept, and the rest of `a` is still marker-free. */
  lemma InnerMarkerStep(a: string, b: string)
    requires a != [] && MarkerFree(a + CUSTOM_PREFIX[..|CUSTOM_PREFIX| - 1])
    ensures RemoveMarker(a + CUSTOM_PREFIX + b) == [a[0]] + RemoveMarker(a[1..] + CUSTOM_PREFIX + b)
    ensures MarkerFree(a[1..] + CUSTOM_PREFIX[..|CUSTOM_PREFIX| - 1])
  {
    var s, guard := a + CUSTOM_PREFIX + b, a + CUSTOM_PREFIX[..|CUSTOM_PREFIX| - 1];
    InnerMarkerShapes(a, b);
    assert guard[..|CUSTOM_PREFIX|] != CUSTOM_PREFIX && MarkerFree(guard[1..]);
    KeepLeadingChar(s);
  }

  lemma HeadTail(a: string, r: string)
    requires a != []
    ensures [a[0]] + (a[1..] + r) == a + r
  {
    assert a == [a[0]] + a[1..];
  }

  /** How `a + "custom:" + b` and `a + "custom"` split at their first character, for non-empty `a`. */
  lemma InnerMarkerShapes(a: string, b: string)
    requires a != []
    ensures (a + CUSTOM_PREFIX + b)[..|CUSTOM_PREFIX|] == (a + CUSTOM_PREFIX[..|CUSTOM_PREFIX| - 1])[..|CUSTOM_PREFIX|]
    ensures (a + CUSTOM_PREFIX[..|CUSTOM_PREFIX| - 1])[1..] == a[1..] + CUSTOM_PREFIX[..|CUSTOM_PREFIX| - 1]
    ensures (a + CUSTOM_PREFIX + b)[1..] == a[1..] + CUSTOM_PREFIX + b
    ensures (a + CUSTOM_PREFIX + b)[0] == a[0]
  {
  }

  /** A leading run of markers is removed entirely: `"custom:custom:x".replace("custom:", "")` is `"x"`. */
  lemma {:induction false} RemoveMarkerRepeated(k: nat, name: string)
    requires MarkerFree(name)
    ensures RemoveMarker(Prefixed(k, name)) == name
  {
    if k > 0 {
      RemoveLeadingMarker(Prefixed(k, name), Prefixed(k - 1, name));
      RemoveMarkerRepeated(k - 1, name);
    }
  }

  /** `name` behind `k` copies of the marker. */
  function Prefixed(k: nat, name: string): string {
    if k == 0 then name else CUSTOM_PREFIX + Prefixed(k - 1, name)
  }
}

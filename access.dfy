/**
 * The guard every dashboard endpoint of backend/main.py runs first (stats, session listing,
 * session detail, heatmap): the `site_id` query parameter must be given and must name a
 * non-deleted website of the signed-in user. The database lookup is abstracted as `owned`,
 * the set of such site ids.
 */
module Access {
  import opened Schemas

  const MISSING_QUERY_SITE_DETAIL := "site_id query parameter is required"
  const UNKNOWN_WEBSITE_DETAIL := "Website not found"

  function RequireOwnedSite(siteId: Option<string>, owned: set<string>): (r: Result<string>)
    ensures r.Ok? <==> Truthy(siteId) && siteId.value in owned
    ensures r.Ok? ==> r.value == siteId.value
    ensures !Truthy(siteId) ==> r == Err(Failure(400, MISSING_QUERY_SITE_DETAIL))
    ensures Truthy(siteId) && siteId.value !in owned ==> r == Err(Failure(404, UNKNOWN_WEBSITE_DETAIL))
  {
    if !Truthy(siteId) then Err(Failure(400, MISSING_QUERY_SITE_DETAIL))
    else if siteId.value !in owned then Err(Failure(404, UNKNOWN_WEBSITE_DETAIL))
    else Ok(siteId.value)
  }
}

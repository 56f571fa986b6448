/** The view model of `GET /` (api/index.js:34-41), computed from the query
    parameters the contact handler's redirects carry. */
module Home {
  import opened Options

  const Title := "דרך לחיים - מיזם חינוכי-ספורטיבי"

  /** The `success` and `error` query parameters, already URL-decoded;
      `None` when a parameter is absent. */
  datatype Query = Query(success: Option<string>, error: Option<string>)

  datatype View = View(title: string, currentYear: int, success: bool, error: Option<string>)

  /** `success` is set only by the exact text `true`; `error` is the
      parameter when it is non-empty and `null` otherwise. */
  function HomeView(q: Query, currentYear: int): (v: View)
    ensures v.success <==> q.success == Some("true")
    ensures v.error.Some? <==> q.error.Some? && q.error.value != []
    ensures v.error.Some? ==> v.error == q.error
    ensures v.title == Title && v.currentYear == currentYear
  {
    View(Title,
         currentYear,
         q.success == Some("true"),
         if q.error.Some? && q.error.value != [] then q.error else None)
  }

  /** Near misses of the flag do not count as success. */
  lemma SuccessFlagExact(year: int)
    ensures HomeView(Query(Some("true"), None), year).success
    ensures !HomeView(Query(Some("True"), None), year).success
    ensures !HomeView(Query(Some("1"), None), year).success
    ensures !HomeView(Query(None, None), year).success
  {
    assert "True" != "true" by { assert "True"[0] != "true"[0]; }
  }
}

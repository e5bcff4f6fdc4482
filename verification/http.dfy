/**
 * What the routers answer: a status code with a body, or the status code
 * and `detail` of an `HTTPException`; and the page arithmetic the list
 * endpoints share.
 */
module Http {
  import opened Tables

  datatype HttpError = HttpError(status: int, detail: string)

  datatype Reply<+T> = Success(status: int, body: T) | Refused(error: HttpError)

  /** Every role the application knows: the gate of the clinic's reading endpoints. */
  const CLINIC_ROLES: set<string> := {"doctor", "nurse", "admin", "staff"}

  const PATIENT_NOT_FOUND := HttpError(404, "Patient not found")

  /** A cached value that is not what the response model expects fails its validation. */
  const CACHE_ERROR := HttpError(500, "Internal Server Error")

  /** `per_page` of every listing endpoint. */
  const PER_PAGE := 10

  /** `Query(1, ge=1)` rejects a page below one before the handler runs. */
  const INVALID_PAGE := HttpError(422, "page: Input should be greater than or equal to 1")

  /** `(page - 1) * per_page`. */
  function SkipFor(page: int): (skip: nat)
    requires page >= 1
    ensures skip % PER_PAGE == 0 && skip / PER_PAGE == page - 1
  {
    (page - 1) * PER_PAGE
  }

  /**
   * Pages tile the listing: row `i` is shown on page `i / 10 + 1`, at
   * position `i % 10`, and that page starts at or before it.
   */
  lemma PageOfRow<T>(rows: seq<T>, i: nat)
    requires i < |rows|
    ensures var page := i / PER_PAGE + 1;
            SkipFor(page) <= i && i - SkipFor(page) == i % PER_PAGE
            && i - SkipFor(page) < |Page(rows, SkipFor(page), PER_PAGE)|
            && Page(rows, SkipFor(page), PER_PAGE)[i - SkipFor(page)] == rows[i]
  {
    var page := i / PER_PAGE + 1;
    assert SkipFor(page) == i - i % PER_PAGE;
  }

  /** Distinct pages show distinct rows: page `p` covers exactly positions `SkipFor(p)` to `SkipFor(p) + 9`. */
  lemma PagesDisjoint(p1: int, p2: int, i: nat)
    requires p1 >= 1 && p2 >= 1 && p1 != p2
    requires SkipFor(p1) <= i < SkipFor(p1) + PER_PAGE
    ensures !(SkipFor(p2) <= i < SkipFor(p2) + PER_PAGE)
  {
    if p1 < p2 {
      assert SkipFor(p2) >= SkipFor(p1) + PER_PAGE;
    } else {
      assert SkipFor(p1) >= SkipFor(p2) + PER_PAGE;
    }
  }
}

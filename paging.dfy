/**
 * Offset/limit pagination as the list endpoints run it: `offset = (page - 1) * limit`,
 * at most `limit` rows from there, and `totalPages = ceil(total / limit)`.
 */
module Paging {
  import opened Wrappers

  /** The database refuses a negative LIMIT or OFFSET; the endpoint then answers 500. */
  datatype PageError = NegativeBounds

  /** `totalPages` is `None` where JavaScript's `Math.ceil(total / 0)` gives a value
      (Infinity or NaN) that JSON renders as null. */
  datatype PageInfo = PageInfo(total: nat, page: int, limit: int, totalPages: Option<nat>)

  datatype Paged<T> = Paged(rows: seq<T>, info: PageInfo)

  const DefaultPage: int := 1

  function Offset(page: int, limit: int): int {
    (page - 1) * limit
  }

  /** Integer ceiling of n / d. */
  function CeilDiv(n: nat, d: int): (r: nat)
    requires d > 0
    ensures n <= r * d
    ensures r == 0 || (r - 1) * d < n
    ensures n == 0 <==> r == 0
    decreases n
  {
    if n == 0 then 0 else if n <= d then 1 else 1 + CeilDiv(n - d, d)
  }

  /** The newest-first view of a table kept in creation order. */
  function NewestFirst<T>(s: seq<T>): (r: seq<T>)
    ensures |r| == |s|
    ensures forall i :: 0 <= i < |s| ==> r[i] == s[|s| - 1 - i]
  {
    if s == [] then [] else [s[|s| - 1]] + NewestFirst(s[..|s| - 1])
  }

  /** One page of `all`: rows `offset .. offset + limit`, clipped to the table. */
  function Paginate<T>(all: seq<T>, page: int, limit: int): (r: Result<Paged<T>, PageError>)
    ensures r.Failure? <==> limit < 0 || Offset(page, limit) < 0
    ensures r.Success? ==>
      && r.value.info == PageInfo(|all|, page, limit, if limit == 0 then None else Some(CeilDiv(|all|, limit)))
      && |r.value.rows| == Max(0, Min(limit, |all| - Offset(page, limit)))
      && (forall j :: 0 <= j < |r.value.rows| ==> r.value.rows[j] == all[Offset(page, limit) + j])
  {
    if limit < 0 || Offset(page, limit) < 0 then Failure(NegativeBounds)
    else
      var lo := Min(Offset(page, limit), |all|);
      var hi := Min(Offset(page, limit) + limit, |all|);
      Success(Paged(all[lo..hi], PageInfo(|all|, page, limit, if limit == 0 then None else Some(CeilDiv(|all|, limit)))))
  }

  /** The rows of a page are a contiguous run of the listing. */
  lemma PageRowsFromListing<T>(all: seq<T>, page: int, limit: int)
    requires Paginate(all, page, limit).Success?
    ensures forall x :: x in Paginate(all, page, limit).value.rows ==> x in all
  {
    var rows := Paginate(all, page, limit).value.rows;
    forall x | x in rows ensures x in all {
      var j :| 0 <= j < |rows| && rows[j] == x;
      assert all[Offset(page, limit) + j] == x;
    }
  }

  lemma NewestFirstSameElements<T>(s: seq<T>)
    ensures forall x :: x in NewestFirst(s) <==> x in s
  {
    var r := NewestFirst(s);
    forall x | x in s ensures x in r {
      var k :| 0 <= k < |s| && s[k] == x;
      assert r[|s| - 1 - k] == x;
    }
  }

  lemma MulMono(a: int, b: int, d: int)
    requires d > 0 && a <= b
    ensures a * d <= b * d
  {}

  lemma DivParts(j: nat, d: int)
    requires d > 0
    ensures j == (j / d) * d + j % d && 0 <= j % d < d && 0 <= j / d
  {}

  /** With a positive limit, row j of the listing is on page j / limit + 1, which is one of
      the `totalPages` pages, at position j % limit. */
  lemma EveryRowOnSomePage<T>(all: seq<T>, limit: int, j: int)
    requires limit > 0 && 0 <= j < |all|
    ensures 1 <= j / limit + 1 <= CeilDiv(|all|, limit)
    ensures Paginate(all, j / limit + 1, limit).Success?
    ensures j - Offset(j / limit + 1, limit) == j % limit
    ensures j % limit < |Paginate(all, j / limit + 1, limit).value.rows|
    ensures Paginate(all, j / limit + 1, limit).value.rows[j % limit] == all[j]
  {
    var q, m := j / limit, j % limit;
    DivParts(j, limit);
    var off := q * limit;
    assert Offset(q + 1, limit) == off;
    MulMono(0, q, limit);
    var n := |all|;
    var r := CeilDiv(n, limit);
    if r <= q {
      MulMono(r, q, limit);
      assert false;
    }
    var pg := Paginate(all, q + 1, limit);
    assert |pg.value.rows| == Max(0, Min(limit, n - off));
  }
}

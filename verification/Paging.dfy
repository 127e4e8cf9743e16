/**
 * Token-based paging: the page server of the mock client (mockclient.go) and the states a paginator
 * with duplicate-token stop passes through. `duplicateAt` is the page at which the server repeats
 * the token it was sent; values below 1 mean never.
 */
module Paging {
  import opened Wrappers
  import opened Decimal

  /** A page, or the slice-bounds panic of a start beyond the list. */
  datatype Served<+T> = OutOfBounds | Page(items: seq<T>, nextToken: Option<string>)

  function StartIndex(token: Option<string>): int {
    match token
    case None => 0
    case Some(t) => Atoi(t).GetOr(0)
  }

  function ServePage<T>(list: seq<T>, pageSize: int, duplicateAt: int, token: Option<string>): Served<T> {
    if pageSize <= 0 then Page(list, None)
    else
      var start := StartIndex(token);
      var end := Min(start + pageSize, |list|);
      if !(0 <= start <= end) then OutOfBounds
      else
        var next := if end < |list| then Some(Print(end)) else None;
        var repeats := duplicateAt > 0 && start / pageSize + 1 == duplicateAt;
        Page(list[start..end], if repeats then token else next)
  }

  /** StopOnDuplicateToken: a token equal to the one just sent is dropped. */
  function Deduplicated(sent: Option<string>, received: Option<string>): Option<string> {
    if sent.Some? && received.Some? && sent.value == received.value then None else received
  }

  /** How much of a list of n elements the loop reaches. */
  function Reach(n: nat, pageSize: int, duplicateAt: int): (m: nat)
    ensures m <= n
  {
    if pageSize > 0 && duplicateAt > 0 && duplicateAt * pageSize < n
    then (assert duplicateAt * pageSize >= 0; duplicateAt * pageSize)
    else n
  }

  /** Whether the paginator asks for another page after c pages of a list it reaches m elements of. */
  predicate More(c: nat, m: nat, pageSize: int) {
    c == 0 || (pageSize > 0 && c * pageSize < m)
  }

  /** Elements fetched after c pages. */
  function Position(c: nat, m: nat, pageSize: int): (pos: nat)
    ensures pos <= m
  {
    if c == 0 then 0
    else if pageSize > 0 && c * pageSize < m then (assert c * pageSize >= 0; c * pageSize)
    else m
  }

  /** The token the paginator holds after c pages. */
  function TokenAfter(c: nat, m: nat, pageSize: int): Option<string> {
    if c > 0 && More(c, m, pageSize) then Some(Print(Position(c, m, pageSize))) else None
  }

  /** Pages of a list of m elements from position pos on. */
  function PagesFrom(pos: nat, m: nat, pageSize: int): (pages: nat)
    requires pageSize > 0
    ensures pages >= 1
    decreases m - pos
  {
    if pos + pageSize >= m then 1 else 1 + PagesFrom(pos + pageSize, m, pageSize)
  }

  function PageCount(m: nat, pageSize: int): (pages: nat)
    ensures pages >= 1
  {
    if pageSize <= 0 then 1 else PagesFrom(0, m, pageSize)
  }

  /** Multiples of a positive page size are at least a page apart. */
  lemma {:induction false} MultiplesApart(a: nat, b: nat, p: int)
    requires p > 0 && a < b
    ensures a * p + p <= b * p
    decreases b
  {
    assert b * p == (b - 1) * p + p;
    if a < b - 1 {
      MultiplesApart(a, b - 1, p);
    }
  }

  lemma {:induction false} DivideMultiple(c: nat, p: int)
    requires p > 0
    ensures c * p / p == c
  {
    var x := c * p;
    var q := x / p;
    assert x == q * p + x % p;
    assert q >= 0;
    if q < c {
      MultiplesApart(q, c, p);
    } else if c < q {
      MultiplesApart(c, q, p);
    }
  }

  /** One turn of the loop: the page is within bounds, continues the list and leaves the expected token. */
  lemma ServeNext<T>(list: seq<T>, pageSize: int, duplicateAt: int, c: nat)
    requires More(c, Reach(|list|, pageSize, duplicateAt), pageSize)
    ensures var m := Reach(|list|, pageSize, duplicateAt);
            var token := TokenAfter(c, m, pageSize);
            var page := ServePage(list, pageSize, duplicateAt, token);
            && page.Page?
            && Position(c, m, pageSize) <= Position(c + 1, m, pageSize)
            && page.items == list[Position(c, m, pageSize)..Position(c + 1, m, pageSize)]
            && Deduplicated(token, page.nextToken) == TokenAfter(c + 1, m, pageSize)
  {
    var m := Reach(|list|, pageSize, duplicateAt);
    var token := TokenAfter(c, m, pageSize);
    var pos := Position(c, m, pageSize);
    if pageSize > 0 {
      TokenRoundTrip(pos);
      assert StartIndex(token) == pos == c * pageSize;
      DivideMultiple(c, pageSize);
      assert (c + 1) * pageSize == c * pageSize + pageSize;
      NextMultiple(c, m, |list|, pageSize, duplicateAt);
      if c * pageSize + pageSize < |list| && c > 0 && Print(c * pageSize) == Print(c * pageSize + pageSize) {
        PrintInjective(c * pageSize, c * pageSize + pageSize);
        assert false;
      }
    }
  }

  /** The page at which the token repeats is the one on which the reached part of the list ends. */
  lemma {:induction false} NextMultiple(c: nat, m: nat, n: nat, pageSize: int, duplicateAt: int)
    requires pageSize > 0 && m == Reach(n, pageSize, duplicateAt) && More(c, m, pageSize)
    ensures c + 1 == duplicateAt ==> (c + 1) * pageSize >= m && Min((c + 1) * pageSize, n) == Min((c + 1) * pageSize, m)
    ensures c + 1 != duplicateAt || duplicateAt <= 0 ==>
              ((c + 1) * pageSize < m <==> (c + 1) * pageSize < n)
                && Min((c + 1) * pageSize, n) == Min((c + 1) * pageSize, m)
  {
    if duplicateAt > 0 {
      if duplicateAt < c {
        MultiplesApart(duplicateAt, c, pageSize);
      } else if c + 1 < duplicateAt {
        MultiplesApart(c + 1, duplicateAt, pageSize);
      }
    }
  }

  lemma {:induction false} PagesFromMore(pos: nat, m: nat, pageSize: int, c: nat)
    requires pageSize > 0
    ensures (c == 0 || pos + c * pageSize < m) <==> c < PagesFrom(pos, m, pageSize)
    decreases m - pos
  {
    if c > 0 {
      assert c * pageSize == (c - 1) * pageSize + pageSize;
      if pos + pageSize < m {
        PagesFromMore(pos + pageSize, m, pageSize, c - 1);
      } else {
        assert (c - 1) * pageSize >= 0;
      }
    }
  }

  /** The loop runs for exactly PageCount pages. */
  lemma MoreIff(c: nat, m: nat, pageSize: int)
    ensures More(c, m, pageSize) <==> c < PageCount(m, pageSize)
  {
    if pageSize > 0 {
      PagesFromMore(0, m, pageSize, c);
    }
  }

  /** max(1, ceil(m / pageSize)) pages. */
  lemma PageCountIsCeiling(m: nat, pageSize: int)
    requires pageSize > 0
    ensures var ceiling := (m + pageSize - 1) / pageSize;
            PageCount(m, pageSize) == if ceiling >= 1 then ceiling else 1
  {
    var pages := PageCount(m, pageSize);
    MoreIff(pages, m, pageSize);
    MoreIff(pages - 1, m, pageSize);
    var q := (m + pageSize - 1) / pageSize;
    assert m + pageSize - 1 == q * pageSize + (m + pageSize - 1) % pageSize;
    CeilingUnique(m, pageSize, q, pages);
  }

  lemma {:induction false} CeilingUnique(m: nat, p: int, q: int, pages: nat)
    requires p > 0 && pages >= 1 && q >= 0
    requires q * p <= m + p - 1 < q * p + p
    requires pages * p >= m && (pages == 1 || (pages - 1) * p < m)
    ensures pages == if q >= 1 then q else 1
  {
    if pages < q {
      MultiplesApart(pages, q, p);
    } else if q < pages && pages > 1 {
      assert pages * p == (pages - 1) * p + p;
      if q < pages - 1 {
        MultiplesApart(q, pages - 1, p);
      }
    }
  }
}

/**
 `PaginationService.getPaginatedItems` of
 `src/prisma/pagination/pagination.service.ts`: the query it hands to the
 database (skip/take, the search OR-list merged into the caller's filter) and
 the page metadata it computes from the row count the database returns.
 */
module Pagination {
  import opened Common

  /** One alternative of the search: `{id: {equals}}` or `{[field]: {contains, mode: 'insensitive'}}`. */
  datatype Clause = IdEquals(value: int) | FieldContains(field: string, query: string)

  /** A value of the `where` object: a caller-supplied filter, or the search's `OR` list. */
  datatype Filter = Given(raw: string) | AnyOf(clauses: seq<Clause>)

  type Where = map<string, Filter>

  datatype Direction = Asc | Desc

  datatype Options = Options(
    searchQuery: Option<string>,
    searchFields: Option<seq<string>>,
    orderBy: Option<map<string, Direction>>,
    where: Option<Where>)

  /** The arguments of `findMany`. */
  datatype Query = Query(skip: int, take: int, where: Option<Where>, orderBy: Option<map<string, Direction>>)

  /** A JavaScript number that `Math.ceil(count / limit)` can yield. */
  datatype PageCount = Finite(n: int) | Infinity | NaN

  datatype Meta = Meta(
    page: int,
    limit: int,
    totalItems: nat,
    totalPages: PageCount,
    hasNextPage: bool,
    hasPreviousPage: bool)

  const DefaultPage: int := 1
  const DefaultLimit: int := 10
  const OrKey: string := "OR"
  const IdField: string := "id"

  /** The rows the page `page` of size `limit` starts after. */
  function Skip(page: int, limit: int): int
  {
    (page - 1) * limit
  }

  /** For positive page and size, whole pages are skipped. */
  lemma SkipWholePages(page: int, limit: int)
    requires page >= 1 && limit >= 1
    ensures Skip(page, limit) >= 0
    ensures Skip(page, limit) % limit == 0
    ensures Skip(page, limit) / limit == page - 1
  {
    DivModUnique(Skip(page, limit), limit, page - 1, 0);
    MulMonotone(0, page - 1, limit);
  }

  /** Euclidean division is determined by any quotient and in-range remainder. */
  lemma DivModUnique(a: int, d: int, q: int, r: int)
    requires d >= 1 && a == q * d + r && 0 <= r < d
    ensures a / d == q && a % d == r
  {
    var q' := a / d;
    var r' := a % d;
    assert (q - q') * d == r' - r;
    if q - q' >= 1 {
      MulAtLeast(q - q', d);
    } else if q' - q >= 1 {
      MulAtLeast(q' - q, d);
    }
  }

  lemma MulAtLeast(m: int, d: int)
    requires m >= 1 && d >= 1
    ensures m * d >= d
  {
    assert m * d == (m - 1) * d + d;
  }

  /** What the search contributes for one field: nothing for `id` when the query does not parse. */
  function ClauseFor(field: string, query: string, parseInt: string -> Option<int>): seq<Clause>
  {
    if field == IdField then
      match parseInt(query)
      case None => []
      case Some(n) => [IdEquals(n)]
    else
      [FieldContains(field, query)]
  }

  /** The clauses of a well-formed search: `id` equality on the parsed query, or containment of the query. */
  predicate ValidClause(c: Clause, fields: seq<string>, query: string, parseInt: string -> Option<int>)
  {
    match c
    case IdEquals(n) => IdField in fields && parseInt(query) == Some(n)
    case FieldContains(f, q) => f in fields && f != IdField && q == query
  }

  /**
   The `OR` list: the clauses of the fields in the order given. Each non-`id`
   field gives one; each `id` field gives one exactly when the query parses.
   */
  function OrClauses(fields: seq<string>, query: string, parseInt: string -> Option<int>): (r: seq<Clause>)
    ensures |r| == |fields| - (if parseInt(query).None? then multiset(fields)[IdField] else 0)
    ensures forall k :: 0 <= k < |r| ==> ValidClause(r[k], fields, query, parseInt)
    decreases |fields|
  {
    if |fields| == 0 then []
    else
      var init := fields[..|fields| - 1];
      var last := fields[|fields| - 1];
      assert fields == init + [last];
      var r := OrClauses(init, query, parseInt) + ClauseFor(last, query, parseInt);
      assert forall k :: 0 <= k < |r| ==> ValidClause(r[k], fields, query, parseInt) by {
        forall k | 0 <= k < |r|
          ensures ValidClause(r[k], fields, query, parseInt)
        {
          if k < |OrClauses(init, query, parseInt)| {
            assert ValidClause(r[k], init, query, parseInt);
          }
        }
      }
      r
  }

  /** The list for one field is that field's clause. */
  lemma OrClausesSingleton(field: string, query: string, parseInt: string -> Option<int>)
    ensures OrClauses([field], query, parseInt) == ClauseFor(field, query, parseInt)
  {
    assert [field][..0] == [];
  }

  /** The list follows the fields in order: the list of `a + b` is `a`'s list followed by `b`'s. */
  lemma {:induction false} OrClausesAppend(a: seq<string>, b: seq<string>, query: string, parseInt: string -> Option<int>)
    ensures OrClauses(a + b, query, parseInt) == OrClauses(a, query, parseInt) + OrClauses(b, query, parseInt)
    decreases |b|
  {
    if |b| == 0 {
      assert a + b == a;
    } else {
      var init := b[..|b| - 1];
      var last := b[|b| - 1];
      assert (a + b)[..|a + b| - 1] == a + init;
      assert (a + b)[|a + b| - 1] == last;
      OrClausesAppend(a, init, query, parseInt);
    }
  }

  /**
   Every field contributes its clause: each non-`id` field a `contains` clause,
   and each `id` field an equality when the query parses.
   */
  lemma OrClausesCoverFields(fields: seq<string>, query: string, parseInt: string -> Option<int>, k: nat)
    requires k < |fields|
    ensures fields[k] != IdField ==> FieldContains(fields[k], query) in OrClauses(fields, query, parseInt)
    ensures fields[k] == IdField && parseInt(query).Some? ==>
      IdEquals(parseInt(query).value) in OrClauses(fields, query, parseInt)
  {
    var pre := fields[..k];
    var post := fields[k + 1..];
    assert fields == pre + [fields[k]] + post;
    OrClausesAppend(pre + [fields[k]], post, query, parseInt);
    OrClausesAppend(pre, [fields[k]], query, parseInt);
    OrClausesSingleton(fields[k], query, parseInt);
  }

  /** The search's `forEach` loop pushing onto `OR`. */
  method BuildOr(fields: seq<string>, query: string, parseInt: string -> Option<int>) returns (clauses: seq<Clause>)
    ensures clauses == OrClauses(fields, query, parseInt)
    ensures |clauses| <= |fields|
    ensures parseInt(query).Some? ==> |clauses| == |fields|
    ensures forall k :: 0 <= k < |clauses| ==> ValidClause(clauses[k], fields, query, parseInt)
  {
    clauses := [];
    var i := 0;
    while i < |fields|
      invariant 0 <= i <= |fields|
      invariant clauses == OrClauses(fields[..i], query, parseInt)
    {
      assert fields[..i + 1][..i] == fields[..i];
      var field := fields[i];
      if field == IdField {
        var parsed := parseInt(query);
        if parsed.Some? {
          clauses := clauses + [IdEquals(parsed.value)];
        }
      } else {
        clauses := clauses + [FieldContains(field, query)];
      }
      i := i + 1;
    }
    assert fields[..i] == fields;
  }

  /** `{...where, OR}`: every caller key but `OR` survives, and `OR` is the search list. */
  function MergeOr(where: Option<Where>, clauses: seq<Clause>): (r: Where)
    ensures r.Keys == where.GetOr(map[]).Keys + {OrKey}
    ensures r[OrKey] == AnyOf(clauses)
    ensures forall k :: k in where.GetOr(map[]) && k != OrKey ==> r[k] == where.value[k]
  {
    where.GetOr(map[])[OrKey := AnyOf(clauses)]
  }

  /** `Math.ceil(count / limit)`, with `Infinity` for `n / 0` and `NaN` for `0 / 0`. */
  function TotalPages(count: nat, limit: int): (r: PageCount)
    ensures limit == 0 ==> (r == if count == 0 then NaN else Infinity)
    ensures limit > 0 ==> r.Finite? && r.n * limit >= count && (r.n - 1) * limit < count
    ensures limit > 0 && count == 0 ==> r == Finite(0)
  {
    if limit == 0 then
      if count == 0 then NaN else Infinity
    else if limit > 0 then
      var n := (count + limit - 1) / limit;
      CeilingBounds(count, limit);
      Finite(n)
    else
      Finite(-(count / -limit))
  }

  lemma CeilingBounds(count: nat, limit: int)
    requires limit > 0
    ensures var n := (count + limit - 1) / limit;
      n * limit >= count && (n - 1) * limit < count
  {
    var n := (count + limit - 1) / limit;
    var r := (count + limit - 1) % limit;
    assert count + limit - 1 == n * limit + r;
    assert (n - 1) * limit == n * limit - limit;
  }

  /** `page < totalPages`, with JavaScript's comparisons against `Infinity` and `NaN`. */
  function Below(page: int, total: PageCount): bool
  {
    match total
    case Finite(n) => page < n
    case Infinity => true
    case NaN => false
  }

  /** The `meta` object. */
  function MetaFor(page: int, limit: int, count: nat): (r: Meta)
    ensures r.page == page && r.limit == limit && r.totalItems == count
    ensures r.totalPages == TotalPages(count, limit)
    ensures r.hasPreviousPage <==> page > 1
    ensures limit > 0 ==> (r.hasNextPage <==> Skip(page, limit) + limit < count)
    ensures limit == 0 ==> (r.hasNextPage <==> count > 0)
  {
    var total := TotalPages(count, limit);
    var meta := Meta(page, limit, count, total, Below(page, total), page > 1);
    if limit > 0 then
      NextPageMeansMoreRows(page, limit, count);
      meta
    else
      meta
  }

  /** There is a next page exactly when rows remain after this one. */
  lemma NextPageMeansMoreRows(page: int, limit: int, count: nat)
    requires limit > 0
    ensures Below(page, TotalPages(count, limit)) <==> Skip(page, limit) + limit < count
  {
    var n := TotalPages(count, limit).n;
    assert Skip(page, limit) + limit == page * limit;
    if page < n {
      assert page * limit <= (n - 1) * limit by { MulMonotone(page, n - 1, limit); }
    } else {
      assert page * limit >= n * limit by { MulMonotone(n, page, limit); }
    }
  }

  lemma MulMonotone(a: int, b: int, limit: int)
    requires a <= b && limit > 0
    ensures a * limit <= b * limit
  {
    assert b * limit - a * limit == (b - a) * limit;
  }

  /**
   Every row index below the count lies on exactly one page, and that page is
   no later than the last one.
   */
  lemma RowOnOnePage(i: nat, count: nat, limit: int)
    requires limit > 0 && i < count
    ensures var p := i / limit + 1;
      Skip(p, limit) <= i < Skip(p, limit) + limit && p <= TotalPages(count, limit).n
    ensures forall p :: Skip(p, limit) <= i < Skip(p, limit) + limit ==> p == i / limit + 1
  {
    var q := i / limit;
    assert q * limit <= i < q * limit + limit;
    var n := TotalPages(count, limit).n;
    if q + 1 > n {
      MulMonotone(n, q, limit);
    }
    forall p | Skip(p, limit) <= i < Skip(p, limit) + limit
      ensures p == q + 1
    {
      if p - 1 < q {
        MulMonotone(p, q, limit);
      } else if p - 1 > q {
        MulMonotone(q + 1, p - 1, limit);
      }
    }
  }

  /**
   `getPaginatedItems` up to the database call: the query sent to `findMany`,
   and the metadata for the `count` the database answers with.
   */
  method GetPaginatedItems(page: Option<int>, limit: Option<int>, options: Options,
                           parseInt: string -> Option<int>, count: nat)
    returns (query: Query, meta: Meta)
    ensures var p := page.GetOr(DefaultPage); var l := limit.GetOr(DefaultLimit);
      && query.skip == Skip(p, l) && query.take == l
      && meta == MetaFor(p, l, count)
    ensures query.orderBy == options.orderBy
    ensures var fields := options.searchFields.GetOr([]);
      !(options.searchQuery.Some? && options.searchQuery.value != "" && |fields| > 0) ==> query.where == options.where
    ensures var fields := options.searchFields.GetOr([]);
      options.searchQuery.Some? && options.searchQuery.value != "" && |fields| > 0 ==>
        query.where == Some(MergeOr(options.where, OrClauses(fields, options.searchQuery.value, parseInt)))
  {
    var p := page.GetOr(DefaultPage);
    var l := limit.GetOr(DefaultLimit);
    var fields := options.searchFields.GetOr([]);
    query := Query(Skip(p, l), l, options.where, options.orderBy);
    if options.searchQuery.Some? && options.searchQuery.value != "" && |fields| > 0 {
      var clauses := BuildOr(fields, options.searchQuery.value, parseInt);
      query := query.(where := Some(MergeOr(options.where, clauses)));
    }
    meta := MetaFor(p, l, count);
  }
}

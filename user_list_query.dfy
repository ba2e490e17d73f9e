/** The query builder of the user listing (`GET /api/users`): the filter is the
    request query without its reserved keys, serialised and passed through the
    comparison-operator rewrite; `sort` and `fields` are comma lists turned into
    space lists, with defaults; `page` and `pageSize` give `skip` and `limit`; and
    a page past the end of the collection is answered with a 404 error object. */
module UserListQuery {
  import opened Runtime
  import OperatorRewrite

  /** The query keys that steer the listing and are not part of the filter. */
  const ReservedKeys: seq<string> := ["sort", "page", "pageSize", "fields"]

  const DefaultSort := "-createdAt"
  const DefaultProjection := "-__v -password"
  const DefaultPage := 1
  const DefaultPageSize := 50
  const PageNotFound := Rejected(404, "This page does not exits")

  /** `m` without the keys listed in `keys`. */
  function WithoutKeys<V>(m: map<string, V>, keys: seq<string>): (r: map<string, V>)
    ensures forall k :: k in r <==> k in m && k !in keys
    ensures forall k :: k in r ==> r[k] == m[k]
  {
    map k | k in m && k !in keys :: m[k]
  }

  /** A copy of `source` from which each key of `keys` is deleted in turn. */
  method DeleteKeys<V>(source: map<string, V>, keys: seq<string>) returns (copy: map<string, V>)
    ensures copy == WithoutKeys(source, keys)
  {
    copy := source;
    for i := 0 to |keys|
      invariant forall k :: k in copy <==> k in source && k !in keys[..i]
      invariant forall k :: k in copy ==> copy[k] == source[k]
    {
      copy := copy - {keys[i]};
    }
    assert keys[..|keys|] == keys;
  }

  /** The described query, before Mongoose runs it. `filter` is the JSON text handed
      to `JSON.parse` and `User.find`; `projection` is the `select` string. */
  datatype ListQuery = ListQuery(filter: string, sort: string, projection: string, skip: int, limit: int)

  /** `req.query[key] ? req.query[key].split(',').join(' ') : fallback`. A truthy
      value that is not a string has no `split` method: the call throws and the
      handler's catch block answers 400. */
  function CommaListParam(query: map<string, QueryValue>, key: string, fallback: string): (r: Result<string, RouteError>)
    ensures !QueryParamTruthy(query, key) ==> r == Ok(fallback)
    ensures QueryParamTruthy(query, key) && query[key].Text? ==>
              r == Ok(ReplaceChar(query[key].text, ',', ' '))
    ensures QueryParamTruthy(query, key) && !query[key].Text? ==> r == Err(Failed(400))
  {
    if !QueryParamTruthy(query, key) then Ok(fallback)
    else match query[key]
      case Text(s) =>
        SplitJoinReplaces(s, ',', ' ');
        Ok(Join(Split(s, ','), " "))
      case _ => Err(Failed(400))
  }

  function SortOrder(query: map<string, QueryValue>): Result<string, RouteError> {
    CommaListParam(query, "sort", DefaultSort)
  }

  function Projection(query: map<string, QueryValue>): Result<string, RouteError> {
    CommaListParam(query, "fields", DefaultProjection)
  }

  /** `value * 1 || fallback`: a conversion that gives 0 or NaN falls back. */
  function NumberOr(n: Numeric, fallback: int): int {
    if n.Finite? && n.value != 0 then n.value else fallback
  }

  /** `req.query[key] * 1 || fallback`, where a missing key is `undefined`, which
      converts to NaN. */
  function NumericParam(query: map<string, QueryValue>, key: string, fallback: int): (r: int)
    requires fallback != 0
    ensures r != 0
    ensures r == fallback <==> key !in query || ToNumber(query[key]) in {NaN, Finite(0), Finite(fallback)}
    ensures key in query && ToNumber(query[key]).Finite? && ToNumber(query[key]).value != 0 ==>
              r == ToNumber(query[key]).value
  {
    NumberOr(if key in query then ToNumber(query[key]) else NaN, fallback)
  }

  function PageNumber(query: map<string, QueryValue>): int {
    NumericParam(query, "page", DefaultPage)
  }

  function PageSize(query: map<string, QueryValue>): int {
    NumericParam(query, "pageSize", DefaultPageSize)
  }

  function Skip(query: map<string, QueryValue>): int {
    (PageNumber(query) - 1) * PageSize(query)
  }

  /** The 404 is checked only when a `page` was given, and compares against the
      number of all users, not the number the filter selects. */
  predicate PageMissing(query: map<string, QueryValue>, totalUsers: nat) {
    QueryParamTruthy(query, "page") && Skip(query) >= totalUsers
  }

  /** What the handler makes of a request query, given the serialisation
      `JSON.stringify` and the number of users in the collection. It fails with a
      400 exactly when `sort` or `fields` is a truthy non-string, and with the
      404 exactly when those are text, a page is given and its first user lies
      at or past the number of users; a query it builds takes `pageSize` users
      starting after the `page - 1` pages before it, and has a sort and a
      projection without commas. */
  function ListQueryFor(query: map<string, QueryValue>, totalUsers: nat,
                        stringify: map<string, QueryValue> -> string): (r: Result<ListQuery, RouteError>)
    ensures r == Err(Failed(400)) <==> !ListParamsAreText(query)
    ensures r.Err? ==> r.error == Failed(400) || r.error == PageNotFound
    ensures r == Err(PageNotFound) <==>
              ListParamsAreText(query) && QueryParamTruthy(query, "page") && Skip(query) >= totalUsers
    ensures r.Ok? ==> r.value.limit != 0 && r.value.skip == (PageNumber(query) - 1) * r.value.limit
    ensures r.Ok? ==> r.value.limit == PageSize(query) && r.value.skip == (PageNumber(query) - 1) * PageSize(query)
    ensures r.Ok? ==> ',' !in r.value.sort && ',' !in r.value.projection
  {
    var filter := OperatorRewrite.RewriteOperators(stringify(WithoutKeys(query, ReservedKeys)));
    var sort := SortOrder(query);
    var projection := Projection(query);
    if sort.Err? then Err(sort.error)
    else if projection.Err? then Err(projection.error)
    else if PageMissing(query, totalUsers) then Err(PageNotFound)
    else Ok(ListQuery(filter, sort.value, projection.value, Skip(query), PageSize(query)))
  }

  /** The handler's steps in order: copy the query and delete the reserved keys,
      serialise and rewrite the operators, then sort, projection, pagination and
      the page check. */
  method BuildListQuery(query: map<string, QueryValue>, totalUsers: nat,
                        stringify: map<string, QueryValue> -> string)
    returns (r: Result<ListQuery, RouteError>)
    ensures r == ListQueryFor(query, totalUsers, stringify)
  {
    var filterObject := DeleteKeys(query, ReservedKeys);
    var filter := OperatorRewrite.RewriteOperators(stringify(filterObject));
    var sort := SortOrder(query);
    if sort.Err? {
      return Err(sort.error);
    }
    var projection := Projection(query);
    if projection.Err? {
      return Err(projection.error);
    }
    var page := PageNumber(query);
    var pageSize := PageSize(query);
    var skip := (page - 1) * pageSize;
    if QueryParamTruthy(query, "page") && skip >= totalUsers {
      return Err(PageNotFound);
    }
    r := Ok(ListQuery(filter, sort.value, projection.value, skip, pageSize));
  }

  // ---------------------------------------------------------------------------
  // Properties

  /** `sort` and `fields` are absent, empty or plain strings. */
  predicate ListParamsAreText(query: map<string, QueryValue>) {
    && (QueryParamTruthy(query, "sort") ==> query["sort"].Text?)
    && (QueryParamTruthy(query, "fields") ==> query["fields"].Text?)
  }

  /** The filter reads only the keys that are not reserved: two queries that agree
      on every other key give the same filter text. */
  lemma FilterIgnoresReservedKeys(q1: map<string, QueryValue>, q2: map<string, QueryValue>,
                                  stringify: map<string, QueryValue> -> string, t1: nat, t2: nat)
    requires forall k :: k !in ReservedKeys ==> (k in q1 <==> k in q2)
    requires forall k :: k !in ReservedKeys && k in q1 ==> q1[k] == q2[k]
    requires ListQueryFor(q1, t1, stringify).Ok? && ListQueryFor(q2, t2, stringify).Ok?
    ensures ListQueryFor(q1, t1, stringify).value.filter == ListQueryFor(q2, t2, stringify).value.filter
  {
    assert WithoutKeys(q1, ReservedKeys) == WithoutKeys(q2, ReservedKeys);
  }

  /** Everything but the filter reads only the reserved keys: the filter keys never
      decide the 404, the sort, the projection or the window. */
  lemma OutcomeIgnoresFilterKeys(q1: map<string, QueryValue>, q2: map<string, QueryValue>, total: nat)
    requires forall k :: k in ReservedKeys ==> (k in q1 <==> k in q2)
    requires forall k :: k in ReservedKeys && k in q1 ==> q1[k] == q2[k]
    ensures SortOrder(q1) == SortOrder(q2) && Projection(q1) == Projection(q2)
    ensures PageMissing(q1, total) == PageMissing(q2, total)
    ensures Skip(q1) == Skip(q2) && PageSize(q1) == PageSize(q2)
  {
    SameParam(q1, q2, "sort");
    SameParam(q1, q2, "fields");
    SameParam(q1, q2, "page");
    SameParam(q1, q2, "pageSize");
  }

  lemma SameParam(q1: map<string, QueryValue>, q2: map<string, QueryValue>, key: string)
    requires key in ReservedKeys
    requires forall k :: k in ReservedKeys ==> (k in q1 <==> k in q2)
    requires forall k :: k in ReservedKeys && k in q1 ==> q1[k] == q2[k]
    ensures key in q1 <==> key in q2
    ensures key in q1 ==> q1[key] == q2[key]
  {
  }

  /** Without a `page` parameter the listing is never a missing page, and it starts
      at the first user. */
  lemma NoPageNoMissingPage(query: map<string, QueryValue>, total: nat,
                            stringify: map<string, QueryValue> -> string)
    requires !QueryParamTruthy(query, "page")
    ensures ListQueryFor(query, total, stringify) != Err(PageNotFound)
    ensures "page" !in query ==> Skip(query) == 0
  {
  }

  /** Neither the page nor the page size can be 0, so Mongoose never receives the
      `limit(0)` that would mean "no limit". */
  lemma WindowNeverUnbounded(query: map<string, QueryValue>, total: nat,
                             stringify: map<string, QueryValue> -> string)
    requires ListQueryFor(query, total, stringify).Ok?
    ensures ListQueryFor(query, total, stringify).value.limit != 0
    ensures PageNumber(query) != 0
  {
  }

  /** A query with plain `sort`/`fields` strings, `page=k` and `pageSize=s` written in
      decimal (k, s >= 1) is a missing page exactly when the pages before it already
      hold every user, i.e. when k exceeds the number of pages ceil(total / s). */
  lemma MissingPageIff(query: map<string, QueryValue>, total: nat,
                       stringify: map<string, QueryValue> -> string, k: nat, s: nat)
    requires ListParamsAreText(query)
    requires k >= 1 && s >= 1
    requires "page" in query && query["page"] == Text(IntToString(k))
    requires "pageSize" in query && query["pageSize"] == Text(IntToString(s))
    ensures ListQueryFor(query, total, stringify) == Err(PageNotFound) <==> (k - 1) * s >= total
    ensures ListQueryFor(query, total, stringify) == Err(PageNotFound) <==> k > (total + s - 1) / s
  {
    NumberOfIntString(k);
    NumberOfIntString(s);
    assert IntToString(k) != "" by {
      assert |NatToString(k)| >= 1;
    }
    assert Skip(query) == (k - 1) * s;
    CeilingPages(total, s, k);
  }

  /** `?page=k` with no `pageSize`, the number written in decimal and possibly
      padded with white space, is a missing page exactly when the k - 1 pages of
      the default 50 users before it already hold every user. */
  lemma DefaultSizeMissingPageIff(query: map<string, QueryValue>, total: nat,
                                  stringify: map<string, QueryValue> -> string,
                                  pre: string, k: nat, post: string)
    requires ListParamsAreText(query)
    requires k >= 1 && "pageSize" !in query
    requires forall i :: 0 <= i < |pre| ==> IsJsWhitespace(pre[i])
    requires forall i :: 0 <= i < |post| ==> IsJsWhitespace(post[i])
    requires "page" in query && query["page"] == Text(pre + IntToString(k) + post)
    ensures ListQueryFor(query, total, stringify) == Err(PageNotFound) <==> (k - 1) * DefaultPageSize >= total
    ensures ListQueryFor(query, total, stringify).Ok? ==>
              ListQueryFor(query, total, stringify).value.skip == (k - 1) * DefaultPageSize
  {
    PaddedNumber(pre, k, post);
    assert |IntToString(k)| >= 1 by {
      assert |NatToString(k)| >= 1;
    }
    assert Skip(query) == (k - 1) * DefaultPageSize;
  }

  /** (k - 1) * s >= total exactly when k is beyond ceil(total / s). */
  lemma CeilingPages(total: nat, s: nat, k: nat)
    requires s >= 1 && k >= 1
    ensures (k - 1) * s >= total <==> k > (total + s - 1) / s
  {
    var c := (total + s - 1) / s;
    assert c * s <= total + s - 1 < (c + 1) * s;
    assert (c + 1) * s == c * s + s;
    assert (c - 1) * s == c * s - s;
    MultiplyMonotone(k - 1, c - 1, s);
    MultiplyMonotone(c, k - 1, s);
  }

  lemma MultiplyMonotone(a: int, b: int, s: nat)
    requires s >= 1
    ensures a <= b ==> a * s <= b * s
    ensures a * s < b * s ==> a < b
  {
  }

  /** On an empty collection even `page=1` is answered as a missing page. */
  lemma FirstPageOfEmptyCollection(query: map<string, QueryValue>,
                                   stringify: map<string, QueryValue> -> string)
    requires ListParamsAreText(query)
    requires "page" in query && query["page"] == Text("1")
    ensures ListQueryFor(query, 0, stringify) == Err(PageNotFound)
  {
    NumberOfIntString(1);
    assert IntToString(1) == "1";
    assert PageNumber(query) == 1;
    assert Skip(query) == 0;
  }

  /** A query whose `sort` and `fields` are plain strings yields a query whose sort
      and projection are those strings with every comma turned into a space. */
  lemma ListParamsSpaced(query: map<string, QueryValue>, total: nat,
                         stringify: map<string, QueryValue> -> string)
    requires ListQueryFor(query, total, stringify).Ok?
    ensures var q := ListQueryFor(query, total, stringify).value;
            && (QueryParamTruthy(query, "sort") ==> q.sort == ReplaceChar(query["sort"].text, ',', ' '))
            && (!QueryParamTruthy(query, "sort") ==> q.sort == DefaultSort)
            && (QueryParamTruthy(query, "fields") ==> q.projection == ReplaceChar(query["fields"].text, ',', ' '))
            && (!QueryParamTruthy(query, "fields") ==> q.projection == DefaultProjection)
  {
  }
}

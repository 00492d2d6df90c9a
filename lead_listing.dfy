/**
 * The web LeadController: the filtered, newest-first, paginated lead list
 * (index) and the whitelisted status change (update).
 */
module LeadListing {
  import opened Foundation
  import opened LeadModel
  import opened LeadStatusEnum

  const PageSize: nat := 15
  const SecondsPerDay: nat := 86400

  /** The calendar day (UTC) of an instant, as whereDate compares it. */
  function Day(t: int): int
  {
    t / SecondsPerDay
  }

  /** `$request->filled($key)` for a text parameter: present and not blank. */
  predicate Filled(v: Option<string>)
  {
    v.Some? && Trim(v.value) != []
  }

  /**
   * The index query-string parameters. A site id or a date that is not
   * filled is None; dates are day numbers.
   */
  datatype LeadFilters = LeadFilters(
    siteId: Option<nat>,
    status: Option<string>,
    dateFrom: Option<int>,
    dateTo: Option<int>,
    search: Option<string>)

  const NoFilters: LeadFilters := LeadFilters(None, None, None, None, None)

  /** One `where` added to the query builder. */
  datatype Condition =
    | SiteIs(siteId: nat)
    | StatusIs(status: string)
    | DayFrom(fromDay: int)
    | DayTo(toDay: int)
    | SearchFor(term: string)

  /**
   * The row satisfies the condition. A NULL submitted_at fails both date
   * comparisons; `json` is the stored JSON text of form_data and LIKE
   * '%term%' is substring containment.
   */
  predicate Holds(json: Value -> string, c: Condition, r: LeadRecord)
  {
    match c
    case SiteIs(siteId) => r.attrs.siteId == siteId
    case StatusIs(status) => r.attrs.status == status
    case DayFrom(d) => r.attrs.submittedAt.Some? && Day(r.attrs.submittedAt.value) >= d
    case DayTo(d) => r.attrs.submittedAt.Some? && Day(r.attrs.submittedAt.value) <= d
    case SearchFor(term) => Contains(json(r.attrs.formData), term) || Contains(r.attrs.formName, term)
  }

  /** The `where` one filter adds: none when it is not filled. */
  function SiteCondition(f: LeadFilters): seq<Condition>
  {
    if f.siteId.Some? then [SiteIs(f.siteId.value)] else []
  }

  function StatusCondition(f: LeadFilters): seq<Condition>
  {
    if Filled(f.status) then [StatusIs(f.status.value)] else []
  }

  function FromCondition(f: LeadFilters): seq<Condition>
  {
    if f.dateFrom.Some? then [DayFrom(f.dateFrom.value)] else []
  }

  function ToCondition(f: LeadFilters): seq<Condition>
  {
    if f.dateTo.Some? then [DayTo(f.dateTo.value)] else []
  }

  function SearchCondition(f: LeadFilters): seq<Condition>
  {
    if Filled(f.search) then [SearchFor(f.search.value)] else []
  }

  /** The conditions index() adds, one per filled filter, in the order it adds them. */
  function Conditions(f: LeadFilters): (cs: seq<Condition>)
    ensures f.siteId.None? && !Filled(f.status) && f.dateFrom.None? && f.dateTo.None? && !Filled(f.search) ==> cs == []
    ensures |cs| <= 5
  {
    SiteCondition(f) + StatusCondition(f) + FromCondition(f) + ToCondition(f) + SearchCondition(f)
  }

  /** Each filled filter, read declaratively. */
  predicate SiteMatches(f: LeadFilters, r: LeadRecord)
  {
    f.siteId.Some? ==> r.attrs.siteId == f.siteId.value
  }

  predicate StatusMatches(f: LeadFilters, r: LeadRecord)
  {
    Filled(f.status) ==> r.attrs.status == f.status.value
  }

  predicate FromMatches(f: LeadFilters, r: LeadRecord)
  {
    f.dateFrom.Some? ==> r.attrs.submittedAt.Some? && Day(r.attrs.submittedAt.value) >= f.dateFrom.value
  }

  predicate ToMatches(f: LeadFilters, r: LeadRecord)
  {
    f.dateTo.Some? ==> r.attrs.submittedAt.Some? && Day(r.attrs.submittedAt.value) <= f.dateTo.value
  }

  predicate SearchMatches(json: Value -> string, f: LeadFilters, r: LeadRecord)
  {
    Filled(f.search) ==>
      Contains(json(r.attrs.formData), f.search.value) || Contains(r.attrs.formName, f.search.value)
  }

  /** Every filled filter holds of the row. */
  predicate MatchesFilters(json: Value -> string, f: LeadFilters, r: LeadRecord)
  {
    SiteMatches(f, r) && StatusMatches(f, r) && FromMatches(f, r) && ToMatches(f, r) && SearchMatches(json, f, r)
  }

  predicate HoldsAll(json: Value -> string, cs: seq<Condition>, r: LeadRecord)
  {
    forall i :: 0 <= i < |cs| ==> Holds(json, cs[i], r)
  }

  /** The conditions index() adds hold exactly when every filled filter holds. */
  lemma ConditionsMeanFilters(json: Value -> string, f: LeadFilters, r: LeadRecord)
    ensures HoldsAll(json, Conditions(f), r) <==> MatchesFilters(json, f, r)
  {
    var a, b, c, d, e := SiteCondition(f), StatusCondition(f), FromCondition(f), ToCondition(f), SearchCondition(f);
    assert HoldsAll(json, a, r) <==> SiteMatches(f, r) by {
      HoldsAllOptional(json, f.siteId.Some?, SiteIs(if f.siteId.Some? then f.siteId.value else 0), r);
    }
    assert HoldsAll(json, b, r) <==> StatusMatches(f, r) by {
      HoldsAllOptional(json, Filled(f.status), StatusIs(if f.status.Some? then f.status.value else []), r);
    }
    assert HoldsAll(json, c, r) <==> FromMatches(f, r) by {
      HoldsAllOptional(json, f.dateFrom.Some?, DayFrom(if f.dateFrom.Some? then f.dateFrom.value else 0), r);
    }
    assert HoldsAll(json, d, r) <==> ToMatches(f, r) by {
      HoldsAllOptional(json, f.dateTo.Some?, DayTo(if f.dateTo.Some? then f.dateTo.value else 0), r);
    }
    assert HoldsAll(json, e, r) <==> SearchMatches(json, f, r) by {
      HoldsAllOptional(json, Filled(f.search), SearchFor(if f.search.Some? then f.search.value else []), r);
    }
    HoldsAllConcat(json, a, b, r);
    HoldsAllConcat(json, a + b, c, r);
    HoldsAllConcat(json, a + b + c, d, r);
    HoldsAllConcat(json, a + b + c + d, e, r);
  }

  lemma HoldsAllOptional(json: Value -> string, present: bool, c: Condition, r: LeadRecord)
    ensures HoldsAll(json, if present then [c] else [], r) <==> (present ==> Holds(json, c, r))
  {
    if present {
      assert [c][0] == c;
    }
  }

  lemma HoldsAllConcat(json: Value -> string, xs: seq<Condition>, ys: seq<Condition>, r: LeadRecord)
    ensures HoldsAll(json, xs + ys, r) <==> HoldsAll(json, xs, r) && HoldsAll(json, ys, r)
  {
    if HoldsAll(json, xs, r) && HoldsAll(json, ys, r) {
      forall i | 0 <= i < |xs + ys| ensures Holds(json, (xs + ys)[i], r) {
        if i >= |xs| {
          assert (xs + ys)[i] == ys[i - |xs|];
        }
      }
    }
    if HoldsAll(json, xs + ys, r) {
      forall i | 0 <= i < |xs| ensures Holds(json, xs[i], r) {
        assert (xs + ys)[i] == xs[i];
      }
      forall i | 0 <= i < |ys| ensures Holds(json, ys[i], r) {
        assert (xs + ys)[|xs| + i] == ys[i];
      }
    }
  }

  /** `$query->where(c)`: the rows satisfying c, in their order. */
  function Where(json: Value -> string, rows: seq<LeadRecord>, c: Condition): (r: seq<LeadRecord>)
    ensures |r| <= |rows|
    ensures forall x :: x in r <==> x in rows && Holds(json, c, x)
    ensures forall x :: multiset(r)[x] == if Holds(json, c, x) then multiset(rows)[x] else 0
    decreases |rows|
  {
    if |rows| == 0 then []
    else
      var rest := Where(json, rows[1..], c);
      assert forall x :: x in rows <==> x == rows[0] || x in rows[1..];
      assert rows == [rows[0]] + rows[1..];
      if Holds(json, c, rows[0]) then [rows[0]] + rest else rest
  }

  /** The rows satisfying all of cs at once, in their order. */
  function WhereAll(json: Value -> string, rows: seq<LeadRecord>, cs: seq<Condition>): (r: seq<LeadRecord>)
    ensures forall x :: x in r <==> x in rows && HoldsAll(json, cs, x)
    ensures forall x :: multiset(r)[x] == if HoldsAll(json, cs, x) then multiset(rows)[x] else 0
    decreases |rows|
  {
    if |rows| == 0 then []
    else
      var rest := WhereAll(json, rows[1..], cs);
      assert forall x :: x in rows <==> x == rows[0] || x in rows[1..];
      assert rows == [rows[0]] + rows[1..];
      if HoldsAll(json, cs, rows[0]) then [rows[0]] + rest else rest
  }

  /** The query builder after each `where` in turn. */
  function Query(json: Value -> string, rows: seq<LeadRecord>, cs: seq<Condition>): seq<LeadRecord>
    decreases |cs|
  {
    if |cs| == 0 then rows else Query(json, Where(json, rows, cs[0]), cs[1..])
  }

  lemma {:induction false} WhereAllOfWhere(json: Value -> string, rows: seq<LeadRecord>, c: Condition, cs: seq<Condition>)
    ensures WhereAll(json, Where(json, rows, c), cs) == WhereAll(json, rows, [c] + cs)
    decreases |rows|
  {
    if |rows| > 0 {
      WhereAllOfWhere(json, rows[1..], c, cs);
      HoldsAllConcat(json, [c], cs, rows[0]);
      HoldsAllOptional(json, true, c, rows[0]);
      var tail := Where(json, rows[1..], c);
      if Holds(json, c, rows[0]) {
        assert Where(json, rows, c) == [rows[0]] + tail;
        assert ([rows[0]] + tail)[0] == rows[0];
        assert ([rows[0]] + tail)[1..] == tail;
      } else {
        assert Where(json, rows, c) == tail;
      }
    }
  }

  lemma WhereAllNothing(json: Value -> string, rows: seq<LeadRecord>)
    ensures WhereAll(json, rows, []) == rows
    decreases |rows|
  {
    if |rows| > 0 {
      WhereAllNothing(json, rows[1..]);
    }
  }

  /** Chaining the `where` calls one by one is the same as filtering by their conjunction. */
  lemma {:induction false} QueryIsConjunction(json: Value -> string, rows: seq<LeadRecord>, cs: seq<Condition>)
    ensures Query(json, rows, cs) == WhereAll(json, rows, cs)
    decreases |cs|
  {
    if |cs| == 0 {
      WhereAllNothing(json, rows);
    } else {
      QueryIsConjunction(json, Where(json, rows, cs[0]), cs[1..]);
      WhereAllOfWhere(json, rows, cs[0], cs[1..]);
      assert [cs[0]] + cs[1..] == cs;
    }
  }

  // ------------------------------------------------------------- ordering

  /** a may come before b under ORDER BY submitted_at DESC (NULL is the oldest). */
  predicate NewerOrSame(a: LeadRecord, b: LeadRecord)
  {
    b.attrs.submittedAt.None? ||
    (a.attrs.submittedAt.Some? && a.attrs.submittedAt.value >= b.attrs.submittedAt.value)
  }

  predicate NewestFirst(rows: seq<LeadRecord>)
  {
    forall i, j :: 0 <= i < j < |rows| ==> NewerOrSame(rows[i], rows[j])
  }

  function InsertNewestFirst(x: LeadRecord, sorted: seq<LeadRecord>): (r: seq<LeadRecord>)
    requires NewestFirst(sorted)
    ensures NewestFirst(r)
    ensures multiset(r) == multiset(sorted) + multiset{x}
    ensures |r| > 0 && (r[0] == x || (|sorted| > 0 && r[0] == sorted[0]))
    decreases |sorted|
  {
    if |sorted| == 0 then [x]
    else if NewerOrSame(x, sorted[0]) then
      [x] + sorted
    else
      var rest := InsertNewestFirst(x, sorted[1..]);
      assert sorted == [sorted[0]] + sorted[1..];
      [sorted[0]] + rest
  }

  /** `orderBy('submitted_at', 'desc')`: newest first, same rows (ties keep table order). */
  function SortNewestFirst(rows: seq<LeadRecord>): (r: seq<LeadRecord>)
    ensures NewestFirst(r)
    ensures multiset(r) == multiset(rows)
    decreases |rows|
  {
    if |rows| == 0 then []
    else
      assert rows == [rows[0]] + rows[1..];
      InsertNewestFirst(rows[0], SortNewestFirst(rows[1..]))
  }

  // ------------------------------------------------------------ pagination

  /** `paginate(15)`: the rows of page `page` (a page below 1 reads as page 1). */
  function Page(rows: seq<LeadRecord>, page: int): (r: seq<LeadRecord>)
    ensures |r| <= PageSize
    ensures forall x :: x in r ==> x in rows
    ensures NewestFirst(rows) ==> NewestFirst(r)
    ensures var p := if page < 1 then 1 else page;
            (p - 1) * PageSize <= |rows| ==> r == rows[(p - 1) * PageSize .. if p * PageSize <= |rows| then p * PageSize else |rows|]
    ensures var p := if page < 1 then 1 else page;
            (p - 1) * PageSize > |rows| ==> r == []
  {
    var p := if page < 1 then 1 else page;
    var start := (p - 1) * PageSize;
    if start > |rows| then []
    else
      var stop := if p * PageSize <= |rows| then p * PageSize else |rows|;
      assert forall i :: 0 <= i < stop - start ==> rows[start..stop][i] == rows[start + i];
      rows[start..stop]
  }

  /** Each row is on exactly one page: row i is item i % 15 of page i / 15 + 1. */
  lemma RowIsOnItsPage(rows: seq<LeadRecord>, i: nat)
    requires i < |rows|
    ensures i % PageSize < |Page(rows, i / PageSize + 1)|
    ensures Page(rows, i / PageSize + 1)[i % PageSize] == rows[i]
  {
    var p := i / PageSize + 1;
    assert (p - 1) * PageSize <= i < p * PageSize;
  }

  /** LeadController::index: filter, order newest first, take one page. */
  function Index(json: Value -> string, f: LeadFilters, rows: seq<LeadRecord>, page: int): (r: seq<LeadRecord>)
    ensures |r| <= PageSize
    ensures NewestFirst(r)
    ensures forall x :: x in r ==> x in rows && MatchesFilters(json, f, x)
  {
    var matching := Query(json, rows, Conditions(f));
    var sorted := SortNewestFirst(matching);
    assert forall x :: x in sorted ==> x in rows && MatchesFilters(json, f, x) by {
      QueryIsConjunction(json, rows, Conditions(f));
      forall x | x in sorted ensures x in rows && MatchesFilters(json, f, x) {
        assert x in multiset(sorted);
        ConditionsMeanFilters(json, f, x);
      }
    }
    Page(sorted, page)
  }

  /**
   * All the filtered rows, across all pages: exactly the rows matching
   * every filled filter, each as often as in the table, newest first.
   */
  lemma AllPagesAreTheMatchingRows(json: Value -> string, f: LeadFilters, rows: seq<LeadRecord>)
    ensures var all := SortNewestFirst(Query(json, rows, Conditions(f)));
      NewestFirst(all) && multiset(all) == multiset(WhereAll(json, rows, Conditions(f))) &&
      (forall x :: x in all <==> x in rows && MatchesFilters(json, f, x)) &&
      forall x :: multiset(all)[x] == if MatchesFilters(json, f, x) then multiset(rows)[x] else 0
  {
    QueryIsConjunction(json, rows, Conditions(f));
    var all := SortNewestFirst(Query(json, rows, Conditions(f)));
    forall x ensures x in all <==> x in rows && MatchesFilters(json, f, x) {
      assert x in all <==> x in multiset(all);
      ConditionsMeanFilters(json, f, x);
    }
    forall x ensures multiset(all)[x] == if MatchesFilters(json, f, x) then multiset(rows)[x] else 0 {
      ConditionsMeanFilters(json, f, x);
    }
  }

  /** With no filter filled, the list is the whole table. */
  lemma NoFilterRestricts(json: Value -> string, rows: seq<LeadRecord>)
    ensures Query(json, rows, Conditions(NoFilters)) == rows
  {
  }

  // ------------------------------------------------------------------ update

  /** The `in:` list of the update rule. */
  const StatusWhitelist: set<string> := {"new", "contacted", "converted"}

  /** The update whitelist is exactly the set of LeadStatus backing values. */
  lemma WhitelistIsLeadStatusValues()
    ensures StatusWhitelist == AllValues
    ensures forall s :: s in StatusWhitelist <==> TryFrom(s).Some?
  {
  }

  /** `status`: required, string, in:new,contacted,converted. */
  predicate StatusAcceptable(v: Option<Value>)
  {
    v.Some? && IsPresentValue(v.value) && v.value.Str? && v.value.s in StatusWhitelist
  }

  datatype UpdateOutcome = NotFound | InvalidStatus | StatusUpdated

  /**
   * LeadController::update: a missing lead is a 404 (route model binding
   * runs first); a status outside the whitelist is a validation error; an
   * accepted status replaces the lead's status and nothing else.
   */
  method UpdateStatus(store: LeadStore, id: nat, status: Option<Value>) returns (outcome: UpdateOutcome)
    requires store.Valid()
    modifies store`rows
    ensures store.Valid()
    ensures old(store.Find(id)).None? ==> outcome == NotFound && store.rows == old(store.rows)
    ensures old(store.Find(id)).Some? && !StatusAcceptable(status) ==>
      outcome == InvalidStatus && store.rows == old(store.rows)
    ensures old(store.Find(id)).Some? && StatusAcceptable(status) ==>
      var i := old(store.Find(id)).value;
      outcome == StatusUpdated &&
      store.rows == old(store.rows)[i := old(store.rows)[i].(attrs := old(store.rows)[i].attrs.(status := status.value.s))]
  {
    var found := store.Find(id);
    if found.None? {
      return NotFound;
    }
    if !StatusAcceptable(status) {
      return InvalidStatus;
    }
    var i := found.value;
    store.SetStatus(i, status.value.s);
    outcome := StatusUpdated;
  }
}

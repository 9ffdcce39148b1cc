/** What `list_orders` promises, proved about the specification functions of
    module Orders. The rows are compared with an independent reference: of
    all records read, in fetch order, the first admitted record for each id
    (`Kept` of module FirstWins under `AdmittedKey`). From that follow the absence of duplicate ids,
    the date window, completeness and the order of rows; the page log gives
    the bound on requests and the stopping rules. */
module OrderFacts {
  import opened PyJson
  import opened Dates
  import opened Text
  import opened Envelope
  import opened Orders
  import opened FirstWins

  // ----- The reference: the first admitted record of each id -----

  /** The key under which `list_orders` deduplicates a record: the set key
      of its id, for a record the checks before `oid in seen` let through;
      none for any other record. */
  function AdmittedKey(w: Window): Json -> Option<Json> {
    (o: Json) => if Admit(o, w).Admitted? then Some(Key(Get(o, "id"))) else None
  }

  /** The row `row` is what the loop builds for record `o`. */
  predicate Built(o: Json, w: Window, row: Row) {
    Admit(o, w).Admitted? && BuildRow(o, Admit(o, w).id) == Keep(row)
  }

  /** `rows` are the rows built for the first admitted records of `P`, one
      for one and in the order of `P`. */
  predicate RowsMatch(P: seq<Json>, w: Window, rows: seq<Row>) {
    |rows| == |Kept(P, AdmittedKey(w))|
    && forall k :: 0 <= k < |rows| ==> Built(Kept(P, AdmittedKey(w))[k], w, rows[k])
  }

  /** The loop state after reading the records `P`: `seen` holds the keys
      of every admitted record, and `rows` match the reference. */
  predicate Corresponds(P: seq<Json>, w: Window, rows: seq<Row>, seen: set<Json>) {
    seen == Keys(P, AdmittedKey(w)) && RowsMatch(P, w, rows)
  }

  /** One more record read keeps the loop state in step with the reference. */
  lemma {:induction false} CorrespondsStep(P: seq<Json>, x: Json, w: Window, rows: seq<Row>, seen: set<Json>)
    requires Corresponds(P, w, rows, seen)
    requires !ProcessItem(x, w, seen).Fail?
    ensures ProcessItem(x, w, seen).Skip? ==> Corresponds(P + [x], w, rows, seen)
    ensures ProcessItem(x, w, seen).Keep? ==>
      Corresponds(P + [x], w, rows + [ProcessItem(x, w, seen).row],
                  seen + {Key(ProcessItem(x, w, seen).row.orderId)})
  {
    var st := ProcessItem(x, w, seen);
    if st.Keep? {
      CorrespondsKeep(P, x, w, rows, seen, st.row);
    } else {
      CorrespondsSkip(P, x, w, rows, seen);
    }
  }

  /** A kept record appends its row and its key. */
  lemma CorrespondsKeep(P: seq<Json>, x: Json, w: Window, rows: seq<Row>, seen: set<Json>, row: Row)
    requires Corresponds(P, w, rows, seen)
    requires ProcessItem(x, w, seen) == Keep(row)
    ensures Corresponds(P + [x], w, rows + [row], seen + {Key(row.orderId)})
  {
    var key := AdmittedKey(w);
    KeptSnoc(P, x, key);
    assert key(x) == Some(Key(row.orderId));
    assert Built(x, w, row);
    var rows' := rows + [row];
    assert Kept(P + [x], key) == Kept(P, key) + [x];
    forall k | 0 <= k < |rows'|
      ensures Built(Kept(P + [x], key)[k], w, rows'[k])
    {
      if k < |rows| {
        assert Kept(P + [x], key)[k] == Kept(P, key)[k];
      }
    }
  }

  /** A skipped record changes neither the rows nor the keys seen. */
  lemma CorrespondsSkip(P: seq<Json>, x: Json, w: Window, rows: seq<Row>, seen: set<Json>)
    requires Corresponds(P, w, rows, seen)
    requires ProcessItem(x, w, seen) == Skip
    ensures Corresponds(P + [x], w, rows, seen)
  {
    var key := AdmittedKey(w);
    KeptSnoc(P, x, key);
    assert key(x).Some? ==> key(x).value in seen;
    assert Kept(P + [x], key) == Kept(P, key);
  }

  /** The inner loop over a page keeps the loop state in step with the
      reference, from any state that was. */
  lemma {:induction false} ProcessItemsCorresponds(P: seq<Json>, Q: seq<Json>, w: Window, rows: seq<Row>, seen: set<Json>)
    requires Corresponds(P, w, rows, seen)
    ensures ProcessItems(Q, w, rows, seen).PageDone? ==>
      Corresponds(P + Q, w, ProcessItems(Q, w, rows, seen).rows, ProcessItems(Q, w, rows, seen).seen)
    decreases |Q|
  {
    if Q == [] {
      assert P + Q == P;
    } else {
      var st := ProcessItem(Q[0], w, seen);
      assert P + Q == (P + [Q[0]]) + Q[1..];
      if !st.Fail? {
        CorrespondsStep(P, Q[0], w, rows, seen);
        if st.Skip? {
          assert ProcessItems(Q, w, rows, seen) == ProcessItems(Q[1..], w, rows, seen);
          ProcessItemsCorresponds(P + [Q[0]], Q[1..], w, rows, seen);
        } else {
          assert ProcessItems(Q, w, rows, seen) == ProcessItems(Q[1..], w, rows + [st.row], seen + {Key(st.row.orderId)});
          ProcessItemsCorresponds(P + [Q[0]], Q[1..], w, rows + [st.row], seen + {Key(st.row.orderId)});
        }
      }
    }
  }

  // ----- Pages read -----

  /** The records of pages 1 to `n`, in fetch order. */
  function Fetched(upstream: int -> Response, n: int): seq<Json>
    decreases n
  {
    if n <= 0 then [] else Fetched(upstream, n - 1) + UnwrapList(upstream(n).body)
  }

  /** The state before requesting `page`: the records of the pages before
      it have been read, and the rows and `seen` are in step with them. */
  predicate InStep(upstream: int -> Response, w: Window, page: int,
                   rows: seq<Row>, seen: set<Json>, processed: seq<Json>, log: seq<PageLog>) {
    page >= 1 && |log| == page - 1
    && processed == Fetched(upstream, page - 1) && Corresponds(processed, w, rows, seen)
  }

  /** A listing holds the rows of the reference over every record of the
      pages it requested. */
  predicate RowsExplained(upstream: int -> Response, w: Window, r: Walked) {
    r.reply.Listed? ==> r.processed == Fetched(upstream, |r.log|) && RowsMatch(r.processed, w, r.reply.rows)
  }

  /** One page visit, from a state in step with the reference, either
      leaves it in step for the next page or ends the walk with rows the
      reference explains. */
  lemma VisitRows(upstream: int -> Response, w: Window, pageSize: int, page: int,
                  rows: seq<Row>, seen: set<Json>, processed: seq<Json>, log: seq<PageLog>)
    requires InStep(upstream, w, page, rows, seen, processed, log)
    ensures var v := VisitPage(upstream, w, pageSize, page, rows, seen, processed, log);
      (v.Next? ==> InStep(upstream, w, page + 1, v.rows, v.seen, v.processed, v.log))
      && (v.Stop? ==> RowsExplained(upstream, w, v.result))
  {
    PageCorresponds(upstream, w, page, rows, seen, processed);
    var v := VisitPage(upstream, w, pageSize, page, rows, seen, processed, log);
    var resp := upstream(page);
    var items := UnwrapList(resp.body);
    if !Ok(resp.status) {
      assert v.Stop? && v.result.reply.HttpError?;
    } else if items == [] {
      assert v.Stop? && v.result.reply == Listed(rows) && v.result.processed == processed && |v.result.log| == page;
      assert processed + items == processed;
    } else {
      match ProcessItems(items, w, rows, seen)
      case PageFault(f) =>
        assert v.Stop? && v.result.reply.Crashed?;
      case PageDone(rows', seen') =>
        assert v.Next? ==> v.rows == rows' && v.seen == seen' && v.processed == processed + items && |v.log| == page;
        assert v.Stop? ==> v.result.reply == Listed(rows') && v.result.processed == processed + items
                           && |v.result.log| == page;
    }
  }

  /** Reading page `page` in full, from a state in step with the pages
      before it, leaves the loop state in step with the pages up to it. */
  lemma PageCorresponds(upstream: int -> Response, w: Window, page: int,
                        rows: seq<Row>, seen: set<Json>, processed: seq<Json>)
    requires page >= 1 && processed == Fetched(upstream, page - 1) && Corresponds(processed, w, rows, seen)
    ensures Fetched(upstream, page) == processed + UnwrapList(upstream(page).body)
    ensures var r := ProcessItems(UnwrapList(upstream(page).body), w, rows, seen);
      r.PageDone? ==> Corresponds(Fetched(upstream, page), w, r.rows, r.seen)
  {
    ProcessItemsCorresponds(processed, UnwrapList(upstream(page).body), w, rows, seen);
  }

  lemma {:induction false} WalkRows(upstream: int -> Response, w: Window, pageSize: int, maxPages: int, page: int,
                                    rows: seq<Row>, seen: set<Json>, processed: seq<Json>, log: seq<PageLog>)
    requires InStep(upstream, w, page, rows, seen, processed, log)
    ensures RowsExplained(upstream, w, Walk(upstream, w, pageSize, maxPages, page, rows, seen, processed, log))
    decreases if page <= maxPages then maxPages - page + 1 else 0
  {
    if page <= maxPages {
      VisitRows(upstream, w, pageSize, page, rows, seen, processed, log);
      var v := VisitPage(upstream, w, pageSize, page, rows, seen, processed, log);
      if v.Next? {
        WalkRows(upstream, w, pageSize, maxPages, page + 1, v.rows, v.seen, v.processed, v.log);
      }
    }
  }

  // ----- The page log -----

  /** Entry `i` of the log is page `i + 1`, with the status the upstream
      answered and, for an accepted status, the number of records unwrapped. */
  predicate Requested(upstream: int -> Response, log: seq<PageLog>) {
    forall i :: 0 <= i < |log| ==>
      log[i].page == i + 1 && log[i].status == upstream(i + 1).status
      && (Ok(log[i].status) ==> log[i].count == |UnwrapList(upstream(i + 1).body)|)
  }

  /** A page after which the walk goes on: accepted, not empty, at least one
      row appended, and at least `pageSize` records. */
  predicate Continued(e: PageLog, pageSize: int) {
    Ok(e.status) && e.count > 0 && e.added > 0 && e.count >= pageSize
  }

  /** A page after which the walk stops: empty, no row appended, or short. */
  predicate Stopped(e: PageLog, pageSize: int) {
    e.count == 0 || e.added == 0 || e.count < pageSize
  }

  /** Total of `added_this_page` over the log. */
  function SumAdded(log: seq<PageLog>): int
    decreases |log|
  {
    if log == [] then 0 else SumAdded(log[..|log| - 1]) + log[|log| - 1].added
  }

  /** `len(range(1, max_pages + 1))`. */
  function PageBudget(maxPages: int): nat {
    if maxPages < 0 then 0 else maxPages
  }

  /** Appending the entry of the next page keeps the log well formed and
      adds its rows to the total. */
  lemma AppendEntry(upstream: int -> Response, log: seq<PageLog>, e: PageLog)
    requires Requested(upstream, log)
    requires e.page == |log| + 1 && e.status == upstream(e.page).status
    requires Ok(e.status) ==> e.count == |UnwrapList(upstream(e.page).body)|
    ensures Requested(upstream, log + [e])
    ensures SumAdded(log + [e]) == SumAdded(log) + e.added
    ensures (log + [e])[..|log|] == log && (log + [e])[|log|] == e
  {
    var L := log + [e];
    assert L[..|L| - 1] == log;
    forall i | 0 <= i < |L|
      ensures L[i].page == i + 1 && L[i].status == upstream(i + 1).status
              && (Ok(L[i].status) ==> L[i].count == |UnwrapList(upstream(i + 1).body)|)
    {
      if i < |log| {
        assert L[i] == log[i];
      }
    }
  }

  /** What the log and the reply of a finished walk say about the pages
      requested. */
  predicate LogExplains(upstream: int -> Response, pageSize: int, maxPages: int, r: Walked) {
    |r.log| <= PageBudget(maxPages)
    && Requested(upstream, r.log)
    && (forall i :: 0 <= i < |r.log| - 1 ==> Continued(r.log[i], pageSize))
    && (r.reply.Listed? ==> SumAdded(r.log) == |r.reply.rows|)
    && (r.reply.Listed? && |r.log| < maxPages ==> |r.log| > 0 && Stopped(r.log[|r.log| - 1], pageSize))
    && (r.reply.HttpError? ==> r.reply.page == |r.log| && r.reply.pageSize == pageSize
                               && r.reply.status == upstream(r.reply.page).status && !Ok(r.reply.status))
    && (|r.log| > 0 && !Ok(r.log[|r.log| - 1].status) ==> r.reply.HttpError?)
  }

  /** The state before requesting `page`: one continued entry for each
      page before it, whose appended rows add up to `rows`. */
  predicate ReadyFor(upstream: int -> Response, pageSize: int, maxPages: int, page: int,
                     rows: seq<Row>, log: seq<PageLog>) {
    page >= 1 && |log| == page - 1 && |log| <= PageBudget(maxPages)
    && Requested(upstream, log)
    && (forall i :: 0 <= i < |log| ==> Continued(log[i], pageSize))
    && SumAdded(log) == |rows|
  }

  /** A continued page leaves the walk ready for the next one. */
  lemma ContinueWith(upstream: int -> Response, pageSize: int, maxPages: int, page: int,
                     rows: seq<Row>, log: seq<PageLog>, rows': seq<Row>, e: PageLog)
    requires ReadyFor(upstream, pageSize, maxPages, page, rows, log) && page <= maxPages
    requires e.page == page && e.status == upstream(page).status
    requires Ok(e.status) ==> e.count == |UnwrapList(upstream(page).body)|
    requires Continued(e, pageSize) && |rows'| == |rows| + e.added
    ensures ReadyFor(upstream, pageSize, maxPages, page + 1, rows', log + [e])
  {
    AppendEntry(upstream, log, e);
    assert forall i :: 0 <= i < |log| ==> (log + [e])[i] == log[i];
  }

  /** A page after which the walk ends explains the walk's reply. */
  lemma StopWith(upstream: int -> Response, pageSize: int, maxPages: int, page: int,
                 rows: seq<Row>, log: seq<PageLog>, e: PageLog, r: Walked)
    requires ReadyFor(upstream, pageSize, maxPages, page, rows, log) && page <= maxPages
    requires e.page == page && e.status == upstream(page).status
    requires Ok(e.status) ==> e.count == |UnwrapList(upstream(page).body)|
    requires r.log == log + [e]
    requires r.reply.Listed? ==> Stopped(e, pageSize) && |r.reply.rows| == |rows| + e.added
    requires r.reply.HttpError? ==> r.reply == HttpError(e.status, page, pageSize) && !Ok(e.status)
    requires !Ok(e.status) ==> r.reply.HttpError?
    ensures LogExplains(upstream, pageSize, maxPages, r)
  {
    AppendEntry(upstream, log, e);
    assert forall i :: 0 <= i < |log| ==> r.log[i] == log[i];
  }

  /** One page visit appends one log entry for the page requested, and
      either leaves the walk ready for the next page or ends it with a
      reply its log explains. */
  lemma VisitLog(upstream: int -> Response, w: Window, pageSize: int, maxPages: int, page: int,
                 rows: seq<Row>, seen: set<Json>, processed: seq<Json>, log: seq<PageLog>)
    requires ReadyFor(upstream, pageSize, maxPages, page, rows, log) && page <= maxPages
    ensures var v := VisitPage(upstream, w, pageSize, page, rows, seen, processed, log);
      (v.Next? ==> ReadyFor(upstream, pageSize, maxPages, page + 1, v.rows, v.log))
      && (v.Stop? ==> LogExplains(upstream, pageSize, maxPages, v.result))
  {
    var v := VisitPage(upstream, w, pageSize, page, rows, seen, processed, log);
    var resp := upstream(page);
    if !Ok(resp.status) {
      assert v == Stop(Walked(HttpError(resp.status, page, pageSize), log + [PageLog(page, resp.status, 0, 0)], processed));
      StopWith(upstream, pageSize, maxPages, page, rows, log, PageLog(page, resp.status, 0, 0), v.result);
    } else {
      var items := UnwrapList(resp.body);
      if items == [] {
        assert v == Stop(Walked(Listed(rows), log + [PageLog(page, resp.status, 0, 0)], processed));
        StopWith(upstream, pageSize, maxPages, page, rows, log, PageLog(page, resp.status, 0, 0), v.result);
      } else {
        match ProcessItems(items, w, rows, seen)
        case PageFault(f) =>
          assert v == Stop(Walked(Crashed(f), log + [PageLog(page, resp.status, |items|, 0)], processed + items));
          StopWith(upstream, pageSize, maxPages, page, rows, log, PageLog(page, resp.status, |items|, 0), v.result);
        case PageDone(rows', seen') =>
          var e := PageLog(page, resp.status, |items|, |rows'| - |rows|);
          assert v.Next? ==> v.rows == rows' && v.log == log + [e];
          assert v.Stop? ==> v.result.log == log + [e] && v.result.reply == Listed(rows') && Stopped(e, pageSize);
          if v.Next? {
            ContinueWith(upstream, pageSize, maxPages, page, rows, log, rows', e);
          } else {
            StopWith(upstream, pageSize, maxPages, page, rows, log, e, v.result);
          }
      }
    }
  }

  lemma {:induction false} WalkLog(upstream: int -> Response, w: Window, pageSize: int, maxPages: int, page: int,
                                   rows: seq<Row>, seen: set<Json>, processed: seq<Json>, log: seq<PageLog>)
    requires ReadyFor(upstream, pageSize, maxPages, page, rows, log)
    ensures LogExplains(upstream, pageSize, maxPages, Walk(upstream, w, pageSize, maxPages, page, rows, seen, processed, log))
    decreases if page <= maxPages then maxPages - page + 1 else 0
  {
    if page <= maxPages {
      VisitLog(upstream, w, pageSize, maxPages, page, rows, seen, processed, log);
      var v := VisitPage(upstream, w, pageSize, page, rows, seen, processed, log);
      if v.Next? {
        WalkLog(upstream, w, pageSize, maxPages, page + 1, v.rows, v.seen, v.processed, v.log);
      }
    }
  }

  // ----- What `list_orders` promises -----

  /** The requests: none without a token; otherwise pages 1, 2, ... in order,
      at most `max_pages` of them; every page but the last was accepted, not
      empty, full and productive; a listing that ended before `max_pages`
      ended on an empty, unproductive or short page; an error names the
      rejected page and its status; the rows number the total appended. */
  lemma ListOrdersPages(hasToken: bool, upstream: int -> Response, w: Window, pageSize: int, maxPages: int)
    ensures var r := ListOrdersSpec(hasToken, upstream, w, pageSize, maxPages);
      (!hasToken ==> r.reply == MissingToken && r.log == [])
      && LogExplains(upstream, pageSize, maxPages, r)
  {
    if hasToken {
      WalkLog(upstream, w, pageSize, maxPages, 1, [], {}, [], []);
    }
  }

  /** The status test `_ok` decides whether a page is read: a listing or a
      crash comes only from pages whose status was accepted, and a page
      whose status is rejected is the last one requested and is named,
      with its status, by the error reply. */
  lemma ListOrdersStatuses(hasToken: bool, upstream: int -> Response, w: Window, pageSize: int, maxPages: int)
    ensures var r := ListOrdersSpec(hasToken, upstream, w, pageSize, maxPages);
      (forall i :: 0 <= i < |r.log| ==> r.log[i].page == i + 1 && r.log[i].status == upstream(i + 1).status)
      && (r.reply.Listed? || r.reply.Crashed? ==> forall i :: 0 <= i < |r.log| ==> Ok(r.log[i].status))
      && (forall i :: 0 <= i < |r.log| && !Ok(r.log[i].status) ==>
            i == |r.log| - 1 && r.reply == HttpError(r.log[i].status, i + 1, pageSize))
  {
    var r := ListOrdersSpec(hasToken, upstream, w, pageSize, maxPages);
    ListOrdersPages(hasToken, upstream, w, pageSize, maxPages);
    forall i | 0 <= i < |r.log| - 1
      ensures Ok(r.log[i].status)
    {
      assert Continued(r.log[i], pageSize);
    }
  }

  /** At most `max_pages` requests, whatever the upstream answers. */
  lemma ListOrdersBudget(hasToken: bool, upstream: int -> Response, w: Window, pageSize: int, maxPages: int)
    ensures |ListOrdersSpec(hasToken, upstream, w, pageSize, maxPages).log| <= PageBudget(maxPages)
  {
    ListOrdersPages(hasToken, upstream, w, pageSize, maxPages);
  }

  /** A listing's rows are the rows built for the first admitted record of
      each id among all records of the pages requested, in fetch order. */
  lemma ListOrdersRows(hasToken: bool, upstream: int -> Response, w: Window, pageSize: int, maxPages: int)
    ensures var r := ListOrdersSpec(hasToken, upstream, w, pageSize, maxPages);
      r.reply.Listed? ==> r.processed == Fetched(upstream, |r.log|) && RowsMatch(r.processed, w, r.reply.rows)
  {
    if hasToken {
      WalkRows(upstream, w, pageSize, maxPages, 1, [], {}, [], []);
    }
  }

  /** A built row carries the record's id, and the record's key is the
      row's. */
  lemma BuiltKey(o: Json, w: Window, row: Row)
    requires Built(o, w, row)
    ensures row.orderId == Get(o, "id") && AdmittedKey(w)(o) == Some(Key(row.orderId))
  {
  }

  /** A listing never holds two rows whose ids are the same set element. */
  lemma ListedDistinctIds(hasToken: bool, upstream: int -> Response, w: Window, pageSize: int, maxPages: int)
    ensures var r := ListOrdersSpec(hasToken, upstream, w, pageSize, maxPages);
      r.reply.Listed? ==>
        forall a, b :: 0 <= a < b < |r.reply.rows| ==> Key(r.reply.rows[a].orderId) != Key(r.reply.rows[b].orderId)
  {
    var r := ListOrdersSpec(hasToken, upstream, w, pageSize, maxPages);
    ListOrdersRows(hasToken, upstream, w, pageSize, maxPages);
    if r.reply.Listed? {
      var rows, K := r.reply.rows, Kept(r.processed, AdmittedKey(w));
      KeptDistinct(r.processed, AdmittedKey(w));
      forall a, b | 0 <= a < b < |rows|
        ensures Key(rows[a].orderId) != Key(rows[b].orderId)
      {
        BuiltKey(K[a], w, rows[a]);
        BuiltKey(K[b], w, rows[b]);
      }
    }
  }

  /** Every listed row has a truthy, hashable id, a tracking code without
      surrounding whitespace or lower-case letters repeated as
      `trackingCode`, and a creation stamp whose date, when it has one,
      lies inside the window. */
  lemma ListedRowsWellFormed(hasToken: bool, upstream: int -> Response, w: Window, pageSize: int, maxPages: int)
    ensures var r := ListOrdersSpec(hasToken, upstream, w, pageSize, maxPages);
      r.reply.Listed? ==>
        forall k :: 0 <= k < |r.reply.rows| ==>
          var row := r.reply.rows[k];
          Truthy(row.orderId) && Hashable(row.orderId)
          && row.trackingCode == row.tracking && NormalTracking(row.tracking) == row.tracking
          && WindowAccepts(DateOfRaw(row.createdAt), w)
  {
    var r := ListOrdersSpec(hasToken, upstream, w, pageSize, maxPages);
    ListOrdersRows(hasToken, upstream, w, pageSize, maxPages);
    if r.reply.Listed? {
      var rows, K := r.reply.rows, Kept(r.processed, AdmittedKey(w));
      forall k | 0 <= k < |rows|
        ensures Truthy(rows[k].orderId) && Hashable(rows[k].orderId)
                && rows[k].trackingCode == rows[k].tracking && NormalTracking(rows[k].tracking) == rows[k].tracking
                && WindowAccepts(DateOfRaw(rows[k].createdAt), w)
      {
        assert Built(K[k], w, rows[k]);
        NormalTrackingIsNormal(Rastreio(K[k]).s);
      }
    }
  }

  /** `row` was built from a record of `P` that is the first admitted one
      of its id. */
  predicate FromFirst(P: seq<Json>, w: Window, row: Row) {
    exists j :: 0 <= j < |P| && IsFirst(P, j, AdmittedKey(w)) && Built(P[j], w, row)
  }

  /** Rows that match the reference come each from a record that is the
      first admitted one of its id. */
  lemma {:induction false} MatchedRowsAreFirsts(P: seq<Json>, w: Window, rows: seq<Row>)
    requires RowsMatch(P, w, rows)
    ensures forall k :: 0 <= k < |rows| ==> FromFirst(P, w, rows[k])
  {
    var K := Kept(P, AdmittedKey(w));
    KeptAreFirsts(P, AdmittedKey(w));
    forall k | 0 <= k < |rows|
      ensures FromFirst(P, w, rows[k])
    {
      assert IsFirstIn(P, K[k], AdmittedKey(w));
      var j :| 0 <= j < |P| && IsFirst(P, j, AdmittedKey(w)) && P[j] == K[k];
      assert Built(P[j], w, rows[k]);
    }
  }

  /** Every row comes from a record read that is the first admitted one of
      its id: later duplicates never replace it. */
  lemma ListedFirstWins(hasToken: bool, upstream: int -> Response, w: Window, pageSize: int, maxPages: int)
    ensures var r := ListOrdersSpec(hasToken, upstream, w, pageSize, maxPages);
      r.reply.Listed? ==> forall k :: 0 <= k < |r.reply.rows| ==> FromFirst(r.processed, w, r.reply.rows[k])
  {
    var r := ListOrdersSpec(hasToken, upstream, w, pageSize, maxPages);
    ListOrdersRows(hasToken, upstream, w, pageSize, maxPages);
    if r.reply.Listed? {
      MatchedRowsAreFirsts(r.processed, w, r.reply.rows);
    }
  }

  /** Every record read that passes the date window and has a truthy,
      hashable id is represented: some row has its id. */
  lemma ListedComplete(hasToken: bool, upstream: int -> Response, w: Window, pageSize: int, maxPages: int)
    ensures var r := ListOrdersSpec(hasToken, upstream, w, pageSize, maxPages);
      r.reply.Listed? ==>
        forall j :: 0 <= j < |r.processed| && Admit(r.processed[j], w).Admitted? ==>
          exists k :: 0 <= k < |r.reply.rows| && Key(r.reply.rows[k].orderId) == Key(Get(r.processed[j], "id"))
  {
    var r := ListOrdersSpec(hasToken, upstream, w, pageSize, maxPages);
    ListOrdersRows(hasToken, upstream, w, pageSize, maxPages);
    if r.reply.Listed? {
      var P, rows, key := r.processed, r.reply.rows, AdmittedKey(w);
      var K := Kept(P, key);
      KeptKeys(P, key);
      forall j | 0 <= j < |P| && Admit(P[j], w).Admitted?
        ensures exists k :: 0 <= k < |rows| && Key(rows[k].orderId) == Key(Get(P[j], "id"))
      {
        var id := Key(Get(P[j], "id"));
        assert key(P[j]) == Some(id);
        KeysMembership(P, key, id);
        KeysMembership(K, key, id);
        var k :| 0 <= k < |K| && key(K[k]) == Some(id);
        BuiltKey(K[k], w, rows[k]);
      }
    }
  }

  /** Reading a page only appends to what earlier pages read. */
  lemma {:induction false} FetchedPrefix(upstream: int -> Response, n: int, m: int)
    requires n <= m
    ensures Fetched(upstream, n) <= Fetched(upstream, m)
    decreases m - n
  {
    if n < m {
      FetchedPrefix(upstream, n, m - 1);
      if m > 0 {
        assert Fetched(upstream, m - 1) <= Fetched(upstream, m);
      }
    }
  }

  /** Rows appear in fetch order: the rows the first `n` pages contribute
      come first, ahead of every row from a later page. */
  lemma ListedInFetchOrder(hasToken: bool, upstream: int -> Response, w: Window, pageSize: int, maxPages: int)
    ensures var r := ListOrdersSpec(hasToken, upstream, w, pageSize, maxPages);
      r.reply.Listed? ==>
        forall n :: 0 <= n <= |r.log| ==>
          var E := Kept(Fetched(upstream, n), AdmittedKey(w));
          |E| <= |r.reply.rows| && RowsMatch(Fetched(upstream, n), w, r.reply.rows[..|E|])
  {
    var r := ListOrdersSpec(hasToken, upstream, w, pageSize, maxPages);
    ListOrdersRows(hasToken, upstream, w, pageSize, maxPages);
    if r.reply.Listed? {
      forall n | 0 <= n <= |r.log|
        ensures |Kept(Fetched(upstream, n), AdmittedKey(w))| <= |r.reply.rows|
                && RowsMatch(Fetched(upstream, n), w, r.reply.rows[..|Kept(Fetched(upstream, n), AdmittedKey(w))|])
      {
        FetchedPrefix(upstream, n, |r.log|);
        PrefixRowsMatch(Fetched(upstream, n), Fetched(upstream, |r.log|), w, r.reply.rows);
      }
    }
  }

  /** Rows that match the reference over `F` begin with the rows that
      match it over any prefix `G` of `F`. */
  lemma PrefixRowsMatch(G: seq<Json>, F: seq<Json>, w: Window, rows: seq<Row>)
    requires G <= F && RowsMatch(F, w, rows)
    ensures |Kept(G, AdmittedKey(w))| <= |rows| && RowsMatch(G, w, rows[..|Kept(G, AdmittedKey(w))|])
  {
    var key := AdmittedKey(w);
    assert F == G + F[|G|..];
    KeptPrefix(G, F[|G|..], key);
    var E := Kept(G, key);
    forall k | 0 <= k < |E|
      ensures Built(E[k], w, rows[..|E|][k])
    {
      assert E[k] == Kept(F, key)[k];
    }
  }

  // ----- Exceptions -----

  /** Record `o` raises `f` when the loop reaches its `frete` or earlier
      checks with it: one of the checks before `oid in seen` raises, or the
      row built for a new id does. */
  predicate Raises(o: Json, w: Window, f: Fault) {
    Admit(o, w) == Faulted(f) || (Admit(o, w).Admitted? && BuildRow(o, Admit(o, w).id) == Fail(f))
  }

  /** A record the loop can read whatever ids it has seen: no check raises
      on it, and an admitted one yields a row. */
  predicate Harmless(o: Json, w: Window) {
    !Admit(o, w).Faulted? && (Admit(o, w).Admitted? ==> BuildRow(o, Admit(o, w).id).Keep?)
  }

  /** A page `_ok` accepts whose every record is harmless. */
  predicate CleanPage(upstream: int -> Response, w: Window, n: int) {
    Ok(upstream(n).status)
    && forall k :: 0 <= k < |UnwrapList(upstream(n).body)| ==> Harmless(UnwrapList(upstream(n).body)[k], w)
  }

  /** No record of `P` makes the checks before `oid in seen` raise. */
  predicate Quiet(P: seq<Json>, w: Window) {
    forall j :: 0 <= j < |P| ==> !Admit(P[j], w).Faulted?
  }

  /** An exception in the inner loop is raised by one of the page's records. */
  lemma {:induction false} ProcessItemsRaises(Q: seq<Json>, w: Window, rows: seq<Row>, seen: set<Json>, f: Fault)
    requires ProcessItems(Q, w, rows, seen) == PageFault(f)
    ensures exists k :: 0 <= k < |Q| && Raises(Q[k], w, f)
    decreases |Q|
  {
    var st := ProcessItem(Q[0], w, seen);
    if st.Fail? {
      assert Raises(Q[0], w, f);
    } else {
      if st.Skip? {
        ProcessItemsRaises(Q[1..], w, rows, seen, f);
      } else {
        ProcessItemsRaises(Q[1..], w, rows + [st.row], seen + {Key(st.row.orderId)}, f);
      }
      var k :| 0 <= k < |Q[1..]| && Raises(Q[1..][k], w, f);
      assert Q[1..][k] == Q[k + 1];
    }
  }

  /** An inner loop that finishes met no record on which the checks before
      `oid in seen` raise. */
  lemma {:induction false} ProcessItemsQuiet(Q: seq<Json>, w: Window, rows: seq<Row>, seen: set<Json>)
    requires ProcessItems(Q, w, rows, seen).PageDone?
    ensures Quiet(Q, w)
    decreases |Q|
  {
    if Q != [] {
      var st := ProcessItem(Q[0], w, seen);
      if st.Skip? {
        assert ProcessItems(Q, w, rows, seen) == ProcessItems(Q[1..], w, rows, seen);
        ProcessItemsQuiet(Q[1..], w, rows, seen);
      } else {
        assert ProcessItems(Q, w, rows, seen) == ProcessItems(Q[1..], w, rows + [st.row], seen + {Key(st.row.orderId)});
        ProcessItemsQuiet(Q[1..], w, rows + [st.row], seen + {Key(st.row.orderId)});
      }
      forall j | 1 <= j < |Q|
        ensures !Admit(Q[j], w).Faulted?
      {
        assert Q[1..][j - 1] == Q[j];
      }
    }
  }

  /** The inner loop over harmless records finishes. */
  lemma {:induction false} ProcessItemsClean(Q: seq<Json>, w: Window, rows: seq<Row>, seen: set<Json>)
    requires forall k :: 0 <= k < |Q| ==> Harmless(Q[k], w)
    ensures ProcessItems(Q, w, rows, seen).PageDone?
    decreases |Q|
  {
    if Q != [] {
      assert Harmless(Q[0], w);
      var st := ProcessItem(Q[0], w, seen);
      assert forall k :: 0 <= k < |Q[1..]| ==> Q[1..][k] == Q[k + 1];
      if st.Skip? {
        ProcessItemsClean(Q[1..], w, rows, seen);
      } else {
        ProcessItemsClean(Q[1..], w, rows + [st.row], seen + {Key(st.row.orderId)});
      }
    }
  }

  /** Two quiet runs of records make a quiet run. */
  lemma QuietAppend(P: seq<Json>, Q: seq<Json>, w: Window)
    requires Quiet(P, w) && Quiet(Q, w)
    ensures Quiet(P + Q, w)
  {
    forall j | 0 <= j < |P + Q|
      ensures !Admit((P + Q)[j], w).Faulted?
    {
      if j >= |P| {
        assert (P + Q)[j] == Q[j - |P|];
      }
    }
  }

  /** How the walk ended, explained by the records it read: a listing read
      no record that raises before `oid in seen`, and a crash was raised by
      one of the records read, all of them from the pages requested. */
  predicate OutcomeExplained(upstream: int -> Response, w: Window, r: Walked) {
    (r.reply.Listed? || r.reply.Crashed? ==> r.processed == Fetched(upstream, |r.log|))
    && (r.reply.Listed? ==> Quiet(r.processed, w))
    && (r.reply.Crashed? ==> exists j :: 0 <= j < |r.processed| && Raises(r.processed[j], w, r.reply.fault))
  }

  lemma VisitOutcome(upstream: int -> Response, w: Window, pageSize: int, page: int,
                     rows: seq<Row>, seen: set<Json>, processed: seq<Json>, log: seq<PageLog>)
    requires InStep(upstream, w, page, rows, seen, processed, log) && Quiet(processed, w)
    ensures var v := VisitPage(upstream, w, pageSize, page, rows, seen, processed, log);
      (v.Next? ==> Quiet(v.processed, w))
      && (v.Stop? ==> OutcomeExplained(upstream, w, v.result))
  {
    var v := VisitPage(upstream, w, pageSize, page, rows, seen, processed, log);
    var resp := upstream(page);
    if Ok(resp.status) {
      var items := UnwrapList(resp.body);
      assert Fetched(upstream, page) == processed + items;
      if items == [] {
        assert v.Stop? && v.result.reply.Listed? && v.result.processed == processed && |v.result.log| == page;
        assert processed + items == processed;
      } else {
        match ProcessItems(items, w, rows, seen)
        case PageFault(f) =>
          assert v.result == Walked(Crashed(f), log + [PageLog(page, resp.status, |items|, 0)], processed + items);
          ProcessItemsRaises(items, w, rows, seen, f);
          var k :| 0 <= k < |items| && Raises(items[k], w, f);
          assert (processed + items)[|processed| + k] == items[k];
        case PageDone(_, _) =>
          assert v.Next? ==> v.processed == processed + items;
          assert v.Stop? ==> v.result.reply.Listed? && v.result.processed == processed + items && |v.result.log| == page;
          ProcessItemsQuiet(items, w, rows, seen);
          QuietAppend(processed, items, w);
      }
    } else {
      assert v.Stop? && v.result.reply.HttpError?;
    }
  }

  lemma {:induction false} WalkOutcome(upstream: int -> Response, w: Window, pageSize: int, maxPages: int, page: int,
                                       rows: seq<Row>, seen: set<Json>, processed: seq<Json>, log: seq<PageLog>)
    requires InStep(upstream, w, page, rows, seen, processed, log) && Quiet(processed, w)
    ensures OutcomeExplained(upstream, w, Walk(upstream, w, pageSize, maxPages, page, rows, seen, processed, log))
    decreases if page <= maxPages then maxPages - page + 1 else 0
  {
    if page <= maxPages {
      VisitRows(upstream, w, pageSize, page, rows, seen, processed, log);
      VisitOutcome(upstream, w, pageSize, page, rows, seen, processed, log);
      var v := VisitPage(upstream, w, pageSize, page, rows, seen, processed, log);
      if v.Next? {
        WalkOutcome(upstream, w, pageSize, maxPages, page + 1, v.rows, v.seen, v.processed, v.log);
      }
    }
  }

  /** A crash is raised by a record read from the pages requested; a
      listing read none on which the date window or the id check raises. */
  lemma ListOrdersOutcome(hasToken: bool, upstream: int -> Response, w: Window, pageSize: int, maxPages: int)
    ensures var r := ListOrdersSpec(hasToken, upstream, w, pageSize, maxPages);
      (r.reply.Crashed? ==>
         r.processed == Fetched(upstream, |r.log|)
         && exists j :: 0 <= j < |r.processed| && Raises(r.processed[j], w, r.reply.fault))
      && (r.reply.Listed? ==> forall j :: 0 <= j < |r.processed| ==> !Admit(r.processed[j], w).Faulted?)
  {
    if hasToken {
      WalkOutcome(upstream, w, pageSize, maxPages, 1, [], {}, [], []);
    }
  }

  /** A clean page never ends the walk with an error or a crash. */
  lemma VisitClean(upstream: int -> Response, w: Window, pageSize: int, page: int,
                   rows: seq<Row>, seen: set<Json>, processed: seq<Json>, log: seq<PageLog>)
    requires CleanPage(upstream, w, page)
    ensures var v := VisitPage(upstream, w, pageSize, page, rows, seen, processed, log);
      v.Stop? ==> v.result.reply.Listed?
  {
    var items := UnwrapList(upstream(page).body);
    if items != [] {
      ProcessItemsClean(items, w, rows, seen);
    }
  }

  lemma {:induction false} WalkClean(upstream: int -> Response, w: Window, pageSize: int, maxPages: int, page: int,
                                     rows: seq<Row>, seen: set<Json>, processed: seq<Json>, log: seq<PageLog>)
    requires forall n :: page <= n <= maxPages ==> CleanPage(upstream, w, n)
    ensures Walk(upstream, w, pageSize, maxPages, page, rows, seen, processed, log).reply.Listed?
    decreases if page <= maxPages then maxPages - page + 1 else 0
  {
    if page <= maxPages {
      VisitClean(upstream, w, pageSize, page, rows, seen, processed, log);
      var v := VisitPage(upstream, w, pageSize, page, rows, seen, processed, log);
      if v.Next? {
        WalkClean(upstream, w, pageSize, maxPages, page + 1, v.rows, v.seen, v.processed, v.log);
      }
    }
  }

  /** With a token, and every page up to `max_pages` accepted and made of
      harmless records, the reply is a listing. */
  lemma ListOrdersClean(hasToken: bool, upstream: int -> Response, w: Window, pageSize: int, maxPages: int)
    requires hasToken
    requires forall n :: 1 <= n <= maxPages ==> CleanPage(upstream, w, n)
    ensures ListOrdersSpec(hasToken, upstream, w, pageSize, maxPages).reply.Listed?
  {
    WalkClean(upstream, w, pageSize, maxPages, 1, [], {}, [], []);
  }
}

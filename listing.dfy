/** `list_orders` as main.py runs it: an outer loop over pages 1 to
    `max_pages` and an inner loop over the records of each page, updating
    `rows`, `seen` and `added_this_page` in place. The method is proved to
    answer what the specification walk of module Orders answers, so every
    fact of module OrderFacts holds of its reply. Besides the reply it
    returns the log of pages it requested. */
module Listing {
  import opened PyJson
  import opened Dates
  import opened Text
  import opened Envelope
  import opened Orders
  import opened OrderFacts

  /** `list_orders()`, with the upstream API given as the answer to each
      page number. Its reply and its page log are those of the
      specification walk; hence at most `max_pages` requests and no two rows
      with the same id. */
  method ListOrders(hasToken: bool, upstream: int -> Response, w: Window, pageSize: int, maxPages: int)
    returns (reply: Reply, log: seq<PageLog>)
    ensures reply == ListOrdersSpec(hasToken, upstream, w, pageSize, maxPages).reply
    ensures log == ListOrdersSpec(hasToken, upstream, w, pageSize, maxPages).log
    ensures |log| <= PageBudget(maxPages)
    ensures reply.Listed? ==>
      forall a, b :: 0 <= a < b < |reply.rows| ==> Key(reply.rows[a].orderId) != Key(reply.rows[b].orderId)
  {
    ListOrdersBudget(hasToken, upstream, w, pageSize, maxPages);
    if !hasToken {
      return MissingToken, [];
    }
    ghost var spec := ListOrdersSpec(hasToken, upstream, w, pageSize, maxPages);
    var rows: seq<Row> := [];
    var seen: set<Json> := {};
    ghost var processed: seq<Json> := [];
    log := [];
    var page := 1;
    while page <= maxPages
      invariant spec == Walk(upstream, w, pageSize, maxPages, page, rows, seen, processed, log)
      invariant seen == RowKeys(rows)
      decreases maxPages - page
    {
      var resp := upstream(page);
      if !Ok(resp.status) {
        WalkRejected(upstream, w, pageSize, maxPages, page, rows, seen, processed, log);
        reply := HttpError(resp.status, page, pageSize);
        log := log + [PageLog(page, resp.status, 0, 0)];
        return;
      }
      var items := UnwrapList(resp.body);
      if items == [] {
        WalkEmpty(upstream, w, pageSize, maxPages, page, rows, seen, processed, log);
        log := log + [PageLog(page, resp.status, 0, 0)];
        break;
      }

      var fault: Option<Fault>, rows', seen', added: nat;
      fault, rows', seen', added := ScanPage(items, w, rows, seen);
      if fault.Some? {
        WalkFaulted(upstream, w, pageSize, maxPages, page, rows, seen, processed, log, items, fault.value);
        reply, log := Crashed(fault.value), log + [PageLog(page, resp.status, |items|, 0)];
        return;
      }
      WalkScanned(upstream, w, pageSize, maxPages, page, rows, seen, processed, log, items, rows', seen', added);
      rows, seen := rows', seen';
      log := log + [PageLog(page, resp.status, |items|, added)];
      processed := processed + items;
      if added == 0 || |items| < pageSize {
        break;
      }
      page := page + 1;
    }
    reply := Listed(rows);
    ListedDistinctIds(hasToken, upstream, w, pageSize, maxPages);
  }

  // ----- The walk, one page at a time -----

  /** A rejected status ends the walk with an error naming the page. */
  lemma WalkRejected(upstream: int -> Response, w: Window, pageSize: int, maxPages: int, page: int,
                     rows: seq<Row>, seen: set<Json>, processed: seq<Json>, log: seq<PageLog>)
    requires page <= maxPages && !Ok(upstream(page).status)
    ensures Walk(upstream, w, pageSize, maxPages, page, rows, seen, processed, log)
            == Walked(HttpError(upstream(page).status, page, pageSize),
                      log + [PageLog(page, upstream(page).status, 0, 0)], processed)
  {
  }

  /** An accepted page with no records ends the walk with the rows so far. */
  lemma WalkEmpty(upstream: int -> Response, w: Window, pageSize: int, maxPages: int, page: int,
                  rows: seq<Row>, seen: set<Json>, processed: seq<Json>, log: seq<PageLog>)
    requires page <= maxPages && Ok(upstream(page).status) && UnwrapList(upstream(page).body) == []
    ensures Walk(upstream, w, pageSize, maxPages, page, rows, seen, processed, log)
            == Walked(Listed(rows), log + [PageLog(page, upstream(page).status, 0, 0)], processed)
  {
  }

  /** An exception in the inner loop ends the walk with that exception. */
  lemma WalkFaulted(upstream: int -> Response, w: Window, pageSize: int, maxPages: int, page: int,
                    rows: seq<Row>, seen: set<Json>, processed: seq<Json>, log: seq<PageLog>,
                    items: seq<Json>, fault: Fault)
    requires page <= maxPages && Ok(upstream(page).status)
    requires items == UnwrapList(upstream(page).body) && items != []
    requires ProcessItems(items, w, rows, seen) == PageFault(fault)
    ensures Walk(upstream, w, pageSize, maxPages, page, rows, seen, processed, log)
            == Walked(Crashed(fault), log + [PageLog(page, upstream(page).status, |items|, 0)], processed + items)
  {
  }

  /** After the inner loop over an accepted page with records: a page that
      added no row or was shorter than `pageSize` ends the walk with the
      rows gathered; any other goes on to the next page. */
  lemma WalkScanned(upstream: int -> Response, w: Window, pageSize: int, maxPages: int, page: int,
                    rows: seq<Row>, seen: set<Json>, processed: seq<Json>, log: seq<PageLog>,
                    items: seq<Json>, rows': seq<Row>, seen': set<Json>, added: nat)
    requires page <= maxPages && Ok(upstream(page).status)
    requires items == UnwrapList(upstream(page).body) && items != []
    requires ProcessItems(items, w, rows, seen) == PageDone(rows', seen') && |rows'| == |rows| + added
    ensures added == 0 || |items| < pageSize ==>
      Walk(upstream, w, pageSize, maxPages, page, rows, seen, processed, log)
      == Walked(Listed(rows'), log + [PageLog(page, upstream(page).status, |items|, added)], processed + items)
    ensures added > 0 && |items| >= pageSize ==>
      Walk(upstream, w, pageSize, maxPages, page, rows, seen, processed, log)
      == Walk(upstream, w, pageSize, maxPages, page + 1, rows', seen', processed + items,
              log + [PageLog(page, upstream(page).status, |items|, added)])
  {
  }

  /** The inner `for o in items` loop: appends a row for each record that
      passes the date window, has a truthy id not seen before and a
      readable `frete`, and stops at the first record that raises. Returns
      the exception raised, if any, the new `rows` and `seen`, and
      `added_this_page`. */
  method ScanPage(items: seq<Json>, w: Window, rows0: seq<Row>, seen0: set<Json>)
    returns (fault: Option<Fault>, rows: seq<Row>, seen: set<Json>, added: nat)
    requires seen0 == RowKeys(rows0)
    ensures fault.Some? <==> ProcessItems(items, w, rows0, seen0).PageFault?
    ensures fault.Some? ==> ProcessItems(items, w, rows0, seen0) == PageFault(fault.value)
    ensures fault.None? ==> ProcessItems(items, w, rows0, seen0) == PageDone(rows, seen)
                            && |rows| == |rows0| + added && seen == RowKeys(rows)
  {
    rows, seen, added := rows0, seen0, 0;
    for i := 0 to |items|
      invariant ProcessItems(items, w, rows0, seen0) == ProcessItems(items[i..], w, rows, seen)
      invariant |rows| == |rows0| + added
      invariant seen == RowKeys(rows)
    {
      var o := items[i];
      assert items[i..][0] == o && items[i..][1..] == items[i + 1..];
      if !o.JObj? {
        return Some(ItemNotObject), rows, seen, added;
      }
      var d := DateOf(o);
      if d.Some? {
        if Supplied(w.from) {
          var from := Dt(w.from);
          if from.None? {
            return Some(UnparsableFrom), rows, seen, added;
          }
          if Before(d.value, from.value) {
            continue;
          }
        }
        if Supplied(w.to) {
          var to := Dt(w.to);
          if to.None? {
            return Some(UnparsableTo), rows, seen, added;
          }
          if Before(to.value, d.value) {
            continue;
          }
        }
      }
      var oid := Get(o, "id");
      if !Truthy(oid) {
        continue;
      }
      if !Hashable(oid) {
        return Some(UnhashableId), rows, seen, added;
      }
      if Key(oid) in seen {
        continue;
      }
      seen := seen + {Key(oid)};
      var frete := Frete(o);
      if !frete.JObj? {
        return Some(FreteNotObject), rows, seen, added;
      }
      var rastreio := Rastreio(o);
      if !rastreio.JStr? {
        return Some(RastreioNotString), rows, seen, added;
      }
      var tracking := NormalTracking(rastreio.s);
      RowKeysSnoc(rows, Row(oid, Numero(o), tracking, tracking, RawDate(o)));
      rows := rows + [Row(oid, Numero(o), tracking, tracking, RawDate(o))];
      added := added + 1;
    }
    fault := None;
  }
}

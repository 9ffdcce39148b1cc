/** The order-listing pipeline behind `list_orders` in main.py, as
    specification functions: what one record becomes (`_order_date`, the
    date window, the id checks, the row), what one page does to the rows
    and the `seen` set, and the walk over pages 1, 2, ... with its stopping
    rules. The upstream API is a total function from page number to the
    (status, decoded body) it answers. */
module Orders {
  import opened PyJson
  import opened Dates
  import opened Text
  import opened Envelope

  /** The `from` and `to` query arguments, as `request.args.get` returns them. */
  datatype Window = Window(from: Option<string>, to: Option<string>)

  /** `request.args.get(k)` used as a condition: present and not empty. */
  predicate Supplied(arg: Option<string>) {
    arg.Some? && arg.value != []
  }

  /** One output row: `{orderId, numero, tracking, trackingCode, createdAt}`. */
  datatype Row = Row(orderId: Json, numero: Json, tracking: string, trackingCode: string, createdAt: Json)

  /** The exceptions Python raises inside the page loop. Flask turns each into
      an internal-server-error reply with no rows. */
  datatype Fault =
    | ItemNotObject      // `o.get` on a record that is not a dict
    | UnparsableFrom     // `d < _dt(from)` with `_dt(from)` None
    | UnparsableTo       // `d > _dt(to)` with `_dt(to)` None
    | UnhashableId       // `oid in seen` with a non-empty list or dict id
    | FreteNotObject     // `frete.get` on a truthy `frete` that is not a dict
    | RastreioNotString  // `.strip()` on a truthy `rastreio` that is not a str

  /** One upstream answer: status code and decoded body (`{}` when the body
      is empty or not JSON). */
  datatype Response = Response(status: int, body: Json)

  /** What `list_orders` answers. */
  datatype Reply =
    | Listed(rows: seq<Row>)                           // 200 {"ok": true, "rows": ...}
    | MissingToken                                     // 500 "WBUY_TOKEN ausente"
    | HttpError(status: int, page: int, pageSize: int) // 502 "HTTP <status> em <url>" with its params
    | Crashed(fault: Fault)                            // an uncaught exception

  // ----- `_order_date` -----

  /** The raw timestamp: the first truthy of `data`, `created_at`,
      `criado_em`, else `""`. */
  function RawDate(o: Json): (raw: Json)
    ensures Truthy(Get(o, "data")) ==> raw == Get(o, "data")
    ensures !Truthy(Get(o, "data")) && Truthy(Get(o, "created_at")) ==> raw == Get(o, "created_at")
    ensures !Truthy(Get(o, "data")) && !Truthy(Get(o, "created_at")) && Truthy(Get(o, "criado_em"))
            ==> raw == Get(o, "criado_em")
    ensures !Truthy(Get(o, "data")) && !Truthy(Get(o, "created_at")) && !Truthy(Get(o, "criado_em"))
            ==> raw == JStr("")
  {
    Or(Get(o, "data"), Or(Get(o, "created_at"), Or(Get(o, "criado_em"), JStr(""))))
  }

  /** The first ten characters of a string (`s[:10]`). */
  function Prefix10(s: string): (p: string)
    ensures |p| <= 10 && p <= s
    ensures |s| >= 10 ==> |p| == 10
    ensures |s| < 10 ==> p == s
  {
    if |s| <= 10 then s else s[..10]
  }

  /** `strptime(str(raw)[:10], "%Y-%m-%d").date()`, or None where it raises.
      `str` of an int, bool, list or dict never has a `-` after four leading
      digits, so only a string can yield a date. */
  function DateOfRaw(raw: Json): (d: Option<Date>)
    ensures d.Some? ==> raw.JStr? && ValidDate(d.value)
    ensures raw.JStr? ==> d == Strptime(Prefix10(raw.s))
    ensures !raw.JStr? ==> d.None?
  {
    match raw
    case JStr(s) => Strptime(Prefix10(s))
    case _ => None
  }

  /** `_order_date(o)[1]`: the date of a record. */
  function DateOf(o: Json): (d: Option<Date>)
    ensures d == DateOfRaw(RawDate(o))
    ensures d.Some? ==> RawDate(o).JStr? && ValidDate(d.value)
  {
    DateOfRaw(RawDate(o))
  }

  /** A raw timestamp that starts with an ISO 8601 date yields that date,
      whatever follows it (a time of day, say). */
  lemma {:induction false} DateOfIsoPrefix(d: Date, rest: string)
    requires ValidDate(d)
    ensures DateOfRaw(JStr(FormatIso(d) + rest)) == Some(d)
  {
    var s := FormatIso(d) + rest;
    assert Prefix10(s) == FormatIso(d);
    StrptimeFormatIso(d);
  }

  // ----- One record -----

  /** A date passes the window when it is not before a supplied `from` and
      not after a supplied `to`, each bound being a parsable date. */
  predicate InWindow(d: Date, w: Window) {
    (Supplied(w.from) ==> Dt(w.from).Some? && !Before(d, Dt(w.from).value))
    && (Supplied(w.to) ==> Dt(w.to).Some? && !Before(Dt(w.to).value, d))
  }

  /** Records whose date does not parse are never filtered by date. */
  predicate WindowAccepts(d: Option<Date>, w: Window) {
    d.None? || InWindow(d.value, w)
  }

  /** What the checks before the `seen` test make of a record. */
  datatype Verdict = Rejected | Admitted(id: Json) | Faulted(fault: Fault)

  /** The date filter, then `if not oid ...`, then the hashing done by
      `oid in seen`: a record is admitted with its id, skipped, or makes
      the loop raise. */
  function Admit(o: Json, w: Window): (v: Verdict)
    ensures v.Admitted? <==> o.JObj? && WindowAccepts(DateOf(o), w)
                             && Truthy(Get(o, "id")) && Hashable(Get(o, "id"))
    ensures v.Admitted? ==> v.id == Get(o, "id")
    ensures v == Faulted(ItemNotObject) <==> !o.JObj?
    ensures v == Faulted(UnparsableFrom) <==> o.JObj? && DateOf(o).Some? && Supplied(w.from) && Dt(w.from).None?
    ensures v == Faulted(UnparsableTo) <==>
      o.JObj? && DateOf(o).Some?
      && (Supplied(w.from) ==> Dt(w.from).Some? && !Before(DateOf(o).value, Dt(w.from).value))
      && Supplied(w.to) && Dt(w.to).None?
    ensures v == Faulted(UnhashableId) <==>
      o.JObj? && WindowAccepts(DateOf(o), w) && Truthy(Get(o, "id")) && !Hashable(Get(o, "id"))
    ensures v.Faulted? ==> v.fault in {ItemNotObject, UnparsableFrom, UnparsableTo, UnhashableId}
  {
    if !o.JObj? then Faulted(ItemNotObject)
    else
      var d := DateOf(o);
      if d.Some? && Supplied(w.from) && Dt(w.from).None? then Faulted(UnparsableFrom)
      else if d.Some? && Supplied(w.from) && Before(d.value, Dt(w.from).value) then Rejected
      else if d.Some? && Supplied(w.to) && Dt(w.to).None? then Faulted(UnparsableTo)
      else if d.Some? && Supplied(w.to) && Before(Dt(w.to).value, d.value) then Rejected
      else
        var oid := Get(o, "id");
        if !Truthy(oid) then Rejected
        else if !Hashable(oid) then Faulted(UnhashableId)
        else Admitted(oid)
  }

  /** With parsable bounds, a dated record is dropped by the date filter
      exactly when its date is before `from` or after `to`; an undated
      record never is. */
  lemma DateFilter(o: Json, w: Window)
    requires o.JObj? && Truthy(Get(o, "id")) && Hashable(Get(o, "id"))
    requires Supplied(w.from) ==> Dt(w.from).Some?
    requires Supplied(w.to) ==> Dt(w.to).Some?
    ensures DateOf(o).None? ==> Admit(o, w).Admitted?
    ensures DateOf(o).Some? ==>
      (Admit(o, w) == Rejected <==>
         (Supplied(w.from) && Before(DateOf(o).value, Dt(w.from).value))
         || (Supplied(w.to) && Before(Dt(w.to).value, DateOf(o).value)))
  {
  }

  /** `frete = o.get("frete") or {}`. */
  function Frete(o: Json): (f: Json)
    ensures Truthy(Get(o, "frete")) ==> f == Get(o, "frete")
    ensures !Truthy(Get(o, "frete")) ==> f == JObj(map[])
  {
    Or(Get(o, "frete"), JObj(map[]))
  }

  /** `frete.get("rastreio") or ""`. */
  function Rastreio(o: Json): (t: Json)
    ensures Truthy(Get(Frete(o), "rastreio")) ==> t == Get(Frete(o), "rastreio")
    ensures !Truthy(Get(Frete(o), "rastreio")) ==> t == JStr("")
    ensures !Frete(o).JObj? ==> t == JStr("")
  {
    Or(Get(Frete(o), "rastreio"), JStr(""))
  }

  /** `numero`: the first truthy of `numero`, `order_number`, else whatever
      `identificacao` holds (possibly None). */
  function Numero(o: Json): (n: Json)
    ensures Truthy(Get(o, "numero")) ==> n == Get(o, "numero")
    ensures !Truthy(Get(o, "numero")) && Truthy(Get(o, "order_number")) ==> n == Get(o, "order_number")
    ensures !Truthy(Get(o, "numero")) && !Truthy(Get(o, "order_number")) ==> n == Get(o, "identificacao")
  {
    Or(Get(o, "numero"), Or(Get(o, "order_number"), Get(o, "identificacao")))
  }

  /** `.strip().upper()` of a tracking code. */
  function NormalTracking(s: string): string {
    Upper(Strip(s))
  }

  /** A normalised tracking code has no whitespace at either end and no
      lower-case ASCII letter, and normalising it again changes nothing. */
  lemma {:induction false} NormalTrackingIsNormal(s: string)
    ensures var t := NormalTracking(s);
      (t != [] ==> !IsSpace(t[0]) && !IsSpace(t[|t| - 1]))
      && (forall k :: 0 <= k < |t| ==> !('a' <= t[k] <= 'z'))
      && NormalTracking(t) == t
  {
    var u := Strip(s);
    var t := Upper(u);
    UpperNormalises(u);
    assert t != [] ==> !IsSpace(t[0]) && !IsSpace(t[|t| - 1]);
    StripOfStripped(t);
    UpperNormalises(t);
  }

  /** What happens to one record inside the page loop. */
  datatype Step = Skip | Keep(row: Row) | Fail(fault: Fault)

  /** The row built for a record that passed every check, or the exception
      raised while reading its `frete`. */
  function BuildRow(o: Json, oid: Json): (st: Step)
    ensures st.Skip? == false
    ensures st == Fail(FreteNotObject) <==> !Frete(o).JObj?
    ensures st == Fail(RastreioNotString) <==> Frete(o).JObj? && !Rastreio(o).JStr?
    ensures st.Keep? <==> Frete(o).JObj? && Rastreio(o).JStr?
    ensures st.Keep? ==> st.row.orderId == oid && st.row.numero == Numero(o)
                         && st.row.createdAt == RawDate(o)
                         && st.row.tracking == st.row.trackingCode
                         && st.row.tracking == NormalTracking(Rastreio(o).s)
  {
    var frete := Frete(o);
    if !frete.JObj? then Fail(FreteNotObject)
    else
      var rastreio := Rastreio(o);
      if !rastreio.JStr? then Fail(RastreioNotString)
      else
        var t := NormalTracking(rastreio.s);
        Keep(Row(oid, Numero(o), t, t, RawDate(o)))
  }

  /** One pass of the inner loop, given the keys of the ids already seen. */
  function ProcessItem(o: Json, w: Window, seen: set<Json>): (st: Step)
    ensures st.Keep? ==> Admit(o, w) == Admitted(st.row.orderId) && Key(st.row.orderId) !in seen
    ensures Admit(o, w).Faulted? ==> st == Fail(Admit(o, w).fault)
    ensures Admit(o, w) == Rejected ==> st == Skip
    ensures Admit(o, w).Admitted? && Key(Admit(o, w).id) in seen ==> st.Skip?
    ensures Admit(o, w).Admitted? && Key(Admit(o, w).id) !in seen ==> st == BuildRow(o, Admit(o, w).id)
  {
    match Admit(o, w)
    case Faulted(f) => Fail(f)
    case Rejected => Skip
    case Admitted(oid) => if Key(oid) in seen then Skip else BuildRow(o, oid)
  }

  /** The set keys of the ids of `rows`. */
  function RowKeys(rows: seq<Row>): set<Json>
    decreases |rows|
  {
    if rows == [] then {} else RowKeys(rows[..|rows| - 1]) + {Key(rows[|rows| - 1].orderId)}
  }

  /** Appending a row adds its id's key and nothing else. */
  lemma RowKeysSnoc(rows: seq<Row>, row: Row)
    ensures RowKeys(rows + [row]) == RowKeys(rows) + {Key(row.orderId)}
  {
    assert (rows + [row])[..|rows|] == rows;
  }

  /** A key is among the row keys exactly when some row's id has it. */
  lemma {:induction false} RowKeysMembership(rows: seq<Row>, x: Json)
    ensures x in RowKeys(rows) <==> exists k :: 0 <= k < |rows| && Key(rows[k].orderId) == x
    decreases |rows|
  {
    if rows != [] {
      var R := rows[..|rows| - 1];
      RowKeysMembership(R, x);
      assert forall k :: 0 <= k < |R| ==> R[k] == rows[k];
    }
  }

  // ----- One page -----

  /** Result of the inner loop over a page's records. */
  datatype PageResult = PageDone(rows: seq<Row>, seen: set<Json>) | PageFault(fault: Fault)

  /** The inner `for o in items` loop, from the given rows and `seen` set;
      rows are only ever appended to. */
  function ProcessItems(items: seq<Json>, w: Window, rows: seq<Row>, seen: set<Json>): (r: PageResult)
    ensures r.PageDone? ==> |rows| <= |r.rows| && r.rows[..|rows|] == rows
    decreases |items|
  {
    if items == [] then PageDone(rows, seen)
    else
      var st := ProcessItem(items[0], w, seen);
      if st.Fail? then PageFault(st.fault)
      else if st.Skip? then ProcessItems(items[1..], w, rows, seen)
      else
        var r := ProcessItems(items[1..], w, rows + [st.row], seen + {Key(st.row.orderId)});
        if r.PageDone? then
          assert r.rows[..|rows|] == (rows + [st.row])[..|rows|] == rows;
          r
        else r
  }

  // ----- The walk over pages -----

  /** What the walk did with one requested page: its number, its status,
      how many records it unwrapped (0 when the status was rejected) and how
      many rows it appended (0 when the page raised). */
  datatype PageLog = PageLog(page: int, status: int, count: nat, added: nat)

  /** The reply, the pages requested, and every record read from them in
      fetch order. */
  datatype Walked = Walked(reply: Reply, log: seq<PageLog>, processed: seq<Json>)

  /** How a page visit ends: with the walk's result, or with the state the
      next page starts from. */
  datatype Visit =
    | Stop(result: Walked)
    | Next(rows: seq<Row>, seen: set<Json>, processed: seq<Json>, log: seq<PageLog>)

  /** One iteration of `for page in ...`: request the page; stop with an
      error on a rejected status; stop after an empty page; run the inner
      loop; stop after a page that appended no row or was shorter than
      `pageSize`; otherwise go on. */
  function VisitPage(upstream: int -> Response, w: Window, pageSize: int, page: int,
                     rows: seq<Row>, seen: set<Json>, processed: seq<Json>, log: seq<PageLog>): (v: Visit)
    ensures v.Next? ==> |v.log| == |log| + 1 && log <= v.log && processed <= v.processed && |rows| < |v.rows|
    ensures v.Stop? ==> |v.result.log| == |log| + 1 && log <= v.result.log && processed <= v.result.processed
    ensures v.Stop? ==> v.result.reply != MissingToken
  {
    var resp := upstream(page);
    if !Ok(resp.status) then
      Stop(Walked(HttpError(resp.status, page, pageSize), log + [PageLog(page, resp.status, 0, 0)], processed))
    else
      var items := UnwrapList(resp.body);
      if items == [] then Stop(Walked(Listed(rows), log + [PageLog(page, resp.status, 0, 0)], processed))
      else
        match ProcessItems(items, w, rows, seen)
        case PageFault(f) =>
          Stop(Walked(Crashed(f), log + [PageLog(page, resp.status, |items|, 0)], processed + items))
        case PageDone(rows', seen') =>
          var log' := log + [PageLog(page, resp.status, |items|, |rows'| - |rows|)];
          if |rows'| == |rows| || |items| < pageSize then Stop(Walked(Listed(rows'), log', processed + items))
          else Next(rows', seen', processed + items, log')
  }

  /** `for page in range(page, max_pages + 1)` from the current `rows` and
      `seen`; leaving the range lists the rows gathered so far. */
  function Walk(upstream: int -> Response, w: Window, pageSize: int, maxPages: int, page: int,
                rows: seq<Row>, seen: set<Json>, processed: seq<Json>, log: seq<PageLog>): (r: Walked)
    ensures log <= r.log && processed <= r.processed
    ensures |r.log| <= |log| + (if page <= maxPages then maxPages - page + 1 else 0)
    ensures r.reply != MissingToken
    decreases if page <= maxPages then maxPages - page + 1 else 0
  {
    if page > maxPages then Walked(Listed(rows), log, processed)
    else
      match VisitPage(upstream, w, pageSize, page, rows, seen, processed, log)
      case Stop(result) => result
      case Next(rows', seen', processed', log') =>
        Walk(upstream, w, pageSize, maxPages, page + 1, rows', seen', processed', log')
  }

  /** `list_orders()`: an error before any request when the token is
      missing, otherwise the walk from page 1 with no rows and nothing seen. */
  function ListOrdersSpec(hasToken: bool, upstream: int -> Response, w: Window,
                          pageSize: int, maxPages: int): (r: Walked)
    ensures r.reply == MissingToken <==> !hasToken
    ensures !hasToken ==> r.log == [] && r.processed == []
  {
    if !hasToken then Walked(MissingToken, [], [])
    else Walk(upstream, w, pageSize, maxPages, 1, [], {}, [], [])
  }
}

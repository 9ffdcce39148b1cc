/** Worked examples of `list_orders` on small upstream answers. */
module Scenarios {
  import opened PyJson
  import opened Dates
  import opened Text
  import opened Envelope
  import opened Orders
  import opened Listing

  // ----- Records with an id, a tracking code and a timestamp -----

  /** The record `{"id": id, "frete": {"rastreio": code}, "data": stamp}`. */
  function Record(id: int, code: string, stamp: string): Json {
    JObj(map["id" := JInt(id),
             "frete" := JObj(map["rastreio" := JStr(code)]),
             "data" := JStr(stamp)])
  }

  /** The row built for such a record: its id, no `numero`, its normalised
      code and its raw timestamp. */
  function RowOf(id: int, code: string, stamp: string): (row: Row)
    ensures row.tracking == row.trackingCode
  {
    Row(JInt(id), JNull, NormalTracking(code), NormalTracking(code), JStr(stamp))
  }

  lemma RecordId(id: int, code: string, stamp: string)
    ensures Get(Record(id, code, stamp), "id") == JInt(id)
  {
  }

  lemma RecordData(id: int, code: string, stamp: string)
    ensures Get(Record(id, code, stamp), "data") == JStr(stamp)
  {
  }

  lemma RecordFrete(id: int, code: string, stamp: string)
    ensures Get(Record(id, code, stamp), "frete") == JObj(map["rastreio" := JStr(code)])
    ensures Rastreio(Record(id, code, stamp)) == JStr(code)
  {
    assert Frete(Record(id, code, stamp)) == JObj(map["rastreio" := JStr(code)]);
  }

  lemma RecordNoNumero(id: int, code: string, stamp: string)
    ensures Numero(Record(id, code, stamp)) == JNull
  {
    var o := Record(id, code, stamp);
    assert "numero" !in o.fields && "order_number" !in o.fields && "identificacao" !in o.fields;
  }

  /** Such a record with a non-empty timestamp is dated from it, and its row
      builds. */
  lemma RecordFields(id: int, code: string, stamp: string)
    requires stamp != ""
    ensures DateOf(Record(id, code, stamp)) == DateOfRaw(JStr(stamp))
    ensures BuildRow(Record(id, code, stamp), JInt(id)) == Keep(RowOf(id, code, stamp))
  {
    RecordData(id, code, stamp);
    RecordFrete(id, code, stamp);
    RecordNoNumero(id, code, stamp);
    assert RawDate(Record(id, code, stamp)) == JStr(stamp);
  }

  /** A record with a non-zero id whose timestamp the window accepts is
      admitted under that id. */
  lemma RecordAdmitted(id: int, code: string, stamp: string, w: Window)
    requires id != 0 && stamp != "" && WindowAccepts(DateOfRaw(JStr(stamp)), w)
    ensures Admit(Record(id, code, stamp), w) == Admitted(JInt(id))
  {
    var o := Record(id, code, stamp);
    RecordFields(id, code, stamp);
    RecordId(id, code, stamp);
    assert WindowAccepts(DateOf(o), w);
    assert Truthy(Get(o, "id")) && Hashable(Get(o, "id"));
  }

  /** A record admitted under an id not seen before, whose row builds, is
      kept. */
  lemma KeptWhenNew(o: Json, w: Window, seen: set<Json>, row: Row)
    requires Admit(o, w) == Admitted(row.orderId) && Key(row.orderId) !in seen
    requires BuildRow(o, row.orderId) == Keep(row)
    ensures ProcessItem(o, w, seen) == Keep(row)
  {
  }

  /** The inner loop over a page holding one kept record. */
  lemma OneKept(o: Json, w: Window, rows: seq<Row>, seen: set<Json>, row: Row)
    requires ProcessItem(o, w, seen) == Keep(row)
    ensures ProcessItems([o], w, rows, seen) == PageDone(rows + [row], seen + {Key(row.orderId)})
  {
    assert [o][1..] == [];
  }

  /** The inner loop over a page holding one skipped record. */
  lemma OneSkipped(o: Json, w: Window, rows: seq<Row>, seen: set<Json>)
    requires ProcessItem(o, w, seen) == Skip
    ensures ProcessItems([o], w, rows, seen) == PageDone(rows, seen)
  {
    assert [o][1..] == [];
  }

  /** A first page holding one kept record lists that record. */
  lemma FirstKept(o: Json, w: Window, row: Row)
    requires ProcessItem(o, w, {}) == Keep(row)
    ensures ProcessItems([o], w, [], {}) == PageDone([row], {Key(row.orderId)})
  {
    OneKept(o, w, [], {}, row);
    assert [] + [row] == [row];
    assert {} + {Key(row.orderId)} == {Key(row.orderId)};
  }

  // ----- The example of a dated record in a September window -----

  const Code7: string := "AB123456789BR"
  const Stamp7: string := "2025-09-28 19:28:18"

  const Row7: Row := Row(JInt(7), JNull, "AB123456789BR", "AB123456789BR", JStr("2025-09-28 19:28:18"))

  /** Page 1 holds `{"data": [Record(7, Code7, Stamp7)]}`; every later page
      is empty. */
  function OnePage(p: int): Response {
    if p == 1 then Response(200, JObj(map["data" := JArr([Record(7, Code7, Stamp7)])]))
    else Response(200, JArr([]))
  }

  const September: Window := Window(Some("2025-09-01"), Some("2025-09-30"))

  /** The record's date is read from the first ten characters of `data`. */
  lemma Stamp7Date()
    ensures DateOfRaw(JStr(Stamp7)) == Some(Date(2025, 9, 28))
  {
    assert Prefix10(Stamp7) == "2025-09-28";
    assert MonthField("2025-09-28", 5) == Some(Field(9, 2));
    assert DayField("2025-09-28", 8) == Some(Field(28, 2));
  }

  lemma FromParses()
    ensures Dt(September.from) == Some(Date(2025, 9, 1))
  {
    assert "2025-09-01"[5] == '0' && "2025-09-01"[6] == '9';
    assert MonthField("2025-09-01", 5) == Some(Field(9, 2));
    assert DayField("2025-09-01", 8) == Some(Field(1, 2));
  }

  lemma ToParses()
    ensures Dt(September.to) == Some(Date(2025, 9, 30))
  {
    assert MonthField("2025-09-30", 5) == Some(Field(9, 2));
    assert DayField("2025-09-30", 8) == Some(Field(30, 2));
  }

  /** Both bounds parse, and the record's date lies between them. */
  lemma Stamp7InSeptember()
    ensures WindowAccepts(DateOfRaw(JStr(Stamp7)), September)
  {
    Stamp7Date();
    FromParses();
    ToParses();
  }

  /** A code with no surrounding whitespace and no lower-case letter is
      left as it is. */
  lemma Tracking7()
    ensures NormalTracking(Code7) == Code7
  {
    var s := Code7;
    StripOfStripped(s);
    forall k | 0 <= k < |s|
      ensures s[k] <= 'Z'
    {
      assert k in {0, 1, 2, 3, 4, 5, 6, 7, 8, 9, 10, 11, 12};
    }
    UpperOfUpper(s);
  }

  /** So the record's row is `Row7`. */
  lemma Row7Built()
    ensures RowOf(7, Code7, Stamp7) == Row7
  {
    Tracking7();
  }

  /** In a window that accepts its date, the record is kept while its id
      is new, as `Row7`. */
  lemma Record7Kept(w: Window)
    requires WindowAccepts(DateOfRaw(JStr(Stamp7)), w)
    ensures ProcessItem(Record(7, Code7, Stamp7), w, {}) == Keep(Row7)
  {
    RecordAdmitted(7, Code7, Stamp7, w);
    RecordFields(7, Code7, Stamp7);
    Row7Built();
    KeptWhenNew(Record(7, Code7, Stamp7), w, {}, Row7);
  }

  /** Once its id is seen, the record is skipped. */
  lemma Record7Seen(w: Window)
    requires WindowAccepts(DateOfRaw(JStr(Stamp7)), w)
    ensures ProcessItem(Record(7, Code7, Stamp7), w, {JInt(7)}) == Skip
  {
    RecordAdmitted(7, Code7, Stamp7, w);
  }

  /** With the window 2025-09-01 to 2025-09-30 the record is listed with its
      id, its tracking code, its raw timestamp and no `numero`; the short
      page ends the walk after one request. */
  lemma ListsRecord7()
    ensures var r := ListOrdersSpec(true, OnePage, September, 100, 8);
      r.reply == Listed([Row7]) && r.log == [PageLog(1, 200, 1, 1)]
  {
    var o := Record(7, Code7, Stamp7);
    UnwrapDataEnvelope([o]);
    Stamp7InSeptember();
    Record7Kept(September);
    FirstKept(o, September, Row7);
    WalkScanned(OnePage, September, 100, 8, 1, [], {}, [], [], [Record(7, Code7, Stamp7)], [Row7], {JInt(7)}, 1);
  }

  // ----- The example of an upstream that ignores paging -----

  /** An upstream that ignores the page number and answers page 1 every time. */
  function SamePage(p: int): Response {
    Response(200, JObj(map["data" := JArr([Record(7, Code7, Stamp7)])]))
  }

  const NoWindow: Window := Window(None, None)

  /** With `page_size` 1, page 1 is full and adds a row, so page 2 is
      requested; it repeats page 1, adds no row, and the walk stops there
      instead of running to `max_pages`. The call has neither `from` nor
      `to`: main.py:92 then evaluates `timedelta`, which is bound only
      when the file runs as a script, so an imported main.py raises
      `NameError` before any request. The default window is not part of
      this model, and the walk here is the one that follows it. */
  lemma StopsOnRepeatedPage()
    ensures var r := ListOrdersSpec(true, SamePage, NoWindow, 1, 8);
      r.reply == Listed([Row7]) && r.log == [PageLog(1, 200, 1, 1), PageLog(2, 200, 1, 0)]
  {
    FullPageContinues();
    RepeatedPageStops();
  }

  /** Every page of `SamePage` holds the one record. */
  lemma SamePageRecords(p: int)
    ensures UnwrapList(SamePage(p).body) == [Record(7, Code7, Stamp7)]
  {
    UnwrapDataEnvelope([Record(7, Code7, Stamp7)]);
  }

  /** Page 1 is full and adds the record's row, so the walk goes on to page 2. */
  lemma FullPageContinues()
    ensures Walk(SamePage, NoWindow, 1, 8, 1, [], {}, [], [])
            == Walk(SamePage, NoWindow, 1, 8, 2, [Row7], {JInt(7)}, [Record(7, Code7, Stamp7)], [PageLog(1, 200, 1, 1)])
  {
    var o := Record(7, Code7, Stamp7);
    SamePageRecords(1);
    assert WindowAccepts(DateOfRaw(JStr(Stamp7)), NoWindow);
    Record7Kept(NoWindow);
    FirstKept(o, NoWindow, Row7);
    WalkScanned(SamePage, NoWindow, 1, 8, 1, [], {}, [], [], [o], [Row7], {JInt(7)}, 1);
    assert SamePage(1).status == 200;
    assert [] + [o] == [o];
    assert [] + [PageLog(1, 200, 1, 1)] == [PageLog(1, 200, 1, 1)];
  }

  /** Page 2 repeats the record already listed, adds no row and ends the walk. */
  lemma RepeatedPageStops()
    ensures Walk(SamePage, NoWindow, 1, 8, 2, [Row7], {JInt(7)}, [Record(7, Code7, Stamp7)], [PageLog(1, 200, 1, 1)])
            == Walked(Listed([Row7]), [PageLog(1, 200, 1, 1), PageLog(2, 200, 1, 0)],
                      [Record(7, Code7, Stamp7), Record(7, Code7, Stamp7)])
  {
    var o := Record(7, Code7, Stamp7);
    SamePageRecords(2);
    assert WindowAccepts(DateOfRaw(JStr(Stamp7)), NoWindow);
    Record7Seen(NoWindow);
    OneSkipped(o, NoWindow, [Row7], {JInt(7)});
    WalkScanned(SamePage, NoWindow, 1, 8, 2, [Row7], {JInt(7)}, [o], [PageLog(1, 200, 1, 1)],
                [o], [Row7], {JInt(7)}, 0);
  }

  /** `strptime` also takes unpadded months and days, rejects 29 February
      outside leap years, and rejects text after the day. */
  lemma StrptimeExamples()
    ensures Strptime("2025-9-1") == Some(Date(2025, 9, 1))
    ensures Strptime("2024-02-29") == Some(Date(2024, 2, 29))
    ensures Strptime("2025-02-29") == None
    ensures Strptime("2025-09-28 19") == None
  {
    assert MonthField("2025-9-1", 5) == Some(Field(9, 1));
    assert DayField("2025-9-1", 7) == Some(Field(1, 1));
    assert MonthField("2024-02-29", 5) == Some(Field(2, 2));
    assert DayField("2024-02-29", 8) == Some(Field(29, 2));
    assert MonthField("2025-02-29", 5) == Some(Field(2, 2));
    assert DayField("2025-02-29", 8) == Some(Field(29, 2));
    assert MonthField("2025-09-28 19", 5) == Some(Field(9, 2));
    assert DayField("2025-09-28 19", 8) == Some(Field(28, 2));
  }
}

/** The expiry date report of one resident: every expiry date of the
    resident's medication instances sorted onto four pages (expired, due to
    expire within 30 days, in date, no readable expiry date), each line
    naming a medication. */
module Expiry {
  import opened Wrappers
  import opened Text
  import opened Dates
  import opened Records
  import opened Sequences
  import opened Database

  /** The page an expiry date is listed on. */
  datatype Status = Expired | DueToExpire | InDate | NoExpiryDate

  /** The order of the pages: expired first, no expiry date last. */
  function Urgency(s: Status): nat {
    match s
    case Expired => 0
    case DueToExpire => 1
    case InDate => 2
    case NoExpiryDate => 3
  }

  /** The page for an expiry text read on `today`: no expiry date when
      `%m/%d/%y` does not read it; otherwise by the days from today to the
      expiry: negative is expired, up to 30 is due to expire, more is in date. */
  function StatusOf(today: Date, expiry: string): (s: Status)
    requires ValidDate(today)
    ensures s == NoExpiryDate <==> ParseExpiry(expiry).None?
  {
    match ParseExpiry(expiry)
    case None => NoExpiryDate
    case Some(d) =>
      var diff := DayDifference(d, today);
      if diff < 0 then Expired else if diff <= 30 then DueToExpire else InDate
  }

  /** A date written in the picker's "M/d/yy" form is expired exactly when
      it lies before today, and is never put on the no-expiry page. */
  lemma ExpiredIffBefore(today: Date, d: Date)
    requires ValidDate(today) && ValidDate(d) && 1969 <= d.year <= 2068
    ensures StatusOf(today, ShortForm(d)) != NoExpiryDate
    ensures StatusOf(today, ShortForm(d)) == Expired <==> Before(d, today)
  {
    ParseShortForm(d);
    if Before(d, today) {
      DayNumberOrdered(d, today);
    } else if d != today {
      DayNumberOrdered(today, d);
    }
  }

  /** Of two dates written in the "M/d/yy" form, the later one is never on
      a more urgent page. */
  lemma LaterExpiryNoMoreUrgent(today: Date, a: Date, b: Date)
    requires ValidDate(today) && ValidDate(a) && ValidDate(b)
    requires 1969 <= a.year <= 2068 && 1969 <= b.year <= 2068
    requires Before(a, b)
    ensures Urgency(StatusOf(today, ShortForm(a))) <= Urgency(StatusOf(today, ShortForm(b)))
  {
    ParseShortForm(a);
    ParseShortForm(b);
    DayNumberOrdered(a, b);
  }

  /** A picker date of 2069 or later lands on the expired page: on 1 January
      2024, the text 1/1/69 written for 1 January 2069 is read as 1969. */
  lemma PastPivotExpired(text: string)
    requires text == "1/1/69"
    ensures ShortForm(Date(2069, 1, 1)) == text
    ensures StatusOf(Date(2024, 1, 1), text) == Expired
  {
    ReadsPastPivotDate(text);
    DayNumberOrdered(Date(1969, 1, 1), Date(2024, 1, 1));
  }

  /** On 1 January 2024, 15 December 2023 is 17 days past: expired. */
  lemma NewYearExpired(text: string)
    requires text == "12/15/23"
    ensures StatusOf(Date(2024, 1, 1), text) == Expired
  {
    ReadsDecemberDate(text);
    assert DayNumber(Date(2023, 12, 15)) == 738869;
    assert DayNumber(Date(2024, 1, 1)) == 738886;
  }

  /** On 1 January 2024, 20 January 2024 (written with a leading zero) is 19
      days ahead: due to expire. */
  lemma NewYearDue(text: string)
    requires text == "01/20/24"
    ensures StatusOf(Date(2024, 1, 1), text) == DueToExpire
  {
    ReadsJanuaryDate(text);
    assert DayNumber(Date(2024, 1, 20)) == 738905;
    assert DayNumber(Date(2024, 1, 1)) == 738886;
  }

  /** On 1 January 2024, 1 March 2024 is 60 days ahead: in date. */
  lemma NewYearInDate(text: string)
    requires text == "03/01/24"
    ensures StatusOf(Date(2024, 1, 1), text) == InDate
  {
    ReadsMarchDate(text);
    assert DayNumber(Date(2024, 3, 1)) == 738946;
    assert DayNumber(Date(2024, 1, 1)) == 738886;
  }

  /** An empty expiry text and a day that does not exist have no expiry date. */
  lemma UnreadableExpiries(today: Date, text: string)
    requires ValidDate(today)
    requires text == "2/30/24"
    ensures StatusOf(today, "") == NoExpiryDate
    ensures StatusOf(today, text) == NoExpiryDate
  {
    assert ParseExpiry("") == None;
    assert text[0] != '/' && text[1] == '/';
    assert IndexOf(text, '/') == 1;
    var rest := text[2..];
    assert rest[0] != '/' && rest[1] != '/' && rest[2] == '/';
    assert IndexOf(rest, '/') == 2;
    assert text[..1] == "2" && rest[..2] == "30" && rest[3..] == "24";
  }

  /** One report line: a medication name and the expiry text listed under it. */
  datatype Entry = Entry(name: string, expiry: string)

  /** The page each entry goes on when the report is made on `today`. */
  function PageOn(today: Date): Entry -> Status
    requires ValidDate(today)
  {
    (e: Entry) => StatusOf(today, e.expiry)
  }

  /** Whatever decides the pages, the four pages together are exactly as
      long as the entries: as each page holds only entries of its own status
      and every entry of a status is on its page, every entry is on exactly
      one page. */
  lemma {:induction false} PagesPartition(entries: seq<Entry>, page: Entry -> Status)
    ensures |Select(entries, page, Expired)| + |Select(entries, page, DueToExpire)|
          + |Select(entries, page, InDate)| + |Select(entries, page, NoExpiryDate)|
         == |entries|
    decreases |entries|
  {
    if |entries| > 0 {
      var front := entries[..|entries| - 1];
      var e := entries[|entries| - 1];
      PagesPartition(front, page);
      assert entries == front + [e];
      SelectAppendOne(front, e, page, Expired);
      SelectAppendOne(front, e, page, DueToExpire);
      SelectAppendOne(front, e, page, InDate);
      SelectAppendOne(front, e, page, NoExpiryDate);
      assert page(e).Expired? || page(e).DueToExpire? || page(e).InDate? || page(e).NoExpiryDate?;
    }
  }

  /** The names of `entries`, in order. */
  function Names(entries: seq<Entry>): (r: seq<string>)
    ensures |r| == |entries|
    ensures forall k :: 0 <= k < |r| ==> r[k] == entries[k].name
  {
    if |entries| == 0 then [] else Names(entries[..|entries| - 1]) + [entries[|entries| - 1].name]
  }

  /** The expiry texts of `entries`, in order. */
  function Texts(entries: seq<Entry>): (r: seq<string>)
    ensures |r| == |entries|
    ensures forall k :: 0 <= k < |r| ==> r[k] == entries[k].expiry
  {
    if |entries| == 0 then [] else Texts(entries[..|entries| - 1]) + [entries[|entries| - 1].expiry]
  }

  /** How an entry's expiry text reads as a date: `%m/%d/%y`. */
  function ReadDate(e: Entry): Option<Date> {
    ParseExpiry(e.expiry)
  }

  /** A date that was read, as a list of one; nothing when none was. */
  function Listed(d: Option<Date>): seq<Date> {
    match d
    case None => []
    case Some(x) => [x]
  }

  /** The dates `date` reads from `entries`, in order; an entry whose text
      does not read as a date contributes nothing. */
  function DatesOf(entries: seq<Entry>, date: Entry -> Option<Date>): (r: seq<Date>)
    ensures |r| <= |entries|
  {
    if |entries| == 0 then [] else DatesOf(entries[..|entries| - 1], date) + Listed(date(entries[|entries| - 1]))
  }

  /** Adding an entry at the end adds its name, text and date at the end. */
  lemma ColumnsAppend(entries: seq<Entry>, e: Entry, date: Entry -> Option<Date>)
    ensures Names(entries + [e]) == Names(entries) + [e.name]
    ensures Texts(entries + [e]) == Texts(entries) + [e.expiry]
    ensures DatesOf(entries + [e], date) == DatesOf(entries, date) + Listed(date(e))
  {
    assert (entries + [e])[..|entries|] == entries;
  }

  /** The lists behind the four pages: the dates (or, for the last page,
      the unreadable texts) and the medication names, page by page. */
  datatype ExpiryReport = ExpiryReport(
    expired: seq<Date>, expiredNames: seq<string>,
    dueToExpire: seq<Date>, dueToExpireNames: seq<string>,
    inDate: seq<Date>, inDateNames: seq<string>,
    noExpiryDate: seq<string>, noExpiryDateNames: seq<string>)

  /** The report with no entries. */
  const EmptyReport := ExpiryReport([], [], [], [], [], [], [], [])

  /** `r` with `e`, whose text reads as `d`, added at the end of page `s`:
      its name, and its date (on the last page, its text). */
  function Place(r: ExpiryReport, s: Status, e: Entry, d: Option<Date>): ExpiryReport {
    match s
    case Expired => r.(expired := r.expired + Listed(d), expiredNames := r.expiredNames + [e.name])
    case DueToExpire => r.(dueToExpire := r.dueToExpire + Listed(d), dueToExpireNames := r.dueToExpireNames + [e.name])
    case InDate => r.(inDate := r.inDate + Listed(d), inDateNames := r.inDateNames + [e.name])
    case NoExpiryDate => r.(noExpiryDate := r.noExpiryDate + [e.expiry],
                            noExpiryDateNames := r.noExpiryDateNames + [e.name])
  }

  /** The report with pages decided by `page` and dates read by `date`: the
      entries placed one after the other, each on its own page. */
  function ReportBy(entries: seq<Entry>, page: Entry -> Status, date: Entry -> Option<Date>): ExpiryReport
    decreases |entries|
  {
    if |entries| == 0 then EmptyReport
    else
      var e := entries[|entries| - 1];
      Place(ReportBy(entries[..|entries| - 1], page, date), page(e), e, date(e))
  }

  /** The report on `today` for `entries`. */
  function Report(today: Date, entries: seq<Entry>): ExpiryReport
    requires ValidDate(today)
  {
    ReportBy(entries, PageOn(today), ReadDate)
  }

  /** The names listed on page `s`. */
  function PageNames(r: ExpiryReport, s: Status): seq<string> {
    match s
    case Expired => r.expiredNames
    case DueToExpire => r.dueToExpireNames
    case InDate => r.inDateNames
    case NoExpiryDate => r.noExpiryDateNames
  }

  /** The dates listed on dated page `s`. */
  function PageDates(r: ExpiryReport, s: Status): seq<Date>
    requires s != NoExpiryDate
  {
    match s
    case Expired => r.expired
    case DueToExpire => r.dueToExpire
    case InDate => r.inDate
  }

  /** Placing `e` on page `t` adds its name to page `t` only. */
  lemma PlaceNames(r: ExpiryReport, t: Status, e: Entry, d: Option<Date>, s: Status)
    ensures PageNames(Place(r, t, e, d), s) == PageNames(r, s) + if t == s then [e.name] else []
  {
  }

  /** Placing `e` on dated page `t` adds its date, if it has one, to page `t` only. */
  lemma PlaceDates(r: ExpiryReport, t: Status, e: Entry, d: Option<Date>, s: Status)
    requires s != NoExpiryDate
    ensures PageDates(Place(r, t, e, d), s) == PageDates(r, s) + if t == s then Listed(d) else []
  {
  }

  /** Placing `e` on the last page adds its text there; elsewhere that page is unchanged. */
  lemma PlaceTexts(r: ExpiryReport, t: Status, e: Entry, d: Option<Date>)
    ensures Place(r, t, e, d).noExpiryDate == r.noExpiryDate + if t == NoExpiryDate then [e.expiry] else []
  {
  }

  /** Page `s` names exactly the entries `page` puts on `s`, in their order. */
  lemma {:induction false} PageNamesSelect(entries: seq<Entry>, page: Entry -> Status,
                                           date: Entry -> Option<Date>, s: Status)
    ensures PageNames(ReportBy(entries, page, date), s) == Names(Select(entries, page, s))
    decreases |entries|
  {
    if |entries| > 0 {
      var front, e := entries[..|entries| - 1], entries[|entries| - 1];
      PageNamesSelect(front, page, date, s);
      PlaceNames(ReportBy(front, page, date), page(e), e, date(e), s);
      var p := Select(front, page, s);
      if page(e) == s {
        assert Select(entries, page, s) == p + [e];
        ColumnsAppend(p, e, date);
      } else {
        assert Select(entries, page, s) == p + [] == p;
      }
    }
  }

  /** Dated page `s` lists the dates read from the entries `page` puts on `s`. */
  lemma {:induction false} PageDatesSelect(entries: seq<Entry>, page: Entry -> Status,
                                           date: Entry -> Option<Date>, s: Status)
    requires s != NoExpiryDate
    ensures PageDates(ReportBy(entries, page, date), s) == DatesOf(Select(entries, page, s), date)
    decreases |entries|
  {
    if |entries| > 0 {
      var front, e := entries[..|entries| - 1], entries[|entries| - 1];
      PageDatesSelect(front, page, date, s);
      PlaceDates(ReportBy(front, page, date), page(e), e, date(e), s);
      var p := Select(front, page, s);
      if page(e) == s {
        assert Select(entries, page, s) == p + [e];
        ColumnsAppend(p, e, date);
      } else {
        assert Select(entries, page, s) == p + [] == p;
      }
    }
  }

  /** The last page lists the texts of the entries `page` puts there. */
  lemma {:induction false} UndatedTextsSelect(entries: seq<Entry>, page: Entry -> Status, date: Entry -> Option<Date>)
    ensures ReportBy(entries, page, date).noExpiryDate == Texts(Select(entries, page, NoExpiryDate))
    decreases |entries|
  {
    if |entries| > 0 {
      var front, e := entries[..|entries| - 1], entries[|entries| - 1];
      UndatedTextsSelect(front, page, date);
      PlaceTexts(ReportBy(front, page, date), page(e), e, date(e));
      var p := Select(front, page, NoExpiryDate);
      if page(e) == NoExpiryDate {
        assert Select(entries, page, NoExpiryDate) == p + [e];
        ColumnsAppend(p, e, date);
      } else {
        assert Select(entries, page, NoExpiryDate) == p + [] == p;
      }
    }
  }

  /** Whether a date read on `today` belongs on page `s`: expired when past,
      due when 0 to 30 days ahead, in date when further ahead. */
  predicate OnPage(today: Date, d: Date, s: Status)
    requires ValidDate(today) && ValidDate(d)
  {
    var diff := DayDifference(d, today);
    match s
    case Expired => diff < 0
    case DueToExpire => 0 <= diff <= 30
    case InDate => diff > 30
    case NoExpiryDate => false
  }

  /** When every entry reads as a date, there is one date per entry, in order. */
  lemma {:induction false} DatesOfAll(entries: seq<Entry>, date: Entry -> Option<Date>)
    requires forall k :: 0 <= k < |entries| ==> date(entries[k]).Some?
    ensures |DatesOf(entries, date)| == |entries|
    ensures forall k :: 0 <= k < |entries| ==> DatesOf(entries, date)[k] == date(entries[k]).value
    decreases |entries|
  {
    if |entries| > 0 {
      var front := entries[..|entries| - 1];
      DatesOfAll(front, date);
      assert DatesOf(entries, date) == DatesOf(front, date) + [date(entries[|entries| - 1]).value];
    }
  }

  /** An entry on dated page `s` reads as a real date that belongs on `s`. */
  lemma ReadDateOnPage(today: Date, e: Entry, s: Status)
    requires ValidDate(today) && s != NoExpiryDate
    requires StatusOf(today, e.expiry) == s
    ensures ReadDate(e).Some? && ValidDate(ReadDate(e).value) && OnPage(today, ReadDate(e).value, s)
  {
  }

  /** The dates of entries that all belong on dated page `s`: one per entry,
      each a real date that belongs on `s`. */
  lemma DatesOfOnPage(today: Date, entries: seq<Entry>, s: Status)
    requires ValidDate(today) && s != NoExpiryDate
    requires forall k :: 0 <= k < |entries| ==> StatusOf(today, entries[k].expiry) == s
    ensures |DatesOf(entries, ReadDate)| == |entries|
    ensures forall k :: 0 <= k < |entries| ==>
              ValidDate(DatesOf(entries, ReadDate)[k]) && OnPage(today, DatesOf(entries, ReadDate)[k], s)
  {
    forall k | 0 <= k < |entries|
      ensures ReadDate(entries[k]).Some? && ValidDate(ReadDate(entries[k]).value)
           && OnPage(today, ReadDate(entries[k]).value, s)
    {
      ReadDateOnPage(today, entries[k], s);
    }
    DatesOfAll(entries, ReadDate);
  }

  /** Each page of the report names exactly the entries whose expiry puts
      them there, in their order, and every entry is on exactly one page. */
  lemma ReportNames(today: Date, entries: seq<Entry>, s: Status)
    requires ValidDate(today)
    ensures PageNames(Report(today, entries), s) == Names(Select(entries, PageOn(today), s))
    ensures var r := Report(today, entries);
      |r.expiredNames| + |r.dueToExpireNames| + |r.inDateNames| + |r.noExpiryDateNames| == |entries|
  {
    var page := PageOn(today);
    PageNamesSelect(entries, page, ReadDate, s);
    PageNamesSelect(entries, page, ReadDate, Expired);
    PageNamesSelect(entries, page, ReadDate, DueToExpire);
    PageNamesSelect(entries, page, ReadDate, InDate);
    PageNamesSelect(entries, page, ReadDate, NoExpiryDate);
    PagesPartition(entries, page);
  }

  /** Each dated page of the report has one date per name, each a date that
      belongs on that page. */
  lemma ReportDates(today: Date, entries: seq<Entry>, s: Status)
    requires ValidDate(today) && s != NoExpiryDate
    ensures var r := Report(today, entries);
      && |PageDates(r, s)| == |PageNames(r, s)|
      && forall k :: 0 <= k < |PageDates(r, s)| ==>
           ValidDate(PageDates(r, s)[k]) && OnPage(today, PageDates(r, s)[k], s)
  {
    var page := PageOn(today);
    var p := Select(entries, page, s);
    forall k | 0 <= k < |p| ensures StatusOf(today, p[k].expiry) == s {
      assert page(p[k]) == s;
    }
    DatesOfOnPage(today, p, s);
    PageDatesSelect(entries, page, ReadDate, s);
    PageNamesSelect(entries, page, ReadDate, s);
  }

  /** The last page of the report lists exactly the texts that do not read
      as a date. */
  lemma ReportUndated(today: Date, entries: seq<Entry>)
    requires ValidDate(today)
    ensures Report(today, entries).noExpiryDate == Texts(Select(entries, PageOn(today), NoExpiryDate))
    ensures var r := Report(today, entries);
      forall k :: 0 <= k < |r.noExpiryDate| ==> ParseExpiry(r.noExpiryDate[k]).None?
  {
    var page := PageOn(today);
    var undated := Select(entries, page, NoExpiryDate);
    UndatedTextsSelect(entries, page, ReadDate);
    forall k | 0 <= k < |undated| ensures ParseExpiry(Texts(undated)[k]).None? {
      assert page(undated[k]) == NoExpiryDate;
    }
  }

  /** The sorting loop of `create_expiry_date_pdf_report` over entries
      already paired with their names: each entry's date (or text) and name
      go on the page for its expiry. */
  method Classify(today: Date, entries: seq<Entry>) returns (report: ExpiryReport)
    requires ValidDate(today)
    ensures report == Report(today, entries)
  {
    report := EmptyReport;
    for i := 0 to |entries|
      invariant report == Report(today, entries[..i])
    {
      var e := entries[i];
      assert entries[..i + 1][..i] == entries[..i];
      assert PageOn(today)(e) == StatusOf(today, e.expiry);
      match ParseExpiry(e.expiry)
      case None =>
        report := report.(noExpiryDate := report.noExpiryDate + [e.expiry],
                          noExpiryDateNames := report.noExpiryDateNames + [e.name]);
      case Some(d) =>
        var diff := DayDifference(d, today);
        if diff < 0 {
          report := report.(expired := report.expired + [d], expiredNames := report.expiredNames + [e.name]);
        } else if diff <= 30 {
          report := report.(dueToExpire := report.dueToExpire + [d],
                            dueToExpireNames := report.dueToExpireNames + [e.name]);
        } else {
          report := report.(inDate := report.inDate + [d], inDateNames := report.inDateNames + [e.name]);
        }
    }
    assert entries[..|entries|] == entries;
  }

  /** Each text of `dates` paired with the name `nameOf` finds for it, in
      order; `None` as soon as one lookup finds nothing. */
  function NameEach(dates: seq<string>, nameOf: string -> Option<string>): (r: Option<seq<Entry>>)
    ensures r.None? <==> exists k :: 0 <= k < |dates| && nameOf(dates[k]).None?
    ensures r.Some? ==> |r.value| == |dates|
    ensures r.Some? ==> forall k :: 0 <= k < |dates| ==>
                          && r.value[k].expiry == dates[k]
                          && Some(r.value[k].name) == nameOf(dates[k])
  {
    if |dates| == 0 then Some([])
    else
      var last := dates[|dates| - 1];
      var earlier := dates[..|dates| - 1];
      assert forall k :: 0 <= k < |earlier| ==> earlier[k] == dates[k];
      match NameEach(earlier, nameOf)
      case None => None
      case Some(front) =>
        match nameOf(last)
        case None => None
        case Some(name) => Some(front + [Entry(name, last)])
  }

  /** Each expiry text paired with the name the report attaches to it: that
      of the first instance in the whole table with the same expiry text;
      `None` when some lookup finds nothing. */
  function GloballyNamed(medications: seq<Medication>, instances: seq<MedicationInstance>, dates: seq<string>)
    : (r: Option<seq<Entry>>)
    ensures r.None? <==> exists k :: 0 <= k < |dates| && NameForExpiry(medications, instances, dates[k]).None?
    ensures r.Some? ==> |r.value| == |dates|
    ensures r.Some? ==> forall k :: 0 <= k < |dates| ==>
                          && r.value[k].expiry == dates[k]
                          && Some(r.value[k].name) == NameForExpiry(medications, instances, dates[k])
  {
    NameEach(dates, date => NameForExpiry(medications, instances, date))
  }

  /** In a store with consecutive ids and no dangling owner reference, every
      expiry date of a resident finds a name, so the report is produced. */
  lemma GloballyNamedFound(medications: seq<Medication>, instances: seq<MedicationInstance>, owned: seq<Medication>)
    requires ConsecutiveIds(medications, MedicationKey)
    requires forall j :: 0 <= j < |instances| ==> 1 <= instances[j].medicationId <= |medications|
    ensures GloballyNamed(medications, instances, ExpiryDates(owned, instances)).Some?
  {
    var dates := ExpiryDates(owned, instances);
    forall k | 0 <= k < |dates| ensures NameForExpiry(medications, instances, dates[k]).Some? {
      ExpiryDatesFromTable(owned, instances, k);
      var i, m :| 0 <= i < |instances| && 0 <= m < |owned|
        && instances[i].expiry == dates[k] && instances[i].medicationId == owned[m].id;
      NameForExpiryFound(medications, instances, i);
    }
  }

  /** `create_expiry_date_pdf_report` as written: the resident's expiry
      dates, each named by the global lookup, sorted onto the four pages as
      of `today`; `None` where a lookup raises `IndexError`. */
  method CreateExpiryDateReport(db: DatabaseManager, today: Date, residentId: int) returns (r: Option<ExpiryReport>)
    requires ValidDate(today)
    ensures r == match GloballyNamed(db.medications, db.instances, db.ExpiryDatesOf(residentId))
                 case None => None
                 case Some(entries) => Some(Report(today, entries))
  {
    var dates := db.CollectExpiryDates(residentId);
    var entries: seq<Entry> := [];
    for i := 0 to |dates|
      invariant GloballyNamed(db.medications, db.instances, dates[..i]) == Some(entries)
    {
      GloballyNamedStep(db.medications, db.instances, dates, i);
      var name := db.MedicationNameForExpiry(dates[i]);
      if name.None? {
        GloballyNamedPrefix(db.medications, db.instances, dates, i + 1);
        return None;
      }
      entries := entries + [Entry(name.value, dates[i])];
    }
    assert dates[..|dates|] == dates;
    var report := Classify(today, entries);
    r := Some(report);
  }

  /** One more date: its lookup either fails, failing the whole pairing, or
      appends one entry. */
  lemma GloballyNamedStep(medications: seq<Medication>, instances: seq<MedicationInstance>, dates: seq<string>, i: nat)
    requires i < |dates|
    ensures var front := GloballyNamed(medications, instances, dates[..i]);
      var name := NameForExpiry(medications, instances, dates[i]);
      GloballyNamed(medications, instances, dates[..i + 1])
        == if front.Some? && name.Some? then Some(front.value + [Entry(name.value, dates[i])]) else None
  {
    assert dates[..i + 1][..i] == dates[..i];
  }

  /** A lookup that fails on a prefix of the dates fails on all of them. */
  lemma GloballyNamedPrefix(medications: seq<Medication>, instances: seq<MedicationInstance>, dates: seq<string>, n: nat)
    requires n <= |dates|
    requires GloballyNamed(medications, instances, dates[..n]).None?
    ensures GloballyNamed(medications, instances, dates).None?
  {
    var k :| 0 <= k < n && NameForExpiry(medications, instances, dates[..n][k]).None?;
    assert dates[..n][k] == dates[k];
  }

  /** The instances of `batch`, each named `name`. */
  function Paired(name: string, batch: seq<MedicationInstance>): (r: seq<Entry>)
    ensures |r| == |batch|
    ensures forall k :: 0 <= k < |r| ==> r[k] == Entry(name, batch[k].expiry)
  {
    seq(|batch|, k requires 0 <= k < |batch| => Entry(name, batch[k].expiry))
  }

  /** Each instance of the `owned` medications named by its OWN medication,
      in the order the expiry dates are collected. */
  function OwnNamed(owned: seq<Medication>, instances: seq<MedicationInstance>): seq<Entry>
    decreases |owned|
  {
    if |owned| == 0 then []
    else
      var last := owned[|owned| - 1];
      OwnNamed(owned[..|owned| - 1], instances) + Paired(last.name, Select(instances, InstanceOwner, last.id))
  }

  /** The own-name pairing lists the same expiry dates in the same order. */
  lemma {:induction false} OwnNamedTexts(owned: seq<Medication>, instances: seq<MedicationInstance>)
    ensures Texts(OwnNamed(owned, instances)) == ExpiryDates(owned, instances)
    decreases |owned|
  {
    if |owned| > 0 {
      var last := owned[|owned| - 1];
      var batch := Select(instances, InstanceOwner, last.id);
      var a: seq<Entry>, b: seq<Entry> := OwnNamed(owned[..|owned| - 1], instances), Paired(last.name, batch);
      OwnNamedTexts(owned[..|owned| - 1], instances);
      TextsAppend(a, b);
      assert Texts(b) == Expiries(batch);
    }
  }

  /** The own-name pairing names each date with one of the `owned` medications. */
  lemma {:induction false} OwnNamedOwners(owned: seq<Medication>, instances: seq<MedicationInstance>)
    ensures forall k :: 0 <= k < |OwnNamed(owned, instances)| ==>
              exists m :: 0 <= m < |owned| && OwnNamed(owned, instances)[k].name == owned[m].name
    decreases |owned|
  {
    if |owned| > 0 {
      var front := owned[..|owned| - 1];
      var last := owned[|owned| - 1];
      var a: seq<Entry>, b: seq<Entry> := OwnNamed(front, instances), Paired(last.name, Select(instances, InstanceOwner, last.id));
      OwnNamedOwners(front, instances);
      assert OwnNamed(owned, instances) == a + b;
      var entries := OwnNamed(owned, instances);
      forall k | 0 <= k < |entries| ensures exists m :: 0 <= m < |owned| && entries[k].name == owned[m].name {
        if k < |a| {
          var m :| 0 <= m < |front| && a[k].name == front[m].name;
          assert entries[k] == a[k] && owned[m] == front[m];
        } else {
          assert entries[k] == b[k - |a|];
          assert entries[k].name == owned[|owned| - 1].name;
        }
      }
    } else {
      assert OwnNamed(owned, instances) == [];
    }
  }

  /** The expiry texts of two runs of entries, one after the other. */
  lemma {:induction false} TextsAppend(a: seq<Entry>, b: seq<Entry>)
    ensures Texts(a + b) == Texts(a) + Texts(b)
    decreases |b|
  {
    if |b| > 0 {
      var b' := b[..|b| - 1];
      assert (a + b)[..|a + b| - 1] == a + b';
      TextsAppend(a, b');
    }
  }

  /** The report with each date named by its own medication: every name on
      every page is that of a medication of the resident. */
  lemma {:induction false} OwnNamedReportNames(today: Date, medications: seq<Medication>,
                                               instances: seq<MedicationInstance>, residentId: int, s: Status)
    requires ValidDate(today)
    ensures var entries := OwnNamed(Select(medications, MedicationOwner, residentId), instances);
      forall k :: 0 <= k < |Select(entries, PageOn(today), s)| ==>
        exists m :: 0 <= m < |medications|
          && medications[m].residentId == residentId
          && Names(Select(entries, PageOn(today), s))[k] == medications[m].name
  {
    var owned := Select(medications, MedicationOwner, residentId);
    var entries := OwnNamed(owned, instances);
    var b := Select(entries, PageOn(today), s);
    OwnNamedOwners(owned, instances);
    forall k | 0 <= k < |b|
      ensures exists m :: 0 <= m < |medications| && medications[m].residentId == residentId
                           && Names(b)[k] == medications[m].name
    {
      var j :| 0 <= j < |entries| && entries[j] == b[k];
      var n :| 0 <= n < |owned| && entries[j].name == owned[n].name;
      assert owned[n] in medications;
      var m :| 0 <= m < |medications| && medications[m] == owned[n];
      assert MedicationOwner(owned[n]) == residentId;
    }
  }

  /** One more instance of a batch pairs one more entry. */
  lemma PairedStep(name: string, batch: seq<MedicationInstance>, j: nat)
    requires j < |batch|
    ensures Paired(name, batch[..j + 1]) == Paired(name, batch[..j]) + [Entry(name, batch[j].expiry)]
  {
  }

  /** One more medication appends its own batch of entries. */
  lemma OwnNamedStep(owned: seq<Medication>, instances: seq<MedicationInstance>, k: nat)
    requires k < |owned|
    ensures OwnNamed(owned[..k + 1], instances)
         == OwnNamed(owned[..k], instances) + Paired(owned[k].name, Select(instances, InstanceOwner, owned[k].id))
  {
    assert owned[..k + 1][..k] == owned[..k];
  }

  /** The expiry report with each date named by its own medication. It
      classifies the dates the one-parameter query collects, in that order
      (`OwnNamedTexts`); only the names differ from the report as written. */
  method CreateOwnNamedExpiryReport(db: DatabaseManager, today: Date, residentId: int) returns (report: ExpiryReport)
    requires ValidDate(today)
    ensures report == Report(today, OwnNamed(db.MedicationsOf(residentId), db.instances))
  {
    var owned := db.MedicationsOf(residentId);
    var entries: seq<Entry> := [];
    for k := 0 to |owned|
      invariant entries == OwnNamed(owned[..k], db.instances)
    {
      var batch := db.InstancesOf(owned[k].id);
      for j := 0 to |batch|
        invariant entries == OwnNamed(owned[..k], db.instances) + Paired(owned[k].name, batch[..j])
      {
        PairedStep(owned[k].name, batch, j);
        entries := entries + [Entry(owned[k].name, batch[j].expiry)];
      }
      assert batch[..|batch|] == batch;
      OwnNamedStep(owned, db.instances, k);
    }
    assert owned[..|owned|] == owned;
    report := Classify(today, entries);
  }

  /** Two residents' medications expiring on the same day: resident 2's
      report names resident 1's medication, while the own-name pairing
      names resident 2's. */
  lemma SharedExpiryMisnamed()
    ensures var medications := [
              Medication(1, "Aspirin", "Aspro", 1, DefaultNotes),
              Medication(2, "Ibuprofen", "Nurofen", 2, DefaultNotes)];
      var instances := [
        MedicationInstance(1, "1/20/24", 10.0, 300.0, "Tablets", None, 1, "Boots", "mg"),
        MedicationInstance(2, "1/20/24", 20.0, 200.0, "Tablets", None, 2, "Boots", "mg")];
      var owned := Select(medications, MedicationOwner, 2);
      && owned == [medications[1]]
      && GloballyNamed(medications, instances, ExpiryDates(owned, instances)) == Some([Entry("Aspirin", "1/20/24")])
      && OwnNamed(owned, instances) == [Entry("Ibuprofen", "1/20/24")]
  {
    var medications := [
      Medication(1, "Aspirin", "Aspro", 1, DefaultNotes),
      Medication(2, "Ibuprofen", "Nurofen", 2, DefaultNotes)];
    var instances := [
      MedicationInstance(1, "1/20/24", 10.0, 300.0, "Tablets", None, 1, "Boots", "mg"),
      MedicationInstance(2, "1/20/24", 20.0, 200.0, "Tablets", None, 2, "Boots", "mg")];
    assert medications[..1] == [medications[0]];
    assert Select(medications[..1], MedicationOwner, 2) == [];
    var owned := Select(medications, MedicationOwner, 2);
    assert owned == [medications[1]];
    assert instances[..1] == [instances[0]];
    var batch := Select(instances, InstanceOwner, 2);
    assert Select(instances[..1], InstanceOwner, 2) == [];
    assert batch == [instances[1]];
    assert owned[..0] == [];
    assert ExpiryDates(owned, instances) == ["1/20/24"];
    assert InstanceExpiry(instances[0]) == "1/20/24";
    assert FirstWith(instances, InstanceExpiry, "1/20/24") == Some(0);
    assert MedicationKey(medications[0]) == 1;
    assert FirstWith(medications, MedicationKey, 1) == Some(0);
    assert NameForExpiry(medications, instances, "1/20/24") == Some("Aspirin");
    var dates := ["1/20/24"];
    assert dates[..0] == [] && dates[0] == "1/20/24";
    assert GloballyNamed(medications, instances, dates[..0]) == Some([]);
    assert [] + [Entry("Aspirin", "1/20/24")] == [Entry("Aspirin", "1/20/24")];
    assert GloballyNamed(medications, instances, ["1/20/24"]) == Some([Entry("Aspirin", "1/20/24")]);
    assert Paired("Ibuprofen", batch) == [Entry("Ibuprofen", "1/20/24")];
  }
}

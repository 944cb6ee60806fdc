/** Effective attendance: stored punches of a factory date with corrections applied, read per date
    or for a range of dates in one bounded scan. */
module EffectiveAttendance {
  import opened Options
  import opened Events
  import opened Calendar
  import opened FactoryZone
  import opened SortKeys

  /** A stored punch: its timestamp as a string is the date key followed by `tail`. */
  datatype Row = Row(id: nat, worker: nat, kind: EventType, stamp: Stamp, tail: string)

  datatype Action = VoidEvent | AddClockIn | AddClockOut

  datatype Correction = Correction(
    id: nat, worker: nat, date: Date, action: Action,
    original: Option<nat>, corrected: Option<Stamp>, kind: Option<EventType>)

  /** `request` is the id of the request that made the reversal. */
  datatype Reversal = Reversal(correction: nat, date: Date, request: nat)

  datatype Tables = Tables(rows: seq<Row>, corrections: seq<Correction>, reversals: seq<Reversal>)

  datatype RecordId = Scanned(id: nat) | Corrected(id: nat)

  /** `key` is the chronological key, empty for a timestamp that denotes no instant. */
  datatype Record = Record(id: RecordId, worker: nat, kind: EventType, stamp: Stamp, key: string)

  // ----- accepted timestamps -----

  /** The factory date of a timestamp, as a day number. */
  function FactoryDay(zone: Zone, s: Stamp): Option<int> {
    match s.suffix
    case WallTime => Some(DayNumber(s.date))
    case BadOffset => None
    case Offset(seconds) => Some(DateOf(zone, WallSecond(s) - seconds))
  }

  /** What ingest accepts: a wall time that exists, or an instant at most one date off its text. */
  predicate Accepts(zone: Zone, s: Stamp) {
    && WellFormed(s) && |s.fraction| <= 9
    && match s.suffix
       case WallTime => EpochOf(zone, s).Some?
       case BadOffset => false
       case Offset(_) => -1 <= FactoryDay(zone, s).value - DayNumber(s.date) <= 1
  }

  /** A timestamp's factory date is the date of its instant, so its date and its key agree. */
  lemma FactoryDayOfInstant(zone: Zone, s: Stamp)
    requires Regular(zone) && EpochOf(zone, s).Some?
    ensures FactoryDay(zone, s) == Some(DateOf(zone, EpochOf(zone, s).value))
  {
    if s.suffix.WallTime? {
      ResolveIsEarliest(zone, WallSecond(s));
      WallIsOnDate(s);
    }
  }

  /** A timestamp is accepted exactly if it denotes an instant, on a factory date at most one off the date
      in its text, to at most nine digits. */
  lemma AcceptedIff(zone: Zone, s: Stamp)
    requires Regular(zone)
    ensures Accepts(zone, s) <==>
            && |s.fraction| <= 9 && EpochOf(zone, s).Some?
            && -1 <= DateOf(zone, EpochOf(zone, s).value) - DayNumber(s.date) <= 1
  {
    if EpochOf(zone, s).Some? {
      FactoryDayOfInstant(zone, s);
    }
  }

  lemma WallIsOnDate(s: Stamp)
    requires WellFormed(s)
    ensures WallSecond(s) / SECONDS_PER_DAY == DayNumber(s.date)
  {
    DaySplits(DayNumber(s.date), s.hour * 3_600 + s.minute * 60 + s.second);
  }

  function Text(row: Row): string
    requires Valid(row.stamp.date) && FourDigitYear(row.stamp.date)
  {
    Key(row.stamp.date) + row.tail
  }

  predicate InScan(row: Row, start: string, end: string)
    requires Valid(row.stamp.date) && FourDigitYear(row.stamp.date)
  {
    !Less(Text(row), start) && Less(Text(row), end)
  }

  lemma TextOrder(row: Row, d: Date)
    requires Valid(row.stamp.date) && FourDigitYear(row.stamp.date) && Valid(d) && FourDigitYear(d)
    ensures Less(Text(row), Key(d)) <==> DayNumber(row.stamp.date) < DayNumber(d)
  {
    KeyOrder(row.stamp.date, d);
    LessByParts(Key(row.stamp.date), Key(d), row.tail, "");
    assert Key(d) + "" == Key(d);
  }

  /** The scan for the dates from `from` to `to` reads exactly the rows whose text is of one of these dates,
      of the one before or of the one after. */
  lemma ScanIsBounded(row: Row, from: Date, to: Date)
    requires Valid(row.stamp.date) && FourDigitYear(row.stamp.date) && InRange(from) && InRange(to)
    ensures Valid(Shift(from, -1)) && FourDigitYear(Shift(from, -1))
    ensures Valid(Shift(to, 2)) && FourDigitYear(Shift(to, 2))
    ensures InScan(row, Key(Shift(from, -1)), Key(Shift(to, 2))) <==>
            DayNumber(from) - 1 <= DayNumber(row.stamp.date) <= DayNumber(to) + 1
  {
    ShiftStaysInFourDigits(from, -1);
    ShiftStaysInFourDigits(to, 2);
    ShiftAddsDays(from, -1);
    ShiftAddsDays(to, 2);
    TextOrder(row, Shift(from, -1));
    TextOrder(row, Shift(to, 2));
  }

  /** A stored timestamp of a factory date between `from` and `to` sorts, as a string, into the scan
      from one date before to two dates after. */
  lemma AcceptedSortsInWindow(zone: Zone, row: Row, from: Date, to: Date)
    requires Accepts(zone, row.stamp) && InRange(row.stamp.date) && InRange(from) && InRange(to)
    requires DayNumber(from) <= FactoryDay(zone, row.stamp).value <= DayNumber(to)
    ensures Valid(Shift(from, -1)) && FourDigitYear(Shift(from, -1))
    ensures Valid(Shift(to, 2)) && FourDigitYear(Shift(to, 2))
    ensures InScan(row, Key(Shift(from, -1)), Key(Shift(to, 2)))
  {
    ScanIsBounded(row, from, to);
  }

  // ----- lists -----

  function Filter<T>(s: seq<T>, keep: T -> bool): seq<T> {
    if s == [] then []
    else Filter(s[..|s| - 1], keep) + (if keep(s[|s| - 1]) then [s[|s| - 1]] else [])
  }

  function Map<T, U>(s: seq<T>, f: T -> U): (r: seq<U>)
    ensures |r| == |s| && forall i :: 0 <= i < |s| ==> r[i] == f(s[i])
  {
    seq(|s|, i requires 0 <= i < |s| => f(s[i]))
  }

  lemma {:induction false} FilterMembers<T>(s: seq<T>, keep: T -> bool)
    ensures forall x :: x in Filter(s, keep) <==> x in s && keep(x)
  {
    if s != [] {
      FilterMembers(s[..|s| - 1], keep);
      assert s == s[..|s| - 1] + [s[|s| - 1]];
    }
  }

  lemma {:induction false} FilterAgrees<T>(s: seq<T>, p: T -> bool, q: T -> bool)
    requires forall i :: 0 <= i < |s| ==> p(s[i]) == q(s[i])
    ensures Filter(s, p) == Filter(s, q)
  {
    if s != [] {
      FilterAgrees(s[..|s| - 1], p, q);
    }
  }

  lemma FilterSnoc<T>(s: seq<T>, x: T, keep: T -> bool)
    ensures Filter(s + [x], keep) == Filter(s, keep) + (if keep(x) then [x] else [])
  {
    assert (s + [x])[..|s|] == s;
  }

  lemma {:induction false} FilterTwice<T>(s: seq<T>, p: T -> bool, q: T -> bool, both: T -> bool)
    requires forall i :: 0 <= i < |s| ==> both(s[i]) == (p(s[i]) && q(s[i]))
    ensures Filter(Filter(s, p), q) == Filter(s, both)
  {
    if s != [] {
      var last := s[|s| - 1];
      var first := Filter(s[..|s| - 1], p);
      FilterTwice(s[..|s| - 1], p, q, both);
      FilterSnoc(first, last, q);
      assert first + [] == first && Filter(first, q) + [] == Filter(first, q);
    }
  }

  lemma {:induction false} FilterCount<T>(s: seq<T>, keep: T -> bool, x: T)
    ensures multiset(Filter(s, keep))[x] == if keep(x) then multiset(s)[x] else 0
  {
    if s != [] {
      FilterCount(s[..|s| - 1], keep, x);
      assert s == s[..|s| - 1] + [s[|s| - 1]];
    }
  }

  // ----- chronological order -----

  /** Records without an instant sort behind all others. */
  function SortText(r: Record): string {
    if r.key == "" then "~" else r.key
  }

  predicate IdBefore(a: RecordId, b: RecordId) {
    (a.Corrected? && b.Scanned?) || (a.Corrected? == b.Corrected? && a.id < b.id)
  }

  predicate RecordBefore(a: Record, b: Record) {
    Less(SortText(a), SortText(b)) || (SortText(a) == SortText(b) && IdBefore(a.id, b.id))
  }

  lemma RecordBeforeTransitive(a: Record, b: Record, c: Record)
    requires RecordBefore(a, b) && RecordBefore(b, c)
    ensures RecordBefore(a, c)
  {
    if Less(SortText(a), SortText(b)) && Less(SortText(b), SortText(c)) {
      LessTransitive(SortText(a), SortText(b), SortText(c));
    }
  }

  lemma RecordBeforeTotal(a: Record, b: Record)
    ensures RecordBefore(a, b) || RecordBefore(b, a) || a.id == b.id
    ensures !(RecordBefore(a, b) && RecordBefore(b, a))
  {
    LessTotal(SortText(a), SortText(b));
    LessIrreflexive(SortText(a));
    if Less(SortText(a), SortText(b)) && Less(SortText(b), SortText(a)) {
      LessTransitive(SortText(a), SortText(b), SortText(a));
    }
  }

  function InsertRecord(sorted: seq<Record>, r: Record): seq<Record> {
    if sorted == [] then [r]
    else if RecordBefore(r, sorted[|sorted| - 1]) then InsertRecord(sorted[..|sorted| - 1], r) + [sorted[|sorted| - 1]]
    else sorted + [r]
  }

  function SortRecords(records: seq<Record>): seq<Record> {
    if records == [] then [] else InsertRecord(SortRecords(records[..|records| - 1]), records[|records| - 1])
  }

  ghost predicate IdsDiffer(records: multiset<Record>) {
    (forall x :: records[x] <= 1) && (forall x, y :: x in records && y in records && x.id == y.id ==> x == y)
  }

  ghost predicate InOrder(records: seq<Record>) {
    forall i, j :: 0 <= i < j < |records| ==> RecordBefore(records[i], records[j])
  }

  lemma {:induction false} InsertKeepsRecords(sorted: seq<Record>, r: Record)
    ensures multiset(InsertRecord(sorted, r)) == multiset(sorted) + multiset{r}
  {
    if sorted != [] && RecordBefore(r, sorted[|sorted| - 1]) {
      InsertKeepsRecords(sorted[..|sorted| - 1], r);
      SplitLast(sorted);
    }
  }

  lemma {:induction false} InsertKeepsOrder(sorted: seq<Record>, r: Record)
    requires InOrder(sorted) && forall i :: 0 <= i < |sorted| ==> sorted[i].id != r.id
    ensures InOrder(InsertRecord(sorted, r))
  {
    if sorted != [] {
      var last := sorted[|sorted| - 1];
      var front := sorted[..|sorted| - 1];
      RecordBeforeTotal(r, last);
      if RecordBefore(r, last) {
        InsertKeepsOrder(front, r);
        InsertKeepsRecords(front, r);
        var rest := InsertRecord(front, r);
        forall i | 0 <= i < |rest| ensures RecordBefore(rest[i], last) {
          assert rest[i] in multiset(rest);
          assert rest[i] in front || rest[i] == r;
        }
      } else {
        forall i | 0 <= i < |sorted| ensures RecordBefore(sorted[i], r) {
          if i < |sorted| - 1 {
            RecordBeforeTransitive(sorted[i], last, r);
          }
        }
      }
    }
  }

  lemma SplitLast(records: seq<Record>)
    requires records != []
    ensures multiset(records) == multiset(records[..|records| - 1]) + multiset{records[|records| - 1]}
  {
    assert records == records[..|records| - 1] + [records[|records| - 1]];
  }

  lemma {:induction false} SortKeepsRecords(records: seq<Record>)
    ensures multiset(SortRecords(records)) == multiset(records)
  {
    if records != [] {
      var front, last := records[..|records| - 1], records[|records| - 1];
      SortKeepsRecords(front);
      InsertKeepsRecords(SortRecords(front), last);
      SplitLast(records);
    }
  }

  lemma SameMembers(a: seq<Record>, b: seq<Record>, x: Record)
    requires multiset(a) == multiset(b)
    ensures x in a <==> x in b
  {
    assert x in a <==> x in multiset(a);
    assert x in b <==> x in multiset(b);
  }

  lemma {:induction false} SortOrders(records: seq<Record>)
    requires IdsDiffer(multiset(records))
    ensures InOrder(SortRecords(records))
  {
    if records != [] {
      var front, last := records[..|records| - 1], records[|records| - 1];
      var sorted := SortRecords(front);
      assert records == front + [last];
      assert multiset(front) == multiset(records) - multiset{last};
      SortOrders(front);
      SortKeepsRecords(front);
      forall i | 0 <= i < |sorted| ensures sorted[i].id != last.id {
        SameMembers(sorted, front, sorted[i]);
        assert sorted[i] in multiset(front);
      }
      InsertKeepsOrder(sorted, last);
    }
  }

  lemma LastIsSame(a: seq<Record>, b: seq<Record>)
    requires InOrder(a) && InOrder(b) && multiset(a) == multiset(b) && a != [] && b != []
    ensures a[|a| - 1] == b[|b| - 1]
  {
    var x, y := a[|a| - 1], b[|b| - 1];
    SameMembers(a, b, x);
    SameMembers(a, b, y);
    RecordBeforeTotal(x, y);
  }

  lemma DropLast(a: seq<Record>)
    requires a != []
    ensures multiset(a[..|a| - 1]) == multiset(a) - multiset{a[|a| - 1]}
    ensures InOrder(a) ==> InOrder(a[..|a| - 1])
  {
    assert a == a[..|a| - 1] + [a[|a| - 1]];
  }

  lemma SameSize(a: seq<Record>, b: seq<Record>)
    requires multiset(a) == multiset(b)
    ensures |a| == |b|
  {
    assert |multiset(a)| == |a| && |multiset(b)| == |b|;
  }

  lemma SameFrontAndLast(a: seq<Record>, b: seq<Record>)
    requires a != [] && b != [] && a[..|a| - 1] == b[..|b| - 1] && a[|a| - 1] == b[|b| - 1]
    ensures a == b
  {
    assert a == a[..|a| - 1] + [a[|a| - 1]];
    assert b == b[..|b| - 1] + [b[|b| - 1]];
  }

  /** A list in order is determined by its records. */
  lemma {:induction false} OrderIsUnique(a: seq<Record>, b: seq<Record>)
    requires InOrder(a) && InOrder(b) && multiset(a) == multiset(b)
    ensures a == b
  {
    SameSize(a, b);
    if a != [] {
      LastIsSame(a, b);
      DropLast(a);
      DropLast(b);
      OrderIsUnique(a[..|a| - 1], b[..|b| - 1]);
      SameFrontAndLast(a, b);
    }
  }

  /** Sorting does not depend on the order in which the records were found. */
  lemma SortIgnoresOrder(a: seq<Record>, b: seq<Record>)
    requires multiset(a) == multiset(b) && IdsDiffer(multiset(a))
    ensures SortRecords(a) == SortRecords(b)
  {
    SortKeepsRecords(a);
    SortKeepsRecords(b);
    SortOrders(a);
    SortOrders(b);
    OrderIsUnique(SortRecords(a), SortRecords(b));
  }
}

/** The calendar-note service: validation and normalisation on create and update, the ownership
    check that a non-admin caller passes through, the query filters, the upcoming-events window and
    the month range. Dates are milliseconds since 1970-01-01T00:00:00Z. */
module CalendarService {
  import opened Strings
  import opened Domain
  import opened Store

  const TitleRequiredMessage := "El título es requerido"
  const DateRequiredMessage := "La fecha es requerida"
  const NoteNotFoundMessage := "Nota de calendario no encontrada"
  const NoteMissingMessage := "Nota de calendario no encontrada o sin permisos"
  const NoteDeletedMessage := "Nota eliminada exitosamente"
  const EmptyTitleMessage := "El título no puede estar vacío"
  const BadMonthMessage := "Año y mes válidos son requeridos"

  const MsPerDay := 86400000

  // ---------------------------------------------------------------- normalisation

  /** `description?.trim() || null`: a description that trims to nothing is stored as null. */
  function NormalizedDescription(d: Option<string>): (r: Option<string>)
    ensures r.Some? ==> d.Some? && r.value != "" && r.value == Trim(d.value)
    ensures r.None? <==> d.None? || Trim(d.value) == ""
  {
    if d.Some? && Trim(d.value) != "" then Some(Trim(d.value)) else None
  }

  /** Normalising a stored description again changes nothing. */
  lemma NormalizedDescriptionIdempotent(d: Option<string>)
    ensures NormalizedDescription(NormalizedDescription(d)) == NormalizedDescription(d)
  {
    if d.Some? {
      TrimIdempotent(d.value);
    }
  }

  // ---------------------------------------------------------------- createCalendarNote

  /** A note as the request body gives it; `None` is a field left undefined (or null where `??`
      treats both alike). */
  datatype NoteInput = NoteInput(title: Option<string>, description: Option<string>, noteDate: Option<int>, isEvent: Option<bool>)

  /** Whether the title is missing or only whitespace. */
  predicate BlankTitle(title: Option<string>) {
    !Truthy(title) || Trim(title.value) == ""
  }

  /** `createCalendarNote`: the title is required and must not be blank, the date is required; the
      stored title is trimmed, a blank description becomes null and `is_event` defaults to false. A
      user id with no user row fails the foreign key (P2003). */
  method CreateCalendarNote(db: Database, uid: int, input: NoteInput) returns (r: Result<int>)
    requires db.Valid()
    modifies db
    ensures db.Valid()
    ensures BlankTitle(input.title) ==> r == Err(Thrown(TitleRequiredMessage))
    ensures !BlankTitle(input.title) && input.noteDate.None? ==> r == Err(Thrown(DateRequiredMessage))
    ensures !BlankTitle(input.title) && input.noteDate.Some? && uid !in old(db.users) ==> r.Err? && r.error.KnownRequest? && r.error.code == "P2003"
    ensures r.Ok? <==> !BlankTitle(input.title) && input.noteDate.Some? && uid in old(db.users)
    ensures r.Err? ==> unchanged(db)
    ensures r.Ok? ==>
      && r.value !in old(db.notes)
      && db.notes == old(db.notes)[r.value := CalendarNote(uid, Trim(input.title.value),
           NormalizedDescription(input.description), input.noteDate.value, input.isEvent.GetOr(false))]
      && db.publications == old(db.publications) && db.media == old(db.media) && db.clients == old(db.clients)
      && db.users == old(db.users) && db.files == old(db.files)
  {
    if BlankTitle(input.title) {
      return Err(Thrown(TitleRequiredMessage));
    }
    if input.noteDate.None? {
      return Err(Thrown(DateRequiredMessage));
    }
    if uid !in db.users {
      return Err(KnownRequest("P2003", "calendar_notes_user_id_fkey"));
    }
    var note := CalendarNote(uid, Trim(input.title.value), NormalizedDescription(input.description),
                             input.noteDate.value, input.isEvent.GetOr(false));
    var id := db.InsertNote(note);
    r := Ok(id);
  }

  /** A stored title is never blank and is its own trim. */
  lemma StoredTitleIsTrimmed(title: Option<string>)
    requires !BlankTitle(title)
    ensures Trim(title.value) != "" && Trim(Trim(title.value)) == Trim(title.value)
  {
    TrimIdempotent(title.value);
  }

  // ---------------------------------------------------------------- ownership

  /** The `findFirst` of update, delete and lookup: the note exists and, when a user id is given
      (a non-admin caller), belongs to that user. */
  predicate Visible(notes: map<int, CalendarNote>, id: int, userId: Option<int>) {
    id in notes && (userId.None? || notes[id].userId == userId.value)
  }

  /** An admin (no user id) sees every note; a user sees exactly their own. */
  lemma VisibleToOwnerOrAdmin(notes: map<int, CalendarNote>, id: int, uid: int)
    requires id in notes
    ensures Visible(notes, id, None)
    ensures Visible(notes, id, Some(uid)) <==> notes[id].userId == uid
  {
  }

  /** `getCalendarNoteById`. */
  function GetCalendarNoteById(notes: map<int, CalendarNote>, id: int, userId: Option<int>): (r: Result<CalendarNote>)
    ensures r.Ok? <==> Visible(notes, id, userId)
    ensures r.Ok? ==> r.value == notes[id]
    ensures r.Err? ==> r.error == Thrown(NoteNotFoundMessage)
  {
    if Visible(notes, id, userId) then Ok(notes[id]) else Err(Thrown(NoteNotFoundMessage))
  }

  // ---------------------------------------------------------------- updateCalendarNote

  /** A note update; the description can also be set to null. */
  datatype NoteUpdate = NoteUpdate(title: Option<string>, description: Field<string>, noteDate: Option<int>, isEvent: Option<bool>)

  /** The note an update leaves: each supplied field replaces the stored one, the title trimmed and
      the description normalised; the owner never changes. */
  function PatchNote(n: CalendarNote, upd: NoteUpdate): (r: CalendarNote)
    ensures r.userId == n.userId
    ensures upd.title.None? ==> r.title == n.title
    ensures upd.description.Absent? ==> r.description == n.description
    ensures upd.description.Null? ==> r.description.None?
    ensures upd.noteDate.None? ==> r.noteDate == n.noteDate
    ensures upd.isEvent.None? ==> r.isEvent == n.isEvent
    ensures upd.title.Some? ==> r.title == Trim(upd.title.value)
    ensures upd.description.Present? ==> r.description == NormalizedDescription(Some(upd.description.value))
    ensures upd.noteDate.Some? ==> r.noteDate == upd.noteDate.value
    ensures upd.isEvent.Some? ==> r.isEvent == upd.isEvent.value
  {
    CalendarNote(
      n.userId,
      if upd.title.Some? then Trim(upd.title.value) else n.title,
      match upd.description
        case Absent => n.description
        case Null => None
        case Present(d) => NormalizedDescription(Some(d)),
      upd.noteDate.GetOr(n.noteDate),
      upd.isEvent.GetOr(n.isEvent))
  }

  /** Applying an update twice leaves the note applying it once leaves. */
  lemma PatchNoteIdempotent(n: CalendarNote, upd: NoteUpdate)
    ensures PatchNote(PatchNote(n, upd), upd) == PatchNote(n, upd)
  {
    if upd.title.Some? {
      TrimIdempotent(upd.title.value);
    }
  }

  /** `updateCalendarNote`: the ownership check, the blank-title check, then the fields supplied,
      collected one after the other and written together. */
  method UpdateCalendarNote(db: Database, id: int, userId: Option<int>, upd: NoteUpdate) returns (r: Result<CalendarNote>)
    requires db.Valid()
    modifies db
    ensures db.Valid()
    ensures !Visible(old(db.notes), id, userId) ==> r == Err(Thrown(NoteMissingMessage))
    ensures Visible(old(db.notes), id, userId) && upd.title.Some? && Trim(upd.title.value) == ""
            ==> r == Err(Thrown(EmptyTitleMessage))
    ensures r.Ok? <==> Visible(old(db.notes), id, userId) && (upd.title.None? || Trim(upd.title.value) != "")
    ensures r.Err? ==> unchanged(db)
    ensures r.Ok? ==>
      && r.value == PatchNote(old(db.notes)[id], upd)
      && db.notes == old(db.notes)[id := r.value]
      && db.publications == old(db.publications) && db.media == old(db.media) && db.clients == old(db.clients)
      && db.users == old(db.users) && db.files == old(db.files)
  {
    if !Visible(db.notes, id, userId) {
      return Err(Thrown(NoteMissingMessage));
    }
    var note := db.notes[id];
    if upd.title.Some? {
      if Trim(upd.title.value) == "" {
        return Err(Thrown(EmptyTitleMessage));
      }
      note := note.(title := Trim(upd.title.value));
    }
    match upd.description {
      case Absent =>
      case Null => note := note.(description := None);
      case Present(d) => note := note.(description := NormalizedDescription(Some(d)));
    }
    if upd.noteDate.Some? {
      note := note.(noteDate := upd.noteDate.value);
    }
    if upd.isEvent.Some? {
      note := note.(isEvent := upd.isEvent.value);
    }
    db.UpdateNoteRow(id, note);
    r := Ok(note);
  }

  // ---------------------------------------------------------------- deleteCalendarNote

  /** `deleteCalendarNote`: the ownership check, then the deletion; the reply carries only a
      confirmation message. */
  method DeleteCalendarNote(db: Database, id: int, userId: Option<int>) returns (r: Result<string>)
    requires db.Valid()
    modifies db
    ensures db.Valid()
    ensures !Visible(old(db.notes), id, userId) ==> r == Err(Thrown(NoteMissingMessage)) && unchanged(db)
    ensures Visible(old(db.notes), id, userId) ==>
      && r == Ok(NoteDeletedMessage)
      && db.notes == old(db.notes) - {id}
      && db.publications == old(db.publications) && db.media == old(db.media) && db.clients == old(db.clients)
      && db.users == old(db.users) && db.files == old(db.files)
  {
    if !Visible(db.notes, id, userId) {
      return Err(Thrown(NoteMissingMessage));
    }
    db.DeleteNoteRow(id);
    r := Ok(NoteDeletedMessage);
  }

  // ---------------------------------------------------------------- filters

  /** The `where` object of a listing: an optional owner, an optional inclusive date range and an
      optional `is_event` value. */
  datatype NoteQuery = NoteQuery(user: Option<int>, range: Option<(int, int)>, isEvent: Option<bool>)

  /** The range applies only when both ends are given (a one-sided range is dropped). */
  function RangeOf(startDate: Option<int>, endDate: Option<int>): Option<(int, int)> {
    if startDate.Some? && endDate.Some? then Some((startDate.value, endDate.value)) else None
  }

  /** `getCalendarNotesByUser`'s filter. */
  function UserNotesQuery(uid: int, startDate: Option<int>, endDate: Option<int>, isEvent: Option<bool>): NoteQuery {
    NoteQuery(Some(uid), RangeOf(startDate, endDate), isEvent)
  }

  /** `getAllCalendarNotes`' filter. The user id arrives as a query string, which is truthy whenever
      it is non-empty ("0" included), so `userId` is `None` only when the parameter is absent or
      empty and otherwise holds its parsed value, 0 included. */
  function AllNotesQuery(userId: Option<int>, startDate: Option<int>, endDate: Option<int>, isEvent: Option<bool>): NoteQuery {
    NoteQuery(userId, RangeOf(startDate, endDate), isEvent)
  }

  predicate Matches(n: CalendarNote, q: NoteQuery) {
    && (q.user.None? || n.userId == q.user.value)
    && (q.range.None? || q.range.value.0 <= n.noteDate <= q.range.value.1)
    && (q.isEvent.None? || n.isEvent == q.isEvent.value)
  }

  /** The ids of the notes a query selects. */
  function Select(notes: map<int, CalendarNote>, q: NoteQuery): (r: set<int>)
    ensures r <= notes.Keys
    ensures forall id :: id in r <==> id in notes && Matches(notes[id], q)
  {
    set id | id in notes && Matches(notes[id], q)
  }

  /** A range with only one end selects exactly what no range selects. */
  lemma OneSidedRangeIgnored(notes: map<int, CalendarNote>, uid: int, startDate: Option<int>, isEvent: Option<bool>)
    ensures Select(notes, UserNotesQuery(uid, startDate, None, isEvent)) == Select(notes, UserNotesQuery(uid, None, None, isEvent))
    ensures Select(notes, UserNotesQuery(uid, None, startDate, isEvent)) == Select(notes, UserNotesQuery(uid, None, None, isEvent))
  {
  }

  /** Leaving `is_event` undefined selects the events and the plain notes together. */
  lemma UndefinedIsEventSelectsBoth(notes: map<int, CalendarNote>, q: NoteQuery)
    requires q.isEvent.None?
    ensures Select(notes, q) == Select(notes, q.(isEvent := Some(true))) + Select(notes, q.(isEvent := Some(false)))
  {
    var both := Select(notes, q.(isEvent := Some(true))) + Select(notes, q.(isEvent := Some(false)));
    assert forall id :: id in Select(notes, q) <==> id in both;
  }

  /** A user's listing is the admin listing filtered on that user. */
  lemma UserListingIsAdminListingForUser(notes: map<int, CalendarNote>, uid: int, s: Option<int>, e: Option<int>, ev: Option<bool>)
    ensures Select(notes, UserNotesQuery(uid, s, e, ev)) == Select(notes, AllNotesQuery(Some(uid), s, e, ev))
    ensures Select(notes, UserNotesQuery(uid, s, e, ev)) <= Select(notes, AllNotesQuery(None, s, e, ev))
  {
  }

  // ---------------------------------------------------------------- getUpcomingEvents

  /** The order of `orderBy: { note_date: "asc" }`, ties broken by id. */
  predicate NoteLe(notes: map<int, CalendarNote>, a: int, b: int)
    requires a in notes && b in notes
  {
    notes[a].noteDate < notes[b].noteDate || (notes[a].noteDate == notes[b].noteDate && a <= b)
  }

  /** Every non-empty set of notes has a least element in that order. */
  lemma {:induction false} LeastExists(notes: map<int, CalendarNote>, ids: set<int>)
    requires ids != {} && ids <= notes.Keys
    ensures exists m :: m in ids && forall x :: x in ids ==> NoteLe(notes, m, x)
    decreases |ids|
  {
    HasElement(ids);
    var a :| a in ids;
    var rest := ids - {a};
    if rest == {} {
      forall x | x in ids ensures NoteLe(notes, a, x) {
        assert x !in rest;
      }
    } else {
      LeastExists(notes, rest);
      var m :| m in rest && forall x :: x in rest ==> NoteLe(notes, m, x);
      var least := if NoteLe(notes, a, m) then a else m;
      forall x | x in ids ensures NoteLe(notes, least, x) {
        if x != a {
          assert x in rest;
          assert NoteLe(notes, m, x);
        }
      }
      assert least in ids;
    }
  }

  /** The notes `ids` in ascending date order. */
  function Ordered(notes: map<int, CalendarNote>, ids: set<int>): (r: seq<int>)
    requires ids <= notes.Keys
    ensures |r| == |ids|
    ensures forall i :: 0 <= i < |r| ==> r[i] in ids
    ensures forall x :: x in ids ==> x in r
    ensures forall i, j :: 0 <= i < j < |r| ==> r[i] != r[j] && NoteLe(notes, r[i], r[j])
    decreases |ids|
  {
    if ids == {} then []
    else
      LeastExists(notes, ids);
      var m :| m in ids && forall x :: x in ids ==> NoteLe(notes, m, x);
      var rest := Ordered(notes, ids - {m});
      ConsOrdered(notes, ids, m, rest);
      [m] + rest
  }

  /** Putting the least note in front of the others in order gives all of them in order. */
  lemma ConsOrdered(notes: map<int, CalendarNote>, ids: set<int>, m: int, rest: seq<int>)
    requires ids <= notes.Keys && m in ids
    requires forall x :: x in ids ==> NoteLe(notes, m, x)
    requires |rest| == |ids - {m}|
    requires forall i :: 0 <= i < |rest| ==> rest[i] in ids - {m}
    requires forall x :: x in ids - {m} ==> x in rest
    requires forall i, j :: 0 <= i < j < |rest| ==> rest[i] != rest[j] && NoteLe(notes, rest[i], rest[j])
    ensures |[m] + rest| == |ids|
    ensures forall i :: 0 <= i < |[m] + rest| ==> ([m] + rest)[i] in ids
    ensures forall x :: x in ids ==> x in [m] + rest
    ensures forall i, j :: 0 <= i < j < |[m] + rest| ==>
      ([m] + rest)[i] != ([m] + rest)[j] && NoteLe(notes, ([m] + rest)[i], ([m] + rest)[j])
  {
    var r := [m] + rest;
    forall i, j | 0 <= i < j < |r|
      ensures r[i] != r[j] && NoteLe(notes, r[i], r[j])
    {
      assert r[j] == rest[j - 1];
      if i > 0 {
        assert r[i] == rest[i - 1];
      }
    }
    forall x | x in ids
      ensures x in r
    {
      if x != m {
        assert x in ids - {m};
      }
    }
  }

  const UpcomingLimit := 10

  /** The notes `getUpcomingEvents` may return: the user's events dated from `now` to `daysAhead`
      days later, both ends included. */
  function UpcomingCandidates(notes: map<int, CalendarNote>, uid: int, now: int, daysAhead: int): set<int> {
    Select(notes, NoteQuery(Some(uid), Some((now, now + daysAhead * MsPerDay)), Some(true)))
  }

  /** `getUpcomingEvents`: the candidates in date order, at most ten of them. */
  function UpcomingEvents(notes: map<int, CalendarNote>, uid: int, now: int, daysAhead: int): (r: seq<int>)
    ensures |r| <= UpcomingLimit
    ensures forall i :: 0 <= i < |r| ==>
      && r[i] in notes && notes[r[i]].userId == uid && notes[r[i]].isEvent
      && now <= notes[r[i]].noteDate <= now + daysAhead * MsPerDay
    ensures forall i, j :: 0 <= i < j < |r| ==>
      r[i] != r[j] && r[i] in notes && r[j] in notes && notes[r[i]].noteDate <= notes[r[j]].noteDate
    ensures |r| == if |UpcomingCandidates(notes, uid, now, daysAhead)| < UpcomingLimit
                   then |UpcomingCandidates(notes, uid, now, daysAhead)| else UpcomingLimit
    ensures forall id :: id in UpcomingCandidates(notes, uid, now, daysAhead) && id !in r ==>
      |r| == UpcomingLimit && r[UpcomingLimit - 1] in notes && notes[r[UpcomingLimit - 1]].noteDate <= notes[id].noteDate
  {
    var all := Ordered(notes, UpcomingCandidates(notes, uid, now, daysAhead));
    if |all| <= UpcomingLimit then all else all[..UpcomingLimit]
  }

  // ---------------------------------------------------------------- getCalendarNotesByMonth

  predicate IsLeap(y: int) {
    y % 4 == 0 && (y % 100 != 0 || y % 400 == 0)
  }

  function DaysInYear(y: int): int {
    if IsLeap(y) then 366 else 365
  }

  function DaysInMonth(y: int, m: int): int
    requires 1 <= m <= 12
  {
    if m == 2 then (if IsLeap(y) then 29 else 28)
    else if m == 4 || m == 6 || m == 9 || m == 11 then 30
    else 31
  }

  /** Days from January 1 to the first of month `m` (13 standing for the next January 1). */
  function DaysBeforeMonth(y: int, m: int): int
    requires 1 <= m <= 13
  {
    var common := [0, 31, 59, 90, 120, 151, 181, 212, 243, 273, 304, 334, 365][m - 1];
    if m > 2 && IsLeap(y) then common + 1 else common
  }

  /** The month table agrees with the month lengths, and twelve months make the year. */
  lemma MonthStep(y: int, m: int)
    requires 1 <= m <= 12
    ensures DaysBeforeMonth(y, m + 1) == DaysBeforeMonth(y, m) + DaysInMonth(y, m)
    ensures DaysBeforeMonth(y, 13) == DaysInYear(y)
  {
  }

  /** Leap years in 1..n (for any integer n, a counting function whose steps are the leap years). */
  function Leaps(n: int): int {
    n / 4 - n / 100 + n / 400
  }

  /** Days from 1970-01-01 to January 1 of year `y` (proleptic Gregorian calendar). */
  function DaysBeforeYear(y: int): int {
    365 * (y - 1970) + Leaps(y - 1) - Leaps(1969)
  }

  /** Stepping back from `y` crosses a multiple of 4 exactly when `y` is one. */
  lemma QuarterStep(y: int)
    ensures (y - 1) / 4 == if y % 4 == 0 then y / 4 - 1 else y / 4
  {
    var q := y / 4;
    if y % 4 == 0 {
      assert y - 1 == 4 * (q - 1) + 3;
    } else {
      assert y - 1 == 4 * q + (y % 4 - 1);
    }
  }

  /** Stepping back from `y` crosses a multiple of 100 exactly when `y` is one. */
  lemma CenturyStep(y: int)
    ensures (y - 1) / 100 == if y % 100 == 0 then y / 100 - 1 else y / 100
  {
    var q := y / 100;
    if y % 100 == 0 {
      assert y - 1 == 100 * (q - 1) + 99;
    } else {
      assert y - 1 == 100 * q + (y % 100 - 1);
    }
  }

  /** Stepping back from `y` crosses a multiple of 400 exactly when `y` is one. */
  lemma QuadricentennialStep(y: int)
    ensures (y - 1) / 400 == if y % 400 == 0 then y / 400 - 1 else y / 400
  {
    var q := y / 400;
    if y % 400 == 0 {
      assert y - 1 == 400 * (q - 1) + 399;
    } else {
      assert y - 1 == 400 * q + (y % 400 - 1);
    }
  }

  /** A multiple of 400 is a multiple of 100, and a multiple of 100 is a multiple of 4. */
  lemma DivisibilityChain(y: int)
    ensures y % 400 == 0 ==> y % 100 == 0
    ensures y % 100 == 0 ==> y % 4 == 0
  {
    if y % 400 == 0 {
      CenturyOfQuadricentennial(y);
    }
    if y % 100 == 0 {
      QuarterOfCentury(y);
    }
  }

  lemma CenturyOfQuadricentennial(y: int)
    requires y % 400 == 0
    ensures y % 100 == 0
  {
    var k := y / 400;
    assert y == 100 * (4 * k);
    assert y / 100 == 4 * k;
  }

  lemma QuarterOfCentury(y: int)
    requires y % 100 == 0
    ensures y % 4 == 0
  {
    var k := y / 100;
    assert y == 4 * (25 * k);
    assert y / 4 == 25 * k;
  }

  /** The leap-year count goes up by one exactly at a leap year. */
  lemma LeapCountStep(y: int)
    ensures Leaps(y) - Leaps(y - 1) == if IsLeap(y) then 1 else 0
  {
    QuarterStep(y);
    CenturyStep(y);
    QuadricentennialStep(y);
    DivisibilityChain(y);
  }

  /** Consecutive years are `DaysInYear` apart. */
  lemma YearStep(y: int)
    ensures DaysBeforeYear(y + 1) == DaysBeforeYear(y) + DaysInYear(y)
  {
    LeapCountStep(y);
  }

  /** ECMAScript MakeDay (ECMA-262, section 21.4.1.28): the day number of `date` in month index
      `monthIndex` (0-based, overflowing into the following years) of year `y`. */
  function MakeDay(y: int, monthIndex: int, date: int): int {
    var ym := y + monthIndex / 12;
    var mn := monthIndex % 12;
    DaysBeforeYear(ym) + DaysBeforeMonth(ym, mn + 1) + date - 1
  }

  /** The day number of a calendar date with `1 <= m <= 12`. */
  function DayNumber(y: int, m: int, d: int): int
    requires 1 <= m <= 12
  {
    DaysBeforeYear(y) + DaysBeforeMonth(y, m) + d - 1
  }

  lemma DayNumberAnchors()
    ensures DayNumber(1970, 1, 1) == 0
    ensures DayNumber(2000, 1, 1) == 10957
    ensures DayNumber(2000, 3, 1) == 11017
    ensures DayNumber(1969, 12, 31) == -1
  {
  }

  /** Day 0 of the following month, as MakeDay reads it, is the last day of month `m`. */
  lemma MonthEnd(y: int, m: int)
    requires 1 <= m <= 12
    ensures MakeDay(y, m - 1, 1) == DayNumber(y, m, 1)
    ensures MakeDay(y, m, 0) == DayNumber(y, m, DaysInMonth(y, m))
  {
    MonthFirst(y, m);
    MonthLast(y, m);
  }

  lemma MonthFirst(y: int, m: int)
    requires 1 <= m <= 12
    ensures MakeDay(y, m - 1, 1) == DayNumber(y, m, 1)
  {
    assert (m - 1) / 12 == 0 && (m - 1) % 12 == m - 1;
  }

  lemma MonthLast(y: int, m: int)
    requires 1 <= m <= 12
    ensures MakeDay(y, m, 0) == DayNumber(y, m, DaysInMonth(y, m))
  {
    MonthStep(y, m);
    if m == 12 {
      assert m / 12 == 1 && m % 12 == 0;
      YearStep(y);
    } else {
      assert m / 12 == 0 && m % 12 == m;
    }
  }

  /** The year `new Date(year, ...)` uses: 0 to 99 mean 1900 to 1999. */
  function FullYear(year: int): int {
    if 0 <= year <= 99 then 1900 + year else year
  }

  /** `getCalendarNotesByMonth`'s window, `new Date(year, month - 1, 1)` to
      `new Date(year, month, 0, 23, 59, 59, 999)`: a missing (zero) year or month, or a month
      outside 1..12, is refused. */
  function MonthRange(year: int, month: int): (r: Result<(int, int)>)
    ensures r.Ok? <==> year != 0 && 1 <= month <= 12
    ensures r.Err? ==> r.error == Thrown(BadMonthMessage)
    ensures r.Ok? ==>
      var y := FullYear(year);
      && r.value.0 == DayNumber(y, month, 1) * MsPerDay
      && r.value.1 == DayNumber(y, month, DaysInMonth(y, month)) * MsPerDay + (MsPerDay - 1)
  {
    if year == 0 || month == 0 || month < 1 || month > 12 then Err(Thrown(BadMonthMessage))
    else
      var y := FullYear(year);
      var start := MakeDay(y, month - 1, 1) * MsPerDay;
      var end := MakeDay(y, month, 0) * MsPerDay + ((23 * 60 + 59) * 60 + 59) * 1000 + 999;
      MonthEnd(y, month);
      Ok((start, end))
  }

  /** Consecutive months' windows abut: each ends one millisecond before the next begins. */
  lemma MonthsTile(year: int, month: int)
    requires year != 0 && 1 <= month <= 12
    requires month == 12 ==> year + 1 != 0 && year != 99 && year != -1
    ensures var next := if month == 12 then MonthRange(year + 1, 1) else MonthRange(year, month + 1);
      MonthRange(year, month).value.1 + 1 == next.value.0
  {
    var y := FullYear(year);
    MonthStep(y, month);
    if month == 12 {
      YearStep(y);
    }
  }

  /** The month's window spans exactly its days. */
  lemma MonthRangeLength(year: int, month: int)
    requires year != 0 && 1 <= month <= 12
    ensures MonthRange(year, month).value.1 - MonthRange(year, month).value.0 + 1
            == DaysInMonth(FullYear(year), month) * MsPerDay
  {
  }

  /** `getCalendarNotesByMonth`: the user's notes inside the month's window. */
  function NotesByMonth(notes: map<int, CalendarNote>, uid: int, year: int, month: int): (r: Result<set<int>>)
    ensures r.Ok? <==> year != 0 && 1 <= month <= 12
    ensures r.Ok? ==> forall id :: id in r.value <==>
      id in notes && notes[id].userId == uid
      && MonthRange(year, month).value.0 <= notes[id].noteDate <= MonthRange(year, month).value.1
  {
    var range := MonthRange(year, month);
    if range.Err? then Err(range.error)
    else Ok(Select(notes, NoteQuery(Some(uid), Some(range.value), None)))
  }
}

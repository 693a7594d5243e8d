/**
 * The booking-creation mutation: status choice, the temporary reference, the
 * normalised insert payload, the blocked-date rows written for a non-enquiry
 * booking, and the mapping of the row the database returns.
 *
 * The database is abstracted: the response to the booking insert is an input,
 * and the inserts the mutation issues are part of its result.
 */
module CreateBooking {
  import opened Common
  import opened BookingTypes
  import Calendar
  import Text

  // ---------------------------------------------------------------------------
  // Status

  /** The status written at creation: an enquiry is `new_enquiry`, anything else `quote_sent`. */
  function InitialStatus(isEnquiryOnly: bool): (s: DbBookingStatus)
    ensures s == DbNewEnquiry <==> isEnquiryOnly
    ensures s == QuoteSent <==> !isEnquiryOnly
  {
    if isEnquiryOnly then DbNewEnquiry else QuoteSent
  }

  // ---------------------------------------------------------------------------
  // Temporary reference: "TEMP" + upper-case base-36 of the clock

  /** `n.toString(36)` for one digit: 0-9 then a-z. */
  function Base36Char(d: nat): char
    requires d < 36
  {
    if d < 10 then ('0' as int + d) as char else ('a' as int + d - 10) as char
  }

  /** `n.toString(36)`: base-36 digits, most significant first, no leading zeros. */
  function Base36(n: nat): (s: string)
    ensures |s| >= 1
    decreases n
  {
    if n < 36 then [Base36Char(n)] else Base36(n / 36) + [Base36Char(n % 36)]
  }

  /** An upper-case base-36 digit: 0-9 or A-Z. */
  predicate IsUpperBase36Char(c: char) {
    '0' <= c <= '9' || 'A' <= c <= 'Z'
  }

  /** The value of one upper-case base-36 digit. */
  function UpperBase36Value(c: char): nat
    requires IsUpperBase36Char(c)
  {
    if '0' <= c <= '9' then c as int - '0' as int else c as int - 'A' as int + 10
  }

  /** The number an upper-case base-36 string denotes. */
  function ParseUpperBase36(s: string): nat
    requires forall i :: 0 <= i < |s| ==> IsUpperBase36Char(s[i])
  {
    if |s| == 0 then 0
    else ParseUpperBase36(s[..|s| - 1]) * 36 + UpperBase36Value(s[|s| - 1])
  }

  /** `generateTempReference()` with the clock reading `now` (milliseconds) passed in. */
  function TempReference(now: nat): (r: string)
    ensures Text.StartsWith(r, "TEMP") && |r| > 4
    ensures forall i :: 4 <= i < |r| ==> IsUpperBase36Char(r[i])
  {
    UpperBase36Digits(now);
    var r := "TEMP" + Text.ToUpper(Base36(now));
    assert r[..4] == "TEMP";
    r
  }

  /** Upper-casing base-36 digits gives upper-case digits. */
  lemma UpperBase36Digits(n: nat)
    ensures forall i :: 0 <= i < |Text.ToUpper(Base36(n))| ==> IsUpperBase36Char(Text.ToUpper(Base36(n))[i])
    decreases n
  {
    var s := Base36(n);
    forall i | 0 <= i < |s|
      ensures IsUpperBase36Char(Text.UpperChar(s[i]))
    {
      Base36CharsAreDigits(n, i);
    }
  }

  lemma {:induction false} Base36CharsAreDigits(n: nat, i: nat)
    requires i < |Base36(n)|
    ensures '0' <= Base36(n)[i] <= '9' || 'a' <= Base36(n)[i] <= 'z'
    decreases n
  {
    if n >= 36 && i < |Base36(n / 36)| {
      Base36CharsAreDigits(n / 36, i);
    }
  }

  /** The reference encodes the clock reading exactly: reading its digits back gives `now`. */
  lemma {:induction false} TempReferenceDecodes(now: nat)
    ensures var r := TempReference(now);
            (forall i :: 0 <= i < |r[4..]| ==> IsUpperBase36Char(r[4..][i])) &&
            ParseUpperBase36(r[4..]) == now
    decreases now
  {
    var r := TempReference(now);
    assert r[4..] == Text.ToUpper(Base36(now));
    UpperDigitsDecode(now);
  }

  lemma {:induction false} UpperDigitsDecode(n: nat)
    ensures forall i :: 0 <= i < |Text.ToUpper(Base36(n))| ==> IsUpperBase36Char(Text.ToUpper(Base36(n))[i])
    ensures ParseUpperBase36(Text.ToUpper(Base36(n))) == n
    decreases n
  {
    UpperBase36Digits(n);
    var u := Text.ToUpper(Base36(n));
    if n >= 36 {
      UpperDigitsDecode(n / 36);
      assert u[..|u| - 1] == Text.ToUpper(Base36(n / 36));
      assert u[|u| - 1] == Text.UpperChar(Base36Char(n % 36));
    }
  }

  /** Two clock readings give the same reference only if they are equal. */
  lemma TempReferenceInjective(a: nat, b: nat)
    requires TempReference(a) == TempReference(b)
    ensures a == b
  {
    TempReferenceDecodes(a);
    TempReferenceDecodes(b);
  }

  // ---------------------------------------------------------------------------
  // The insert payload

  /** The identity returned by the auth provider. */
  datatype AuthUser = AuthUser(id: string)

  /**
   * The `bookings` row the mutation inserts. Date columns hold the day; on the
   * wire each is `Calendar.IsoDate` of it, as for the blocked dates.
   */
  datatype BookingInsert = BookingInsert(
    bookingReference: string,
    userId: Option<string>,
    guestName: string,
    guestEmail: string,
    guestPhone: string,
    guestCity: Option<string>,
    specialRequests: Option<string>,
    roomCategoryId: string,
    packageId: Option<string>,
    checkInDate: Calendar.Day,
    checkOutDate: Calendar.Day,
    numNights: int,
    numAdults: int,
    numChildren: int,
    mealPlan: MealPlan,
    roomTotal: real,
    extraGuestTotal: real,
    mealPlanTotal: real,
    packageTotal: real,
    taxes: real,
    discountAmount: real,
    grandTotal: real,
    status: DbBookingStatus,
    isEnquiryOnly: bool)

  /** `email.trim().toLowerCase()`. */
  function NormalizeEmail(email: string): (r: string)
    ensures |r| == |Text.Trim(email)|
    ensures forall i :: 0 <= i < |r| ==> r[i] == Text.LowerChar(Text.Trim(email)[i])
    ensures forall i :: 0 <= i < |r| ==> !Text.IsAsciiUpper(r[i])
    ensures |r| == 0 || (!Text.IsWhitespace(r[0]) && !Text.IsWhitespace(r[|r| - 1]))
  {
    Text.ToLower(Text.Trim(email))
  }

  /** A normalised address is left alone by normalising it again. */
  lemma NormalizeEmailIdempotent(email: string)
    ensures NormalizeEmail(NormalizeEmail(email)) == NormalizeEmail(email)
  {
    var r := NormalizeEmail(email);
    Text.TrimStartNoop(r);
    Text.TrimEndNoop(r);
    Text.ToLowerIdempotent(Text.Trim(email));
  }

  /** `s.trim() || null`: a blank field is stored as null, anything else trimmed. */
  function TrimmedOrNull(s: string): (r: Option<string>)
    ensures r == None <==> Text.AllWhitespace(s)
    ensures r.Some? ==> r.value == Text.Trim(s) && |r.value| > 0
  {
    Text.TrimRemovesOnlyEdgeWhitespace(s);
    Text.EmptyToNull(Text.Trim(s))
  }

  /** `x || null` for an optional string: null and `""` both become null. */
  function OrNull(o: Option<string>): (r: Option<string>)
    ensures r == None <==> (o == None || o == Some(""))
    ensures r.Some? ==> r == o
  {
    Text.EmptyToNull(Text.NullToEmpty(o))
  }

  /** The error thrown before any write: a date left unset makes `toISOString` throw. */
  datatype BookingError = MissingDate | InsertFailed(message: string) | NoDataReturned

  /** The object literal passed to `insert`; `None` when a date is unset (the non-null assertion fails). */
  function BuildInsert(form: BookingFormData, price: PriceBreakdown, user: Option<AuthUser>, now: nat)
    : (r: Option<BookingInsert>)
    ensures r.None? <==> form.checkInDate.None? || form.checkOutDate.None?
  {
    if form.checkInDate.None? || form.checkOutDate.None? then None
    else
      var userId := if user.Some? then Text.EmptyToNull(user.value.id) else None;
      Some(BookingInsert(
        bookingReference := TempReference(now),
        userId := userId,
        guestName := Text.Trim(form.guestName),
        guestEmail := NormalizeEmail(form.guestEmail),
        guestPhone := Text.Trim(form.guestPhone),
        guestCity := TrimmedOrNull(form.guestCity),
        specialRequests := TrimmedOrNull(form.specialRequests),
        roomCategoryId := form.roomCategoryId,
        packageId := OrNull(form.packageId),
        checkInDate := form.checkInDate.value,
        checkOutDate := form.checkOutDate.value,
        numNights := price.numNights,
        numAdults := form.numAdults,
        numChildren := form.numChildren,
        mealPlan := form.mealPlan,
        roomTotal := price.roomTotal,
        extraGuestTotal := price.extraGuestTotal,
        mealPlanTotal := price.mealPlanTotal,
        packageTotal := price.packageTotal,
        taxes := price.taxes,
        discountAmount := 0.0,
        grandTotal := price.grandTotal,
        status := InitialStatus(form.isEnquiryOnly),
        isEnquiryOnly := form.isEnquiryOnly))
  }

  /** The payload's fields: reference, status and flag; contact fields trimmed, e-mail lower-cased, blank optional fields null; the stay as entered; figures copied from the quote, no discount. */
  lemma BuildInsertFields(form: BookingFormData, price: PriceBreakdown, user: Option<AuthUser>, now: nat)
    ensures BuildInsert(form, price, user, now).Some? ==> var p := BuildInsert(form, price, user, now).value;
      && p.bookingReference == TempReference(now)
      && p.status == InitialStatus(form.isEnquiryOnly)
      && p.isEnquiryOnly == form.isEnquiryOnly
      // contact fields: trimmed; e-mail lower-cased; blank optional fields become null
      && p.guestName == Text.Trim(form.guestName)
      && p.guestEmail == NormalizeEmail(form.guestEmail)
      && p.guestPhone == Text.Trim(form.guestPhone)
      && p.guestCity == TrimmedOrNull(form.guestCity)
      && p.specialRequests == TrimmedOrNull(form.specialRequests)
      && (p.userId.Some? <==> user.Some? && user.value.id != "")
      && (p.userId.Some? ==> p.userId.value == user.value.id)
      && p.packageId == OrNull(form.packageId)
      // stay
      && p.roomCategoryId == form.roomCategoryId
      && p.checkInDate == form.checkInDate.value
      && p.checkOutDate == form.checkOutDate.value
      && p.numAdults == form.numAdults && p.numChildren == form.numChildren
      && p.mealPlan == form.mealPlan
      // figures: copied from the quote, no discount at creation
      && p.numNights == price.numNights
      && p.roomTotal == price.roomTotal
      && p.extraGuestTotal == price.extraGuestTotal
      && p.mealPlanTotal == price.mealPlanTotal
      && p.packageTotal == price.packageTotal
      && p.taxes == price.taxes
      && p.grandTotal == price.grandTotal
      && p.discountAmount == 0.0
  {}

  // ---------------------------------------------------------------------------
  // Blocked dates

  /**
   * One `blocked_dates` row. The date column is kept as the day itself; on the
   * wire it is `Calendar.IsoDate(blockedDate)`, which is injective.
   */
  datatype BlockedDateRow = BlockedDateRow(
    roomCategoryId: string,
    blockedDate: Calendar.Day,
    roomsBlocked: int,
    reason: string,
    bookingId: string)

  /** Nights of a stay: check-out minus check-in, none when check-out is not later. */
  function Nights(checkIn: Calendar.Day, checkOut: Calendar.Day): nat {
    if checkIn < checkOut then checkOut - checkIn else 0
  }

  /** The row blocking day `d` for a booking. */
  function BlockRow(roomCategoryId: string, bookingId: string, d: Calendar.Day): BlockedDateRow {
    BlockedDateRow(roomCategoryId, d, 1, "Booking", bookingId)
  }

  /** Reference definition: the row for night `i` blocks day `checkIn + i`. */
  function BlockedRows(roomCategoryId: string, bookingId: string, checkIn: Calendar.Day, checkOut: Calendar.Day)
    : (rows: seq<BlockedDateRow>)
    ensures |rows| == Nights(checkIn, checkOut)
    ensures forall i :: 0 <= i < |rows| ==>
      && rows[i].roomCategoryId == roomCategoryId && rows[i].roomsBlocked == 1
      && rows[i].reason == "Booking" && rows[i].bookingId == bookingId
      && checkIn <= rows[i].blockedDate < checkOut
  {
    var n := Nights(checkIn, checkOut);
    var rows := seq(n, i requires 0 <= i < n => BlockRow(roomCategoryId, bookingId, checkIn + i));
    assert forall i :: 0 <= i < n ==> rows[i] == BlockRow(roomCategoryId, bookingId, checkIn + i) && i < checkOut - checkIn;
    rows
  }

  /** Row `i` of the reference rows blocks day `checkIn + i`. */
  lemma BlockedRowsShape(roomCategoryId: string, bookingId: string, checkIn: Calendar.Day, checkOut: Calendar.Day)
    ensures var rows := BlockedRows(roomCategoryId, bookingId, checkIn, checkOut);
            && |rows| == Nights(checkIn, checkOut)
            && forall i :: 0 <= i < |rows| ==> rows[i] == BlockRow(roomCategoryId, bookingId, checkIn + i)
  {}

  /** The source's loop: from check-in, one row per day while the day is before check-out. */
  method CollectBlockedRows(roomCategoryId: string, bookingId: string, checkIn: Calendar.Day, checkOut: Calendar.Day)
    returns (rows: seq<BlockedDateRow>)
    ensures |rows| == Nights(checkIn, checkOut)
    ensures forall i :: 0 <= i < |rows| ==>
      rows[i] == BlockedDateRow(roomCategoryId, checkIn + i, 1, "Booking", bookingId)
    ensures rows == BlockedRows(roomCategoryId, bookingId, checkIn, checkOut)
  {
    rows := [];
    var d := checkIn;
    while d < checkOut
      invariant checkIn <= d
      invariant d <= checkOut || d == checkIn
      invariant |rows| == d - checkIn
      invariant forall i :: 0 <= i < |rows| ==> rows[i] == BlockRow(roomCategoryId, bookingId, checkIn + i)
    {
      rows := rows + [BlockRow(roomCategoryId, bookingId, d)];
      d := d + 1;
    }
  }

  /**
   * The rows block exactly the nights of the stay: a day is blocked iff
   * check-in <= day < check-out, so the check-out day itself stays free.
   */
  lemma BlockedRowsCoverStay(roomCategoryId: string, bookingId: string,
                             checkIn: Calendar.Day, checkOut: Calendar.Day, d: Calendar.Day)
    ensures var rows := BlockedRows(roomCategoryId, bookingId, checkIn, checkOut);
            (exists i :: 0 <= i < |rows| && rows[i].blockedDate == d) <==> checkIn <= d < checkOut
  {
    var rows := BlockedRows(roomCategoryId, bookingId, checkIn, checkOut);
    BlockedRowsShape(roomCategoryId, bookingId, checkIn, checkOut);
    if checkIn <= d < checkOut {
      assert rows[d - checkIn].blockedDate == d;
    }
  }

  /** Consecutive rows block consecutive days, so the rows are strictly increasing and distinct. */
  lemma BlockedRowsConsecutive(roomCategoryId: string, bookingId: string,
                               checkIn: Calendar.Day, checkOut: Calendar.Day)
    ensures var rows := BlockedRows(roomCategoryId, bookingId, checkIn, checkOut);
            && (forall i :: 0 < i < |rows| ==> rows[i].blockedDate == rows[i - 1].blockedDate + 1)
            && (forall i, j :: 0 <= i < j < |rows| ==> rows[i].blockedDate < rows[j].blockedDate)
            && (|rows| > 0 ==> rows[0].blockedDate == checkIn && rows[|rows| - 1].blockedDate == checkOut - 1)
  {
    BlockedRowsShape(roomCategoryId, bookingId, checkIn, checkOut);
  }

  /** On the wire the rows carry distinct `YYYY-MM-DD` strings (four-digit years). */
  lemma BlockedRowsRenderDistinct(roomCategoryId: string, bookingId: string,
                                  checkIn: Calendar.Day, checkOut: Calendar.Day, i: nat, j: nat)
    requires Calendar.ToCivil(checkOut).year <= 9999
    requires i < j < Nights(checkIn, checkOut)
    ensures var rows := BlockedRows(roomCategoryId, bookingId, checkIn, checkOut);
            Calendar.IsoDate(rows[i].blockedDate) != Calendar.IsoDate(rows[j].blockedDate)
  {
    var rows := BlockedRows(roomCategoryId, bookingId, checkIn, checkOut);
    BlockedRowsShape(roomCategoryId, bookingId, checkIn, checkOut);
    var di, dj := rows[i].blockedDate, rows[j].blockedDate;
    assert di == checkIn + i && dj == checkIn + j;
    Calendar.YearMonotonic(dj, checkOut);
    Calendar.IsoDateDistinct(di, dj);
  }

  // ---------------------------------------------------------------------------
  // The row the database returns, and the booking the hook hands back

  /** Columns of the returned row that the hook copies as they are. */
  datatype CopiedColumns = CopiedColumns(
    userId: Option<string>,
    guestName: string,
    guestEmail: string,
    guestPhone: Option<string>,
    guestCountry: Option<string>,
    specialRequests: Option<string>,
    roomCategoryId: Option<string>,
    packageId: Option<string>,
    checkInDate: string,
    checkOutDate: string,
    numAdults: int,
    numChildren: int,
    numRooms: int,
    internalNotes: Option<string>,
    assignedRoomNumbers: Option<seq<string>>,
    source: Option<string>,
    paymentStatus: Option<string>,
    paymentMethod: Option<string>,
    paymentReference: Option<string>,
    createdAt: string,
    updatedAt: string)

  /** The `bookings` row returned by `insert(...).select().single()`; its numeric columns may be null or absent. */
  datatype BookingRow = BookingRow(
    id: string,
    bookingReference: string,
    copied: CopiedColumns,
    basePrice: Option<real>,
    taxes: Option<real>,
    extras: Option<real>,
    discount: Option<real>,
    grandTotal: Option<real>,
    status: DbBookingStatus,
    isEnquiryOnly: bool)

  /** The booking the mutation resolves with. */
  datatype Booking = Booking(
    id: string,
    bookingReference: string,
    copied: CopiedColumns,
    basePrice: real,
    taxes: real,
    extras: real,
    discount: real,
    grandTotal: real,
    status: DbBookingStatus,
    isEnquiryOnly: bool)

  /** `Number(x) || 0` on a nullable numeric column. */
  function NumberOrZero(x: Option<real>): (r: real)
    ensures x.None? ==> r == 0.0
    ensures x.Some? ==> r == x.value
  {
    x.GetOr(0.0)
  }

  /** The response mapping: the five money columns default to 0, every other column is copied. */
  function MapRow(row: BookingRow): (b: Booking)
    ensures b.id == row.id && b.bookingReference == row.bookingReference
    ensures b.copied == row.copied && b.status == row.status && b.isEnquiryOnly == row.isEnquiryOnly
    ensures b.basePrice == NumberOrZero(row.basePrice) && b.taxes == NumberOrZero(row.taxes)
    ensures b.extras == NumberOrZero(row.extras) && b.discount == NumberOrZero(row.discount)
    ensures b.grandTotal == NumberOrZero(row.grandTotal)
  {
    Booking(row.id, row.bookingReference, row.copied,
            NumberOrZero(row.basePrice), NumberOrZero(row.taxes), NumberOrZero(row.extras),
            NumberOrZero(row.discount), NumberOrZero(row.grandTotal),
            row.status, row.isEnquiryOnly)
  }

  /** A row whose money columns are all present maps back to itself. */
  lemma MapRowKeepsPresentNumbers(row: BookingRow)
    requires row.basePrice.Some? && row.taxes.Some? && row.extras.Some?
    requires row.discount.Some? && row.grandTotal.Some?
    ensures var b := MapRow(row);
            BookingRow(b.id, b.bookingReference, b.copied, Some(b.basePrice), Some(b.taxes),
                       Some(b.extras), Some(b.discount), Some(b.grandTotal), b.status, b.isEnquiryOnly) == row
  {}

  // ---------------------------------------------------------------------------
  // The whole mutation

  /** What the database answered to the booking insert. */
  datatype InsertResponse = InsertError(message: string) | InsertReturnedNothing | InsertReturned(row: BookingRow)

  /** A write the mutation issues, in order. */
  datatype Write = WriteBooking(booking: BookingInsert) | WriteBlockedDates(rows: seq<BlockedDateRow>)

  /** The writes issued and how the mutation settles. */
  datatype Creation = Creation(writes: seq<Write>, result: Result<Booking, BookingError>)

  /**
   * `mutationFn` of `useCreateBooking`: build and insert the booking, stop on
   * an error or an empty answer, then, for a non-enquiry, insert one blocked
   * date per night (skipped when there are none), and return the mapped row.
   * The answer to the blocked-date insert is not inspected.
   */
  function Create(form: BookingFormData, price: PriceBreakdown, user: Option<AuthUser>, now: nat,
                  response: InsertResponse): (c: Creation)
    // a missing date fails before anything is written
    ensures (form.checkInDate.None? || form.checkOutDate.None?) ==>
              c.writes == [] && c.result == Err(MissingDate)
    // otherwise the booking insert is always the first write
    ensures form.checkInDate.Some? && form.checkOutDate.Some? ==>
              |c.writes| >= 1 && c.writes[0] == WriteBooking(BuildInsert(form, price, user, now).value)
    // a failed or empty insert aborts before any date blocking
    ensures response.InsertError? && |c.writes| >= 1 ==>
              c.writes == c.writes[..1] && c.result == Err(InsertFailed(response.message))
    ensures response.InsertReturnedNothing? && |c.writes| >= 1 ==>
              |c.writes| == 1 && c.result == Err(NoDataReturned)
    // success: the mapped row is returned
    ensures response.InsertReturned? && |c.writes| >= 1 ==> c.result == Ok(MapRow(response.row))
    // date blocking: only for non-enquiries, only when there is at least one night
    ensures |c.writes| == 2 <==>
              && form.checkInDate.Some? && form.checkOutDate.Some? && response.InsertReturned?
              && !form.isEnquiryOnly && form.checkInDate.value < form.checkOutDate.value
    ensures |c.writes| == 2 ==>
              c.writes[1] == WriteBlockedDates(BlockedRows(form.roomCategoryId, response.row.id,
                                                           form.checkInDate.value, form.checkOutDate.value))
    ensures |c.writes| <= 2
  {
    match BuildInsert(form, price, user, now)
    case None => Creation([], Err(MissingDate))
    case Some(payload) =>
      var first := [WriteBooking(payload)];
      match response
      case InsertError(message) => Creation(first, Err(InsertFailed(message)))
      case InsertReturnedNothing => Creation(first, Err(NoDataReturned))
      case InsertReturned(row) =>
        var blocks := if form.isEnquiryOnly then []
                      else BlockedRows(form.roomCategoryId, row.id, form.checkInDate.value, form.checkOutDate.value);
        var writes := if |blocks| > 0 then first + [WriteBlockedDates(blocks)] else first;
        Creation(writes, Ok(MapRow(row)))
  }

  /** An enquiry never writes a blocked date, whatever the dates. */
  lemma EnquiryBlocksNothing(form: BookingFormData, price: PriceBreakdown, user: Option<AuthUser>, now: nat,
                             response: InsertResponse)
    requires form.isEnquiryOnly
    ensures forall w :: w in Create(form, price, user, now, response).writes ==> w.WriteBooking?
  {
    var c := Create(form, price, user, now, response);
    if form.checkInDate.None? || form.checkOutDate.None? {
      assert c.writes == [];
    } else {
      var first := WriteBooking(BuildInsert(form, price, user, now).value);
      assert |c.writes| == 1 && c.writes[0] == first;
      assert c.writes == [first];
    }
  }

  /** A non-enquiry that was stored blocks every night of its stay, each row pointing at the stored booking. */
  lemma ConfirmedBlocksEveryNight(form: BookingFormData, price: PriceBreakdown, user: Option<AuthUser>, now: nat,
                                  row: BookingRow)
    requires !form.isEnquiryOnly && form.checkInDate.Some? && form.checkOutDate.Some?
    requires form.checkInDate.value < form.checkOutDate.value
    ensures var c := Create(form, price, user, now, InsertReturned(row));
            && |c.writes| == 2 && c.writes[1].WriteBlockedDates?
            && |c.writes[1].rows| == form.checkOutDate.value - form.checkInDate.value
            && forall i :: 0 <= i < |c.writes[1].rows| ==>
                 var r := c.writes[1].rows[i];
                 r.roomCategoryId == form.roomCategoryId && r.roomsBlocked == 1 &&
                 r.reason == "Booking" && r.bookingId == row.id &&
                 r.blockedDate == form.checkInDate.value + i
  {
    var c := Create(form, price, user, now, InsertReturned(row));
    var checkIn, checkOut := form.checkInDate.value, form.checkOutDate.value;
    var rows := BlockedRows(form.roomCategoryId, row.id, checkIn, checkOut);
    assert |c.writes| == 2;
    assert c.writes[1] == WriteBlockedDates(rows);
    BlockedRowsShape(form.roomCategoryId, row.id, checkIn, checkOut);
    forall i | 0 <= i < |rows|
      ensures rows[i].roomCategoryId == form.roomCategoryId && rows[i].roomsBlocked == 1
      ensures rows[i].reason == "Booking" && rows[i].bookingId == row.id && rows[i].blockedDate == checkIn + i
    {
      assert rows[i] == BlockRow(form.roomCategoryId, row.id, checkIn + i);
    }
  }
}

/**
 * The booking vocabulary: the application-level enumerations and records of
 * `src/types/booking.ts`, and the database's own `booking_status` enumeration,
 * which is wider and is what the booking insert actually writes.
 */
module BookingTypes {
  import opened Common
  import Calendar

  /** The application's five booking states. */
  datatype BookingStatus = NewEnquiry | PendingConfirmation | Confirmed | Cancelled | Completed

  /** The database's `booking_status` enumeration. */
  datatype DbBookingStatus =
    | DbNewEnquiry | EnquiryResponded | QuoteSent | BookingConfirmed
    | CheckedIn | CheckedOut | DbCancelled | NoShow

  /** Wire name of an application status. */
  function StatusName(s: BookingStatus): string {
    match s
    case NewEnquiry => "new_enquiry"
    case PendingConfirmation => "pending_confirmation"
    case Confirmed => "confirmed"
    case Cancelled => "cancelled"
    case Completed => "completed"
  }

  /** Wire name of a database status. */
  function DbStatusName(s: DbBookingStatus): string {
    match s
    case DbNewEnquiry => "new_enquiry"
    case EnquiryResponded => "enquiry_responded"
    case QuoteSent => "quote_sent"
    case BookingConfirmed => "booking_confirmed"
    case CheckedIn => "checked_in"
    case CheckedOut => "checked_out"
    case DbCancelled => "cancelled"
    case NoShow => "no_show"
  }

  /** The two enumerations share exactly the names `new_enquiry` and `cancelled`; `quote_sent` is not an application status. */
  lemma SharedStatusNames(a: BookingStatus, d: DbBookingStatus)
    ensures StatusName(a) == DbStatusName(d) <==>
            (a == NewEnquiry && d == DbNewEnquiry) || (a == Cancelled && d == DbCancelled)
  {}

  datatype MealPlan = EP | CP | MAP | AP

  datatype SeasonType = Peak | Regular | OffPeak

  datatype PackageType = Honeymoon | Safari | Family | Corporate | Weekend | Wedding | Seasonal

  /**
   * The quote handed to the booking hook. It is produced elsewhere and only
   * read here; its figures are carried as they are.
   */
  datatype PriceBreakdown = PriceBreakdown(
    numNights: int,
    baseRoomPrice: real,
    seasonMultiplier: real,
    roomTotal: real,
    extraAdults: int,
    extraChildren: int,
    extraAdultTotal: real,
    extraChildTotal: real,
    extraGuestTotal: real,
    mealPlanAdultTotal: real,
    mealPlanChildTotal: real,
    mealPlanTotal: real,
    packageTotal: real,
    subtotal: real,
    taxRate: real,
    taxes: real,
    grandTotal: real)

  /** What the booking wizard collects; the dates are unset until the guest picks them. */
  datatype BookingFormData = BookingFormData(
    checkInDate: Option<Calendar.Day>,
    checkOutDate: Option<Calendar.Day>,
    numAdults: int,
    numChildren: int,
    roomCategoryId: string,
    packageId: Option<string>,
    mealPlan: MealPlan,
    guestName: string,
    guestEmail: string,
    guestPhone: string,
    guestCity: string,
    specialRequests: string,
    isEnquiryOnly: bool)
}

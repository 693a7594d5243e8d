/**
 * The enquiries page: a fixed fetch of new enquiries, then a client-side
 * filter keeping enquiry-only bookings and those still `new_enquiry`.
 */
module Enquiries {
  import opened Common
  import opened BookingTypes
  import Seqs
  import Calendar
  import CreateBooking

  /** The list filters handed to the bookings query. */
  datatype BookingFilters = BookingFilters(
    search: string,
    status: string,
    roomCategoryId: string,
    dateFrom: Option<Calendar.Day>,
    dateTo: Option<Calendar.Day>)

  datatype Fetch = Fetch(filters: BookingFilters, page: int, pageSize: int)

  /** The page's query: new enquiries, all rooms, no search, no dates, the first 50. */
  function EnquiryFetch(): (f: Fetch)
    ensures f.filters.status == DbStatusName(DbNewEnquiry)
    ensures f.filters.search == "" && f.filters.roomCategoryId == "all"
    ensures f.filters.dateFrom.None? && f.filters.dateTo.None?
    ensures f.page == 1 && f.pageSize == 50
  {
    Fetch(BookingFilters("", "new_enquiry", "all", None, None), 1, 50)
  }

  /** `b.is_enquiry_only || b.status === "new_enquiry"`. */
  predicate IsEnquiry(b: CreateBooking.Booking) {
    b.isEnquiryOnly || b.status == DbNewEnquiry
  }

  /** The enquiries shown: the fetched bookings that are enquiries, in fetched order. */
  function Shown(bookings: seq<CreateBooking.Booking>): (r: seq<CreateBooking.Booking>)
    ensures forall i :: 0 <= i < |r| ==> IsEnquiry(r[i]) && r[i] in bookings
    ensures forall i :: 0 <= i < |bookings| && IsEnquiry(bookings[i]) ==> bookings[i] in r
    ensures |r| <= |bookings|
  {
    Seqs.Filter(bookings, IsEnquiry)
  }

  /** The shown list keeps the fetched order, and filtering it again changes nothing. */
  lemma ShownIsOrderedAndStable(bookings: seq<CreateBooking.Booking>)
    ensures Seqs.IsSubsequence(Shown(bookings), bookings)
    ensures Shown(Shown(bookings)) == Shown(bookings)
  {
    Seqs.FilterIsSubsequence(bookings, IsEnquiry);
    Seqs.FilterIdempotent(bookings, IsEnquiry);
  }

  /** When the server honours the status filter, the client filter keeps everything fetched. */
  lemma ServerFilteredListShownWhole(bookings: seq<CreateBooking.Booking>)
    requires forall i :: 0 <= i < |bookings| ==> bookings[i].status == DbNewEnquiry
    ensures Shown(bookings) == bookings
  {
    Seqs.FilterAll(bookings, IsEnquiry);
  }
}

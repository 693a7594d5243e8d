/**
 * The booking status badge: a label and colour classes looked up by the raw
 * status text, falling back to the new-enquiry entry for any status without
 * one, and the class list handed to the badge.
 */
module StatusBadge {
  import opened Common
  import opened BookingTypes

  datatype StatusConfig = StatusConfig(caption: string, className: string)

  /** The label of each application status. */
  function Caption(s: BookingStatus): string {
    match s
    case NewEnquiry => "New Enquiry"
    case PendingConfirmation => "Pending"
    case Confirmed => "Confirmed"
    case Cancelled => "Cancelled"
    case Completed => "Completed"
  }

  /** The colour classes of each application status. */
  function ColourClasses(s: BookingStatus): string {
    match s
    case NewEnquiry => "bg-amber-100 text-amber-800 border-amber-200 hover:bg-amber-100"
    case PendingConfirmation => "bg-blue-100 text-blue-800 border-blue-200 hover:bg-blue-100"
    case Confirmed => "bg-emerald-100 text-emerald-800 border-emerald-200 hover:bg-emerald-100"
    case Cancelled => "bg-red-100 text-red-800 border-red-200 hover:bg-red-100"
    case Completed => "bg-slate-100 text-slate-800 border-slate-200 hover:bg-slate-100"
  }

  /** The `statusConfig` entry of each application status. */
  function ConfigOf(s: BookingStatus): (c: StatusConfig)
    ensures forall t: BookingStatus :: Caption(t) == c.caption ==> t == s
  {
    CaptionNamesStatus(s);
    StatusConfig(Caption(s), ColourClasses(s))
  }

  /** The application status a raw status text names, if any. */
  function ParseStatus(text: string): (r: Option<BookingStatus>)
    ensures r.Some? ==> StatusName(r.value) == text
    ensures forall s: BookingStatus :: StatusName(s) == text ==> r == Some(s)
  {
    if text == "new_enquiry" then Some(NewEnquiry)
    else if text == "pending_confirmation" then Some(PendingConfirmation)
    else if text == "confirmed" then Some(Confirmed)
    else if text == "cancelled" then Some(Cancelled)
    else if text == "completed" then Some(Completed)
    else None
  }

  /** `statusConfig[status] || statusConfig.new_enquiry`. */
  function BadgeConfig(status: string): (c: StatusConfig)
    ensures ParseStatus(status).Some? ==> c == ConfigOf(ParseStatus(status).value)
    ensures ParseStatus(status).None? ==> c == ConfigOf(NewEnquiry)
  {
    match ParseStatus(status)
    case Some(s) => ConfigOf(s)
    case None => ConfigOf(NewEnquiry)
  }

  /** Parsing a status's own name gives the status back. */
  lemma ParseStatusName(a: BookingStatus)
    ensures ParseStatus(StatusName(a)) == Some(a)
  {
    match a
    case NewEnquiry =>
    case PendingConfirmation => assert StatusName(a) != "new_enquiry";
    case Confirmed => assert StatusName(a)[0] == 'c';
    case Cancelled => assert StatusName(a)[1] == 'a';
    case Completed => assert StatusName(a)[2] == 'm';
  }

  /** The five labels are pairwise distinct. */
  lemma CaptionsDistinct(a: BookingStatus, b: BookingStatus)
    requires a != b
    ensures Caption(a) != Caption(b)
  {
    var ca, cb := Caption(a), Caption(b);
    if |ca| == |cb| {
      // Equal-length captions ("Pending", "Confirmed"/"Cancelled"/"Completed") differ early.
      assert ca[1] != cb[1] || ca[2] != cb[2];
    }
  }

  /** A caption names exactly one status. */
  lemma CaptionNamesStatus(s: BookingStatus)
    ensures forall t: BookingStatus :: Caption(t) == Caption(s) ==> t == s
  {
    forall t: BookingStatus | t != s
      ensures Caption(t) != Caption(s)
    {
      CaptionsDistinct(t, s);
    }
  }

  /** Every application status shows its own entry, so the five statuses show five different labels. */
  lemma EachStatusHasOwnLabel(a: BookingStatus, b: BookingStatus)
    ensures BadgeConfig(StatusName(a)) == ConfigOf(a)
    ensures a != b ==> BadgeConfig(StatusName(a)).caption != BadgeConfig(StatusName(b)).caption
  {
    ParseStatusName(a);
    ParseStatusName(b);
    if a != b {
      CaptionsDistinct(a, b);
    }
  }

  /** A database status shows "Cancelled" when it is `cancelled` and "New Enquiry" otherwise, `quote_sent` and `booking_confirmed` included. */
  lemma DatabaseStatusLabels(d: DbBookingStatus)
    ensures BadgeConfig(DbStatusName(d)).caption == (if d == DbCancelled then "Cancelled" else "New Enquiry")
  {
    ParseStatusName(Cancelled);
    ParseStatusName(NewEnquiry);
  }

  /** `cn(base, config.className, className)`, without class-conflict merging: falsy entries dropped, order kept. */
  function BadgeClasses(status: string, className: Option<string>): (classes: seq<string>)
    ensures |classes| >= 2
    ensures classes[0] == "font-medium text-xs px-2.5 py-0.5" && classes[1] == BadgeConfig(status).className
    ensures |classes| == 3 <==> className.Some? && className.value != ""
    ensures |classes| == 3 ==> classes[2] == className.value
  {
    ["font-medium text-xs px-2.5 py-0.5", BadgeConfig(status).className]
      + (if className.Some? && className.value != "" then [className.value] else [])
  }
}

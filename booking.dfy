/**
 * The booking ledger and the single decision of the booking demo (main.go):
 * the package-level `remainingTickets` and `bookings` become the fields of a
 * `Ledger` object, `bookTicket` and `getFirstNames` its methods, and the
 * validate-then-book logic of `main` its `Session` method. What `main`
 * would print is returned as a sequence of `Notice` tags.
 */
module Booking {
  import opened GoBuiltins
  import opened Helper

  /** `conferenceTickets`: the capacity of the conference. */
  const ConferenceTickets: int := 50

  /** The initial value of the package variable `remainingTickets`. */
  const InitialRemainingTickets: Uint := 50

  /** One accepted booking (`userData`); never changed once appended. */
  datatype UserData = UserData(firstName: string, lastName: string, email: string, numberOfTickets: Uint)

  /** The messages of `main` that carry a decision, without their text. */
  datatype Notice =
    | NameTooShort        // a first or last name is shorter than two bytes
    | EmailInvalid        // the email address has no '@'
    | TicketCountInvalid  // the ticket count is not acceptable
    | SoldOut             // no tickets are left after this booking

  /** Tickets held by the given bookings, in total. */
  function TicketsBooked(bookings: seq<UserData>): nat
  {
    if bookings == [] then 0 else bookings[0].numberOfTickets + TicketsBooked(bookings[1..])
  }

  /** Appending a booking adds exactly its tickets to the total. */
  lemma {:induction false} TicketsBookedAppend(bookings: seq<UserData>, booking: UserData)
    ensures TicketsBooked(bookings + [booking]) == TicketsBooked(bookings) + booking.numberOfTickets
  {
    if bookings != [] {
      assert (bookings + [booking])[1..] == bookings[1..] + [booking];
      TicketsBookedAppend(bookings[1..], booking);
    }
  }

  /** The first names of the given bookings, in booking order. */
  function FirstNamesOf(bookings: seq<UserData>): (names: seq<string>)
    ensures |names| == |bookings|
    ensures forall i :: 0 <= i < |bookings| ==> names[i] == bookings[i].firstName
  {
    if bookings == [] then [] else [bookings[0].firstName] + FirstNamesOf(bookings[1..])
  }

  /** A booking that passed all three checks when it was made. */
  predicate Accepted(booking: UserData)
  {
    |booking.firstName| >= 2 && |booking.lastName| >= 2 && '@' in booking.email && booking.numberOfTickets > 0
  }

  /**
   * The diagnostics of the rejection branch of `main`, AS WRITTEN: the
   * ticket diagnostic is printed when the ticket check PASSED.
   */
  function RejectionNoticesAsWritten(v: Validity): (notices: seq<Notice>)
    ensures NameTooShort in notices <==> !v.isValidName
    ensures EmailInvalid in notices <==> !v.isValidEmail
    ensures TicketCountInvalid in notices <==> v.isValidTicketNumber
    ensures SoldOut !in notices
  {
    (if !v.isValidName then [NameTooShort] else [])
    + (if !v.isValidEmail then [EmailInvalid] else [])
    + (if v.isValidTicketNumber then [TicketCountInvalid] else [])
  }

  /** As written, a request rejected only for asking for zero tickets gets no diagnostic at all. */
  lemma AsWrittenRejectsSilently()
    ensures var v := ValidateUserInput("Al", "Smith", "a@b.com", 0, 50);
            !v.AllValid() && RejectionNoticesAsWritten(v) == []
  {
  }

  /** As written, a request whose ticket count is fine is told that it is invalid. */
  lemma AsWrittenBlamesValidTicketCount()
    ensures var v := ValidateUserInput("A", "Smith", "a@b.com", 10, 50);
            v.isValidTicketNumber && RejectionNoticesAsWritten(v) == [NameTooShort, TicketCountInvalid]
  {
  }

  /**
   * The diagnostics of the rejection branch as evidently intended: one per
   * failed check, in the order name, email, ticket count.
   */
  function RejectionNotices(v: Validity): (notices: seq<Notice>)
    ensures NameTooShort in notices <==> !v.isValidName
    ensures EmailInvalid in notices <==> !v.isValidEmail
    ensures TicketCountInvalid in notices <==> !v.isValidTicketNumber
    ensures SoldOut !in notices
  {
    (if !v.isValidName then [NameTooShort] else [])
    + (if !v.isValidEmail then [EmailInvalid] else [])
    + (if !v.isValidTicketNumber then [TicketCountInvalid] else [])
  }

  /** Notice `n` names a check that failed in `v`. */
  predicate ReportsFailure(n: Notice, v: Validity)
  {
    match n
    case NameTooShort => !v.isValidName
    case EmailInvalid => !v.isValidEmail
    case TicketCountInvalid => !v.isValidTicketNumber
    case SoldOut => false
  }

  /** With the intended diagnostics, every rejected request is told why, and only why. */
  lemma RejectionIsExplained(v: Validity)
    ensures !v.AllValid() <==> |RejectionNotices(v)| > 0
    ensures |RejectionNotices(v)| <= 3
    ensures forall n :: n in RejectionNotices(v) ==> ReportsFailure(n, v)
  {
  }

  /** The in-memory ledger: the tickets still for sale and the bookings made so far. */
  class Ledger {
    var remainingTickets: Uint
    var bookings: seq<UserData>

    /** Conservation: the tickets booked plus the tickets left make up the conference capacity. */
    ghost predicate Valid()
      reads this
    {
      TicketsBooked(bookings) + remainingTickets == ConferenceTickets
    }

    /** Every booking in the ledger passed validation. */
    ghost predicate AllAccepted()
      reads this
    {
      forall i :: 0 <= i < |bookings| ==> Accepted(bookings[i])
    }

    /** The ledger at program start: 50 tickets left and no bookings. */
    constructor ()
      ensures remainingTickets == InitialRemainingTickets && bookings == []
      ensures Valid() && AllAccepted()
    {
      remainingTickets := InitialRemainingTickets;
      bookings := [];
    }

    /**
     * `bookTicket`: takes the tickets off the remaining count and appends the
     * booking. It checks nothing itself; its caller must make sure that no
     * more tickets are asked for than remain, or Go's `uint` subtraction wraps.
     */
    method BookTicket(userTickets: Uint, firstName: string, lastName: string, email: string)
      requires userTickets <= remainingTickets
      modifies this
      ensures remainingTickets == old(remainingTickets) - userTickets
      ensures bookings == old(bookings) + [UserData(firstName, lastName, email, userTickets)]
      ensures TicketsBooked(bookings) + remainingTickets == old(TicketsBooked(bookings) + remainingTickets)
      ensures old(Valid()) ==> Valid()
    {
      remainingTickets := WrapSub(remainingTickets, userTickets);
      var booking := UserData(firstName, lastName, email, userTickets);
      TicketsBookedAppend(bookings, booking);
      bookings := bookings + [booking];
    }

    /** `getFirstNames`: the first name of every booking, in booking order; the ledger is only read. */
    method GetFirstNames() returns (firstNames: seq<string>)
      ensures firstNames == FirstNamesOf(bookings)
      ensures |firstNames| == |bookings|
      ensures forall i :: 0 <= i < |bookings| ==> firstNames[i] == bookings[i].firstName
    {
      firstNames := [];
      for i := 0 to |bookings|
        invariant |firstNames| == i
        invariant forall k :: 0 <= k < i ==> firstNames[k] == bookings[k].firstName
      {
        firstNames := firstNames + [bookings[i].firstName];
      }
    }

    /**
     * One run of `main` after the input is read: validate the request
     * against the tickets left, then either book it and report the first
     * names (and the sold-out notice when nothing is left), or leave the
     * ledger alone and report what failed. Returns whether the request was
     * booked, the first names reported and the notices emitted.
     */
    method Session(firstName: string, lastName: string, email: string, userTickets: Uint)
      returns (booked: bool, firstNames: seq<string>, notices: seq<Notice>)
      modifies this
      ensures booked <==> ValidateUserInput(firstName, lastName, email, userTickets, old(remainingTickets)).AllValid()
      ensures booked ==> remainingTickets == old(remainingTickets) - userTickets
      ensures booked ==> bookings == old(bookings) + [UserData(firstName, lastName, email, userTickets)]
      ensures booked ==> firstNames == FirstNamesOf(bookings)
      ensures booked ==> notices == if remainingTickets == 0 then [SoldOut] else []
      ensures !booked ==> remainingTickets == old(remainingTickets) && bookings == old(bookings)
      ensures !booked ==> firstNames == []
      ensures !booked ==> notices == RejectionNotices(ValidateUserInput(firstName, lastName, email, userTickets, old(remainingTickets)))
      ensures old(Valid()) ==> Valid()
      ensures old(AllAccepted()) ==> AllAccepted()
    {
      var v := ValidateUserInput(firstName, lastName, email, userTickets, remainingTickets);
      if v.AllValid() {
        BookTicket(userTickets, firstName, lastName, email);
        booked := true;
        firstNames := GetFirstNames();
        notices := if remainingTickets == 0 then [SoldOut] else [];
      } else {
        booked := false;
        firstNames := [];
        notices := RejectionNotices(v);
      }
    }
  }

  /** A first session on a fresh ledger: "Al Smith" books 10 of the 50 tickets. */
  method ScenarioA() returns (booked: bool, firstNames: seq<string>, remaining: Uint)
    ensures booked && firstNames == ["Al"] && remaining == 40
  {
    var ledger := new Ledger();
    assert "a@b.com"[1] == '@';
    var notices;
    booked, firstNames, notices := ledger.Session("Al", "Smith", "a@b.com", 10);
    remaining := ledger.remainingTickets;
  }
}

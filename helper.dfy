/**
 * The input validator of the booking demo (helper/helper.go): three
 * independent checks on one booking request, computed without side effects.
 */
module Helper {
  import opened GoBuiltins

  /** The three booleans `ValidateUserInput` returns, in the order it returns them. */
  datatype Validity = Validity(isValidName: bool, isValidEmail: bool, isValidTicketNumber: bool)
  {
    /** The request is accepted only when all three checks pass. */
    predicate AllValid()
    {
      isValidName && isValidEmail && isValidTicketNumber
    }
  }

  /**
   * Validates a request for `userTickets` tickets when `remainingTickets`
   * are left. Total: every input yields three booleans, and nothing else
   * is read or changed.
   */
  function ValidateUserInput(firstName: string, lastName: string, email: string,
                             userTickets: Uint, remainingTickets: Uint): (v: Validity)
    ensures v.isValidName <==> |firstName| >= 2 && |lastName| >= 2
    ensures v.isValidEmail <==> '@' in email
    ensures v.isValidTicketNumber <==> 0 < userTickets <= remainingTickets
  {
    ContainsSingle(email, '@');
    Validity(|firstName| >= 2 && |lastName| >= 2,
             Contains(email, "@"),
             userTickets > 0 && userTickets <= remainingTickets)
  }

  /** Each flag depends on its own inputs only. */
  lemma ChecksAreIndependent(firstName: string, lastName: string, email: string, userTickets: Uint, remainingTickets: Uint,
                             firstName': string, lastName': string, email': string, userTickets': Uint, remainingTickets': Uint)
    ensures var v := ValidateUserInput(firstName, lastName, email, userTickets, remainingTickets);
            var v' := ValidateUserInput(firstName', lastName', email', userTickets', remainingTickets');
            && (firstName == firstName' && lastName == lastName' ==> v.isValidName == v'.isValidName)
            && (email == email' ==> v.isValidEmail == v'.isValidEmail)
            && (userTickets == userTickets' && remainingTickets == remainingTickets' ==>
                  v.isValidTicketNumber == v'.isValidTicketNumber)
  {
  }

  /**
   * The ticket check at its edges: asking for exactly what is left is
   * accepted (when anything is left), asking for nothing or for one more
   * than is left is not.
   */
  lemma TicketCheckBoundaries(firstName: string, lastName: string, email: string, remainingTickets: Uint)
    ensures ValidateUserInput(firstName, lastName, email, remainingTickets, remainingTickets).isValidTicketNumber
            <==> remainingTickets > 0
    ensures !ValidateUserInput(firstName, lastName, email, 0, remainingTickets).isValidTicketNumber
    ensures remainingTickets + 1 < UINT_LIMIT ==>
              !ValidateUserInput(firstName, lastName, email, remainingTickets + 1, remainingTickets).isValidTicketNumber
  {
  }

  /** Once the conference is sold out no ticket count passes. */
  lemma SoldOutRejectsEveryCount(firstName: string, lastName: string, email: string, userTickets: Uint)
    ensures !ValidateUserInput(firstName, lastName, email, userTickets, 0).isValidTicketNumber
    ensures !ValidateUserInput(firstName, lastName, email, userTickets, 0).AllValid()
  {
  }

  /** Three rejected requests: a one-byte first name, an email without `@`, 60 of 50 tickets; each fails exactly one check. */
  lemma RejectionScenarios()
    ensures ValidateUserInput("A", "Smith", "a@b.com", 10, 50) == Validity(false, true, true)
    ensures ValidateUserInput("Al", "Smith", "noatsign", 10, 50) == Validity(true, false, true)
    ensures ValidateUserInput("Al", "Smith", "a@b.com", 60, 50) == Validity(true, true, false)
  {
  }
}

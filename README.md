# Conference booking demo, modelled in Dafny

A Dafny model of the logic of a small Go command-line program that sells
tickets to a 50-seat conference. It has three parts.

- `go_builtins.dfy` (module `GoBuiltins`) holds the Go semantics the program relies on:
  - `uint` as a 64-bit unsigned integer with wrap-around subtraction;
  - `strings.Contains` as a substring search.
- `helper.dfy` (module `Helper`) is the input validator `ValidateUserInput`.
  It is a total, side-effect-free function that returns three independent
  flags: name, email and ticket count.
- `booking.dfy` (module `Booking`) is the booking ledger.
  - The package variables `remainingTickets` and `bookings` become the fields of a `Ledger` object.
  - `bookTicket` and `getFirstNames` become its methods `BookTicket` and `GetFirstNames`.
  - The validate-then-book decision of `main` becomes its method `Session`. `Session` returns the first names it would list and the notices it would print, as `Notice` tags.

Go strings are byte strings, and `len` counts bytes. The model uses `string`
(`seq<char>`) and takes each element to stand for one byte, so `|s|` is Go's
`len(s)`. Go's `uint` is taken to be 64 bits wide.

The ledger invariant `Ledger.Valid` is conservation: the tickets held by the
bookings plus `remainingTickets` equal the conference capacity (50). The
constructor establishes it. `BookTicket` keeps the sum unchanged, so it
preserves it, and so does every `Session`. `BookTicket` does no checking of
its own. It requires what its only caller guarantees through the validator:
no more tickets than remain. Its body uses the wrap-around subtraction
`WrapSub`, as the Go code does.

Two literals in the source must agree: `conferenceTickets` (main.go:19) and
the initial value of `remainingTickets` (main.go:29). The model keeps them
as two constants, `ConferenceTickets` and `InitialRemainingTickets`.

## Model

| member | source | states |
|---|---|---|
| `GoBuiltins.WrapSub` | main.go:154 | `uint` subtraction equals the true difference when `b <= a`; otherwise it wraps around by 2^64 |
| `GoBuiltins.Contains` | helper/helper.go:16 | `strings.Contains(s, sub)` is true iff `sub` occurs at some offset of `s` as a contiguous run |
| `GoBuiltins.ContainsSingle` | helper/helper.go:16 | searching for the one-byte string `"@"` is true iff the byte `@` occurs in the string |
| `Helper.ValidateUserInput` | helper/helper.go:14-20 | total and pure; name flag iff both names are at least 2 bytes long; email flag iff the email contains `@`; ticket flag iff `0 < userTickets <= remainingTickets` |
| `Helper.ChecksAreIndependent` | helper/helper.go:15-17 | each flag depends only on its own inputs: name only on the names, email only on the email, ticket only on the two counts |
| `Helper.TicketCheckBoundaries` | helper/helper.go:17 | asking for exactly the remaining count passes iff anything remains; asking for 0, or for one more than remains, fails |
| `Helper.SoldOutRejectsEveryCount` | helper/helper.go:17 | with 0 tickets remaining, no ticket count passes and no request is accepted |
| `Helper.RejectionScenarios` | helper/helper.go:14-20 | a 1-byte first name, an email without `@`, and 60 tickets out of 50 each fail exactly their own check |
| `Booking.TicketsBookedAppend` | main.go:156-163 | appending a booking adds exactly its ticket count to the tickets booked |
| `Booking.FirstNamesOf` | main.go:110-124 | the first-name list has one entry per booking; entry i is booking i's first name |
| `Booking.RejectionNoticesAsWritten` | main.go:86-98 | as written: name diagnostic iff the name check failed; email diagnostic iff the email check failed; ticket diagnostic iff the ticket check PASSED |
| `Booking.AsWrittenRejectsSilently` | main.go:95-97 | as written, a request with valid names and email but 0 tickets is rejected with no diagnostic |
| `Booking.AsWrittenBlamesValidTicketCount` | main.go:95-97 | as written, a request rejected only for its name is also told that its valid ticket count is invalid |
| `Booking.RejectionNotices` | main.go:86-98 | as intended: each diagnostic is emitted iff its own check failed, and no sold-out notice is emitted |
| `Booking.RejectionIsExplained` | main.go:86-98 | with the intended diagnostics: at least one diagnostic iff the request is rejected; at most three; each names a check that failed |
| `Booking.Ledger.constructor` | main.go:29-34 | the ledger starts with 50 tickets remaining and no bookings; conservation holds and every booking is accepted |
| `Booking.Ledger.BookTicket` | main.go:151-164 | remaining drops by exactly the tickets asked for; exactly one record with the given fields is appended after the unchanged old ones; tickets booked plus remaining is unchanged |
| `Booking.Ledger.GetFirstNames` | main.go:110-124 | returns one first name per booking in booking order and changes nothing, so two calls with no booking between them agree |
| `Booking.Ledger.Session` | main.go:58-98 | books iff all three flags hold, as `BookTicket` does. It then lists the first names and emits the sold-out notice iff no tickets remain. On rejection the ledger is unchanged and one diagnostic is emitted per failed check. Conservation and "every booking was accepted" are preserved |
| `Booking.ScenarioA` | main.go:58-85 | on a fresh ledger, "Al Smith", "a@b.com" and 10 tickets is booked; the first names are ["Al"] and 40 tickets remain |

## Findings

| source | as written | input that shows it | evidently intended | confidence | as-written member | corrected member |
|---|---|---|---|---|---|---|
| main.go:95 | the ticket diagnostic is printed when `isValidTicketNumber` is true | "Al", "Smith", "a@b.com", 0 tickets out of 50: rejected, no diagnostic. "A", "Smith", "a@b.com", 10 out of 50: told the ticket count is invalid | print it when `isValidTicketNumber` is false | high (not executed) | `Booking.RejectionNoticesAsWritten`, `Booking.AsWrittenRejectsSilently` | `Booking.RejectionNotices`, `Booking.RejectionIsExplained` |

`Booking.Ledger.Session` uses the corrected diagnostics (`RejectionNotices`).
The code as written is kept in `RejectionNoticesAsWritten`.

## Left out

- Terminal I/O is not modelled: the greeting (`greetUsers`), the prompts and reads of `getUserInput`, and all printed text. This includes the thank-you line, the remaining-count line and the ledger dump inside `bookTicket`. Only the decisions behind the printing are modelled, as `Notice` tags and the returned first-name list.
- `fmt.Scan` parsing of the ticket count is left to the Go library. `Session` takes the parsed `uint` as its input.
- `sendTickets` is not modelled: its goroutine, 30-second sleep and formatted confirmation message. The `sync.WaitGroup` that `main` waits on before exit is also left out. These are concurrency, timing and library formatting; a booked request is where the confirmation would be dispatched.
- `AnotherVar` and `conferenceName` are unused by the logic and left out.
- Unicode and rune-level string behaviour is left out. Strings are byte sequences, with `len` as the sequence length.
- `Booking.Ledger.BookTicket`: requires `userTickets <= remainingTickets` instead of modelling the wrap-around result of an unguarded call. `WrapSub` states what that result would be.

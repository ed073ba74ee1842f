# Movie-ticket booking: seat release, user mirror and favourites

This project is a Dafny model of the three pieces of state-transition logic in
a movie-ticket booking server. Each is written as a pure function over maps
and sequences.

- **Seat release** (`SeatRelease`). When the payment window of a booking has
  passed, the check-payment step looks the booking up. If the booking is
  unpaid, the step deletes each of its booked seat labels from its show's
  `occupiedSeats` map (seat label to holder id), saves the show and deletes
  the booking. If it is paid, the step does nothing. The stores are
  `map<BookingId, Booking>` and `map<ShowId, Show>`.
- **User mirror** (`UserSync`). Three identity-provider events (user created,
  updated, deleted) become an insert, an overwrite-by-id and a delete-by-id on
  a `map<UserId, User>`. Both create and update build the name as
  `first + " " + last` and take the first email address. Only create falls
  back to a default avatar.
- **Favourites toggle** (`Favorites`). A movie id that is absent from the
  user's favourites is appended, with the message "Added to favorites.". One
  that is present has every occurrence filtered out, with the message
  "Removed from favorites.". A missing list counts as empty.

`wrappers.dfy` defines `Option` (JavaScript `null`) and `Result` (a handler
that throws); `ids.dfy` defines the shared user and movie id types.

Two facts about the release step shape the model:

- A missing booking is not a silent no-op. `booking.isPaid` is read with no
  null check (server/inngest/index.js:87), so the step throws, and `Release`
  returns `Failure(BookingNotFound)`. Running the step again after a
  successful release fails in the same way (`ReleaseTwiceFails`), without
  changing any state.
- Seats are freed by label only. The holder is never compared with the
  booking's user (server/inngest/index.js:89-91; `ReleaseIgnoresHolder`).
  Other bookings keep their seats when no two bookings of a show share a
  label (`ReleaseKeepsOtherBookingsSeats`), and can lose them when two do
  (`ReleaseNeedsExclusiveLabels`).

## Model

| member | source | states |
|---|---|---|
| SeatRelease.RemoveSeats | server/inngest/index.js:89-91 | After deleting the booked labels one by one, no booked label is a key. Every other label keeps its key and its holder, whoever holds it. No key is added. |
| SeatRelease.Release | server/inngest/index.js:82-95 | A missing booking fails, and a missing show of an unpaid booking fails. A paid booking leaves both stores unchanged. An unpaid booking frees all its labels, leaves every other label, booking and show as it was, and is removed from the booking store. |
| SeatRelease.RemoveAbsentSeat | server/inngest/index.js:89-91 | Deleting a label that is not occupied is a no-op. |
| SeatRelease.RemoveSeatsIdempotent | server/inngest/index.js:89-91 | Applying the seat-removal step twice gives the same occupancy as applying it once. |
| SeatRelease.RemoveSeatsDependsOnLabelsOnly | server/inngest/index.js:89-91 | The result depends only on which labels are booked, not on their order or repetition. |
| SeatRelease.ReleaseTwiceFails | server/inngest/index.js:83-87 | After an unpaid booking has been released, running the step again for its id fails with booking-not-found, so nothing is released twice. |
| SeatRelease.ReleaseIgnoresHolder | server/inngest/index.js:89-91 | A booked label is freed even when the show records a different user as its holder. |
| SeatRelease.ReleaseKeepsOtherBookingsSeats | server/inngest/index.js:88-94 | Suppose every booking holds its labels and no two bookings of a show share one. Then after a release every remaining booking still holds all its labels, and labels stay exclusive. |
| SeatRelease.ReleaseNeedsExclusiveLabels | server/inngest/index.js:89-91 | The exclusivity assumption is needed: with an unpaid and a paid booking of one user sharing "A1", every booking holds its seats before releasing the unpaid one and the paid one no longer does after. |
| UserSync.FullName | server/inngest/index.js:26 | The name is the first name, one space, then the last name. A null part appears as the text "null". |
| UserSync.Create | server/inngest/index.js:16-43 | An empty email list fails and an existing id fails. Otherwise the id gets a record with the built name, the first email and the image or default. Every other user is unchanged. |
| UserSync.Update | server/inngest/index.js:60-70 | An empty email list fails. An unknown id leaves the store unchanged. A known id is overwritten with the built name, the first email and the raw image URL with no default. Every other user is unchanged. |
| UserSync.Delete | server/inngest/index.js:50-53 | Afterwards the id is absent, whatever the prior state, and every other user is unchanged. |
| UserSync.CreateThenDelete | server/inngest/index.js:30-52 | Deleting a just-created user restores the previous store. |
| UserSync.DeleteIdempotent | server/inngest/index.js:51-52 | Deleting the same id twice is the same as deleting it once. |
| UserSync.UpdateReplaysCreate | server/inngest/index.js:26-69 | Replaying the creating payload as an update succeeds and keeps the same ids. It changes nothing exactly when the image URL is truthy. Otherwise it replaces the default avatar with the raw value. |
| UserSync.CreatedImageIsUsable | server/inngest/index.js:28-67 | Create always stores a non-null, non-empty image, whatever the payload. Update stores a usable image exactly when the payload's image URL is one, so after an update the image may be null or empty. |
| UserSync.SyncKeepsKeyedById | server/inngest/index.js:30-69 | Create, update and delete all keep every record stored under its own id. |
| Favorites.Without | server/controllers/userController.js:41-43 | Filtering removes every occurrence of the id. It keeps every other id with its multiplicity and in its original relative order. |
| Favorites.Toggle | server/controllers/userController.js:31-45 | If the id is absent, the result is the old list with the id appended, and the reply text is "Added to favorites.". If it is present, the result has no occurrence of it and keeps the others with their multiplicities and in order, and the reply text is "Removed from favorites.". |
| Favorites.MissingIsEmpty | server/controllers/userController.js:31-33 | Toggling a missing list is the same as toggling an empty list: the result is the one-element list, Added. |
| Favorites.ToggleMembership | server/controllers/userController.js:37-43 | The toggle flips whether the id is a member. Every other id is a member afterwards exactly when it was before. |
| Favorites.WithoutAppended | server/controllers/userController.js:38-43 | Filtering an id out of a list that did not contain it and then had it appended gives the original list back. |
| Favorites.ToggleTwice | server/controllers/userController.js:37-45 | Toggling twice, starting from a list without the id, returns the original list with the message Removed. |

## Left out

- The durable sleep before the check-payment step, step memoisation and
  retries are left out because an external workflow platform provides them.
  The 10-minute window is only the constant `PaymentWindowMs`.
- Database I/O (connecting, find-by-id, save, mark-modified, delete, populate,
  sort) is left out. The collections are maps. A user handler that throws
  leaves the user map unchanged, and the release step throws before its
  first write when the booking or show is missing.
- Release treats the show save and the booking delete as one atomic update.
  The source saves the show first (server/inngest/index.js:93) and deletes
  the booking after (server/inngest/index.js:94). A failure between the two
  writes, which leaves the seats freed and the unpaid booking in place, and
  the platform's retry of the step, which frees those labels again even if
  another booking has taken them since, are not modelled.
- The booking-list and favourites-list queries are left out because they only
  read data.
- Identity-provider API calls, HTTP request/response handling and console
  logging are left out because they are I/O. The toggle's result would be
  written back as the user's metadata. A failure would be sent as an error
  reply.
- Concurrency between booking creation and seat release is left out because
  the code has no guard against it.
- The misspelled `if` key in the release job's configuration is left out
  because it is configuration, not behaviour.
- The client's routing and admin layout are left out because they are UI
  rendering.
- UserSync.Update: the model stores a payload image URL that is JSON null
  as null. It does not model a payload with no image URL field at all. The
  document store would then drop the undefined field and keep the old image.
- The model does not distinguish the ways a name can be missing. The model
  renders a null name as "null". An absent name field would render as
  "undefined".

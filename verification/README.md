# Booking scheduling for a wedding-photography backend, in Dafny

This project models the booking core of an Express/Mongoose backend where clients book
photographers for events. The database is an immutable in-memory collection:
- a collection is a `seq` of records;
- `findOne` is the first match (`Seqs.FirstIndex`);
- `find` is a filter in store order (`Seqs.Filter`);
- `countDocuments` is a count (`Seqs.Count`);
- `findOneAndUpdate` / `findByIdAndUpdate` rewrite the first match (`Seqs.UpdateFirst`);
- `save()` writes by id (`Seqs.Upsert`);
- `sort` is a stable insertion sort (`Sorting.Sort`).

Every endpoint is a pure function from the collections and the request to a reply
(`Wrappers.Reply`: `Ok(status, body)` or `Fail(status, error)`) and the collections after it.

Modules follow the program's files:
- `TimeOfDay` — the `HH:mm` pattern and JavaScript string order.
- `Calendar` — calendar days of millisecond timestamps.
- `BookingModel` — the booking record and its enums.
- `Overlap` — the `checkOverlap` static and the `pre('save')` guard.
- `Joi` — the validation engine shared by every schema.
- `BookingValidation`, `UserValidation`, `Payments` — the Joi schemas.
- `ClientBookings` and `ClientProfile` — the client controller.
- `PhotographerDesk` — the photographer controller.
- `AdminDesk` and `ConflictReport` — the admin controller.
- `Payments` — the payment controller.
- `Reviews` — review creation and the review schema.
- `Chat` — history, saving and the inbox.
- `PublicCatalog` — the public listing, search and busy slots.
- `UserModel` — the user schema.
- `Auth` — register and login.
- `Authenticate` — the bearer-token middleware.

The model follows the code as written, including where the code differs from what it appears to intend:
- the schema accepts `startTime >= endTime`;
- no status transition is checked;
- assignment bypasses the overlap guard;
- a colon-less time string compares wrongly against a colon form.

Each of these is stated as a lemma rather than corrected.

## Model

| member | source | states |
|---|---|---|
| TimeOfDay.ValidTimeIff | app/validations/booking-validation.js:11-22 | A time string is accepted exactly when it is a two-digit hour 00-23, an optional colon and a two-digit minute 00-59. |
| TimeOfDay.PatternEdgeCases | app/validations/booking-validation.js:11-22 | "24:00", "9:30", "12:60" and a trailing space are rejected; "0930", "00:00" and "23:59" are accepted. |
| TimeOfDay.FormatAccepted | app/validations/booking-validation.js:11-22 | Every zero-padded hour/minute spelling is accepted and reads back as the same hour and minute. |
| TimeOfDay.AcceptedIsFormatted | app/validations/booking-validation.js:11-22 | Every accepted string is the zero-padded spelling of the hour and minute it denotes. |
| TimeOfDay.ColonFormOrder | app/models/booking-model.js:96 | Between two "HH:mm" strings, JavaScript string `<` agrees with minute-of-day order. |
| TimeOfDay.MixedFormsDisagree | app/models/booking-model.js:96 | "0950" is string-below "09:45" although 09:50 is later, so the order breaks when one side omits the colon. |
| TimeOfDay.LessIrreflexive | app/models/booking-model.js:96 | No string is below itself. |
| TimeOfDay.LessAsymmetric | app/models/booking-model.js:96 | String order never holds both ways. |
| TimeOfDay.LessTransitive | app/models/booking-model.js:96 | String order is transitive. |
| TimeOfDay.LessTotal | app/models/booking-model.js:96 | Any two distinct strings are ordered one way or the other. |
| Calendar.DayStart | app/models/booking-model.js:76-77 | The day start is midnight: a multiple of 24h at or before the timestamp and less than 24h before it. |
| Calendar.DayWindowIsSameDay | app/models/booking-model.js:76-84 | The `[midnight, midnight + 24h)` window of a date holds exactly the timestamps on the same calendar day. |
| BookingModel.StatusNamesRoundTrip | app/models/booking-model.js:59-63 | Status names and statuses correspond one to one, and the enum list holds exactly the names. |
| BookingModel.PaymentStatusNamesRoundTrip | app/models/booking-model.js:51-55 | Payment-status names and payment statuses correspond one to one: "unpaid" and "paid" parse, and nothing else does. |
| BookingModel.FindById | app/models/booking-model.js:3-66 | The first booking with the id (no earlier booking has it), or none exactly when no booking has it. |
| BookingModel.Upsert | app/models/booking-model.js:104-117 | A save writes the booking, keeps every booking with another id, and adds nothing else. |
| Overlap.Candidates | app/models/booking-model.js:79-90 | The query returns exactly the stored bookings with the photographer, the date's day window, an occupying status and not the excluded id. |
| Overlap.AnyOverlaps | app/models/booking-model.js:94-100 | True exactly when some returned booking's range meets the requested one. |
| Overlap.CheckOverlap | app/models/booking-model.js:75-101 | True exactly when some stored candidate booking overlaps the requested range. |
| Overlap.ScanForOverlap | app/models/booking-model.js:94-100 | The early-return loop reports a conflict exactly when some element of the list overlaps. |
| Overlap.OverlapsSymmetric | app/models/booking-model.js:96 | The overlap test is unchanged when the requested and booked ranges swap roles. |
| Overlap.TouchingRangesDoNotOverlap | app/models/booking-model.js:96 | A range ending exactly where another starts does not overlap it, in either order. |
| Overlap.CandidateIff | app/models/booking-model.js:79-90 | A booking is a candidate exactly when it has the photographer, is on the same day, is pending/confirmed/in_progress/completed and is not excluded; declined and cancelled never are. |
| Overlap.ExcludedNeverCandidate | app/models/booking-model.js:88-90 | The excluded booking is never a candidate. |
| Overlap.NoCandidatesNoConflict | app/models/booking-model.js:92-100 | With no candidates the check is false, whatever the range. |
| Overlap.Save | app/models/booking-model.js:104-117 | The save fails, with the hook's message and nothing written, exactly when a temporal field changed and the check finds a conflict. |
| Overlap.ClashIsDetected | app/models/booking-model.js:104-117 | Any existing booking that double-books the saved one makes the guard's check true. |
| Overlap.SaveKeepsNoDoubleBooking | app/models/booking-model.js:104-117 | A save the guard lets through never introduces a double booking. |
| Overlap.ReleaseAddsNoConflict | app/models/booking-model.js:75-90 | A booking given a status outside the occupying four adds no conflict: any overlap found afterwards was found before. |
| Overlap.ReleaseKeepsNoDoubleBooking | app/models/booking-model.js:75-90 | A booking given a status outside the occupying four keeps a store free of double bookings. |
| Overlap.ReleaseFreesSlot | app/models/booking-model.js:75-90 | A status outside the occupying four takes a booking out of every overlap query, adds no conflict and keeps a store free of double bookings. |
| Overlap.ResaveNeverConflicts | app/models/booking-model.js:106-112 | Re-saving a stored booking of a double-booking-free store always passes, because its own id is excluded. |
| Overlap.HalfOpenScenario | app/models/booking-model.js:75-101 | A 10:00-14:00 booking blocks 13:00-16:00 for its photographer, but not 14:00-16:00 and not another photographer. |
| Overlap.MixedFormsMissOverlap | app/models/booking-model.js:96 | "0950"-"0958" passes the pattern and overlaps 09:00-09:55 in time, yet the check does not see it. |
| Joi.Lookup | app/validations/booking-validation.js:4-31 | The value of the first body entry with the key, or none exactly when the key is absent. |
| Joi.Validate | app/controllers/auth/auth-cntlr.js:13-20 | The full failure list is empty exactly when the schema accepts the body. |
| Joi.FirstViolation | app/controllers/client/client-cntlr.js:57-60 | There is a first failure exactly when the body is rejected, and it is one of the reported failures. |
| Joi.SchemaViolations | app/validations/booking-validation.js:4-31 | No key failure exactly when every declared key is satisfied by its value in the body. |
| Joi.UnknownViolations | app/validations/booking-validation.js:4-31 | No unknown-key failure exactly when every body key is declared. |
| Joi.ValueViolationsEmptyIff | app/validations/booking-validation.js:4-31 | A present value draws no failure exactly when its rule accepts it. |
| Joi.OutsideListViolations | app/validations/user-validation.js:27 | A value outside a `valid(...)` list draws `any.only` first, followed by `string.base` when it is not a string and by `string.empty` when it is the empty string. |
| Joi.KeyViolationsEmptyIff | app/validations/booking-validation.js:4-31 | A key is satisfied exactly when it is present and accepted, or absent and optional. |
| Joi.TextRuleViolations | app/validations/booking-validation.js:5-22 | The text rules report nothing exactly when the hex, length, minimum, pattern and e-mail conditions all hold, with lengths counted in UTF-16 code units as JavaScript counts them. |
| Utf16.Length | app/models/user-model.js:5-10 | A JavaScript string length lies between the number of characters and twice it, and equals the number of characters exactly when every character is in the Basic Multilingual Plane. |
| Utf16.AstralCountsTwice | app/models/user-model.js:8 | Two emoji are two characters but four code units, enough for the three-unit minimum. |
| Joi.ItemViolations | app/validations/user-validation.js:36-41 | A string array draws no item failure exactly when every item is a non-empty string. |
| BookingValidation.HexIdIff | app/validations/booking-validation.js:5-7 | An id key accepts a value exactly when it is a 24-character hexadecimal string. |
| BookingValidation.CreateBookingKeys | app/validations/booking-validation.js:4-31 | The create schema declares exactly the ten request keys. |
| BookingValidation.CreateKeyOkIff | app/validations/booking-validation.js:4-31 | Each key of the create schema holds exactly when its field-level reading holds. |
| BookingValidation.CreateKeysIffFields | app/validations/booking-validation.js:4-31 | All create keys hold exactly when all ten field conditions hold. |
| BookingValidation.CreateBookingSchemaIff | app/validations/booking-validation.js:4-31 | Accepted exactly when: a 24-hex photographer id, a date not before now, two pattern times, an event type and package from their lists, a location, and no other key. |
| BookingValidation.AcceptedIsWellFormed | app/validations/booking-validation.js:4-31 | Every accepted create request is well formed. |
| BookingValidation.WellFormedIsAccepted | app/validations/booking-validation.js:4-31 | Every well-formed create request is accepted. |
| BookingValidation.ReversedTimesAccepted | app/validations/booking-validation.js:11-22 | A request from 18:00 to 09:00 is accepted: the schema does not relate the two times. |
| BookingValidation.PastDateRejected | app/validations/booking-validation.js:8-10 | An event date before the validation clock is rejected. |
| BookingValidation.StatusSchemaIff | app/validations/booking-validation.js:34-38 | The status schema accepts exactly the six names of the booking status enum. |
| BookingValidation.AssignSchemaIff | app/validations/booking-validation.js:40-42 | The assignment schema accepts exactly a 24-hex photographer id. |
| BookingValidation.ValidateCreateBooking | app/validations/booking-validation.js:4-31 | Fails with the first failure's message exactly when the schema rejects. A success carries a hex id, a date not before now, valid times and enum values, and each field is the value the body holds under its key; package and notes are absent exactly when the body lacks them. |
| BookingValidation.RequestOf | app/controllers/client/client-cntlr.js:58-66 | The fields of an accepted body are the body's values under their keys, and satisfy the schema's rules. |
| BookingValidation.AcceptedFields | app/validations/booking-validation.js:4-31 | An accepted request carries a hex photographer id, a date not before now, two valid times, a listed event type and package, and a location. |
| ClientBookings.NewBooking | app/controllers/client/client-cntlr.js:75-82 | A created booking has the caller as client, status pending, unpaid, and the package defaulting to gold. |
| ClientBookings.CreateFrom | app/controllers/client/client-cntlr.js:64-90 | A detected overlap is a 400 and stores nothing; an id already stored is refused by the insert with a 500 and nothing stored; the booking is created exactly when its id is fresh and there is no overlap, and then it is appended to the store. |
| ClientBookings.CreateTwiceRefused | app/controllers/client/client-cntlr.js:81-90 | A created booking adds one document, and repeating the insert with the same id is refused with no change. |
| ClientBookings.CreateBooking | app/controllers/client/client-cntlr.js:54-91 | A rejected request is a 400 with the first failure and stores nothing; an accepted one goes to the overlap step; a created booking's client is the caller. |
| ClientBookings.FreshIdChecksAlike | app/models/booking-model.js:104-117 | For a new id, the guard's check (excluding that id) agrees with the controller's check. |
| ClientBookings.CreateKeepsNoDoubleBooking | app/controllers/client/client-cntlr.js:54-91 | Creating a booking never double-books a photographer. |
| ClientBookings.ApplyPatch | app/controllers/client/client-cntlr.js:133-137 | The id and creation time are kept; every field the patch gives takes the given value, status and payment status by name, and every field it omits keeps its old value. |
| ClientBookings.ApplyPatchIdempotent | app/controllers/client/client-cntlr.js:133-137 | The empty patch changes nothing, and applying a patch twice equals applying it once. |
| ClientBookings.UpdateBooking | app/controllers/client/client-cntlr.js:131-149 | A patch that fails the schema validators (an emptied start or end time, a status or payment status outside its enum) is a 500 with nothing stored, whether or not the booking exists. Otherwise the first pending booking the caller owns with the id is replaced by the patched booking and returned; with no such booking, 404 and nothing changes. |
| ClientBookings.EmptiedTimeRefused | app/controllers/client/client-cntlr.js:133-137 | Setting the start or end time to the empty string is a 500 with nothing stored. |
| ClientBookings.UnknownStatusRefused | app/controllers/client/client-cntlr.js:133-137 | A status "approved" or a payment status "refunded" is a 500 with nothing stored. |
| ClientBookings.CancelBooking | app/controllers/client/client-cntlr.js:151-167 | The first booking the caller owns with the id becomes cancelled from any status, keeping its photographer; otherwise 404 and nothing changes. |
| ClientBookings.CancelFreesSlot | app/controllers/client/client-cntlr.js:153-157 | A cancelled booking answers no overlap query, no conflict appears that was not there before, and a double-booking-free store stays so. |
| ClientBookings.CancelBookingAt | app/controllers/client/client-cntlr.js:153-157 | Cancelling at the first owned booking with the id replies 200 with that booking cancelled and changes only its slot of the store. |
| ClientBookings.CancelIdempotent | app/controllers/client/client-cntlr.js:153-157 | Cancelling again returns the same booking and changes nothing. |
| ClientBookings.FindOwned | app/controllers/client/client-cntlr.js:172-175 | Finds the caller's first booking with the id (no earlier one matches), or none exactly when the caller owns no such booking. |
| ClientBookings.RecordPayment | app/controllers/client/client-cntlr.js:170-201 | For an owned booking, one succeeded payment of the caller is added and the booking is saved paid; otherwise 404 and nothing changes. |
| ClientBookings.RecordPaymentKeepsSchedule | app/controllers/client/client-cntlr.js:170-201 | Recording a payment changes no booking except in its payment status. |
| ClientProfile.ApplyProfile | app/controllers/client/client-cntlr.js:244-251 | Only the given name, e-mail and phone are copied; every other field stays. |
| ClientProfile.UpdateProfile | app/controllers/client/client-cntlr.js:242-263 | A name outside 3-50 code units or an empty e-mail is a 500 with no change, whether or not the caller's document exists; so is an e-mail another user holds. Otherwise the caller's first document gets the contact fields and is returned without its password hash, or 200 with no user when it is gone. |
| ClientProfile.RequestIssues | app/models/user-model.js:5-15 | The update validators find nothing exactly when a given name fits 3-50 code units and a given e-mail is not empty. |
| ClientProfile.GoneCallerShortNameRefused | app/controllers/client/client-cntlr.js:253-261 | With no document for the caller, a two-letter name or an empty e-mail is a 500 and a valid name is a 200 with no user. |
| ClientProfile.ValidRequestKeepsFields | app/controllers/client/client-cntlr.js:244-257 | A request the validators pass keeps a valid document valid. |
| ClientProfile.UpdateProfileTouchesOnlyContact | app/controllers/client/client-cntlr.js:244-257 | No user field other than name, e-mail and phone changes, and the collection stays valid with unique e-mails. |
| ClientProfile.UpdateProfileKeepsConsistent | app/controllers/client/client-cntlr.js:244-257 | A profile update, refused or not, leaves every user valid and e-mails unique. |
| ClientProfile.AddFavorite | app/controllers/client/client-cntlr.js:266-284 | An image already bookmarked is a 400 and nothing changes. For a new image, one entry is appended at the end of the caller's first document: the reply is 200 with the appended list whenever the save succeeds, and a 500 with nothing changed when it fails. |
| ClientProfile.AddFavoriteTwiceRefused | app/controllers/client/client-cntlr.js:271-278 | Bookmarking the same image again is a 400 and changes nothing. |
| ClientProfile.AddThenRemoveRestores | app/controllers/client/client-cntlr.js:277-294 | Adding a bookmark with a fresh id and removing that id gives back the bookmarks the caller had. |
| ClientProfile.WithoutFavorite | app/controllers/client/client-cntlr.js:291 | Exactly the bookmarks with a different id remain. |
| ClientProfile.RemoveFavoriteKeepsOrder | app/controllers/client/client-cntlr.js:291 | Removal works element by element, so the remaining bookmarks keep their order. |
| ClientProfile.RemoveFavoriteIdempotent | app/controllers/client/client-cntlr.js:291 | Removing twice equals removing once, and removing an unused id changes nothing. |
| ClientProfile.RemoveFavorite | app/controllers/client/client-cntlr.js:286-298 | A missing caller is a 500; otherwise the bookmarks with the id are dropped and the document saved. |
| PhotographerDesk.UpdateAssigned | app/controllers/photographer/photographer-cntlr.js:64-72 | Only a booking assigned to the caller is rewritten; otherwise 404 and nothing changes. |
| PhotographerDesk.UpdateAssignedAt | app/controllers/photographer/photographer-cntlr.js:64-72 | Once the first booking assigned to the caller with the id is known, the reply is that booking rewritten, with 200, and only its slot of the store changes. |
| PhotographerDesk.UpdateAssignedTwice | app/controllers/photographer/photographer-cntlr.js:64-72 | An update that keeps the booking assigned and is itself idempotent makes the whole endpoint idempotent. |
| PhotographerDesk.Accept | app/controllers/photographer/photographer-cntlr.js:62-78 | An assigned booking becomes confirmed from any status, with nothing else changed; otherwise 404. |
| PhotographerDesk.Decline | app/controllers/photographer/photographer-cntlr.js:80-96 | An assigned booking becomes cancelled and unassigned; otherwise 404. |
| PhotographerDesk.Complete | app/controllers/photographer/photographer-cntlr.js:128-144 | An assigned booking becomes completed from any status; otherwise 404. |
| PhotographerDesk.SetStatus | app/controllers/photographer/photographer-cntlr.js:263-280 | The given status is written to the first booking assigned to the caller with the id, with no transition check. An absent status changes nothing and replies with that same booking. |
| PhotographerDesk.SetStatusIdempotent | app/controllers/photographer/photographer-cntlr.js:263-280 | Writing the same status again returns the same booking and changes nothing. |
| PhotographerDesk.SetStatusFreesSlot | app/controllers/photographer/photographer-cntlr.js:263-280 | Writing a status that holds no slot takes the booking out of every overlap query and keeps a double-booking-free store so. |
| PhotographerDesk.DeclineIsFinal | app/controllers/photographer/photographer-cntlr.js:82-90 | After a decline, accepting, declining or completing the same booking again is a 404 with no change. |
| PhotographerDesk.AcceptKeepsSchedule | app/controllers/photographer/photographer-cntlr.js:64-68 | Accepting changes only a status: no date, time, client or photographer changes. |
| PhotographerDesk.ByEventDate | app/controllers/photographer/photographer-cntlr.js:105 | Ascending event date is a total preorder, so the sort is well defined. |
| PhotographerDesk.Schedule | app/controllers/photographer/photographer-cntlr.js:98-111 | Exactly the caller's pending and confirmed bookings, each as often as stored (the same multiset), earliest event first. |
| PhotographerDesk.LimitCount | app/controllers/photographer/photographer-cntlr.js:53 | No limit or 0 keeps everything; otherwise at most the limit's magnitude is kept. |
| PhotographerDesk.ListAssignments | app/controllers/photographer/photographer-cntlr.js:43-60 | Only the caller's bookings with the requested status when one is named, earliest first. Under a limit it keeps exactly that many of them (or all when fewer), and every kept booking is no later than any dropped one; with no limit it keeps the same multiset of bookings. |
| PhotographerDesk.DashboardCounts | app/controllers/photographer/photographer-cntlr.js:9-11 | Each count is the number of the caller's bookings with that status (any status for the total); pending and completed together never exceed the total, which is zero exactly when nothing is assigned. |
| PhotographerDesk.DashboardMatchesListing | app/controllers/photographer/photographer-cntlr.js:9-60 | The dashboard's total, pending and completed counts equal the lengths of the unlimited listings for no status, "pending" and "completed". |
| AdminDesk.UpdateBookingById | app/controllers/admin/admin-cntlr.js:209-217 | The first booking with the id is rewritten and returned; an unknown id is a 404 with no change. |
| AdminDesk.UpdateBookingByIdAt | app/controllers/admin/admin-cntlr.js:209-217 | For an existing id the reply and the store are determined: the first booking with the id, updated. |
| AdminDesk.Assign | app/controllers/admin/admin-cntlr.js:361-378 | Sets the photographer of the first booking with the id and resets its status to pending, changing nothing else; an unknown id is a 404 "Booking not found" with no change. |
| AdminDesk.Reassign | app/controllers/admin/admin-cntlr.js:380-397 | Changes only the photographer of the first booking with the id and keeps the status; an unknown id is a 404 "Booking not found" with no change. |
| AdminDesk.ReassignTwice | app/controllers/admin/admin-cntlr.js:380-397 | Reassigning twice is reassigning once to the second photographer. |
| AdminDesk.ReassignBack | app/controllers/admin/admin-cntlr.js:380-397 | Reassigning back to the booking's former photographer restores the store. |
| AdminDesk.SetStatus | app/controllers/admin/admin-cntlr.js:206-223 | Writes any status to the first booking with the id, with no transition check; an unknown id is a 404 "Booking not found" with no change. |
| AdminDesk.SetStatusFreesSlot | app/controllers/admin/admin-cntlr.js:206-223 | Writing a declined or cancelled status frees the booking's slot: it answers no overlap query and no double booking appears. |
| AdminDesk.AssignCanDoubleBook | app/controllers/admin/admin-cntlr.js:364-368 | Assignment runs no overlap check: a double-booking-free store can become double-booked. |
| AdminDesk.AssignCreatesClash | app/controllers/admin/admin-cntlr.js:361-378 | Assigning a held photographer to an overlapping unassigned booking turns a clash-free pair into a clash. |
| AdminDesk.SetFlags | app/controllers/admin/admin-cntlr.js:116-341 | A 404 with no change exactly when no user has the id. Otherwise the first such user gets the activity flag, and the approval flag when given, with nothing else changed, and the reply is that updated user without its password hash. |
| AdminDesk.BlockUser | app/controllers/admin/admin-cntlr.js:116-132 | A 404 with no change exactly when no user has the id; otherwise the first such user, and only it, becomes inactive, and the reply is that user without its password hash. |
| AdminDesk.UnblockUser | app/controllers/admin/admin-cntlr.js:134-150 | A 404 with no change exactly when no user has the id; otherwise the first such user, and only it, becomes active, and the reply is that user without its password hash. |
| AdminDesk.Approve | app/controllers/admin/admin-cntlr.js:271-287 | A 404 with no change exactly when no user has the id; otherwise the first such user, and only it, becomes approved and active, and the reply is that user without its password hash. |
| AdminDesk.Reject | app/controllers/admin/admin-cntlr.js:289-305 | A 404 with no change exactly when no user has the id; otherwise the first such user, and only it, becomes neither approved nor active, and the reply is that user without its password hash. |
| AdminDesk.BlockPhotographer | app/controllers/admin/admin-cntlr.js:307-323 | A 404 with no change exactly when no user has the id; otherwise the first such user, and only it, becomes inactive and keeps its approval, and the reply is that user without its password hash. |
| AdminDesk.UnblockPhotographer | app/controllers/admin/admin-cntlr.js:325-341 | A 404 with no change exactly when no user has the id; otherwise the first such user, and only it, becomes active and keeps its approval, and the reply is that user without its password hash. |
| AdminDesk.BlockUnblockRestores | app/controllers/admin/admin-cntlr.js:116-150 | Blocking then unblocking an active user restores the collection exactly. |
| AdminDesk.NewestFirstIsPreorder | app/controllers/admin/admin-cntlr.js:546 | Descending creation time is a total preorder, so the sort is well defined. |
| AdminDesk.Recent | app/controllers/admin/admin-cntlr.js:514-525 | Exactly min(20, n) of the n inputs, each at most as often as given, newest first, and no dropped input is newer than a kept one. |
| AdminDesk.Feeds | app/controllers/admin/admin-cntlr.js:527-545 | min(20, bookings) booking entries then min(20, users) user entries, each from a stored document and carrying its creation time; no stored booking or user left out is newer than an entry of its kind. |
| AdminDesk.RecentEntriesNewest | app/controllers/admin/admin-cntlr.js:514-545 | An input whose entry is not among the recent entries is no newer than any entry kept. |
| AdminDesk.Entries | app/controllers/admin/admin-cntlr.js:529-545 | One entry per document, in order, and an entry is present exactly when a document maps to it. |
| AdminDesk.ActivityLog | app/controllers/admin/admin-cntlr.js:512-552 | The log is a permutation of both feeds, as long as both together, sorted newest first. |
| AdminDesk.ActivityFromSources | app/controllers/admin/admin-cntlr.js:527-546 | Every log entry comes from a stored booking or user. |
| ConflictReport.ByDateThenStart | app/controllers/admin/admin-cntlr.js:468 | The (event date, start time) order is a total preorder. |
| ConflictReport.Scanned | app/controllers/admin/admin-cntlr.js:461-468 | Exactly the assigned pending or confirmed bookings, in (date, start) order. |
| ConflictReport.InnerScanSpec | app/controllers/admin/admin-cntlr.js:473-502 | The inner loop finds exactly the later bookings that pair with i, in increasing order. |
| ConflictReport.OuterScanSpec | app/controllers/admin/admin-cntlr.js:472-503 | The nested loops find exactly the pairs a < b that pass the loop's test (same populated photographer id, both missing counting as equal, on the same day), in visiting order. |
| ConflictReport.Records | app/controllers/admin/admin-cntlr.js:485-500 | One record per found pair, in order. |
| ConflictReport.Report | app/controllers/admin/admin-cntlr.js:459-509 | A 500 exactly when two scanned bookings on one day both reference photographers that no longer exist, and never when every photographer exists. Otherwise every record is that of a pair a < b with one photographer on one day, named after that photographer, and every such pair has its record. |
| ConflictReport.PairedIff | app/controllers/admin/admin-cntlr.js:478-481 | The loop's test holds exactly for two orphaned bookings on one day, or for a resolved booking and another of the same photographer on the same day. |
| ConflictReport.DanglingIff | app/controllers/admin/admin-cntlr.js:472-490 | The loops reach a pair whose photographer is null exactly when two same-day bookings are both orphaned. |
| ConflictReport.RecordsSound | app/controllers/admin/admin-cntlr.js:478-500 | Every record belongs to a same-photographer, same-day pair a < b. |
| ConflictReport.RecordsComplete | app/controllers/admin/admin-cntlr.js:472-503 | Every same-photographer, same-day pair a < b has its record. |
| ConflictReport.PairsDistinct | app/controllers/admin/admin-cntlr.js:472-473 | No unordered pair is reported twice. |
| ConflictReport.InnerScanGroup | app/controllers/admin/admin-cntlr.js:473-502 | Within a mutually paired group, the inner loop from j finds every later booking. |
| ConflictReport.Choose2Closed | app/controllers/admin/admin-cntlr.js:472-473 | The nested loops visit n(n-1)/2 pairs. |
| ConflictReport.OuterScanGroup | app/controllers/admin/admin-cntlr.js:472-503 | A mutually paired group yields one pair per unordered pair. |
| ConflictReport.GroupCount | app/controllers/admin/admin-cntlr.js:472-503 | k bookings of one photographer on one day give k(k-1)/2 records. |
| ConflictReport.ReportedWithoutOverlap | app/controllers/admin/admin-cntlr.js:483-485 | Two same-day bookings at 10-12 and 14-16 are reported although their times do not overlap. |
| ConflictReport.GroupReport | app/controllers/admin/admin-cntlr.js:459-503 | n reportable bookings of one resolved photographer on one day, stored in any order, give n(n-1)/2 records. |
| ConflictReport.PairReportedOnce | app/controllers/admin/admin-cntlr.js:472-503 | Two reportable same-day bookings of one photographer give exactly one record, whatever their times. |
| Payments.PaymentSchemaIff | app/validations/payment-validation.js:3-10 | Accepted exactly when a 24-hex booking id and an amount of at least 1 are given, and nothing else. |
| Payments.SmallAmountMessage | app/validations/payment-validation.js:7-9 | With a good id, an amount below 1 fails first with "Amount must be at least 1". |
| Payments.CreateOrder | app/controllers/client/payment-cntlr.js:10-72 | A rejected request is a 400 with the first failure's message; unset keys a 500. An order is made exactly for a valid request, set keys, an existing pending booking and a gateway order that succeeds, and a "created" payment is then recorded; a failed gateway call or save is a 500 "Failed to create payment order". Every failure stores no payment. |
| Payments.GatewayAmountAtLeast100 | app/controllers/client/payment-cntlr.js:47 | Any created order asks the gateway for a multiple of 100 of at least 100. |
| Payments.SignedText | app/controllers/client/payment-cntlr.js:83 | The signed text is the order id, a bar, then the payment id. |
| Payments.VerifyPayment | app/controllers/client/payment-cntlr.js:75-127 | A missing secret is a 500, a bad signature a 400, an unknown order a 404, all with no change; otherwise the first matching payment succeeds and its booking is confirmed and paid. |
| Payments.Succeed | app/controllers/client/payment-cntlr.js:106-109 | The payment becomes successful with the gateway ids, and nothing else changes. |
| Payments.ConfirmPaid | app/controllers/client/payment-cntlr.js:112-115 | The booking becomes confirmed and paid, and nothing else changes. |
| Payments.VerifiedPaymentConfirms | app/controllers/client/payment-cntlr.js:106-115 | A verified payment confirms its booking from any status when the booking exists, and otherwise leaves the bookings alone. |
| Reviews.SaveReview | app/models/review-model.js:3-33 | A review is stored exactly when the photographer and client are present, the rating is a number in [1, 5], the comment is at most 300 UTF-16 code units and the booking has no review yet. |
| Reviews.FractionalRatings | app/models/review-model.js:21-26 | A rating of 4.5 is stored; 0.5 and 5.5 are refused. |
| Reviews.SaveKeepsOneReviewPerBooking | app/models/review-model.js:5-10 | Saving keeps at most one review per booking. |
| Reviews.Create | app/controllers/client/review-cntlr.js:6-38 | Checks run in order: 404 not found, 403 not the client, 400 not completed. Once they pass, the review is created with 201 exactly when it meets the schema and the booking has no review yet; otherwise the save's error is a 500. A created review copies the booking's id and photographer and names the caller. |
| Reviews.CreateKeepsOneReviewPerBooking | app/controllers/client/review-cntlr.js:6-38 | Creating reviews never gives a booking a second review. |
| Reviews.SecondReviewRefused | app/models/review-model.js:5-10 | A second review of the same booking is refused with a 500 and stores nothing. |
| Reviews.UnassignedBookingNotReviewable | app/controllers/client/review-cntlr.js:24-37 | A booking whose photographer was cleared cannot be reviewed. |
| Chat.MarkRead | app/controllers/common/chat-cntlr.js:29-32 | Exactly the unread messages of the booking addressed to the caller become read. |
| Chat.MarkReadEffect | app/controllers/common/chat-cntlr.js:29-32 | Afterwards nothing of the booking addressed to the caller is unread, other messages are untouched, and only the read flag ever changes. |
| Chat.MarkReadIdempotent | app/controllers/common/chat-cntlr.js:29-32 | Marking twice equals marking once. |
| Chat.OldestFirst | app/controllers/common/chat-cntlr.js:24-26 | Ascending creation time is a total preorder. |
| Chat.NewestFirst | app/controllers/common/chat-cntlr.js:77 | Descending creation time is a total preorder. |
| Chat.Conversation | app/controllers/common/chat-cntlr.js:24-26 | Exactly the booking's messages, each as often as stored (the same multiset), oldest first. |
| Chat.History | app/controllers/common/chat-cntlr.js:11-39 | 404 for a missing booking; success exactly for the client or the photographer; a non-client with no photographer gets 500, another non-party 403. |
| Chat.HistoryOrdered | app/controllers/common/chat-cntlr.js:24-26 | A returned history belongs to the booking and is in ascending time. |
| Chat.SaveChat | app/controllers/common/chat-cntlr.js:44-65 | A message is stored exactly when the booking, text and receiver are given, and its room id is the booking id. |
| Chat.SaveChatDelivered | app/controllers/common/chat-cntlr.js:44-65 | A saved message adds one to its receiver's unread count for the booking and joins that booking's conversation. |
| Chat.SaveChatLast | app/controllers/common/chat-cntlr.js:24-28 | A message newer than every stored one is the last of its conversation. |
| Chat.FirstPerBooking | app/controllers/common/chat-cntlr.js:82-107 | The grouping keeps at most one message per booking, each from the list. |
| Chat.FirstPerBookingComplete | app/controllers/common/chat-cntlr.js:82-107 | Every booking in the list gets an entry. |
| Chat.FirstPerBookingNewest | app/controllers/common/chat-cntlr.js:82-107 | On a newest-first list, a booking's entry is its newest message. |
| Chat.FirstPerBookingNewestFirst | app/controllers/common/chat-cntlr.js:82-107 | The grouping keeps the list's newest-first order. |
| Chat.OtherParty | app/controllers/common/chat-cntlr.js:85-88 | The other party is the receiver when the caller sent the message, else the sender. |
| Chat.ContactOf | app/controllers/common/chat-cntlr.js:96-98 | A contact exists exactly when the user exists. |
| Chat.UnreadCount | app/controllers/common/chat-cntlr.js:90-94 | The number of the booking's unread messages addressed to the caller, so zero exactly when there are none. |
| Chat.Timeline | app/controllers/common/chat-cntlr.js:74-78 | Exactly the caller's sent and received messages, each as often as stored (the same multiset), newest first. |
| Chat.Inbox | app/controllers/common/chat-cntlr.js:70-115 | At most one entry per booking, each summarising a message involving the caller, with the most recently active conversation first. |
| Chat.InboxSummarises | app/controllers/common/chat-cntlr.js:77-106 | Every booking the caller has a message in appears, with its newest time and its unread count. |
| UserModel.Redact | app/controllers/public/public-cntlr.js:12 | Only the password hash is hidden; everything else is as stored. |
| PublicCatalog.RedactAll | app/controllers/public/public-cntlr.js:12 | Each user is redacted, and the order is kept. |
| PublicCatalog.ListPhotographers | app/controllers/public/public-cntlr.js:6-18 | Exactly the approved, active photographers, redacted. |
| PublicCatalog.ListPhotographersKeepsOrder | app/controllers/public/public-cntlr.js:6-18 | The listing keeps store order and lists a document exactly when it is approved and active. |
| PublicCatalog.ViewPhotographer | app/controllers/public/public-cntlr.js:20-37 | 404 unless the id is an approved, active photographer. |
| PublicCatalog.PriceMatchesIffIntersect | app/controllers/public/public-cntlr.js:50-53 | For well-formed bands the price filter holds exactly when the two closed intervals share a price. |
| PublicCatalog.Search | app/controllers/public/public-cntlr.js:39-60 | Exactly the listed photographers meeting every given criterion, redacted. |
| PublicCatalog.NoCriteriaIsList | app/controllers/public/public-cntlr.js:42-53 | With no criteria the search equals the listing. |
| PublicCatalog.CriteriaNarrow | app/controllers/public/public-cntlr.js:42-53 | Adding criteria only narrows, and every result is listed. |
| PublicCatalog.BusySlots | app/controllers/public/public-cntlr.js:74-85 | Exactly the slots of the photographer's pending and confirmed bookings. |
| PublicCatalog.BusyNarrowerThanOccupied | app/controllers/public/public-cntlr.js:76-79 | Busy slots are a subset of what the guard treats as taken; in-progress and completed bookings are taken but not shown. |
| PublicCatalog.GetAvailability | app/controllers/public/public-cntlr.js:62-72 | 404 exactly for an unknown id; otherwise an empty list. |
| UserValidation.AuthRegisterIff | app/validations/user-validation.js:23-28 | Accepted exactly when: name, an e-mail, a password of at least 6, a role among client/photographer/admin, and nothing else. |
| UserValidation.PhotographerRegisterIff | app/validations/user-validation.js:3-11 | Accepted exactly when: name, an e-mail, a password of at least 8, role photographer, phone, a numeric price per day, optionally a boolean approval flag, and nothing else. |
| UserValidation.ClientRegisterIff | app/validations/user-validation.js:14-20 | Accepted exactly when: name, an e-mail, a password of at least 8 and role client, optionally a phone, and nothing else. |
| UserValidation.LoginIff | app/validations/user-validation.js:31-34 | Accepted exactly when both an e-mail and a password are given, and nothing else. |
| UserValidation.UpdateProfileIff | app/validations/user-validation.js:36-41 | Every field is optional (the empty body passes), name and bio are non-empty strings when given, skills and services are arrays of non-empty strings, and no other key passes. |
| UserModel.RoleNamesRoundTrip | app/models/user-model.js:68-72 | Role names and roles correspond one to one, and the enum holds exactly the names. |
| UserModel.Issues | app/models/user-model.js:5-41 | No issue exactly when the document meets the field constraints (name 3-50 UTF-16 code units, e-mail, password, bio at most 500, experience not negative). |
| UserModel.NameIssues | app/models/user-model.js:5-10 | The name path has no issue exactly when it fits 3-50 code units, and at most one. |
| UserModel.ContactIssues | app/models/user-model.js:5-16 | The update validators of a name and e-mail `$set` find nothing exactly when a given name fits and a given e-mail is not empty; absent paths are not checked. |
| UserModel.NewUser | app/models/user-model.js:74-94 | A new document is not approved, active, priced 0 and without favourites. |
| UserModel.FindById | app/models/user-model.js:3-100 | The first user with the id (no earlier user has it), or none exactly when no user has it. |
| UserModel.Save | app/models/user-model.js:5-16 | A write fails exactly when the document breaks a constraint or its e-mail belongs to another user. |
| UserModel.SaveKeepsConsistent | app/models/user-model.js:12-16 | A successful save keeps every user valid and e-mails unique. |
| UserModel.UpdateById | app/models/user-model.js:5-16 | The update validators run before the lookup: any issue on the updated paths refuses the write whether or not the id exists. Otherwise an unknown id changes nothing, and the first user with the id is rewritten unless the new e-mail belongs to another user. |
| UserModel.UpdateKeepsConsistent | app/models/user-model.js:12-16 | An id-preserving update keeps the collection valid and e-mails unique. |
| Auth.SessionOf | app/controllers/auth/auth-cntlr.js:41-45 | The token is signed over exactly the user's id and role. |
| Auth.FindByEmail | app/controllers/auth/auth-cntlr.js:24 | The first user with the e-mail (no earlier user has it), or none exactly when no user has it. |
| Auth.RegisterRoleParses | app/validations/user-validation.js:27 | Every role the register schema allows names a user role. |
| Auth.RegisteredUser | app/controllers/auth/auth-cntlr.js:31-39 | The new user has the request's name, e-mail and role, the hashed password, and is approved and active. |
| Auth.Register | app/controllers/auth/auth-cntlr.js:12-61 | 400 with all messages joined by "; "; 400 for a used e-mail; 500 when the write is refused; success appends exactly the new user. |
| Auth.RegisterKeepsConsistent | app/controllers/auth/auth-cntlr.js:12-61 | Registration keeps every user valid and e-mails unique. |
| Auth.ShortNameFailsOnSave | app/controllers/auth/auth-cntlr.js:31-39 | A one- or two-character name passes validation but fails the write with a 500. |
| Auth.SecondRegistrationRefused | app/controllers/auth/auth-cntlr.js:24-28 | Registering the same e-mail twice is refused with no change. |
| Auth.Login | app/controllers/auth/auth-cntlr.js:64-118 | Joined messages 400; unknown e-mail and wrong password the same 401; inactive with the right password 403; otherwise a session for that user. |
| Auth.InactiveWrongPasswordIs401 | app/controllers/auth/auth-cntlr.js:80-96 | An inactive account with a wrong password gets the generic 401. |
| Auth.ApprovalIrrelevantToLogin | app/controllers/auth/auth-cntlr.js:89-96 | Changing a user's approval changes no login outcome. |
| Authenticate.StripBearer | app/middlewares/authenticate.js:10-12 | A leading "Bearer " is removed; any other header is used as is. |
| Authenticate.StripBearerOnce | app/middlewares/authenticate.js:10-12 | The prefix is removed exactly once. |
| Authenticate.NoPrefixUnchanged | app/middlewares/authenticate.js:10-12 | A header without the prefix is the token unchanged. |
| Authenticate.Guard | app/middlewares/authenticate.js:3-26 | A missing or empty header is a 401 "Token not provided"; a failed verify a 401 "Invalid token"; otherwise the identity is the payload's user id and role, with `user._id` equal to the user id. |
| Authenticate.IssuedTokenAdmits | app/middlewares/authenticate.js:3-26 | A token issued at login, with or without the prefix, is admitted with the identity it was issued for. |

## Left out

- Database I/O and `populate`: collections are sequences and a populated reference is a lookup function. Aggregation pipelines (earnings, revenue, `$month`) are not modelled.
- The race between `checkOverlap` and `save`: it is concurrency, which a sequential model cannot express.
- Time zones: `eventDate` is a millisecond timestamp and calendar days are UTC days. The source's local-time `setHours(0,0,0,0)` and `toDateString()` depend on the server's zone.
- String comparison: JavaScript `<` compares UTF-16 code units. The model compares code points, which agree on the ASCII the time pattern allows. String lengths are counted in UTF-16 code units (`Utf16.Length`), as Joi and Mongoose count them.
- Library behaviour: Joi's e-mail check and date parsing, bcrypt, jwt signing and verifying, HMAC-SHA256, and the Razorpay order call are parameters of the model, not definitions.
- The user-supplied location regex is a matcher parameter. An invalid pattern that throws into a 500 is not modelled.
- Joi numbers are integers. Joi's conversion of numeric strings is not modelled, nor are floating-point amounts, latitude and longitude.
- Reviews.SaveReview: the rating is the number the body carries, as a `real`. Mongoose's cast of a string such as "5" to a number is not modelled. Neither is the validation error that a string which does not cast gives, which the controller reports as a 500.
- Joi's conversion of the strings "true" and "false" to booleans is not modelled: `Joi.ValueViolations` rejects them for a boolean key. The only boolean key is the photographer registration's optional approval flag.
- Joi's `value` is taken to be the body's own strings; no trimming or conversion is modelled.
- Status inputs of the status-update and assignment endpoints are drawn from the status enum. Those endpoints run no validator, so an out-of-enum string could be stored; that case is not modelled.
- A `photographerId` of JSON `null` sent to the admin assignment endpoints (`AdminDesk.Assign`, `AdminDesk.Reassign`) is not modelled. There an absent `photographerId` leaves the field alone, as `{ photographerId: undefined }` does in an update. A client's booking update does carry it: `BookingPatch.photographerId` is `Some(None)` for a `null`, which clears the field.
- Malformed ObjectId strings that make Mongoose throw a cast error, answered with a 500, are not modelled. Ids are plain strings compared for equality.
- Mongoose's own error texts are abstracted: a refused write becomes the controller's 500 with a fixed message.
- The order of documents with equal sort keys: Mongo's tie order is unspecified, and the model uses a stable sort over store order.
- `limit` with a non-numeric string (`parseInt` giving NaN) is not modelled.
- app/models/payment-model.js is not part of this model. The payment record's fields are taken from the controllers that write it.
- `verifyPayment` with absent order or payment ids in the body is not modelled. The ids are strings, and only the signature may be absent.
- The activity log's description and details texts are not modelled. Entries carry kind, title, subject and time.
- The socket.io emit after a chat message is saved: it is I/O.
- `getReviews`, the photographer's own profile update, admin user editing and deletion, uploads, availability writes and payment history are outside the modelled core.
- The avatar URL of chat contacts is not modelled.
- Search uses a `profile` sub-document (location, specialization, pricing) that the user schema does not declare. The model gives users an optional `profile`, and a missing band bound in the price criterion is not modelled.
- A registration whose generated id is already taken is treated as a refused write (500).
- Object.values over the inbox map keeps insertion order. This holds for 24-hex-digit keys, which are never array indices.
- PublicCatalog.GetAvailability: always the empty list, because the user schema declares no availability field that `select` could return.
- ConflictReport.Report: a paired booking whose photographer reference dangles is a 500, as reading the populated name throws. The exact error text is not modelled.
- Payments.CreateOrder: the 400 body is Joi's `error.details` array. Validation stops at the first failure, so the array has one entry; the model replies with that entry's message only, not its path and type.
- Payments.CreateOrder: the reply's amount is the requested amount in paise, as the gateway echoes it. A failed gateway call and a failed save of the payment record are one case: the gateway's order id is absent.
- ClientBookings.UpdateBooking: the patch carries typed values. A `clientId`, `photographerId` or `eventDate` that Mongoose cannot cast, or a key the schema does not declare, is not modelled. The validators modelled are the required start and end times and the status and payment-status enums.
- Joi.Lookup: a body with a repeated key is not modelled. `JSON.parse` keeps the last value, and the model reads the first.

# Dental clinic appointment system — Dafny model

This project models the core of a dental clinic's appointment system. The
backend is a Spring service layer over five tables: doctors,
appointments, invoices, patient reviews and administrators. Around it
sit the login and password-reset endpoints, the browser-side HTTP client,
and the doctor directory's filter. The model proves the service rules:

- booking checks the doctor, the slot and the working hours, and writes
  the appointment together with its invoice;
- invoice status changes and revenue;
- review moderation and the average rating;
- password handling, unique user names, admin-first login;
- bearer-token injection, the 401 session wipe and the retry gate on the
  client.

## Layout

- `Common`, `Tables`: shared values (Option, Result, times, string predicates)
  and the table operations every query is built from (filter, count, sum,
  key lookup, ordering).
- `AppointmentModel`, `DoctorModel`, `InvoiceModel`, `ReviewModel`,
  `AdminModel`: the entities, their validation annotations as predicates,
  and their defaults.
- `Store`: the `Database` class. It holds one sequence per table and one
  identity counter per table. Its `Valid()` invariant covers:
  - unique primary keys;
  - the unique columns: doctor e-mail, admin user name, and the invoice's
    appointment;
  - every row passing its entity constraints;
  - the two foreign keys.
- `PasswordEncoder`: the encoder as an `encode`/`matches` pair. `Sound`
  says every password matches its own encoding. `NonBlankHashes` says an
  encoding is never blank.
- `AppointmentRepository`, `DoctorRepository`, `InvoiceRepository`,
  `ReviewRepository`: the derived and JPQL queries as functions over the
  table sequences.
- `AppointmentService`, `WorkingHours`, `InvoiceService`, `ReviewService`,
  `DoctorService`, `AdminService`: each state-changing service operation
  works in two parts:
  - a function computes the new table, or the exception;
  - a method over the `Database` applies it. The method is proved to keep
    `Valid()`, and to change exactly that table and nothing else, or nothing
    at all on an error.
- `UserDetailsService`, `AuthController`: the admin-first user lookup,
  authentication through the encoder, the login reply, the temporary
  password loop, and the reset endpoint with an outbox of sent mails.
- `ApiClient`: the frontend axios configuration, with these parts:
  - the base URL;
  - `shouldRetry`;
  - the request interceptor, over a `RequestConfig` object;
  - the error interceptor, over a `RequestConfig` and a `Browser` holding
    `localStorage` and the location.
- `DoctorsPage`: the two-stage specialty and search filter of the doctor list.

Every entity has a public setter for its `id`, so the entity a create
operation receives may carry one. `createAppointment`, `createReview`,
`createAdmin` and `saveDoctor` therefore take that id as `Option<nat>`;
`createInvoice` does not (see "## Left out"). Spring Data's `save` then merges the entity over
the stored row with that id, or inserts a new row under the next identity.
The review and appointment bodies of the public endpoints reach their
create operations this way. Posting a review with an approved review's id
therefore replaces it with a pending one. Posting an appointment with the
id of an invoiced appointment is refused as a whole, because the new
invoice would repeat the unique `appointment_id`. `createAdmin` and
`saveDoctor` are reached only by direct calls (see "## Left out").

Saving a row runs its Bean Validation constraints and the schema's unique
and foreign-key checks. A row that fails any of them is refused with
`ConstraintViolation`, `UniqueViolation` or `ForeignKeyViolation`, and no
table changes. The JPA cascades are modelled:
- deleting an appointment deletes its invoice;
- deleting a doctor deletes their appointments and those appointments'
  invoices.

So `deleteAppointment` and `deleteDoctor` remove exactly the named row
from their own table, plus the rows that depend on it.

Time, randomness, the password encoder and mail delivery are parameters.
The clock is `now`. `SecureRandom`'s eight draws are `draws`. Whether
the mail server accepts the reset mail is `mailAccepted`.

## Model

| member | source | states |
|---|---|---|
| AppointmentModel.HastaFullName | backend/src/main/java/com/klinik/model/Appointment.java:169-171 | the patient's full name is first name, one space, last name (length) |
| Common.NotBlankIffTrimmed | backend/src/main/java/com/klinik/model/Doctor.java:21 | `@NotBlank` holds exactly when `String.trim`, which strips every character up to U+0020 at both ends, leaves a non-empty string |
| Common.Utf16Length | backend/src/main/java/com/klinik/model/Review.java:23 | `String.length()`, which `@Size` uses, counts between one and two code units per character |
| Common.Utf16LengthBasic | backend/src/main/java/com/klinik/model/Review.java:23 | without characters beyond U+FFFF the code-unit count is the character count |
| Common.Utf16LengthSupplementary | backend/src/main/java/com/klinik/model/Review.java:23 | with only characters beyond U+FFFF the code-unit count is twice the character count |
| Common.Utf16LengthAppend | backend/src/main/java/com/klinik/model/Review.java:23 | the code-unit count adds up over concatenation |
| Common.JoinNameSplits | backend/src/main/java/com/klinik/model/Doctor.java:178-180 | a full name splits back at its first space into first and last name when the first name has no space |
| DoctorModel.FullName | backend/src/main/java/com/klinik/model/Doctor.java:178-180 | the doctor's full name is first name, one space, last name (length) |
| AppointmentModel.Violations | backend/src/main/java/com/klinik/model/Appointment.java:20-55 | the doctor is reported missing exactly when the body has no doctor object (an object without an id passes); date and time exactly when absent; `tc` fails its pattern exactly when it is not 11 digits; `telefon` exactly when it is not 10 or 11 digits |
| AppointmentModel.MissingDoctorMessage | backend/src/main/java/com/klinik/model/Appointment.java:38-41 | a request body without a doctor is refused with the message "Doktor seçilmeli" |
| AppointmentModel.Bind | backend/src/main/java/com/klinik/model/Appointment.java:38-59 | a body with no violations binds to a valid appointment with the body's fields (an absent status defaults to BEKLEMEDE), except that a doctor object without an id binds to nothing |
| AppointmentModel.DoctorWithoutIdPassesValidation | backend/src/main/java/com/klinik/model/Appointment.java:38-41 | a doctor object without an id is not a missing doctor: with the other fields valid the body passes validation, yet binds to no appointment |
| AppointmentModel.NoViolationsIffValid | backend/src/main/java/com/klinik/model/Appointment.java:20-55 | a body passes validation exactly when it has a doctor object, a date and a time, and the names, `tc`, `telefon` and `bolum` satisfy the entity constraints |
| AppointmentModel.TcExactlyElevenDigits | backend/src/main/java/com/klinik/model/Appointment.java:28-31 | `tc` is valid exactly when it is 11 decimal digits |
| AdminModel.NewAdminDefaults | backend/src/main/java/com/klinik/model/Admin.java:15-33 | a new admin's role is "ADMIN"; it is valid exactly when user name and password are non-blank |
| InvoiceModel.NewInvoiceDefaults | backend/src/main/java/com/klinik/model/Invoice.java:24-49 | a new invoice is BEKLEMEDE, dated at its creation, and valid exactly when its amount is positive |
| ReviewModel.NewReviewDefaults | backend/src/main/java/com/klinik/model/Review.java:18-47 | both constructors give an unapproved review dated at creation; the default rating is 5; the no-argument review is invalid; a review is valid exactly when the name is non-blank and the comment is non-blank with 10-500 UTF-16 code units, as `String.length()` counts them |
| ReviewModel.SizeCountsCodeUnits | backend/src/main/java/com/klinik/model/Review.java:23 | a nine-character comment with two emoji has eleven code units, so a review with it is valid |
| ReviewModel.SupplementaryCommentTooLong | backend/src/main/java/com/klinik/model/Review.java:23 | a comment of more than 250 characters beyond U+FFFF exceeds 500 code units, so the review is refused |
| AppointmentRepository.FindByDoctor | backend/src/main/java/com/klinik/repository/AppointmentRepository.java:17 | exactly the appointments of that doctor |
| AppointmentRepository.FindByTcAndHastaAdAndHastaSoyad | backend/src/main/java/com/klinik/repository/AppointmentRepository.java:19 | exactly the appointments whose `tc`, first and last name all match |
| AppointmentRepository.FindByTarihAndDoctor | backend/src/main/java/com/klinik/repository/AppointmentRepository.java:21 | exactly the appointments of that doctor on that date |
| AppointmentRepository.FindByDoctorAndTarihAndSaat | backend/src/main/java/com/klinik/repository/AppointmentRepository.java:23-26 | exactly the appointments matching doctor, date and time |
| AppointmentRepository.SlotQueryKeepsOrder | backend/src/main/java/com/klinik/repository/AppointmentRepository.java:23-26 | the slot query keeps table order |
| AppointmentRepository.FindByTarihBetween | backend/src/main/java/com/klinik/repository/AppointmentRepository.java:28-30 | both endpoints included; empty when start is after end |
| AppointmentRepository.FindByDoctorAndTarihBetween | backend/src/main/java/com/klinik/repository/AppointmentRepository.java:32-35 | exactly the appointments of that doctor with date in the inclusive range |
| AppointmentRepository.DoctorRangeIsIntersection | backend/src/main/java/com/klinik/repository/AppointmentRepository.java:32-35 | the doctor range query equals the range filter applied to the doctor filter |
| AppointmentRepository.CountByDoctorAndTarih | backend/src/main/java/com/klinik/repository/AppointmentRepository.java:37-38 | the count query gives the length of `findByTarihAndDoctor` for the same doctor and date |
| DoctorRepository.FindByEmail | backend/src/main/java/com/klinik/repository/DoctorRepository.java:15 | a found doctor is stored with that e-mail; none is found exactly when no stored doctor has it |
| DoctorRepository.ExistsByEmail | backend/src/main/java/com/klinik/repository/DoctorRepository.java:19 | true exactly when `findByEmail` finds a doctor |
| DoctorRepository.AtMostOneDoctorPerEmail | backend/src/main/java/com/klinik/repository/DoctorRepository.java:15 | with unique e-mails at most one doctor has an e-mail, and it is the one found |
| DoctorRepository.FindByUzmanlik | backend/src/main/java/com/klinik/repository/DoctorRepository.java:17 | exactly the doctors with that specialty |
| DoctorRepository.FindByUzmanlikOrderByDeneyimDesc | backend/src/main/java/com/klinik/repository/DoctorRepository.java:21-22 | a permutation of `findByUzmanlik` with non-increasing experience |
| DoctorRepository.LexLessIrreflexive | backend/src/main/java/com/klinik/repository/DoctorRepository.java:24-25 | the string order of ORDER BY is irreflexive |
| DoctorRepository.LexLessTransitive | backend/src/main/java/com/klinik/repository/DoctorRepository.java:24-25 | the string order is transitive |
| DoctorRepository.LexLessTotal | backend/src/main/java/com/klinik/repository/DoctorRepository.java:24-25 | any two different strings are ordered |
| DoctorRepository.InsertDistinct | backend/src/main/java/com/klinik/repository/DoctorRepository.java:24-25 | inserting into a strictly ascending list keeps it strictly ascending and adds exactly that value |
| DoctorRepository.FindAllDistinctUzmanlik | backend/src/main/java/com/klinik/repository/DoctorRepository.java:24-25 | strictly ascending; holds exactly the specialties of stored doctors |
| DoctorRepository.DistinctSpecialtiesListedOnce | backend/src/main/java/com/klinik/repository/DoctorRepository.java:24-25 | no specialty is listed twice |
| InvoiceRepository.DoctorOf | backend/src/main/java/com/klinik/repository/InvoiceRepository.java:20 | the doctor of an invoice is the doctor of its appointment; none exactly when the appointment is not stored |
| InvoiceRepository.FindByAppointment | backend/src/main/java/com/klinik/repository/InvoiceRepository.java:18 | a found invoice belongs to that appointment; none exactly when no invoice does |
| InvoiceRepository.AtMostOneInvoicePerAppointment | backend/src/main/java/com/klinik/repository/InvoiceRepository.java:18 | with the unique appointment column, at most one invoice per appointment, and it is the one found |
| InvoiceRepository.FindByAppointmentDoctorId | backend/src/main/java/com/klinik/repository/InvoiceRepository.java:20 | every invoice returned belongs to an appointment of that doctor |
| InvoiceRepository.FindByAppointmentDoctorIdExact | backend/src/main/java/com/klinik/repository/InvoiceRepository.java:20 | with unique appointment ids, an invoice is returned exactly when its appointment's doctor has that id |
| InvoiceRepository.FindByTarihBetween | backend/src/main/java/com/klinik/repository/InvoiceRepository.java:22-24 | exactly the invoices dated in the inclusive range |
| InvoiceRepository.FindByDoctorAndTarihBetween | backend/src/main/java/com/klinik/repository/InvoiceRepository.java:32-35 | invoices in the inclusive range billed to that doctor |
| InvoiceRepository.DoctorRangeIsIntersection | backend/src/main/java/com/klinik/repository/InvoiceRepository.java:32-35 | the doctor range query is the intersection of the doctor filter and the range filter |
| InvoiceRepository.SumOrNull | backend/src/main/java/com/klinik/repository/InvoiceRepository.java:26-30 | SQL `SUM`: null exactly when no row qualifies, else the sum of the qualifying amounts |
| InvoiceRepository.GetTotalPaidAmount | backend/src/main/java/com/klinik/repository/InvoiceRepository.java:26-27 | null exactly when no invoice is ODENDI |
| InvoiceRepository.GetTotalPaidAmountByDoctor | backend/src/main/java/com/klinik/repository/InvoiceRepository.java:29-30 | null exactly when no ODENDI invoice belongs to that doctor |
| InvoiceRepository.TotalPaidPositive | backend/src/main/java/com/klinik/repository/InvoiceRepository.java:26-27 | with positive amounts, a present total is positive |
| InvoiceRepository.DoctorTotalAtMostTotal | backend/src/main/java/com/klinik/repository/InvoiceRepository.java:26-30 | a doctor's paid total never exceeds the overall paid total |
| ReviewRepository.FindByApprovedTrue | backend/src/main/java/com/klinik/repository/ReviewRepository.java:13 | exactly the approved reviews |
| ReviewRepository.FindByApprovedFalse | backend/src/main/java/com/klinik/repository/ReviewRepository.java:15 | exactly the pending reviews |
| ReviewRepository.ApprovedPendingPartition | backend/src/main/java/com/klinik/repository/ReviewRepository.java:13-15 | approved and pending are disjoint and together are all reviews (as multisets) |
| ReviewRepository.FindApprovedOrderByTarihDesc | backend/src/main/java/com/klinik/repository/ReviewRepository.java:17-18 | a permutation of the approved reviews with non-increasing date |
| ReviewRepository.GetAverageRating | backend/src/main/java/com/klinik/repository/ReviewRepository.java:20-21 | null exactly when none is approved; else the sum and count of approved ratings |
| ReviewRepository.AverageIgnoresPending | backend/src/main/java/com/klinik/repository/ReviewRepository.java:20-21 | adding a pending review leaves the average unchanged |
| WorkingHours.SplitOn | backend/src/main/java/com/klinik/service/AppointmentService.java:131 | the split before Java drops trailing empty strings has at least one piece |
| WorkingHours.SplitOnJoins | backend/src/main/java/com/klinik/service/AppointmentService.java:131 | that split loses nothing: no piece holds "-", and joining the pieces with "-" restores the string |
| WorkingHours.SplitOnNone | backend/src/main/java/com/klinik/service/AppointmentService.java:131 | a string without the separator splits into itself |
| WorkingHours.SplitOnFirst | backend/src/main/java/com/klinik/service/AppointmentService.java:131 | splitting `a-b` gives `a` followed by the pieces of `b` |
| WorkingHours.ParseTime | backend/src/main/java/com/klinik/service/AppointmentService.java:132-133 | a parsed time came from a five-character `HH:MM` string |
| WorkingHours.FormatTime | backend/src/main/java/com/klinik/service/AppointmentService.java:132-133 | `HH:MM` text has five characters and no `-` |
| WorkingHours.ParseFormat | backend/src/main/java/com/klinik/service/AppointmentService.java:132-133 | parsing a formatted time gives the time back |
| WorkingHours.IsWithinWorkingHours | backend/src/main/java/com/klinik/service/AppointmentService.java:123-139 | null or empty hours allow every time |
| WorkingHours.WorkingHoursWindow | backend/src/main/java/com/klinik/service/AppointmentService.java:123-139 | hours `S-E` allow a time exactly when S <= t <= E (both inclusive) |
| WorkingHours.NoSeparatorAllowsAll | backend/src/main/java/com/klinik/service/AppointmentService.java:130-138 | hours with no `-` cannot be parsed, so every time is allowed |
| WorkingHours.UnreadableBoundAllowsAll | backend/src/main/java/com/klinik/service/AppointmentService.java:130-138 | hours with a `-` whose first or second piece does not parse as a time fall into the catch, so every time is allowed |
| AppointmentService.GetAppointmentsByDoctor | backend/src/main/java/com/klinik/service/AppointmentService.java:37-41 | unknown doctor throws; else exactly that doctor's appointments |
| AppointmentService.GetDoctorAppointmentsByDateRange | backend/src/main/java/com/klinik/service/AppointmentService.java:51-55 | unknown doctor throws; else exactly that doctor's appointments in the inclusive range |
| AppointmentService.HasConflict | backend/src/main/java/com/klinik/service/AppointmentService.java:117-121 | true exactly when some appointment, whatever its status, has that doctor, date and time |
| AppointmentService.SlotsIncreasing | backend/src/main/java/com/klinik/service/AppointmentService.java:149-156 | the twelve-slot grid is strictly increasing |
| AppointmentService.FilterKeepsIncreasing | backend/src/main/java/com/klinik/service/AppointmentService.java:158-162 | filtering an increasing slot list keeps it increasing |
| AppointmentService.SlotIsFreeMeans | backend/src/main/java/com/klinik/service/AppointmentService.java:158-162 | a slot passes both stream filters exactly when it has no conflict and lies in working hours |
| AppointmentService.GetAvailableTimeSlots | backend/src/main/java/com/klinik/service/AppointmentService.java:141-163 | unknown doctor throws; else an increasing subsequence of the grid holding exactly the grid slots without conflict and within hours |
| AppointmentService.InvoiceFor | backend/src/main/java/com/klinik/service/AppointmentService.java:76-81 | the booking invoice links the appointment, costs the doctor's fee, reads "uzmanlik muayenesi - full name", is pending and dated now |
| AppointmentService.Booked | backend/src/main/java/com/klinik/service/AppointmentService.java:58-84 | unknown doctor, then taken slot, then outside hours, in that order; on success the appointment keeps a stored id from the body and otherwise gets the next id, and its invoice names that id and gets the next invoice id |
| AppointmentService.BookedExactly | backend/src/main/java/com/klinik/service/AppointmentService.java:58-84 | booking succeeds exactly when the doctor exists, the slot is free, the time is in hours, the appointment is valid and no invoice already names the saved appointment's id |
| AppointmentService.FreshBookingUninvoiced | backend/src/main/java/com/klinik/service/AppointmentService.java:74-81 | a body without a stored id is saved under an id no invoice names, so only the first four conditions decide |
| AppointmentService.BookedOverInvoicedFails | backend/src/main/java/com/klinik/service/AppointmentService.java:74-81 | a body carrying the id of an invoiced appointment passes every service check and is then refused with a unique violation (invoice `appointment_id` is unique) |
| AppointmentService.SavedAppointmentKeepsIntegrity | backend/src/main/java/com/klinik/service/AppointmentService.java:74 | saving a valid appointment of a stored doctor, appended or merged over its stored row, keeps the store's integrity |
| AppointmentService.BookedKeepsIntegrity | backend/src/main/java/com/klinik/service/AppointmentService.java:57-84 | a successful booking's saved appointment and new invoice keep the store's integrity |
| AppointmentService.BookedFillsSlot | backend/src/main/java/com/klinik/service/AppointmentService.java:63-74 | a booking keeps "no double booking", the slot is then taken, and booking it again throws whatever the body's id |
| AppointmentService.CreateAppointment | backend/src/main/java/com/klinik/service/AppointmentService.java:57-84 | on error no table changes (all-or-nothing); on success the appointment is saved (a stored id overwrites that row, else it is appended) and one invoice is appended |
| AppointmentService.SaveWithInvoice | backend/src/main/java/com/klinik/service/AppointmentService.java:74-81 | the save and the invoice creation in one transaction: when the invoice is refused every table and counter is as before and the invoice's error is returned; otherwise the appointment is upserted, its invoice appended, and the store stays consistent |
| AppointmentService.Submitted | backend/src/main/java/com/klinik/controller/AppointmentController.java:25-33 | a body failing validation is answered with its violations; a doctor object without an id is refused by the lookup |
| AppointmentService.SubmittedBooksExactly | backend/src/main/java/com/klinik/controller/AppointmentController.java:25-33 | a posted body books exactly when it passes validation, names a stored doctor by id, asks for a free slot in that doctor's hours, and does not carry the id of an invoiced appointment |
| AppointmentService.UpdatedAppointment | backend/src/main/java/com/klinik/service/AppointmentService.java:99-106 | the eight request fields are copied; id and doctor link stay |
| AppointmentService.Updated | backend/src/main/java/com/klinik/service/AppointmentService.java:86-109 | unknown id throws; else only the stored row changes, as above |
| AppointmentService.UpdatedConflicts | backend/src/main/java/com/klinik/service/AppointmentService.java:90-97 | keeping date and time never gives a conflict; moving into a taken slot of the same doctor does |
| AppointmentService.UpdatedKeepsNoDoubleBooking | backend/src/main/java/com/klinik/service/AppointmentService.java:90-108 | an update keeps "no two appointments share doctor, date and time" |
| AppointmentService.UpdatedKeepsIntegrity | backend/src/main/java/com/klinik/service/AppointmentService.java:86-109 | a successful update keeps the store's integrity |
| AppointmentService.UpdateAppointment | backend/src/main/java/com/klinik/service/AppointmentService.java:86-109 | the appointments table becomes the updated table, or is unchanged on error |
| AppointmentService.Deleted | backend/src/main/java/com/klinik/service/AppointmentService.java:111-115 | unknown id throws; else one appointment fewer, and exactly the invoices of other appointments remain |
| AppointmentService.DeletedRemovesExactlyOne | backend/src/main/java/com/klinik/service/AppointmentService.java:111-115 | exactly the appointments with other ids remain; at most one invoice goes |
| AppointmentService.DeletedKeepsIntegrity | backend/src/main/java/com/klinik/service/AppointmentService.java:111-115 | the cascade keeps the store's integrity |
| AppointmentService.DeleteAppointment | backend/src/main/java/com/klinik/service/AppointmentService.java:111-115 | both tables become the cascade's result, or are unchanged on error |
| InvoiceService.SaveNew | backend/src/main/java/com/klinik/service/InvoiceService.java:44-46 | an invoice is saved exactly when its amount is positive, its appointment exists and has no invoice yet; it gets the next id |
| InvoiceService.SaveNewKeepsIntegrity | backend/src/main/java/com/klinik/service/InvoiceService.java:44-46 | saving keeps the invoice table's integrity |
| InvoiceService.CreateInvoice | backend/src/main/java/com/klinik/service/InvoiceService.java:44-46 | appends the saved invoice, or changes nothing |
| InvoiceService.WithStatus | backend/src/main/java/com/klinik/service/InvoiceService.java:75-89 | unknown id throws InvoiceNotFound |
| InvoiceService.WithStatusFrame | backend/src/main/java/com/klinik/service/InvoiceService.java:75-89 | only the invoice with that id changes, and only its status |
| InvoiceService.WithStatusIdempotent | backend/src/main/java/com/klinik/service/InvoiceService.java:75-89 | setting the same status twice equals setting it once |
| InvoiceService.WithStatusKeepsIntegrity | backend/src/main/java/com/klinik/service/InvoiceService.java:75-89 | a status change keeps the invoice table's integrity |
| InvoiceService.SetStatus | backend/src/main/java/com/klinik/service/InvoiceService.java:75-89 | stores the changed table and returns that invoice with the new status, or changes nothing |
| InvoiceService.MarkAsPaid | backend/src/main/java/com/klinik/service/InvoiceService.java:75-81 | as above with ODENDI |
| InvoiceService.MarkAsCancelled | backend/src/main/java/com/klinik/service/InvoiceService.java:83-89 | as above with IPTAL_EDILDI |
| InvoiceService.Updated | backend/src/main/java/com/klinik/service/InvoiceService.java:48-57 | unknown id throws; a non-positive amount is refused |
| InvoiceService.UpdatedFrame | backend/src/main/java/com/klinik/service/InvoiceService.java:48-57 | only that invoice changes: amount, description and status copied; appointment link and date kept |
| InvoiceService.UpdatedKeepsIntegrity | backend/src/main/java/com/klinik/service/InvoiceService.java:48-57 | an update keeps the invoice table's integrity |
| InvoiceService.UpdateInvoice | backend/src/main/java/com/klinik/service/InvoiceService.java:48-57 | stores the updated table, or changes nothing |
| InvoiceService.Deleted | backend/src/main/java/com/klinik/service/InvoiceService.java:59-63 | unknown id throws; else one invoice fewer |
| InvoiceService.DeletedRemovesExactlyOne | backend/src/main/java/com/klinik/service/InvoiceService.java:59-63 | exactly the invoice with that id is removed (multiset difference of one) |
| InvoiceService.DeletedKeepsIntegrity | backend/src/main/java/com/klinik/service/InvoiceService.java:59-63 | a delete keeps the invoice table's integrity |
| InvoiceService.DeleteInvoice | backend/src/main/java/com/klinik/service/InvoiceService.java:59-63 | stores the table without the invoice, or changes nothing |
| InvoiceService.GetTotalRevenue | backend/src/main/java/com/klinik/service/InvoiceService.java:65-68 | the sum of ODENDI amounts, 0 when none is paid |
| InvoiceService.GetDoctorRevenue | backend/src/main/java/com/klinik/service/InvoiceService.java:70-73 | the sum of ODENDI amounts billed to that doctor (0 when none) |
| InvoiceService.DoctorRevenueAtMostTotal | backend/src/main/java/com/klinik/service/InvoiceService.java:65-73 | a doctor's revenue is between 0 and the total revenue |
| InvoiceService.RevenueAfterStatusChange | backend/src/main/java/com/klinik/service/InvoiceService.java:65-81 | a status change moves the total revenue by exactly that invoice's amount in or out |
| InvoiceService.PayingAddsItsAmount | backend/src/main/java/com/klinik/service/InvoiceService.java:75-81 | paying a pending invoice raises the revenue by its amount |
| ReviewService.Created | backend/src/main/java/com/klinik/service/ReviewService.java:33-37 | a valid review is stored unapproved whatever its flag, keeping a stored id from the body and otherwise taking the next id; an invalid one is refused |
| ReviewService.CreatedKeepsIntegrity | backend/src/main/java/com/klinik/service/ReviewService.java:33-37 | the created review, appended or merged over a stored one, keeps the review table's integrity |
| ReviewService.CreateReview | backend/src/main/java/com/klinik/service/ReviewService.java:33-37 | a stored id overwrites that review, otherwise the review is appended; nothing changes on error |
| ReviewService.CreatedStaysPending | backend/src/main/java/com/klinik/service/ReviewService.java:33-37 | the created review is pending; the approved list keeps exactly the approved reviews with other ids (so a review posted over an approved one takes it off); without a stored id the approved list and the average are unchanged |
| ReviewService.WithApproval | backend/src/main/java/com/klinik/service/ReviewService.java:51-65 | unknown id throws ReviewNotFound |
| ReviewService.WithApprovalFrame | backend/src/main/java/com/klinik/service/ReviewService.java:51-65 | only that review changes, and only its flag |
| ReviewService.WithApprovalIdempotent | backend/src/main/java/com/klinik/service/ReviewService.java:51-65 | approving (rejecting) twice equals once |
| ReviewService.RejectUndoesApprove | backend/src/main/java/com/klinik/service/ReviewService.java:51-65 | rejecting a review just approved from pending restores the table |
| ReviewService.ApprovingAddsToAverage | backend/src/main/java/com/klinik/service/ReviewService.java:51-57 | approving a pending review adds its rating to the sum and one to the count |
| ReviewService.WithApprovalKeepsIntegrity | backend/src/main/java/com/klinik/service/ReviewService.java:51-65 | keeps the review table's integrity |
| ReviewService.SetApproval | backend/src/main/java/com/klinik/service/ReviewService.java:51-65 | stores the changed table and returns that review with the new flag, or changes nothing |
| ReviewService.ApproveReview | backend/src/main/java/com/klinik/service/ReviewService.java:51-57 | as above with approved |
| ReviewService.RejectReview | backend/src/main/java/com/klinik/service/ReviewService.java:59-65 | as above with not approved |
| ReviewService.Updated | backend/src/main/java/com/klinik/service/ReviewService.java:39-49 | unknown id throws; an invalid result is refused |
| ReviewService.UpdatedFrame | backend/src/main/java/com/klinik/service/ReviewService.java:39-49 | only that review changes: name, comment, rating and flag copied, date kept |
| ReviewService.UpdatedKeepsIntegrity | backend/src/main/java/com/klinik/service/ReviewService.java:39-49 | an update keeps the review table's integrity |
| ReviewService.UpdateReview | backend/src/main/java/com/klinik/service/ReviewService.java:39-49 | stores the updated table, or changes nothing |
| ReviewService.Deleted | backend/src/main/java/com/klinik/service/ReviewService.java:67-71 | unknown id throws; else exactly that review is removed |
| ReviewService.DeleteReview | backend/src/main/java/com/klinik/service/ReviewService.java:67-71 | stores the table without it, or changes nothing |
| ReviewService.GetPendingReviews | backend/src/main/java/com/klinik/service/ReviewService.java:25-27 | exactly the unapproved reviews |
| ReviewService.GetApprovedReviews | backend/src/main/java/com/klinik/service/ReviewService.java:21-23 | exactly the approved reviews, newest first |
| ReviewService.GetAverageRating | backend/src/main/java/com/klinik/service/ReviewService.java:73-76 | 0 when nothing is approved, else the mean of the approved ratings (as sum and count) |
| DoctorService.SaveNew | backend/src/main/java/com/klinik/service/DoctorService.java:42-44 | a new doctor is saved exactly when valid and its e-mail is unused; it gets the next id |
| DoctorService.SaveNewKeepsIntegrity | backend/src/main/java/com/klinik/service/DoctorService.java:42-44 | saving a new doctor keeps the doctor table's integrity and loses no doctor id |
| DoctorService.SaveExisting | backend/src/main/java/com/klinik/service/DoctorService.java:45-53 | overwriting a stored doctor succeeds exactly when the row is valid and no other doctor has its e-mail |
| DoctorService.SaveExistingKeepsIntegrity | backend/src/main/java/com/klinik/service/DoctorService.java:45-53 | overwriting keeps the table's integrity and every doctor id |
| DoctorService.SaveDoctorPassword | backend/src/main/java/com/klinik/service/DoctorService.java:41-54 | a new doctor's password is stored encoded; a stored doctor's hash is kept when re-sent and re-encoded when changed |
| DoctorService.SaveDoctor | backend/src/main/java/com/klinik/service/DoctorService.java:41-54 | overwrites the stored row or appends a new one with the stored password as above, or changes nothing |
| DoctorService.UpdatedDoctor | backend/src/main/java/com/klinik/service/DoctorService.java:56-78 | nine profile fields are copied; the password changes only to the encoding of a non-empty, different one |
| DoctorService.UpdatedDoctorPassword | backend/src/main/java/com/klinik/service/DoctorService.java:56-78 | an empty or unchanged password keeps the hash; otherwise the new password logs in |
| DoctorService.Updated | backend/src/main/java/com/klinik/service/DoctorService.java:56-78 | unknown id throws DoctorNotFound; other failures are constraint or unique violations |
| DoctorService.UpdateDoctor | backend/src/main/java/com/klinik/service/DoctorService.java:56-78 | stores the updated table, or changes nothing |
| DoctorService.ExistsDoctorWithEmail | backend/src/main/java/com/klinik/service/DoctorService.java:86-88 | true exactly when a stored doctor has that e-mail |
| DoctorService.ChangedPassword | backend/src/main/java/com/klinik/service/DoctorService.java:90-101 | nothing changes for an unknown e-mail or a wrong old password |
| DoctorService.ChangedPasswordExactly | backend/src/main/java/com/klinik/service/DoctorService.java:90-101 | the password changes exactly when the doctor exists and the old password matches, and then only that doctor's hash becomes the new encoding |
| DoctorService.ChangePassword | backend/src/main/java/com/klinik/service/DoctorService.java:90-101 | answers true and stores the change, or answers false and changes nothing |
| DoctorService.Reset | backend/src/main/java/com/klinik/service/DoctorService.java:103-108 | throws exactly for an unknown e-mail |
| DoctorService.ResetSucceeds | backend/src/main/java/com/klinik/service/DoctorService.java:103-108 | for a stored e-mail the reset succeeds and the new password then matches that doctor's hash |
| DoctorService.ResetPassword | backend/src/main/java/com/klinik/service/DoctorService.java:103-108 | stores the reset table, or changes nothing |
| DoctorService.Deleted | backend/src/main/java/com/klinik/service/DoctorService.java:80-84 | unknown id throws; else one doctor fewer and exactly the appointments of other doctors remain |
| DoctorService.DeletedRemovesExactlyTheDoctor | backend/src/main/java/com/klinik/service/DoctorService.java:80-84 | exactly the doctors with other ids remain |
| DoctorService.KeptInvoice | backend/src/main/java/com/klinik/service/DoctorService.java:80-84 | an invoice survives the cascade exactly when its appointment survives |
| DoctorService.DeletedInvoices | backend/src/main/java/com/klinik/service/DoctorService.java:80-84 | exactly the invoices whose appointment remains are kept |
| DoctorService.DeletedKeepsIntegrity | backend/src/main/java/com/klinik/service/DoctorService.java:80-84 | the cascade keeps the integrity of all three tables |
| DoctorService.DeleteDoctor | backend/src/main/java/com/klinik/service/DoctorService.java:80-84 | the three tables become the cascade's result, or are unchanged on error |
| AdminService.FindByUsername | backend/src/main/java/com/klinik/service/AdminService.java:29-31 | a found admin has that user name; none exactly when no admin does |
| AdminService.AtMostOneAdminPerUsername | backend/src/main/java/com/klinik/service/AdminService.java:29-31 | with unique user names, the admin found is the only one with that name |
| AdminService.ExistsByUsername | backend/src/main/java/com/klinik/service/AdminService.java:66-68 | true exactly when the lookup finds an admin |
| AdminService.Created | backend/src/main/java/com/klinik/service/AdminService.java:33-42 | a taken user name throws exactly when one exists; else the admin is stored with the encoded password, keeping a stored id from the body and otherwise taking the next id |
| AdminService.CreatedAdminLogsIn | backend/src/main/java/com/klinik/service/AdminService.java:33-42 | a fresh non-blank user name is accepted and its password matches the stored hash |
| AdminService.CreatedKeepsIntegrity | backend/src/main/java/com/klinik/service/AdminService.java:33-42 | keeps the admin table's integrity, including unique user names |
| AdminService.CreatedOverStoredAdmin | backend/src/main/java/com/klinik/service/AdminService.java:33-42 | `createAdmin` called with a stored admin's id replaces that admin: the old user name no longer finds anyone, and the new one finds the created row |
| AdminService.CreateAdmin | backend/src/main/java/com/klinik/service/AdminService.java:33-42 | a stored id overwrites that admin, otherwise the admin is appended; nothing changes on error |
| AdminService.SaveExisting | backend/src/main/java/com/klinik/service/AdminService.java:44-58 | overwriting succeeds exactly when valid and no other admin has the user name |
| AdminService.SaveExistingKeepsIntegrity | backend/src/main/java/com/klinik/service/AdminService.java:44-58 | overwriting keeps the admin table's integrity |
| AdminService.UpdatedAdmin | backend/src/main/java/com/klinik/service/AdminService.java:44-58 | the user name is always set; the password changes only for a non-empty one that does not match the hash |
| AdminService.UpdatedAdminPassword | backend/src/main/java/com/klinik/service/AdminService.java:44-58 | an empty password keeps the hash; a non-empty one matches the stored hash afterwards |
| AdminService.Updated | backend/src/main/java/com/klinik/service/AdminService.java:44-58 | unknown id throws AdminNotFound; other failures are constraint or unique violations |
| AdminService.UpdateToTakenNameFails | backend/src/main/java/com/klinik/service/AdminService.java:44-58 | renaming to another admin's user name fails |
| AdminService.UpdateAdmin | backend/src/main/java/com/klinik/service/AdminService.java:44-58 | stores the updated table, or changes nothing |
| AdminService.Deleted | backend/src/main/java/com/klinik/service/AdminService.java:60-64 | unknown id throws; else one admin fewer |
| AdminService.DeletedRemovesExactlyOne | backend/src/main/java/com/klinik/service/AdminService.java:60-64 | exactly the admins with other ids remain |
| AdminService.DeletedKeepsIntegrity | backend/src/main/java/com/klinik/service/AdminService.java:60-64 | a delete keeps the admin table's integrity |
| AdminService.DeleteAdmin | backend/src/main/java/com/klinik/service/AdminService.java:60-64 | stores the table without the admin, or changes nothing |
| AdminService.ChangedPassword | backend/src/main/java/com/klinik/service/AdminService.java:70-81 | nothing changes for an unknown user name or a wrong old password |
| AdminService.ChangedPasswordExactly | backend/src/main/java/com/klinik/service/AdminService.java:70-81 | the password changes exactly when the admin exists and the old password matches; only that hash changes, and the new password matches it |
| AdminService.ChangePassword | backend/src/main/java/com/klinik/service/AdminService.java:70-81 | answers true and stores the change, or answers false and changes nothing |
| UserDetailsService.LoadUserByUsername | backend/src/main/java/com/klinik/security/CustomUserDetailsService.java:30-58 | an admin with that name gives its name and hash with ROLE_ADMIN; otherwise a doctor with that e-mail gives e-mail and hash with ROLE_DOCTOR; otherwise UserNotFound |
| UserDetailsService.AdminFirst | backend/src/main/java/com/klinik/security/CustomUserDetailsService.java:31-55 | in a valid store the admin is returned whenever one has the name, and the doctor only when no admin does |
| UserDetailsService.Authenticate | backend/src/main/java/com/klinik/controller/AuthController.java:47-52 | authentication succeeds exactly when the user loads and the password matches the loaded hash; else BadCredentials |
| UserDetailsService.AdminShadowsDoctor | backend/src/main/java/com/klinik/security/CustomUserDetailsService.java:31-45 | for an admin's user name, login succeeds exactly with the admin's password, and always as ROLE_ADMIN |
| AuthController.AuthenticateUser | backend/src/main/java/com/klinik/controller/AuthController.java:45-79 | failure (exactly when authentication fails) gives 400 with the fixed message; success gives the token, type Bearer, the role, and the admin's id and login name, or the doctor's id and full name |
| AuthController.AlphabetRanges | backend/src/main/java/com/klinik/controller/AuthController.java:108 | the three parts of the alphabet are the consecutive ranges A-Z, a-z and 0-9 |
| AuthController.AlphabetText | backend/src/main/java/com/klinik/controller/AuthController.java:108 | the alphabet is the source's 62-character literal |
| AuthController.AlphabetIsAlphanumeric | backend/src/main/java/com/klinik/controller/AuthController.java:108 | 62 characters, all in [A-Za-z0-9] |
| AuthController.AlphabetCoversAlphanumeric | backend/src/main/java/com/klinik/controller/AuthController.java:108 | every character in [A-Za-z0-9] is in the alphabet |
| AuthController.GenerateTemporaryPassword | backend/src/main/java/com/klinik/controller/AuthController.java:107-118 | exactly 8 characters, the i-th being the alphabet's character at the i-th draw; all alphanumeric |
| AuthController.ResetPassword | backend/src/main/java/com/klinik/controller/AuthController.java:82-105 | a blank or malformed e-mail is refused with its constraint messages before anything runs; unknown e-mail: 400 and no change; known: the password is reset to the temporary one and the mail is sent, or, if sending fails, 400 with the password already reset |
| AuthController.ResetRequestViolations | backend/src/main/java/com/klinik/dto/PasswordResetRequest.java:8-10 | "Email boş olamaz" exactly for a blank e-mail, "Geçersiz email formatı" exactly for a malformed one |
| AuthController.ResetMailLogsIn | backend/src/main/java/com/klinik/controller/AuthController.java:85-96 | after a reset, the doctor logs in with the mailed temporary password |
| ApiClient.GetAPIBaseURL | frontend/src/services/api.js:4-9 | `VITE_API_URL` when set and non-empty, else the production or development default |
| ApiClient.ShouldRetry | frontend/src/services/api.js:33-39 | the NETWORK_ERROR and TIMEOUT codes and any status of 500 or more retry; an error with neither a code nor a response does not |
| ApiClient.ClientErrorsNeverRetry | frontend/src/services/api.js:33-39 | a status below 500 retries exactly for the NETWORK_ERROR and TIMEOUT codes |
| ApiClient.StoredToken | frontend/src/services/api.js:44-45 | the token is used exactly when stored and non-empty |
| ApiClient.RequestHeaders | frontend/src/services/api.js:44-53 | Authorization is "Bearer " + token exactly when a truthy token is stored; otherwise it is left as it was; Accept-Language is always set; no other header changes |
| ApiClient.OnRequest | frontend/src/services/api.js:42-60 | the config's headers become the above, its start time the given clock, its retry state unchanged |
| ApiClient.Decide | frontend/src/services/api.js:72-104 | wipe exactly for a 401 with `_retry` unset; resubmit exactly when it is not that case, shouldRetry holds, `_retry` is unset and a set count is below 3, carrying `_retry`, count + 1 and delay 1000 × count |
| ApiClient.OnResponseError | frontend/src/services/api.js:72-104 | a wipe removes token and user, goes to /giris and rejects; a resubmission updates `_retry`/`_retryCount` and reports the delay; everything else rejects with the same error and changes nothing |
| ApiClient.FreshRequestNeverResubmitted | frontend/src/services/api.js:84 | a request whose `_retryCount` was never set is never resubmitted |
| ApiClient.AtMostOneResubmission | frontend/src/services/api.js:84-89 | no request is resubmitted more than once |
| ApiClient.DecideCorrected | frontend/src/services/api.js:84-89 | corrected gate: an unset count reads as 0 and resubmission happens exactly when shouldRetry holds, the count is below 3, and it is not a fresh 401 |
| ApiClient.CorrectedBacksOffThreeTimes | frontend/src/services/api.js:84-89 | with the corrected gate a failing retryable request is resubmitted after 1000, 2000 and 3000 ms and then rejected |
| DoctorsPage.FilteredDoctors | frontend/src/pages/DoctorsPage.jsx:118-120 | no specialty selected: all doctors unchanged; else exactly those with that specialty |
| DoctorsPage.SearchFilteredDoctors | frontend/src/pages/DoctorsPage.jsx:122-127 | a doctor is listed exactly when it passes the specialty stage and the term is empty or occurs in the lowered full name or specialty; both stages off leave the list unchanged |
| DoctorsPage.TwoStagesAreOneFilter | frontend/src/pages/DoctorsPage.jsx:118-127 | the two stages equal one filter by the combined condition |
| DoctorsPage.ListKeepsOrder | frontend/src/pages/DoctorsPage.jsx:118-127 | the list is an order-preserving subsequence of the fetched doctors |
| DoctorsPage.ResultCountCountsShown | frontend/src/pages/DoctorsPage.jsx:229 | the count shown is the number of fetched doctors passing both stages |

## Left out

- Controllers other than the auth endpoints are HTTP routing that maps
  exceptions to status codes.
- `POST /admin/doctors`, `POST /admin/create-admin` and
  `PUT /doctors/profile/{id}` always answer 400. `Doctor.sifre` and
  `Admin.password` are `@JsonIgnore`, so Jackson never binds them from
  JSON, and `@Valid` then refuses the body for its blank `@NotBlank`
  password before any service runs. `DoctorService.SaveDoctor`,
  `DoctorService.UpdateDoctor` and `AdminService.CreateAdmin` are
  therefore reached only by in-process callers such as the data
  initializer, which passes no id. Their stored-id and password-update
  cases, and the controller's e-mail guard (which `DoctorService.SaveNew`
  repeats by refusing a used e-mail), apply to such callers only.
- The plain getters (`getAll*`, `get*ById`, `getAppointmentsByPatient`,
  `getAppointmentsByDateRange`, `getDoctorByEmail`, `getDoctorsByUzmanlik`,
  `getAllUzmanliklar`, `getInvoiceByAppointment`, `getInvoicesByDoctor`
  and the invoice date-range getters) delegate straight to a repository
  query. They are covered by the repository functions.
- InvoiceService.CreateInvoice and InvoiceService.SaveNew take no id and
  always store the invoice under the next identity. Their only caller,
  `createAppointment`, passes a `new Invoice()` whose id is null, and no
  endpoint creates invoices, so no outcome differs.
- `AdminRepository.java` is not part of this model. `findByUsername` is
  read as a derived query on the unique `username` column.
- `LoginRequest` is not part of this model. Its user name and password fields are parameters, and its `@Valid` constraints are not modelled. The reset endpoint's `PasswordResetRequest` constraints are modelled.
- JWT generation, `AuthenticationManager` and `SecurityContextHolder`
  are left out. The token is a parameter. Authentication is the user
  lookup plus `matches`.
- Password hashing: bcrypt is an abstract encoder. Salting and
  non-determinism are left out.
- `EmailService` is left out: sending is an outbox append, gated by a
  `mailAccepted` parameter. The appointment-confirmation mail is never
  called by the core.
- `@Transactional` and JPA flush order are left out. `createAppointment`
  is all-or-nothing: `AppointmentService.SaveWithInvoice` restores the
  appointment table and its counter when the invoice is refused.
- Concurrency: two requests racing for one slot.
- `LocalDateTime.now()`, `new Date()`, `SecureRandom` and `setTimeout`:
  the clock and the random draws are parameters, and delays are returned
  as values.
- Floating point: average ratings are (sum, count) pairs, with 0 as
  `Ratio(0, 1)`. Money is integer minor units.
- `null` fields: optional references are `Option`. Null strings are the
  empty string, which the null/empty checks of the update methods treat
  alike. Validation messages differ for a null string, though: `@Pattern`
  accepts null, so a body without `tc` or `telefon` gets only the
  `@NotBlank` message. The model's empty string gets the pattern message
  as well. The reply is the same 400 either way. The boxed `Invoice.tutar`, `Review.rating` and `Invoice.status`
  sit on `nullable = false` columns, so the database refuses a null in
  them, for example a `PUT /invoices/{id}` body without `tutar`. The
  model's `Money`, `int` and enum fields cannot hold that null. For the
  amount, the outcome equals the model's refusal of a non-positive one:
  the update fails and nothing changes.
- WorkingHours.SplitOn: Java's `split` also drops trailing empty strings, so
  `"-".split("-")` has no piece at all. The model keeps them. No outcome
  changes: only `hours[0]` and `hours[1]` are read, and a missing piece
  (out of bounds) and an empty one (a parse failure) both end in the catch
  that allows the time.
- WorkingHours.ParseTime: `LocalTime.parse` also accepts seconds and
  fractions. Only `HH:MM` is modelled; anything else is a parse
  failure, which allows the time.
- DoctorModel.ValidDoctor: the `@Email` format check is not modelled, only
  non-blankness.
- DoctorRepository.FindByUzmanlikOrderByDeneyimDesc and
  ReviewRepository.FindApprovedOrderByTarihDesc: the order among equal
  keys is the database's choice. These contracts fix the elements and the
  ordering, not the tie order.
- DoctorsPage.SearchFilteredDoctors: `toLowerCase` is the fixed,
  locale-independent Unicode default case mapping, under which "I" always
  becomes "i" and "İ" becomes two code points. That mapping is the
  parameter `lower`; its character tables are not written out.
- DoctorRepository.FindAllDistinctUzmanlik: the query sorts and removes
  duplicates in the database collation, which the source leaves unset. The
  model assumes code-point order and exact string equality. Under a Turkish
  or accent-insensitive collation "Çene Cerrahisi" sorts before "Protez".
  Under a case-insensitive one, "ortodonti" and "Ortodonti" become one entry.
- DoctorRepository.FindByEmail, AdminService.FindByUsername: the same
  assumption of exact equality. A case-insensitive collation would also
  match e-mails and user names that differ only in case.
- AuthController.ResetPassword: `@Email`'s address grammar is the parameter
  `isEmail`. Hibernate's regular expressions are not written out.
- AuthController.AuthenticateUser: the "any other role" branch cannot be
  reached, because the user lookup only ever grants `ROLE_ADMIN` or
  `ROLE_DOCTOR`. Its clause holds vacuously.
- DoctorService.SaveDoctor: for an id that is not stored, the code keeps
  the raw password and the save inserts a new row. The model does the
  same: `StoredPassword` keeps the raw value and the row gets the next id,
  not the given one.
- Every `save` of a body that carries an id is modelled by `Tables.SavedId`
  and `Tables.Upsert`: a stored id merges over that row, and an unknown id
  inserts a new row under the next identity. This follows the merge
  behaviour of Hibernate releases before 6.6; later releases refuse an
  unknown id on a generated identifier instead.
- The response success interceptor and the request error handler only log
  or pass values through. The endpoint wrappers at api.js lines 107-214
  are one-line calls.
- Sample-data fallback, rendering and UI state of the pages.
- DataInitializer's seeding: its reviews pass through `createReview` and
  so stay pending, as `ReviewService.CreatedStaysPending` states.

## Findings

| source | as written | input that shows it | evidently intended | confidence | as-written member | corrected member |
|---|---|---|---|---|---|---|
| frontend/src/services/api.js:84 | the gate tests `_retryCount < MAX_RETRIES` on a count nobody has set, and `!_retry`, which the first retry sets. So a fresh request is never resubmitted (`ApiClient.FreshRequestNeverResubmitted`), and none is resubmitted twice (`ApiClient.AtMostOneResubmission`) | a fresh GET answered with status 503: no `_retry`, no `_retryCount`; `undefined < 3` is false, so it is rejected at once | up to three resubmissions after 1000, 2000 and 3000 ms, reading an unset count as 0; proved as `ApiClient.CorrectedBacksOffThreeTimes` | high; not executed | ApiClient.Decide | ApiClient.DecideCorrected |

The interceptor method `ApiClient.OnResponseError` follows the code as
written (`ApiClient.Decide`). The corrected gate is stated next to it
together with its backoff proof.

# Car rental booking model

A Dafny model of a console car-rental manager. The system keeps three SQLite
tables: users, cars and bookings. A single `RentalService` object registers
and logs in users, maintains the fleet, takes bookings, lets an admin approve
or reject them, and produces bills for approved bookings. The model covers
that service, the database initialisation that creates and seeds the tables,
and the input rules of the console shell.

Structure:

- `wrappers.dfy` (`Wrappers`): the `Option` type for missing rows and `None` returns.
- `hashing.dfy` (`Hashing`): bcrypt as an abstract `Hash`/`Check` pair. The random
  salt is a parameter. `Check` returns `None` for a stored value that is not a
  digest, which is the `ValueError` case.
- `schema.dfy` (`Schema`): the rows and the `Tables` value. Each table is a map
  keyed by its unique column: users by username, cars and bookings by their
  AUTOINCREMENT id, with explicit next-id counters. `Inv` is the invariant of
  every database the program produces. The `Database` class is the database
  file, updated in place.
- `rental_service.dfy` (`Rental`): one function per service operation giving
  its effect on the tables. Lemmas state what each operation promises.
  `RentalService` is the class; each of its methods performs the guard-then-update
  on the shared `Database` and is proved equal to the matching function.
- `db_connection.dfy` (`DbConnection`): `initialize_database`. Sample cars go in
  only when the cars table is empty. Each default user goes in only when its
  username is absent. A second run changes nothing.
- `main_menu.dfy` (`MainMenu`): `clean_int_input`'s digit filter and parse, the
  password and role rules of registration, and the customer menu entries that
  book and list in the logged-in user's name.
- `lifecycle.dfy` (`Lifecycle`): any sequence of initialisations and committed
  operations, starting from a new database, keeps `Inv`.

Modelling choices:

- Money is an exact `real`. Bill amounts are not rounded.
- SQLite does not enforce foreign keys unless asked to, and this program never
  asks. So `delete_car` leaves the car's bookings in place, and the join in
  `generate_bill` then finds no row.
- `view_bookings` tests the customer name for truthiness. An empty name lists
  every booking.
- One might expect approved and rejected to be final. But `manage_booking`
  does not check the current status, so a decided booking can be decided
  again. The model follows the code (`Rental.DecisionsAreNotFinal`).
  Approval also does not check whether the car is still available, so two
  bookings of one car can both be approved (`Rental.TwoApprovalsOfOneCar`).
- An uncaught `ValueError` from `clean_int_input` ends the program. The customer
  menu models it as `None`, with no state change.

## Model

| member | source | states |
|---|---|---|
| `Hashing.Hash` | services/rental_service.py:17 | a password always checks against its own digest, whatever the salt |
| `Hashing.Check` | services/rental_service.py:36-42 | checking fails with an error exactly when the stored value is not a bcrypt digest |
| `Hashing.CheckRejectsOthers` | services/rental_service.py:38 | a digest rejects every password other than the one it was made from |
| `Rental.Register` | services/rental_service.py:13-28 | registration never touches cars, bookings or the id counters and never removes a user; a failed registration changes nothing |
| `Rental.Login` | services/rental_service.py:30-43 | a returned role is the stored role of an existing user |
| `Rental.AddCar` | services/rental_service.py:45-51 | the car table gains exactly the next id and the car counter advances by one; the new car is available; users, bookings and the booking counter are unchanged |
| `Rental.UpdateCar` | services/rental_service.py:54-59 | no car row is added or removed; users, bookings and both id counters are unchanged |
| `Rental.DeleteCar` | services/rental_service.py:62-65 | the id is gone and no other car id is removed; users, bookings and both id counters are unchanged |
| `Rental.AvailableCars` | services/rental_service.py:68-71 | every listed car is a stored row with available set |
| `Rental.Book` | services/rental_service.py:79-111 | cars, users and the car counter never change; an unsubmitted booking changes nothing; a submitted one is stored as pending |
| `Rental.ViewBookings` | services/rental_service.py:113-118 | every listed booking is a stored row |
| `Rental.PendingBookings` | services/rental_service.py:126-128 | every listed booking is a stored row with status pending |
| `Rental.Fee` | services/rental_service.py:94 | zero days cost nothing, and a non-negative number of days at a non-negative rate never gives a negative fee |
| `Rental.FeeLinearInDays` | services/rental_service.py:94 | the fee grows linearly with the days booked: d1 + d2 days cost what d1 and d2 days cost together |
| `Rental.ManageBooking` | services/rental_service.py:137-153 | reports success iff the booking exists; no row is added or removed, users and both id counters are unchanged, and a found booking gets the requested status |
| `Rental.GenerateBill` | services/rental_service.py:171-188 | a bill exists only for an existing approved booking; its subtotal is the stored fee and its grand total is subtotal plus tax |
| `Rental.RegisterRejectsEmptyField` | services/rental_service.py:14-16 | any empty username, password, role or email gives False and leaves the tables unchanged |
| `Rental.RegisterDuplicateFails` | services/rental_service.py:18-28 | an existing username makes the insert fail: False, tables unchanged |
| `Rental.RegisterSucceeds` | services/rental_service.py:13-28 | registration succeeds iff all fields are non-empty and the username is new; it then adds exactly that user with the hashed password, role and email, and cars, bookings, every other user and both id counters stay as they were |
| `Rental.LoginIff` | services/rental_service.py:30-43 | login returns the stored role iff the user exists and the password checks; absent user, wrong password and malformed hash all give None |
| `Rental.RegisterThenLogin` | services/rental_service.py:13-43 | after a successful registration the user logs in with that password, getting the registered role; every other password is rejected, under the collision-free digest of `Hashing.CheckRejectsOthers` |
| `Rental.AddCarFresh` | services/rental_service.py:45-51 | a new car gets the next unused id and available = true; the car counter advances by one; no existing row and the booking counter do not change |
| `Rental.UpdateCarOnlyMileageAndRate` | services/rental_service.py:54-59 | only the mileage and rate of the given car change: every other car row, users, bookings and both id counters stay; an unknown id changes nothing |
| `Rental.DeleteCarKeepsBookings` | services/rental_service.py:62-65 | the car row is removed; every other car row, both id counters, the users and the bookings that refer to it stay as they were |
| `Rental.AvailableCarsFilter` | services/rental_service.py:68-71 | the listed cars are exactly the rows with available set |
| `Rental.BookIff` | services/rental_service.py:79-111 | a booking is written iff the user has a row, the car exists and is available, and min_days <= days <= max_days; otherwise the tables are unchanged |
| `Rental.BookAddsOnePendingBooking` | services/rental_service.py:94-100 | a submitted booking is exactly one new row at the next booking id with fee days × rate and status pending; the booking counter advances by one; cars, users and the car counter are unchanged |
| `Rental.ViewOwnBookings` | services/rental_service.py:113-118 | for an existing user the listing holds exactly that user's bookings, each as stored |
| `Rental.ViewBookingsEmptyNameListsAll` | services/rental_service.py:113-117 | an empty or missing customer name lists every booking |
| `Rental.PendingBookingsFilter` | services/rental_service.py:126-128 | the pending listing holds exactly the bookings with status pending, each as stored |
| `Rental.ManageUnknownBooking` | services/rental_service.py:139-143 | an unknown booking id changes nothing |
| `Rental.ApproveFlipsAvailability` | services/rental_service.py:137-153 | approval sets the status to approved and that car's available flag to false; every other row, the users and both id counters stay as they were |
| `Rental.RejectChangesOnlyStatus` | services/rental_service.py:149-153 | rejection sets the status to rejected and changes nothing else |
| `Rental.DecisionsAreNotFinal` | services/rental_service.py:137-153 | a decided booking can be decided again, and rejecting an approved booking leaves its car unavailable |
| `Rental.TwoApprovalsOfOneCar` | services/rental_service.py:137-153 | two bookings of one existing car can both be approved: after the first approval the car is unavailable, yet the second approval still succeeds |
| `Rental.BillIff` | services/rental_service.py:171-183 | a bill exists iff the booking exists, its car row still exists, and its status is approved |
| `Rental.BillAmounts` | services/rental_service.py:185-188 | the tax is 10% of the stored fee and the grand total is fee + tax = fee × 1.1 |
| `Rental.BookApproveBill` | services/rental_service.py:79-188 | booking, approving and billing gives a total of days × the rate at booking time × 1.1 |
| `Rental.RateChangeAfterBooking` | services/rental_service.py:172-188 | the bill shows the car's current rate, but its amounts keep the fee fixed at booking time |
| `Rental.RegisterPreservesInv` | services/rental_service.py:13-28 | registration keeps the table invariant |
| `Rental.AddCarPreservesInv` | services/rental_service.py:45-51 | adding a car keeps the table invariant |
| `Rental.UpdateCarPreservesInv` | services/rental_service.py:54-59 | updating a car keeps the table invariant |
| `Rental.DeleteCarPreservesInv` | services/rental_service.py:62-65 | deleting a car keeps the table invariant |
| `Rental.BookPreservesInv` | services/rental_service.py:79-111 | booking keeps the table invariant |
| `Rental.ManageBookingPreservesInv` | services/rental_service.py:137-153 | approval and rejection keep the table invariant |
| `Rental.RentalService.RegisterUser` | services/rental_service.py:13-28 | updates the database and returns the result exactly as `Register` prescribes |
| `Rental.RentalService.LoginUser` | services/rental_service.py:30-43 | returns what `Login` prescribes and changes nothing |
| `Rental.RentalService.AddCarRow` | services/rental_service.py:45-51 | updates the database as `AddCar` prescribes |
| `Rental.RentalService.UpdateCarRow` | services/rental_service.py:54-59 | updates the database as `UpdateCar` prescribes |
| `Rental.RentalService.DeleteCarRow` | services/rental_service.py:62-65 | updates the database as `DeleteCar` prescribes |
| `Rental.RentalService.DisplayAvailableCars` | services/rental_service.py:68-77 | returns the available-cars filter and changes nothing |
| `Rental.RentalService.BookCar` | services/rental_service.py:79-111 | updates the database and returns the outcome as `Book` prescribes |
| `Rental.RentalService.ViewBookingRows` | services/rental_service.py:113-124 | returns the bookings listing and changes nothing |
| `Rental.RentalService.ViewPendingBookings` | services/rental_service.py:126-135 | returns the pending-bookings listing and changes nothing |
| `Rental.RentalService.ManageBookingRow` | services/rental_service.py:137-158 | updates the database as `ManageBooking` prescribes |
| `Rental.RentalService.GenerateBillFor` | services/rental_service.py:171-188 | returns the bill amounts of `GenerateBill` and changes nothing |
| `Schema.CreatedInv` | db_connection.py:16-51 | a newly created database satisfies the table invariant |
| `Schema.InsertCar` | services/rental_service.py:47-50 | the row is stored under the next car id, which is then advanced by one; the users, the bookings and the booking counter stay |
| `Schema.InsertCarKeepsOtherRows` | services/rental_service.py:47-50 | the insert leaves every other car row as it was |
| `Schema.InsertBooking` | services/rental_service.py:96-99 | the row is stored under the next booking id, which is then advanced by one; every other booking row, the users, the cars and the car counter stay |
| `DbConnection.SampleCars` | db_connection.py:57-73 | the ten sample cars are available and each has 1 <= min_days <= max_days |
| `DbConnection.InsertCars` | db_connection.py:70-73 | the rows go in, in order, under consecutive new ids; other tables and rows are untouched |
| `DbConnection.SeedCars` | db_connection.py:54-73 | seeding the cars never touches users or bookings |
| `DbConnection.AddDefaultUser` | db_connection.py:84-90 | afterwards the username exists; a present user makes it a no-op; no existing user row changes |
| `DbConnection.Initialize` | db_connection.py:11-94 | initialisation never touches bookings, keeps every existing user row, and leaves a non-empty cars table as it is |
| `DbConnection.SeedUsers` | db_connection.py:83-91 | the default-user loop adds exactly the missing listed usernames and replaces no existing user |
| `DbConnection.SeedUsersStep` | db_connection.py:83-91 | one more turn of the default-user loop applies the select-then-insert step to the next listed account |
| `DbConnection.InitializeDatabase` | db_connection.py:11-94 | updates the database file exactly as `Initialize` prescribes |
| `DbConnection.SeedCarsSkipsNonEmpty` | db_connection.py:54-55 | a non-empty cars table is left as it is |
| `DbConnection.InsertCarsIntoEmpty` | db_connection.py:70-73 | inserting into an empty cars table yields exactly the inserted rows under consecutive ids |
| `DbConnection.SeedCarsFillsEmpty` | db_connection.py:54-73 | an empty cars table receives exactly the ten sample cars |
| `DbConnection.SeedUsersOnlyIfAbsent` | db_connection.py:83-91 | a present default username keeps its row; an absent one gets the default row with its hashed password |
| `DbConnection.SeedUsersNoop` | db_connection.py:83-85 | when every default username is present the loop changes nothing |
| `DbConnection.InitializeEstablishes` | db_connection.py:54-91 | afterwards the cars table is non-empty and both default users exist |
| `DbConnection.InitializeIdempotent` | db_connection.py:54-91 | a second initialisation changes no table |
| `DbConnection.SeededCarsValid` | db_connection.py:57-73 | every car the seeding adds is available and has min_days <= max_days |
| `DbConnection.InsertCarsPreservesInv` | db_connection.py:70-73 | inserting the sample cars keeps the table invariant |
| `DbConnection.SeedUsersPreservesInv` | db_connection.py:83-91 | inserting default users with non-empty names keeps the table invariant |
| `DbConnection.InitializePreservesInv` | db_connection.py:11-94 | initialisation keeps the table invariant |
| `MainMenu.Digits` | main.py:62 | the filter keeps only digits, is no longer than its input, and is empty iff the input has no digit |
| `MainMenu.IsDigit` | main.py:62 | a character passing `str.isdigit` has a digit value in 0..9 |
| `MainMenu.ParseDecimal` | main.py:62 | `int()` of n digits is below 10^n, and a single digit reads as its value |
| `MainMenu.CleanInt` | main.py:60-62 | the result is never negative, and fails (ValueError) iff the input has no digit |
| `MainMenu.DigitsAppend` | main.py:62 | filtering distributes over concatenation, so the digits keep their original order |
| `MainMenu.DigitsSingle` | main.py:62 | a single character is kept iff it is a digit |
| `MainMenu.DigitsOfDigits` | main.py:62 | a string of digits passes the filter unchanged |
| `MainMenu.ParseShow` | main.py:62 | parsing a number's decimal numeral gives the number back |
| `MainMenu.CleanIntOfNumeral` | main.py:60-62 | typing a number's numeral reads that number |
| `MainMenu.CleanIntDropsMinus` | main.py:62 | a leading minus sign is filtered out, so typing -n reads n |
| `MainMenu.CleanIntJoinsDigitGroups` | main.py:62 | for any two pieces of input, a non-digit between them is dropped, so "1,050" reads as "1050" |
| `MainMenu.ParseDecimalAppend` | main.py:62 | `int()` of the digits of `a` followed by those of `b` is int(a) × 10^len(b) + int(b), leading zeros included |
| `MainMenu.ParseDecimalZeros` | main.py:62 | a run of zeros reads as 0 |
| `MainMenu.CleanIntLeadingZeros` | main.py:60-62 | leading zeros do not change the number read: "007" reads as 7 |
| `MainMenu.CleanIntReadsDigitGroups` | main.py:60-62 | two digit groups around a separator read as one number, the first shifted left by the length of the second: "1,050" reads as 1050 |
| `MainMenu.FirstAcceptedSpec` | main.py:33-41 | the password loop ends with the first attempt that is confirmed and at least six characters long, and runs out only when there is none |
| `MainMenu.PasswordAccepted` | main.py:36-41 | an accepted password is non-empty and equals its confirmation |
| `MainMenu.FirstAccepted` | main.py:33-41 | the password the loop settles on is accepted and was typed, with a matching confirmation, in one of the attempts |
| `MainMenu.FirstAcceptedLength` | main.py:38-41 | an accepted password has at least six characters |
| `MainMenu.PromptPassword` | main.py:33-41 | the loop returns the first accepted attempt |
| `MainMenu.NormalizeRole` | main.py:42-45 | the role is "admin" or "customer", and it is "admin" iff the lower-cased input is "admin" |
| `MainMenu.NormalizeRoleAdminAnyCase` | main.py:42-45 | any upper/lower-case spelling of "admin" selects the admin role |
| `MainMenu.NormalizeRoleCustomerAnyCase` | main.py:42-45 | any upper/lower-case spelling of "customer" selects the customer role |
| `MainMenu.Lower` | main.py:42 | lower-casing keeps the length, maps each ASCII upper-case letter to its lower-case partner (code + 32) and keeps every other character |
| `MainMenu.LowerIdempotent` | main.py:42 | lower-casing twice is lower-casing once |
| `MainMenu.NormalizeRoleIgnoresCase` | main.py:42-45 | for every input, the role equals the role of its lower-cased form, and any input whose lower-cased form is not "admin" becomes "customer" |
| `MainMenu.RegisterFromMenu` | main.py:30-51 | the dialogue registers the first accepted password with the normalised role and logs the user in iff registration succeeds |
| `MainMenu.MenuRegistrationLogsIn` | main.py:30-51 | a user created through the dialogue has role admin or customer, a password of at least six characters, and logs in with it |
| `MainMenu.CustomerBook` | main.py:137-140 | the booking is made in the logged-in username with the parsed id and days; a failed parse changes nothing |
| `MainMenu.CustomerViewBookings` | main.py:142-143 | the listing is the bookings filtered by the logged-in username |
| `MainMenu.CustomerBookingIsOwn` | main.py:137-143 | a booking made from the customer menu carries that customer's name and appears in their own listing |
| `Lifecycle.StepPreservesInv` | services/rental_service.py:13-153 | every committed operation keeps the table invariant |
| `Lifecycle.RunPreservesInv` | services/rental_service.py:13-153 | every sequence of committed operations keeps the table invariant |
| `Lifecycle.ReachableInv` | db_connection.py:16-51 | every database reachable from a new file satisfies the invariant: unique non-empty usernames, bookings that name an existing user and fit their car's day range, approved bookings' cars unavailable |
| `Lifecycle.ApprovedCarNotBookable` | services/rental_service.py:88-111 | in a reachable database the car of an approved booking cannot be booked again |

## Left out

- Email notifications in `book_car` and `manage_booking`, and the dry-run flag: SMTP I/O with no effect on the tables.
- Console output, the bill's text layout and its two-decimal rounding, and writing the bill to a file: formatting and file I/O.
- `clean_float_input`: float parsing.
- Menu loops, `input`/`getpass` and the admin menu's dispatch: console I/O. The admin entries call the service methods directly.
- SQLite connections, cursors, `get_connection`, `close` and `commit`: storage plumbing. Each operation is one atomic update.
- The `id` column of users: it is never read.
- The `total_fee` column default of 0: every booking insert supplies a fee, so the default is never used. The `available` default of 1 is likewise always supplied explicitly.
- bcrypt internals: salting details and the treatment of passwords longer than 72 bytes. bcrypt releases before 5.0 silently truncate such a password to 72 bytes. Releases 5.0 and later make `hashpw` raise `ValueError`, and since the call at services/rental_service.py:17 sits outside the `try`, registration would then end the program. The model hashes passwords of any length. `Hashing.CheckRejectsOthers` idealises the digest as collision-free.
- Floating-point arithmetic: money is an exact real and the tax rate is exactly 0.10.
- Python's Unicode `str.isdigit` and `str.lower`: only ASCII digits and letters are modelled.
- `None` passed for text fields: the console always passes strings, so the NOT NULL constraints cannot fail.
- Rental.RentalService.AddCarRow: SQLite stores integers as signed 64-bit values. A year, mileage, min_days or max_days above 2^63-1 makes the sqlite3 driver raise an `OverflowError` that nothing catches. Nothing is written and the program ends. The model has unbounded integers and stores the row.
- Rental.RentalService.UpdateCarRow: the same 64-bit `OverflowError` for a mileage or car id above 2^63-1 is not modelled. The model stores such a mileage and treats such an id as unknown.
- Rental.RentalService.BookCar, Rental.RentalService.DeleteCarRow, Rental.RentalService.ManageBookingRow, Rental.RentalService.GenerateBillFor: the same 64-bit `OverflowError` for a car or booking id above 2^63-1 is not modelled; the model treats such an id as unknown.
- MainMenu.CleanInt: since Python 3.11, `int()` raises `ValueError` on a numeral of more than 4300 digits. The model parses numerals of any length.
- `MainMenu.PromptPassword`: the console re-prompts forever. The model takes a finite list of attempts and reports running out.
- The race between the availability check and the insert: concurrency.
- `models/car.py` is not part of this model: it is not used by the modelled code.

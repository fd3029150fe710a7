/**
 * The booking state machine of `RentalService`: each operation is a guard
 * followed by at most one committed update of the tables.  The functions give
 * the effect of each operation on the tables; the class at the end performs
 * the same updates in place on a `Database` and is proved against them.
 */
module Rental {
  import opened Wrappers
  import Hashing
  import opened Schema

  /** The tax rate applied by `generate_bill`. */
  const TaxRate: real := 0.10

  /** Which branch `book_car` took; its console messages carry the same information. */
  datatype BookOutcome =
    | UserNotFound
    | CarUnavailable
    | DaysOutOfRange(minDays: int, maxDays: int)
    | Submitted(bookingId: int)

  /** The amounts and descriptions `generate_bill` lays out. */
  datatype Bill = Bill(customerName: string, carId: int, days: int,
                       make: string, model: string, year: int, rate: real,
                       subtotal: real, taxAmount: real, grandTotal: real)

  // ---------------------------------------------------------------------------
  // The operations on the tables
  // ---------------------------------------------------------------------------

  function Register(t: Tables, username: string, password: string, role: string, email: string,
                    salt: nat): (r: (Tables, bool))
    ensures r.0.cars == t.cars && r.0.bookings == t.bookings && t.users.Keys <= r.0.users.Keys
    ensures r.0.nextCarId == t.nextCarId && r.0.nextBookingId == t.nextBookingId
    ensures !r.1 ==> r.0 == t
  {
    if username == "" || password == "" || role == "" || email == "" then (t, false)
    else if username in t.users then (t, false)
    else (t.(users := t.users[username := User(Hashing.Hash(password, salt), role, email)]), true)
  }

  function Login(t: Tables, username: string, password: string): (r: Option<string>)
    ensures r.Some? ==> username in t.users && r.value == t.users[username].role
  {
    if username !in t.users then None
    else match Hashing.Check(password, t.users[username].password)
      case Some(true) => Some(t.users[username].role)
      case _ => None
  }

  function AddCar(t: Tables, make: string, model: string, year: int, mileage: int, rate: real,
                  minDays: int, maxDays: int): (r: Tables)
    ensures r.cars.Keys == t.cars.Keys + {t.nextCarId} && r.nextCarId == t.nextCarId + 1
    ensures r.cars[t.nextCarId].available
    ensures r.users == t.users && r.bookings == t.bookings && r.nextBookingId == t.nextBookingId
  {
    InsertCar(t, Car(make, model, year, mileage, rate, minDays, maxDays, true))
  }

  function UpdateCar(t: Tables, carId: int, mileage: int, rate: real): (r: Tables)
    ensures r.cars.Keys == t.cars.Keys && r.nextCarId == t.nextCarId
    ensures r.users == t.users && r.bookings == t.bookings && r.nextBookingId == t.nextBookingId
  {
    if carId in t.cars then t.(cars := t.cars[carId := t.cars[carId].(mileage := mileage, rate := rate)])
    else t
  }

  function DeleteCar(t: Tables, carId: int): (r: Tables)
    ensures carId !in r.cars && r.cars.Keys == t.cars.Keys - {carId}
    ensures r.users == t.users && r.bookings == t.bookings
    ensures r.nextCarId == t.nextCarId && r.nextBookingId == t.nextBookingId
  {
    t.(cars := t.cars - {carId})
  }

  function AvailableCars(t: Tables): (r: map<int, Car>)
    ensures forall id :: id in r ==> id in t.cars && r[id] == t.cars[id] && r[id].available
  {
    map id | id in t.cars && t.cars[id].available :: t.cars[id]
  }

  /** `total_cost = days * rate`, exact. */
  function Fee(days: int, rate: real): (r: real)
    ensures days == 0 ==> r == 0.0
    ensures 0 <= days && 0.0 <= rate ==> 0.0 <= r
  {
    days as real * rate
  }

  /** The fee grows linearly with the days booked: d1 + d2 days cost what d1 and d2 days cost together. */
  lemma FeeLinearInDays(d1: int, d2: int, rate: real)
    ensures Fee(d1 + d2, rate) == Fee(d1, rate) + Fee(d2, rate)
  {
  }

  function Book(t: Tables, customerName: string, carId: int, days: int): (r: (Tables, BookOutcome))
    ensures r.0.cars == t.cars && r.0.users == t.users && r.0.nextCarId == t.nextCarId
    ensures !r.1.Submitted? ==> r.0 == t
    ensures r.1.Submitted? ==> r.1.bookingId in r.0.bookings && r.0.bookings[r.1.bookingId].status == Pending
  {
    if customerName !in t.users then (t, UserNotFound)
    else if carId !in t.cars || !t.cars[carId].available then (t, CarUnavailable)
    else
      var car := t.cars[carId];
      if days < car.minDays || days > car.maxDays then (t, DaysOutOfRange(car.minDays, car.maxDays))
      else
        (InsertBooking(t, Booking(carId, customerName, days, Fee(days, car.rate), DefaultStatus)),
         Submitted(t.nextBookingId))
  }

  /** `view_bookings`: a missing or empty customer name lists every booking. */
  function ViewBookings(t: Tables, customerName: Option<string>): (r: map<int, Booking>)
    ensures forall id :: id in r ==> id in t.bookings && r[id] == t.bookings[id]
  {
    if customerName.Some? && customerName.value != "" then
      map id | id in t.bookings && t.bookings[id].customerName == customerName.value :: t.bookings[id]
    else t.bookings
  }

  function PendingBookings(t: Tables): (r: map<int, Booking>)
    ensures forall id :: id in r ==> id in t.bookings && r[id] == t.bookings[id] && r[id].status == Pending
  {
    map id | id in t.bookings && t.bookings[id].status == Pending :: t.bookings[id]
  }

  /** `manage_booking`; the boolean says whether the booking was found. */
  function ManageBooking(t: Tables, bookingId: int, approve: bool): (r: (Tables, bool))
    ensures r.1 <==> bookingId in t.bookings
    ensures r.0.users == t.users && r.0.bookings.Keys == t.bookings.Keys && r.0.cars.Keys == t.cars.Keys
    ensures r.0.nextCarId == t.nextCarId && r.0.nextBookingId == t.nextBookingId
    ensures r.1 ==> r.0.bookings[bookingId].status == if approve then Approved else Rejected
  {
    if bookingId !in t.bookings then (t, false)
    else
      var b := t.bookings[bookingId];
      var cars := if approve && b.carId in t.cars
                  then t.cars[b.carId := t.cars[b.carId].(available := false)]
                  else t.cars;
      var status := if approve then Approved else Rejected;
      (t.(cars := cars, bookings := t.bookings[bookingId := b.(status := status)]), true)
  }

  /** `generate_bill`: the booking joined with its car, for approved bookings only. */
  function GenerateBill(t: Tables, bookingId: int): (r: Option<Bill>)
    ensures r.Some? ==> bookingId in t.bookings && t.bookings[bookingId].status == Approved
    ensures r.Some? ==> r.value.subtotal == t.bookings[bookingId].totalFee
                        && r.value.grandTotal == r.value.subtotal + r.value.taxAmount
  {
    if bookingId !in t.bookings || t.bookings[bookingId].carId !in t.cars then None
    else
      var b := t.bookings[bookingId];
      if b.status != Approved then None
      else
        var c := t.cars[b.carId];
        var tax := b.totalFee * TaxRate;
        Some(Bill(b.customerName, b.carId, b.days, c.make, c.model, c.year, c.rate,
                  b.totalFee, tax, b.totalFee + tax))
  }

  // ---------------------------------------------------------------------------
  // Registration and login
  // ---------------------------------------------------------------------------

  lemma RegisterRejectsEmptyField(t: Tables, username: string, password: string, role: string,
                                  email: string, salt: nat)
    requires username == "" || password == "" || role == "" || email == ""
    ensures Register(t, username, password, role, email, salt) == (t, false)
  {
  }

  lemma RegisterDuplicateFails(t: Tables, username: string, password: string, role: string,
                               email: string, salt: nat)
    requires username in t.users
    ensures Register(t, username, password, role, email, salt) == (t, false)
  {
  }

  /** Registration succeeds exactly for complete fields and a new username, and adds that one user. */
  lemma RegisterSucceeds(t: Tables, username: string, password: string, role: string,
                         email: string, salt: nat)
    ensures var (t', ok) := Register(t, username, password, role, email, salt);
      && (ok <==> username != "" && password != "" && role != "" && email != "" && username !in t.users)
      && (ok ==> t'.users.Keys == t.users.Keys + {username}
                 && t'.users[username] == User(Hashing.Hash(password, salt), role, email)
                 && (forall u :: u in t.users ==> t'.users[u] == t.users[u])
                 && t'.cars == t.cars && t'.bookings == t.bookings
                 && t'.nextCarId == t.nextCarId && t'.nextBookingId == t.nextBookingId)
      && (!ok ==> t' == t)
  {
  }

  /** Login returns the stored role iff the user exists and the password checks; otherwise None. */
  lemma LoginIff(t: Tables, username: string, password: string, role: string)
    ensures Login(t, username, password) == Some(role) <==>
            && username in t.users
            && Hashing.Check(password, t.users[username].password) == Some(true)
            && role == t.users[username].role
  {
  }

  /** After a successful registration the new user logs in with that password and no other. */
  lemma RegisterThenLogin(t: Tables, username: string, password: string, role: string,
                          email: string, salt: nat, attempt: string)
    requires Register(t, username, password, role, email, salt).1
    ensures Login(Register(t, username, password, role, email, salt).0, username, attempt)
            == if attempt == password then Some(role) else None
  {
    if attempt != password {
      Hashing.CheckRejectsOthers(password, attempt, salt);
    }
  }

  // ---------------------------------------------------------------------------
  // The fleet
  // ---------------------------------------------------------------------------

  /** A new car gets the next id, is available, and no existing row changes. */
  lemma AddCarFresh(t: Tables, make: string, model: string, year: int, mileage: int, rate: real,
                    minDays: int, maxDays: int)
    requires Inv(t)
    ensures var t' := AddCar(t, make, model, year, mileage, rate, minDays, maxDays);
      && t.nextCarId !in t.cars
      && t'.cars == t.cars[t.nextCarId := Car(make, model, year, mileage, rate, minDays, maxDays, true)]
      && t'.cars[t.nextCarId].available
      && t'.nextCarId == t.nextCarId + 1 && t.nextCarId < t'.nextCarId
      && t'.users == t.users && t'.bookings == t.bookings && t'.nextBookingId == t.nextBookingId
  {
  }

  /** update_car changes only mileage and rate of the given car; an unknown id changes nothing. */
  lemma UpdateCarOnlyMileageAndRate(t: Tables, carId: int, mileage: int, rate: real)
    ensures var t' := UpdateCar(t, carId, mileage, rate);
      && t'.cars.Keys == t.cars.Keys
      && (forall id :: id in t.cars && id != carId ==> t'.cars[id] == t.cars[id])
      && (carId in t.cars ==> t'.cars[carId] == t.cars[carId].(mileage := mileage, rate := rate))
      && (carId !in t.cars ==> t' == t)
      && t'.users == t.users && t'.bookings == t.bookings
      && t'.nextCarId == t.nextCarId && t'.nextBookingId == t.nextBookingId
  {
  }

  /** delete_car removes the row only; bookings that refer to it stay (foreign keys are not enforced). */
  lemma DeleteCarKeepsBookings(t: Tables, carId: int)
    ensures var t' := DeleteCar(t, carId);
      && t'.cars.Keys == t.cars.Keys - {carId}
      && (forall id :: id in t'.cars ==> t'.cars[id] == t.cars[id])
      && t'.nextCarId == t.nextCarId && t'.nextBookingId == t.nextBookingId
      && t'.bookings == t.bookings && t'.users == t.users
      && (carId !in t.cars ==> t' == t)
  {
  }

  lemma AvailableCarsFilter(t: Tables, id: int)
    ensures id in AvailableCars(t) <==> id in t.cars && t.cars[id].available
    ensures id in AvailableCars(t) ==> AvailableCars(t)[id] == t.cars[id]
  {
  }

  // ---------------------------------------------------------------------------
  // Booking
  // ---------------------------------------------------------------------------

  /** A booking is written iff the user has a row, the car is present and available, and days fit its range. */
  lemma BookIff(t: Tables, customerName: string, carId: int, days: int)
    ensures var (t', outcome) := Book(t, customerName, carId, days);
      && (outcome.Submitted? <==>
            && customerName in t.users
            && carId in t.cars && t.cars[carId].available
            && t.cars[carId].minDays <= days <= t.cars[carId].maxDays)
      && (!outcome.Submitted? ==> t' == t)
  {
  }

  /**
   * A submitted booking is exactly one new pending row with fee days × rate;
   * cars and users are untouched.
   */
  lemma BookAddsOnePendingBooking(t: Tables, customerName: string, carId: int, days: int)
    requires Inv(t)
    requires Book(t, customerName, carId, days).1.Submitted?
    ensures var (t', outcome) := Book(t, customerName, carId, days);
      && outcome.bookingId == t.nextBookingId
      && outcome.bookingId !in t.bookings
      && t'.bookings == t.bookings[outcome.bookingId :=
           Booking(carId, customerName, days, Fee(days, t.cars[carId].rate), Pending)]
      && |t'.bookings| == |t.bookings| + 1
      && t'.nextBookingId == t.nextBookingId + 1 && t'.nextCarId == t.nextCarId
      && t'.cars == t.cars && t'.users == t.users
  {
    var b := Booking(carId, customerName, days, Fee(days, t.cars[carId].rate), Pending);
    assert Book(t, customerName, carId, days).0 == InsertBooking(t, b);
  }

  /** A logged-in customer (a non-empty name) sees only their own bookings, and all of them. */
  lemma ViewOwnBookings(t: Tables, username: string)
    requires Inv(t) && username in t.users
    ensures forall id :: id in ViewBookings(t, Some(username)) <==>
              id in t.bookings && t.bookings[id].customerName == username
    ensures forall id :: id in ViewBookings(t, Some(username)) ==>
              ViewBookings(t, Some(username))[id] == t.bookings[id]
  {
  }

  /** An empty customer name is falsy in `view_bookings`, so every booking is listed. */
  lemma ViewBookingsEmptyNameListsAll(t: Tables)
    ensures ViewBookings(t, Some("")) == t.bookings == ViewBookings(t, None)
  {
  }

  lemma PendingBookingsFilter(t: Tables, id: int)
    ensures id in PendingBookings(t) <==> id in t.bookings && t.bookings[id].status == Pending
    ensures id in PendingBookings(t) ==> PendingBookings(t)[id] == t.bookings[id]
  {
  }

  // ---------------------------------------------------------------------------
  // Approval and billing
  // ---------------------------------------------------------------------------

  lemma ManageUnknownBooking(t: Tables, bookingId: int, approve: bool)
    requires bookingId !in t.bookings
    ensures ManageBooking(t, bookingId, approve) == (t, false)
  {
  }

  /** Approval marks the booking approved and its car (if still present) unavailable; nothing else changes. */
  lemma ApproveFlipsAvailability(t: Tables, bookingId: int)
    requires bookingId in t.bookings
    ensures var (t', found) := ManageBooking(t, bookingId, true);
      var carId := t.bookings[bookingId].carId;
      && found
      && t'.bookings == t.bookings[bookingId := t.bookings[bookingId].(status := Approved)]
      && t'.cars.Keys == t.cars.Keys
      && (carId in t.cars ==> t'.cars[carId] == t.cars[carId].(available := false))
      && (forall id :: id in t.cars && id != carId ==> t'.cars[id] == t.cars[id])
      && t'.users == t.users
      && t'.nextCarId == t.nextCarId && t'.nextBookingId == t.nextBookingId
  {
  }

  /** Rejection changes only the booking's status. */
  lemma RejectChangesOnlyStatus(t: Tables, bookingId: int)
    requires bookingId in t.bookings
    ensures ManageBooking(t, bookingId, false)
         == (t.(bookings := t.bookings[bookingId := t.bookings[bookingId].(status := Rejected)]), true)
  {
  }

  /**
   * The status is not checked first: a booking already decided can be decided
   * again, and a rejection after an approval leaves its car unavailable.
   */
  lemma DecisionsAreNotFinal(t: Tables, bookingId: int)
    requires bookingId in t.bookings && t.bookings[bookingId].carId in t.cars
    ensures var approved := ManageBooking(t, bookingId, true).0;
      var rejected := ManageBooking(approved, bookingId, false).0;
      var carId := t.bookings[bookingId].carId;
      && rejected.bookings[bookingId].status == Rejected
      && !rejected.cars[carId].available
      && ManageBooking(ManageBooking(t, bookingId, false).0, bookingId, true).0.bookings[bookingId].status
         == Approved
  {
  }

  /**
   * Approval does not consult the car's availability: of two bookings of one
   * car, the second is approved although the first approval already made the
   * car unavailable.
   */
  lemma TwoApprovalsOfOneCar(t: Tables, first: int, second: int)
    requires first in t.bookings && second in t.bookings && first != second
    requires t.bookings[first].carId == t.bookings[second].carId && t.bookings[first].carId in t.cars
    ensures var carId := t.bookings[first].carId;
      var once := ManageBooking(t, first, true).0;
      var twice := ManageBooking(once, second, true).0;
      && !once.cars[carId].available
      && twice.bookings[first].status == Approved
      && twice.bookings[second].status == Approved
      && twice.bookings[second].carId == carId
  {
  }

  /** A bill exists iff the booking exists, its car row still exists, and it is approved. */
  lemma BillIff(t: Tables, bookingId: int)
    ensures GenerateBill(t, bookingId).Some? <==>
            && bookingId in t.bookings
            && t.bookings[bookingId].carId in t.cars
            && t.bookings[bookingId].status == Approved
  {
  }

  /** The bill's tax is 10% of the stored fee and the total is the fee plus the tax. */
  lemma BillAmounts(t: Tables, bookingId: int)
    requires GenerateBill(t, bookingId).Some?
    ensures var bill := GenerateBill(t, bookingId).value;
      && bill.subtotal == t.bookings[bookingId].totalFee
      && bill.taxAmount == bill.subtotal / 10.0
      && bill.grandTotal == bill.subtotal * 1.1
  {
  }

  /** Book, approve, bill: the total due is days × the rate at booking time × 1.10. */
  lemma BookApproveBill(t: Tables, customerName: string, carId: int, days: int)
    requires Inv(t)
    requires Book(t, customerName, carId, days).1.Submitted?
    ensures var (booked, outcome) := Book(t, customerName, carId, days);
      var approved := ManageBooking(booked, outcome.bookingId, true).0;
      var bill := GenerateBill(approved, outcome.bookingId);
      && bill.Some?
      && bill.value.customerName == customerName
      && bill.value.days == days
      && bill.value.grandTotal == days as real * t.cars[carId].rate * 1.1
  {
    var (booked, outcome) := Book(t, customerName, carId, days);
    BookAddsOnePendingBooking(t, customerName, carId, days);
    ApproveFlipsAvailability(booked, outcome.bookingId);
  }

  /** The bill shows the car's current rate, but its amounts keep the fee fixed when the booking was made. */
  lemma RateChangeAfterBooking(t: Tables, bookingId: int, mileage: int, rate: real)
    requires GenerateBill(t, bookingId).Some?
    ensures var carId := t.bookings[bookingId].carId;
      var before := GenerateBill(t, bookingId).value;
      var after := GenerateBill(UpdateCar(t, carId, mileage, rate), bookingId);
      && after.Some?
      && after.value.rate == rate
      && after.value.subtotal == before.subtotal
      && after.value.grandTotal == before.grandTotal
  {
  }

  // ---------------------------------------------------------------------------
  // The invariant is kept by every operation that writes
  // ---------------------------------------------------------------------------

  lemma RegisterPreservesInv(t: Tables, username: string, password: string, role: string,
                             email: string, salt: nat)
    requires Inv(t)
    ensures Inv(Register(t, username, password, role, email, salt).0)
  {
    var t' := Register(t, username, password, role, email, salt).0;
    forall id | id in t'.bookings
      ensures BookingConsistent(t', t'.bookings[id])
    {
      assert BookingConsistent(t, t.bookings[id]);
    }
  }

  lemma AddCarPreservesInv(t: Tables, make: string, model: string, year: int, mileage: int,
                           rate: real, minDays: int, maxDays: int)
    requires Inv(t)
    ensures Inv(AddCar(t, make, model, year, mileage, rate, minDays, maxDays))
  {
    var t' := AddCar(t, make, model, year, mileage, rate, minDays, maxDays);
    forall id | id in t'.bookings
      ensures BookingConsistent(t', t'.bookings[id])
    {
      assert BookingConsistent(t, t.bookings[id]);
    }
  }

  lemma UpdateCarPreservesInv(t: Tables, carId: int, mileage: int, rate: real)
    requires Inv(t)
    ensures Inv(UpdateCar(t, carId, mileage, rate))
  {
    var t' := UpdateCar(t, carId, mileage, rate);
    forall id | id in t'.bookings
      ensures BookingConsistent(t', t'.bookings[id])
    {
      assert BookingConsistent(t, t.bookings[id]);
    }
  }

  lemma DeleteCarPreservesInv(t: Tables, carId: int)
    requires Inv(t)
    ensures Inv(DeleteCar(t, carId))
  {
    var t' := DeleteCar(t, carId);
    forall id | id in t'.bookings
      ensures BookingConsistent(t', t'.bookings[id])
    {
      assert BookingConsistent(t, t.bookings[id]);
    }
  }

  lemma BookPreservesInv(t: Tables, customerName: string, carId: int, days: int)
    requires Inv(t)
    ensures Inv(Book(t, customerName, carId, days).0)
  {
    var (t', outcome) := Book(t, customerName, carId, days);
    if outcome.Submitted? {
      forall id | id in t'.bookings
        ensures BookingConsistent(t', t'.bookings[id])
      {
        if id != t.nextBookingId {
          assert BookingConsistent(t, t.bookings[id]);
        }
      }
    }
  }

  lemma ManageBookingPreservesInv(t: Tables, bookingId: int, approve: bool)
    requires Inv(t)
    ensures Inv(ManageBooking(t, bookingId, approve).0)
  {
    var t' := ManageBooking(t, bookingId, approve).0;
    if bookingId in t.bookings {
      forall id | id in t'.bookings
        ensures BookingConsistent(t', t'.bookings[id])
      {
        assert BookingConsistent(t, t.bookings[id]);
      }
    }
  }

  // ---------------------------------------------------------------------------
  // The service object
  // ---------------------------------------------------------------------------

  /** `RentalService`: every method runs its queries and commits on the shared database. */
  class RentalService {
    const db: Database

    constructor (db: Database)
      ensures this.db == db
    {
      this.db := db;
    }

    method RegisterUser(username: string, password: string, role: string, email: string, salt: nat)
      returns (ok: bool)
      modifies db
      ensures (db.Contents(), ok) == Register(old(db.Contents()), username, password, role, email, salt)
    {
      if username == "" || password == "" || role == "" || email == "" {
        return false;
      }
      var hashed := Hashing.Hash(password, salt);
      if username in db.users {
        // the insert violates UNIQUE(username); the exception is reported as a failure
        return false;
      }
      db.users := db.users[username := User(hashed, role, email)];
      ok := true;
    }

    method LoginUser(username: string, password: string) returns (role: Option<string>)
      ensures role == Login(db.Contents(), username, password)
    {
      if username !in db.users {
        return None;
      }
      var row := db.users[username];
      var matches := Hashing.Check(password, row.password);
      if matches == Some(true) {
        return Some(row.role);
      }
      role := None;
    }

    method AddCarRow(make: string, model: string, year: int, mileage: int, rate: real,
                     minDays: int, maxDays: int)
      modifies db
      ensures db.Contents() == AddCar(old(db.Contents()), make, model, year, mileage, rate, minDays, maxDays)
    {
      db.cars := db.cars[db.nextCarId := Car(make, model, year, mileage, rate, minDays, maxDays, true)];
      db.nextCarId := db.nextCarId + 1;
    }

    method UpdateCarRow(carId: int, mileage: int, rate: real)
      modifies db
      ensures db.Contents() == UpdateCar(old(db.Contents()), carId, mileage, rate)
    {
      if carId in db.cars {
        db.cars := db.cars[carId := db.cars[carId].(mileage := mileage, rate := rate)];
      }
    }

    method DeleteCarRow(carId: int)
      modifies db
      ensures db.Contents() == DeleteCar(old(db.Contents()), carId)
    {
      db.cars := db.cars - {carId};
    }

    method DisplayAvailableCars() returns (available: map<int, Car>)
      ensures available == AvailableCars(db.Contents())
    {
      available := map id | id in db.cars && db.cars[id].available :: db.cars[id];
    }

    method BookCar(customerName: string, carId: int, days: int) returns (outcome: BookOutcome)
      modifies db
      ensures (db.Contents(), outcome) == Book(old(db.Contents()), customerName, carId, days)
    {
      if customerName !in db.users {
        return UserNotFound;
      }
      if carId !in db.cars || !db.cars[carId].available {
        return CarUnavailable;
      }
      var car := db.cars[carId];
      if days < car.minDays || days > car.maxDays {
        return DaysOutOfRange(car.minDays, car.maxDays);
      }
      var totalCost := Fee(days, car.rate);
      outcome := Submitted(db.nextBookingId);
      db.bookings := db.bookings[db.nextBookingId := Booking(carId, customerName, days, totalCost, DefaultStatus)];
      db.nextBookingId := db.nextBookingId + 1;
    }

    method ViewBookingRows(customerName: Option<string>) returns (rows: map<int, Booking>)
      ensures rows == ViewBookings(db.Contents(), customerName)
    {
      if customerName.Some? && customerName.value != "" {
        rows := map id | id in db.bookings && db.bookings[id].customerName == customerName.value :: db.bookings[id];
      } else {
        rows := db.bookings;
      }
    }

    method ViewPendingBookings() returns (rows: map<int, Booking>)
      ensures rows == PendingBookings(db.Contents())
    {
      rows := map id | id in db.bookings && db.bookings[id].status == Pending :: db.bookings[id];
    }

    method ManageBookingRow(bookingId: int, approve: bool) returns (found: bool)
      modifies db
      ensures (db.Contents(), found) == ManageBooking(old(db.Contents()), bookingId, approve)
    {
      var status := if approve then Approved else Rejected;
      if bookingId !in db.bookings {
        return false;
      }
      var carId := db.bookings[bookingId].carId;
      if approve && carId in db.cars {
        db.cars := db.cars[carId := db.cars[carId].(available := false)];
      }
      db.bookings := db.bookings[bookingId := db.bookings[bookingId].(status := status)];
      found := true;
    }

    method GenerateBillFor(bookingId: int) returns (bill: Option<Bill>)
      ensures bill == GenerateBill(db.Contents(), bookingId)
    {
      if bookingId !in db.bookings || db.bookings[bookingId].carId !in db.cars {
        return None;
      }
      var b := db.bookings[bookingId];
      if b.status != Approved {
        return None;
      }
      var c := db.cars[b.carId];
      var taxAmount := b.totalFee * TaxRate;
      var grandTotal := b.totalFee + taxAmount;
      bill := Some(Bill(b.customerName, b.carId, b.days, c.make, c.model, c.year, c.rate,
                        b.totalFee, taxAmount, grandTotal));
    }
  }
}

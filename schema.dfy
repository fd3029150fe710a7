/**
 * The three tables created by `initialize_database`, as values and as the
 * mutable store that the service and the initialisation code share.
 *
 * Column constraints become types: a user row is keyed by its UNIQUE
 * username, car and booking rows by their AUTOINCREMENT id.  The next ids are
 * kept explicitly: SQLite never reuses an AUTOINCREMENT id, so a new row gets
 * one more than the largest id ever handed out, starting at 1.
 */
module Schema {
  import Hashing

  datatype Status = Pending | Approved | Rejected

  datatype User = User(password: Hashing.Digest, role: string, email: string)

  datatype Car = Car(make: string, model: string, year: int, mileage: int,
                     rate: real, minDays: int, maxDays: int, available: bool)

  datatype Booking = Booking(carId: int, customerName: string, days: int,
                             totalFee: real, status: Status)

  datatype Tables = Tables(users: map<string, User>,
                           cars: map<int, Car>,
                           bookings: map<int, Booking>,
                           nextCarId: int,
                           nextBookingId: int)

  /** The tables as `CREATE TABLE IF NOT EXISTS` leaves a new database file. */
  const Created: Tables := Tables(map[], map[], map[], 1, 1)

  /** Column default of `bookings.status`. */
  const DefaultStatus: Status := Pending

  /** INSERT INTO cars: the row gets the next AUTOINCREMENT id. */
  function InsertCar(t: Tables, car: Car): (r: Tables)
    ensures r.cars.Keys == t.cars.Keys + {t.nextCarId} && r.cars[t.nextCarId] == car
    ensures r.nextCarId == t.nextCarId + 1
    ensures r.users == t.users && r.bookings == t.bookings && r.nextBookingId == t.nextBookingId
  {
    t.(cars := t.cars[t.nextCarId := car], nextCarId := t.nextCarId + 1)
  }

  /** The insert leaves every other car row as it was. */
  lemma InsertCarKeepsOtherRows(t: Tables, car: Car)
    ensures forall id :: id in t.cars && id != t.nextCarId ==> InsertCar(t, car).cars[id] == t.cars[id]
  {
  }

  /** INSERT INTO bookings: the row gets the next AUTOINCREMENT id. */
  function InsertBooking(t: Tables, booking: Booking): (r: Tables)
    ensures r.bookings.Keys == t.bookings.Keys + {t.nextBookingId} && r.bookings[t.nextBookingId] == booking
    ensures forall id :: id in t.bookings && id != t.nextBookingId ==> r.bookings[id] == t.bookings[id]
    ensures r.nextBookingId == t.nextBookingId + 1
    ensures r.users == t.users && r.cars == t.cars && r.nextCarId == t.nextCarId
  {
    t.(bookings := t.bookings[t.nextBookingId := booking], nextBookingId := t.nextBookingId + 1)
  }

  /** What every booking keeps true about the rows it refers to. */
  predicate BookingConsistent(t: Tables, b: Booking)
  {
    && b.customerName in t.users
    && b.carId < t.nextCarId
    && (b.carId in t.cars ==> t.cars[b.carId].minDays <= b.days <= t.cars[b.carId].maxDays)
    && (b.carId in t.cars && b.status == Approved ==> !t.cars[b.carId].available)
  }

  /**
   * The invariant of every database the program produces: ids lie below the
   * AUTOINCREMENT counters, no username is empty, each booking names an
   * existing user and a car id that was handed out, its days fit the car's
   * range, and an approved booking's car (if still present) is unavailable.
   */
  predicate Inv(t: Tables)
  {
    && 1 <= t.nextCarId
    && 1 <= t.nextBookingId
    && (forall id :: id in t.cars ==> 1 <= id < t.nextCarId)
    && (forall id :: id in t.bookings ==> 1 <= id < t.nextBookingId)
    && (forall name :: name in t.users ==> name != "")
    && (forall id :: id in t.bookings ==> BookingConsistent(t, t.bookings[id]))
  }

  lemma CreatedInv()
    ensures Inv(Created)
  {
  }

  /** The database file: the same three tables, updated in place by every commit. */
  class Database {
    var users: map<string, User>
    var cars: map<int, Car>
    var bookings: map<int, Booking>
    var nextCarId: int
    var nextBookingId: int

    function Contents(): Tables
      reads this
    {
      Tables(users, cars, bookings, nextCarId, nextBookingId)
    }

    /** Opens a database file holding `existing`. */
    constructor (existing: Tables)
      ensures Contents() == existing
    {
      users := existing.users;
      cars := existing.cars;
      bookings := existing.bookings;
      nextCarId := existing.nextCarId;
      nextBookingId := existing.nextBookingId;
    }
  }
}

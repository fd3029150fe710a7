/**
 * Every database the program can produce: a new file, then any sequence of
 * initialisations (one per program start) and committed service operations.
 * The invariant of the tables holds in all of them.
 */
module Lifecycle {
  import opened Schema
  import Rental
  import DbConnection

  /** The operations that commit a change to the tables. */
  datatype Command =
    | InitializeCmd(adminSalt: nat, customerSalt: nat)
    | RegisterCmd(username: string, password: string, role: string, email: string, salt: nat)
    | AddCarCmd(make: string, model: string, year: int, mileage: int, rate: real, minDays: int, maxDays: int)
    | UpdateCarCmd(carId: int, mileage: int, rate: real)
    | DeleteCarCmd(carId: int)
    | BookCmd(customerName: string, carId: int, days: int)
    | ManageCmd(bookingId: int, approve: bool)

  function Step(t: Tables, c: Command): Tables
  {
    match c
    case InitializeCmd(a, b) => DbConnection.Initialize(t, [a, b])
    case RegisterCmd(u, p, r, e, s) => Rental.Register(t, u, p, r, e, s).0
    case AddCarCmd(mk, md, y, mi, ra, lo, hi) => Rental.AddCar(t, mk, md, y, mi, ra, lo, hi)
    case UpdateCarCmd(id, mi, ra) => Rental.UpdateCar(t, id, mi, ra)
    case DeleteCarCmd(id) => Rental.DeleteCar(t, id)
    case BookCmd(n, id, d) => Rental.Book(t, n, id, d).0
    case ManageCmd(id, approve) => Rental.ManageBooking(t, id, approve).0
  }

  function Run(t: Tables, cmds: seq<Command>): Tables
    decreases |cmds|
  {
    if cmds == [] then t else Run(Step(t, cmds[0]), cmds[1..])
  }

  lemma StepPreservesInv(t: Tables, c: Command)
    requires Inv(t)
    ensures Inv(Step(t, c))
  {
    match c
    case InitializeCmd(a, b) => DbConnection.InitializePreservesInv(t, [a, b]);
    case RegisterCmd(u, p, r, e, s) => Rental.RegisterPreservesInv(t, u, p, r, e, s);
    case AddCarCmd(mk, md, y, mi, ra, lo, hi) => Rental.AddCarPreservesInv(t, mk, md, y, mi, ra, lo, hi);
    case UpdateCarCmd(id, mi, ra) => Rental.UpdateCarPreservesInv(t, id, mi, ra);
    case DeleteCarCmd(id) => Rental.DeleteCarPreservesInv(t, id);
    case BookCmd(n, id, d) => Rental.BookPreservesInv(t, n, id, d);
    case ManageCmd(id, approve) => Rental.ManageBookingPreservesInv(t, id, approve);
  }

  lemma {:induction false} RunPreservesInv(t: Tables, cmds: seq<Command>)
    requires Inv(t)
    ensures Inv(Run(t, cmds))
    decreases |cmds|
  {
    if cmds != [] {
      StepPreservesInv(t, cmds[0]);
      RunPreservesInv(Step(t, cmds[0]), cmds[1..]);
    }
  }

  /**
   * In every reachable database: usernames are unique and non-empty, every
   * booking names an existing user and fits its car's day range, and every
   * approved booking's car, while it exists, is unavailable.
   */
  lemma ReachableInv(cmds: seq<Command>)
    ensures Inv(Run(Created, cmds))
  {
    CreatedInv();
    RunPreservesInv(Created, cmds);
  }

  /** In a reachable database an approved booking's car, if present, can no longer be booked. */
  lemma ApprovedCarNotBookable(cmds: seq<Command>, bookingId: int, customerName: string, days: int)
    requires var t := Run(Created, cmds);
      bookingId in t.bookings && t.bookings[bookingId].status == Approved
    ensures var t := Run(Created, cmds);
      Rental.Book(t, customerName, t.bookings[bookingId].carId, days) ==
        (t, if customerName in t.users then Rental.CarUnavailable else Rental.UserNotFound)
  {
    var t := Run(Created, cmds);
    ReachableInv(cmds);
    assert BookingConsistent(t, t.bookings[bookingId]);
  }
}

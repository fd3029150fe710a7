/**
 * `initialize_database`: the tables exist after it (the schema module's
 * types), sample cars are inserted when the cars table is empty, and each
 * default user is inserted when its username is absent.
 */
module DbConnection {
  import Hashing
  import opened Schema

  /** A default account: username, raw password, role, email. */
  datatype DefaultUser = DefaultUser(username: string, password: string, role: string, email: string)

  const DefaultUsers: seq<DefaultUser> := [
    DefaultUser("admin", "admin123", "admin", "admin@example.com"),
    DefaultUser("customer", "cust123", "customer", "customer@example.com")
  ]

  /** The sample fleet; the insert statement sets `available` to 1 for each. */
  function SampleCars(): (cars: seq<Car>)
    ensures |cars| == 10
    ensures forall i :: 0 <= i < |cars| ==> cars[i].available && 1 <= cars[i].minDays <= cars[i].maxDays
  {
    [ Car("Toyota", "Camry", 2020, 35000, 45.99, 1, 15, true),
      Car("Honda", "Civic", 2019, 42000, 40.00, 2, 14, true),
      Car("Ford", "Focus", 2018, 50000, 38.50, 1, 10, true),
      Car("Chevrolet", "Malibu", 2021, 22000, 48.99, 3, 12, true),
      Car("Nissan", "Altima", 2020, 31000, 44.50, 2, 14, true),
      Car("Hyundai", "Elantra", 2019, 46000, 39.99, 1, 10, true),
      Car("Kia", "Forte", 2021, 18000, 42.00, 1, 12, true),
      Car("Mazda", "Mazda3", 2022, 12000, 50.00, 1, 15, true),
      Car("Volkswagen", "Jetta", 2017, 55000, 35.99, 2, 10, true),
      Car("Subaru", "Impreza", 2021, 27000, 47.25, 1, 13, true) ]
  }

  /** `executemany`: the rows in order, with consecutive new ids. */
  function InsertCars(t: Tables, cars: seq<Car>): (r: Tables)
    ensures r.users == t.users && r.bookings == t.bookings && r.nextBookingId == t.nextBookingId
    ensures r.nextCarId == t.nextCarId + |cars|
    ensures forall id :: id in r.cars <==> id in t.cars || t.nextCarId <= id < t.nextCarId + |cars|
    ensures forall id :: id in t.cars && !(t.nextCarId <= id < t.nextCarId + |cars|) ==> r.cars[id] == t.cars[id]
    ensures forall id :: t.nextCarId <= id < t.nextCarId + |cars| ==> r.cars[id] == cars[id - t.nextCarId]
    decreases |cars|
  {
    if cars == [] then t
    else InsertCars(InsertCar(t, cars[0]), cars[1..])
  }

  /** Sample cars go in only when `SELECT COUNT(*) FROM cars` is 0. */
  function SeedCars(t: Tables): (r: Tables)
    ensures r.users == t.users && r.bookings == t.bookings && r.nextBookingId == t.nextBookingId
  {
    if t.cars == map[] then InsertCars(t, SampleCars()) else t
  }

  /** One turn of the default-user loop, with the salt `gensalt` drew. */
  function AddDefaultUser(t: Tables, u: DefaultUser, salt: nat): (r: Tables)
    ensures u.username in r.users
    ensures u.username in t.users ==> r == t
    ensures forall name :: name in t.users ==> name in r.users && r.users[name] == t.users[name]
  {
    if u.username in t.users then t
    else t.(users := t.users[u.username := User(Hashing.Hash(u.password, salt), u.role, u.email)])
  }

  /** Some account in `us` has username `name`. */
  predicate Listed(us: seq<DefaultUser>, name: string)
  {
    exists j :: 0 <= j < |us| && us[j].username == name
  }

  /** The default-user loop over `us`, in order. */
  function SeedUsers(t: Tables, us: seq<DefaultUser>, salts: seq<nat>): (r: Tables)
    requires |salts| == |us|
    ensures r.cars == t.cars && r.bookings == t.bookings
    ensures r.nextCarId == t.nextCarId && r.nextBookingId == t.nextBookingId
    ensures forall name :: name in r.users <==> name in t.users || Listed(us, name)
    ensures forall name :: name in t.users ==> r.users[name] == t.users[name]
  {
    if us == [] then t
    else
      var n := |us| - 1;
      AddDefaultUser(SeedUsers(t, us[..n], salts[..n]), us[n], salts[n])
  }

  /** The whole effect of `initialize_database` on the tables. */
  function Initialize(t: Tables, salts: seq<nat>): (r: Tables)
    requires |salts| == |DefaultUsers|
    ensures r.bookings == t.bookings && r.nextBookingId == t.nextBookingId
    ensures forall name :: name in t.users ==> name in r.users && r.users[name] == t.users[name]
    ensures t.cars != map[] ==> r.cars == t.cars && r.nextCarId == t.nextCarId
  {
    SeedUsers(SeedCars(t), DefaultUsers, salts)
  }

  /** One more turn of the default-user loop extends the prefix by one account. */
  lemma SeedUsersStep(t: Tables, us: seq<DefaultUser>, salts: seq<nat>, i: nat)
    requires |salts| == |us| && i < |us|
    ensures SeedUsers(t, us[..i + 1], salts[..i + 1]) == AddDefaultUser(SeedUsers(t, us[..i], salts[..i]), us[i], salts[i])
  {
    assert us[..i + 1][..i] == us[..i];
    assert salts[..i + 1][..i] == salts[..i];
  }

  /** `initialize_database`, run against the database file `db`. */
  method InitializeDatabase(db: Database, salts: seq<nat>)
    requires |salts| == |DefaultUsers|
    modifies db
    ensures db.Contents() == Initialize(old(db.Contents()), salts)
  {
    var seeded := SeedCars(db.Contents());
    db.cars, db.nextCarId := seeded.cars, seeded.nextCarId;
    ghost var start := db.Contents();
    for i := 0 to |DefaultUsers|
      invariant db.Contents() == SeedUsers(start, DefaultUsers[..i], salts[..i])
    {
      var u := DefaultUsers[i];
      SeedUsersStep(start, DefaultUsers, salts, i);
      if u.username !in db.users {
        var hashed := Hashing.Hash(u.password, salts[i]);
        db.users := db.users[u.username := User(hashed, u.role, u.email)];
      }
    }
    assert DefaultUsers[..|DefaultUsers|] == DefaultUsers;
    assert salts[..|salts|] == salts;
  }

  // ---------------------------------------------------------------------------
  // Properties of the seeding
  // ---------------------------------------------------------------------------

  /** A non-empty cars table is left alone. */
  lemma SeedCarsSkipsNonEmpty(t: Tables)
    requires t.cars != map[]
    ensures SeedCars(t) == t
  {
  }

  /** Inserting into an empty cars table yields exactly the inserted rows, under consecutive ids. */
  lemma InsertCarsIntoEmpty(t: Tables, cars: seq<Car>)
    requires t.cars == map[]
    ensures forall id :: id in InsertCars(t, cars).cars <==> t.nextCarId <= id < t.nextCarId + |cars|
    ensures forall id :: id in InsertCars(t, cars).cars ==> InsertCars(t, cars).cars[id] == cars[id - t.nextCarId]
  {
  }

  /** An empty cars table receives exactly the sample fleet, under ten consecutive new ids. */
  lemma SeedCarsFillsEmpty(t: Tables)
    requires t.cars == map[]
    ensures forall id :: id in SeedCars(t).cars <==> t.nextCarId <= id < t.nextCarId + 10
    ensures forall id :: id in SeedCars(t).cars ==> SeedCars(t).cars[id] == SampleCars()[id - t.nextCarId]
  {
    InsertCarsIntoEmpty(t, SampleCars());
  }

  /** A default user already present is never replaced; an absent one is added. */
  lemma {:induction false} SeedUsersOnlyIfAbsent(t: Tables, us: seq<DefaultUser>, salts: seq<nat>, i: nat)
    requires |salts| == |us| && i < |us|
    requires forall j :: 0 <= j < i ==> us[j].username != us[i].username
    ensures us[i].username in t.users ==> SeedUsers(t, us, salts).users[us[i].username] == t.users[us[i].username]
    ensures us[i].username !in t.users ==>
      SeedUsers(t, us, salts).users[us[i].username] == User(Hashing.Hash(us[i].password, salts[i]), us[i].role, us[i].email)
    decreases |us|
  {
    var n := |us| - 1;
    var prev := SeedUsers(t, us[..n], salts[..n]);
    assert SeedUsers(t, us, salts) == AddDefaultUser(prev, us[n], salts[n]);
    if i < n {
      assert us[..n][i] == us[i];
      SeedUsersOnlyIfAbsent(t, us[..n], salts[..n], i);
    } else {
      assert !Listed(us[..n], us[i].username);
      assert us[i].username in prev.users <==> us[i].username in t.users;
    }
  }

  /** When every listed username is present, the default-user loop changes nothing. */
  lemma {:induction false} SeedUsersNoop(t: Tables, us: seq<DefaultUser>, salts: seq<nat>)
    requires |salts| == |us|
    requires forall u :: u in us ==> u.username in t.users
    ensures SeedUsers(t, us, salts) == t
    decreases |us|
  {
    if us != [] {
      var n := |us| - 1;
      assert forall u :: u in us[..n] ==> u in us;
      SeedUsersNoop(t, us[..n], salts[..n]);
    }
  }

  /** After initialisation the cars table is non-empty and both default users exist. */
  lemma InitializeEstablishes(t: Tables, salts: seq<nat>)
    requires |salts| == |DefaultUsers|
    ensures Initialize(t, salts).cars != map[]
    ensures forall u :: u in DefaultUsers ==> u.username in Initialize(t, salts).users
  {
    var s := SeedCars(t);
    if t.cars == map[] {
      assert t.nextCarId in s.cars;
    }
    assert forall u :: u in DefaultUsers ==> u.username in SeedUsers(s, DefaultUsers, salts).users.Keys;
  }

  /** Running `initialize_database` a second time changes no table. */
  lemma InitializeIdempotent(t: Tables, first: seq<nat>, second: seq<nat>)
    requires |first| == |DefaultUsers| && |second| == |DefaultUsers|
    ensures Initialize(Initialize(t, first), second) == Initialize(t, first)
  {
    var once := Initialize(t, first);
    InitializeEstablishes(t, first);
    assert SeedCars(once) == once;
    SeedUsersNoop(once, DefaultUsers, second);
  }

  /** Every car the seeding adds is available and has min_days <= max_days. */
  lemma SeededCarsValid(t: Tables, salts: seq<nat>, id: int)
    requires |salts| == |DefaultUsers|
    requires id in Initialize(t, salts).cars && id !in t.cars
    ensures Initialize(t, salts).cars[id].available
    ensures Initialize(t, salts).cars[id].minDays <= Initialize(t, salts).cars[id].maxDays
  {
    var cars := SampleCars();
    var k := id - t.nextCarId;
    assert 0 <= k < |cars|;
    assert Initialize(t, salts).cars[id] == cars[k];
  }

  lemma InsertCarsPreservesInv(t: Tables, cars: seq<Car>)
    requires Inv(t)
    ensures Inv(InsertCars(t, cars))
  {
    var r := InsertCars(t, cars);
    forall id | id in r.bookings
      ensures BookingConsistent(r, r.bookings[id])
    {
      assert BookingConsistent(t, t.bookings[id]);
    }
  }

  lemma SeedUsersPreservesInv(t: Tables, us: seq<DefaultUser>, salts: seq<nat>)
    requires Inv(t) && |salts| == |us|
    requires forall j :: 0 <= j < |us| ==> us[j].username != ""
    ensures Inv(SeedUsers(t, us, salts))
  {
    var r := SeedUsers(t, us, salts);
    forall id | id in r.bookings
      ensures BookingConsistent(r, r.bookings[id])
    {
      assert BookingConsistent(t, t.bookings[id]);
    }
  }

  /** Initialisation keeps the invariant of the tables. */
  lemma InitializePreservesInv(t: Tables, salts: seq<nat>)
    requires Inv(t) && |salts| == |DefaultUsers|
    ensures Inv(Initialize(t, salts))
  {
    if t.cars == map[] {
      InsertCarsPreservesInv(t, SampleCars());
    }
    SeedUsersPreservesInv(SeedCars(t), DefaultUsers, salts);
  }
}

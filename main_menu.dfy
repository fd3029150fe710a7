/**
 * The input rules of the console shell: `clean_int_input`'s digit filter and
 * parse, the password and role checks of the registration dialogue, and the
 * customer menu entries that call the service with the logged-in username.
 * What the user types is passed in as strings; the prompts are not modelled.
 */
module MainMenu {
  import opened Wrappers
  import opened Schema
  import Rental

  // ---------------------------------------------------------------------------
  // clean_int_input
  // ---------------------------------------------------------------------------

  /** `str.isdigit`, restricted to the ASCII digits. */
  predicate IsDigit(c: char)
    ensures IsDigit(c) ==> 0 <= c as int - '0' as int < 10
  {
    '0' <= c <= '9'
  }

  predicate AllDigits(s: string)
  {
    forall i :: 0 <= i < |s| ==> IsDigit(s[i])
  }

  function DigitValue(c: char): nat
    requires IsDigit(c)
  {
    (c - '0') as nat
  }

  function DigitChar(d: nat): char
    requires d < 10
  {
    '0' + d as char
  }

  /** `''.join(filter(str.isdigit, raw))`: the digits of `raw`, in their original order. */
  function Digits(raw: string): (r: string)
    ensures AllDigits(r)
    ensures |r| <= |raw|
    ensures r == [] <==> forall i :: 0 <= i < |raw| ==> !IsDigit(raw[i])
  {
    if raw == [] then []
    else
      var n := |raw| - 1;
      var rest := Digits(raw[..n]);
      if IsDigit(raw[n]) then rest + [raw[n]] else rest
  }

  function Pow10(n: nat): (r: nat)
  {
    if n == 0 then 1 else 10 * Pow10(n - 1)
  }

  /** `int(s)` on a string of ASCII digits: base 10, leading zeros allowed, below 10^|s|. */
  function ParseDecimal(s: string): (r: nat)
    requires AllDigits(s)
    ensures r < Pow10(|s|)
    ensures |s| == 1 ==> r == DigitValue(s[0])
  {
    if s == [] then 0
    else
      var prefix := ParseDecimal(s[..|s| - 1]);
      assert prefix * 10 <= (Pow10(|s| - 1) - 1) * 10;
      prefix * 10 + DigitValue(s[|s| - 1])
  }

  /** `clean_int_input`: None stands for the ValueError `int('')` raises when no digit was typed. */
  function CleanInt(raw: string): (r: Option<int>)
    ensures r.None? <==> forall i :: 0 <= i < |raw| ==> !IsDigit(raw[i])
    ensures r.Some? ==> r.value >= 0
  {
    var digits := Digits(raw);
    if digits == [] then None else Some(ParseDecimal(digits))
  }

  /** The decimal numeral of `n`, without leading zeros: the inverse partner of the parse. */
  function ShowDecimal(n: nat): (s: string)
    ensures s != [] && AllDigits(s)
  {
    if n < 10 then [DigitChar(n)]
    else ShowDecimal(n / 10) + [DigitChar(n % 10)]
  }

  /** Filtering distributes over concatenation, so the order of the kept digits is that of `raw`. */
  lemma {:induction false} DigitsAppend(a: string, b: string)
    ensures Digits(a + b) == Digits(a) + Digits(b)
    decreases |b|
  {
    if b == [] {
      assert a + b == a;
    } else {
      var n := |b| - 1;
      assert (a + b)[..|a + b| - 1] == a + b[..n];
      DigitsAppend(a, b[..n]);
    }
  }

  /** A single character is kept iff it is a digit. */
  lemma DigitsSingle(c: char)
    ensures Digits([c]) == if IsDigit(c) then [c] else []
  {
    assert [c][..0] == [];
  }

  /** A string of digits passes the filter unchanged. */
  lemma {:induction false} DigitsOfDigits(s: string)
    requires AllDigits(s)
    ensures Digits(s) == s
  {
    if s != [] {
      var n := |s| - 1;
      DigitsOfDigits(s[..n]);
      assert s[..n] + [s[n]] == s;
    }
  }

  lemma {:induction false} ParseShow(n: nat)
    ensures ParseDecimal(ShowDecimal(n)) == n
  {
    if n >= 10 {
      var s := ShowDecimal(n);
      assert s[..|s| - 1] == ShowDecimal(n / 10);
      ParseShow(n / 10);
    }
  }

  /** Typing a number gives that number back. */
  lemma CleanIntOfNumeral(n: nat)
    ensures CleanInt(ShowDecimal(n)) == Some(n)
  {
    DigitsOfDigits(ShowDecimal(n));
    ParseShow(n);
  }

  /** A leading minus sign is filtered out: typing -n gives n. */
  lemma CleanIntDropsMinus(n: nat)
    ensures CleanInt("-" + ShowDecimal(n)) == Some(n)
  {
    DigitsAppend("-", ShowDecimal(n));
    DigitsSingle('-');
    DigitsOfDigits(ShowDecimal(n));
    assert [] + ShowDecimal(n) == ShowDecimal(n);
    ParseShow(n);
  }

  /** A non-digit between any two pieces of input is dropped: "1,050" reads as "1050". */
  lemma {:induction false} CleanIntJoinsDigitGroups(a: string, b: string, sep: char)
    requires !IsDigit(sep)
    ensures CleanInt(a + [sep] + b) == CleanInt(a + b)
  {
    DigitsAppend(a + [sep], b);
    DigitsAppend(a, [sep]);
    DigitsSingle(sep);
    DigitsAppend(a, b);
    assert Digits(a) + [] == Digits(a);
  }

  /** Reading the digits of `a` followed by those of `b`: `a` shifted left by |b| places, plus `b`. */
  lemma {:induction false} ParseDecimalAppend(a: string, b: string)
    requires AllDigits(a) && AllDigits(b)
    ensures AllDigits(a + b)
    ensures ParseDecimal(a + b) == ParseDecimal(a) * Pow10(|b|) + ParseDecimal(b)
    decreases |b|
  {
    if b == [] {
      assert a + b == a;
    } else {
      var n := |b| - 1;
      assert (a + b)[..|a + b| - 1] == a + b[..n];
      assert (a + b)[|a + b| - 1] == b[n];
      ParseDecimalAppend(a, b[..n]);
      assert b[..n] + [b[n]] == b;
      ShiftDigit(ParseDecimal(a), Pow10(n), ParseDecimal(b[..n]), DigitValue(b[n]));
    }
  }

  /** Appending digit `d` to a number made of `x` shifted by `p` places and `y`. */
  lemma ShiftDigit(x: int, p: int, y: int, d: int)
    ensures (x * p + y) * 10 + d == x * (10 * p) + (y * 10 + d)
  {
    calc {
      (x * p + y) * 10 + d;
      x * p * 10 + y * 10 + d;
      x * (p * 10) + y * 10 + d;
    }
  }

  /** A run of zeros reads as 0. */
  lemma {:induction false} ParseDecimalZeros(k: nat)
    ensures AllDigits(seq(k, _ => '0'))
    ensures ParseDecimal(seq(k, _ => '0')) == 0
  {
    if k > 0 {
      ParseDecimalZeros(k - 1);
      assert seq(k, _ => '0')[..k - 1] == seq(k - 1, _ => '0');
    }
  }

  /** Leading zeros do not change the number read: "007" reads as 7. */
  lemma {:induction false} CleanIntLeadingZeros(k: nat, n: nat)
    ensures CleanInt(seq(k, _ => '0') + ShowDecimal(n)) == Some(n)
  {
    var zeros := seq(k, _ => '0');
    ParseDecimalZeros(k);
    ParseDecimalAppend(zeros, ShowDecimal(n));
    DigitsOfDigits(zeros + ShowDecimal(n));
    ParseShow(n);
  }

  /** Two digit groups around a separator read as one number: "1,050" gives 1 × 1000 + 50. */
  lemma {:induction false} CleanIntReadsDigitGroups(a: string, b: string, sep: char)
    requires AllDigits(a) && AllDigits(b) && !IsDigit(sep) && a + b != []
    ensures CleanInt(a + [sep] + b) == Some(ParseDecimal(a) * Pow10(|b|) + ParseDecimal(b))
  {
    CleanIntJoinsDigitGroups(a, b, sep);
    ParseDecimalAppend(a, b);
    DigitsOfDigits(a + b);
  }

  // ---------------------------------------------------------------------------
  // Registration dialogue
  // ---------------------------------------------------------------------------

  /** The password loop's exit test: the two entries match and have at least six characters. */
  predicate PasswordAccepted(password: string, confirmation: string)
    ensures PasswordAccepted(password, confirmation) ==> password != "" && confirmation == password
  {
    password == confirmation && |password| >= 6
  }

  /** The password the loop settles on, given the (password, confirmation) pairs typed in turn. */
  function FirstAccepted(attempts: seq<(string, string)>): (r: Option<string>)
    ensures r.Some? ==> PasswordAccepted(r.value, r.value)
    ensures r.Some? ==> exists i :: 0 <= i < |attempts| && attempts[i] == (r.value, r.value)
    decreases |attempts|
  {
    if attempts == [] then None
    else if PasswordAccepted(attempts[0].0, attempts[0].1) then Some(attempts[0].0)
    else FirstAccepted(attempts[1..])
  }

  /** The loop keeps the first accepted attempt; it runs out only when no attempt is acceptable. */
  lemma {:induction false} FirstAcceptedSpec(attempts: seq<(string, string)>)
    ensures FirstAccepted(attempts).None? <==>
            forall i :: 0 <= i < |attempts| ==> !PasswordAccepted(attempts[i].0, attempts[i].1)
    ensures FirstAccepted(attempts).Some? ==>
            exists i :: 0 <= i < |attempts| && attempts[i].0 == FirstAccepted(attempts).value
                        && PasswordAccepted(attempts[i].0, attempts[i].1)
                        && forall j :: 0 <= j < i ==> !PasswordAccepted(attempts[j].0, attempts[j].1)
  {
    if attempts != [] && !PasswordAccepted(attempts[0].0, attempts[0].1) {
      var rest := attempts[1..];
      FirstAcceptedSpec(rest);
      if FirstAccepted(rest).Some? {
        var i :| 0 <= i < |rest| && rest[i].0 == FirstAccepted(rest).value
                 && PasswordAccepted(rest[i].0, rest[i].1)
                 && forall j :: 0 <= j < i ==> !PasswordAccepted(rest[j].0, rest[j].1);
        assert attempts[i + 1] == rest[i];
        assert forall j :: 1 <= j < i + 1 ==> attempts[j] == rest[j - 1];
      } else {
        assert forall i :: 1 <= i < |attempts| ==> attempts[i] == rest[i - 1];
      }
    }
  }

  /** Every accepted password has at least six characters. */
  lemma FirstAcceptedLength(attempts: seq<(string, string)>)
    requires FirstAccepted(attempts).Some?
    ensures |FirstAccepted(attempts).value| >= 6
  {
    FirstAcceptedSpec(attempts);
  }

  /** The `while True` password loop of the registration dialogue, over the attempts typed. */
  method PromptPassword(attempts: seq<(string, string)>) returns (password: Option<string>)
    ensures password == FirstAccepted(attempts)
  {
    var i := 0;
    while i < |attempts|
      invariant 0 <= i <= |attempts|
      invariant FirstAccepted(attempts) == FirstAccepted(attempts[i..])
    {
      var (entered, confirmation) := attempts[i];
      assert attempts[i..][1..] == attempts[i + 1..];
      if entered != confirmation {
        // "Passwords do not match. Try again."
      } else if |entered| < 6 {
        // "Password must be at least 6 characters long."
      } else {
        return Some(entered);
      }
      i := i + 1;
    }
    password := None;
  }

  function LowerChar(c: char): char
  {
    if 'A' <= c <= 'Z' then c - 'A' + 'a' else c
  }

  /** `str.lower`, restricted to ASCII letters: same length, no upper-case letter left. */
  function Lower(s: string): (r: string)
    ensures |r| == |s|
    ensures forall i :: 0 <= i < |r| ==> !('A' <= r[i] <= 'Z')
    ensures forall i :: 0 <= i < |s| && !('A' <= s[i] <= 'Z') ==> r[i] == s[i]
    ensures forall i :: 0 <= i < |s| && 'A' <= s[i] <= 'Z' ==> r[i] as int == s[i] as int + 32
  {
    seq(|s|, i requires 0 <= i < |s| => LowerChar(s[i]))
  }

  /** The role check: lower-cased, and anything but "admin" or "customer" becomes "customer". */
  function NormalizeRole(input: string): (role: string)
    ensures role == "admin" || role == "customer"
    ensures role == "admin" <==> Lower(input) == "admin"
  {
    var lowered := Lower(input);
    if lowered == "admin" || lowered == "customer" then lowered else "customer"
  }

  /** Any mix of upper- and lower-case letters spelling "admin" selects the admin role. */
  lemma NormalizeRoleAdminAnyCase(input: string)
    requires |input| == 5
    requires forall i :: 0 <= i < 5 ==> input[i] == "admin"[i] || input[i] == "ADMIN"[i]
    ensures NormalizeRole(input) == "admin"
  {
    assert Lower(input) == "admin";
  }

  /** Any mix of upper- and lower-case letters spelling "customer" selects the customer role. */
  lemma NormalizeRoleCustomerAnyCase(input: string)
    requires |input| == 8
    requires forall i :: 0 <= i < 8 ==> input[i] == "customer"[i] || input[i] == "CUSTOMER"[i]
    ensures NormalizeRole(input) == "customer"
  {
    assert Lower(input) == "customer";
  }

  /** Lower-casing twice is lower-casing once. */
  lemma LowerIdempotent(s: string)
    ensures Lower(Lower(s)) == Lower(s)
  {
    var once := Lower(s);
    assert forall i :: 0 <= i < |once| ==> Lower(once)[i] == once[i];
  }

  /** The role depends only on the lower-cased input, and anything that is not "admin" becomes "customer". */
  lemma NormalizeRoleIgnoresCase(input: string)
    ensures NormalizeRole(input) == NormalizeRole(Lower(input))
    ensures Lower(input) != "admin" ==> NormalizeRole(input) == "customer"
  {
    LowerIdempotent(input);
  }

  /**
   * Option 2 of `auth_menu`: read username and email, loop until a password is
   * accepted, normalise the role, and register.  None means the dialogue did
   * not log anybody in: registration failed, or the typed attempts ran out
   * before one was accepted (the console would keep asking).
   */
  method RegisterFromMenu(service: Rental.RentalService, username: string, email: string,
                          attempts: seq<(string, string)>, roleInput: string, salt: nat)
    returns (session: Option<(string, string)>)
    modifies service.db
    ensures FirstAccepted(attempts).None? ==> session.None? && service.db.Contents() == old(service.db.Contents())
    ensures FirstAccepted(attempts).Some? ==>
      var (t', ok) := Rental.Register(old(service.db.Contents()), username, FirstAccepted(attempts).value,
                                      NormalizeRole(roleInput), email, salt);
      && service.db.Contents() == t'
      && session == if ok then Some((username, NormalizeRole(roleInput))) else None
  {
    var password := PromptPassword(attempts);
    if password.None? {
      return None;
    }
    var role := NormalizeRole(roleInput);
    var registered := service.RegisterUser(username, password.value, role, email, salt);
    if registered {
      session := Some((username, role));
    } else {
      // "Registration failed. Username may already exist."
      session := None;
    }
  }

  /** A user created through the dialogue has a role of "admin" or "customer" and logs in with the accepted password. */
  lemma MenuRegistrationLogsIn(t: Tables, username: string, email: string,
                               attempts: seq<(string, string)>, roleInput: string, salt: nat)
    requires FirstAccepted(attempts).Some?
    requires Rental.Register(t, username, FirstAccepted(attempts).value, NormalizeRole(roleInput), email, salt).1
    ensures var t' := Rental.Register(t, username, FirstAccepted(attempts).value, NormalizeRole(roleInput), email, salt).0;
      && Rental.Login(t', username, FirstAccepted(attempts).value) == Some(NormalizeRole(roleInput))
      && |FirstAccepted(attempts).value| >= 6
      && (t'.users[username].role == "admin" || t'.users[username].role == "customer")
  {
    Rental.RegisterThenLogin(t, username, FirstAccepted(attempts).value, NormalizeRole(roleInput), email, salt,
                             FirstAccepted(attempts).value);
    FirstAcceptedLength(attempts);
  }

  // ---------------------------------------------------------------------------
  // Customer menu
  // ---------------------------------------------------------------------------

  /**
   * Option 2 of the customer menu: the car id and days are read with
   * `clean_int_input` and the booking is made in the logged-in user's name.
   * None means `clean_int_input` raised, which ends the program before any booking.
   */
  method CustomerBook(service: Rental.RentalService, username: string, carIdInput: string, daysInput: string)
    returns (outcome: Option<Rental.BookOutcome>)
    modifies service.db
    ensures CleanInt(carIdInput).None? || CleanInt(daysInput).None? ==>
      outcome.None? && service.db.Contents() == old(service.db.Contents())
    ensures CleanInt(carIdInput).Some? && CleanInt(daysInput).Some? ==>
      var (t', result) := Rental.Book(old(service.db.Contents()), username,
                                      CleanInt(carIdInput).value, CleanInt(daysInput).value);
      service.db.Contents() == t' && outcome == Some(result)
  {
    var carId := CleanInt(carIdInput);
    if carId.None? {
      return None;
    }
    var days := CleanInt(daysInput);
    if days.None? {
      return None;
    }
    var result := service.BookCar(username, carId.value, days.value);
    outcome := Some(result);
  }

  /** Option 3 of the customer menu: the bookings listed are those in the logged-in user's name. */
  method CustomerViewBookings(service: Rental.RentalService, username: string) returns (rows: map<int, Booking>)
    ensures rows == Rental.ViewBookings(service.db.Contents(), Some(username))
  {
    rows := service.ViewBookingRows(Some(username));
  }

  /** Every booking a customer's own menu creates carries that customer's name. */
  lemma CustomerBookingIsOwn(t: Tables, username: string, carId: int, days: int)
    requires Inv(t)
    requires Rental.Book(t, username, carId, days).1.Submitted?
    ensures var (t', outcome) := Rental.Book(t, username, carId, days);
      t'.bookings[outcome.bookingId].customerName == username
      && outcome.bookingId in Rental.ViewBookings(t', Some(username))
  {
    Rental.BookAddsOnePendingBooking(t, username, carId, days);
    Rental.BookPreservesInv(t, username, carId, days);
    var (t', outcome) := Rental.Book(t, username, carId, days);
    Rental.ViewOwnBookings(t', username);
  }
}

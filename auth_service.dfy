/**
 * `AuthService`: password login with a lockout after repeated failures.
 * The lockout rules are stated once, as a pure step function on the two
 * lockout columns of a user; the service method that loads the user,
 * mutates the entity and saves it is proved to follow that function.
 * Password hashing and token signing are parameters of the model.
 */
module AuthService {
  import opened Wrappers

  /** `MAX_FAILED_ATTEMPTS`. */
  const MaxFailedAttempts := 5
  /** `LOCK_DURATION_MINUTES * 60 * 1000`: fifteen minutes in milliseconds. */
  const LockDuration := 15 * 60 * 1000

  const LockedMessage := "Cuenta bloqueada temporalmente. Intenta más tarde."
  const InvalidCredentialsMessage := "Credenciales inválidas"
  const Unauthorized := 401

  /** The lockout columns of a user: the failure counter and the instant
      (in milliseconds) until which the account is locked, if any. */
  datatype LockState = LockState(failedLoginAttempts: nat, lockedUntil: Option<int>)

  /** What `user-seed` inserts: no failures and no lock. */
  const Seeded := LockState(0, None)

  /** A row of the users table. */
  datatype UserRecord = UserRecord(id: string, username: string, password: string, lock: LockState)

  // ---------------------------------------------------------------------
  // The lockout rules
  // ---------------------------------------------------------------------

  /** `user.lockedUntil && new Date() < user.lockedUntil`. */
  predicate IsLocked(s: LockState, now: int) {
    s.lockedUntil.Some? && now < s.lockedUntil.value
  }

  /** `user.lockedUntil && new Date() >= user.lockedUntil`. */
  predicate LockExpired(s: LockState, now: int) {
    s.lockedUntil.Some? && now >= s.lockedUntil.value
  }

  /** The verdict of one login attempt: an unknown user and a wrong password
      both return `null`; a locked account throws. */
  datatype Verdict = UnknownUser | Locked | WrongPassword | Granted

  /** One attempt on an existing user: the verdict, the lockout columns
      afterwards, and the states written by `save`, in order. */
  datatype Attempt = Attempt(verdict: Verdict, after: LockState, saved: seq<LockState>)

  /** The account after an expired lock has been cleared. */
  function ClearExpired(s: LockState, now: int): (r: LockState)
    ensures LockExpired(s, now) ==> r == Seeded
    ensures !LockExpired(s, now) ==> r == s
  {
    if LockExpired(s, now) then LockState(0, None) else s
  }

  /** A failed comparison: one more failure, and a lock of fifteen minutes
      from `now` once the counter reaches the maximum. */
  function RecordFailure(s: LockState, now: int): (r: LockState)
    ensures r.failedLoginAttempts == s.failedLoginAttempts + 1
    ensures r.failedLoginAttempts >= MaxFailedAttempts ==> r.lockedUntil == Some(now + LockDuration)
    ensures r.failedLoginAttempts < MaxFailedAttempts ==> r.lockedUntil == s.lockedUntil
  {
    var n := s.failedLoginAttempts + 1;
    LockState(n, if n >= MaxFailedAttempts then Some(now + LockDuration) else s.lockedUntil)
  }

  /** `validateUser` on an existing user whose stored hash matches the
      given password exactly when `matches` holds. */
  function Step(s: LockState, now: int, matches: bool): Attempt {
    if IsLocked(s, now) then Attempt(Locked, s, [])
    else
      var r := ClearExpired(s, now);
      var first := if LockExpired(s, now) then [r] else [];
      if !matches then
        var f := RecordFailure(r, now);
        Attempt(WrongPassword, f, first + [f])
      else if r.failedLoginAttempts > 0 then
        Attempt(Granted, Seeded, first + [Seeded])
      else
        Attempt(Granted, r, first)
  }

  /** A locked account refuses the attempt before the password is compared,
      whatever it is, and nothing is saved. */
  lemma LockedRefuses(s: LockState, now: int, matches: bool)
    requires IsLocked(s, now)
    ensures Step(s, now, matches) == Attempt(Locked, s, [])
  {
  }

  /** A lock that has run out is cleared and saved before anything else. */
  lemma ExpiredLockClearedFirst(s: LockState, now: int, matches: bool)
    requires LockExpired(s, now)
    ensures var a := Step(s, now, matches);
      a.verdict != Locked && |a.saved| >= 1 && a.saved[0] == Seeded
  {
  }

  /** A wrong password on an unlocked account adds exactly one failure (to
      the counter as it stands after clearing an expired lock) and locks the
      account for fifteen minutes exactly when the counter reaches five;
      the final state is saved. */
  lemma WrongPasswordCounts(s: LockState, now: int)
    requires !IsLocked(s, now)
    ensures var a := Step(s, now, false);
      var before := ClearExpired(s, now);
      a.verdict == WrongPassword &&
      a.after.failedLoginAttempts == before.failedLoginAttempts + 1 &&
      a.after.lockedUntil == (if before.failedLoginAttempts + 1 >= MaxFailedAttempts then Some(now + LockDuration) else None) &&
      a.saved != [] && a.saved[|a.saved| - 1] == a.after
  {
  }

  /** A right password on an unlocked account is granted and leaves the
      account as seeded, with no failures and no lock; it is saved only when
      there was something to reset. */
  lemma RightPasswordResets(s: LockState, now: int)
    requires !IsLocked(s, now)
    ensures var a := Step(s, now, true);
      a.verdict == Granted && a.after == Seeded &&
      (a.saved == [] <==> !LockExpired(s, now) && s.failedLoginAttempts == 0) &&
      (a.saved != [] ==> a.saved[|a.saved| - 1] == Seeded)
  {
  }

  /** The account invariant: at most five failures, and a lock exactly when
      the counter is at five. */
  predicate Inv(s: LockState) {
    s.failedLoginAttempts <= MaxFailedAttempts &&
    (s.failedLoginAttempts == MaxFailedAttempts <==> s.lockedUntil.Some?)
  }

  /** Every attempt keeps the invariant, and so does every state it saves. */
  lemma StepKeepsInv(s: LockState, now: int, matches: bool)
    requires Inv(s)
    ensures var a := Step(s, now, matches);
      Inv(a.after) && forall i | 0 <= i < |a.saved| :: Inv(a.saved[i])
  {
  }

  /** One login attempt at instant `now`, with the right password or not. */
  datatype Try = Try(now: int, matches: bool)

  /** The lockout columns after a sequence of attempts on one user. */
  function Run(s: LockState, tries: seq<Try>): LockState {
    if tries == [] then s
    else
      var last := tries[|tries| - 1];
      Step(Run(s, tries[..|tries| - 1]), last.now, last.matches).after
  }

  /** From the seeded state the counter never exceeds five, and five
      failures always come with a lock. */
  lemma {:induction false} RunKeepsInv(tries: seq<Try>)
    ensures Inv(Run(Seeded, tries))
  {
    if tries != [] {
      RunKeepsInv(tries[..|tries| - 1]);
      var last := tries[|tries| - 1];
      StepKeepsInv(Run(Seeded, tries[..|tries| - 1]), last.now, last.matches);
    }
  }

  predicate AllWrong(tries: seq<Try>) {
    forall i | 0 <= i < |tries| :: !tries[i].matches
  }

  /** Up to five consecutive wrong passwords from the seeded state count one
      by one, and only the fifth locks the account, for fifteen minutes from
      its own instant. */
  lemma {:induction false} ConsecutiveFailures(tries: seq<Try>)
    requires |tries| <= MaxFailedAttempts && AllWrong(tries)
    ensures var s := Run(Seeded, tries);
      s.failedLoginAttempts == |tries| &&
      s.lockedUntil == if |tries| == MaxFailedAttempts then Some(tries[|tries| - 1].now + LockDuration) else None
  {
    if tries != [] {
      var init := tries[..|tries| - 1];
      assert AllWrong(init) by {
        forall i | 0 <= i < |init| ensures !init[i].matches {
          assert init[i] == tries[i];
        }
      }
      ConsecutiveFailures(init);
    }
  }

  /** The fifth wrong password itself only returns `null`; the next attempt
      within fifteen minutes is refused as locked even with the right
      password, and one after them is judged on its password again. */
  lemma FifthFailureLocks(tries: seq<Try>, next: Try)
    requires |tries| == MaxFailedAttempts - 1 && AllWrong(tries)
    ensures var s := Run(Seeded, tries);
      var fifth := Step(s, next.now, false);
      fifth.verdict == WrongPassword &&
      (forall later | next.now <= later < next.now + LockDuration :: Step(fifth.after, later, true).verdict == Locked) &&
      (forall later | later >= next.now + LockDuration :: Step(fifth.after, later, true) == Attempt(Granted, Seeded, [Seeded]))
  {
    ConsecutiveFailures(tries);
  }

  // ---------------------------------------------------------------------
  // The service, over the users table
  // ---------------------------------------------------------------------

  /** A loaded `UserEntity`; the service mutates its lockout columns. */
  class UserEntity {
    const id: string
    const username: string
    const password: string
    var failedLoginAttempts: nat
    var lockedUntil: Option<int>

    constructor (r: UserRecord)
      ensures Record() == r
    {
      id, username, password := r.id, r.username, r.password;
      failedLoginAttempts, lockedUntil := r.lock.failedLoginAttempts, r.lock.lockedUntil;
    }

    function Lock(): LockState
      reads this
    {
      LockState(failedLoginAttempts, lockedUntil)
    }

    function Record(): UserRecord
      reads this
    {
      UserRecord(id, username, password, Lock())
    }
  }

  /** `Repository<UserEntity>`: the users table keyed by username, and the
      rows `save` has written, in order. */
  class UserRepository {
    var rows: map<string, UserRecord>
    var saved: seq<UserRecord>

    constructor (initial: map<string, UserRecord>)
      ensures rows == initial && saved == []
    {
      rows, saved := initial, [];
    }

    /** `findOne({ where: { username } })`: a fresh entity for the row. */
    method FindOne(username: string) returns (u: UserEntity?)
      ensures u == null <==> username !in rows
      ensures u != null ==> fresh(u) && u.Record() == rows[username]
    {
      if username in rows {
        u := new UserEntity(rows[username]);
      } else {
        u := null;
      }
    }

    /** `save(user)`: writes the entity's row. */
    method Save(u: UserEntity)
      modifies this
      ensures rows == old(rows)[u.username := u.Record()]
      ensures saved == old(saved) + [u.Record()]
    {
      rows := rows[u.username := u.Record()];
      saved := saved + [u.Record()];
    }
  }

  /** `UserDto`. */
  datatype UserDto = UserDto(id: string, username: string, roles: seq<string>)

  /** What `validateUser` returns or throws. */
  datatype Validation = NullUser | LockedAccount | ValidUser(user: UserDto)

  function ValidationOf(v: Verdict, r: UserRecord): (o: Validation)
    ensures o.ValidUser? <==> v == Granted
    ensures o == LockedAccount <==> v == Locked
  {
    match v
    case UnknownUser => NullUser
    case Locked => LockedAccount
    case WrongPassword => NullUser
    case Granted => ValidUser(UserDto(r.id, r.username, ["admin"]))
  }

  /** The rows of `record` carrying each of `states`. */
  function WithLocks(record: UserRecord, states: seq<LockState>): (rs: seq<UserRecord>)
    ensures |rs| == |states|
    ensures forall i | 0 <= i < |states| :: rs[i] == record.(lock := states[i])
  {
    if states == [] then [] else [record.(lock := states[0])] + WithLocks(record, states[1..])
  }

  /** Saving one more state appends one more row. */
  lemma {:induction false} WithLocksSnoc(record: UserRecord, states: seq<LockState>, x: LockState)
    ensures WithLocks(record, states + [x]) == WithLocks(record, states) + [record.(lock := x)]
  {
    if states != [] {
      assert (states + [x])[1..] == states[1..] + [x];
      WithLocksSnoc(record, states[1..], x);
    }
  }

  /** The JWT claims of a session. */
  datatype Payload = Payload(username: string, sub: string)

  datatype LoginResponse = LoginResponse(user: UserDto, accessToken: string)

  /** `login`: claims carrying the username and, under `sub`, the id; the
      response repeats both with the `admin` role. Signing is a parameter. */
  function Login(username: string, userId: string, sign: Payload -> string): (r: LoginResponse)
    ensures r.user == UserDto(userId, username, ["admin"])
    ensures r.accessToken == sign(Payload(username, userId))
  {
    LoginResponse(UserDto(userId, username, ["admin"]), sign(Payload(username, userId)))
  }

  /** What `POST /auth/login` answers. */
  datatype LoginReply = LoggedIn(response: LoginResponse) | Rejected(status: int, message: string)

  /** The controller: a `null` user is 401 with the invalid-credentials
      message, a locked account 401 with the lock message, a valid user the
      login response for its own id and username. */
  function ControllerLogin(v: Validation, sign: Payload -> string): (r: LoginReply)
    ensures v == NullUser ==> r == Rejected(Unauthorized, InvalidCredentialsMessage)
    ensures v == LockedAccount ==> r == Rejected(Unauthorized, LockedMessage)
    ensures v.ValidUser? ==> r == LoggedIn(LoginResponse(UserDto(v.user.id, v.user.username, ["admin"]),
      sign(Payload(v.user.username, v.user.id))))
  {
    match v
    case NullUser => Rejected(Unauthorized, InvalidCredentialsMessage)
    case LockedAccount => Rejected(Unauthorized, LockedMessage)
    case ValidUser(u) => LoggedIn(Login(u.username, u.id, sign))
  }

  /** End to end on the verdict: an unknown user and a wrong password are
      the same 401, a granted user is logged in under the stored id and
      username, and the token signs exactly those. */
  lemma ControllerAnswers(v: Verdict, record: UserRecord, sign: Payload -> string)
    ensures v == UnknownUser || v == WrongPassword ==>
      ControllerLogin(ValidationOf(v, record), sign) == Rejected(Unauthorized, InvalidCredentialsMessage)
    ensures v == Locked ==> ControllerLogin(ValidationOf(v, record), sign) == Rejected(Unauthorized, LockedMessage)
    ensures v == Granted ==>
      var r := ControllerLogin(ValidationOf(v, record), sign);
      r.LoggedIn? && r.response.user == UserDto(record.id, record.username, ["admin"]) &&
      r.response.accessToken == sign(Payload(record.username, record.id))
  {
  }

  class AuthService {
    const users: UserRepository

    constructor (users: UserRepository)
      ensures this.users == users
    {
      this.users := users;
    }

    /** `validateUser`. `compare` stands for `bcrypt.compare` and `now` for
        the clock. The outcome and every save follow `Step` on the stored
        lockout columns; an unknown user saves nothing. */
    method ValidateUser(username: string, password: string, now: int, compare: (string, string) -> bool)
      returns (result: Validation)
      requires forall k | k in users.rows :: users.rows[k].username == k
      modifies users
      ensures forall k | k in users.rows :: users.rows[k].username == k
      ensures username !in old(users.rows) ==>
        result == NullUser && users.rows == old(users.rows) && users.saved == old(users.saved)
      ensures username in old(users.rows) ==>
        var record := old(users.rows)[username];
        var a := Step(record.lock, now, compare(password, record.password));
        result == ValidationOf(a.verdict, record) &&
        users.rows == old(users.rows)[username := record.(lock := a.after)] &&
        users.saved == old(users.saved) + WithLocks(record, a.saved)
    {
      var user := users.FindOne(username);
      if user == null {
        return NullUser;
      }
      ghost var record := user.Record();
      ghost var a := Step(record.lock, now, compare(password, record.password));
      ghost var start := users.saved;
      ghost var writes: seq<LockState> := [];

      if user.lockedUntil.Some? && now < user.lockedUntil.value {
        assert a == Attempt(Locked, record.lock, []);
        return LockedAccount;
      }

      if user.lockedUntil.Some? && now >= user.lockedUntil.value {
        user.lockedUntil := None;
        user.failedLoginAttempts := 0;
        users.Save(user);
        WithLocksSnoc(record, writes, user.Lock());
        writes := writes + [user.Lock()];
      }
      assert user.Lock() == ClearExpired(record.lock, now);
      assert writes == (if LockExpired(record.lock, now) then [user.Lock()] else []);
      assert users.saved == start + WithLocks(record, writes);

      var isPasswordValid := compare(password, user.password);

      if !isPasswordValid {
        user.failedLoginAttempts := user.failedLoginAttempts + 1;
        if user.failedLoginAttempts >= MaxFailedAttempts {
          user.lockedUntil := Some(now + LockDuration);
        }
        users.Save(user);
        WithLocksSnoc(record, writes, user.Lock());
        writes := writes + [user.Lock()];
        assert a == Attempt(WrongPassword, user.Lock(), writes);
        return NullUser;
      }

      if user.failedLoginAttempts > 0 {
        user.failedLoginAttempts := 0;
        user.lockedUntil := None;
        users.Save(user);
        WithLocksSnoc(record, writes, user.Lock());
        writes := writes + [user.Lock()];
      }
      assert a == Attempt(Granted, user.Lock(), writes);
      return ValidUser(UserDto(user.id, user.username, ["admin"]));
    }
  }
}

/**
 * The server actions for sign-up and sign-in. Each first asks the rate
 * limiter to admit the client; sign-up then looks the email up in the users
 * table, hashes the password and inserts the new user. The limiter's verdict,
 * the password hash, the insert's success and the sign-in call's reply are
 * parameters of the model; every call an action makes to them is returned in
 * order.
 */
module AuthActions {
  import opened Options
  import opened Validation
  import JsNumber

  const Loopback := "127.0.0.1"
  const TooFastPath := "/too-fast"
  const SaltRounds: nat := 10
  const UserExists := "User already exists"
  const InternalError := "Internal server error"

  /** The rate-limit key: the whole `x-forwarded-for` value, or the loopback address when it is absent or empty. */
  function ClientKey(forwardedFor: Option<string>): (key: string)
    ensures key != ""
    ensures forwardedFor.Some? && forwardedFor.value != "" ==> key == forwardedFor.value
    ensures forwardedFor == None || forwardedFor == Some("") ==> key == Loopback
  {
    if forwardedFor.Some? && forwardedFor.value != "" then forwardedFor.value else Loopback
  }

  datatype UserRecord = UserRecord(
    fullName: string,
    email: string,
    password: string,
    universityId: JsNumber.Number,
    universityCard: string)

  /** What an action answers: a redirect (thrown by `redirect`), or `{success, error?}`. */
  datatype Response = Redirect(path: string) | Reply(success: bool, error: Option<string>)

  /** The calls an action makes to its collaborators. */
  datatype Call =
    | Limit(key: string)
    | FindByEmail(email: string)
    | Hash(password: string, rounds: nat)
    | Insert(record: UserRecord)
    | SignIn(email: string, password: string)

  /** Every record is stored under its own email, so one email has at most one record. */
  predicate WellKeyed(users: map<string, UserRecord>) {
    forall e :: e in users ==> users[e].email == e
  }

  /** The row sign-up inserts: the hash in place of the password, the university id through `Number`. */
  function NewRecord(r: SignUpRequest, hashed: string): (rec: UserRecord)
    ensures rec.email == r.email && rec.password == hashed
    ensures rec.universityId == JsNumber.StringToNumber(r.universityId)
    ensures rec.fullName == r.fullName && rec.universityCard == r.universityCard
  {
    UserRecord(r.fullName, r.email, hashed, JsNumber.StringToNumber(r.universityId), r.universityCard)
  }

  datatype SignUpRun = SignUpRun(response: Response, users: map<string, UserRecord>, calls: seq<Call>)

  /**
   * Sign-up against table `users`, with the limiter's verdict `admitted`, the
   * hash function `bcrypt` (its random salt included) and whether the insert
   * succeeds.
   */
  function SignUpSpec(users: map<string, UserRecord>, r: SignUpRequest, forwardedFor: Option<string>,
                      admitted: bool, bcrypt: (string, nat) -> string, insertOk: bool): (run: SignUpRun)
    // the limiter is asked first, once, with the client's key; nothing else happens unless it admits
    ensures run.calls != [] && run.calls[0] == Limit(ClientKey(forwardedFor))
    ensures !admitted ==> run == SignUpRun(Redirect(TooFastPath), users, [Limit(ClientKey(forwardedFor))])
    // a taken email is refused before any hashing, and the table is untouched
    ensures admitted && r.email in users ==>
              run == SignUpRun(Reply(false, Some(UserExists)), users,
                               [Limit(ClientKey(forwardedFor)), FindByEmail(r.email)])
    // success adds exactly one record, under the request's email; everything else is kept
    ensures run.response == Reply(true, None) <==> admitted && r.email !in users && insertOk
    ensures run.response == Reply(true, None) ==>
              run.users == users[r.email := NewRecord(r, bcrypt(r.password, SaltRounds))]
    ensures run.response != Reply(true, None) ==> run.users == users
    ensures admitted && r.email !in users && !insertOk ==> run.response == Reply(false, Some(InternalError))
    // a new email: lookup, hash and insert follow the limiter in that order, the insert whether or not it succeeds
    ensures admitted && r.email !in users ==>
              run.calls == [Limit(ClientKey(forwardedFor)), FindByEmail(r.email), Hash(r.password, SaltRounds),
                            Insert(NewRecord(r, bcrypt(r.password, SaltRounds)))]
  {
    var key := ClientKey(forwardedFor);
    if !admitted then SignUpRun(Redirect(TooFastPath), users, [Limit(key)])
    else if r.email in users then SignUpRun(Reply(false, Some(UserExists)), users, [Limit(key), FindByEmail(r.email)])
    else
      var hashed := bcrypt(r.password, SaltRounds);
      var record := NewRecord(r, hashed);
      var calls := [Limit(key), FindByEmail(r.email), Hash(r.password, SaltRounds), Insert(record)];
      if insertOk then SignUpRun(Reply(true, None), users[r.email := record], calls)
      else SignUpRun(Reply(false, Some(InternalError)), users, calls)
  }

  /** The limiter is asked once, first; every later call happens only because it admitted. */
  lemma SignUpLimiterFirst(users: map<string, UserRecord>, r: SignUpRequest, forwardedFor: Option<string>,
      admitted: bool, bcrypt: (string, nat) -> string, insertOk: bool)
    ensures var run := SignUpSpec(users, r, forwardedFor, admitted, bcrypt, insertOk);
      forall i :: 0 < i < |run.calls| ==> !run.calls[i].Limit? && admitted
  {
    var run := SignUpSpec(users, r, forwardedFor, admitted, bcrypt, insertOk);
    var key := ClientKey(forwardedFor);
    if !admitted {
      assert run.calls == [Limit(key)];
    } else if r.email in users {
      assert run.calls == [Limit(key), FindByEmail(r.email)];
    } else {
      var record := NewRecord(r, bcrypt(r.password, SaltRounds));
      assert run.calls == [Limit(key), FindByEmail(r.email), Hash(r.password, SaltRounds), Insert(record)];
    }
  }

  /** The password is hashed, with 10 rounds, only once the limiter admitted and only for an email not yet taken. */
  lemma SignUpHashesOnlyNewEmail(users: map<string, UserRecord>, r: SignUpRequest, forwardedFor: Option<string>,
      admitted: bool, bcrypt: (string, nat) -> string, insertOk: bool)
    ensures var run := SignUpSpec(users, r, forwardedFor, admitted, bcrypt, insertOk);
      forall i :: 0 <= i < |run.calls| && run.calls[i].Hash? ==>
        admitted && r.email !in users && run.calls[i] == Hash(r.password, SaltRounds)
  {
    var run := SignUpSpec(users, r, forwardedFor, admitted, bcrypt, insertOk);
    var key := ClientKey(forwardedFor);
    if !admitted {
      assert run.calls == [Limit(key)];
    } else if r.email in users {
      assert run.calls == [Limit(key), FindByEmail(r.email)];
    } else {
      var record := NewRecord(r, bcrypt(r.password, SaltRounds));
      assert run.calls == [Limit(key), FindByEmail(r.email), Hash(r.password, SaltRounds), Insert(record)];
    }
  }

  /** The insert comes right after the hash and stores the hash, never the plaintext. */
  lemma SignUpInsertsHash(users: map<string, UserRecord>, r: SignUpRequest, forwardedFor: Option<string>,
      admitted: bool, bcrypt: (string, nat) -> string, insertOk: bool)
    ensures var run := SignUpSpec(users, r, forwardedFor, admitted, bcrypt, insertOk);
      forall i :: 0 <= i < |run.calls| && run.calls[i].Insert? ==>
        && i > 0 && run.calls[i - 1] == Hash(r.password, SaltRounds)
        && run.calls[i].record == NewRecord(r, bcrypt(r.password, SaltRounds))
  {
    var run := SignUpSpec(users, r, forwardedFor, admitted, bcrypt, insertOk);
    var key := ClientKey(forwardedFor);
    if !admitted {
      assert run.calls == [Limit(key)];
    } else if r.email in users {
      assert run.calls == [Limit(key), FindByEmail(r.email)];
    } else {
      var record := NewRecord(r, bcrypt(r.password, SaltRounds));
      assert run.calls == [Limit(key), FindByEmail(r.email), Hash(r.password, SaltRounds), Insert(record)];
    }
  }

  /** A refused sign-up answers one of two fixed messages, revealing nothing from the store. */
  lemma SignUpErrorMessages(users: map<string, UserRecord>, r: SignUpRequest, forwardedFor: Option<string>,
      admitted: bool, bcrypt: (string, nat) -> string, insertOk: bool)
    ensures var run := SignUpSpec(users, r, forwardedFor, admitted, bcrypt, insertOk);
      run.response.Reply? && !run.response.success ==>
        run.response.error == Some(UserExists) || run.response.error == Some(InternalError)
  {
  }

  /** A successful sign-up adds exactly one record, under the request's email, and keeps every other record. */
  lemma SignUpAddsOneRecord(users: map<string, UserRecord>, r: SignUpRequest, forwardedFor: Option<string>,
                            admitted: bool, bcrypt: (string, nat) -> string, insertOk: bool)
    requires SignUpSpec(users, r, forwardedFor, admitted, bcrypt, insertOk).response == Reply(true, None)
    ensures var after := SignUpSpec(users, r, forwardedFor, admitted, bcrypt, insertOk).users;
      && after.Keys == users.Keys + {r.email}
      && |after| == |users| + 1
      && (forall e :: e in users ==> after[e] == users[e])
      && after[r.email].password == bcrypt(r.password, SaltRounds)
  {
    var after := SignUpSpec(users, r, forwardedFor, admitted, bcrypt, insertOk).users;
    assert r.email !in users;
    assert after.Keys == users.Keys + {r.email};
    assert |after.Keys| == |users.Keys| + 1;
  }

  /** Sign-up keeps every record stored under its own email. */
  lemma SignUpKeepsKeying(users: map<string, UserRecord>, r: SignUpRequest, forwardedFor: Option<string>,
                          admitted: bool, bcrypt: (string, nat) -> string, insertOk: bool)
    requires WellKeyed(users)
    ensures WellKeyed(SignUpSpec(users, r, forwardedFor, admitted, bcrypt, insertOk).users)
  {
  }

  /** After a successful sign-up, signing up again with the same email is refused and changes nothing. */
  lemma SecondSignUpRefused(users: map<string, UserRecord>, r: SignUpRequest, r': SignUpRequest,
                            forwardedFor: Option<string>, forwardedFor': Option<string>,
                            bcrypt: (string, nat) -> string, bcrypt': (string, nat) -> string, insertOk': bool)
    requires SignUpSpec(users, r, forwardedFor, true, bcrypt, true).response == Reply(true, None)
    requires r'.email == r.email
    ensures var after := SignUpSpec(users, r, forwardedFor, true, bcrypt, true).users;
      var again := SignUpSpec(after, r', forwardedFor', true, bcrypt', insertOk');
      again.response == Reply(false, Some(UserExists)) && again.users == after
  {
  }

  /** The users table, as the sign-up action sees it. */
  class UserTable {
    var users: map<string, UserRecord>

    /** Every record is stored under its own email, so a key lookup is the email query. */
    ghost predicate Valid()
      reads this
    {
      WellKeyed(users)
    }

    constructor (users: map<string, UserRecord>)
      requires WellKeyed(users)
      ensures this.users == users
      ensures Valid()
    {
      this.users := users;
    }

    /** The sign-up action. */
    method SignUp(r: SignUpRequest, forwardedFor: Option<string>, admitted: bool,
                  bcrypt: (string, nat) -> string, insertOk: bool)
      returns (response: Response, calls: seq<Call>)
      requires Valid()
      modifies this
      ensures SignUpRun(response, users, calls) == SignUpSpec(old(users), r, forwardedFor, admitted, bcrypt, insertOk)
      ensures Valid()
    {
      SignUpKeepsKeying(users, r, forwardedFor, admitted, bcrypt, insertOk);
      ghost var spec := SignUpSpec(users, r, forwardedFor, admitted, bcrypt, insertOk);
      var ip := ClientKey(forwardedFor);
      calls := [Limit(ip)];
      if !admitted {
        assert spec == SignUpRun(Redirect(TooFastPath), users, calls);
        return Redirect(TooFastPath), calls;
      }
      calls := calls + [FindByEmail(r.email)];
      if r.email in users {
        assert spec == SignUpRun(Reply(false, Some(UserExists)), users, calls);
        return Reply(false, Some(UserExists)), calls;
      }
      var hashedPassword := bcrypt(r.password, SaltRounds);
      calls := calls + [Hash(r.password, SaltRounds)];
      var record := NewRecord(r, hashedPassword);
      calls := calls + [Insert(record)];
      if insertOk {
        assert spec == SignUpRun(Reply(true, None), users[r.email := record], calls);
        users := users[r.email := record];
        response := Reply(true, None);
      } else {
        assert spec == SignUpRun(Reply(false, Some(InternalError)), users, calls);
        response := Reply(false, Some(InternalError));
      }
    }
  }

  /** What the authentication library's sign-in call does: resolve with an optional error, or throw. */
  datatype SignInReply = Resolved(error: Option<string>) | Threw

  /** `res?.error` is truthy: present and not the empty string. */
  predicate ReportsError(reply: SignInReply) {
    reply.Resolved? && reply.error.Some? && reply.error.value != ""
  }

  /** The sign-in action. */
  method SignInWithCredentials(r: SignInRequest, forwardedFor: Option<string>, admitted: bool, reply: SignInReply)
    returns (response: Response, calls: seq<Call>)
    ensures !admitted ==> response == Redirect(TooFastPath) && calls == [Limit(ClientKey(forwardedFor))]
    ensures admitted ==> calls == [Limit(ClientKey(forwardedFor)), SignIn(r.email, r.password)]
    ensures admitted && reply.Threw? ==> response == Reply(false, Some(InternalError))
    ensures admitted && ReportsError(reply) ==> response == Reply(false, reply.error)
    ensures response == Reply(true, None) <==> admitted && reply.Resolved? && !ReportsError(reply)
  {
    var ip := ClientKey(forwardedFor);
    calls := [Limit(ip)];
    if !admitted {
      return Redirect(TooFastPath), calls;
    }
    calls := calls + [SignIn(r.email, r.password)];
    match reply
    case Threw =>
      response := Reply(false, Some(InternalError));
    case Resolved(error) =>
      if ReportsError(reply) {
        response := Reply(false, error);
      } else {
        response := Reply(true, None);
      }
  }
}

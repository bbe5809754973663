/** `POST /api/auth/signup` (src/app/api/auth/signup/route.ts): required name,
    email and password, duplicate emails refused, and a new unverified USER
    stored with the hash of the password. The hash function is a parameter. */
module SignupRoute {
  import opened Wrappers
  import opened JsText
  import opened Store

  datatype SignupBody = SignupBody(name: Option<string>, email: Option<string>, password: Option<string>)

  /** The `user` object of the success reply: no password. */
  datatype NewAccount = NewAccount(id: nat, name: Option<string>, email: string, role: string)

  datatype SignedUp = SignedUp(message: string, user: NewAccount)

  const Missing: string := "تمام فیلدها الزامی هستند."
  const Duplicate: string := "این ایمیل قبلاً ثبت شده است."
  const Welcome: string := "ثبت‌نام با موفقیت انجام شد ✅"

  /** The handler: 400 unless name, email and password are all truthy; 409
      when the email is taken; otherwise one new user is stored under the
      email with the next id, and 201 carries its id, name, email and role. */
  function Signup(body: SignupBody, hash: string -> string, db: Db): (r: (Reply<SignedUp>, Db))
    ensures !(Truthy(body.name) && Truthy(body.email) && Truthy(body.password)) ==> r == (Err(400, Missing), db)
    ensures Truthy(body.name) && Truthy(body.email) && Truthy(body.password) && body.email.value in db.users ==>
      r == (Err(409, Duplicate), db)
    ensures r.0.Ok? <==>
      Truthy(body.name) && Truthy(body.email) && Truthy(body.password) && body.email.value !in db.users
    ensures r.0.Ok? ==>
      var email := body.email.value;
      && r.0.status == 201
      && r.1.users.Keys == db.users.Keys + {email}
      && (forall e :: e in db.users ==> r.1.users[e] == db.users[e])
      && r.1.users[email] == User(db.nextUserId, body.name, email, Some(hash(body.password.value)),
                                  None, None, None, false, "USER")
      && r.0.body.user == NewAccount(db.nextUserId, body.name, email, "USER")
      && r.1.posts == db.posts && r.1.properties == db.properties
  {
    if !(Truthy(body.name) && Truthy(body.email) && Truthy(body.password)) then (Err(400, Missing), db)
    else if body.email.value in db.users then (Err(409, Duplicate), db)
    else
      var u := User(db.nextUserId, body.name, body.email.value, Some(hash(body.password.value)),
                    None, None, None, false, "USER");
      var view := NewAccount(u.id, u.name, u.email, u.role);
      (Ok(201, SignedUp(Welcome, view)),
       db.(users := db.users[u.email := u], nextUserId := db.nextUserId + 1))
  }

  /** A signup adds exactly one user, keeps the store well formed (so emails
      stay unique and the new id is unused), and the new id is fresh. */
  lemma SignupPreservesWellFormed(body: SignupBody, hash: string -> string, db: Db)
    requires WellFormed(db)
    ensures WellFormed(Signup(body, hash, db).1)
    ensures var r := Signup(body, hash, db);
      r.0.Ok? ==>
        && |r.1.users| == |db.users| + 1
        && forall e :: e in db.users ==> db.users[e].id != r.0.body.user.id
  {
    var r := Signup(body, hash, db);
    if r.0.Ok? {
      var email := body.email.value;
      assert r.1.users.Keys == db.users.Keys + {email};
      assert email !in db.users.Keys;
    }
  }

  /** Signing up twice with the same email: the second attempt is refused with
      409 and changes nothing. */
  lemma SecondSignupConflicts(body: SignupBody, hash: string -> string, db: Db)
    requires Signup(body, hash, db).0.Ok?
    ensures var db1 := Signup(body, hash, db).1;
      Signup(body, hash, db1) == (Err(409, Duplicate), db1)
  {
  }

  /** The stored password is whatever the hash gives, so two passwords are
      told apart exactly when their hashes are. */
  lemma StoredPasswordIsHash(body: SignupBody, other: string, hash: string -> string, db: Db)
    requires Signup(body, hash, db).0.Ok?
    ensures var r1 := Signup(body, hash, db).1;
      var r2 := Signup(body.(password := Some(other)), hash, db).1;
      other != "" ==>
        (r1 == r2 <==> hash(body.password.value) == hash(other))
  {
    var email := body.email.value;
    var r1 := Signup(body, hash, db).1;
    var r2 := Signup(body.(password := Some(other)), hash, db).1;
    if other != "" && r1 == r2 {
      assert r1.users[email].password == r2.users[email].password;
    }
  }
}

/** `GET` and `PUT /api/users/profile` (src/app/api/users/profile/route.ts):
    the signed-in user reads a password-free projection of their record with
    relation counts, and updates name, phone, bio and image. */
module ProfileRoute {
  import opened Wrappers
  import opened JsText
  import opened Decimal
  import opened Store

  /** The fields both handlers select: everything but the password. */
  datatype Account = Account(
    id: nat,
    name: Option<string>,
    email: string,
    phone: Option<string>,
    image: Option<string>,
    bio: Option<string>,
    isVerified: bool,
    role: string)

  /** What `GET` returns: the account and `_count` of properties and posts. */
  datatype ProfileView = ProfileView(account: Account, propertyCount: nat, postCount: nat)

  function AccountOf(u: User): Account {
    Account(u.id, u.name, u.email, u.phone, u.image, u.bio, u.isVerified, u.role)
  }

  /** `GET`: 401 without a session email, 404 when the email has no user,
      otherwise 200 with the projection of that user. */
  function Get(session: Option<string>, db: Db): (r: Reply<ProfileView>)
    ensures !Truthy(session) ==> r == Err(401, "Unauthorized")
    ensures Truthy(session) && session.value !in db.users ==> r == Err(404, "User not found")
    ensures Truthy(session) && session.value in db.users ==> r.Ok?
    ensures r.Ok? ==>
      && r.status == 200
      && session.value in db.users
      && r.body.account == AccountOf(db.users[session.value])
      && r.body.propertyCount == CountOwned(db.properties, db.users[session.value].id)
      && r.body.postCount == CountAuthored(db.posts, db.users[session.value].id)
  {
    if !Truthy(session) then Err(401, "Unauthorized")
    else if session.value !in db.users then Err(404, "User not found")
    else
      var u := db.users[session.value];
      Ok(200, ProfileView(AccountOf(u), CountOwned(db.properties, u.id), CountAuthored(db.posts, u.id)))
  }

  /** The projection leaves the password out: two stores that differ only in a
      user's password give the same `GET` reply. */
  lemma GetIgnoresPassword(session: Option<string>, db: Db, email: string, other: Option<string>)
    requires email in db.users
    ensures Get(session, db.(users := db.users[email := db.users[email].(password := other)])) == Get(session, db)
  {
  }

  /** For a well-formed store, the projection is the stored record minus its password. */
  lemma GetShowsStoredRecord(session: Option<string>, db: Db)
    requires WellFormed(db)
    requires Get(session, db).Ok?
    ensures var a := Get(session, db).body.account; var u := db.users[session.value];
      && a.email == session.value
      && u == User(a.id, a.name, a.email, u.password, a.phone, a.image, a.bio, a.isVerified, a.role)
  {
  }

  /** A JSON field where `undefined` and `null` are told apart (the handler
      writes `bio` whenever it is not `undefined`, so `null` clears it). */
  datatype Field<T> = Absent | Null | Present(value: T)

  /** The PUT body. */
  datatype ProfilePatch = ProfilePatch(
    name: Option<string>,
    phone: Option<string>,
    bio: Field<string>,
    image: Option<string>)

  const NameError: string := "نام باید حداقل ۲ کاراکتر باشد"
  const PhoneError: string := "شماره تلفن معتبر نیست"
  const PhoneTaken: string := "شماره تلفن قبلاً استفاده شده است"

  /** `/^09[0-9]{9}$/`: "09" and nine more ASCII digits, nothing else. */
  predicate PhoneMatches(p: string) {
    |p| == 11 && p[0] == '0' && p[1] == '9' && forall i :: 2 <= i < 11 ==> IsDigit(p[i])
  }

  /** `name && name.length < 2`. */
  predicate NameRejected(name: Option<string>) {
    Truthy(name) && JsLength(name.value) < 2
  }

  /** `phone && !/^09[0-9]{9}$/.test(phone)`. */
  predicate PhoneRejected(phone: Option<string>) {
    Truthy(phone) && !PhoneMatches(phone.value)
  }

  /** An accepted phone is exactly eleven ASCII digits beginning "09". */
  lemma AcceptedPhoneShape(phone: Option<string>)
    requires Truthy(phone) && !PhoneRejected(phone)
    ensures |phone.value| == 11 && AllDigits(phone.value) && phone.value[..2] == "09"
  {
    assert IsDigit(phone.value[0]) && IsDigit(phone.value[1]);
  }

  /** The phone rule accepts "09123456789" and refuses "123456" and
      "09abc456789". */
  lemma PhoneExamples()
    ensures PhoneMatches("09123456789")
    ensures !PhoneMatches("123456") && !PhoneMatches("09abc456789")
  {
    assert !IsDigit("09abc456789"[2]);
  }

  /** The partial update: name, phone and image only when truthy, bio whenever
      it is not `undefined`. */
  function Merge(u: User, patch: ProfilePatch): (v: User)
    ensures v.id == u.id && v.email == u.email && v.password == u.password
    ensures v.isVerified == u.isVerified && v.role == u.role
    ensures v.name == (if Truthy(patch.name) then patch.name else u.name)
    ensures v.phone == (if Truthy(patch.phone) then patch.phone else u.phone)
    ensures v.image == (if Truthy(patch.image) then patch.image else u.image)
    ensures v.bio == match patch.bio
      case Absent => u.bio
      case Null => None
      case Present(b) => Some(b)
  {
    var name := if Truthy(patch.name) then patch.name else u.name;
    var phone := if Truthy(patch.phone) then patch.phone else u.phone;
    var image := if Truthy(patch.image) then patch.image else u.image;
    var bio := match patch.bio
      case Absent => u.bio
      case Null => None
      case Present(b) => Some(b);
    u.(name := name, phone := phone, image := image, bio := bio)
  }

  /** Applying the same update twice is applying it once. */
  lemma MergeIdempotent(u: User, patch: ProfilePatch)
    ensures Merge(Merge(u, patch), patch) == Merge(u, patch)
  {
  }

  /** Another user already holds the phone being written (Prisma's P2002). */
  predicate PhoneConflict(db: Db, email: string, patch: ProfilePatch) {
    Truthy(patch.phone) && exists e :: e in db.users && e != email && db.users[e].phone == patch.phone
  }

  /** `PUT`: 401, then the name check, then the phone check (each 400); a
      missing record makes the update throw (500); a phone held by another
      user is the unique-constraint error (400); otherwise the merged record is
      stored and its projection returned with 200. */
  function Put(session: Option<string>, patch: ProfilePatch, db: Db): (r: (Reply<Account>, Db))
    ensures !Truthy(session) ==> r.0 == Err(401, "Unauthorized")
    ensures Truthy(session) && NameRejected(patch.name) ==> r.0 == Err(400, NameError)
    ensures Truthy(session) && !NameRejected(patch.name) && PhoneRejected(patch.phone) ==> r.0 == Err(400, PhoneError)
    ensures Truthy(session) && !NameRejected(patch.name) && !PhoneRejected(patch.phone) && session.value !in db.users ==>
      r.0 == Err(500, "Internal server error")
    ensures
      && Truthy(session) && !NameRejected(patch.name) && !PhoneRejected(patch.phone)
      && session.value in db.users && PhoneConflict(db, session.value, patch)
      ==> r.0 == Err(400, PhoneTaken)
    ensures r.0.Err? ==> r.1 == db
    ensures r.0.Ok? <==>
      && Truthy(session) && !NameRejected(patch.name) && !PhoneRejected(patch.phone)
      && session.value in db.users && !PhoneConflict(db, session.value, patch)
    ensures r.0.Ok? ==>
      && r.0.status == 200
      && r.1 == db.(users := db.users[session.value := Merge(db.users[session.value], patch)])
      && r.0.body == AccountOf(Merge(db.users[session.value], patch))
  {
    if !Truthy(session) then (Err(401, "Unauthorized"), db)
    else if NameRejected(patch.name) then (Err(400, NameError), db)
    else if PhoneRejected(patch.phone) then (Err(400, PhoneError), db)
    else if session.value !in db.users then (Err(500, "Internal server error"), db)
    else if PhoneConflict(db, session.value, patch) then (Err(400, PhoneTaken), db)
    else
      var v := Merge(db.users[session.value], patch);
      (Ok(200, AccountOf(v)), db.(users := db.users[session.value := v]))
  }

  /** An update keeps the store well formed: the email key is unchanged and no
      two users end up with the same phone. */
  lemma PutPreservesWellFormed(session: Option<string>, patch: ProfilePatch, db: Db)
    requires WellFormed(db)
    ensures WellFormed(Put(session, patch, db).1)
  {
    var r := Put(session, patch, db);
    if r.0.Ok? {
      var email := session.value;
      var users := r.1.users;
      forall e1, e2 | e1 in users && e2 in users && e1 != e2 && users[e1].phone.Some?
        ensures users[e1].phone != users[e2].phone
      {
        if e1 != email && e2 != email {
          assert users[e1] == db.users[e1] && users[e2] == db.users[e2];
        }
      }
    }
  }

  /** Sending the same update again returns the same record and changes nothing more. */
  lemma PutIdempotent(session: Option<string>, patch: ProfilePatch, db: Db)
    requires Put(session, patch, db).0.Ok?
    ensures var r := Put(session, patch, db); Put(session, patch, r.1) == r
  {
    var r := Put(session, patch, db);
    var email := session.value;
    MergeIdempotent(db.users[email], patch);
    if Truthy(patch.phone) {
      forall e | e in r.1.users && e != email
        ensures r.1.users[e].phone != patch.phone
      {
        assert r.1.users[e] == db.users[e];
      }
    }
    assert r.1.users[email := Merge(r.1.users[email], patch)] == r.1.users;
  }
}

/** The records the routes read and write (the User, Post and Property tables)
    and the store that holds them, keyed the way the routes look them up: users
    by their unique email, posts and properties in creation order. */
module Store {
  import opened Wrappers

  datatype User = User(
    id: nat,
    name: Option<string>,
    email: string,
    password: Option<string>,
    phone: Option<string>,
    image: Option<string>,
    bio: Option<string>,
    isVerified: bool,
    role: string)

  datatype Post = Post(
    id: nat,
    title: string,
    content: string,
    category: Option<string>,
    published: bool,
    imageUrl: Option<string>,
    videoUrl: Option<string>,
    embedCode: Option<string>,
    authorId: nat)

  datatype Property = Property(
    id: nat,
    title: string,
    description: string,
    propertyType: string,
    dealType: string,
    price: Option<int>,
    rentPrice: Option<int>,
    depositPrice: Option<int>,
    area: real,
    roomCount: Option<int>,
    bathroomCount: Option<int>,
    floor: Option<int>,
    totalFloors: Option<int>,
    yearBuilt: Option<int>,
    parking: bool,
    elevator: bool,
    storage: bool,
    furnished: bool,
    status: string,
    location: string,
    images: seq<string>,
    ownerId: int)

  /** The database: users by email, and the counters that hand out fresh ids. */
  datatype Db = Db(
    users: map<string, User>,
    posts: seq<Post>,
    properties: seq<Property>,
    nextUserId: nat,
    nextPostId: nat,
    nextPropertyId: nat)

  /** The schema's constraints: each user is filed under its own email; user,
      post and property ids are each below their counter and distinct within
      their table; and a phone number belongs to at most one user. */
  predicate WellFormed(db: Db) {
    && (forall e :: e in db.users ==> db.users[e].email == e && db.users[e].id < db.nextUserId)
    && (forall e1, e2 :: e1 in db.users && e2 in db.users && e1 != e2 ==>
          db.users[e1].id != db.users[e2].id)
    && (forall e1, e2 :: e1 in db.users && e2 in db.users && e1 != e2 && db.users[e1].phone.Some? ==>
          db.users[e1].phone != db.users[e2].phone)
    && (forall i :: 0 <= i < |db.posts| ==> db.posts[i].id < db.nextPostId)
    && (forall i :: 0 <= i < |db.properties| ==> db.properties[i].id < db.nextPropertyId)
    && (forall i, j :: 0 <= i < j < |db.posts| ==> db.posts[i].id != db.posts[j].id)
    && (forall i, j :: 0 <= i < j < |db.properties| ==> db.properties[i].id != db.properties[j].id)
  }

  /** Some user has this id (the foreign-key test for `ownerId`). */
  predicate HasUserId(db: Db, id: int) {
    exists e :: e in db.users && db.users[e].id == id
  }

  /** How many properties name `owner` as their owner (`_count.properties`). */
  function CountOwned(properties: seq<Property>, owner: nat): (n: nat)
    ensures n <= |properties|
    ensures n == 0 <==> forall i :: 0 <= i < |properties| ==> properties[i].ownerId != owner
  {
    if properties == [] then 0
    else
      var last := if properties[|properties| - 1].ownerId == owner then 1 else 0;
      CountOwned(properties[..|properties| - 1], owner) + last
  }

  /** How many posts name `author` as their author (`_count.posts`). */
  function CountAuthored(posts: seq<Post>, author: nat): (n: nat)
    ensures n <= |posts|
    ensures n == 0 <==> forall i :: 0 <= i < |posts| ==> posts[i].authorId != author
  {
    if posts == [] then 0
    else
      var last := if posts[|posts| - 1].authorId == author then 1 else 0;
      CountAuthored(posts[..|posts| - 1], author) + last
  }

  /** A JSON reply: a status with the body, or a status with `{ error }`. */
  datatype Reply<T> = Ok(status: nat, body: T) | Err(status: nat, error: string)
}

/** `POST /api/properties` (src/app/api/properties/route.ts): six required
    fields, defaults for the flags, status, images and owner, and everything
    else copied from the body into a new Property row. */
module PropertiesRoute {
  import opened Wrappers
  import opened JsText
  import opened Store

  /** The JSON body; every field may be missing or null. */
  datatype PropertyBody = PropertyBody(
    title: Option<string>,
    description: Option<string>,
    propertyType: Option<string>,
    dealType: Option<string>,
    price: Option<int>,
    rentPrice: Option<int>,
    depositPrice: Option<int>,
    area: Option<real>,
    roomCount: Option<int>,
    bathroomCount: Option<int>,
    floor: Option<int>,
    totalFloors: Option<int>,
    yearBuilt: Option<int>,
    parking: Option<bool>,
    elevator: Option<bool>,
    storage: Option<bool>,
    furnished: Option<bool>,
    status: Option<string>,
    location: Option<string>,
    images: Option<seq<string>>,
    ownerId: Option<int>)

  const MissingFields: string := "فیلدهای ضروری را پر کنید"
  const CreateFailed: string := "خطا در ایجاد ملک جدید"

  /** The required-field test: the five strings truthy and `area` truthy,
      so an area of 0 counts as missing. */
  predicate HasRequired(body: PropertyBody) {
    && Truthy(body.title) && Truthy(body.description) && Truthy(body.propertyType)
    && Truthy(body.dealType) && body.area.Some? && body.area.value != 0.0 && Truthy(body.location)
  }

  /** `flag || false`. */
  function Flag(b: Option<bool>): (r: bool)
    ensures r <==> b == Some(true)
  {
    b.GetOr(false)
  }

  /** `body.ownerId || 1`: a missing owner and owner 0 both become 1. */
  function Owner(o: Option<int>): (r: int)
    ensures r != 0
    ensures o.Some? && o.value != 0 ==> r == o.value
  {
    if o.Some? && o.value != 0 then o.value else 1
  }

  /** The row built from a body that has every required field. */
  function Build(id: nat, body: PropertyBody): (p: Property)
    requires HasRequired(body)
    ensures p.id == id
    ensures p.title == body.title.value && p.description == body.description.value
    ensures p.propertyType == body.propertyType.value && p.dealType == body.dealType.value
    ensures p.location == body.location.value && p.area == body.area.value
    ensures p.price == body.price && p.rentPrice == body.rentPrice && p.depositPrice == body.depositPrice
    ensures p.roomCount == body.roomCount && p.bathroomCount == body.bathroomCount
    ensures p.floor == body.floor && p.totalFloors == body.totalFloors && p.yearBuilt == body.yearBuilt
    ensures p.parking == (body.parking == Some(true)) && p.elevator == (body.elevator == Some(true))
    ensures p.storage == (body.storage == Some(true)) && p.furnished == (body.furnished == Some(true))
    ensures p.status == (if Truthy(body.status) then body.status.value else "active")
    ensures p.images == body.images.GetOr([])
    ensures p.ownerId == Owner(body.ownerId)
  {
    Property(
      id,
      body.title.value, body.description.value, body.propertyType.value, body.dealType.value,
      body.price, body.rentPrice, body.depositPrice,
      body.area.value,
      body.roomCount, body.bathroomCount, body.floor, body.totalFloors, body.yearBuilt,
      Flag(body.parking), Flag(body.elevator), Flag(body.storage), Flag(body.furnished),
      if Truthy(body.status) then body.status.value else "active",
      body.location.value,
      body.images.GetOr([]),
      Owner(body.ownerId))
  }

  /** The handler: 400 when a required field is missing; 500 when the owner
      is not a user (the foreign key fails and the error is caught); otherwise
      the row is appended with the next id and returned with 201. */
  function Create(body: PropertyBody, db: Db): (r: (Reply<Property>, Db))
    ensures !HasRequired(body) ==> r == (Err(400, MissingFields), db)
    ensures HasRequired(body) && !HasUserId(db, Owner(body.ownerId)) ==> r == (Err(500, CreateFailed), db)
    ensures r.0.Ok? <==> HasRequired(body) && HasUserId(db, Owner(body.ownerId))
    ensures r.0.Ok? ==>
      && r.0.status == 201
      && r.0.body == Build(db.nextPropertyId, body)
      && r.1 == db.(properties := db.properties + [r.0.body], nextPropertyId := db.nextPropertyId + 1)
  {
    if !HasRequired(body) then (Err(400, MissingFields), db)
    else if !HasUserId(db, Owner(body.ownerId)) then (Err(500, CreateFailed), db)
    else
      var p := Build(db.nextPropertyId, body);
      (Ok(201, p), db.(properties := db.properties + [p], nextPropertyId := db.nextPropertyId + 1))
  }

  /** A created property has a fresh id, keeps the store well formed, and
      reads back (last in the table) with its images in the order sent. */
  lemma CreateFreshAndOrdered(body: PropertyBody, db: Db)
    requires WellFormed(db)
    requires Create(body, db).0.Ok?
    ensures var r := Create(body, db);
      && WellFormed(r.1)
      && (forall i :: 0 <= i < |db.properties| ==> db.properties[i].id != r.0.body.id)
      && r.1.properties[|r.1.properties| - 1].images == body.images.GetOr([])
  {
  }

  /** A rejected body leaves the table as it was. */
  lemma RejectedLeavesStore(body: PropertyBody, db: Db)
    requires WellFormed(db)
    ensures WellFormed(Create(body, db).1)
    ensures Create(body, db).0.Err? ==> Create(body, db).1.properties == db.properties
  {
  }

  /** Images come back in the order sent: `["a.jpg", "b.jpg"]` stays in that order. */
  lemma ImagesKeepOrder(body: PropertyBody, db: Db)
    requires body.images == Some(["a.jpg", "b.jpg"])
    requires Create(body, db).0.Ok?
    ensures Create(body, db).0.body.images[0] == "a.jpg" && Create(body, db).0.body.images[1] == "b.jpg"
  {
  }

  /** The new property raises its owner's property count by one and leaves
      every other user's count alone. */
  lemma {:induction false} CreateCountsForOwner(body: PropertyBody, db: Db, who: nat)
    requires Create(body, db).0.Ok?
    ensures var r := Create(body, db);
      CountOwned(r.1.properties, who)
        == CountOwned(db.properties, who) + (if who == r.0.body.ownerId then 1 else 0)
  {
    var r := Create(body, db);
    assert r.1.properties[..|r.1.properties| - 1] == db.properties;
  }
}

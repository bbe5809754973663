/** What the pages show of stored data: `getImagePath` (one function, copied
    into the navbar, the listings grid, the profile page and the profile editor),
    the navbar's fallbacks and active link, the listing card, the profile
    page's labels, and the dashboard's greeting name. */
module Display {
  import opened Wrappers
  import opened JsText
  import opened Decimal
  import UploadRoute
  import Store
  import ProfileRoute
  import SignupRoute
  import PriceInput

  const ApiImages: string := "/api/images/profiles/"

  /** `getImagePath`: no image for a missing or empty name; a name starting
      with "http" is taken as a full URL; any other name is served by the
      image API. */
  function ImagePath(name: Option<string>): (r: Option<string>)
    ensures r.None? <==> !Truthy(name)
    ensures r.Some? ==> r.value != ""
    ensures Truthy(name) && StartsWith(name.value, "http") ==> r == name
    ensures Truthy(name) && !StartsWith(name.value, "http") ==> r == Some(ApiImages + name.value)
  {
    if !Truthy(name) then None
    else if StartsWith(name.value, "http") then name
    else Some(ApiImages + name.value)
  }

  /** Reads the stored name back out of a URL that `ImagePath` made. */
  function StoredName(url: string): string {
    if StartsWith(url, ApiImages) then url[|ApiImages|..] else url
  }

  /** `StoredName` undoes `ImagePath`, so distinct names never share a URL. */
  lemma ImagePathRoundTrip(name: string)
    requires name != ""
    ensures StoredName(ImagePath(Some(name)).value) == name
  {
    if !StartsWith(name, "http") {
      assert (ApiImages + name)[..|ApiImages|] == ApiImages;
    } else {
      assert name[0] == 'h' && ApiImages[0] == '/';
    }
  }

  /** The "http" test is a plain prefix test: a stored file name such as
      "httpx.jpg" is used as if it were a URL. */
  lemma HttpNamedFileIsNotRouted()
    ensures ImagePath(Some("httpx.jpg")) == Some("httpx.jpg")
  {
    assert "httpx.jpg"[..4] == "http";
  }

  /** Every name the upload route generates is served through the image API,
      and the part after the API prefix is the name that was written under
      the storage directory. */
  lemma UploadedNameIsRouted(timestamp: nat, random: string, ext: string)
    ensures var n := UploadRoute.GeneratedName(timestamp, random, ext);
      && ImagePath(Some(n)) == Some(ApiImages + n)
      && ImagePath(Some(n)).value[|ApiImages|..] == n
  {
    var n := UploadRoute.GeneratedName(timestamp, random, ext);
    assert n[..4] == "prof";
  }

  /** `a || b || null`: the navbar's name, email and image, profile first,
      then session, else nothing. */
  function Fallback(profile: Option<string>, session: Option<string>): (r: Option<string>)
    ensures r.None? || Truthy(r)
    ensures Truthy(profile) ==> r == profile
    ensures !Truthy(profile) && Truthy(session) ==> r == session
    ensures r.None? <==> !Truthy(profile) && !Truthy(session)
  {
    if Truthy(profile) then profile else if Truthy(session) then session else None
  }

  /** The navbar reads the profile back after an update: once a name has been
      saved, it is the name shown, whatever the session carries. */
  lemma NavbarShowsSavedName(session: Option<string>, patch: ProfileRoute.ProfilePatch, db: Store.Db,
                             sessionName: Option<string>)
    requires ProfileRoute.Put(session, patch, db).0.Ok? && Truthy(patch.name)
    ensures var reply := ProfileRoute.Get(session, ProfileRoute.Put(session, patch, db).1);
      && reply.Ok?
      && Fallback(reply.body.account.name, sessionName) == patch.name
  {
  }

  /** Without a saved name the navbar falls back to the session's name, and
      shows no name only when neither is set. */
  lemma NavbarFallsBackToSession(session: Option<string>, db: Store.Db, sessionName: Option<string>)
    requires ProfileRoute.Get(session, db).Ok?
    requires !Truthy(db.users[session.value].name)
    ensures var reply := ProfileRoute.Get(session, db);
      && Fallback(reply.body.account.name, sessionName) == (if Truthy(sessionName) then sessionName else None)
  {
  }

  datatype NavLink = NavLink(caption: string, href: string)

  const NavLinks: seq<NavLink> := [
    NavLink("صفحه اصلی", "/"),
    NavLink("املاک", "/listings"),
    NavLink("درباره ما", "/about"),
    NavLink("تماس با ما", "/contact")
  ]

  /** A link is highlighted when the path is exactly its href. */
  predicate IsActive(pathname: string, link: NavLink) {
    pathname == link.href
  }

  /** The links are distinct, so at most one is highlighted, and none on a
      sub-page such as "/about/team". */
  lemma AtMostOneActive(pathname: string, i: nat, j: nat)
    requires i < |NavLinks| && j < |NavLinks|
    requires IsActive(pathname, NavLinks[i]) && IsActive(pathname, NavLinks[j])
    ensures i == j
  {
  }

  const Placeholder: string := "/images/placeholder-avatar.jpg"

  /** A listing card's picture: the first image through `getImagePath`, or
      the placeholder when there is none or it is empty. */
  function CoverImage(images: seq<string>): (r: string)
    ensures images == [] || images[0] == "" ==> r == Placeholder
    ensures images != [] && images[0] != "" ==> StoredName(r) == images[0]
    ensures images != [] && images[0] != "" ==> Some(r) == ImagePath(Some(images[0]))
  {
    var first := if images == [] then None else Some(images[0]);
    if images != [] && images[0] != "" then
      ImagePathRoundTrip(images[0]);
      ImagePath(first).GetOr(Placeholder)
    else ImagePath(first).GetOr(Placeholder)
  }

  /** `listing.price && …`: the badge is shown for a price that is present and non-zero. */
  predicate ShowsPrice(price: Option<int>) {
    price.Some? && price.value != 0
  }

  /** The badge and the price field of the new-property form agree: a price is
      shown exactly when the form's display text for it is not empty. */
  lemma ShowsPriceLikeForm(n: nat)
    ensures ShowsPrice(Some(n)) <==> PriceInput.FormatPrice(Some(n)) != ""
    ensures !ShowsPrice(None) && PriceInput.FormatPrice(None) == ""
  {
  }

  /** What `{listing.price && (<badge/>)}` leaves in the card's corner: nothing
      for a missing price, the badge for a non-zero price, and for a price of 0
      the number itself, since React renders a falsy number as text. */
  datatype PriceSlot = NoBadge | StrayZero | Badge(price: int)

  function PriceCorner(price: Option<int>): (s: PriceSlot)
    ensures s.Badge? <==> ShowsPrice(price)
    ensures s.Badge? ==> s.price == price.value
    ensures s == StrayZero <==> price == Some(0)
    ensures s == NoBadge <==> price.None?
  {
    match price
    case None => NoBadge
    case Some(p) => if p == 0 then StrayZero else Badge(p)
  }

  /** A listing priced 0 shows a bare "0" over its picture. */
  lemma ZeroPriceLeavesStrayZero()
    ensures PriceCorner(Some(0)) == StrayZero
    ensures !ShowsPrice(Some(0))
  {
  }

  /** The corner without the stray zero, as a conditional with `null` in the
      else branch would render it: the badge exactly when the price is shown,
      and otherwise nothing. */
  function FixedPriceCorner(price: Option<int>): (s: PriceSlot)
    ensures s != StrayZero
    ensures s.Badge? <==> ShowsPrice(price)
    ensures s.Badge? ==> s.price == price.value
    ensures price != Some(0) ==> s == PriceCorner(price)
  {
    if ShowsPrice(price) then Badge(price.value) else NoBadge
  }

  /** `/properties/${String(listing.id)}`. */
  function DetailHref(id: nat): string {
    "/properties/" + NatToString(id)
  }

  /** The detail link names the listing: the id is read back from the link,
      so distinct listings link to distinct pages. */
  lemma DetailHrefNamesListing(id: nat)
    ensures StartsWith(DetailHref(id), "/properties/")
    ensures AllDigits(DetailHref(id)[12..]) && DigitsValue(DetailHref(id)[12..]) == id
  {
    assert DetailHref(id)[12..] == NatToString(id);
    ReadWritten(id);
  }

  lemma DetailHrefInjective(a: nat, b: nat)
    requires DetailHref(a) == DetailHref(b)
    ensures a == b
  {
    DetailHrefNamesListing(a);
    DetailHrefNamesListing(b);
  }

  /** The profile page's role line: "ADMIN" is the administrator, every other
      role the regular user. */
  function RoleLabel(role: string): (shown: string)
    ensures shown == "مدیر" <==> role == "ADMIN"
    ensures shown != "مدیر" ==> shown == "کاربر عادی"
  {
    if role == "ADMIN" then "مدیر" else "کاربر عادی"
  }

  /** Every account signup creates has the role "USER", so the profile page
      labels it a regular user. */
  lemma SignedUpUserIsRegular(body: SignupRoute.SignupBody, hash: string -> string, db: Store.Db)
    requires SignupRoute.Signup(body, hash, db).0.Ok?
    ensures var r := SignupRoute.Signup(body, hash, db);
      var reply := ProfileRoute.Get(body.email, r.1);
      && reply.Ok?
      && RoleLabel(reply.body.account.role) == "کاربر عادی"
      && RoleLabel(r.0.body.user.role) == "کاربر عادی"
  {
  }

  /** `value || fallback` for text shown on the profile page: the header name
      falls back to "بدون نام", the details' name and phone to "ثبت نشده". */
  function OrText(value: Option<string>, fallback: string): (shown: string)
    requires fallback != ""
    ensures shown != ""
    ensures Truthy(value) ==> shown == value.value
    ensures !Truthy(value) ==> shown == fallback
  {
    if Truthy(value) then value.value else fallback
  }

  const NoName: string := "بدون نام"
  const NotSet: string := "ثبت نشده"

  /** The header, the detail rows and the bio block of the profile page. */
  datatype ProfileText = ProfileText(header: string, nameRow: string, phoneRow: string, bio: Option<string>)

  function ProfileLines(name: Option<string>, phone: Option<string>, bio: Option<string>): (t: ProfileText)
    ensures t.header != "" && t.nameRow != "" && t.phoneRow != ""
    ensures !Truthy(name) ==> t.header == NoName && t.nameRow == NotSet
    ensures Truthy(name) ==> t.header == name.value && t.nameRow == name.value
    ensures Truthy(phone) ==> t.phoneRow == phone.value
    ensures !Truthy(phone) ==> t.phoneRow == NotSet
    ensures t.bio.Some? <==> Truthy(bio)
    ensures Truthy(bio) ==> t.bio == bio
  {
    ProfileText(OrText(name, NoName), OrText(name, NotSet), OrText(phone, NotSet),
                if Truthy(bio) then bio else None)
  }

  /** The profile page shows what `GET` read from the store: the stored name in
      the header and the name row, and the stored phone, each falling back to
      its placeholder when the stored value is empty or missing. */
  lemma ProfileShowsStoredRecord(session: Option<string>, db: Store.Db)
    requires ProfileRoute.Get(session, db).Ok?
    ensures var u := db.users[session.value];
      var a := ProfileRoute.Get(session, db).body.account;
      var t := ProfileLines(a.name, a.phone, a.bio);
      && t.header == OrText(u.name, NoName)
      && t.nameRow == OrText(u.name, NotSet)
      && t.phoneRow == OrText(u.phone, NotSet)
      && (t.bio.Some? <==> Truthy(u.bio))
  {
  }

  /** After an accepted update that sets a phone, the profile page shows that
      phone. */
  lemma ProfileShowsSavedPhone(session: Option<string>, patch: ProfileRoute.ProfilePatch, db: Store.Db)
    requires ProfileRoute.Put(session, patch, db).0.Ok? && Truthy(patch.phone)
    ensures var reply := ProfileRoute.Get(session, ProfileRoute.Put(session, patch, db).1);
      && reply.Ok?
      && ProfileLines(reply.body.account.name, reply.body.account.phone, reply.body.account.bio).phoneRow
         == patch.phone.value
  {
  }

  /** The session's user as the dashboard reads it. */
  datatype SessionUser = SessionUser(name: Option<string>, email: Option<string>)

  datatype DashboardView = SignInPrompt | Dashboard(userName: string, userEmail: Option<string>)

  const SignInMessage: string := "برای دیدن داشبورد باید وارد شوید."
  const DefaultUserName: string := "کاربر"

  /** `name || email?.split('@')[0] || "کاربر"`. */
  function UserName(u: SessionUser): (n: string)
    ensures n != ""
    ensures Truthy(u.name) ==> n == u.name.value
    ensures !Truthy(u.name) ==> '@' !in n
    ensures !Truthy(u.name) && u.email.Some? && BeforeFirst(u.email.value, '@') != "" ==>
      n == BeforeFirst(u.email.value, '@')
    ensures !Truthy(u.name) && (u.email.None? || BeforeFirst(u.email.value, '@') == "") ==> n == DefaultUserName
  {
    if Truthy(u.name) then u.name.value
    else if u.email.Some? && BeforeFirst(u.email.value, '@') != "" then BeforeFirst(u.email.value, '@')
    else DefaultUserName
  }

  /** A session without a name greets the user by the local part of the email. */
  lemma UserNameFromEmail(local: string, domain: string)
    requires local != "" && '@' !in local
    ensures UserName(SessionUser(None, Some(local + "@" + domain))) == local
  {
    BeforeFirstOfJoin(local, '@', domain);
  }

  /** The server-rendered dashboard: only the sign-in message without a
      session, otherwise the client part with the greeting name and email. */
  function DashboardPage(session: Option<SessionUser>): (v: DashboardView)
    ensures v == SignInPrompt <==> session.None?
    ensures v.Dashboard? ==> v.userName != "" && v.userEmail == session.value.email
  {
    match session
    case None => SignInPrompt
    case Some(u) => Dashboard(UserName(u), u.email)
  }
}

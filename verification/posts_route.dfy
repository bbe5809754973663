/** `POST /api/posts` (src/app/api/posts/route.ts): a signed-in user creates a
    post; title and content are validated after trimming, the optional text
    fields are trimmed or cleared, and the author comes from the session. */
module PostsRoute {
  import opened Wrappers
  import opened JsText
  import opened Store

  /** The JSON body; every field may be missing or null. */
  datatype PostBody = PostBody(
    title: Option<string>,
    content: Option<string>,
    category: Option<string>,
    published: Option<bool>,
    imageUrl: Option<string>,
    videoUrl: Option<string>,
    embedCode: Option<string>)

  const TitleError: string := "عنوان پست باید حداقل ۲ کاراکتر باشد"
  const ContentError: string := "محتوای پست باید حداقل ۱۰ کاراکتر باشد"

  /** `!x || x.trim().length < min`: the field is missing, empty, or too short once trimmed. */
  predicate TooShort(x: Option<string>, min: nat) {
    !Truthy(x) || JsLength(Trim(x.value)) < min
  }

  /** `x?.trim() || null`: None when missing or blank, otherwise the trimmed text. */
  function Normalize(x: Option<string>): (r: Option<string>)
    ensures r.None? <==> x.None? || AllWhitespace(x.value)
    ensures r.Some? ==> r.value != [] && NoEdgeWhitespace(r.value)
    ensures r.Some? ==> r.value == Trim(x.value)
  {
    if x.None? then None
    else
      var t := Trim(x.value);
      TrimEmptyIffBlank(x.value);
      if t == [] then None else Some(t)
  }

  /** Clearing an already-cleared field changes nothing. */
  lemma NormalizeIdempotent(x: Option<string>)
    ensures Normalize(Normalize(x)) == Normalize(x)
  {
    if x.Some? {
      var t := Trim(x.value);
      if t != [] {
        TrimIdempotent(x.value);
        assert Normalize(x) == Some(t);
        assert Trim(t) == t;
      }
    }
  }

  /** `published || false`. */
  function Published(p: Option<bool>): (b: bool)
    ensures b <==> p == Some(true)
  {
    p.GetOr(false)
  }

  /** The columns the route's `select` returns: every stored column except
      the author (`createdAt` is not modelled). */
  datatype PostView = PostView(
    id: nat,
    title: string,
    content: string,
    category: Option<string>,
    published: bool,
    imageUrl: Option<string>,
    videoUrl: Option<string>,
    embedCode: Option<string>)

  function View(p: Post): PostView {
    PostView(p.id, p.title, p.content, p.category, p.published, p.imageUrl, p.videoUrl, p.embedCode)
  }

  /** The handler. A missing session email gives 401; then a short title, then
      short content, give 400, before the author is looked up (404 when the
      session email has no user); otherwise the post is appended with the next
      id and returned with 201. */
  function Create(session: Option<string>, body: PostBody, db: Db): (r: (Reply<PostView>, Db))
    ensures !Truthy(session) ==> r.0 == Err(401, "Unauthorized")
    ensures Truthy(session) && TooShort(body.title, 2) ==> r.0 == Err(400, TitleError)
    ensures Truthy(session) && !TooShort(body.title, 2) && TooShort(body.content, 10) ==> r.0 == Err(400, ContentError)
    ensures Truthy(session) && !TooShort(body.title, 2) && !TooShort(body.content, 10) && session.value !in db.users ==>
      r.0 == Err(404, "User not found")
    ensures r.0.Ok? <==>
      Truthy(session) && !TooShort(body.title, 2) && !TooShort(body.content, 10) && session.value in db.users
    ensures r.0.Err? ==> r.1 == db
    ensures r.0.Ok? ==>
      && r.0.status == 201
      && |r.1.posts| == |db.posts| + 1
      && r.1 == db.(posts := db.posts + [r.1.posts[|db.posts|]], nextPostId := db.nextPostId + 1)
      && var p := r.1.posts[|db.posts|];
         && r.0.body == View(p)
         && p.id == db.nextPostId
         && p.authorId == db.users[session.value].id
         && p.title == Trim(body.title.value) && p.content == Trim(body.content.value)
         && p.category == Normalize(body.category) && p.imageUrl == Normalize(body.imageUrl)
         && p.videoUrl == Normalize(body.videoUrl) && p.embedCode == Normalize(body.embedCode)
         && p.published == (body.published == Some(true))
  {
    if !Truthy(session) then (Err(401, "Unauthorized"), db)
    else if TooShort(body.title, 2) then (Err(400, TitleError), db)
    else if TooShort(body.content, 10) then (Err(400, ContentError), db)
    else if session.value !in db.users then (Err(404, "User not found"), db)
    else
      var post := Post(
        db.nextPostId,
        Trim(body.title.value),
        Trim(body.content.value),
        Normalize(body.category),
        Published(body.published),
        Normalize(body.imageUrl),
        Normalize(body.videoUrl),
        Normalize(body.embedCode),
        db.users[session.value].id);
      (Ok(201, View(post)), db.(posts := db.posts + [post], nextPostId := db.nextPostId + 1))
  }

  /** A stored post keeps its title and content trimmed and long enough, and
      its optional fields are either cleared or non-blank and trimmed. */
  predicate StoredShape(p: Post) {
    && JsLength(p.title) >= 2 && NoEdgeWhitespace(p.title)
    && JsLength(p.content) >= 10 && NoEdgeWhitespace(p.content)
    && (p.category.Some? ==> p.category.value != [] && NoEdgeWhitespace(p.category.value))
    && (p.imageUrl.Some? ==> p.imageUrl.value != [] && NoEdgeWhitespace(p.imageUrl.value))
    && (p.videoUrl.Some? ==> p.videoUrl.value != [] && NoEdgeWhitespace(p.videoUrl.value))
    && (p.embedCode.Some? ==> p.embedCode.value != [] && NoEdgeWhitespace(p.embedCode.value))
  }

  /** Every post the handler creates has the stored shape, and its optional
      fields are already normalised: storing it again would change nothing. */
  lemma CreatedPostShape(session: Option<string>, body: PostBody, db: Db)
    requires Create(session, body, db).0.Ok?
    ensures var r := Create(session, body, db);
      && |r.1.posts| == |db.posts| + 1
      && StoredShape(r.1.posts[|db.posts|])
    ensures var p := Create(session, body, db).1.posts[|db.posts|];
      && Normalize(p.category) == p.category && Normalize(p.imageUrl) == p.imageUrl
      && Normalize(p.videoUrl) == p.videoUrl && Normalize(p.embedCode) == p.embedCode
  {
    NormalizeIdempotent(body.category);
    NormalizeIdempotent(body.imageUrl);
    NormalizeIdempotent(body.videoUrl);
    NormalizeIdempotent(body.embedCode);
  }

  /** Validation does not depend on the store: a body that fails it gets the
      same 400 whatever users exist, so a 400 wins over a 404. */
  lemma ValidationBeforeLookup(session: Option<string>, body: PostBody, db1: Db, db2: Db)
    requires Truthy(session)
    requires TooShort(body.title, 2) || TooShort(body.content, 10)
    ensures Create(session, body, db1).0 == Create(session, body, db2).0
    ensures Create(session, body, db1).0.status == 400
  {
  }

  /** Creating a post keeps the store well formed and uses a fresh id. */
  lemma CreatePreservesWellFormed(session: Option<string>, body: PostBody, db: Db)
    requires WellFormed(db)
    ensures WellFormed(Create(session, body, db).1)
    ensures Create(session, body, db).0.Ok? ==>
      forall i :: 0 <= i < |db.posts| ==> db.posts[i].id != Create(session, body, db).0.body.id
  {
  }

  /** The new post raises its author's post count by one and leaves every
      other user's count alone. */
  lemma {:induction false} CreateCountsForAuthor(session: Option<string>, body: PostBody, db: Db, who: nat)
    requires Create(session, body, db).0.Ok?
    ensures var r := Create(session, body, db);
      CountAuthored(r.1.posts, who)
        == CountAuthored(db.posts, who) + (if who == db.users[session.value].id then 1 else 0)
  {
    var r := Create(session, body, db);
    assert r.1.posts[..|r.1.posts| - 1] == db.posts;
  }
}

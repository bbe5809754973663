/** The new-post form (src/app/dashboard/posts/new/page.tsx): its client-side
    validation, the clearing of a field's error while typing, reset, and what
    the submit button sends to `POST /api/posts`. */
module NewPostPage {
  import opened Wrappers
  import opened JsText
  import PostsRoute
  import Store

  datatype PostForm = PostForm(
    title: string,
    content: string,
    category: string,
    published: bool,
    imageUrl: string,
    videoUrl: string,
    embedCode: string)

  /** The `name` of each input, and `submit` for the server's error. */
  datatype FieldName = Title | Content | Category | Published | ImageUrl | VideoUrl | EmbedCode | Submit

  /** What an input event carries: a text input's value or a checkbox's state. */
  datatype InputValue = Text(value: string) | Checkbox(checked: bool)

  datatype PageState = PageState(form: PostForm, errors: map<FieldName, string>, success: string)

  const EmptyForm: PostForm := PostForm("", "", "", false, "", "", "")
  const Initial: PageState := PageState(EmptyForm, map[], "")

  const TitleRequired: string := "عنوان پست الزامی است"
  const TitleShort: string := "عنوان باید حداقل ۲ کاراکتر باشد"
  const ContentRequired: string := "محتوای پست الزامی است"
  const ContentShort: string := "محتوای پست باید حداقل ۱۰ کاراکتر باشد"
  const CategoryLong: string := "دسته‌بندی نباید بیشتر از ۵۰ کاراکتر باشد"

  /** How a trimmed field fares: blank, too short, or fine. */
  datatype Verdict = Blank | Short | Fine

  /** The "required, else at least `min` after trimming" rule of title and content. */
  function TrimmedRule(s: string, min: nat): (v: Verdict)
    requires min >= 1
    ensures v != Fine <==> JsLength(Trim(s)) < min
    ensures v == Blank <==> AllWhitespace(s)
  {
    TrimEmptyIffBlank(s);
    var t := Trim(s);
    if t == "" then Blank
    else if JsLength(t) < min then Short
    else Fine
  }

  /** The error of the trimmed rule for one text: the "required" message for
      a blank text, the "too short" message for a short one, else none. */
  function RuleError(s: string, min: nat, required: string, short: string): (r: Option<string>)
    requires min >= 1
    ensures r.Some? <==> JsLength(Trim(s)) < min
    ensures r.Some? ==> r.value == (if AllWhitespace(s) then required else short)
  {
    match TrimmedRule(s, min)
    case Blank => Some(required)
    case Short => Some(short)
    case Fine => None
  }

  /** The category's error: only a non-empty category over 50 units has one. */
  function CategoryError(c: string): (r: Option<string>)
    ensures r.Some? <==> JsLength(c) > 50
    ensures r.Some? ==> r.value == CategoryLong
  {
    if c != "" && JsLength(c) > 50 then Some(CategoryLong) else None
  }

  /** `validateForm`: title and content by the trimmed rule (2 and 10), and a
      category longer than 50 UTF-16 units. Only those three keys can appear. */
  function Validate(f: PostForm): (errors: map<FieldName, string>)
    ensures errors.Keys <= {Title, Content, Category}
    ensures Title in errors <==> JsLength(Trim(f.title)) < 2
    ensures Content in errors <==> JsLength(Trim(f.content)) < 10
    ensures Category in errors <==> JsLength(f.category) > 50
    ensures Title in errors ==> errors[Title] == (if AllWhitespace(f.title) then TitleRequired else TitleShort)
    ensures Content in errors ==>
      errors[Content] == (if AllWhitespace(f.content) then ContentRequired else ContentShort)
  {
    var t := RuleError(f.title, 2, TitleRequired, TitleShort);
    var c := RuleError(f.content, 10, ContentRequired, ContentShort);
    var g := CategoryError(f.category);
    var m1: map<FieldName, string> := if t.Some? then map[Title := t.value] else map[];
    var m2 := if c.Some? then m1[Content := c.value] else m1;
    if g.Some? then m2[Category := g.value] else m2
  }

  /** `JSON.stringify(formData)` as the server reads it. */
  function ToBody(f: PostForm): PostsRoute.PostBody {
    PostsRoute.PostBody(Some(f.title), Some(f.content), Some(f.category), Some(f.published),
                        Some(f.imageUrl), Some(f.videoUrl), Some(f.embedCode))
  }

  /** The client's title and content rules are exactly the server's for the
      same text: a field gets a client error iff the server would refuse it. */
  lemma ClientMatchesServer(f: PostForm)
    ensures Title in Validate(f) <==> PostsRoute.TooShort(Some(f.title), 2)
    ensures Content in Validate(f) <==> PostsRoute.TooShort(Some(f.content), 10)
  {
  }

  /** `handleSubmit`: an invalid form shows its errors and sends nothing; a
      valid one clears the success message and is sent as it stands. */
  function HandleSubmit(s: PageState): (r: (PageState, Option<PostsRoute.PostBody>))
    ensures r.1.Some? <==> Validate(s.form) == map[]
    ensures r.0.errors == Validate(s.form) && r.0.form == s.form
    ensures r.1.None? ==> r.0.success == s.success
    ensures r.1.Some? ==> r.1.value == ToBody(s.form) && r.0.success == ""
  {
    var errors := Validate(s.form);
    if errors == map[] then (s.(errors := errors, success := ""), Some(ToBody(s.form)))
    else (s.(errors := errors), None)
  }

  const Created: string := "پست جدید با موفقیت ایجاد شد"
  const CreateFailed: string := "خطا در ایجاد پست"

  /** What the page does with the route's reply: the success message, or the
      route's error (else a default) as the only error. */
  function HandleCreated(s: PageState, reply: Store.Reply<PostsRoute.PostView>): (r: PageState)
    ensures reply.Ok? ==> r == s.(success := Created)
    ensures reply.Err? ==> r.errors.Keys == {Submit} && r.form == s.form && r.success == s.success
    ensures reply.Err? ==> r.errors[Submit] == (if reply.error != "" then reply.error else CreateFailed)
  {
    match reply
    case Ok(_, _) => s.(success := Created)
    case Err(_, e) => s.(errors := map[Submit := if e != "" then e else CreateFailed])
  }

  /** A sent form reaches the route with a valid title and content, so for a
      signed-in user with a record the page shows the success message. */
  lemma SentFormIsCreated(s: PageState, email: string, db: Store.Db)
    requires HandleSubmit(s).1.Some?
    requires email != "" && email in db.users
    ensures var sent := HandleSubmit(s);
      HandleCreated(sent.0, PostsRoute.Create(Some(email), sent.1.value, db).0).success == Created
  {
    SentBodyPassesServer(s);
  }

  /** Whatever the page sends passes the server's title and content checks. */
  lemma SentBodyPassesServer(s: PageState)
    requires HandleSubmit(s).1.Some?
    ensures !PostsRoute.TooShort(HandleSubmit(s).1.value.title, 2)
    ensures !PostsRoute.TooShort(HandleSubmit(s).1.value.content, 10)
  {
    ClientMatchesServer(s.form);
    assert Title !in Validate(s.form) && Content !in Validate(s.form);
  }

  /** The category limit is the client's alone: a form whose only fault is a
      category over 50 units is held back, although the server would create
      the post for any signed-in user. */
  lemma CategoryLimitIsClientOnly(s: PageState, email: string, db: Store.Db)
    requires Title !in Validate(s.form) && Content !in Validate(s.form)
    requires JsLength(s.form.category) > 50
    requires email != "" && email in db.users
    ensures HandleSubmit(s).1.None?
    ensures PostsRoute.Create(Some(email), ToBody(s.form), db).0.Ok?
  {
    ClientMatchesServer(s.form);
  }

  /** One input's new form value. */
  function SetField(f: PostForm, field: FieldName, v: InputValue): PostForm
    requires field != Submit && (field == Published <==> v.Checkbox?)
  {
    match field
    case Title => f.(title := v.value)
    case Content => f.(content := v.value)
    case Category => f.(category := v.value)
    case Published => f.(published := v.checked)
    case ImageUrl => f.(imageUrl := v.value)
    case VideoUrl => f.(videoUrl := v.value)
    case EmbedCode => f.(embedCode := v.value)
  }

  /** `handleInputChange`: the field takes the new value, and a non-empty
      error on that field becomes ""; every other error is left as it was. */
  function HandleInputChange(s: PageState, field: FieldName, v: InputValue): (r: PageState)
    requires field != Submit && (field == Published <==> v.Checkbox?)
    ensures r.form == SetField(s.form, field, v) && r.success == s.success
    ensures forall g :: g != field ==> (g in r.errors <==> g in s.errors)
    ensures forall g :: g != field && g in s.errors ==> r.errors[g] == s.errors[g]
    ensures field in r.errors <==> field in s.errors
    ensures field in r.errors ==> r.errors[field] == ""
  {
    var errors := if field in s.errors && s.errors[field] != "" then s.errors[field := ""] else s.errors;
    s.(form := SetField(s.form, field, v), errors := errors)
  }

  /** `handleReset`. */
  function HandleReset(s: PageState): (r: PageState)
    ensures r.form == EmptyForm && r.errors == map[] && r.success == ""
  {
    Initial
  }

  /** Editing the title to a text that passes the rule, then submitting,
      leaves no title error, whatever the title error was before. */
  lemma EditedTitlePasses(s: PageState, t: string)
    requires JsLength(Trim(t)) >= 2
    ensures Title !in HandleSubmit(HandleInputChange(s, Title, Text(t))).0.errors
  {
  }

  /** The empty form has exactly two errors: title and content are required. */
  lemma EmptyFormErrors()
    ensures Validate(EmptyForm) == map[Title := TitleRequired, Content := ContentRequired]
  {
    var e := Validate(EmptyForm);
    assert Trim("") == "" && JsLength("") == 0 && AllWhitespace("");
    assert e.Keys == {Title, Content};
  }

  /** A reset form cannot be sent: submitting it reports title and content as required. */
  lemma ResetFormIsRefused(s: PageState)
    ensures HandleSubmit(HandleReset(s)).1.None?
    ensures HandleSubmit(HandleReset(s)).0.errors == map[Title := TitleRequired, Content := ContentRequired]
  {
    EmptyFormErrors();
  }
}

/** The profile editor (src/app/profile/edit/page.tsx): the form loaded from
    `GET /api/users/profile`, its validation before `PUT`, and the picture
    chooser that checks a file and uploads it at once. */
module EditProfilePage {
  import opened Wrappers
  import opened JsText
  import Store
  import ProfileRoute
  import UploadRoute
  import Display

  datatype ProfileForm = ProfileForm(name: string, phone: string, bio: string, image: string)

  /** The error keys: the inputs' names and `submit` for the server's error. */
  datatype FieldName = Name | Phone | Bio | Image | Submit

  /** The page's state; `preview` is the picture shown above the form. */
  datatype PageState = PageState(
    form: ProfileForm,
    errors: map<FieldName, string>,
    preview: Option<string>,
    success: string)

  const BioError: string := "بیوگرافی نباید بیشتر از ۵۰۰ کاراکتر باشد"
  const UploadFailed: string := "خطا در آپلود عکس"
  const SaveFailed: string := "خطا در به‌روزرسانی پروفایل"
  const Saved: string := "پروفایل با موفقیت به‌روزرسانی شد"

  /** The state once the profile has arrived: every field is the stored value
      or "", and the preview is the stored image through `getImagePath`. */
  function Load(a: ProfileRoute.Account): (s: PageState)
    ensures s.form.name == (if Truthy(a.name) then a.name.value else "")
    ensures s.form.phone == (if Truthy(a.phone) then a.phone.value else "")
    ensures s.form.bio == (if Truthy(a.bio) then a.bio.value else "")
    ensures s.form.image == (if Truthy(a.image) then a.image.value else "")
    ensures s.preview == Display.ImagePath(a.image)
    ensures s.errors == map[] && s.success == ""
  {
    var or := (o: Option<string>) => if Truthy(o) then o.value else "";
    PageState(ProfileForm(or(a.name), or(a.phone), or(a.bio), or(a.image)), map[],
              if Truthy(a.image) then Display.ImagePath(a.image) else None, "")
  }

  /** `validateForm`: a non-empty name shorter than 2, a non-empty phone not
      of the form 09 and nine digits, a bio longer than 500. */
  function Validate(f: ProfileForm): (errors: map<FieldName, string>)
    ensures errors.Keys <= {Name, Phone, Bio}
    ensures Name in errors <==> f.name != "" && JsLength(f.name) < 2
    ensures Phone in errors <==> f.phone != "" && !ProfileRoute.PhoneMatches(f.phone)
    ensures Bio in errors <==> f.bio != "" && JsLength(f.bio) > 500
    ensures Name in errors ==> errors[Name] == ProfileRoute.NameError
    ensures Phone in errors ==> errors[Phone] == ProfileRoute.PhoneError
    ensures Bio in errors ==> errors[Bio] == BioError
  {
    var m0: map<FieldName, string> := map[];
    var m1 := if f.name != "" && JsLength(f.name) < 2 then m0[Name := ProfileRoute.NameError] else m0;
    var m2 := if f.phone != "" && !ProfileRoute.PhoneMatches(f.phone) then m1[Phone := ProfileRoute.PhoneError] else m1;
    if f.bio != "" && JsLength(f.bio) > 500 then m2[Bio := BioError] else m2
  }

  /** `JSON.stringify(formData)` as the route reads it: every field present,
      so `bio` is always written. */
  function ToPatch(f: ProfileForm): ProfileRoute.ProfilePatch {
    ProfileRoute.ProfilePatch(Some(f.name), Some(f.phone), ProfileRoute.Present(f.bio), Some(f.image))
  }

  /** The client's name and phone rules are the route's: a field gets a client
      error exactly when the route would refuse it. */
  lemma ClientMatchesServer(f: ProfileForm)
    ensures Name in Validate(f) <==> ProfileRoute.NameRejected(ToPatch(f).name)
    ensures Phone in Validate(f) <==> ProfileRoute.PhoneRejected(ToPatch(f).phone)
  {
  }

  /** `handleSubmit`: an invalid form shows its errors and sends nothing. */
  function HandleSubmit(s: PageState): (r: (PageState, Option<ProfileRoute.ProfilePatch>))
    ensures r.1.Some? <==> Validate(s.form) == map[]
    ensures r.1.None? ==> r.0 == s.(errors := Validate(s.form))
    ensures r.1.Some? ==> r.1.value == ToPatch(s.form) && r.0 == s.(errors := map[], success := "")
  {
    var errors := Validate(s.form);
    if errors == map[] then (s.(errors := errors, success := ""), Some(ToPatch(s.form)))
    else (s.(errors := errors), None)
  }

  /** What the page does with the route's reply: a success message, or the
      route's error (else a default) as the only error. */
  function HandleSaved(s: PageState, reply: Store.Reply<ProfileRoute.Account>): (r: PageState)
    ensures reply.Ok? ==> r == s.(success := Saved)
    ensures reply.Err? ==> r.errors.Keys == {Submit} && r.form == s.form
    ensures reply.Err? && reply.error != "" ==> r.errors[Submit] == reply.error
    ensures reply.Err? && reply.error == "" ==> r.errors[Submit] == SaveFailed
    ensures reply.Err? ==> r.success == s.success && r.preview == s.preview
  {
    match reply
    case Ok(_, _) => s.(success := Saved)
    case Err(_, e) => s.(errors := map[Submit := if e != "" then e else SaveFailed])
  }

  /** A form the page sends is refused by the route only for a missing
      session, a missing user or a phone another user holds. */
  lemma SentFormPassesValidation(s: PageState, email: string, db: Store.Db)
    requires HandleSubmit(s).1.Some?
    requires email != "" && email in db.users
    requires !ProfileRoute.PhoneConflict(db, email, ToPatch(s.form))
    ensures ProfileRoute.Put(Some(email), HandleSubmit(s).1.value, db).0.Ok?
  {
    ClientMatchesServer(s.form);
  }

  /** A sent form that the route accepts ends in the saved message: for a
      signed-in user with a record whose new phone no one else holds, the page
      shows success. */
  lemma SentFormIsSaved(s: PageState, email: string, db: Store.Db)
    requires HandleSubmit(s).1.Some?
    requires email != "" && email in db.users
    requires !ProfileRoute.PhoneConflict(db, email, ToPatch(s.form))
    ensures var sent := HandleSubmit(s);
      HandleSaved(sent.0, ProfileRoute.Put(Some(email), sent.1.value, db).0).success == Saved
  {
    SentFormPassesValidation(s, email, db);
  }

  /** Saving the form just as it was loaded writes the record back unchanged,
      except that a missing bio becomes "". */
  lemma ResaveLoaded(u: Store.User)
    ensures ProfileRoute.Merge(u, ToPatch(Load(ProfileRoute.AccountOf(u)).form))
      == u.(bio := Some(if Truthy(u.bio) then u.bio.value else ""))
  {
  }

  /** A one-character name, which signup accepts, makes the loaded form
      invalid: the profile cannot be saved until the name is changed. */
  lemma ShortStoredNameBlocksSave(a: ProfileRoute.Account)
    requires Truthy(a.name) && JsLength(a.name.value) == 1
    ensures HandleSubmit(Load(a)).1.None?
    ensures HandleSubmit(Load(a)).0.errors[Name] == ProfileRoute.NameError
  {
  }

  /** `handleImageChange`: nothing without a file; a non-image or a file over
      5 MiB replaces all errors with the image error and is not sent;
      otherwise the image error is cleared and the file is uploaded. */
  function HandleImageChange(s: PageState, file: Option<UploadRoute.FormFile>)
    : (r: (PageState, Option<UploadRoute.FormFile>))
    ensures file.None? ==> r == (s, None)
    ensures r.1.Some? <==> file.Some? && UploadRoute.Acceptable(file.value)
    ensures r.1.Some? ==> r.1 == file && r.0 == s.(errors := s.errors[Image := ""])
    ensures file.Some? && !StartsWith(file.value.mimeType, "image/") ==>
      r.0 == s.(errors := map[Image := UploadRoute.NotImage])
    ensures file.Some? && StartsWith(file.value.mimeType, "image/") && file.value.size > UploadRoute.MaxSize ==>
      r.0 == s.(errors := map[Image := UploadRoute.TooLarge])
  {
    match file
    case None => (s, None)
    case Some(f) =>
      if !StartsWith(f.mimeType, "image/") then (s.(errors := map[Image := UploadRoute.NotImage]), None)
      else if f.size > 5 * 1024 * 1024 then (s.(errors := map[Image := UploadRoute.TooLarge]), None)
      else (s.(errors := s.errors[Image := ""]), Some(f))
  }

  /** The page uploads exactly what the upload route accepts, so every file
      it sends comes back with a name. */
  lemma SentFileIsStored(s: PageState, file: Option<UploadRoute.FormFile>, timestamp: nat, random: string)
    ensures HandleImageChange(s, file).1.Some? <==> UploadRoute.Post(file, timestamp, random).reply.Ok?
  {
  }

  /** `uploadImage`'s reply handling: a success stores the returned name as
      the form's image and clears the image error; a failure leaves only the
      image error, the route's message or a default. */
  function HandleUploaded(s: PageState, reply: Store.Reply<UploadRoute.Uploaded>): (r: PageState)
    ensures reply.Ok? ==>
      && r.form == s.form.(image := reply.body.fileName)
      && r.errors == s.errors[Image := ""]
      && r.preview == s.preview && r.success == s.success
    ensures reply.Err? ==>
      && r.form == s.form
      && r.errors == map[Image := if reply.error != "" then reply.error else UploadFailed]
      && r.preview == s.preview && r.success == s.success
  {
    match reply
    case Ok(_, body) => s.(form := s.form.(image := body.fileName), errors := s.errors[Image := ""])
    case Err(_, e) => s.(errors := map[Image := if e != "" then e else UploadFailed])
  }

  /** Choosing an acceptable picture: the form's image becomes the generated
      name, the other fields stay, and that name is served by the image API
      once saved. */
  lemma ChosenPictureIsSaved(s: PageState, f: UploadRoute.FormFile, timestamp: nat, random: string)
    requires UploadRoute.Acceptable(f)
    ensures var sent := HandleImageChange(s, Some(f));
      var r := HandleUploaded(sent.0, UploadRoute.Post(Some(f), timestamp, random).reply);
      var name := UploadRoute.GeneratedName(timestamp, random, UploadRoute.Extension(f.name));
      && r.form == s.form.(image := name)
      && Image in r.errors && r.errors[Image] == ""
      && Display.ImagePath(Some(r.form.image)) == Some(Display.ApiImages + name)
  {
    Display.UploadedNameIsRouted(timestamp, random, UploadRoute.Extension(f.name));
  }
}

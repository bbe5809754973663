/** The new-property form (src/app/dashboard/properties/new/page.tsx): the
    image list kept in step with the uploaded files, the batch upload, the
    removal of one image, the price inputs and the submit guard. Each file's
    clock reading and random suffix at the upload route are parameters. */
module NewPropertyPage {
  import opened Wrappers
  import opened JsText
  import opened Decimal
  import Store
  import UploadRoute
  import PropertiesRoute
  import PriceInput

  /** The form state, typed as the page declares it. */
  datatype PropertyForm = PropertyForm(
    title: string,
    description: string,
    propertyType: string,
    dealType: string,
    price: Option<nat>,
    rentPrice: Option<nat>,
    depositPrice: Option<nat>,
    area: real,
    roomCount: Option<int>,
    bathroomCount: Option<int>,
    floor: Option<int>,
    totalFloors: Option<int>,
    yearBuilt: Option<int>,
    parking: bool,
    elevator: bool,
    storage: bool,
    furnished: bool,
    status: string,
    location: string,
    images: seq<string>,
    ownerId: int)

  /** One uploaded image as the page lists it. */
  datatype UploadedFile = UploadedFile(fileName: string, originalName: string, url: string)

  datatype PageState = PageState(
    form: PropertyForm,
    uploadedFiles: seq<UploadedFile>,
    error: Option<string>,
    success: Option<string>)

  /** The page's active status; the server's own default is "active". */
  const ActiveStatus: string := "فعال"

  const InitialForm: PropertyForm := PropertyForm(
    "", "", "", "", None, None, None, 0.0, None, None, None, None, None,
    false, false, false, false, ActiveStatus, "", [], 1)

  const Initial: PageState := PageState(InitialForm, [], None, None)

  /** The images sent with the form are, position by position, the names of
      the files listed on the page. */
  predicate InSync(s: PageState) {
    && |s.form.images| == |s.uploadedFiles|
    && forall k :: 0 <= k < |s.uploadedFiles| ==> s.form.images[k] == s.uploadedFiles[k].fileName
  }

  lemma InitialInSync()
    ensures InSync(Initial) && Initial.form.images == []
  {
  }

  /** `xs.splice(i, 1)` on a copy: position `i` goes, the rest keep their
      order; an index past the end removes nothing. */
  function Splice<T>(xs: seq<T>, i: nat): (r: seq<T>)
    ensures i < |xs| ==> |r| == |xs| - 1
    ensures i < |xs| ==> forall k :: 0 <= k < i ==> r[k] == xs[k]
    ensures i < |xs| ==> forall k :: i <= k < |r| ==> r[k] == xs[k + 1]
    ensures i >= |xs| ==> r == xs
  {
    if i < |xs| then xs[..i] + xs[i + 1..] else xs
  }

  /** `removeImage(index)`: the same position leaves both lists. */
  function RemoveImage(s: PageState, index: nat): (r: PageState)
    ensures r.form == s.form.(images := Splice(s.form.images, index))
    ensures r.uploadedFiles == Splice(s.uploadedFiles, index)
    ensures r.error == s.error && r.success == s.success
  {
    s.(form := s.form.(images := Splice(s.form.images, index)),
       uploadedFiles := Splice(s.uploadedFiles, index))
  }

  /** Removing an image keeps the two lists in step, and the images after it
      move up by one. */
  lemma RemoveImageKeepsInSync(s: PageState, index: nat)
    requires InSync(s)
    ensures InSync(RemoveImage(s, index))
    ensures index < |s.uploadedFiles| ==>
      |RemoveImage(s, index).form.images| == |s.form.images| - 1
  {
    var r := RemoveImage(s, index);
    if index < |s.uploadedFiles| {
      forall k | 0 <= k < |r.uploadedFiles|
        ensures r.form.images[k] == r.uploadedFiles[k].fileName
      {
        if k < index {
          assert r.form.images[k] == s.form.images[k];
        } else {
          assert r.form.images[k] == s.form.images[k + 1];
        }
      }
    }
  }

  /** The client's check of one file, before it is sent: an `image/` type
      and at most 5 MiB, with messages naming the file. */
  function ClientCheck(f: UploadRoute.FormFile): (r: Option<string>)
    ensures r.None? <==> UploadRoute.Acceptable(f)
    ensures !StartsWith(f.mimeType, "image/") ==> r == Some("فایل " + f.name + " باید یک تصویر باشد")
    ensures StartsWith(f.mimeType, "image/") && f.size > UploadRoute.MaxSize ==>
      r == Some("حجم فایل " + f.name + " نباید بیشتر از 5MB باشد")
  {
    if !StartsWith(f.mimeType, "image/") then Some("فایل " + f.name + " باید یک تصویر باشد")
    else if f.size > 5 * 1024 * 1024 then Some("حجم فایل " + f.name + " نباید بیشتر از 5MB باشد")
    else None
  }

  /** The client lets a file through exactly when the upload route accepts it. */
  lemma ClientCheckMatchesServer(f: UploadRoute.FormFile, timestamp: nat, random: string)
    ensures ClientCheck(f).None? <==> UploadRoute.Post(Some(f), timestamp, random).reply.Ok?
  {
  }

  /** One file's fate: refused by the client, or sent to the upload route,
      whose error (or a default naming the file) or generated name comes back. */
  function SendFile(f: UploadRoute.FormFile, timestamp: nat, random: string): (r: Result<UploadedFile, string>)
    ensures r.Success? <==> UploadRoute.Acceptable(f)
    ensures r.Success? ==>
      && r.value.fileName == UploadRoute.GeneratedName(timestamp, random, UploadRoute.Extension(f.name))
      && r.value.originalName == f.name
      && r.value.url == "/images/" + r.value.fileName
    ensures r.Failure? ==> r.error == ClientCheck(f).value
  {
    var check := ClientCheck(f);
    if check.Some? then Failure(check.value)
    else
      match UploadRoute.Post(Some(f), timestamp, random).reply
      case Ok(_, body) => Success(UploadedFile(body.fileName, f.name, "/images/" + body.fileName))
      case Err(_, e) => Failure(if e != "" then e else "خطا در آپلود " + f.name)
  }

  /** The outcomes of a selection, in selection order. */
  function SendAll(files: seq<UploadRoute.FormFile>, stamps: seq<nat>, randoms: seq<string>)
    : (r: seq<Result<UploadedFile, string>>)
    requires |stamps| == |files| && |randoms| == |files|
    ensures |r| == |files|
    ensures forall k :: 0 <= k < |files| ==> r[k] == SendFile(files[k], stamps[k], randoms[k])
  {
    seq(|files|, k requires 0 <= k < |files| => SendFile(files[k], stamps[k], randoms[k]))
  }

  predicate AllSucceeded(rs: seq<Result<UploadedFile, string>>) {
    forall k :: 0 <= k < |rs| ==> rs[k].Success?
  }

  /** The message of the first failure in selection order. */
  function FirstFailure(rs: seq<Result<UploadedFile, string>>): (m: Option<string>)
    ensures m.None? <==> AllSucceeded(rs)
    ensures m.Some? ==> exists k :: 0 <= k < |rs| && rs[k] == Failure(m.value) && AllSucceeded(rs[..k])
  {
    if rs == [] then None
    else if rs[0].Failure? then
      assert rs[..0] == [];
      Some(rs[0].error)
    else
      var m := FirstFailure(rs[1..]);
      if m.Some? then
        var k :| 0 <= k < |rs[1..]| && rs[1..][k] == Failure(m.value) && AllSucceeded(rs[1..][..k]);
        SucceededBehindSuccess(rs, k);
        m
      else m
  }

  /** A success in front of a run of successes is a longer run. */
  lemma SucceededBehindSuccess(rs: seq<Result<UploadedFile, string>>, k: nat)
    requires k < |rs| - 1 && rs[0].Success? && AllSucceeded(rs[1..][..k])
    ensures AllSucceeded(rs[..k + 1]) && rs[k + 1] == rs[1..][k]
  {
    assert forall j :: 0 <= j < k ==> rs[1..][..k][j] == rs[..k + 1][j + 1];
  }

  function Files(rs: seq<Result<UploadedFile, string>>): (fs: seq<UploadedFile>)
    requires AllSucceeded(rs)
    ensures |fs| == |rs|
    ensures forall k :: 0 <= k < |rs| ==> fs[k] == rs[k].value
  {
    seq(|rs|, k requires 0 <= k < |rs| => rs[k].value)
  }

  function Names(fs: seq<UploadedFile>): (ns: seq<string>)
    ensures |ns| == |fs|
    ensures forall k :: 0 <= k < |fs| ==> ns[k] == fs[k].fileName
  {
    seq(|fs|, k requires 0 <= k < |fs| => fs[k].fileName)
  }

  /** `handleFileUpload`: the error is cleared; when every file comes back,
      their names are appended to the images and the files to the list, in
      selection order, with a count message; when any fails, nothing is
      appended and the error is shown. */
  function HandleFileUpload(s: PageState, files: seq<UploadRoute.FormFile>, stamps: seq<nat>, randoms: seq<string>)
    : (r: PageState)
    requires |stamps| == |files| && |randoms| == |files|
    ensures var rs := SendAll(files, stamps, randoms);
      AllSucceeded(rs) ==>
        && r.form == s.form.(images := s.form.images + Names(Files(rs)))
        && r.uploadedFiles == s.uploadedFiles + Files(rs)
        && r.error.None?
        && r.success == Some(NatToString(|files|) + " فایل با موفقیت آپلود شد")
    ensures var rs := SendAll(files, stamps, randoms);
      !AllSucceeded(rs) ==>
        && r.form == s.form && r.uploadedFiles == s.uploadedFiles
        && r.error == FirstFailure(rs) && r.success == s.success
  {
    var rs := SendAll(files, stamps, randoms);
    var failure := FirstFailure(rs);
    if failure.Some? then s.(error := failure)
    else
      var added := Files(rs);
      PageState(s.form.(images := s.form.images + Names(added)),
                s.uploadedFiles + added,
                None,
                Some(NatToString(|files|) + " فایل با موفقیت آپلود شد"))
  }

  /** A batch keeps the lists in step; it appends exactly when every file is
      acceptable, and the k-th new image is the k-th file's generated name. */
  lemma UploadKeepsInSync(s: PageState, files: seq<UploadRoute.FormFile>, stamps: seq<nat>, randoms: seq<string>)
    requires |stamps| == |files| && |randoms| == |files|
    requires InSync(s)
    ensures var r := HandleFileUpload(s, files, stamps, randoms);
      && InSync(r)
      && (r.form.images != s.form.images <==> files != [] && forall k :: 0 <= k < |files| ==> UploadRoute.Acceptable(files[k]))
      && (r.form.images != s.form.images ==>
            forall k :: 0 <= k < |files| ==>
              r.form.images[|s.form.images| + k]
                == UploadRoute.GeneratedName(stamps[k], randoms[k], UploadRoute.Extension(files[k].name)))
  {
    var rs := SendAll(files, stamps, randoms);
    var r := HandleFileUpload(s, files, stamps, randoms);
    AllSentIffAcceptable(files, stamps, randoms);
    if AllSucceeded(rs) {
      var names := Names(Files(rs));
      AppendKeepsInSync(s, Files(rs));
      AddedNames(files, stamps, randoms);
      assert r.form.images == s.form.images + names;
      assert forall k :: 0 <= k < |names| ==> (s.form.images + names)[|s.form.images| + k] == names[k];
      assert files == [] ==> names == [];
    }
  }

  /** Every file of a batch comes back exactly when every file is acceptable. */
  lemma AllSentIffAcceptable(files: seq<UploadRoute.FormFile>, stamps: seq<nat>, randoms: seq<string>)
    requires |stamps| == |files| && |randoms| == |files|
    ensures AllSucceeded(SendAll(files, stamps, randoms))
      <==> forall k :: 0 <= k < |files| ==> UploadRoute.Acceptable(files[k])
  {
    var rs := SendAll(files, stamps, randoms);
    assert forall k :: 0 <= k < |files| ==> (rs[k].Success? <==> UploadRoute.Acceptable(files[k]));
  }

  /** Appending files and their names together keeps the lists in step. */
  lemma AppendKeepsInSync(s: PageState, added: seq<UploadedFile>)
    requires InSync(s)
    ensures InSync(s.(form := s.form.(images := s.form.images + Names(added)),
                      uploadedFiles := s.uploadedFiles + added))
  {
    var images, files := s.form.images + Names(added), s.uploadedFiles + added;
    forall k | 0 <= k < |files| ensures images[k] == files[k].fileName {
      if k >= |s.uploadedFiles| {
        assert images[k] == Names(added)[k - |s.form.images|];
      }
    }
  }

  /** The names a successful batch adds are the generated names, in order. */
  lemma AddedNames(files: seq<UploadRoute.FormFile>, stamps: seq<nat>, randoms: seq<string>)
    requires |stamps| == |files| && |randoms| == |files|
    requires AllSucceeded(SendAll(files, stamps, randoms))
    ensures var names := Names(Files(SendAll(files, stamps, randoms)));
      && |names| == |files|
      && forall k :: 0 <= k < |files| ==>
           names[k] == UploadRoute.GeneratedName(stamps[k], randoms[k], UploadRoute.Extension(files[k].name))
  {
  }

  /** A refused file hides every other file's name, and the page shows the
      first refusal in selection order. */
  lemma OneBadFileAppendsNothing(s: PageState, files: seq<UploadRoute.FormFile>, stamps: seq<nat>, randoms: seq<string>, bad: nat)
    requires |stamps| == |files| && |randoms| == |files|
    requires bad < |files| && !UploadRoute.Acceptable(files[bad])
    requires forall k :: 0 <= k < bad ==> UploadRoute.Acceptable(files[k])
    ensures HandleFileUpload(s, files, stamps, randoms).form == s.form
    ensures HandleFileUpload(s, files, stamps, randoms).error == ClientCheck(files[bad])
  {
    var rs := SendAll(files, stamps, randoms);
    FirstFailureAt(rs, bad);
  }

  /** The first failure is the one every earlier outcome succeeds before. */
  lemma {:induction false} FirstFailureAt(rs: seq<Result<UploadedFile, string>>, bad: nat)
    requires bad < |rs| && rs[bad].Failure?
    requires forall k :: 0 <= k < bad ==> rs[k].Success?
    ensures FirstFailure(rs) == Some(rs[bad].error)
  {
    if bad > 0 {
      assert rs[0].Success?;
      FirstFailureAt(rs[1..], bad - 1);
    }
  }

  /** The three price inputs. */
  datatype PriceField = Price | RentPrice | DepositPrice

  function PriceOf(f: PropertyForm, field: PriceField): Option<nat> {
    match field
    case Price => f.price
    case RentPrice => f.rentPrice
    case DepositPrice => f.depositPrice
  }

  /** One parser outcome applied to one price field: null, a number, or the
      form as it was. */
  function ApplyPrice(f: PropertyForm, field: PriceField, u: PriceInput.PriceUpdate): (r: PropertyForm)
    ensures forall g :: g != field ==> PriceOf(r, g) == PriceOf(f, g)
    ensures r.images == f.images && r.title == f.title && r.area == f.area
    ensures r == f.(price := PriceOf(r, Price), rentPrice := PriceOf(r, RentPrice), depositPrice := PriceOf(r, DepositPrice))
    ensures u == PriceInput.SetNull ==> PriceOf(r, field) == None
    ensures u == PriceInput.Unchanged ==> r == f
    ensures u.SetValue? ==> PriceOf(r, field) == Some(u.value)
  {
    var v := match u
      case SetNull => None
      case SetValue(n) => Some(n)
      case Unchanged => PriceOf(f, field);
    match field
    case Price => f.(price := v)
    case RentPrice => f.(rentPrice := v)
    case DepositPrice => f.(depositPrice := v)
  }

  /** `handlePriceChange` on one price input, with the page's own parser:
      the field becomes null when nothing is kept, is left alone when only
      commas are kept, and otherwise becomes the value of the ASCII digits. */
  function HandlePriceChange(f: PropertyForm, field: PriceField, value: string): (r: PropertyForm)
    ensures forall g :: g != field ==> PriceOf(r, g) == PriceOf(f, g)
    ensures r.images == f.images && r.title == f.title && r.area == f.area
    ensures r == f.(price := PriceOf(r, Price), rentPrice := PriceOf(r, RentPrice), depositPrice := PriceOf(r, DepositPrice))
    ensures PriceInput.NoPriceChar(value) ==> PriceOf(r, field) == None
    ensures !PriceInput.NoPriceChar(value) && PriceInput.NoDigit(value) ==> r == f
    ensures !PriceInput.NoDigit(value) ==>
      PriceOf(r, field) == Some(DigitsValue(PriceInput.OnlyDigits(value)))
  {
    ApplyPrice(f, field, PriceInput.HandlePriceChange(value))
  }

  /** Typing a digit d into a price input that shows `n` stores d alone: the
      shown digits are Persian and the parser drops them. */
  lemma TypingReplacesPrice(f: PropertyForm, field: PriceField, n: nat, c: char)
    requires PriceOf(f, field) == Some(n) && n >= 1 && IsDigit(c)
    ensures PriceOf(HandlePriceChange(f, field, PriceInput.FormatPrice(PriceOf(f, field)) + [c]), field)
      == Some(DigitValue(c))
  {
    PriceInput.TypingAfterDisplayLosesPrice(n, c);
  }

  /** The same input with the corrected parser `PriceInput.Fixed`. */
  function FixedHandlePriceChange(f: PropertyForm, field: PriceField, value: string): (r: PropertyForm)
    ensures forall g :: g != field ==> PriceOf(r, g) == PriceOf(f, g)
    ensures r.images == f.images && r.title == f.title && r.area == f.area
    ensures r == f.(price := PriceOf(r, Price), rentPrice := PriceOf(r, RentPrice), depositPrice := PriceOf(r, DepositPrice))
    ensures PriceInput.Fixed(value).SetValue? ==> PriceOf(r, field) == Some(PriceInput.Fixed(value).value)
    ensures PriceInput.FoldDigits(value) == value ==> r == HandlePriceChange(f, field, value)
  {
    if PriceInput.FoldDigits(value) == value then
      assert PriceInput.Fixed(value) == PriceInput.HandlePriceChange(value);
      ApplyPrice(f, field, PriceInput.Fixed(value))
    else ApplyPrice(f, field, PriceInput.Fixed(value))
  }

  /** With the corrected parser, typing a digit into a price input that shows
      `n` stores 10 n + d. */
  lemma FixedTypingExtendsPrice(f: PropertyForm, field: PriceField, n: nat, c: char)
    requires PriceOf(f, field) == Some(n) && n >= 1 && IsDigit(c)
    ensures PriceOf(FixedHandlePriceChange(f, field, PriceInput.FormatPrice(PriceOf(f, field)) + [c]), field)
      == Some(10 * n + DigitValue(c))
  {
    var v := PriceInput.FormatPrice(Some(n)) + [c];
    PriceInput.FixedTypingAppends(n, c);
    assert PriceInput.AsciiChar(c) == c;
    assert PriceInput.Fixed(v) == PriceInput.SetValue(10 * n + DigitValue(c));
  }

  const RequiredMissing: string := "پر کردن فیلدهای الزامی (عنوان، نوع ملک و نوع معامله) ضروری است"

  /** `JSON.stringify(formData)` as the properties route reads it. */
  function ToBody(f: PropertyForm): PropertiesRoute.PropertyBody {
    PropertiesRoute.PropertyBody(
      Some(f.title), Some(f.description), Some(f.propertyType), Some(f.dealType),
      f.price, f.rentPrice, f.depositPrice,
      Some(f.area),
      f.roomCount, f.bathroomCount, f.floor, f.totalFloors, f.yearBuilt,
      Some(f.parking), Some(f.elevator), Some(f.storage), Some(f.furnished),
      Some(f.status), Some(f.location), Some(f.images), Some(f.ownerId))
  }

  /** `handleSubmit`'s guard: title, property type and deal type must be
      non-empty; only then is the form sent. */
  function HandleSubmit(s: PageState): (r: (PageState, Option<PropertiesRoute.PropertyBody>))
    ensures r.1.Some? <==> s.form.title != "" && s.form.propertyType != "" && s.form.dealType != ""
    ensures r.1.None? ==> r.0 == s.(error := Some(RequiredMissing), success := None)
    ensures r.1.Some? ==> r.1.value == ToBody(s.form) && r.0 == s.(error := None, success := None)
  {
    if s.form.title == "" || s.form.propertyType == "" || s.form.dealType == "" then
      (s.(error := Some(RequiredMissing), success := None), None)
    else (s.(error := None, success := None), Some(ToBody(s.form)))
  }

  /** The guard is weaker than the server: whatever the route would create,
      the page sends. */
  lemma ServerAcceptedImpliesSent(s: PageState, db: Store.Db)
    requires PropertiesRoute.Create(ToBody(s.form), db).0.Ok?
    ensures HandleSubmit(s).1 == Some(ToBody(s.form))
  {
  }

  /** The gap between the two: a form with title and both types but the
      initial area of 0 is sent and refused with 400. */
  lemma ZeroAreaPassesGuard(s: PageState, db: Store.Db)
    requires s.form.title != "" && s.form.propertyType != "" && s.form.dealType != ""
    requires s.form.area == 0.0
    ensures HandleSubmit(s).1.Some?
    ensures PropertiesRoute.Create(HandleSubmit(s).1.value, db).0 == Store.Err(400, PropertiesRoute.MissingFields)
  {
  }

  /** A property created from this page keeps the page's images, and its
      status and owner unless they were emptied: an untouched form stores
      "فعال", not the route's default "active". */
  lemma CreatedFromPage(s: PageState, db: Store.Db)
    requires HandleSubmit(s).1.Some?
    requires PropertiesRoute.Create(HandleSubmit(s).1.value, db).0.Ok?
    ensures var p := PropertiesRoute.Create(HandleSubmit(s).1.value, db).0.body;
      && (s.form.status != "" ==> p.status == s.form.status)
      && p.images == s.form.images
      && (s.form.ownerId != 0 ==> p.ownerId == s.form.ownerId)
      && (s.form.status == InitialForm.status ==> p.status == ActiveStatus && p.status != "active")
  {
  }
}

/** `POST /api/upload` (src/app/api/upload/route.ts): accepts one image of at
    most 5 MiB and stores it under a generated name. The clock reading and the
    random suffix are parameters; the write itself is represented by the path
    it goes to. */
module UploadRoute {
  import opened Wrappers
  import opened JsText
  import opened Decimal
  import opened Store

  /** The `file` form field: its declared content type, size and original name. */
  datatype FormFile = FormFile(mimeType: string, size: nat, name: string)

  /** The success body: `{ success: true, fileName, message }`. */
  datatype Uploaded = Uploaded(fileName: string, message: string)

  /** The handler's outcome: the reply, and the path written when it succeeds. */
  datatype Upload = Upload(reply: Reply<Uploaded>, written: Option<string>)

  /** 5 * 1024 * 1024 bytes. */
  const MaxSize: nat := 5 * 1024 * 1024
  const StorageDir: string := "/storage/images/profiles"

  const NoFile: string := "فایلی آپلود نشده است"
  const NotImage: string := "فایل باید یک تصویر باشد"
  const TooLarge: string := "حجم فایل نباید بیشتر از 5MB باشد"
  const Saved: string := "فایل با موفقیت آپلود شد"

  /** The acceptance rule: an `image/` content type and at most 5 MiB. */
  predicate Acceptable(f: FormFile) {
    StartsWith(f.mimeType, "image/") && f.size <= MaxSize
  }

  /** `file.name.split('.').pop()`: after the last dot, or the whole name. */
  function Extension(name: string): (ext: string)
    ensures '.' !in ext
    ensures ext == name <==> '.' !in name
  {
    AfterLast(name, '.')
  }

  /** `profile-${timestamp}-${random}.${fileExtension}`. */
  function GeneratedName(timestamp: nat, random: string, ext: string): string {
    "profile-" + NatToString(timestamp) + "-" + random + "." + ext
  }

  /** The handler: 400 with no file, then 400 for a type that does not start
      with "image/", then 400 above 5 MiB; otherwise the bytes go to the
      storage directory under the generated name and only the name is returned. */
  function Post(file: Option<FormFile>, timestamp: nat, random: string): (u: Upload)
    ensures file.None? ==> u.reply == Err(400, NoFile)
    ensures file.Some? && !StartsWith(file.value.mimeType, "image/") ==> u.reply == Err(400, NotImage)
    ensures file.Some? && StartsWith(file.value.mimeType, "image/") && file.value.size > MaxSize ==>
      u.reply == Err(400, TooLarge)
    ensures u.reply.Ok? <==> file.Some? && Acceptable(file.value)
    ensures u.written.Some? <==> u.reply.Ok?
    ensures u.reply.Ok? ==>
      && u.reply.status == 200
      && u.reply.body.fileName == GeneratedName(timestamp, random, Extension(file.value.name))
      && u.written == Some(StorageDir + "/" + u.reply.body.fileName)
  {
    if file.None? then Upload(Err(400, NoFile), None)
    else if !StartsWith(file.value.mimeType, "image/") then Upload(Err(400, NotImage), None)
    else if file.value.size > MaxSize then Upload(Err(400, TooLarge), None)
    else
      var name := GeneratedName(timestamp, random, Extension(file.value.name));
      Upload(Ok(200, Uploaded(name, Saved)), Some(StorageDir + "/" + name))
  }

  /** The size bound is inclusive: exactly 5,242,880 bytes of image is
      accepted, one byte more is not; and the type check comes first, so a
      large non-image gets the type error. */
  lemma SizeBoundary(mimeType: string, name: string, timestamp: nat, random: string)
    ensures StartsWith(mimeType, "image/") ==>
      Post(Some(FormFile(mimeType, 5242880, name)), timestamp, random).reply.Ok?
    ensures Post(Some(FormFile(mimeType, 5242881, name)), timestamp, random).reply.Err?
    ensures !StartsWith(mimeType, "image/") ==>
      Post(Some(FormFile(mimeType, 5242881, name)), timestamp, random).reply == Err(400, NotImage)
  {
  }

  /** The generated name ends with the original extension: it is what follows
      the name's last dot, provided the random part has no dot. */
  lemma ExtensionRecovered(timestamp: nat, random: string, name: string)
    requires '.' !in random
    ensures AfterLast(GeneratedName(timestamp, random, Extension(name)), '.') == Extension(name)
  {
    var ext := Extension(name);
    var head := "profile-" + NatToString(timestamp) + "-" + random;
    assert GeneratedName(timestamp, random, ext) == head + ['.'] + ext;
    AfterLastOfJoin(head, '.', ext);
  }

  /** The timestamp is the decimal number between "profile-" and the next dash. */
  lemma TimestampRecovered(timestamp: nat, random: string, ext: string)
    ensures var n := GeneratedName(timestamp, random, ext);
      && StartsWith(n, "profile-")
      && BeforeFirst(n[8..], '-') == NatToString(timestamp)
      && DigitsValue(BeforeFirst(n[8..], '-')) == timestamp
  {
    var ts := NatToString(timestamp);
    var tail := random + "." + ext;
    var n := GeneratedName(timestamp, random, ext);
    assert n == "profile-" + (ts + ['-'] + tail);
    assert n[8..] == ts + ['-'] + tail;
    assert '-' !in ts by {
      forall i | 0 <= i < |ts| ensures ts[i] != '-' {
        assert IsDigit(ts[i]);
      }
    }
    BeforeFirstOfJoin(ts, '-', tail);
    ReadWritten(timestamp);
  }

  /** The reply names the file, not where it lives: the name never starts with
      a slash, and the written path is the storage directory and that name. */
  lemma ReplyHidesDirectory(file: Option<FormFile>, timestamp: nat, random: string)
    requires Post(file, timestamp, random).reply.Ok?
    ensures var u := Post(file, timestamp, random);
      && !StartsWith(u.reply.body.fileName, "/")
      && u.written.value[..|StorageDir| + 1] == StorageDir + "/"
      && u.written.value[|StorageDir| + 1..] == u.reply.body.fileName
  {
    var u := Post(file, timestamp, random);
    assert u.reply.body.fileName[0] == 'p';
  }
}

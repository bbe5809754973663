# Real-estate site: request validation, record building and form logic

A Dafny model of the logic core of a Next.js real-estate site. The site lets
signed-in users publish posts and property listings and edit their profile.
The whole site sits behind one HTTP Basic password. The model covers:

- the API handlers that validate requests and build database records:
  `POST /api/posts`, `GET` and `PUT /api/users/profile`, `POST /api/properties`,
  `POST /api/auth/signup` and `POST /api/upload`;
- the site-wide Basic-auth middleware and its path matcher;
- the client-side helpers of three forms: new post, new property and profile
  editor;
- `getImagePath`, which appears four times in the source with identical text
  and is modelled once;
- the display fallbacks of the navbar, the listings grid, the profile page and
  the dashboard.

The database is a value, `Store.Db`. Users are kept in a map keyed by email;
posts and properties are sequences with id counters. Every handler is a pure
function from (session email, body, store) to (reply, new store).

JavaScript semantics are spelled out explicitly:

- truthiness is `Option` plus a non-empty test (`JsText.Truthy`);
- `trim` removes the ECMAScript whitespace set;
- `.length` counts UTF-16 code units;
- `split(c)[0]` and `split(c).pop()` are `BeforeFirst` and `AfterLast`;
- `\d` and `[0-9]` match ASCII digits only;
- `btoa` is the base 64 encoding of section 4 of RFC 4648, applied to the
  Latin-1 bytes of the text.

Some inputs come from outside the code and are parameters:

- the password hash function;
- the upload's clock reading and random suffix;
- the reply of the upload route, as seen by the pages.

Modules follow the source layout:

| module | models |
|---|---|
| `Wrappers` | `Option` and `Result` |
| `JsText` | the JavaScript string operations above |
| `Decimal` | `String(n)` and `parseInt` |
| `Base64` | `btoa` and `atob` |
| `Middleware` | `src/middleware.ts` |
| `Store` | the records and the store |
| `PostsRoute` | the posts route |
| `ProfileRoute` | the profile route |
| `PropertiesRoute` | the properties route |
| `SignupRoute` | the signup route |
| `UploadRoute` | the upload route |
| `Display` | the image paths and display fallbacks |
| `NewPostPage` | the new-post form |
| `EditProfilePage` | the profile editor |
| `PriceInput` | the price inputs |
| `NewPropertyPage` | the new-property form |

Where a comment or another file disagrees with the code, the model follows the code:

- The price parser's comment says dots and commas are kept. The regular
  expression `/[^\d,]/g` keeps only ASCII digits and commas, so "1.5" reads as
  15. The model keeps what the expression keeps.
- The new-property form starts with status "فعال", while the route's default
  is "active". A listing created from the untouched form is stored with "فعال"
  (`NewPropertyPage.CreatedFromPage`).
- The new-property page lists an uploaded file with the URL `/images/<name>`,
  while the upload route writes to `/storage/images/profiles` and the other
  pages serve images through `/api/images/profiles/`. The model records the
  URL as the page builds it.
- `config.matcher` writes `favicon.ico` inside a regular expression, where the
  `.` matches any character but a line terminator. The model says so, and
  "/faviconXico" bypasses the gate (`Middleware.BypassExamples`).

## Model

| member | source | states |
|---|---|---|
| `JsText.SkipForward` | src/app/api/posts/route.ts:18 | the leading-whitespace scan of `trim()` stops at the first non-whitespace character, having passed only whitespace |
| `JsText.SkipBack` | src/app/api/posts/route.ts:18 | the trailing-whitespace scan stops after the last non-whitespace character above its lower bound, having passed only whitespace |
| `JsText.Trim` | src/app/api/posts/route.ts:18 | `trim()` returns a contiguous slice with no edge whitespace, and everything outside the slice is whitespace |
| `JsText.TrimFixedPoint` | src/app/api/posts/route.ts:38-39 | trimming leaves a text unchanged exactly when it has no edge whitespace |
| `JsText.TrimIdempotent` | src/app/api/posts/route.ts:38-44 | trimming twice is trimming once |
| `JsText.TrimEmptyIffBlank` | src/app/api/posts/route.ts:40-44 | `x.trim()` is empty exactly when x is all whitespace, which is when `x?.trim() \|\| null` gives null |
| `JsText.JsLength` | src/app/api/posts/route.ts:18 | `.length` counts UTF-16 code units: between one and two per character |
| `JsText.JsLengthBmp` | src/app/api/posts/route.ts:18 | on text without characters above U+FFFF, `.length` is the number of characters |
| `JsText.Or` | src/components/Navbar.tsx:71-73 | `a \|\| b` is a when a is truthy, else b |
| `JsText.BeforeFirst` | src/app/dashboard/page.tsx:19 | `split(c)[0]` is a prefix without c, followed in the input by c or by nothing |
| `JsText.AfterLast` | src/app/api/upload/route.ts:41 | `split(c).pop()` is a suffix without c, preceded in the input by c or by nothing |
| `JsText.BeforeFirstOfJoin` | src/app/dashboard/page.tsx:19 | `split(c)[0]` of head + c + tail is head when head has no c |
| `JsText.AfterLastOfJoin` | src/app/api/upload/route.ts:41 | `split(c).pop()` of prefix + c + tail is tail when tail has no c |
| `Decimal.DigitChar` | src/components/HomeComponents/ListingsGrid.tsx:86 | a digit value is written as the ASCII digit with that value |
| `Decimal.DigitValue` | src/app/dashboard/properties/new/page.tsx:218 | an ASCII digit reads as the value below ten that `DigitChar` writes back to it |
| `Decimal.NatToString` | src/components/HomeComponents/ListingsGrid.tsx:86 | `String(n)` is a canonical digit string: no leading zero except "0" itself |
| `Decimal.ReadWritten` | src/app/dashboard/properties/new/page.tsx:218 | `parseInt(String(n))` is n |
| `Decimal.WriteRead` | src/components/HomeComponents/ListingsGrid.tsx:86 | writing back a canonical digit string that was read gives the same string |
| `Decimal.LeadingDigitNonZero` | src/components/HomeComponents/ListingsGrid.tsx:86 | a canonical string of two or more digits denotes at least 10 |
| `Decimal.NatToStringInjective` | src/components/HomeComponents/ListingsGrid.tsx:86 | distinct numbers are written differently |
| `Base64.SextetChar` | src/middleware.ts:10 | a sextet is written as a character of the alphabet of section 4 of RFC 4648, never as the padding `=` |
| `Base64.CharSextet` | src/middleware.ts:10 | a decoded character is written back by `SextetChar`; decoding fails exactly outside the alphabet |
| `Base64.SextetRoundTrip` | src/middleware.ts:10 | each alphabet character decodes back to its value |
| `Base64.TripleRoundTrip` | src/middleware.ts:10 | a full group of three bytes decodes back to itself |
| `Base64.PairRoundTrip` | src/middleware.ts:10 | a final group of two bytes, with one `=`, decodes back to itself |
| `Base64.SingleRoundTrip` | src/middleware.ts:10 | a final single byte, with `==`, decodes back to itself |
| `Base64.DecodeEncodePair` | src/middleware.ts:10 | decoding the encoding of two bytes gives them back |
| `Base64.DecodeEncodeSingle` | src/middleware.ts:10 | decoding the encoding of one byte gives it back |
| `Base64.EncodeTriple` | src/middleware.ts:10 | three bytes become four alphabet characters, none of them the padding `=` |
| `Base64.Encode` | src/middleware.ts:10 | the encoding has four characters for every started group of three bytes, and no `=` when the byte count is a multiple of three |
| `Base64.Decode` | src/middleware.ts:10 | a token that decodes has a length that is a multiple of four, and gives three bytes per group less at most two for the padding |
| `Base64.DecodeFullGroup` | src/middleware.ts:10 | decoding a text that begins with a full group is that group followed by the decoding of the rest |
| `Base64.DecodeEncodeStep` | src/middleware.ts:10 | when the bytes after the first three survive encoding and decoding, so do all of them |
| `Base64.DecodeEncode` | src/middleware.ts:10 | `atob` inverts the encoding for every byte sequence |
| `Base64.DecodeCongruent` | src/middleware.ts:10 | behind the same first group, texts that decode alike still decode alike |
| `Base64.DecodeSharedPrefix` | src/middleware.ts:10 | a shared prefix of whole groups does not change whether two tokens decode alike |
| `Base64.Latin1` | src/middleware.ts:10 | `btoa` accepts a text exactly when every character is at most U+00FF, and takes each character as one byte |
| `Base64.FromLatin1` | src/middleware.ts:10 | bytes become characters of the same code |
| `Base64.Latin1RoundTrip` | src/middleware.ts:10 | a Latin-1 text survives conversion to bytes and back |
| `Base64.Btoa` | src/middleware.ts:10 | `btoa` succeeds exactly on Latin-1 text, and its result has four characters per started group of three characters |
| `Base64.AtobBtoa` | src/middleware.ts:10 | `atob(btoa(s))` is s for every Latin-1 s |
| `Middleware.Expected` | src/middleware.ts:7-10 | the header compared with is "Basic " + `btoa("admin:1234s")`, which is "Basic YWRtaW46MTIzNHM=" |
| `Middleware.ExpectedToken` | src/middleware.ts:7-10 | `btoa("admin:1234s")` is "YWRtaW46MTIzNHM=" |
| `Middleware.CredentialBytes` | src/middleware.ts:7-10 | the Latin-1 bytes of "admin:1234s" |
| `Middleware.GroupYWRt` | src/middleware.ts:10 | the first group "adm" encodes as "YWRt" |
| `Middleware.GroupaW46` | src/middleware.ts:10 | the second group "in:" encodes as "aW46" |
| `Middleware.GroupMTIz` | src/middleware.ts:10 | the third group "123" encodes as "MTIz" |
| `Middleware.FinalPair` | src/middleware.ts:10 | the final pair "4s" encodes as "NHM=" |
| `Middleware.Gate` | src/middleware.ts:4-20 | a request passes exactly when the header is "Basic YWRtaW46MTIzNHM="; a missing header and every other string get 401 with `Basic realm="Protected Area"` |
| `Middleware.ParseBasic` | src/middleware.ts:10 | a header that reads as credentials starts with "Basic ", its token decodes, and the decoded text is the user-id, a colon and the password, with no colon in the user-id |
| `Middleware.ParseBasicHeader` | src/middleware.ts:10 | a Basic header built from a user-id without a colon and a Latin-1 password reads back as that pair (section 2 of RFC 7617) |
| `Middleware.AdmittedCarriesCredentials` | src/middleware.ts:7-10 | every admitted request names admin / 1234s |
| `Middleware.SameCredentialsOtherSpelling` | src/middleware.ts:10-16 | a token that differs only in unused padding bits names admin / 1234s and is still refused, as is a lower-case scheme |
| `Middleware.ParseBasicByBytes` | src/middleware.ts:10 | two Basic headers whose tokens decode alike read as the same credentials |
| `Middleware.FinalGroupsAlike` | src/middleware.ts:10 | "NHN=" and "NHM=" decode to the same bytes, differing only in bits the padding discards |
| `Middleware.OtherTokenSameBytes` | src/middleware.ts:10 | "YWRtaW46MTIzNHN=" and "YWRtaW46MTIzNHM=" decode to the same bytes |
| `Middleware.Excluded` | src/middleware.ts:24 | the lookahead of the matcher: the text after the slash starts with `_next`, `api`, `images`, `static`, or `favicon`, any character but a line terminator, and `ico` |
| `Middleware.Gated` | src/middleware.ts:24 | the gate runs for a path that starts with a slash, is not excluded, and has no line terminator |
| `Middleware.ExcludedIsPrefixTest` | src/middleware.ts:24 | any path that starts with "/_next", "/api", "/images", "/static" or "/favicon.ico" bypasses the gate, "/apiary" included |
| `Middleware.PagesAreGated` | src/middleware.ts:24 | every other path without line terminators is gated, "/" included |
| `Middleware.OtherInitialNotExcluded` | src/middleware.ts:24 | a first segment starting with none of `_ a f i s` is never excluded |
| `Middleware.PageGated` | src/middleware.ts:24 | a path whose first character after "/" is none of `_ a f i s` is gated |
| `Middleware.AboutGated` | src/middleware.ts:24 | "/about" shares a first letter with "/api" and is still gated |
| `Middleware.PagesExamples` | src/middleware.ts:24 | "/", "/about", "/dashboard" and "/profile" are gated |
| `Middleware.BypassExamples` | src/middleware.ts:24 | "/api/properties", "/apiary", "/favicon.ico" and "/faviconXico" bypass the gate |
| `Store.CountOwned` | src/app/api/users/profile/route.ts:27-32 | the property count is at most the table size, and zero exactly when no property names the owner |
| `Store.CountAuthored` | src/app/api/users/profile/route.ts:27-32 | the post count is at most the table size, and zero exactly when no post names the author |
| `Store.WellFormed` | src/app/api/users/profile/route.ts:90-96 | the database constraints the handlers rely on: users are filed under their own email; user, post and property ids are each distinct within their table and below their counter; no two users share a phone |
| `PostsRoute.Normalize` | src/app/api/posts/route.ts:40-44 | `x?.trim() \|\| null` is null exactly for a missing or blank field; otherwise it is the trimmed text, non-empty with no edge whitespace |
| `PostsRoute.NormalizeIdempotent` | src/app/api/posts/route.ts:40-44 | normalising a normalised field changes nothing |
| `PostsRoute.Published` | src/app/api/posts/route.ts:41 | `published \|\| false` is true exactly for a true flag |
| `PostsRoute.TooShort` | src/app/api/posts/route.ts:18-24 | `!x \|\| x.trim().length < min`: a field is refused when missing, empty, or shorter than the minimum once trimmed |
| `PostsRoute.Create` | src/app/api/posts/route.ts:6-65 | 401 without a session email; then 400 for a short title, checked before content; then 400 for short content; then 404 for an unknown email; only a 201 changes the store, appending one post with the next id and the session user's id as author, its title and content trimmed and its optional fields normalised; the reply shows that post without its author |
| `PostsRoute.CreatedPostShape` | src/app/api/posts/route.ts:36-46 | the appended post has a trimmed title of at least 2 units and trimmed content of at least 10; each optional field is null or trimmed and non-empty, so normalising it again changes nothing |
| `PostsRoute.ValidationBeforeLookup` | src/app/api/posts/route.ts:18-33 | an invalid body gets the same 400 whatever the store holds, so a 400 wins over a 404 |
| `PostsRoute.CreatePreservesWellFormed` | src/app/api/posts/route.ts:36-46 | creating a post keeps the store well formed and the new id differs from every stored one |
| `PostsRoute.CreateCountsForAuthor` | src/app/api/posts/route.ts:36-46 | a new post adds one to its author's post count and nothing to anyone else's |
| `ProfileRoute.Get` | src/app/api/users/profile/route.ts:6-45 | 401 without a session email; 404 for an unknown email; 200 for a known one, with the user's record without its password and the counts of the user's properties and posts |
| `ProfileRoute.GetIgnoresPassword` | src/app/api/users/profile/route.ts:16-33 | the reply does not depend on the password |
| `ProfileRoute.GetShowsStoredRecord` | src/app/api/users/profile/route.ts:14-40 | in a well-formed store the reply is the session user's record without its password |
| `ProfileRoute.PhoneMatches` | src/app/api/users/profile/route.ts:63 | `/^09[0-9]{9}$/`: exactly eleven characters, "09" followed by nine ASCII digits |
| `ProfileRoute.NameRejected` | src/app/api/users/profile/route.ts:59-61 | `name && name.length < 2`: a name is refused only when given, non-empty and shorter than two units |
| `ProfileRoute.PhoneRejected` | src/app/api/users/profile/route.ts:63-65 | `phone && !regex.test(phone)`: a phone is refused only when given, non-empty and not matching |
| `ProfileRoute.AcceptedPhoneShape` | src/app/api/users/profile/route.ts:63-65 | a phone that passes is eleven ASCII digits beginning "09" |
| `ProfileRoute.PhoneExamples` | src/app/api/users/profile/route.ts:63 | "09123456789" passes; "123456" and "09abc456789" do not |
| `ProfileRoute.Merge` | src/app/api/users/profile/route.ts:67-74 | name, phone and image change only for truthy values; bio changes whenever it is not undefined, and null clears it; id, email, password, verification and role never change |
| `ProfileRoute.MergeIdempotent` | src/app/api/users/profile/route.ts:67-74 | applying an update twice is applying it once |
| `ProfileRoute.PhoneConflict` | src/app/api/users/profile/route.ts:67-95 | the unique-constraint error P2002: the update writes a phone that another user already holds |
| `ProfileRoute.Put` | src/app/api/users/profile/route.ts:47-99 | 401; then 400 for a short name; then 400 for a bad phone; then 500 when the session email has no record; then 400 "شماره تلفن قبلاً استفاده شده است" for a phone another user holds; otherwise 200 with the merged record without its password, and only the session user's record changes |
| `ProfileRoute.PutPreservesWellFormed` | src/app/api/users/profile/route.ts:67-95 | an update never gives two users the same phone or moves a record to another email |
| `ProfileRoute.PutIdempotent` | src/app/api/users/profile/route.ts:67-89 | repeating an accepted update returns the same reply and changes nothing more |
| `PropertiesRoute.Flag` | src/app/api/properties/route.ts:32-35 | `flag \|\| false` is true exactly for a true flag |
| `PropertiesRoute.Owner` | src/app/api/properties/route.ts:39 | `ownerId \|\| 1` is never 0, and a non-zero owner is kept |
| `PropertiesRoute.Build` | src/app/api/properties/route.ts:17-41 | the row copies every body field; a flag is set only when sent as true; the status is the sent one if non-empty, else "active"; the images are the sent list, else []; the owner is never 0 |
| `PropertiesRoute.Create` | src/app/api/properties/route.ts:5-51 | 400 when title, description, type, deal type, area or location is missing, so an area of 0 counts as missing; 500 when no user has the owner id; otherwise 201 and the row is appended |
| `PropertiesRoute.CreateFreshAndOrdered` | src/app/api/properties/route.ts:17-43 | a created row has a fresh id, keeps the store well formed, and keeps its images in the order sent |
| `PropertiesRoute.RejectedLeavesStore` | src/app/api/properties/route.ts:10-15 | a rejected body leaves the table unchanged and the store well formed |
| `PropertiesRoute.ImagesKeepOrder` | src/app/api/properties/route.ts:38 | images ["a.jpg", "b.jpg"] are stored in that order |
| `PropertiesRoute.CreateCountsForOwner` | src/app/api/properties/route.ts:17-41 | a new listing adds one to its owner's property count and nothing to anyone else's |
| `SignupRoute.Signup` | src/app/api/auth/signup/route.ts:5-55 | 400 unless name, email and password are all given; 409 for a known email; both leave the store unchanged; otherwise one unverified USER is added with the hashed password and 201 returns its id, name, email and role |
| `SignupRoute.SignupPreservesWellFormed` | src/app/api/auth/signup/route.ts:18-41 | a signup adds exactly one user with a fresh id, and emails stay unique |
| `SignupRoute.SecondSignupConflicts` | src/app/api/auth/signup/route.ts:18-27 | signing up again with the same email gets 409 and changes nothing |
| `SignupRoute.StoredPasswordIsHash` | src/app/api/auth/signup/route.ts:30-37 | changing the password changes the stored users exactly when it changes the hash |
| `UploadRoute.Extension` | src/app/api/upload/route.ts:41 | the extension has no dot, and it is the whole name exactly when the name has no dot |
| `UploadRoute.Acceptable` | src/app/api/upload/route.ts:20-33 | a file is accepted when its type starts with "image/" and it has at most 5 MiB |
| `UploadRoute.GeneratedName` | src/app/api/upload/route.ts:39-42 | `profile-${timestamp}-${random}.${extension}` |
| `UploadRoute.Post` | src/app/api/upload/route.ts:7-62 | 400 with no file; then 400 for a type not starting with "image/"; then 400 above 5 MiB; otherwise 200 with the generated name, and the file is written to the storage directory under that name |
| `UploadRoute.SizeBoundary` | src/app/api/upload/route.ts:20-33 | 5,242,880 bytes are accepted and one more byte is refused; a large non-image gets the type error |
| `UploadRoute.ExtensionRecovered` | src/app/api/upload/route.ts:39-42 | the generated name's last extension is the original one when the random part has no dot |
| `UploadRoute.TimestampRecovered` | src/app/api/upload/route.ts:39-42 | the generated name starts "profile-" and the timestamp reads back from the digits before the next dash |
| `UploadRoute.ReplyHidesDirectory` | src/app/api/upload/route.ts:45-62 | the reply names the file and never the directory; the written path is the directory, a slash and that name |
| `Display.ImagePath` | src/components/Navbar.tsx:76-86 | `getImagePath`: null for a missing or empty name; a name starting "http" unchanged; any other name under "/api/images/profiles/" |
| `Display.ImagePathRoundTrip` | src/app/profile/page.tsx:71-81 | the stored name can be read back from the URL, so distinct names get distinct URLs |
| `Display.StoredName` | src/app/profile/page.tsx:71-81 | the inverse of `getImagePath` on the names it routes: the text after "/api/images/profiles/" |
| `Display.HttpNamedFileIsNotRouted` | src/components/HomeComponents/ListingsGrid.tsx:19-29 | a file named "httpx.jpg" is used as if it were a URL |
| `Display.UploadedNameIsRouted` | src/app/profile/edit/page.tsx:85-95 | every name the upload route generates is served through the image API |
| `Display.Fallback` | src/components/Navbar.tsx:71-73 | the navbar's name, email and image come from the profile if truthy, else the session, else null |
| `Display.NavbarShowsSavedName` | src/components/Navbar.tsx:55-71 | after an accepted profile update that sets a name, the navbar reads the profile back and shows that name, whatever the session holds |
| `Display.NavbarFallsBackToSession` | src/components/Navbar.tsx:55-71 | when the stored name is empty or missing, the navbar shows the session's name, and no name when that is empty too |
| `Display.IsActive` | src/components/Navbar.tsx:132 | a link is highlighted when the path equals its href |
| `Display.AtMostOneActive` | src/components/Navbar.tsx:36-41 | a nav link is active when the path equals its href; since the hrefs are distinct, at most one link is active |
| `Display.CoverImage` | src/components/HomeComponents/ListingsGrid.tsx:42 | a card shows the placeholder when there is no first image or it is empty; otherwise it shows `getImagePath` of the first image, from which that image's name reads back |
| `Display.ShowsPrice` | src/components/HomeComponents/ListingsGrid.tsx:53 | `listing.price && …`: the badge is shown for a price that is present and non-zero |
| `Display.ShowsPriceLikeForm` | src/components/HomeComponents/ListingsGrid.tsx:53-59 | a price gets a badge exactly when the new-property form would show it as non-empty text |
| `Display.PriceCorner` | src/components/HomeComponents/ListingsGrid.tsx:53-59 | the card's corner holds nothing for a missing price, the number 0 for a zero price, and the badge exactly when the price is shown |
| `Display.ZeroPriceLeavesStrayZero` | src/components/HomeComponents/ListingsGrid.tsx:53 | a listing priced 0 shows a bare "0" and no badge |
| `Display.FixedPriceCorner` | src/components/HomeComponents/ListingsGrid.tsx:53-59 | without the stray zero: the badge exactly when the price is shown, otherwise nothing, and the same as the card for every price but 0 |
| `Display.DetailHref` | src/components/HomeComponents/ListingsGrid.tsx:86 | `/properties/${String(listing.id)}` |
| `Display.DetailHrefNamesListing` | src/components/HomeComponents/ListingsGrid.tsx:86 | the detail link is "/properties/" followed by digits that read back as the id |
| `Display.DetailHrefInjective` | src/components/HomeComponents/ListingsGrid.tsx:86 | distinct listings link to distinct pages |
| `Display.RoleLabel` | src/app/profile/page.tsx:289 | "ADMIN" is shown as the administrator and every other role as a regular user |
| `Display.SignedUpUserIsRegular` | src/app/profile/page.tsx:289 | every account signup creates is shown on the profile page as a regular user |
| `Display.OrText` | src/app/profile/page.tsx:174 | `value \|\| fallback` is never empty |
| `Display.ProfileLines` | src/app/profile/page.tsx:174-318 | a missing name shows "بدون نام" in the header and "ثبت نشده" in the details; a missing phone shows "ثبت نشده"; the bio block appears only for a non-empty bio, and then shows that bio |
| `Display.ProfileShowsStoredRecord` | src/app/profile/page.tsx:174-274 | the profile page's header, name and phone rows show the stored name and phone that `GET` read, or their placeholders |
| `Display.ProfileShowsSavedPhone` | src/app/profile/page.tsx:274 | after an accepted update that sets a phone, the profile page shows that phone |
| `Display.UserName` | src/app/dashboard/page.tsx:19 | the greeting name is never empty: the session name if truthy, else the email's text before the first '@' if non-empty, else "کاربر" |
| `Display.UserNameFromEmail` | src/app/dashboard/page.tsx:19 | a session without a name is greeted by the local part of the email |
| `Display.DashboardPage` | src/app/dashboard/page.tsx:7-23 | without a session only the sign-in message is shown |
| `NewPostPage.TrimmedRule` | src/app/dashboard/posts/new/page.tsx:71-81 | a field is "required" exactly when blank and fails exactly when its trimmed length is below the minimum |
| `NewPostPage.RuleError` | src/app/dashboard/posts/new/page.tsx:71-81 | one field's error exists exactly when its trimmed length is below the minimum, and is the "required" message when the field is blank, else the "too short" one |
| `NewPostPage.CategoryError` | src/app/dashboard/posts/new/page.tsx:83-85 | the category has an error exactly when it is longer than 50 units |
| `NewPostPage.Validate` | src/app/dashboard/posts/new/page.tsx:68-89 | title and content get an error exactly when their trimmed length is below 2 or 10, with the required or too-short message; category gets one exactly when longer than 50; nothing else is checked |
| `NewPostPage.ClientMatchesServer` | src/app/dashboard/posts/new/page.tsx:71-81 | the page flags title or content exactly when the posts route would refuse it |
| `NewPostPage.ToBody` | src/app/dashboard/posts/new/page.tsx:101-107 | `JSON.stringify(formData)` as the route reads it: every field present |
| `NewPostPage.HandleSubmit` | src/app/dashboard/posts/new/page.tsx:91-108 | the form is sent exactly when the error map is empty, and then it is sent as it stands and the success message is cleared; a held-back form keeps its success message |
| `NewPostPage.SentBodyPassesServer` | src/app/dashboard/posts/new/page.tsx:94-107 | whatever the page sends passes the route's title and content checks |
| `NewPostPage.HandleCreated` | src/app/dashboard/posts/new/page.tsx:110-118 | a created post shows the success message; a refusal replaces every error with the route's message, or the generic one when the route gave none |
| `NewPostPage.SentFormIsCreated` | src/app/dashboard/posts/new/page.tsx:91-118 | for a signed-in user with a record, every form the page sends is created and the success message is shown |
| `NewPostPage.CategoryLimitIsClientOnly` | src/app/dashboard/posts/new/page.tsx:83-85 | a form whose only fault is a long category is held back, although the route would create the post |
| `NewPostPage.HandleInputChange` | src/app/dashboard/posts/new/page.tsx:51-66 | editing a field changes that field's value and clears only that field's error |
| `NewPostPage.EditedTitlePasses` | src/app/dashboard/posts/new/page.tsx:51-81 | after typing a title of at least two units, trimmed, a submit flags no title error |
| `NewPostPage.HandleReset` | src/app/dashboard/posts/new/page.tsx:127-139 | reset restores the empty form and clears the errors and the success message |
| `NewPostPage.EmptyFormErrors` | src/app/dashboard/posts/new/page.tsx:25-33 | the empty form has exactly the two "required" errors |
| `NewPostPage.ResetFormIsRefused` | src/app/dashboard/posts/new/page.tsx:127-139 | a reset form cannot be sent |
| `EditProfilePage.Load` | src/app/profile/edit/page.tsx:64-72 | each field is the stored value or ""; the preview is the stored image through `getImagePath` |
| `EditProfilePage.Validate` | src/app/profile/edit/page.tsx:176-193 | a non-empty name shorter than 2, a non-empty phone not matching 09 and nine digits, and a bio over 500 units each get their error, and nothing else does |
| `EditProfilePage.ClientMatchesServer` | src/app/profile/edit/page.tsx:176-189 | the page flags name or phone exactly when the profile route would refuse it |
| `EditProfilePage.ToPatch` | src/app/profile/edit/page.tsx:206-212 | `JSON.stringify(formData)` as the route reads it: every field present, so the bio is always written |
| `EditProfilePage.HandleSubmit` | src/app/profile/edit/page.tsx:195-212 | the form is sent exactly when it has no errors |
| `EditProfilePage.HandleSaved` | src/app/profile/edit/page.tsx:214-223 | a success shows the saved message; a failure leaves only the `submit` error, the route's message or else "خطا در به‌روزرسانی پروفایل", and keeps the form, preview and success message |
| `EditProfilePage.SentFormIsSaved` | src/app/profile/edit/page.tsx:195-223 | a sent form, for a known user whose new phone no one else holds, is accepted by the route and the page shows the saved message |
| `EditProfilePage.SentFormPassesValidation` | src/app/profile/edit/page.tsx:195-212 | a sent form is accepted for any known user whose new phone no one else holds |
| `EditProfilePage.ResaveLoaded` | src/app/profile/edit/page.tsx:64-71 | saving an untouched loaded form writes the record back unchanged, except that a missing bio becomes "" |
| `EditProfilePage.ShortStoredNameBlocksSave` | src/app/profile/edit/page.tsx:179-181 | a one-letter name, which signup accepts, blocks saving the loaded form |
| `EditProfilePage.HandleImageChange` | src/app/profile/edit/page.tsx:114-141 | no file does nothing; a non-image or a file over 5 MiB replaces all errors with the image error and is not uploaded; any other file clears the image error and is uploaded |
| `EditProfilePage.SentFileIsStored` | src/app/profile/edit/page.tsx:119-140 | the page uploads exactly the files the upload route accepts |
| `EditProfilePage.HandleUploaded` | src/app/profile/edit/page.tsx:158-167 | a successful upload sets only the form's image, to the returned name, and clears the image error; a failure leaves only the image error; neither changes the preview or the success message |
| `EditProfilePage.ChosenPictureIsSaved` | src/app/profile/edit/page.tsx:114-164 | choosing an acceptable picture puts its generated name in the form, and that name is served by the image API |
| `PriceInput.KeepPriceChars` | src/app/dashboard/properties/new/page.tsx:210 | the kept text has only ASCII digits and commas, and is empty exactly when the input has neither |
| `PriceInput.DropCommas` | src/app/dashboard/properties/new/page.tsx:218 | no comma is left |
| `PriceInput.OnlyDigits` | src/app/dashboard/properties/new/page.tsx:210-218 | the ASCII digits of a text, empty exactly when it has none |
| `PriceInput.DropCommasOfKept` | src/app/dashboard/properties/new/page.tsx:210-218 | dropping commas from the kept characters leaves exactly the digits |
| `PriceInput.HandlePriceChange` | src/app/dashboard/properties/new/page.tsx:208-223 | null exactly when nothing is kept; unchanged exactly when only commas are kept; otherwise the value of the digits |
| `PriceInput.OnlyDigitsAppend` | src/app/dashboard/properties/new/page.tsx:210 | the digits of a joined text are the digits of each part |
| `PriceInput.OnlyDigitsOfDigits` | src/app/dashboard/properties/new/page.tsx:210 | a digit string is its own digits |
| `PriceInput.OnlyDigitsAgree` | src/app/dashboard/properties/new/page.tsx:210 | texts that agree wherever either has a digit have the same digits |
| `PriceInput.GroupDigits` | src/app/dashboard/properties/new/page.tsx:226-229 | thousands grouping yields only digits and commas, and is at least as long as the digits |
| `PriceInput.GroupDigitsKeepsDigits` | src/app/dashboard/properties/new/page.tsx:226-229 | the grouping's digits are the digits grouped |
| `PriceInput.LocalChar` | src/app/dashboard/properties/new/page.tsx:228 | the fa-IR format writes each digit as the Persian digit of the same value and never as an ASCII digit |
| `PriceInput.FormatFa` | src/app/dashboard/properties/new/page.tsx:228 | the shown price is non-empty and has no ASCII digit |
| `PriceInput.FormatPrice` | src/app/dashboard/properties/new/page.tsx:226-229 | the shown price is empty exactly for null or 0 |
| `PriceInput.DisplayHasNothingToKeep` | src/app/dashboard/properties/new/page.tsx:210-228 | the parser keeps nothing of a shown price |
| `PriceInput.ReadsDigits` | src/app/dashboard/properties/new/page.tsx:210-221 | text holding an ASCII digit is read as the value of its digits |
| `PriceInput.OnlyDigitsAroundComma` | src/app/dashboard/properties/new/page.tsx:226-229 | a comma between a text and a digit string drops out of the digits |
| `PriceInput.DigitAfterDigitFree` | src/app/dashboard/properties/new/page.tsx:210-221 | a digit typed after text without ASCII digits is read on its own |
| `PriceInput.TypingAfterDisplayLosesPrice` | src/app/dashboard/properties/new/page.tsx:208-229 | typing a digit after a shown price stores that digit alone |
| `PriceInput.EditingDisplayClearsPrice` | src/app/dashboard/properties/new/page.tsx:212-215 | deleting characters from a shown price sets the field to null |
| `PriceInput.PriceExample` | src/app/dashboard/properties/new/page.tsx:414-415 | the field shows 123; typing 4 stores 4, not 1234 |
| `PriceInput.AsciiChar` | src/app/dashboard/properties/new/page.tsx:210 | a Persian digit folds to the ASCII digit of the same value, and every other character is kept |
| `PriceInput.FoldDigits` | src/app/dashboard/properties/new/page.tsx:210 | folding keeps the length |
| `PriceInput.Fixed` | src/app/dashboard/properties/new/page.tsx:208-223 | the corrected parser reads the digits after folding Persian digits to ASCII |
| `PriceInput.FoldedDisplayDigits` | src/app/dashboard/properties/new/page.tsx:226-229 | the folded digits of a shown price are the price written in decimal |
| `PriceInput.FixedReadsDisplay` | src/app/dashboard/properties/new/page.tsx:414-415 | the corrected parser reads every shown price back as itself |
| `PriceInput.DigitAfterNumber` | src/app/dashboard/properties/new/page.tsx:218-221 | a digit d typed after text whose digits spell n makes 10 n + d |
| `PriceInput.FixedTypingAppends` | src/app/dashboard/properties/new/page.tsx:414-415 | with the corrected parser, typing a digit after a shown price n stores 10 n + d |
| `PriceInput.FoldAppend` | src/app/dashboard/properties/new/page.tsx:210 | folding a joined text folds each part |
| `PriceInput.FixedAgreesOnAscii` | src/app/dashboard/properties/new/page.tsx:208-223 | on text without Persian digits the corrected parser is the original |
| `NewPropertyPage.InitialInSync` | src/app/dashboard/properties/new/page.tsx:60-88 | the initial form has no images and no files, so the two lists start in step |
| `NewPropertyPage.Splice` | src/app/dashboard/properties/new/page.tsx:150-151 | `splice(i, 1)` removes position i and keeps the rest in order; an index past the end removes nothing |
| `NewPropertyPage.RemoveImage` | src/app/dashboard/properties/new/page.tsx:146-155 | the same position leaves the images and the uploaded files; nothing else changes |
| `NewPropertyPage.RemoveImageKeepsInSync` | src/app/dashboard/properties/new/page.tsx:146-155 | after a removal images[k] is still the k-th uploaded file's name |
| `NewPropertyPage.ClientCheck` | src/app/dashboard/properties/new/page.tsx:97-103 | a file passes exactly when the upload route would accept it; the messages name the file |
| `NewPropertyPage.ClientCheckMatchesServer` | src/app/dashboard/properties/new/page.tsx:97-116 | the client check and the upload route accept the same files |
| `NewPropertyPage.SendFile` | src/app/dashboard/properties/new/page.tsx:96-125 | an acceptable file comes back with its generated name, its original name and the URL "/images/" + name; otherwise the client's message comes back |
| `NewPropertyPage.SendAll` | src/app/dashboard/properties/new/page.tsx:96 | one outcome per selected file, in selection order |
| `NewPropertyPage.FirstFailure` | src/app/dashboard/properties/new/page.tsx:127-139 | no failure exactly when every file succeeded; otherwise a failure with only successes before it |
| `NewPropertyPage.SucceededBehindSuccess` | src/app/dashboard/properties/new/page.tsx:127-139 | a success in front of a batch of successes is a batch of successes |
| `NewPropertyPage.Files` | src/app/dashboard/properties/new/page.tsx:127 | the uploaded files of a fully successful batch, in order |
| `NewPropertyPage.Names` | src/app/dashboard/properties/new/page.tsx:128 | their names, in order |
| `NewPropertyPage.HandleFileUpload` | src/app/dashboard/properties/new/page.tsx:91-143 | if every file succeeds, the names and files are appended in selection order with a count message; otherwise nothing is appended and the first failure is shown |
| `NewPropertyPage.UploadKeepsInSync` | src/app/dashboard/properties/new/page.tsx:91-143 | a batch keeps the lists in step; it appends exactly when every selected file is acceptable; the k-th new image is the k-th file's generated name |
| `NewPropertyPage.AllSentIffAcceptable` | src/app/dashboard/properties/new/page.tsx:96-139 | every file of a batch comes back exactly when every file is acceptable |
| `NewPropertyPage.AppendKeepsInSync` | src/app/dashboard/properties/new/page.tsx:127-129 | appending files and their names together keeps the two lists in step |
| `NewPropertyPage.AddedNames` | src/app/dashboard/properties/new/page.tsx:127-128 | the names a successful batch adds are the generated names, in selection order |
| `NewPropertyPage.FirstFailureAt` | src/app/dashboard/properties/new/page.tsx:127-139 | the message shown is that of the first refused file, whatever comes after it |
| `NewPropertyPage.OneBadFileAppendsNothing` | src/app/dashboard/properties/new/page.tsx:96-139 | one unacceptable file keeps every name out, and the first such file's message is shown |
| `NewPropertyPage.HandlePriceChange` | src/app/dashboard/properties/new/page.tsx:208-223 | the page's price handler, with the parser as written: the result is the form with at most its own price field changed; null when nothing is kept, no change when only commas are kept, otherwise the value of the ASCII digits |
| `NewPropertyPage.ApplyPrice` | src/app/dashboard/properties/new/page.tsx:208-223 | a parser outcome changes the form in the named price field only: null, the number, or nothing |
| `NewPropertyPage.TypingReplacesPrice` | src/app/dashboard/properties/new/page.tsx:414-415 | typing a digit into a price input that shows n stores that digit alone |
| `NewPropertyPage.FixedHandlePriceChange` | src/app/dashboard/properties/new/page.tsx:208-223 | the handler with the corrected parser: at most its own price field changes, and the result is the original's on text without Persian digits |
| `NewPropertyPage.FixedTypingExtendsPrice` | src/app/dashboard/properties/new/page.tsx:414-415 | with the corrected parser, typing a digit d into a price input that shows n stores 10 n + d |
| `NewPropertyPage.ToBody` | src/app/dashboard/properties/new/page.tsx:171-176 | `JSON.stringify(formData)` as the properties route reads it: every field present |
| `NewPropertyPage.HandleSubmit` | src/app/dashboard/properties/new/page.tsx:158-176 | the form is sent exactly when title, property type and deal type are non-empty; otherwise the required-fields error is shown |
| `NewPropertyPage.ServerAcceptedImpliesSent` | src/app/dashboard/properties/new/page.tsx:165-176 | any form the route would accept passes the page's guard |
| `NewPropertyPage.ZeroAreaPassesGuard` | src/app/dashboard/properties/new/page.tsx:68 | a form that keeps the initial area 0 passes the guard and is refused with 400 |
| `NewPropertyPage.CreatedFromPage` | src/app/dashboard/properties/new/page.tsx:78 | a created listing keeps the page's images, and its status and owner unless they were emptied; the untouched status is stored as "فعال", not "active" |

## Left out

- Ill-typed JSON bodies are not modelled. For example, a number where the code calls `.trim()` or `.length` throws, and the route gives 500. Every body field is a typed `Option`.
- `createdAt` and `updatedAt` are not modelled, because they come from the database clock. Neither is the `select` of `createdAt` in the posts reply.
- Prisma is replaced by the `Store.Db` value:
  - a unique-constraint violation of `PUT /api/users/profile` (P2002) is the case where another user already holds the phone;
  - a failed foreign key in `POST /api/properties` is the case where no user has the owner id;
  - other database faults that reach the generic 500 of each handler are not modelled.
- The signup route's 500 is not modelled, and neither is the race between its email check and the insert. The model is sequential.
- bcrypt is the parameter `hash`. Its cost factor 10 and its salt are not modelled.
- The upload route's directory creation and file write are not modelled. The written path is the model's record of them.
- `Date.now()` and `Math.random().toString(36).substring(2, 8)` are the parameters `timestamp` and `random`. The digits and length of the random part are not modelled.
- `path.join` does not normalise in the model. A file name with slashes is joined as it stands.
- The session is an `Option` email, or name and email. next-auth itself is not modelled.
- The pages' redirects and loading states are not modelled, and neither is JSX rendering.
- `FileReader` data-URL previews in the profile editor are not modelled.
- `Promise.all` rejection timing: for a refused file, `NewPropertyPage.HandleFileUpload` shows the first refusal in selection order. The requests of the files before it have been sent by then, but none has settled: a client-side refusal rejects its promise while `map` runs, so the first such refusal is what the page shows. A failure reported by the upload route itself would be shown in the order the requests settle. Such a failure cannot happen in the model, because the route accepts what the client accepts.
- `NewPropertyPage.SendFile`: files uploaded before a sibling was refused are still written by the route. The model does not track those writes.
- `handleNumberChange` and `handleIntChange` of the new-property form are not modelled. They use `parseFloat` and `parseInt` on free text, which relies on floating point. Neither is `parseInt` precision above 2^53 in the price parser.
- `PriceInput.FormatFa`: `Intl.NumberFormat('fa-IR')` is modelled only as Persian digits with the Arabic thousands separator every three digits. Other CLDR details, such as minimum grouping digits and the bidirectional marks some engines add, are not modelled. Only the absence of ASCII digits matters to the finding.
- The new-post form's checkbox handling and preview mode are not modelled, apart from `HandleInputChange`. Neither is its network-failure message or the redirect after a created post.
- The profile page's `toLocaleDateString` and the listing card's `toLocaleString("fa-IR")` price text are not modelled; `Display.PriceCorner` records whether the badge or a stray "0" appears, not its text, because both are locale formatting.
- The other routes are not modelled: `/api/properties/[id]`, `/api/posts/[id]`, `/api/images/[...path]` and the NextAuth configuration. The model adds no ownership or path-traversal check that the code lacks.
- DashboardClient, the dashboard list pages, Footer, HeroSection, EmblaSlider and DeletePropertyButton are presentation only.

## Findings

| source | as written | input that shows it | evidently intended | confidence | as-written member | corrected member |
|---|---|---|---|---|---|---|
| src/app/dashboard/properties/new/page.tsx:208-229 | the price input displays the stored price through `formatPrice`, which uses Persian digits (fa-IR), while `handlePriceChange` keeps only ASCII `\d` and commas | price 123 shown as "۱۲۳"; typing "4" gives "۱۲۳4", which stores 4; a Persian keyboard, or deleting one character, stores null | typing after the shown price extends it: 123 and "4" give 1234 | medium, not executed | `PriceInput.TypingAfterDisplayLosesPrice` | `PriceInput.FixedTypingAppends` |
| src/components/HomeComponents/ListingsGrid.tsx:53-59 | the price badge is guarded by `listing.price && (…)`; for a price of 0 the expression is the number 0, which React renders as text | a listing with price 0 shows "0" in the card's corner and no badge | a zero price shows nothing, as a missing one does | high, not executed | `Display.ZeroPriceLeavesStrayZero` | `Display.FixedPriceCorner` |

The as-written parser is `PriceInput.HandlePriceChange`. `PriceInput.PriceExample` and `PriceInput.EditingDisplayClearsPrice` show the discrepancy.

The corrected parser is `PriceInput.Fixed`. It folds Persian digits to ASCII before parsing. `PriceInput.FixedReadsDisplay` proves that it reads every shown price back as itself. `PriceInput.FixedAgreesOnAscii` proves that it agrees with the original on ASCII text. At page level, `NewPropertyPage.HandlePriceChange` uses the parser as written and `NewPropertyPage.TypingReplacesPrice` shows the lost price; `NewPropertyPage.FixedHandlePriceChange` uses `Fixed`, and `NewPropertyPage.FixedTypingExtendsPrice` proves that typing extends the price.

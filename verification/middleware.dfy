/** The site-wide HTTP Basic gate (src/middleware.ts): a fixed user-id and
    password, compared as one exact header string, and the path matcher that
    decides which requests pass through the gate at all. */
module Middleware {
  import opened Wrappers
  import opened JsText
  import Base64

  const UserId: string := "admin"
  const Password: string := "1234s"

  /** The challenge sent with every refusal. */
  const Challenge: string := "Basic realm=\"Protected Area\""

  /** The Authorization value for a user-id and password: the scheme "Basic",
      one space, and the base 64 of `user-id ":" password` (section 2 of
      RFC 7617); None where `btoa` would throw. */
  function BasicHeader(user: string, pass: string): Option<string> {
    match Base64.Btoa(user + ":" + pass)
    case None => None
    case Some(token) => Some("Basic " + token)
  }

  /** The one header value the gate lets through. */
  function Expected(): (h: string)
    ensures h == "Basic YWRtaW46MTIzNHM="
  {
    ExpectedToken();
    BasicHeader(UserId, Password).GetOr("")
  }

  /** `btoa("admin:1234s")`, computed group by group: "adm" "in:" "123" "4s". */
  lemma ExpectedToken()
    ensures Base64.Btoa(UserId + ":" + Password) == Some("YWRtaW46MTIzNHM=")
  {
    CredentialBytes();
    var b := Base64.Latin1(UserId + ":" + Password).value;
    var t3: seq<Base64.Byte> := [0x34, 0x73];
    var t2: seq<Base64.Byte> := [0x31, 0x32, 0x33] + t3;
    var t1: seq<Base64.Byte> := [0x69, 0x6e, 0x3a] + t2;
    assert b == [0x61, 0x64, 0x6d] + t1;
    FinalPair();
    assert Base64.Encode(t2) == "MTIz" + Base64.Encode(t3) by { GroupMTIz(); assert t2[3..] == t3; }
    assert Base64.Encode(t1) == "aW46" + Base64.Encode(t2) by { GroupaW46(); assert t1[3..] == t2; }
    assert Base64.Encode(b) == "YWRt" + Base64.Encode(t1) by { GroupYWRt(); assert b[3..] == t1; }
    assert "YWRt" + ("aW46" + ("MTIz" + "NHM=")) == "YWRtaW46MTIzNHM=";
  }

  lemma CredentialBytes()
    ensures Base64.Latin1(UserId + ":" + Password)
         == Some([0x61, 0x64, 0x6d, 0x69, 0x6e, 0x3a, 0x31, 0x32, 0x33, 0x34, 0x73])
  {
    var s := "admin:1234s";
    assert UserId + ":" + Password == s;
    assert Base64.IsLatin1(s);
    var b := Base64.Latin1(s).value;
    var want: seq<Base64.Byte> := [0x61, 0x64, 0x6d, 0x69, 0x6e, 0x3a, 0x31, 0x32, 0x33, 0x34, 0x73];
    forall i | 0 <= i < |b| ensures b[i] == want[i] {
      assert b[i] == s[i] as int;
    }
    assert |b| == |want|;
    assert b == want;
  }

  lemma GroupYWRt() ensures Base64.EncodeTriple(0x61, 0x64, 0x6d) == "YWRt" {}
  lemma GroupaW46() ensures Base64.EncodeTriple(0x69, 0x6e, 0x3a) == "aW46" {}
  lemma GroupMTIz() ensures Base64.EncodeTriple(0x31, 0x32, 0x33) == "MTIz" {}
  lemma FinalPair() ensures Base64.Encode([0x34, 0x73]) == "NHM=" {
    assert Base64.EncodeTriple(0x34, 0x73, 0) == "NHMA";
  }

  /** What the gate does with a request. */
  datatype GateReply = Next | Refuse(status: nat, wwwAuthenticate: string)

  /** `middleware(req)`: the request goes on exactly when its Authorization
      header is the expected string, character for character; a missing header
      and every other string get 401 with the Basic challenge. */
  function Gate(authorization: Option<string>): (r: GateReply)
    ensures r == Next <==> authorization == Some("Basic YWRtaW46MTIzNHM=")
    ensures r != Next ==> r == Refuse(401, "Basic realm=\"Protected Area\"")
  {
    if authorization == Some(Expected()) then Next else Refuse(401, Challenge)
  }

  /** Reads an Authorization value back as (user-id, password): the exact
      prefix "Basic ", a base 64 token, Latin-1 text split at its first colon. */
  function ParseBasic(h: string): (r: Option<(string, string)>)
    ensures r.Some? ==>
      && StartsWith(h, "Basic ")
      && Base64.Decode(h[6..]).Some?
      && ':' !in r.value.0
      && Base64.FromLatin1(Base64.Decode(h[6..]).value) == r.value.0 + [':'] + r.value.1
  {
    if !StartsWith(h, "Basic ") then None
    else
      match Base64.Decode(h[6..])
      case None => None
      case Some(bytes) =>
        var text := Base64.FromLatin1(bytes);
        var user := BeforeFirst(text, ':');
        if |user| == |text| then None else Some((user, text[|user| + 1..]))
  }

  /** Any user-id without a colon and password in Latin-1 survive the header
      round trip. */
  lemma ParseBasicHeader(user: string, pass: string)
    requires ':' !in user
    requires BasicHeader(user, pass).Some?
    ensures ParseBasic(BasicHeader(user, pass).value) == Some((user, pass))
  {
    var h := BasicHeader(user, pass).value;
    var text := user + ":" + pass;
    Base64.AtobBtoa(text);
    assert h[6..] == Base64.Btoa(text).value;
    BeforeFirstOfJoin(user, ':', pass);
  }

  /** Every request the gate admits carries the credentials admin / 1234s. */
  lemma AdmittedCarriesCredentials(authorization: Option<string>)
    requires Gate(authorization) == Next
    ensures ParseBasic(authorization.value) == Some((UserId, Password))
  {
    ParseBasicHeader(UserId, Password);
  }

  /** The comparison is on the header text, not on the credentials: a
      lower-case scheme, and a token whose unused padding bits differ, both
      name admin / 1234s and are both refused. */
  lemma SameCredentialsOtherSpelling()
    ensures ParseBasic("Basic " + "YWRtaW46MTIzNHN=") == Some((UserId, Password))
    ensures Gate(Some("Basic " + "YWRtaW46MTIzNHN=")) == Refuse(401, Challenge)
    ensures Gate(Some("basic " + "YWRtaW46MTIzNHM=")) == Refuse(401, Challenge)
  {
    ExpectedToken();
    ParseBasicHeader(UserId, Password);
    OtherTokenSameBytes();
    var odd, good := "YWRtaW46MTIzNHN=", "YWRtaW46MTIzNHM=";
    var h1, h2 := "Basic " + odd, "Basic " + good;
    assert h1[..6] == "Basic " && h1[6..] == odd;
    assert h2[..6] == "Basic " && h2[6..] == good;
    ParseBasicByBytes(h1, h2);
    assert h1[20] != h2[20];
    assert ("basic " + good)[0] != h2[0];
  }

  /** Two Basic headers whose tokens decode to the same bytes parse alike. */
  lemma ParseBasicByBytes(h1: string, h2: string)
    requires StartsWith(h1, "Basic ") && StartsWith(h2, "Basic ")
    requires Base64.Decode(h1[6..]) == Base64.Decode(h2[6..])
    ensures ParseBasic(h1) == ParseBasic(h2)
  {
  }

  /** "NHN=" differs from "NHM=" only in the two bits that padding discards. */
  lemma FinalGroupsAlike()
    ensures Base64.Decode("NHN=") == Base64.Decode("NHM=")
  {
    assert Base64.CharSextet('N') == Some(13) && Base64.CharSextet('M') == Some(12);
    assert Base64.CharSextet('H') == Some(7);
    assert Base64.DecodeQuad(13, 7, 13, 0)[..2] == Base64.DecodeQuad(13, 7, 12, 0)[..2];
  }

  /** The two tokens share their first three groups and end in final groups
      that decode alike. */
  lemma OtherTokenSameBytes()
    ensures Base64.Decode("YWRtaW46MTIzNHN=") == Base64.Decode("YWRtaW46MTIzNHM=")
  {
    FinalGroupsAlike();
    Base64.DecodeSharedPrefix("YWRtaW46MTIz", 3, "NHN=", "NHM=");
    assert "YWRtaW46MTIz" + "NHN=" == "YWRtaW46MTIzNHN=";
    assert "YWRtaW46MTIz" + "NHM=" == "YWRtaW46MTIzNHM=";
  }

  /** A line terminator, which `.` in a JavaScript regular expression does not match. */
  predicate IsLineTerminator(c: char) {
    c == '\n' || c == '\r' || c == '\U{2028}' || c == '\U{2029}'
  }

  /** The negative lookahead of `config.matcher`: the text after the leading
      slash begins with `_next`, `api`, `images`, `static`, or `favicon`, any
      one non-line-terminator character, `ico` (the `.` is a regex wildcard). */
  predicate Excluded(rest: string) {
    || StartsWith(rest, "_next")
    || StartsWith(rest, "api")
    || (|rest| >= 11 && rest[..7] == "favicon" && !IsLineTerminator(rest[7]) && rest[8..11] == "ico")
    || StartsWith(rest, "images")
    || StartsWith(rest, "static")
  }

  /** Whether `/((?!_next|api|favicon.ico|images|static).*)` matches the whole
      path, that is, whether the gate runs for it. */
  predicate Gated(path: string) {
    && |path| >= 1 && path[0] == '/'
    && !Excluded(path[1..])
    && forall i :: 1 <= i < |path| ==> !IsLineTerminator(path[i])
  }

  /** The matcher is a prefix test: anything after an excluded name is
      excluded too, including paths such as "/apiary" that are not API routes. */
  lemma ExcludedIsPrefixTest(name: string, tail: string)
    requires name in {"_next", "api", "images", "static", "favicon.ico"}
    ensures !Gated("/" + name + tail)
  {
    var rest := ("/" + name + tail)[1..];
    assert rest == name + tail;
    assert rest[..|name|] == name;
  }

  /** A path whose first segment does not begin with an excluded name is gated
      (given no line terminators), the root path included. */
  lemma PagesAreGated(rest: string)
    requires !Excluded(rest)
    requires forall i :: 0 <= i < |rest| ==> !IsLineTerminator(rest[i])
    ensures Gated("/" + rest)
  {
    assert ("/" + rest)[1..] == rest;
  }

  /** A path segment that starts with none of `_`, `a`, `f`, `i`, `s` cannot
      start with an excluded name. */
  lemma OtherInitialNotExcluded(rest: string)
    requires rest != [] && rest[0] !in {'_', 'a', 'f', 'i', 's'}
    ensures !Excluded(rest)
  {
    assert rest[..1] == [rest[0]];
  }

  /** A page whose first segment starts with none of the excluded initials is
      gated. */
  lemma PageGated(rest: string)
    requires rest != [] && rest[0] !in {'_', 'a', 'f', 'i', 's'}
    requires forall i :: 0 <= i < |rest| ==> !IsLineTerminator(rest[i])
    ensures Gated("/" + rest)
  {
    OtherInitialNotExcluded(rest);
    PagesAreGated(rest);
  }

  /** "about" starts like "api" but is not excluded. */
  lemma AboutGated()
    ensures Gated("/about")
  {
    assert !Excluded("about") by {
      assert "about"[..3][1] != "api"[1];
    }
    PagesAreGated("about");
    assert "/" + "about" == "/about";
  }

  /** The home page, /about, the dashboard and the profile are behind the gate. */
  lemma PagesExamples()
    ensures Gated("/") && Gated("/about") && Gated("/dashboard") && Gated("/profile")
  {
    PagesAreGated("");
    assert "/" + "" == "/";
    AboutGated();
    PageGated("dashboard");
    assert "/" + "dashboard" == "/dashboard";
    PageGated("profile");
    assert "/" + "profile" == "/profile";
  }

  /** API routes, /apiary and the favicon bypass it, as does "/faviconXico". */
  lemma BypassExamples()
    ensures !Gated("/api/properties") && !Gated("/apiary") && !Gated("/favicon.ico") && !Gated("/faviconXico")
  {
    ExcludedIsPrefixTest("api", "/properties");
    assert "/" + "api" + "/properties" == "/api/properties";
    ExcludedIsPrefixTest("api", "ary");
    assert "/" + "api" + "ary" == "/apiary";
    ExcludedIsPrefixTest("favicon.ico", "");
    assert "/" + "favicon.ico" + "" == "/favicon.ico";
    assert "/faviconXico"[1..][..7] == "favicon" && "/faviconXico"[1..][8..11] == "ico";
  }
}

/** The admin credential check shared by every privileged route: HTTP Basic
    authentication (section 2 of RFC 7617) against the configured
    `ADMIN_USERNAME` and `ADMIN_PASSWORD`, with the user-pass string encoded
    as UTF-8 and then in base 64 (section 4 of RFC 4648). */
module Auth {
  import opened Text
  import opened Json
  import Utf8
  import Base64

  /** The server's configuration; an unset variable is `None`. */
  datatype Config = Config(username: Option<string>, password: Option<string>)

  /** A configured value counts only when it is set and not empty. */
  predicate Configured(v: Option<string>) { v.Some? && v.value != "" }

  /** The user-pass string of RFC 7617: user-id, a colon, the password. */
  function UserPass(username: string, password: string): string
  {
    username + ":" + password
  }

  /** `"Basic " + Buffer.from(userPass).toString("base64")`. */
  function ExpectedHeader(username: string, password: string): string
  {
    "Basic " + Base64.Encode(Utf8.Encode(UserPass(username, password)))
  }

  /** `checkAuth`: fails closed when either credential is unset or empty;
      otherwise the `authorization` header (absent is `None`) must equal the
      expected header exactly. */
  function CheckAuth(header: Option<string>, config: Config): (ok: bool)
    ensures ok ==> Configured(config.username) && Configured(config.password)
  {
    if !Configured(config.username) || !Configured(config.password) then false
    else header == Some(ExpectedHeader(config.username.value, config.password.value))
  }

  /** The reply of `POST /api/auth/verify`: `{ success: true }`, or 401. */
  function VerifyPost(header: Option<string>, config: Config): (r: Response<bool>)
    ensures r.Success? <==> CheckAuth(header, config)
    ensures r.Success? ==> r.value
    ensures r.Failure? ==> r == Fail(401, Unauthorized)
  {
    if CheckAuth(header, config) then Success(true) else Fail(401, Unauthorized)
  }

  /** Fail closed: without both credentials no header at all is accepted. */
  lemma NotConfiguredRejectsAll(config: Config, header: Option<string>)
    requires !Configured(config.username) || !Configured(config.password)
    ensures !CheckAuth(header, config)
    ensures VerifyPost(header, config) == Fail(401, Unauthorized)
  {
  }

  /** A header carrying the base 64 of the UTF-8 of some text `t` is accepted
      exactly when `t` is the configured user-pass string: the encodings are
      injective, so no other text passes. */
  lemma AcceptedExactly(config: Config, t: string)
    requires Configured(config.username) && Configured(config.password)
    ensures CheckAuth(Some("Basic " + Base64.Encode(Utf8.Encode(t))), config)
        <==> t == UserPass(config.username.value, config.password.value)
  {
    var u, p := config.username.value, config.password.value;
    var h := "Basic " + Base64.Encode(Utf8.Encode(t));
    if h == ExpectedHeader(u, p) {
      assert Base64.Encode(Utf8.Encode(t)) == h[6..] == Base64.Encode(Utf8.Encode(UserPass(u, p)));
      Base64.EncodeInjective(Utf8.Encode(t), Utf8.Encode(UserPass(u, p)));
      Utf8.EncodeInjective(t, UserPass(u, p));
    }
  }

  /** The colon is not escaped, so the pair is not recovered: every pair whose
      joined user-pass string equals the configured one is accepted, and no
      other, e.g. user "admin:pa" with password "ss" when the configured
      pair is "admin" and "pa:ss". */
  lemma AcceptedPairs(config: Config, username: string, password: string)
    requires Configured(config.username) && Configured(config.password)
    ensures CheckAuth(Some(ExpectedHeader(username, password)), config)
        <==> UserPass(username, password) == UserPass(config.username.value, config.password.value)
  {
    AcceptedExactly(config, UserPass(username, password));
  }

  /** The comparison is exact, so a lower-case scheme name is refused although
      RFC 7617 makes the scheme name case-insensitive. */
  lemma SchemeIsCaseSensitive(config: Config, credentials: string)
    ensures !CheckAuth(Some("basic " + credentials), config)
  {
    if Configured(config.username) && Configured(config.password) {
      var e := ExpectedHeader(config.username.value, config.password.value);
      assert e[0] == 'B';
      assert ("basic " + credentials)[0] == 'b';
    }
  }

  /** Extra white space between the scheme and the credentials is refused:
      no base 64 text starts with a space. */
  lemma ExtraSpaceRejected(config: Config, credentials: string)
    ensures !CheckAuth(Some("Basic  " + credentials), config)
  {
    if Configured(config.username) && Configured(config.password) {
      var t := UserPass(config.username.value, config.password.value);
      var enc := Base64.Encode(Utf8.Encode(t));
      assert |Utf8.Encode(t)| >= |t| > 0;
      assert enc[0] != ' ';
      assert ("Basic " + enc)[6] == enc[0];
      assert ("Basic  " + credentials)[6] == ' ';
    }
  }

  /** What `btoa` produces in the admin console: the base 64 of the Latin-1
      bytes, or an error (`None`) for a character beyond U+00FF. */
  function Btoa(s: string): Option<string>
  {
    match Utf8.Latin1(s)
    case None => None
    case Some(bs) => Some(Base64.Encode(bs))
  }

  /** The header the admin console attaches to every privileged request. */
  function ClientHeader(username: string, password: string): Option<string>
  {
    match Btoa(UserPass(username, password))
    case None => None
    case Some(b) => Some("Basic " + b)
  }

  /** For ASCII credentials the console's `btoa` header and the server's
      `Buffer` header coincide, so the console is let in exactly when what it
      joins equals what the server joins. */
  lemma ClientHeaderAccepted(config: Config, username: string, password: string)
    requires Configured(config.username) && Configured(config.password)
    requires Utf8.IsAscii(UserPass(username, password))
    ensures ClientHeader(username, password) == Some(ExpectedHeader(username, password))
    ensures CheckAuth(ClientHeader(username, password), config)
        <==> UserPass(username, password) == UserPass(config.username.value, config.password.value)
  {
    Utf8.AsciiLatin1IsUtf8(UserPass(username, password));
    AcceptedPairs(config, username, password);
  }
}

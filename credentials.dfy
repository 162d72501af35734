/**
 * Registry credentials: the per-host table persisted in
 * `registry-auth.json` (`AuthConfig`) and the resolution chain that picks
 * the authentication for a reference (`Client::auth`).
 *
 * A table value is the base 64 text of `username:password`.  User names and
 * passwords are kept as the bytes of their UTF-8 encoding, since that is
 * what gets encoded.
 */
module Credentials {
  import opened Wrappers
  import opened Text
  import Base64
  import opened Distribution

  /** `RegistryAuth`: how requests to the registry are authenticated. */
  datatype RegistryAuth = Anonymous | Basic(username: seq<byte>, password: seq<byte>)

  /** What the Docker credential helper can hand back. */
  datatype DockerCredential =
    | UsernamePassword(username: seq<byte>, password: seq<byte>)
    | IdentityToken(token: seq<byte>)

  datatype AuthError =
    | NoConfigDir                     // `dirs::config_dir()` found no directory
    | NoCredentials(server: string)   // no entry for the host
    | NotBase64                       // the stored value does not decode
    | NotUtf8                         // the decoded bytes are not a string
    | MissingSecret                   // the decoded text has no ':'

  /** Host to base 64 text of `username:password`. */
  type AuthTable = map<string, string>

  /**
   * What credential resolution depends on besides the reference:
   * whether a per-user configuration directory exists, the table stored in
   * the credential file (None when the file is missing or does not parse)
   * and the Docker credential helper (None when it reports an error).
   */
  datatype CredentialEnv = CredentialEnv(
    configDir: bool,
    stored: Option<AuthTable>,
    helper: string -> Option<DockerCredential>)

  /** The value `insert` stores: `base64(username ":" password)`. */
  function EncodeCredential(username: seq<byte>, password: seq<byte>): string
  {
    Base64.Encode(username + [Colon] + password)
  }

  /**
   * `load_default`: a missing configuration directory is an error, while a
   * credential file that cannot be loaded yields an empty table.
   */
  function LoadDefault(configDir: bool, stored: Option<AuthTable>): (r: Result<AuthTable, AuthError>)
    ensures r.Failure? <==> !configDir
    ensures r.Failure? ==> r.error == NoConfigDir
    ensures configDir && stored.None? ==> r == Success(map[])
    ensures configDir && stored.Some? ==> r == Success(stored.value)
  {
    if !configDir then Failure(NoConfigDir)
    else match stored
      case None => Success(map[])
      case Some(t) => Success(t)
  }

  /** Decoding of a stored value: base 64, then UTF-8, then a split at the first ':'. */
  function DecodeCredential(encoded: string): (r: Result<RegistryAuth, AuthError>)
    ensures r.Success? ==> r.value.Basic? && Colon !in r.value.username
  {
    match Base64.Decode(encoded)
    case None => Failure(NotBase64)
    case Some(bytes) =>
      if !ValidUtf8(bytes) then Failure(NotUtf8)
      else
        match SplitOnce(bytes, Colon)
        case None => Failure(MissingSecret)
        case Some(parts) => Success(Basic(parts.0, parts.1))
  }

  /** The lookup half of `get_auth_from_default`, once the table is loaded. */
  function Lookup(table: AuthTable, server: string): (r: Result<RegistryAuth, AuthError>)
    ensures r == Failure(NoCredentials(server)) <==> server !in table
    ensures r.Success? ==> r.value.Basic? && Colon !in r.value.username
  {
    if server !in table then Failure(NoCredentials(server))
    else DecodeCredential(table[server])
  }

  /** `get_auth_from_default`: load the default table, then look the host up. */
  function GetAuthFromDefault(server: string, configDir: bool,
                              stored: Option<AuthTable>): (r: Result<RegistryAuth, AuthError>)
    ensures !configDir ==> r == Failure(NoConfigDir)
    ensures r.Success? <==>
      configDir && stored.Some? && server in stored.value && DecodeCredential(stored.value[server]).Success?
  {
    match LoadDefault(configDir, stored)
    case Failure(e) => Failure(e)
    case Success(table) => Lookup(table, server)
  }

  /** `strip_suffix('/')`, falling back to the text itself: at most one '/' goes. */
  function StripTrailingSlash(s: string): (r: string)
    ensures r == s || r + "/" == s
    ensures |s| > 0 && s[|s| - 1] == '/' ==> r + "/" == s
  {
    if |s| > 0 && s[|s| - 1] == '/' then s[..|s| - 1] else s
  }

  /**
   * `Client::auth`: the stored credential for the host, else the Docker
   * helper's user name and password, else anonymous.  An identity token from
   * the helper is not supported and also means anonymous.
   */
  function Auth(reference: Reference, env: CredentialEnv): (r: Result<RegistryAuth, AuthError>)
    ensures r.Success?
    ensures var server := StripTrailingSlash(reference.resolvedRegistry);
      r.value.Basic? <==>
        (GetAuthFromDefault(server, env.configDir, env.stored).Success? ||
         (env.helper(server).Some? && env.helper(server).value.UsernamePassword?))
  {
    var server := StripTrailingSlash(reference.resolvedRegistry);
    match GetAuthFromDefault(server, env.configDir, env.stored)
    case Success(c) => Success(c)
    case Failure(_) =>
      match env.helper(server)
      case None => Success(Anonymous)
      case Some(UsernamePassword(username, password)) => Success(Basic(username, password))
      case Some(IdentityToken(_)) => Success(Anonymous)
  }

  /**
   * A stored value decodes to exactly the pair it was made from, unless the
   * user name itself holds a ':' (the password may hold any number of them).
   */
  lemma CredentialRoundTrip(username: seq<byte>, password: seq<byte>)
    requires ValidUtf8(username) && ValidUtf8(password)
    ensures DecodeCredential(EncodeCredential(username, password)).Success?
    ensures DecodeCredential(EncodeCredential(username, password)) == Success(Basic(username, password))
            <==> Colon !in username
  {
    var text := username + [Colon] + password;
    Base64.DecodeEncode(text);
    JoinIsUtf8(username, password);
    assert Colon in text by { assert text[|username|] == Colon; }
    if Colon !in username {
      SplitOnceJoin(username, password, Colon);
    }
  }

  /** Every value that decodes is the encoding of the pair it decodes to. */
  lemma DecodedIsCanonical(encoded: string)
    requires DecodeCredential(encoded).Success?
    ensures var c := DecodeCredential(encoded).value;
      c.Basic? && Colon !in c.username && EncodeCredential(c.username, c.password) == encoded
  {
    var bytes := Base64.Decode(encoded).value;
    Base64.EncodeDecode(encoded);
  }

  /** Looking a host up after storing a pair for it gives that pair back; other hosts are unaffected. */
  lemma LookupAfterInsert(table: AuthTable, server: string, username: seq<byte>, password: seq<byte>, other: string)
    requires ValidUtf8(username) && ValidUtf8(password) && Colon !in username
    ensures Lookup(table[server := EncodeCredential(username, password)], server) == Success(Basic(username, password))
    ensures other != server ==>
      Lookup(table[server := EncodeCredential(username, password)], other) == Lookup(table, other)
  {
    CredentialRoundTrip(username, password);
  }

  /** A stored credential wins: the Docker helper is not consulted. */
  lemma StoredCredentialWins(reference: Reference, env: CredentialEnv, helper: string -> Option<DockerCredential>)
    requires GetAuthFromDefault(StripTrailingSlash(reference.resolvedRegistry), env.configDir, env.stored).Success?
    ensures Auth(reference, env) == Auth(reference, env.(helper := helper))
    ensures Auth(reference, env) == GetAuthFromDefault(StripTrailingSlash(reference.resolvedRegistry), env.configDir, env.stored)
  {
  }

  /** Without a usable stored credential, the result is the helper's pair or anonymous. */
  lemma HelperFallback(reference: Reference, env: CredentialEnv)
    requires GetAuthFromDefault(StripTrailingSlash(reference.resolvedRegistry), env.configDir, env.stored).Failure?
    ensures var h := env.helper(StripTrailingSlash(reference.resolvedRegistry));
      Auth(reference, env) ==
        if h.Some? && h.value.UsernamePassword? then Success(Basic(h.value.username, h.value.password))
        else Success(Anonymous)
  {
  }

  /** A registry written with one trailing '/' resolves exactly as without it. */
  lemma AuthIgnoresTrailingSlash(reference: Reference, env: CredentialEnv)
    requires |reference.resolvedRegistry| == 0 || reference.resolvedRegistry[|reference.resolvedRegistry| - 1] != '/'
    ensures Auth(reference.(resolvedRegistry := reference.resolvedRegistry + "/"), env) == Auth(reference, env)
  {
    var s := reference.resolvedRegistry + "/";
    assert s[..|s| - 1] == reference.resolvedRegistry;
  }

  /**
   * After a pair is stored for a host, every reference whose registry is that
   * host (with or without one trailing '/') authenticates with exactly that
   * pair, whatever the Docker helper holds.
   */
  lemma AuthAfterInsert(reference: Reference, env: CredentialEnv, table: AuthTable, username: seq<byte>, password: seq<byte>)
    requires env.configDir
    requires ValidUtf8(username) && ValidUtf8(password) && Colon !in username
    requires env.stored == Some(table[StripTrailingSlash(reference.resolvedRegistry) := EncodeCredential(username, password)])
    ensures Auth(reference, env) == Success(Basic(username, password))
  {
    var server := StripTrailingSlash(reference.resolvedRegistry);
    LookupAfterInsert(table, server, username, password, server);
  }

  /** `AuthConfig`: the credential table loaded in memory. */
  class AuthConfig {
    var auths: AuthTable

    constructor (auths: AuthTable)
      ensures this.auths == auths
    {
      this.auths := auths;
    }

    /** `insert`: store the encoded pair under the host, replacing any earlier entry. */
    method Insert(server: string, username: seq<byte>, password: seq<byte>)
      modifies this
      ensures auths == old(auths)[server := EncodeCredential(username, password)]
    {
      var encoded := Base64.Encode(username + [Colon] + password);
      auths := auths[server := encoded];
    }
  }

  /** The credential file at the default per-user location. */
  class AuthFile {
    /** The table the file holds; None when it is missing or does not parse. */
    var stored: Option<AuthTable>

    constructor (stored: Option<AuthTable>)
      ensures this.stored == stored
    {
      this.stored := stored;
    }
  }
}

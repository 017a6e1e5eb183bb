/**
  How the server authenticates logins: password logins against the configured
  accounts, where the first account with the login's username decides;
  public-key logins against the keys of an authorized-keys file, compared by
  their wire encoding; and the server configuration that installs both.
 */
module SshConfig {
  import opened Wrappers
  import Wire
  import FilePath
  import Os
  import Handler

  /** One configured login (the Go record `Accounts`). */
  datatype Account = Account(Username: string, Password: string)

  /** The server's configuration record. */
  datatype Config = Config(
    Accounts: seq<Account>,
    BasePath: string,
    SSHKeyPath: string,
    Address: string,
    Port: string,
    SftpAuthorizedKeysFile: string)

  const UserNotFound := "user not found"
  const PasswordNotMatched := "password not matched"

  /** `isValidAccount`'s answer: a message, and whether the login is valid. */
  function AccountCheck(accounts: seq<Account>, username: string, password: string): (out: (string, bool))
    ensures out.1 <==> out.0 == ""
    ensures out.0 == "" || out.0 == PasswordNotMatched || out.0 == UserNotFound
  {
    if accounts == [] then (UserNotFound, false)
    else if accounts[0].Username == username then
      if accounts[0].Password == password then ("", true) else (PasswordNotMatched, false)
    else AccountCheck(accounts[1..], username, password)
  }

  /** Account `i` is the first whose username is `username`. */
  predicate FirstMatch(accounts: seq<Account>, username: string, i: int)
  {
    0 <= i < |accounts| && accounts[i].Username == username &&
    forall j :: 0 <= j < i ==> accounts[j].Username != username
  }

  /** The first account with the username decides, by its password alone. */
  lemma {:induction false} FirstMatchDecides(accounts: seq<Account>, username: string, password: string, i: int)
    requires FirstMatch(accounts, username, i)
    ensures AccountCheck(accounts, username, password) ==
              if accounts[i].Password == password then ("", true) else (PasswordNotMatched, false)
    decreases i
  {
    if i > 0 {
      FirstMatchDecides(accounts[1..], username, password, i - 1);
    }
  }

  /** A login is valid exactly when the first account with its username has its password. */
  lemma {:induction false} AccountCheckValid(accounts: seq<Account>, username: string, password: string)
    ensures AccountCheck(accounts, username, password) == ("", true) <==>
            exists i :: FirstMatch(accounts, username, i) && accounts[i].Password == password
  {
    if accounts == [] {
    } else if accounts[0].Username == username {
      if accounts[0].Password == password {
        assert FirstMatch(accounts, username, 0);
      } else {
        forall i | FirstMatch(accounts, username, i)
          ensures accounts[i].Password != password
        {
          assert i == 0;
        }
      }
    } else {
      var tail := accounts[1..];
      AccountCheckValid(tail, username, password);
      if AccountCheck(tail, username, password) == ("", true) {
        var i :| FirstMatch(tail, username, i) && tail[i].Password == password;
        assert FirstMatch(accounts, username, i + 1);
      }
      if exists i :: FirstMatch(accounts, username, i) && accounts[i].Password == password {
        var i :| FirstMatch(accounts, username, i) && accounts[i].Password == password;
        assert FirstMatch(tail, username, i - 1);
      }
    }
  }

  /** "user not found" exactly when no account has the username. */
  lemma {:induction false} AccountCheckUnknown(accounts: seq<Account>, username: string, password: string)
    ensures AccountCheck(accounts, username, password) == (UserNotFound, false) <==>
            forall i :: 0 <= i < |accounts| ==> accounts[i].Username != username
  {
    if accounts != [] && accounts[0].Username != username {
      AccountCheckUnknown(accounts[1..], username, password);
      assert forall i :: 1 <= i < |accounts| ==> accounts[i] == accounts[1..][i - 1];
    }
  }

  /** Accounts after one with the username are never consulted. */
  lemma {:induction false} LaterAccountsIgnored(accounts: seq<Account>, more: seq<Account>, username: string, password: string)
    requires exists i :: 0 <= i < |accounts| && accounts[i].Username == username
    ensures AccountCheck(accounts + more, username, password) == AccountCheck(accounts, username, password)
  {
    assert (accounts + more)[0] == accounts[0];
    if accounts[0].Username != username {
      var i :| 0 <= i < |accounts| && accounts[i].Username == username;
      assert accounts[1..][i - 1].Username == username;
      assert (accounts + more)[1..] == accounts[1..] + more;
      LaterAccountsIgnored(accounts[1..], more, username, password);
    }
  }

  /**
    `isValidAccount`: scans the accounts in order and, on a valid login only,
    records the user and the configured base path for the handlers.
   */
  method IsValidAccount(root: Config, env: Handler.Globals, username: string, password: string) returns (msg: string, ok: bool)
    modifies env
    ensures (msg, ok) == AccountCheck(root.Accounts, username, password)
    ensures ok ==> env.User == username && env.BasePath == root.BasePath
    ensures !ok ==> env.User == old(env.User) && env.BasePath == old(env.BasePath)
  {
    var i := 0;
    while i < |root.Accounts|
      invariant 0 <= i <= |root.Accounts|
      invariant AccountCheck(root.Accounts[i..], username, password) == AccountCheck(root.Accounts, username, password)
      invariant env.User == old(env.User) && env.BasePath == old(env.BasePath)
    {
      var acc := root.Accounts[i];
      if acc.Username == username {
        if acc.Password == password {
          env.SetUserAndBasePath(username, root.BasePath);
          return "", true;
        }
        return PasswordNotMatched, false;
      }
      assert root.Accounts[i..][1..] == root.Accounts[i + 1..];
      i := i + 1;
    }
    return UserNotFound, false;
  }

  /** A lower-case hexadecimal digit. */
  function HexDigit(n: nat): char
    requires n < 16
  {
    if n < 10 then ('0' as int + n) as char else ('a' as int + n - 10) as char
  }

  function HexValue(c: char): Option<nat>
  {
    if '0' <= c <= '9' then Some(c as int - '0' as int)
    else if 'a' <= c <= 'f' then Some(c as int - 'a' as int + 10)
    else None
  }

  lemma HexValueOfDigit(n: nat)
    requires n < 16
    ensures HexValue(HexDigit(n)) == Some(n)
  {
  }

  /** The control characters with a one-letter escape, by their letters. */
  function LetterOf(c: char): Option<char>
  {
    if c == '\n' then Some('n') else if c == '\r' then Some('r') else if c == '\t' then Some('t')
    else if c as int == 7 then Some('a') else if c as int == 8 then Some('b')
    else if c as int == 12 then Some('f') else if c as int == 11 then Some('v')
    else None
  }

  function CharOfLetter(l: char): Option<char>
  {
    if l == 'n' then Some('\n') else if l == 'r' then Some('\r') else if l == 't' then Some('\t')
    else if l == 'a' then Some(7 as char) else if l == 'b' then Some(8 as char)
    else if l == 'f' then Some(12 as char) else if l == 'v' then Some(11 as char)
    else None
  }

  /**
    One character as Go's `%q` verb writes it inside the quotes: the quote and
    the backslash escaped, the seven control characters with a letter escape by
    their letter, the other ASCII control characters and DEL as `\x` and two
    hexadecimal digits, and every other character as it is.
   */
  function EscapeChar(c: char): string
  {
    if c == '"' || c == '\\' then ['\\', c]
    else if LetterOf(c).Some? then ['\\', LetterOf(c).value]
    else if c as int < 0x20 || c as int == 0x7f then ['\\', 'x', HexDigit(c as int / 16), HexDigit(c as int % 16)]
    else [c]
  }

  function Escape(s: string): string
  {
    if s == [] then [] else EscapeChar(s[0]) + Escape(s[1..])
  }

  /** Go's `%q`: a double-quoted string literal, which reads back as the string it quotes. */
  function Quote(s: string): (q: string)
    ensures Unquote(q) == Some(s)
  {
    var q := "\"" + Escape(s) + "\"";
    assert q[1..|q| - 1] == Escape(s);
    UnescapeEscape(s);
    q
  }

  /** Reads back the inside of a double-quoted literal. */
  function Unescape(t: string): Option<string>
  {
    if t == [] then Some([])
    else if t[0] == '"' then None
    else if t[0] != '\\' then
      match Unescape(t[1..])
      case Some(rest) => Some([t[0]] + rest)
      case None => None
    else if |t| < 2 then None
    else if t[1] == '"' || t[1] == '\\' || CharOfLetter(t[1]).Some? then
      var d := if CharOfLetter(t[1]).Some? then CharOfLetter(t[1]).value else t[1];
      match Unescape(t[2..])
      case Some(rest) => Some([d] + rest)
      case None => None
    else if t[1] == 'x' && |t| >= 4 && HexValue(t[2]).Some? && HexValue(t[3]).Some? then
      var d := (HexValue(t[2]).value * 16 + HexValue(t[3]).value) as char;
      match Unescape(t[4..])
      case Some(rest) => Some([d] + rest)
      case None => None
    else None
  }

  function Unquote(t: string): Option<string>
  {
    if |t| >= 2 && t[0] == '"' && t[|t| - 1] == '"' then Unescape(t[1..|t| - 1]) else None
  }

  lemma UnescapeChar(c: char, t: string)
    ensures Unescape(EscapeChar(c) + t) == match Unescape(t) case Some(rest) => Some([c] + rest) case None => None
  {
    var e := EscapeChar(c);
    if |e| == 4 {
      HexValueOfDigit(c as int / 16);
      HexValueOfDigit(c as int % 16);
      assert (e + t)[4..] == t;
      assert (e + t)[1] == 'x' && CharOfLetter('x').None?;
    } else if |e| == 2 {
      assert (e + t)[2..] == t;
    } else {
      assert (e + t)[1..] == t;
    }
  }

  lemma {:induction false} UnescapeEscape(s: string)
    ensures Unescape(Escape(s)) == Some(s)
  {
    if s != [] {
      UnescapeEscape(s[1..]);
      UnescapeChar(s[0], Escape(s[1..]));
      assert [s[0]] + s[1..] == s;
    }
  }

  const RejectedFor := " and rejected for "

  /** The error of a refused password login: it carries the reason and, recoverably, the user's name. */
  function Rejection(msg: string, user: string): (t: string)
    ensures |t| >= |msg| + |RejectedFor| && t[..|msg|] == msg && t[|msg|..|msg| + |RejectedFor|] == RejectedFor
    ensures Unquote(t[|msg| + |RejectedFor|..]) == Some(user)
  {
    var t := msg + RejectedFor + Quote(user);
    assert t[|msg| + |RejectedFor|..] == Quote(user);
    t
  }

  /** `ssh.Permissions`, with the one field the server fills. */
  datatype Permissions = Permissions(Extensions: map<string, string>)

  /**
    The password callback `SetAccountForSSHConfig` installs: grants with no
    permissions on a valid login, refuses otherwise naming the reason and the user.
   */
  method PasswordCallback(root: Config, env: Handler.Globals, user: string, pass: string)
    returns (perms: Option<Permissions>, err: Option<string>)
    modifies env
    ensures perms == None
    ensures var out := AccountCheck(root.Accounts, user, pass);
            (err == None <==> out.1) && (err.Some? ==> err.value == Rejection(out.0, user))
    ensures err == None ==> env.User == user && env.BasePath == root.BasePath
    ensures err.Some? ==> env.User == old(env.User) && env.BasePath == old(env.BasePath)
  {
    var msg, valid := IsValidAccount(root, env, user, pass);
    if !valid {
      return None, Some(Rejection(msg, user));
    }
    return None, None;
  }

  /** A public key: its algorithm name and the algorithm-specific rest of its encoding. */
  datatype PublicKey = PublicKey(Algorithm: seq<Wire.byte>, Data: seq<Wire.byte>)

  type Key = k: PublicKey | |k.Algorithm| < Wire.Uint32Limit witness PublicKey([], [])

  /** `PublicKey.Marshal`: the key's wire encoding, its algorithm name first as an SSH string. */
  function Marshal(k: Key): (b: seq<Wire.byte>)
    ensures |b| >= 4
  {
    Wire.EncodeString(k.Algorithm) + k.Data
  }

  /** `comparePublicKeys`: equal wire encodings, which holds exactly of the same key. */
  function ComparePublicKeys(key1: Key, key2: Key): (same: bool)
    ensures same <==> key1 == key2
  {
    if Marshal(key1) == Marshal(key2) then
      Wire.EncodeStringInjective(key1.Algorithm, key1.Data, key2.Algorithm, key2.Data);
      true
    else false
  }

  /**
    `ssh.FingerprintSHA256`: "SHA256:" and a digest of the key's encoding
    (the SHA-256 hash written in unpadded base64, here a parameter).
   */
  function FingerprintSHA256(digest: seq<Wire.byte> -> string, k: Key): string
  {
    "SHA256:" + digest(Marshal(k))
  }

  const UnknownPublicKey := "unknown public key for "

  /**
    The public-key callback `processPublicKeyAuth` installs: grants, recording
    the offered key's fingerprint, when an authorized key compares equal to it.
   */
  method PublicKeyCallback(authorizedKeys: seq<Key>, user: string, auth: Key, digest: seq<Wire.byte> -> string)
    returns (perms: Option<Permissions>, err: Option<string>)
    ensures perms.Some? <==> auth in authorizedKeys
    ensures perms.Some? ==> perms.value == Permissions(map["pubkey-fp" := FingerprintSHA256(digest, auth)]) && err == None
    ensures perms.None? ==> err == Some(UnknownPublicKey + Quote(user))
  {
    var i := 0;
    while i < |authorizedKeys|
      invariant 0 <= i <= |authorizedKeys|
      invariant forall j :: 0 <= j < i ==> authorizedKeys[j] != auth
    {
      var pubKey := authorizedKeys[i];
      if ComparePublicKeys(pubKey, auth) {
        return Some(Permissions(map["pubkey-fp" := FingerprintSHA256(digest, auth)])), None;
      }
      i := i + 1;
    }
    return None, Some(UnknownPublicKey + Quote(user));
  }

  /**
    A session after a public-key login on a server where no password login has
    happened yet. The callback grants the key but records no user, so the handler
    made next is bound to the empty user under the empty base path, and a client
    path resolves to itself, cleaned: anywhere on the host.
   */
  method KeySessionOnFreshServer(fs: Os.FileSystem, authorizedKeys: seq<Key>, user: string, auth: Key,
                                 digest: seq<Wire.byte> -> string, clientPath: string)
    returns (granted: bool, onDisk: string)
    requires auth in authorizedKeys
    modifies fs`trace
    ensures granted && onDisk == FilePath.Clean(clientPath)
  {
    var env := new Handler.Globals();
    var perms, err := PublicKeyCallback(authorizedKeys, user, auth, digest);
    var handlers, _ := Handler.NewSftpHandler(env, fs);
    var r := new Handler.Request("Stat", clientPath);
    var res := handlers.FileList.Filelist(r);
    FilePath.UnboundSandboxPath(clientPath);
    return perms.Some?, r.Filepath;
  }

  /**
    The public-key callback as its sessions need it: it decides like
    `PublicKeyCallback`, and on a grant it also records the user and the
    configured base path for the handlers, as a password login does.
   */
  method PublicKeyCallbackBindingUser(root: Config, env: Handler.Globals, authorizedKeys: seq<Key>, user: string,
                                      auth: Key, digest: seq<Wire.byte> -> string)
    returns (perms: Option<Permissions>, err: Option<string>)
    modifies env
    ensures perms.Some? <==> auth in authorizedKeys
    ensures perms.Some? ==>
              perms.value == Permissions(map["pubkey-fp" := FingerprintSHA256(digest, auth)]) && err == None &&
              env.User == user && env.BasePath == root.BasePath
    ensures perms.None? ==>
              err == Some(UnknownPublicKey + Quote(user)) &&
              env.User == old(env.User) && env.BasePath == old(env.BasePath)
  {
    perms, err := PublicKeyCallback(authorizedKeys, user, auth, digest);
    if perms.Some? {
      env.SetUserAndBasePath(user, root.BasePath);
    }
  }

  /**
    With that callback, a session after a public-key login is confined: a rooted
    client path resolves to the user's sandbox root followed by plain names.
   */
  method KeySessionConfined(root: Config, fs: Os.FileSystem, authorizedKeys: seq<Key>, user: string, auth: Key,
                            digest: seq<Wire.byte> -> string, clientPath: string)
    returns (granted: bool, onDisk: string)
    requires auth in authorizedKeys
    requires FilePath.IsRooted(clientPath) && (root.BasePath != "" || user != "")
    modifies fs`trace
    ensures granted
    ensures onDisk == FilePath.Descend(FilePath.SandboxRoot(root.BasePath, user), FilePath.CleanSegments(clientPath))
    ensures forall i :: 0 <= i < |FilePath.CleanSegments(clientPath)| ==> FilePath.IsName(FilePath.CleanSegments(clientPath)[i])
  {
    var env := new Handler.Globals();
    var perms, err := PublicKeyCallbackBindingUser(root, env, authorizedKeys, user, auth, digest);
    var handlers, _ := Handler.NewSftpHandler(env, fs);
    var r := new Handler.Request("Stat", clientPath);
    var res := handlers.FileList.Filelist(r);
    FilePath.RootedPathConfined(root.BasePath, user, clientPath);
    return perms.Some?, r.Filepath;
  }

  /** What `ssh.ParseAuthorizedKey` makes of the start of the bytes. */
  datatype ParseOutcome = Parsed(key: Key, rest: seq<Wire.byte>) | ParseError(message: string)

  const NoKeyFound := "ssh: no key found"

  /** A parser that yields a key has consumed at least one byte. */
  ghost predicate Consumes(parse: seq<Wire.byte> -> ParseOutcome)
  {
    forall b :: |b| > 0 && parse(b).Parsed? ==> |parse(b).rest| < |b|
  }

  /**
    The keys of an authorized-keys file, in file order: parsing stops cleanly at
    the end or where no further key is found, and fails on any other error.
   */
  function ParseKeys(parse: seq<Wire.byte> -> ParseOutcome, data: seq<Wire.byte>): (r: Result<seq<Key>, string>)
    requires Consumes(parse)
    ensures r.Success? ==> |r.value| <= |data|
    ensures r.Failure? ==> r.error != NoKeyFound
    decreases |data|
  {
    if |data| == 0 then Success([])
    else match parse(data)
      case ParseError(m) => if m == NoKeyFound then Success([]) else Failure(m)
      case Parsed(key, rest) => Prepend([key], ParseKeys(parse, rest))
  }

  function Prepend(keys: seq<Key>, r: Result<seq<Key>, string>): Result<seq<Key>, string>
  {
    if r.Success? then Success(keys + r.value) else r
  }

  /** The lines of a file that lists `keys`, each written by `format`. */
  function Lines(format: Key -> seq<Wire.byte>, keys: seq<Key>): seq<Wire.byte>
  {
    if keys == [] then [] else format(keys[0]) + Lines(format, keys[1..])
  }

  /**
    For a parser that reads back what `format` writes, the keys of a file that
    lists `keys` and then goes on with `tail` are `keys`, then those of `tail`.
   */
  lemma {:induction false} ParseKeysOfLines(parse: seq<Wire.byte> -> ParseOutcome, format: Key -> seq<Wire.byte>,
                                            keys: seq<Key>, tail: seq<Wire.byte>)
    requires Consumes(parse)
    requires forall k :: |format(k)| > 0
    requires forall k, t :: parse(format(k) + t) == Parsed(k, t)
    ensures ParseKeys(parse, Lines(format, keys) + tail) == Prepend(keys, ParseKeys(parse, tail))
  {
    if keys == [] {
      assert [] + tail == tail;
      PrependNothing(ParseKeys(parse, tail));
    } else {
      var rest := Lines(format, keys[1..]) + tail;
      assert Lines(format, keys) + tail == format(keys[0]) + rest;
      ParseKeysStep(parse, format, keys[0], rest);
      ParseKeysOfLines(parse, format, keys[1..], tail);
      PrependTwice([keys[0]], keys[1..], ParseKeys(parse, tail));
      assert [keys[0]] + keys[1..] == keys;
    }
  }

  lemma ParseKeysStep(parse: seq<Wire.byte> -> ParseOutcome, format: Key -> seq<Wire.byte>, k: Key, rest: seq<Wire.byte>)
    requires Consumes(parse)
    requires forall k :: |format(k)| > 0
    requires forall k, t :: parse(format(k) + t) == Parsed(k, t)
    ensures ParseKeys(parse, format(k) + rest) == Prepend([k], ParseKeys(parse, rest))
  {
    assert parse(format(k) + rest) == Parsed(k, rest);
    assert |format(k) + rest| > 0;
  }

  lemma PrependNothing(r: Result<seq<Key>, string>)
    ensures Prepend([], r) == r
  {
    if r.Success? {
      assert [] + r.value == r.value;
    }
  }

  lemma PrependTwice(a: seq<Key>, b: seq<Key>, r: Result<seq<Key>, string>)
    ensures Prepend(a, Prepend(b, r)) == Prepend(a + b, r)
  {
    if r.Success? {
      assert a + (b + r.value) == (a + b) + r.value;
    }
  }

  /** A file of keys followed by text that yields no key (an empty or a keyless tail) yields exactly its keys. */
  lemma FileOrder(parse: seq<Wire.byte> -> ParseOutcome, format: Key -> seq<Wire.byte>,
                  keys: seq<Key>, trailer: seq<Wire.byte>)
    requires Consumes(parse)
    requires forall k :: |format(k)| > 0
    requires forall k, t :: parse(format(k) + t) == Parsed(k, t)
    requires ParseKeys(parse, trailer) == Success([])
    ensures ParseKeys(parse, Lines(format, keys) + trailer) == Success(keys)
  {
    ParseKeysOfLines(parse, format, keys, trailer);
    assert keys + [] == keys;
  }

  /** Why loading the authorized keys ends the process. */
  datatype LoadError = ReadFailed(path: string, reason: string) | ParseFailed(message: string)

  /** What `loadAuthorizedKeys` yields for the file's contents, or the read error. */
  function LoadedKeys(path: string, file: Result<seq<Wire.byte>, string>, parse: seq<Wire.byte> -> ParseOutcome): (r: Result<seq<Key>, LoadError>)
    requires Consumes(parse)
    ensures (r.Failure? && r.error.ReadFailed?) <==> file.Failure?
    ensures r.Success? ==> |r.value| <= |file.value|
    ensures r.Failure? && r.error.ParseFailed? ==> r.error.message != NoKeyFound
  {
    if file.Failure? then Failure(ReadFailed(path, file.error))
    else
      var keys := ParseKeys(parse, file.value);
      if keys.Success? then Success(keys.value) else Failure(ParseFailed(keys.error))
  }

  /**
    `loadAuthorizedKeys`: parses one key after another, each time going on with
    the rest of the bytes. A failure models the process exit of `log.Fatalf`.
   */
  method LoadAuthorizedKeys(path: string, file: Result<seq<Wire.byte>, string>, parse: seq<Wire.byte> -> ParseOutcome)
    returns (keys: Result<seq<Key>, LoadError>)
    requires Consumes(parse)
    ensures keys == LoadedKeys(path, file, parse)
  {
    if file.Failure? {
      return Failure(ReadFailed(path, file.error));
    }
    var authorizedKeysBytes := file.value;
    var authorizedKeys: seq<Key> := [];
    assert ParseKeys(parse, file.value).Success? ==> [] + ParseKeys(parse, file.value).value == ParseKeys(parse, file.value).value;
    while |authorizedKeysBytes| > 0
      invariant ParseKeys(parse, file.value) == Prepend(authorizedKeys, ParseKeys(parse, authorizedKeysBytes))
      decreases |authorizedKeysBytes|
    {
      match parse(authorizedKeysBytes)
      case ParseError(m) =>
        if m == NoKeyFound {
          break;
        }
        return Failure(ParseFailed(m));
      case Parsed(pubKey, rest) =>
        ghost var more := ParseKeys(parse, rest);
        if more.Success? {
          assert (authorizedKeys + [pubKey]) + more.value == authorizedKeys + ([pubKey] + more.value);
        }
        authorizedKeys := authorizedKeys + [pubKey];
        authorizedKeysBytes := rest;
    }
    assert authorizedKeys + [] == authorizedKeys;
    return Success(authorizedKeys);
  }

  /**
    The parts of `ssh.ServerConfig` the server sets: the two fixed settings, and
    which authentication callbacks are installed (for public keys, with the keys
    the callback compares against).
   */
  class ServerConfig {
    var NoClientAuth: bool
    var ServerVersion: string
    var PasswordAuth: bool
    var PublicKeyAuth: Option<seq<Key>>

    constructor ()
      ensures !NoClientAuth && ServerVersion == "SSH-2.0-SFTP"
      ensures !PasswordAuth && PublicKeyAuth == None
    {
      NoClientAuth := false;
      ServerVersion := "SSH-2.0-SFTP";
      PasswordAuth := false;
      PublicKeyAuth := None;
    }
  }

  /** `SetAccountForSSHConfig`: installs the password callback and returns the same configuration. */
  method SetAccountForSSHConfig(sshConfig: ServerConfig) returns (r: ServerConfig)
    modifies sshConfig
    ensures r == sshConfig && sshConfig.PasswordAuth
    ensures sshConfig.NoClientAuth == old(sshConfig.NoClientAuth)
    ensures sshConfig.ServerVersion == old(sshConfig.ServerVersion)
    ensures sshConfig.PublicKeyAuth == old(sshConfig.PublicKeyAuth)
  {
    sshConfig.PasswordAuth := true;
    return sshConfig;
  }

  /**
    `processPublicKeyAuth`: with no authorized-keys file configured, nothing is
    installed; otherwise the file's keys are loaded and the public-key callback
    installed over them, unless loading ends the process.
   */
  method ProcessPublicKeyAuth(configSSH: ServerConfig, rootConfig: Config,
                              file: Result<seq<Wire.byte>, string>, parse: seq<Wire.byte> -> ParseOutcome)
    returns (fatal: Option<LoadError>)
    requires Consumes(parse)
    modifies configSSH
    ensures configSSH.NoClientAuth == old(configSSH.NoClientAuth)
    ensures configSSH.ServerVersion == old(configSSH.ServerVersion)
    ensures configSSH.PasswordAuth == old(configSSH.PasswordAuth)
    ensures rootConfig.SftpAuthorizedKeysFile == "" ==>
              fatal == None && configSSH.PublicKeyAuth == old(configSSH.PublicKeyAuth)
    ensures rootConfig.SftpAuthorizedKeysFile != "" ==>
              var loaded := LoadedKeys(rootConfig.SftpAuthorizedKeysFile, file, parse);
              (loaded.Success? ==> fatal == None && configSSH.PublicKeyAuth == Some(loaded.value)) &&
              (loaded.Failure? ==> fatal == Some(loaded.error) && configSSH.PublicKeyAuth == old(configSSH.PublicKeyAuth))
  {
    if rootConfig.SftpAuthorizedKeysFile == "" {
      return None;
    }
    var authorizedKeys := LoadAuthorizedKeys(rootConfig.SftpAuthorizedKeysFile, file, parse);
    if authorizedKeys.Failure? {
      return Some(authorizedKeys.error);
    }
    configSSH.PublicKeyAuth := Some(authorizedKeys.value);
    return None;
  }

  /**
    `LoadSSHConfig`: the fixed settings, then public-key authentication. The host
    key is not part of this model.
   */
  method LoadSSHConfig(rootConfig: Config, file: Result<seq<Wire.byte>, string>, parse: seq<Wire.byte> -> ParseOutcome)
    returns (configSSH: ServerConfig, fatal: Option<LoadError>)
    requires Consumes(parse)
    ensures fresh(configSSH)
    ensures !configSSH.NoClientAuth && configSSH.ServerVersion == "SSH-2.0-SFTP" && !configSSH.PasswordAuth
    ensures var loaded := LoadedKeys(rootConfig.SftpAuthorizedKeysFile, file, parse);
            configSSH.PublicKeyAuth ==
              if rootConfig.SftpAuthorizedKeysFile != "" && loaded.Success? then Some(loaded.value) else None
    ensures fatal.Some? <==> rootConfig.SftpAuthorizedKeysFile != "" && LoadedKeys(rootConfig.SftpAuthorizedKeysFile, file, parse).Failure?
  {
    configSSH := new ServerConfig();
    fatal := ProcessPublicKeyAuth(configSSH, rootConfig, file, parse);
  }
}

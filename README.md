# go-sftp-server-ls in Dafny

A model of the core of go-sftp-server, a small SFTP server written in Go. A user
logs in over SSH with a password or with a public key. The server then serves
the "sftp" subsystem on a session channel. Every file the client names is placed
under `<BasePath>/<username>` on the host.

The project models five things:

- **the path resolver** (`FilePath`): Go's `filepath.Clean` and `filepath.Join`
  on a Unix host, and the sandbox path `Join(BasePath, Username, Clean(path))`;
- **the host file system** (`Os`): a map from cleaned paths to files and
  directories, the five calls the handler makes, and a trace of every call and
  of every lock and unlock of the handler's mutex. A directory holds its
  children in creation order, and reading it yields them sorted by name, as
  `os.ReadDir` does;
- **the request handler** (`Handler`): the `SftpHandler` class with its mutex,
  path rewriting, the file-get, file-put, file-command and file-list
  operations, the listing snapshot and its offset paging (`ListAt`);
- **authentication** (`SshConfig`): the first-match account check, the
  password and public-key callbacks, the loop that loads the authorized-keys
  file, and the parts of the SSH server configuration the server sets;
- **the network side** (`Server`): the listen address, the accept loop, the
  per-connection filter on channel types (section 6.1 of RFC 4254), and the
  reply to subsystem requests (section 6.5 of RFC 4254, with the `string`
  encoding of section 5 of RFC 4251).

What is proved:

- For a client path that starts with `/`, the on-disk path is the sandbox root
  of the handler's bound user (the last password login) followed by plain
  names only. `RootedPathConfined` proves this.
- A public-key login records no user. On a server where no password login has
  happened, it leaves the handler unbound, and every client path resolves to
  itself, cleaned, anywhere on the host (see Findings).
- A relative path such as `../n` keeps its `..` through `Clean`, and `Join` then
  climbs out of the sandbox. `RelativePathEscapes` proves this.
- A directory read lists the directory's children sorted by name, whatever
  order they were created in. A listing snapshot seen by paging (`ListAt`) is
  exactly those entries, in that order, or the first lstat error.
- A password login succeeds exactly when the first account with that username
  has that password. On success only, the user and base path are recorded for
  the handlers.
- A public key is granted exactly when it is one of the authorized keys.
- A session request is answered true exactly when it is a "subsystem" request
  whose payload from its fifth byte on is "sftp". The four length bytes before
  it are skipped, not checked (`AnyPrefixAccepted`).

The handler's methods are stated against the file-system model. For each method
the contract says which calls it makes, with which paths and in which order. It
also says what the new file-system state is, and that the lock is taken once and
released on every return path. The lock and unlock appear in the trace around
the file-system calls, and the path rewriting requires the lock to be held, so
both happen under the lock.

`ListAt`'s own doc comment says it returns an error at the end of the list. The
code returns a nil error in both branches, and the model follows the code
(`FileLister.ListAt` ensures `err == None`).

## Model

| member | source | states |
|---|---|---|
| FilePath.CleanIsClean | handler/utility.go:57 | `Clean` always returns a clean path: `.`, `/`, or segments with no empty segment, no `.`, and `..` only at the front of a relative path |
| FilePath.CleanOfClean | handler/utility.go:57 | `Clean` leaves a clean path unchanged |
| FilePath.CleanIdempotent | handler/utility.go:57 | cleaning twice is cleaning once |
| FilePath.CleanRooted | handler/utility.go:57 | a rooted path cleans to a rooted path whose remaining segments are all plain names (no `..` survives at the root) |
| FilePath.Join | handler/utility.go:57 | `filepath.Join`: empty exactly when every element is empty, and clean otherwise |
| FilePath.Clean | handler/utility.go:57 | `filepath.Clean`: the result is never empty, and it is rooted exactly when the argument is |
| FilePath.SandboxPath | handler/utility.go:57 | the path `setFilePath` writes is never empty and always clean |
| FilePath.UnboundSandboxPath | handler/utility.go:57 | with an empty base path and an empty user, the sandbox path of a client path is that path, cleaned |
| FilePath.CleanBelow | handler/utility.go:57 | joining a non-empty prefix with a cleaned rooted path gives the cleaned prefix followed by that path's names |
| FilePath.RootedPathConfined | handler/utility.go:57 | for a rooted client path (and a non-empty base or user), the on-disk path is `Join(BasePath, Username)` followed by the client path's cleaned names, each a plain name |
| FilePath.RootedPathUnderRoot | handler/utility.go:57 | for a rooted client path, a non-empty base or user, and a sandbox root other than `.`, the sandbox root is a prefix of the on-disk path and, unless the root is `/`, is followed by a separator |
| FilePath.RelativePathEscapes | handler/utility.go:57 | with base `/b` and user `u`, the client path `../n` resolves to `/b/n`, which for `n != u` is outside the sandbox root `/b/u` |
| Os.Open | handler/utility.go:61-63 | `os.OpenFile`: a denied path always fails; an existing node opens exactly unless it is a directory opened in create mode; a missing path opens exactly in create mode inside an existing directory, and fails with ENOTDIR when the parent is a regular file; on success the handle names the path and mode and a node exists at the path; read-only mode, failure and opening an existing node never change the state; a failure is an "open" error on that path; a create adds exactly an empty regular file at the path and its name to the parent directory, every other node and the denied set unchanged |
| Os.Remove | handler/handler.go:81 | `os.Remove`: succeeds exactly on a path that is not denied, exists, and is not a directory with children; on failure the state is unchanged and the error is a "remove" error on that path; on success the node existed and exactly it is gone, the parent directory no longer lists its name, and every other node and the denied set are unchanged |
| Os.CreatedFileIsVisible | handler/handler.go:56 | after a successful create-mode open, the path stats as a regular file |
| Os.RemovedPathIsGone | handler/handler.go:81 | after a successful remove, stat of the path fails with ENOENT |
| Os.FileSystem.OpenFile | handler/utility.go:61-63 | returns and sets exactly what `Open` gives, and appends one open call with the path and mode to the trace |
| Os.FileSystem.RemovePath | handler/handler.go:81 | returns and sets exactly what `Remove` gives, and appends one remove call to the trace |
| Os.ReadDir | handler/utility.go:28 | `os.ReadDir`: succeeds exactly on an existing directory the process may reach; an error names the path |
| Os.ReadDirSortsChildren | handler/utility.go:28 | a successful read lists exactly the directory's children (as a multiset), sorted by name, each with the directory as its parent |
| Os.ListingIgnoresCreationOrder | handler/utility.go:28 | two directories with the same children are listed identically, whatever order the children were created in |
| Os.SortByName | handler/utility.go:28 | the sort `os.ReadDir` applies: sorted by name and a permutation of its input |
| Os.SortedUnique | handler/utility.go:28 | two name-sorted sequences with the same elements are equal |
| Os.Lstat | handler/utility.go:35 | `DirEntry.Info`: succeeds exactly when the entry's path exists and may be reached; the kind matches the node; the name is the base name of the entry's path, which is the entry's own name when that is a plain name; an error is an "lstat" error on the entry's path |
| Os.Stat | handler/utility.go:47 | `os.Stat`: succeeds exactly on an existing path the process may reach; the kind matches the node and the name is the base name; an error is a "stat" error on that path |
| Os.FileSystem.ReadDirectory | handler/utility.go:28 | returns `ReadDir` of the state, leaves the state unchanged, and appends one read-dir call |
| Os.FileSystem.EntryInfo | handler/utility.go:35 | returns the lstat of the entry, leaves the state unchanged, and appends one lstat call on the entry's path |
| Os.FileSystem.StatPath | handler/utility.go:47 | returns the stat of the path, leaves the state unchanged, and appends one stat call |
| Handler.Globals.SetUserAndBasePath | config/ssh_config.go:120 | the package-level user and base path become the given values |
| Handler.Mutex.Lock | handler/handler.go:36 | takes a free lock and appends one lock event to the file-system trace |
| Handler.Mutex.Unlock | handler/handler.go:37 | frees a held lock and appends one unlock event to the file-system trace |
| Handler.FileLister.ListAt | handler/utility.go:17-24 | at or past the end: 0 copied, buffer untouched; otherwise `n = min(len(buf), len(files) - offset)`, `buf[..n] == files[offset..offset+n]`, the rest of the buffer untouched; the error is always nil |
| Handler.FileCmdOf | handler/handler.go:78-88 | the file command is Remove exactly for "Remove"; every other name is unsupported and carries that name |
| Handler.ListCmdOf | handler/handler.go:105-121 | the list command is List exactly for "List", Stat exactly for "Stat"; every other name is unsupported and carries that name |
| Handler.RejectedCommandsNamed | handler/handler.go:87-88 | Setstat, Rename, Mkdir, Rmdir, Symlink and Readlink are refused by both dispatchers, and each error message ends with the command's name |
| Handler.CollectComplete | handler/utility.go:33-42 | when every lstat succeeds, the snapshot has one entry per directory entry, in order, and every entry was probed |
| Handler.CollectFails | handler/utility.go:34-38 | when the lstat of entry `k` is the first to fail, the listing fails with exactly that error after exactly `k + 1` lstats |
| Handler.CollectSnoc | handler/utility.go:39 | one more successful lstat appends its metadata to the snapshot |
| Handler.SftpHandler.SetFilePath | handler/utility.go:56-58 | rewrites only the request's path, to `Join(BasePath, Username, Clean(path))` with the base path current at the call |
| Handler.SftpHandler.SnapshotEntries | handler/utility.go:33-42 | the loop yields the snapshot of the entries' lstats, and its calls are the lstats of the entries up to and including the first failure, in order |
| Handler.SftpHandler.ListDirectory | handler/utility.go:27-43 | `FileLister`: reads the directory and then snapshots it; the result and the calls are exactly those of `ListDir`, and a new lister holds the snapshot |
| Handler.SftpHandler.FileStat | handler/utility.go:46-53 | one stat call; on success a new lister of exactly the one stat result, otherwise that error |
| Handler.SftpHandler.Fileread | handler/handler.go:35-47 | the path is resolved once, under the lock; the trace gains exactly lock, one read-only open of the resolved path, unlock; its handle or its error |
| Handler.SftpHandler.Filewrite | handler/handler.go:50-62 | the path is resolved once, under the lock; the trace gains exactly lock, one create/read-write open of the resolved path, unlock; the resulting state; its handle or its error |
| Handler.SftpHandler.Filecmd | handler/handler.go:74-90 | "Remove" resolves the path under the lock and the trace gains exactly lock, remove of the resolved path, unlock, with its error returned; any other command returns "unsupported file command: <name>" without rewriting the path, and the trace gains only lock, unlock |
| Handler.SftpHandler.Filelist | handler/handler.go:99-123 | the path is resolved first, under the lock, for every command; "List" gives the directory snapshot and its calls between lock and unlock, "Stat" a one-entry snapshot from one stat between lock and unlock, each in a new lister, any other command "unsupported file list command: <name>" with only lock, unlock in the trace |
| Handler.NewSftpHandler | handler/handler.go:21-32 | one new handler, bound to the user current at the call, serves as all four handlers; the error is nil |
| SshConfig.AccountCheck | config/ssh_config.go:116-127 | the login is valid exactly when the message is empty; the message is one of "", "password not matched", "user not found" |
| SshConfig.FirstMatchDecides | config/ssh_config.go:117-123 | the first account with the username decides, by its password alone |
| SshConfig.AccountCheckValid | config/ssh_config.go:116-122 | `("", true)` exactly when the first account with the username has the given password |
| SshConfig.AccountCheckUnknown | config/ssh_config.go:126 | `("user not found", false)` exactly when no account has the username |
| SshConfig.LaterAccountsIgnored | config/ssh_config.go:118-123 | accounts after one with the username never change the answer |
| SshConfig.IsValidAccount | config/ssh_config.go:116-127 | the loop returns the first-match answer; on a valid login only, the user and base path become the username and the configured base path; otherwise they are unchanged |
| SshConfig.Quote | config/ssh_config.go:108 | the `%q` form of a string reads back as that string |
| SshConfig.Rejection | config/ssh_config.go:108 | a refusal starts with the message, then " and rejected for ", and the rest reads back as the user's name |
| SshConfig.PasswordCallback | config/ssh_config.go:105-111 | permissions are always nil; the error is nil exactly for a valid login and is otherwise the refusal with the check's message and the user |
| SshConfig.ComparePublicKeys | config/ssh_config.go:99-101 | two keys' wire encodings are equal exactly when the keys are equal |
| SshConfig.PublicKeyCallback | config/ssh_config.go:62-73 | grants exactly when the offered key is authorized, with the single extension "pubkey-fp" set to its SHA-256 fingerprint; otherwise "unknown public key for <quoted user>" |
| SshConfig.KeySessionOnFreshServer | config/ssh_config.go:62-73 | on a fresh server, a granted key login followed by a stat request resolves the client path to itself, cleaned |
| SshConfig.PublicKeyCallbackBindingUser | config/ssh_config.go:62-73 | decides as the key callback does, and on a grant also records the user and the base path, as a password login does at config/ssh_config.go:120 |
| SshConfig.KeySessionConfined | config/ssh_config.go:62-73 | with that callback, a granted key login followed by a stat of a rooted path resolves inside the user's sandbox root, followed by plain names |
| SshConfig.ParseKeys | config/ssh_config.go:84-94 | no more keys are loaded than the file has bytes; a failure is never "ssh: no key found", which ends the loop cleanly |
| SshConfig.LoadedKeys | config/ssh_config.go:77-96 | a read failure is reported exactly when the file cannot be read; otherwise at most one key per byte, or a parse failure other than "ssh: no key found" |
| SshConfig.ParseKeysOfLines | config/ssh_config.go:84-94 | for a parser that reads back what a key formatter writes, a file listing keys and then a tail yields those keys, in file order, then the keys of the tail |
| SshConfig.FileOrder | config/ssh_config.go:84-94 | a file of keys followed by a tail that yields no key (nothing, or text where the parser finds no key) yields exactly those keys, in order |
| SshConfig.LoadAuthorizedKeys | config/ssh_config.go:77-96 | the loop, each step going on with the rest of the bytes, yields the file's keys; it stops cleanly on "ssh: no key found"; a read error or any other parse error is fatal |
| SshConfig.ServerConfig.constructor | config/ssh_config.go:14-16 | client authentication is required, the version is "SSH-2.0-SFTP", and no callback is installed |
| SshConfig.SetAccountForSSHConfig | config/ssh_config.go:104-113 | installs the password callback, changes nothing else, and returns the same configuration |
| SshConfig.ProcessPublicKeyAuth | config/ssh_config.go:55-74 | with no authorized-keys file configured, nothing is installed; otherwise the callback is installed over the loaded keys, unless loading is fatal |
| SshConfig.LoadSSHConfig | config/ssh_config.go:13-28 | a new configuration with the fixed settings and with public-key authentication set up as above |
| Wire.EncodeString | server/server.go:75 | an SSH string is four length bytes followed by the bytes themselves |
| Wire.DecodeUint32OfUint32 | config/ssh_config.go:99-101 | behind the model of `Marshal` that `comparePublicKeys` compares: the four big-endian length bytes of an encoded string give back its length |
| Wire.EncodeStringInjective | config/ssh_config.go:100 | an encoded string followed by anything determines both the string and what follows it |
| Server.Reply | server/server.go:75 | a request is answered true only if it is a "subsystem" request whose payload is four bytes followed by as many bytes as "sftp" has |
| Server.SftpSubsystemAccepted | server/server.go:75-76 | a "subsystem" request for "sftp", encoded as an SSH string, is answered true |
| Server.AnyPrefixAccepted | server/server.go:75 | any four bytes before "sftp" are accepted: the length prefix is skipped, not checked |
| Server.OtherSubsystemRefused | server/server.go:75-78 | a "subsystem" request for any other name is answered false |
| Server.OtherTypeRefused | server/server.go:75-78 | every request of another type is answered false, whatever its payload |
| Server.HandleRequests | server/server.go:73-81 | exactly one reply per request, in arrival order, each being the subsystem test |
| Server.ChannelDecision | server/server.go:55-68 | a channel is rejected, with "unknown channel type" and reason code 3, exactly when its type is not "session"; a session channel fails exactly when its accept fails; otherwise one reply per request, each the `Reply` of that request, in order |
| Server.SessionAcceptsSftp | server/server.go:61-67 | on an accepted session channel, the "sftp" subsystem request is answered true |
| Server.HandleConnection | server/server.go:38-70 | after a failed handshake no channel is handled; otherwise every channel open gets its decision, in order, and a rejection or a failed accept does not end the loop |
| Server.ListenAddress | server/server.go:17 | for a port without a colon, the listen address `address:port` splits at its last colon back into the address and the port |
| Server.AcceptErrorSkipped | server/server.go:27-31 | a failed accept changes nothing about which connections are handled afterwards |
| Server.Serve | server/server.go:16-35 | listens on `address:port`; a listen error is fatal; otherwise every accepted connection is handled, in order, and every failed accept is skipped |

## Left out

- Concurrency: each connection, each channel's request loop and each SFTP session runs in its own goroutine in the source. The model runs them one after another. The mutex is modelled as a lock that a method takes and releases, not as mutual exclusion between threads.
- The SSH protocol itself, from `golang.org/x/crypto/ssh`, is not part of this model: the handshake, key exchange and host key (`loadPrivateKey`, `AddHostKey`). A failed handshake or a failed channel accept is an input flag. `ssh.DiscardRequests` is not modelled.
- `handleSFTP` and the `pkg/sftp` request server are not part of this model. The request server's own path handling is not modelled, so the handler takes client paths as they arrive. `RelativePathEscapes` states what the handler does with a relative path.
- Logging and the `AuthLogCallback`/`logAuthAttempt` hook are left out. Each `log.Fatalf` exit is modelled as a failure result carrying its cause.
- `config/root_config.go` and `main.go` are not part of this model: reading the JSON configuration and creating the home directories. The configuration is passed as a value.
- `handler.User`, `handler.BasePath` and `SetUserAndBasePath` are used but not defined in the sources modelled here. They are modelled as the `Handler.Globals` class, whose two fields `SetUserAndBasePath` assigns. A new `Globals` starts with both fields empty, Go's zero value for a string. That assumes the unseen declarations give no other initial value, and the fresh-server case under Findings rests on it.
- File contents, reads and writes through the returned handles, permission bits (the 0777 mode), modification times and symbolic links are not modelled. Lstat and stat differ only in the operation name of their errors.
- `Os.Open` creates a file only inside an existing directory. Other conditions of the host kernel are modelled only through the set of denied paths.
- `FilePath.Clean` is a model at the level of segments (split, reduce with a stack, render). It follows the lexical rules Go documents for `Clean`, not Go's byte-by-byte loop.
- FilePath.RootedPathUnderRoot: also requires a sandbox root other than `.`, the root that a base path such as `.` or `a/..` with an empty user cleans to. There the on-disk path of `/x` is the relative `x`, and `.` is not a string prefix of it.
- FilePath.RootedPathConfined: requires a non-empty base path or username. With both empty, the sandbox root is the empty path and there is nothing to be confined to. That case is reachable: a key login on a server where no password login has happened (see Findings).
- SshConfig.Quote: models Go's `%q` (`strconv.Quote`) on ASCII: `"` and `\` get a backslash, the controls with a letter escape are written `\a \b \f \n \r \t \v`, and the other controls below 0x20 and 0x7f are written `\x` with two hex digits. Non-ASCII runes that Go does not print, which it writes as `\u` or `\U`, are left as they are. A Dafny string holds only Unicode scalar values, so the `\x` escape of invalid UTF-8 does not arise.
- SshConfig.FingerprintSHA256: the SHA-256 digest and its base64 encoding are a function parameter, not computed.
- `ssh.ParseAuthorizedKey` is a parser parameter. The only assumption about it is that a parsed key consumes at least one byte. Its options and comment results are ignored by the source and are not modelled.
- The key types' inner encodings are left abstract: a public key is its algorithm name plus opaque algorithm-specific bytes.
- Server.Serve: the accept loop of the source never ends. It is modelled over a finite sequence of accept results. `net.Listen` is a parameter that gives the listen error, if any.
- Server.HandleRequests: the model records the value passed to `Reply` for every request. The SSH library sends no message for a request that does not want a reply, and that is not modelled.
- Server.Reply: a "subsystem" request with a payload shorter than four bytes makes the source's slice expression panic, so such requests are excluded by the precondition `WellFormed`. The panic is not recovered in its goroutine, so in the source it ends the whole server process, for every connected user.
- Handler.FileLister.ListAt: a negative offset makes the source's slice expression panic, so it is excluded by precondition. The conversion `int(offset)` is the identity on 64-bit platforms and is not modelled.

## Findings

| source | as written | input that shows it | evidently intended | confidence | as-written member | corrected member |
|---|---|---|---|---|---|---|
| config/ssh_config.go:62-73 | the public-key callback grants the key but never calls `SetUserAndBasePath`, so the handler is bound to whichever user logged in last with a password, or to no user at all | a fresh server, a granted key login, then a "Stat" of "/etc/shadow": the handler resolves it to "/etc/shadow" | record the user and the base path on a grant, as the password check does at config/ssh_config.go:120 | not executed | SshConfig.KeySessionOnFreshServer, with FilePath.UnboundSandboxPath | SshConfig.PublicKeyCallbackBindingUser, with SshConfig.KeySessionConfined |

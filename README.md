# Bloocoin client: request building, reply assembly and random digests

This project models the core of the C# Bloocoin client (`ki113d.CsBloocoin`):

- the catalog of the eight server commands and their required arguments;
- `BloocoinClient.getReply`, which checks the command against the catalog,
  builds the request dictionary (`cmd` plus each required argument, with
  `addr`/`pwd` taken from the explicit parameters or, when those are null,
  from the credentials stored by `setAddrAndPwd`), sends it over a fresh
  socket and reads chunks into a growing buffer until the buffer decodes;
- the no-argument `getReply` overload and `register`;
- `Util.randomString` and the `sha1`/`sha512` string/digest pairs.

Modules:

- `Wrappers` (wrappers.dfy): `Option` (also used for nullable strings) and `Result`.
- `Exceptions` (exceptions.dfy): the two exception classes as the `Error` values
  `InvalidArgument` and `ConnectionTimeout`, with the messages they are thrown with.
- `Commands` (commands.dfy): `Catalog`, the reference request `RequestFor`
  (declared as a map comprehension over the descriptor), and the imperative
  `AddArguments`/`BuildRequest`, proved equal to it.
- `Assembly` (assembly.dfy): the reference outcome `Assemble` of reading a
  finite chunk sequence and the `while` loop `AssembleReply` proved equal to it.
- `Blooclient` (blooclient.dfy): `CmdReply`, the `Transport` that stands for the
  socket, the reference call `Call`, and the class `BloocoinClient`.
- `Util` (util.dfy): the alphabet, `RandomString` over a `char` array,
  the dash removal, `StringHashPair`, `Sha1` and `Sha512`.

Parameters stand for what the model does not contain:

- the socket is a `Transport` value: whether connect completes, whether the
  write times out, the chunks the reads deliver and whether the next read
  times out;
- JSON decoding is a function parameter `decode: string -> Option<reply>`;
  serialisation of the request is not modelled, the request map itself is
  the result;
- the random-number generator is the sequence of values its successive
  `Next(62)` calls return;
- the digest is a parameter giving, for a string, the hex text
  `BitConverter.ToString` prints for its SHA-1 (or SHA-512) hash.

`SocketHandler.connect` (SocketHandler.cs:34-38) returns whether the
connection attempt finished within one second, whatever its outcome, so a
refused attempt that finishes in time also reports true; `Transport.connects`
is that boolean.

## Model

| member | source | states |
|---|---|---|
| `Commands.CatalogCommands` | Blooclient.cs:49-80 | the catalog's command names are exactly get_coin, register, send_coin, my_coins, check, transactions, total_coins, check_addr |
| `Commands.CatalogSize` | Blooclient.cs:49-80 | the catalog has exactly eight entries |
| `Commands.CatalogAddable` | Blooclient.cs:49-80 | no descriptor lists `cmd` or repeats a name, so no `Add` of the build loop meets an existing key |
| `Commands.RequestShape` | Blooclient.cs:168-184 | a built request has exactly `cmd` and the descriptor's names as keys; `cmd` is the command; addr/pwd are the resolved credentials; every other name is copied unchanged from the caller's arguments |
| `Commands.NoArgsFailsExactly` | Blooclient.cs:149-151 | with an empty argument map, building fails exactly for unknown commands and for send_coin and check (the ones needing a non-credential argument) |
| `Commands.ExtraArgumentsIgnored` | Blooclient.cs:179-182 | only the descriptor's non-credential names are read from the caller's arguments: maps agreeing on them give the same result, so extra keys are ignored |
| `Commands.RegisterRequest` | Blooclient.cs:215-216 | the register request is exactly `{cmd: "register", addr, pwd}` and never fails |
| `Commands.AddArguments` | Blooclient.cs:174-184 | the foreach fails with "Invalid command argument provided." iff a non-credential name is missing from the arguments, and otherwise yields the reference request; each `Add` is proved to meet a fresh key |
| `Commands.BuildRequest` | Blooclient.cs:165-184 | request building equals the reference `RequestFor`: unknown command gives "Invalid command provided!", missing argument gives InvalidArgument, otherwise the full request |
| `Assembly.Assemble` | Blooclient.cs:192-203 | the outcome is the decoding of the first buffer (after one or more chunks) that decodes, with every earlier attempt failing; the buffer is the in-order concatenation of the chunks so far (empty chunks add nothing); if none decodes, the whole concatenation is what was accumulated |
| `Assembly.AssembleSettles` | Blooclient.cs:197-199 | once a buffer decodes, the loop stops: chunks after it do not change the outcome |
| `Assembly.ChunkingIrrelevant` | Blooclient.cs:192-203 | for a decoder accepting the complete document and none of its proper prefixes, every chunking of the document yields the same reply as delivering it whole |
| `Assembly.AssembleReply` | Blooclient.cs:187-203 | the receive loop returns exactly the reference outcome `Assemble` |
| `Blooclient.UnknownCommandNeverConnects` | Blooclient.cs:165-166 | an unknown command fails with InvalidArgument whatever the socket would do, so no socket is used |
| `Blooclient.NotConnectedGivesDefault` | Blooclient.cs:186-206 | when connect fails, the call returns the default reply: success false, empty message, empty payload |
| `Blooclient.BloocoinClient.constructor` | Blooclient.cs:87-93 | stores the endpoint (default server.bloocoin.org:3122); credentials start null |
| `Blooclient.BloocoinClient.SetAddrAndPwd` | Blooclient.cs:101-137 | afterwards the getters `GetAddress`/`GetPwd` (getAddress/getPwd) return exactly the given, possibly null, address and password |
| `Blooclient.BloocoinClient.GetReply` | Blooclient.cs:162-207 | the call equals the reference `Call` with explicit credentials overriding the stored ones; it fails with InvalidArgument exactly when building fails; the request's addr/pwd are the resolved credentials |
| `Blooclient.BloocoinClient.GetReplyNoArgs` | Blooclient.cs:149-151 | the overload is getReply with an empty argument map, and fails with InvalidArgument exactly for unknown commands, send_coin and check |
| `Blooclient.BloocoinClient.Register` | Blooclient.cs:215-217 | returns exactly the success flag of the register reply (false when connect fails); the request it sends is exactly `{cmd: "register", addr, pwd}` with a null address or password replaced by the stored one; it never fails with InvalidArgument, only with a socket failure (modelled as ConnectionTimeout) |
| `Util.CharsAlphabet` | Util.cs:26 | the alphabet is the 26 lowercase letters, the 26 uppercase letters and the 10 digits: 62 characters, and a character is in it iff it is alphanumeric |
| `Util.RandomString` | Util.cs:33-40 | the string has exactly the requested length, its i-th character is the alphabet character the i-th draw selects, and every character is alphanumeric |
| `Util.RemoveDashes` | Util.cs:52 | the result has no dash, holds every other character of the input exactly as often as the input does (multisets), and is the input itself when it has no dash; with `RemoveDashesAppend` this fixes the order too |
| `Util.RemoveDashesAppend` | Util.cs:52 | dash removal distributes over concatenation (characters keep their order) |
| `Util.RemoveDashesIdempotent` | Util.cs:52 | removing dashes twice is removing them once |
| `Util.StringHashPair.constructor` | Util.cs:18-21 | the pair stores its two arguments unchanged |
| `Util.Sha1` | Util.cs:46-54 | `str` is a 20-character alphanumeric random string and `hash` is the dash-free digest text of that same string |
| `Util.Sha512` | Util.cs:60-68 | as Sha1, with the SHA-512 digest text |

## Left out

- SocketHandler.cs: the TCP connection, the one-second waits, stream reads and writes and `Dispose` are network I/O and timing; the `Transport` parameter stands for their outcome, and its chunks are taken with line terminators already removed.
- JSON serialisation and deserialisation (Newtonsoft): a foreign library; decoding is a parameter, serialisation is not modelled. Because `decode` yields either a reply or no reply, the model cannot return the null `cmd` that `DeserializeObject` gives for an empty buffer (for instance when the server closes the connection before sending anything, so that `receive` returns "" and the buffer stays ""), which getReply then returns (Blooclient.cs:198-199, 206); nor, in consequence, the NullReferenceException `register` then throws reading `.success` (Blooclient.cs:216).
- The unbounded `while (true)` receive loop: over a finite chunk sequence the model ends with `NoReplyYet` when the chunks run out and no buffer decoded; it proves nothing about infinite streams.
- The SHA-1/SHA-512 digests, `BitConverter` hex formatting, ASCII encoding and the distribution of `System.Random`: cryptography and library internals, represented by parameters.
- `commands` is a public mutable field in the source; since nothing changes it, it is modelled as the constant `Catalog`.
- File operations and the profile path: `bloostampExists`, `writeBloostamp`, `readBloostamp`, `getBloocoinDir` and the construction of the `.bloocoin` folder path are file-system I/O.
- `generateBloostamp`: two calls of `sha1()` joined by a colon; it needs the generator's state shared between calls, which the per-call draw sequence does not model.
- `isOnline`: only the outcome of `connect`, which is socket I/O.
- `Console.WriteLine` in `getReply` and `CmdReply.toString`: console output and .NET's default `ToString`.
- The `Transaction` class: a data record the core does not use.
- Request values: .NET objects are restricted to null, strings, integers and booleans.
- Socket failures other than these: a connect that finishes but is refused makes `send` call `GetStream` on an unconnected client, which throws InvalidOperationException (SocketHandler.cs:46), and a network stream that runs past its write or read timeout throws IOException, which the `catch (TimeoutException)` at SocketHandler.cs:51 and :69 does not turn into ConnectionTimeoutException. The model reports every socket failure during a call as `ConnectionTimeout`.
- A null argument dictionary is not modelled (`args` is a map): in the source it passes for commands without a non-credential argument and throws NullReferenceException at Blooclient.cs:180 otherwise.
- A null command name (which makes the dictionary lookup throw ArgumentNullException) is not modelled: names are strings.
- RandomString: the size is a `nat`; a negative size, on which the C# array allocation throws, is not modelled.
- RandomString, Sha1, Sha512: the generator is a finite sequence of draws that must hold at least as many values as characters are drawn, each in [0, 62) as `Next(62)` guarantees.
- RandomString, Sha1, Sha512: the generator's state advancing across calls is not modelled; each call is given the draws it consumes.
- AddArguments: requires a descriptor without `cmd` and without repeated names, on which `Dictionary.Add` would throw; every catalog descriptor meets it (`CatalogAddable`).

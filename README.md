# AntyCopyRightCppServer: configuration reader and upstream session

This project models two sequential pieces of a TLS-terminating HTTPS gateway
written in C++20 with Boost.Asio/Beast, and proves what they do.

- **`Util::ConfigParser`** (module `Util`, `config_parser.dfy`): reads the
  configuration file as whitespace-delimited tokens. It splits each token at its
  first `=` and inserts the pair only if the key is not yet present, so the
  first occurrence of a key wins. The tokenizer (`Tokens`) and the left fold
  that builds the table (`Build`) are pure functions. The class `ConfigParser`
  runs the same loop imperatively in its constructor. The constructor takes the
  file contents as `Option<string>`: `None` means the file could not be opened.
  `Lookup` models `operator[]`: it returns the stored value, or the empty string.
- **`Network::Session`** (module `Network`, `session.dfy`): the upstream TLS
  session, reduced to its `host_` and `connected_` fields. Each network step is
  an outcome supplied by the caller: resolution, TCP connect, setting the SNI
  name, handshake, shutdown, socket close, write and read. A failing step stands for the
  exception that leaves the coroutine. Every method returns the I/O steps it
  performed and how it ended (`Status`). The pure functions `Connect` and `Stop`
  specify the methods on the abstract state `Link(host, connected)`. The
  lemmas beside them state the guard, the update order and their consequences
  over a sequence of calls (`Run`).

`wrappers.dfy` holds the `Option` type.

Two consequences of the code are worth stating outright:

- The reader works per whitespace-delimited token, not per line, and `emplace`
  keeps the first occurrence of a key. `KEY = VALUE` therefore yields only the
  entry `"" -> ""` (`SpacedAssignment`), and each key keeps the value of the
  first token that declares it (`BuildFirstWins`).
- `connectToSender` never clears `connected_`. A failed switch from a
  connected session records the new host with the flag still raised
  (`FailedSwitchClaimsConnected`). Later calls for that host then return at the
  guard without any I/O (`StaleSessionNeverRetries`).

## Model

| member | source | states |
|---|---|---|
| Util.Tokens | src/ConfigParser.cpp:11 | every token read from the file is non-empty and holds no white space |
| Util.TokensSkipSpace | src/ConfigParser.cpp:11 | white space before the text yields no token: the tokens are those of the rest |
| Util.TokensOfLines | src/ConfigParser.cpp:11 | a file holding one blank-free token per line reads back as exactly those tokens, in order |
| Util.SpacedAssignment | src/ConfigParser.cpp:11-15 | splitting is per token, not per line: `KEY = VALUE` yields only the entry `"" -> ""` from the lone `=` |
| Util.FindFirst | src/ConfigParser.cpp:12 | the result is None exactly when the character is absent; otherwise it is a position holding the character with no earlier occurrence |
| Util.SplitEntry | src/ConfigParser.cpp:12-14 | a token without `=` declares nothing; otherwise the key holds no `=` and key + "=" + value rebuilds the token |
| Util.SplitEntryUnique | src/ConfigParser.cpp:12-14 | the split is unique: any key without `=` that rebuilds the token with some value is exactly the text before the first `=`, and that value is everything after it |
| Util.Emplace | src/ConfigParser.cpp:14 | inserting adds the key; an existing key keeps its value; a new key gets the given value |
| Util.BuildKeys | src/ConfigParser.cpp:11-16 | the table's key set is exactly the set of before-first-`=` prefixes of the tokens that hold `=` |
| Util.BuildFirstWins | src/ConfigParser.cpp:11-16 | a key is in the table iff some token declares it, and its value is the one given by the first such token |
| Util.StoredValueStable | src/ConfigParser.cpp:14 | once a key is stored, no later tokens remove it or change its value |
| Util.LaterDuplicateIgnored | src/ConfigParser.cpp:14 | a token whose key is already present leaves the table unchanged |
| Util.NoAssignmentDropped | src/ConfigParser.cpp:12-13 | a token without `=` can be removed from anywhere in the file without changing the table |
| Util.ConfigParser.constructor | src/ConfigParser.cpp:8-18 | the token loop leaves the table equal to the fold over the file's tokens; an unopened file leaves it empty |
| Util.ConfigParser.Lookup | src/ConfigParser.cpp:20-24 | returns the stored value for a present key and the empty string for an absent one, reading the table only |
| Network.Session.constructor | src/Session.hpp:30-31 | a fresh session has the empty host and is disconnected |
| Network.Attempts | src/Session.cpp:28-37 | between one and four connect steps run; all but the last succeeded; when fewer than four run, the last one failed; all four run and succeed exactly when every outcome is a success |
| Network.Session.ConnectToSender | src/Session.cpp:23-38 | the new state, the I/O performed and the outcome are those of the specification `Connect` of the old state |
| Network.ConnectStepsInOrder | src/Session.cpp:28-37 | the steps performed are a prefix of resolve, connect, SNI, handshake; each step runs only after all earlier ones succeeded; a failure names the last step performed, which failed |
| Network.ConnectSameHostIsNoOp | src/Session.cpp:24-25 | connecting while already connected to the same host performs no I/O and changes nothing |
| Network.ConnectRecordsHost | src/Session.cpp:27-37 | otherwise the host becomes the requested one whatever the outcome; resolution is always attempted; the flag is raised iff it was raised before or all four steps succeed; the handshake runs iff the three earlier steps succeed |
| Network.FailedSwitchClaimsConnected | src/Session.cpp:27-37 | a failed connect to a new host from a connected session leaves the flag raised with the new host recorded |
| Network.StaleSessionNeverRetries | src/Session.cpp:24-37 | after such a failed switch, the next connect to that host performs no I/O and reports success |
| Network.Session.StopConnectToSender | src/Session.cpp:40-44 | the new state, the I/O performed and the outcome are those of the specification `Stop` of the old state: flag lowered first, then shutdown, then close only after a successful shutdown, either of which can fail |
| Network.StopDisconnects | src/Session.cpp:40-44 | after a disconnect the flag is lowered even if the shutdown or the close fails, the host is kept, the shutdown is the first step attempted, the socket is closed iff the shutdown succeeded, and the call ends normally iff both succeed |
| Network.StopThenConnectRetries | src/Session.cpp:24-44 | after a disconnect, a connect always runs the connect steps afresh, and it ends connected iff all four succeed |
| Network.ConnectedOnlyAfterHandshake | src/Session.cpp:21-44 | starting from a fresh session, the flag is raised only if, since the last disconnect, some connect passed the guard and actually ran resolve, connect, SNI and handshake, all succeeding (not necessarily to the host now recorded) |
| Network.Session.SendRequest | src/Session.cpp:46-52 | it writes, then reads only if the write succeeded; it yields the response exactly when both succeed; it neither needs nor changes the host or the flag |

## Left out

- Opening the configuration file (its path comes from a header that is not part of this model): only the file contents are modelled, as `Option<string>`.
- The file is read as bytes in the source and as Unicode characters here; this does not change the result, because `=` and the white-space characters are ASCII.
- The tokenizer follows the white-space characters of the "C" locale; other locales are not modelled.
- Hash-map iteration order is irrelevant to the reader and is not modelled: the table is a Dafny `map`.
- Network.Session.SendRequest: the HTTP request and response bytes are not modelled. The response is the `reply` parameter, and the request is left out because it affects neither field.
- The real networking of the session: DNS, TCP, OpenSSL's SNI call, the TLS handshake and shutdown, and HTTP framing. Each step is only a success or failure outcome. The state of the TLS stream itself is not modelled, only the two fields.
- Concurrent use of one shared session by several downstream connections. The model is sequential: interleaved writes and reads on one stream are not captured.
- The server's listener, TLS server context, per-connection loop and fixed JSON reply (`src/Server.cpp`), and the process entry point (`src/main.cpp`). These are asynchronous I/O and scheduling with no sequential logic to verify.
- The request classifier, route table, request builder and dispatcher (`changeReqToEnum`, `getRequestTypeOfTarget`, `requestHandler`, `streamReader`). They are declared in `src/Server.hpp` but have no definitions in the source, so they are not modelled.
- The request data transfer types (`src/RequestDTO.hpp`) and the visitor helper (`src/util.hpp`). They carry no behaviour.

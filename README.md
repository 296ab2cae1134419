# Speedtest backend and client controller — a Dafny model

This project models two small pieces of a network speed test.

The first is the request-decision logic of the Go backend (`web/web.go`):
- the upload sink `empty`, which drains the request body and answers 200 with `Connection: keep-alive`, or 400 on a read error;
- the download source `garbage`, which turns the `ckSize` query value into a chunk count and writes the 1 MiB random payload that many times, stopping at the first failed write;
- the client locator `getIP`, which derives the client address, labels special-use addresses, and for a public address answers the bare address with an empty record, unless the request asks for ISP information with `isp=true`, in which case it builds the text `<ip> - <org>[, <country>][ (<distance>)]` from the geolocation record.

The second is the browser-side `Speedtest` controller (`assets/speedtest.js`). It is a state machine over states 0 (adding settings), 3 (test running) and 4 (done). It sits in front of a measuring worker.

Layout:
- `Wrappers.dfy`: `Option` and `Outcome`. A JavaScript `throw` is an `Outcome.Fail` carrying the thrown message.
- `Text.dfy`: prefixes, digits, and the canonical decimal spelling `NatToString` with its inverse.
- `WebTypes.dfy`: the records of `web/types.go` (`IPInfoResponse`, `Result`) and an HTTP `Response` value.
- `Handlers.dfy`: `empty` and `garbage`, and base-10 64-bit parsing as `strconv.ParseInt(s, 10, 64)` does it.
- `ClientLocator.dfy`: `getIP`.
- `Speedtest.dfy`: the `Speedtest` class, and three usage scenarios checked against its specifications.

Collaborators the handlers call become inputs:
- the host part produced by `net.SplitHostPort` (`None` when splitting fails);
- the geolocation lookup `getIPInfo` and the distance estimator `calculateDistance`, as function parameters;
- whether the request body drained without error;
- whether each payload write succeeds;
- the random payload, a byte sequence of length 1048576.

An absent query parameter reads as `""`, as `r.FormValue` returns it.

On the client side:
- the worker is represented by a ghost log of posted messages, each tagged with the worker's number;
- the page callbacks are represented by a ghost log of `Update`/`End` events;
- `JSON.parse(...).testState` is a function parameter `testStateOf`;
- `JSON.stringify` of the settings is a parameter `serialize`.

In a few places the code does less or otherwise than its evident intent; the model follows the code:
- **No lower bound on `ckSize`.** Only the upper cap of 1024 is applied. The code keeps 0 and negative values unchanged, and a negative count makes no write (`ChunkCount`, `WriteChunks`).
- **CGNAT rule.** The shared address space of RFC 6598 is the block 100.64.0.0/10, that is second octets 64–127. The regular expression `^100\.([6-9][0-9]|1[0-2][0-7])\.` matches second octets 60–99, 100–107, 110–117 and 120–127. So `100.60.x.x` is labelled CGNAT and `100.108.x.x` is not (`Cgnat100SecondOctet`, `ClassifyCgnat`, `CgnatRuleMislabels`).
- **Prefixes without a trailing dot.** `192.168` and `169.254` are matched as plain text prefixes (`ClassifyPrivate192`, `ClassifyLinkLocalV4`).
- **`::ffff:` stripping.** Splitting host and port runs on the remote address as received. The `::ffff:` stripping therefore only survives when splitting fails. A mapped address that carries a port keeps its marker, and such an address is never special (`ClientIP`, `MappedAddressIsPublic`).
- **AS-number tokens.** The code removes not just a leading AS-number token but every `AS<digits><whitespace>` occurrence anywhere in the organisation (`StripASToken`, `StripASKeepsPrefix`, `StripASInnerToken`). A bare `AS123` with no whitespace after it is kept (`StripASBareToken`).

## Model

| member | source | states |
|---|---|---|
| Handlers.FormValue | web/web.go:152 | an absent query parameter reads as the empty string, a present one as its value |
| Handlers.ParseInt64 | web/web.go:154 | a successful parse comes from a non-empty string and lies in the signed 64-bit range |
| Handlers.ParseInt64SignedDigits | web/web.go:154 | an optional sign followed by one or more digits reads as the signed value when it is in the 64-bit range, and is refused otherwise |
| Handlers.ParseInt64Spellings | web/web.go:154 | every accepted spelling, with an optional "+" or "-" and any number of leading zeros ("+5", "007", "-0"), reads as its signed value |
| Handlers.ParseInt64Refuses | web/web.go:154-157 | a lone sign, a first character that is neither digit nor sign, or a non-digit after the first character ("12a", " 5", "1_000") is a parse error |
| Handlers.ParseInt64OfIntToString | web/web.go:154 | every signed 64-bit integer written in decimal parses back to itself |
| Handlers.ParseInt64Overflow | web/web.go:154-157 | a numeral above 2^63-1, with or without '+', is a parse error |
| Handlers.ParseInt64Underflow | web/web.go:154-157 | a negative numeral below -2^63 is a parse error |
| Handlers.ChunkCount | web/web.go:149-166 | the chunk count never exceeds 1024; it is the default 4 whenever ckSize is empty or does not parse, and otherwise the parsed value capped at 1024 |
| Handlers.ChunkCountOfInt | web/web.go:158-165 | a 64-bit value sent as ckSize is used unchanged up to 1024, including 0 and negatives, and capped at 1024 above |
| Handlers.ChunkCountOverflow | web/web.go:153-157 | a numeral too large for 64 bits gives the default 4, not the cap |
| Handlers.Delivered | web/web.go:168-173 | the number of chunks delivered when c are due: never more than c, every earlier write succeeded, and if fewer than c then the next write failed |
| Handlers.WriteChunks | web/web.go:168-173 | at most max(chunks,0) writes are tried; all writes before the last tried one succeeded; the loop stops right after the first failure or after max(chunks,0) successes; the number written is Delivered(max(chunks,0)) and the body is one payload copy per successful write |
| Handlers.Garbage | web/web.go:143-174 | status 200 with the four download headers; the body is exactly Delivered(max(ChunkCount,0)) copies of the payload, so at most 1024 MiB and a whole number of MiB; when none of the due writes fails it is max(ChunkCount,0) MiB |
| Handlers.Empty | web/web.go:131-141 | a body read error gives 400 with no header set; a drained body gives 200 with only Connection: keep-alive; the body is empty |
| ClientLocator.RemoveAll | web/web.go:180 | removing every occurrence of a pattern never lengthens the text |
| ClientLocator.RemoveAllAbsent | web/web.go:180 | text in which the pattern does not occur is left unchanged |
| ClientLocator.RemoveAllLeading | web/web.go:180 | an occurrence at the start of the text is removed as a whole |
| ClientLocator.RemoveAllKeepsPrefix | web/web.go:180 | a leading part in which no occurrence of the pattern starts is kept unchanged, and the rest is cleaned on its own |
| ClientLocator.RemoveMappedMarker | web/web.go:180 | "::ffff:" followed by a colon-free IPv4 text strips to that IPv4 text |
| ClientLocator.ClientIP | web/web.go:179-185 | the client address is the split host part when splitting succeeds, otherwise the remote address with every "::ffff:" removed |
| ClientLocator.FirstMatch | web/web.go:188-207 | the index returned is of a rule that matches with no earlier rule matching; None means no rule matches |
| ClientLocator.Classify | web/web.go:187-207 | an address gets the description of the first matching rule in the fixed order ::1, fe80:, 127., 10., 172.16-31, 192.168, 169.254, CGNAT, and None exactly when no rule matches; the table `Rules` and the predicate `Matches` encode the switch, its prefix tests and its two regular expressions |
| ClientLocator.ClassifyByRule | web/web.go:188-207 | an address that rule k matches and no earlier rule matches gets rule k's description |
| ClientLocator.Private172SecondOctet | web/web.go:197 | the 172 regular expression matches "172.n." exactly for second octets 16 to 31 |
| ClientLocator.Cgnat100SecondOctet | web/web.go:203 | the CGNAT regular expression matches "100.n." exactly for n in 60-99, 100-107, 110-117 or 120-127 |
| ClientLocator.CgnatRuleMislabels | web/web.go:203 | 100.60.x.x is labelled although outside 100.64.0.0/10, and 100.108.x.x is not labelled although inside it |
| ClientLocator.ClassifyLoopbackV4 | web/web.go:193-194 | every address starting "127." is labelled localhost IPv4 access |
| ClientLocator.ClassifyTen | web/web.go:195-196 | every address starting "10." is labelled private IPv4 access |
| ClientLocator.ClassifyPrivate172 | web/web.go:197-198 | "172.n." is labelled private exactly for n from 16 to 31 and is public otherwise |
| ClientLocator.ClassifyPrivate192 | web/web.go:199-200 | every address starting "192.168", dot or no dot, is labelled private IPv4 access |
| ClientLocator.ClassifyLinkLocalV4 | web/web.go:201-202 | every address starting "169.254", dot or no dot, is labelled link-local IPv4 access |
| ClientLocator.ClassifyCgnat | web/web.go:203-204 | "100.n." is labelled CGNAT for n in 60-99, 100-107, 110-117 or 120-127 and is public otherwise |
| ClientLocator.MappedAddressIsPublic | web/web.go:182-207 | an address that still carries the "::ffff:" marker matches no special rule, loopback included |
| ClientLocator.ClassifyLoopbackV6 | web/web.go:189-190 | the address "::1" is labelled localhost IPv6 access |
| ClientLocator.ClassifyLinkLocalV6 | web/web.go:191-192 | every address starting "fe80:" is labelled link-local IPv6 access |
| ClientLocator.DigitRun | web/web.go:226 | the length of the longest run of digits at the start of the text |
| ClientLocator.TokenShape | web/web.go:226 | a prefix is a match of AS\d+\s exactly when it is "AS", the whole leading run of digits, and one whitespace character |
| ClientLocator.TokenAt | web/web.go:226 | Some(n) exactly when the first n characters are "AS", one or more digits and one whitespace character, and that n is the only such length; None when no prefix has that form |
| ClientLocator.StripAS | web/web.go:226-227 | removing the AS-number tokens never lengthens the organisation |
| ClientLocator.NoPairNoToken | web/web.go:226 | no token can start anywhere in text that holds no "AS" |
| ClientLocator.StripASNoToken | web/web.go:226-227 | an organisation in which no token starts is unchanged |
| ClientLocator.StripASToken | web/web.go:226-227 | a token "AS<digits><whitespace>", with any one or more digits, is removed entirely when it begins the text, and the rest is cleaned on its own |
| ClientLocator.StripASKeepsPrefix | web/web.go:226-227 | leading text in which no token starts is kept unchanged, and what follows is cleaned on its own |
| ClientLocator.TokensStayInside | web/web.go:226 | a token starting in some text cannot run on into following text that begins with "A" |
| ClientLocator.StripASInnerToken | web/web.go:226-227 | a token "AS<digits><whitespace>" anywhere in the organisation is removed and the text around it kept when no other token starts there ("AS1 ASUS" gives "ASUS", "Foo AS1 Bar" gives "Foo Bar") |
| ClientLocator.StripASBareToken | web/web.go:226-227 | "AS<digits>" with no whitespace after it is kept, since the pattern needs the whitespace |
| ClientLocator.OrgLabel | web/web.go:227-231 | the organisation label is the cleaned organisation when that is not empty, and "Unknown ISP" when it is |
| ClientLocator.OnlyTokenIsUnknown | web/web.go:226-231 | an organisation made only of an AS token is reported as "Unknown ISP" |
| ClientLocator.OrgLabelDropsASNumber | web/web.go:226-231 | "AS<digits><whitespace><name>" with no token starting inside the name is reported as the name alone ("AS18881 TELEFONICA BRASIL S.A" gives "TELEFONICA BRASIL S.A") |
| ClientLocator.IspString | web/web.go:227-239 | the ISP text is the organisation label, then ", <country>" right after it when the country is set, then " (<distance>)" at the end when the location is set, and nothing else |
| ClientLocator.GetIP | web/web.go:176-245 | the processed text starts with the client address; a special address gives "<ip> - <description>" with an empty record; a public one without isp=true gives the bare address and an empty record; with isp=true it gives "<ip> - <ISP text>" and the looked-up record |
| ClientLocator.SpecialAddressIgnoresLookup | web/web.go:209-215 | for a special address the reply does not depend on the lookup, the estimator, isp or distance, and its record is empty |
| ClientLocator.NoLookupWithoutIspFlag | web/web.go:217-222 | without isp=true the reply does not depend on the lookup, the estimator or distance, and its record is empty |
| ClientLocator.LoopbackV4Reply | web/web.go:193-194 | a client whose host part starts "127." (127.0.0.1 among them) is answered "<ip> - localhost IPv4 access" with an empty record |
| ClientLocator.LoopbackV4PortlessReply | web/web.go:179-194 | a remote address without a port that starts "127." fails to split, is kept as it is and is answered "<addr> - localhost IPv4 access" with an empty record |
| SpeedtestClient.Speedtest.constructor | assets/speedtest.js:46-49 | a new controller is in state 0 with empty settings, no selected server, no remembered message, no worker and empty logs |
| SpeedtestClient.Speedtest.GetState | assets/speedtest.js:60-62 | the state is 0, 3 or 4, and it is 3 exactly while the status poll is installed |
| SpeedtestClient.Speedtest.SetCallbacks | assets/speedtest.js:88-94 | the page's onupdate and onend registrations are recorded |
| SpeedtestClient.Speedtest.SetParameter | assets/speedtest.js:70-74 | outside state 0 it throws and leaves the settings alone; in state 0 it sets only the named key and changes nothing else |
| SpeedtestClient.Speedtest.Start | assets/speedtest.js:80-109 | in state 3 it throws and changes nothing; otherwise a new worker gets exactly one message "start " + serialized settings, polling starts and the state is 3 |
| SpeedtestClient.Speedtest.PollStatus | assets/speedtest.js:102-107 | while polling, each tick posts "status" to the current worker; otherwise nothing is posted |
| SpeedtestClient.Speedtest.OnMessage | assets/speedtest.js:83-101 | a message equal to the previous one changes nothing; a new one is remembered and reported to onupdate; a test state of 4 or more calls onend with aborted = (state == 5), stops polling and sets state 4; below 4 the state stays |
| SpeedtestClient.Speedtest.Abort | assets/speedtest.js:114-117 | in any state below 3 it throws and posts nothing; in state 3 it posts "abort" to the current worker; in state 4 or above it neither throws nor posts |

## Left out

- `ListenAndServe` and `listenProxyProtocol` (web/web.go:37-119): router and middleware setup, listeners, PROXY-protocol parsing, signals and goroutines are I/O and concurrency.
- `pages` (web/web.go:121-129): a wrapper over the static file server.
- Headers added by the middlewares (CORS, no-cache, HEAD synthesis) are not part of the modelled responses.
- `getRandomData`, `getIPInfo` and `calculateDistance` are not part of this model. The payload is an input of length 1048576. The lookup and the distance estimator are function parameters, so their floating-point geodesy, remote call and error handling are not modelled.
- `net.SplitHostPort` is not modelled: its host result is an input.
- JSON encoding of the reply (`json.Marshal`, `render.JSON`) and the write of the encoded reply are not modelled. The reply is the `Result` value.
- Logging on parse and write errors is left out.
- config/config.go and main.go: configuration loading and process wiring.
- Handlers.WriteChunks: a failed write is taken to deliver none of its chunk. A partial write before the error is not modelled.
- Handlers.Garbage: the status is the 200 that the HTTP server sends when the handler sets none. The payload is taken to be the same 1 MiB on every call.
- Handlers.ChunkCount: assumes Go's `int` is 64 bits wide, so `int(i)` keeps every value up to 1024.
- Text is modelled as sequences of characters, while Go works on UTF-8 bytes. Every pattern involved is ASCII, so matching and removal give the same results.
- In assets/speedtest.js the following are not modelled:
  - creating the `Worker` (its script URL uses `Math.random`);
  - the 200 ms timer itself (`PollStatus` models one tick of it);
  - `JSON.parse` and `JSON.stringify` (`testStateOf` and `serialize` are parameters; a malformed message is not modelled);
  - console logging;
  - messages from a worker other than the current one.
- States 1 and 2 are entered only by test-point selection, which is not part of this model. So `Valid` keeps the state in {0, 3, 4}. The throw of `abort` in states 1 and 2 follows from its contract for any state below 3.
- SpeedtestClient.Speedtest.OnMessage: the callbacks' own behaviour is reduced to an event log. Their exceptions are caught in the source and so change nothing here.

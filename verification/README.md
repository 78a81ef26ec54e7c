# A model of MiMo SS Proxy

MiMo SS Proxy takes OpenAI-style chat requests, puts them through a rate limit and
eight slots, and forwards them to one upstream service over a changing set of proxy
servers. It fetches bearer tokens, rotates over the proxies, retries on 401, 403 and
429 and on a "block" message found in an answer, and meanwhile checks and refreshes
the pool of servers in the background. This project models that logic in Dafny and
proves what holds of it over every input, every run and every interleaving.

| file | models |
|---|---|
| `RateLimit.dfy` | the sliding-window limiter and its optimality |
| `Rotation.dfy` | the rotator; who becomes current, and when |
| `Addresses.dfy`, `Pool.dfy`, `Blacklist.dfy` | server keys and addresses, the pool, the IP blacklist |
| `Health.dfy` | the concurrent health check, over every schedule of its workers |
| `Background.dfy` | health loop, refresh loop and handlers interleaving on pool and rotator |
| `Socks.dfy`, `SocksPeer.dfy`, `SocksRefusals.dfy` | the SOCKS5 client, a server written after RFC 1928 and RFC 1929, and every way the handshake fails |
| `Compliance.dfy`, `SystemPrompt.dfy` | detecting the block message, cleaning requests, the injected message |
| `Stream.dfy`, `SSEFormat.dfy` | relaying an event stream to the client, and telling one by its first lines |
| `Router.dfy`, `Fleet.dfy` | route choice, and what becomes of proxies that are banned, blamed or given up |
| `Trace.dfy`, `Steps.dfy` | the events of a request, and what it may do to the shared state |
| `Forecast.dfy`, `Endings.dfy`, `Outcomes.dfy` | where a request ends up, as a function of the state before it and the answers to come; when it ends badly, and which answer goes out when it does not |
| `Server.dfy` | the chat handler, proved against all of these |
| `Slots.dfy`, `Crossing.dfy` | the semaphore in front of the handler, and requests that cross |

Where the original changes state step by step, so does the model: the limiter, the
rotator, the pool, the blacklist, the connection, the stream writer and the server are
classes whose methods are proved against functions of the old state, and the promises
are proved about those functions. The handler is one class whose methods keep
`Progress(begun, Now())`: every event since the request came in is in order, the
rotator's list lost exactly what was dropped, each time for one of four causes, and the
blacklist gained exactly what was blamed. They also end, reply or none, fleet and counts
included, as the functions of `Forecast` tell from the state before. What the world
outside does is a parameter: the answers to the k-th chat and bootstrap request, the
splitting of reads, library verdicts on texts, clock readings, schedules.

## What the code does, where one might expect otherwise

- The minimum interval only holds while the last admission is still remembered. It is
  guaranteed exactly if `minInterval <= window + 1` (or the limiter admits nothing, or
  there is no interval): `RateLimit.IntervalExactly`.
- The comment on `HealthCheckFast` promises nil on cancellation. It is empty exactly if
  no dial that came back reached its server: `HealthCheck.NilExactly`,
  `HealthCheck.CancelledYetNotEmpty`.
- The buffering loop of a stream scans an eleventh line and drops it, so a client sees
  the whole stream exactly if it has at most ten lines: `Stream.RelayedCompletely`.
  Content seen among the buffered lines does not keep the thinking timeout away:
  `Stream.BufferedContentForgotten`.
- Without credentials the SOCKS5 client offers only method 0 but accepts a server that
  chooses user name and password: `SocksPeer.UsedMethodWasOffered`. Ports are sent
  modulo 2^16: `SocksPeer.ServerHearsClient`.
- A colon in the method or the password makes a key ambiguous, and so does a host that
  looks like an address itself, as IPv6 hosts may: exactly these (`Addresses.KeyShared`).
  The address string of an IPv6 server never leads back to it (`Addresses.AddrRoundTrip`,
  `Pools.AddrFindsServer`).
- A loop that is under way brings a dead address back (`Background.StaleUpdateRevives`),
  both of them once each (`Background.ReturnsTwice`), and nothing else does
  (`Background.ReturnsExactly`). Replacing the pool forgets servers added meanwhile
  (`Background.ReplaceForgets`).
- When a retry on 401 or 429 fails, the handler goes on to dereference a response it
  does not have, and so does the streaming block retry once it has got its next token.
  Exactly then the client gets no reply, unless an answer has a status below 100 (see
  "Left out"): `Endings.NoReplyExactly`, `ChatServer.CrashingRun`.
- In a block retry, a 403 from bootstrap costs the banned proxy its place and then its
  successor, too, to which no request was made: `HandlerTrace.SuccessorGoesToo`.
- A comment at the check for an event stream has it that a comment line would do; the
  code passes comments over (`SSEFormat.ValidExactly`).
- A comment at the streaming block retry says at most two retries; the constant is five,
  as everywhere else in the handler.
- A retried answer on a stream that is no event stream is passed on even if it holds the
  block message, and so is the original one when the retries are used up
  (`Endings.BlockGoesOutExactly`, `ChatServer.BlockedRun`).

## Model

| member | source | states |
|---|---|---|
| `RateLimit.RateLimiter.constructor` | proxy/ratelimit.go:21-27 | a new limiter remembers nothing and is in a consistent state |
| `RateLimit.RateLimiter.Allow` | proxy/ratelimit.go:30-59 | the call is admitted exactly if the complete, never pruned admission history admits it, and only then enters that history |
| `RateLimit.PrunedDecidesAlike` | proxy/ratelimit.go:36-55 | on what pruning leaves, the two checks decide as they would on the whole history |
| `RateLimit.WindowSafety` | proxy/ratelimit.go:36-48 | over any run, every closed interval as long as the window holds at most `maxRequests` admissions |
| `RateLimit.IntervalExactly` | proxy/ratelimit.go:50-55 | admissions are `minInterval` apart on all runs if and only if nothing is admitted, there is no interval, or `minInterval <= window + 1` |
| `RateLimit.TooEarlyYetAdmitted` | proxy/ratelimit.go:36-58 | a run on which the second request is admitted however early it is, once the first has been pruned |
| `RateLimit.GreedyOptimal` | proxy/ratelimit.go:30-59 | after any prefix of any arrivals, no choice that keeps both limits has admitted more requests than the limiter |
| `RateLimit.GreedyIsLegalChoice` | proxy/ratelimit.go:30-59 | the optimum is attained: under the exact interval condition the limiter's own admissions are such a choice |
| `Rotation.Rotator.Current` | rotator/rotator.go:44-51 | the head of the cycle, or nothing if the list is empty |
| `Rotation.Rotator.Next` | rotator/rotator.go:55-67 | returns the current address and turns the cycle by one |
| `Rotation.Rotator.Rotate` | rotator/rotator.go:180-190 | turns the cycle by one and leaves the list as it is |
| `Rotation.Rotator.Update` | rotator/rotator.go:102-107 | the new list, starting at its head |
| `Rotation.Rotator.Remove` | rotator/rotator.go:141-159 | the first occurrence leaves list and cycle, and everybody else keeps its turn |
| `Rotation.Rotator.RemoveCurrent` | rotator/rotator.go:164-177 | the current address leaves and its successor becomes current |
| `Rotation.DropView` | rotator/rotator.go:141-159 | removal from the list at any place, with the index adjusted as the code does, is removal from the cycle |
| `Rotation.StepApproaches` | rotator/rotator.go:55-67 | no operation but its own removal pushes a waiting address back, and every advance brings it one place closer |
| `Rotation.NoStarvation` | rotator/rotator.go:141-190 | over any mix of operations, an address that nobody asks to remove becomes current within as many advances as its distance |
| `Rotation.SurvivorServed` | rotator/rotator.go:141-190 | with distinct addresses, whoever survives a run with as many advances as the list is long was current during it |
| `Addresses.KeyInjective` | sspool/config.go:21-23 | without colons in server and method, keys are equal exactly for equal configurations, whatever the passwords |
| `Addresses.KeyShared` | sspool/config.go:21-23 | another configuration has the same key if and only if the method or the password has a colon, or a prefix of the host is some text, a colon and a port number, with the host ending there or going on with a colon |
| `Addresses.KeyCollisions` | sspool/config.go:21-23 | two pairs of different servers with the same key, one of them with IPv6 hosts |
| `Addresses.AddrRoundTrip` | sspool/pool.go:158-175 | parsing a server's address string gives back host and port if and only if the host is free of colons and brackets |
| `Addresses.SplitExactly` | sspool/pool.go:158-175 | what can be split, and into what: a host without colons or a host in brackets, one colon, and a text without any colon or bracket |
| `Addresses.AtoiExactly` | sspool/pool.go:158-175 | a port is read from its digits with any zeros in front and a sign that fits, and from nothing else |
| `Addresses.DecimalRoundTrip` | cmd/mimo-ss-proxy/main.go:304-310 | ports written in decimal are read back as they were |
| `Blacklists.Blacklist.Add` | proxy/blacklist.go:46-54 | the IP of the address, if it has one, joins the set |
| `Blacklists.Blacklist.IsBlacklisted` | proxy/blacklist.go:57-65 | the verdict of the set on the address's IP, of which the next three rows say what it is |
| `Blacklists.BlocksAfterAdding` | proxy/blacklist.go:46-65 | adding an address blocks exactly the addresses of its IP, on any port, besides those blocked before; an address without an IP blocks nobody |
| `Blacklists.EmptyBlocksNobody` | proxy/blacklist.go:57-65 | an empty blacklist blocks nobody |
| `Blacklists.BlocksExactly` | proxy/blacklist.go:46-65 | after any number of additions: blocked is who was, or shares an IP with one that was added |
| `Pools.SSPool.Add` | sspool/pool.go:40-56 | a blacklisted or already known server changes nothing, any other goes to the end; keys stay unique |
| `Pools.AddedExactly` | sspool/pool.go:40-56 | however many addresses were blamed: a server is added if and only if it shares an IP with none of them, was not blocked before and has a new key |
| `Pools.SSPool.Remove` | sspool/pool.go:59-72 | the first server with the key goes, and the index only ever falls back to the start; with unique keys the key is gone |
| `Pools.SSPool.ReplaceAll` | sspool/pool.go:75-80 | exactly the new list, from its start |
| `Pools.SSPool.Get` | sspool/pool.go:93-102 | the server at the index; the modulo in the code never acts |
| `Pools.SSPool.Next` | sspool/pool.go:105-116 | the server at the index, which moves on around the circle |
| `Pools.SSPool.Dedup` | sspool/pool.go:138-154 | the list of first occurrences of every key, and where the index ends up |
| `Pools.SSPool.GetByAddr` | sspool/pool.go:158-175 | the lookup of the parsed address |
| `Pools.SSPool.MarkDead` | sspool/pool.go:178-182 | exactly this address joins the dead list |
| `Pools.SSPool.SnapshotAlive` | sspool/pool.go:200-212 | the servers whose address is not dead, in order |
| `Pools.AliveIsFilter` | sspool/pool.go:200-212 | its result is a subsequence of the list, in order and complete: a server is in it if and only if its address is not dead |
| `Pools.LookupFinds` | sspool/pool.go:158-175 | the lookup finds something exactly if some server has that host and port, and what it finds has |
| `Pools.LookupFirst` | sspool/pool.go:170-174 | of several servers with one host and port the first is found |
| `Pools.AddrFindsServer` | sspool/pool.go:158-175 | a pool member's own address string leads to a server with its host and port if and only if the host is plain |
| `Pools.FirstOccurrencesKeys` | sspool/pool.go:138-154 | first occurrences have unique keys, all of the original ones, and only original servers |
| `Pools.FirstOccurrencesExactly` | sspool/pool.go:138-154 | a server is kept if and only if it is the first with its key, and the order is kept |
| `Pools.UniqueIsFixed` | sspool/pool.go:138-154 | a list is its own deduplication if and only if its keys are unique |
| `Pools.FetchedServers` | sspool/fetcher.go:40-54 | the fetcher's loop over its map of keys gives the same list of first occurrences |
| `Pools.AddAll` | sspool/pool.go:40-56 | adding a list gives the first occurrences of the old servers followed by the unfiltered new ones |
| `Pools.UnblockedIsFilter` | sspool/pool.go:40-56 | the unfiltered ones are a subsequence, in order and complete: those the blacklist does not block |
| `Pools.SavePool` | cmd/mimo-ss-proxy/main.go:374-380 | every server is written exactly once, starting at the current one, and the index comes back to where it was |
| `Pools.UriHolds` | cmd/mimo-ss-proxy/main.go:374-380 | a saved line holds the method up to its first colon, the address behind its last `@` and the password between |
| `Pools.RebuildInPlace` | cmd/mimo-ss-proxy/main.go:338-350 | the emptying loop ends, and the pool holds the first occurrences of the unfiltered input, index 0 |
| `HealthCheck.Collect` | sspool/health.go:118-128 | the servers with a positive result, in order |
| `HealthCheck.ScheduleIndependent` | sspool/health.go:67-128 | over every interleaving at most `maxConcurrent` dials are open, survivors are reachable servers in input order, and without cancellation exactly those |
| `HealthCheck.NilExactly` | sspool/health.go:64-128 | cancelled or not, the result is empty if and only if no dial that came back reached its server |
| `HealthCheck.CancelledYetNotEmpty` | sspool/health.go:64-128 | a cancelled check that still returns a server |
| `HealthCheck.RunsAreBounded` | sspool/health.go:67-128 | no run of the check is longer than its budget |
| `HealthCheck.NeverStuck` | sspool/health.go:67-128 | until all workers are done, one of them or the launcher can move |
| `Background.HealthTick` | cmd/mimo-ss-proxy/main.go:153-180 | an undisturbed tick leaves in the pool exactly the servers that were in it, are not dead and answer the dial, in their old order, and in the rotator host and port of each, in the same order |
| `Background.HealthRun` | cmd/mimo-ss-proxy/main.go:153-180 | it is a run of the atomic steps of the interleaving model |
| `Background.RefreshTick` | cmd/mimo-ss-proxy/main.go:186-208 | an undisturbed tick merges the unfiltered new servers by key, and the rotator gets the addresses that are not dead; an empty fetch changes nothing |
| `Background.RefreshRun` | cmd/mimo-ss-proxy/main.go:186-208 | so is this, and the steps compute what the tick does |
| `Background.FetchedArrives` | cmd/mimo-ss-proxy/main.go:186-208 | a fetched server that is not blocked arrives: its key is in the pool afterwards |
| `Background.AddressList` | cmd/mimo-ss-proxy/main.go:304-310 | the address strings, in order |
| `Background.StepInv` | cmd/mimo-ss-proxy/main.go:153-214 | every step of health loop, refresh loop and handlers keeps keys unique and every address list free of what was dead at its snapshot |
| `Background.FedFromFreshSnapshot` | cmd/mimo-ss-proxy/main.go:153-214 | over all interleavings from startup: no rotator address was dead at the snapshot that fed the rotator last |
| `Background.BoundedStaleness` | cmd/mimo-ss-proxy/main.go:153-214 | after an address is marked dead, at most one health update and one refresh update still carry it, and only ones already under way |
| `Background.DeadComesBackAtMostTwice` | rotator/rotator.go:102-107 | from startup, a dead address returns to the rotator at most twice in any continuation |
| `Background.ReturnsExactly` | rotator/rotator.go:102-107 | a dead address can be in the rotator in some continuation if and only if it still is or one of the two loops holds it |
| `Background.ReturnsTwice` | rotator/rotator.go:102-107 | a run on which it does return twice, once by each loop |
| `Background.StaleUpdateRevives` | cmd/mimo-ss-proxy/main.go:166-169 | a run on which a dropped, dead address is back in the rotator |
| `Background.ReplaceForgets` | cmd/mimo-ss-proxy/main.go:166-169 | when a check replaces the pool, a server is kept if and only if the old snapshot had it and it answered, whatever was added meanwhile |
| `Socks.Conn.Read` | sspool/socks5_dialer.go:269-278 | the next bytes of the stream, in pieces of any size, or an error at its end, perhaps together with the last bytes |
| `Socks.ReadFull` | sspool/socks5_dialer.go:269-278 | whatever the splitting, the buffer holds exactly the next bytes, or the whole stream is consumed and the read fails |
| `Socks.Client.Authenticate` | sspool/socks5_dialer.go:106-148 | the outcome, bytes sent and bytes consumed of the dialogue function for the credentials |
| `Socks.Client.SendConnectRequest` | sspool/socks5_dialer.go:151-199 | the same for the request, with a failure for a bad target or a name over 255 bytes |
| `Socks.Client.ReadConnectResponse` | sspool/socks5_dialer.go:203-265 | the same for the reply with its bound address of any kind |
| `Socks.Client.Handshake` | sspool/socks5_dialer.go:53-103 | for every splitting of the reads, the handshake ends as the dialogue function on the whole stream says, byte for byte; the rows of `SocksPeer` and `SocksRefusals` say what that is |
| `SocksPeer.SucceedsExactly` | sspool/socks5_dialer.go:53-103 | success, having consumed so many bytes, if and only if the stream begins with a well-formed positive answer of that length that the client was ready for; nothing beyond it is read |
| `SocksPeer.ServerHearsClient` | sspool/socks5_dialer.go:53-199 | after a success a server following RFC 1928 and RFC 1929 has decoded exactly the client's methods, credentials and destination, with no bytes left over, the port modulo 2^16 |
| `SocksPeer.HearsGreeting` | sspool/socks5_dialer.go:54-65 | the greeting decodes to the offered methods, leaving whatever follows |
| `SocksPeer.HearsAuth` | sspool/socks5_dialer.go:106-132 | credentials of at most 255 bytes each decode to themselves (section 2 of RFC 1929) |
| `SocksPeer.HearsRequest` | sspool/socks5_dialer.go:151-199 | the request decodes to its destination and its port modulo 2^16, with nothing left over (sections 4 and 5 of RFC 1928) |
| `SocksPeer.UsedMethodWasOffered` | sspool/socks5_dialer.go:54-102 | a successful client used a method it had offered, if and only if it was no authentication or there were credentials |
| `SocksPeer.ReplySucceeds` | sspool/socks5_dialer.go:203-265 | every well-formed positive reply is accepted and consumed to its last byte |
| `SocksPeer.ReplyWasWellFormed` | sspool/socks5_dialer.go:203-265 | and nothing else is accepted (section 6 of RFC 1928) |
| `SocksRefusals.SentExactly` | sspool/socks5_dialer.go:53-103 | what has been sent in the end, whatever the server does: the credentials if and only if it chose [5, 2], they fit and the writes succeed, the request if and only if it chose [5, 0] or accepted the login, and nothing else after the greeting |
| `SocksRefusals.GreetingUnwritten` | sspool/socks5_dialer.go:63-65 | a failed first write: nothing sent, nothing read |
| `SocksRefusals.SelectionRefused` | sspool/socks5_dialer.go:67-90 | a selection that is cut short, of another version, without an acceptable method or with an unknown one: the reason, two bytes read or all there were, and only the greeting sent |
| `SocksRefusals.LoginRefused` | sspool/socks5_dialer.go:106-148 | credentials too long, a login that cannot be written, is not answered, is answered by another version or rejected: the reason, and what was sent and read by then |
| `SocksRefusals.TargetRefused` | sspool/socks5_dialer.go:151-199 | a bad target is found out after greeting and login, and nothing of it goes out; so with a failed write |
| `SocksRefusals.ConnectionRefused` | sspool/socks5_dialer.go:203-243 | a reply header that is cut short, of another version, a refusal with its code, or an unknown address type: the reason, and four bytes read, no more |
| `SocksRefusals.AddressCutShort` | sspool/socks5_dialer.go:245-263 | a positive reply fails if and only if address and port are cut short, and then all there was is read |
| `Compliance.LinesRoundTrip` | proxy/compliance.go:86-93 | splitting into lines and joining them is the identity |
| `Compliance.DetectedExactly` | proxy/compliance.go:23-34 | a text is detected if and only if one of the patterns occurs in it somewhere, letter by letter up to case folding |
| `Compliance.StripComplianceBlock` | proxy/compliance.go:39-127 | the loops compute `Stripped`, the function the rows below are about |
| `Compliance.CleanLinesAreClean` | proxy/compliance.go:86-92 | the kept lines are a subsequence without block text, and no clean line is lost |
| `Compliance.CleanLinesCount` | proxy/compliance.go:86-92 | a line that is not detected is kept as often as it was there |
| `Compliance.TrimmedExactly` | proxy/compliance.go:93 | trimming takes away spaces at both ends, all of them and nothing else |
| `Compliance.CleanedExactly` | proxy/compliance.go:79-104 | a detected message is removed if and only if its clean lines hold nothing but spaces; else it keeps its other fields, and its content is the clean lines joined by newlines without the outer spaces |
| `Compliance.CleanedMessageIsClean` | proxy/compliance.go:79-103 | a cleaned message is not detected again, joined and trimmed: no pattern straddles a line break |
| `Compliance.CleaningIsSound` | proxy/compliance.go:39-127 | no text content that is left is detected |
| `Compliance.CleaningSparesOthers` | proxy/compliance.go:60-112 | messages without block text stay as they are and in order; nothing changes if there is none |
| `Compliance.StripsExactly` | proxy/compliance.go:39-127 | the other fields stay; the messages are the cleaned ones exactly if the JSON text shows the block and some message is left, and else all as they were; so when the body comes out clean |
| `Compliance.StripIdempotent` | proxy/compliance.go:39-127 | cleaning twice is cleaning once |
| `Compliance.InjectedSurvives` | proxy/server.go:1014-1049 | whatever undetected message is injected, it stays in front, and the client's messages follow in order, all cleaned or all as they were, as the gate on the JSON text decides |
| `SystemPrompt.SystemMessageUndetected` | proxy/handler.go:8-10 | the injected text itself is not detected, however letters are folded |
| `SystemPrompt.SystemMessageSurvives` | proxy/server.go:1014-1049 | so the body that goes upstream starts with it |
| `Stream.StreamFromScanner` | proxy/stream.go:21-83 | nil with exactly one closing event or a write error with none, and which lines went out before the end, a failed write or the timeout |
| `Stream.StreamSSE` | proxy/stream.go:90-164 | the same from the first line on |
| `Stream.TextRoundTrip` | proxy/stream.go:101-140 | the lines that go out are the ones the next line scanner reads |
| `Stream.ReturnIsDropped` | proxy/server.go:569-577 | a return before the newline is dropped |
| `Stream.AfterLinesScanned` | proxy/server.go:569-577 | what is left of a body after its first lines holds the other lines |
| `Stream.BufferLines` | proxy/server.go:567-577 | ten lines are kept, and with more than ten an eleventh is consumed |
| `Stream.RelaySSE` | proxy/server.go:885-898 | with a willing client: the buffered lines, as many of the rest as the clock allows, one closing event; undisturbed, that is every line but the eleventh |
| `Stream.RelayedCompletely` | proxy/server.go:567-577 | the client gets the whole stream if and only if it has at most ten lines |
| `Stream.BufferedContentForgotten` | proxy/stream.go:23-66 | although content among the buffered lines would keep a relay of all lines going, the rest can still be cut off if and only if it has a second line and its first one shows no content |
| `SSEFormat.IsValidSSEBuffer` | proxy/server.go:1286-1310 | the loop gives the verdict `ValidSSE` on the text |
| `SSEFormat.ValidExactly` | proxy/server.go:1286-1310 | that verdict is positive if and only if some line, apart from spaces, starts with `data:`, `event:`, `id:` or `retry:` and no line before it opens a JSON text |
| `SSEFormat.JSONIsNoSSE` | proxy/server.go:1286-1310 | so a text in which a JSON text opens before any field is none |
| `Routing.SmartRouter.SelectBest` | proxy/router.go:45-62 | the choice `Best` describes, on the current list |
| `Routing.BestIsBest` | proxy/router.go:45-62 | the first of the fastest among the proxies that are alive and not blacklisted, or none exactly if there is none |
| `Routing.SmartRouter.MarkDead` | proxy/router.go:106-116 | at most the first proxy with the address goes dead |
| `Routing.DeadAt` | proxy/router.go:106-116 | that one, and no other field of any proxy changes |
| `HandlerTrace.ProgressTransitive` | proxy/server.go:235-1010 | what any two consecutive parts of a request keep, the whole keeps: list and dead list conserved, only the blamed blacklisted, every event in order |
| `HandlerTrace.BlameIsRight` | proxy/server.go:592-605 | an address is blamed only for a text detected in the answer to a request that was sent before, while it was current; without a smart router it carried that answer if and only if it resolves to a dialer |
| `HandlerTrace.BlocksAreBlamed` | proxy/server.go:592-605 | every block found while somebody was current is followed by that one's removal and blacklisting |
| `Crossing.BlameAfterCrossing` | proxy/server.go:595-605 | if others move on while a request waits for its answer, the blame for a block in it is right if and only if they moved on a multiple of the list's length; otherwise the address that carried it keeps its place and another loses it |
| `HandlerTrace.DropsAreJustified` | proxy/server.go:175-187 | an address leaves the rotator only right after a block message while it was current, a failed token of a block retry after which it is current, a 403 to the request made while it was current, or a 403 to a bootstrap request that went through it |
| `HandlerTrace.UncontactedDrop` | proxy/server.go:625-634 | a block retry without a token drops an address its bootstrap request did not go through, if and only if the one current afterwards is not the tunnel that was used |
| `HandlerTrace.SuccessorGoesToo` | proxy/server.go:176-187 | with a dialer for everybody, distinct addresses and no smart router that is so if and only if bootstrap answered 403 and somebody is left, and then it is the banned one's successor |
| `HandlerTrace.RetriesArePrepared` | proxy/server.go:385-556 | every request was prepared as its phase demands: token, move to the next upstream, both, or after the first failure a move |
| `HandlerTrace.TokenSharesRoute` | proxy/server.go:1059-1076 | every retry on 401, on 429 and on a block goes the way its token came |
| `HandlerTrace.LostIsDropped` | proxy/server.go:445-451 | what the rotator lost was dropped in this request and is on the dead list; the rest is a subsequence in order |
| `ChatServer.Server.BootstrapRoute` | proxy/server.go:119-161 | the bootstrap request goes the way `Fleets.RouteOf` gives, and whether it is the rotator's |
| `ChatServer.Server.ForwardRoute` | proxy/server.go:1056-1082 | the chat request goes the way `Fleets.RouteOf` gives, so both choose alike from the same state |
| `Fleets.RouteExactly` | proxy/server.go:1056-1082 | that way is the best proxy of the smart router unless it has no dialer, then the rotator's current address if it resolves, and then no proxy at all |
| `ChatServer.Server.CreateSSDialer` | proxy/server.go:1171-1184 | a dialer exactly if the address `Resolves` |
| `Fleets.ResolvesOnly` | proxy/server.go:1171-1184 | only an address with host and port of a pool server for which a dialer can be built does |
| `Fleets.ResolvesSurely` | proxy/server.go:1171-1184 | and it does if one can be built for all servers with its host and port |
| `ChatServer.Server.Bootstrap` | proxy/server.go:116-190 | one bootstrap request over the current route; only a 403 changes anything, and the whole new state is given |
| `ChatServer.Server.BanProxy` | proxy/server.go:175-187 | the banned address is dead for the pool and the smart router, and if it is the rotator's its first occurrence is dropped; nothing else changes; with distinct addresses the next request goes another way |
| `Fleets.DeadIsAvoided` | proxy/router.go:45-62 | a proxy that was marked dead is not taken again |
| `Fleets.BannedIsAvoided` | proxy/server.go:175-187 | nor, with distinct addresses, is the way that was answered 403 taken by the next request |
| `Fleets.DroppedIsAvoided` | proxy/server.go:443-451 | nor, with distinct addresses, one that was dropped for a failed token or a 403; and after a block the rotator has moved to another |
| `Fleets.HeadLosesPlace` | proxy/server.go:175-187 | each of these costs that address exactly one place in the rotator, and nobody else any |
| `Fleets.BootedOnly` | proxy/server.go:175-187 | no answer but a 403, and none that came directly, changes anything |
| `ChatServer.Server.Get` | proxy/jwt.go:36-49 | an unexpired cached token as it is and without any request, or else one exactly if the bootstrap answer brings one |
| `ChatServer.Server.Fetch` | proxy/jwt.go:85-127 | a token exactly for status 200 with a token in it, which is then cached with the way it came |
| `ChatServer.Server.Invalidate` | proxy/jwt.go:52-57 | the cache is empty and nothing else has changed |
| `ChatServer.Server.BlacklistAddr` | proxy/server.go:1217-1227 | the IP goes on the blacklist, the address on the dead list, and nothing else changes; the smart router, if it heeds the blacklist, takes no address of that IP then |
| `Fleets.BlamedIsAvoided` | proxy/router.go:45-62 | a blacklisted IP is not taken on any of its ports |
| `Fleets.BlamedHeadIsAvoided` | proxy/server.go:595-605 | so with the IP that a block message came from |
| `ChatServer.Server.MarkAddrDead` | proxy/server.go:1231-1241 | the address goes on the dead list and dead in the smart router, and nothing else changes; with distinct proxies the smart router does not take it then |
| `ChatServer.Server.ForwardRequest` | proxy/server.go:1056-1112 | one request with exactly this token over the route of this moment, its answer if there is one, and no change but that |
| `ChatServer.Server.Inspect` | proxy/server.go:592-605 | the verdict on the text and the whole new state: if it is a block, the current address is out, dead and blacklisted |
| `ChatServer.Server.DropFailing` | proxy/server.go:625-634 | only right after a failed token of a block retry: the current address, if there is one, leaves the rotator and is marked dead; nothing else changes |
| `ChatServer.Server.DropForbidden` | proxy/server.go:443-451 | only right after the request that was answered 403: the same for a current address that is not empty |
| `ChatServer.Server.MarkProxyDead` | proxy/server.go:1253-1271 | a failed write to the client marks the current address dead and drops nobody; anything else changes nothing |
| `ChatServer.Server.FirstToken` | proxy/server.go:297-331 | at most five looks; outcome, fleet and counts are those of `Forecast.FirstLook`: nobody leaves but by a ban, and the rotator moves on between looks |
| `ChatServer.Server.FirstForward` | proxy/server.go:351-371 | the first answer there is among six attempts, with a move after each failed one, or 502 |
| `ChatServer.Server.MoveOn` | proxy/server.go:398-433 | a move, a token exactly if bootstrap gives one, then one request; with no response left over from before it ends in the missing response; the fleet changes only by move and ban |
| `ChatServer.Server.Recover401` | proxy/server.go:385-436 | ends, with the fleet and the counts it leaves, as `Forecast.Leg401` tells from the state before, also where a response is missed: after a failed retry it goes on moving and looking for tokens until it dereferences; 401 to the client only after five retries or without upstreams |
| `ChatServer.Server.Recover403` | proxy/server.go:439-479 | the current address is dropped, then come one token and at most one retry: its answer, a 401 without a token or a 502 without an answer, as `Forecast.Leg403` tells; never a missing response |
| `ChatServer.Server.Recover429` | proxy/server.go:482-556 | ends, with the fleet and the counts it leaves, as `Forecast.Leg429` tells, also where a response is missed; 429 to the client only after both retries and the fallback |
| `ChatServer.Server.TryFallback` | proxy/server.go:535-551 | one more request, with the fresh token if there is one and else the token of the previous request, good exactly if it is answered with anything but 429 |
| `ChatServer.Server.RetryBlockedStream` | proxy/server.go:607-744 | ends as `Forecast.StreamRetries` tells: the first clean answer within five tries, 403 after five or with nobody left, no reply once a token follows a failed retry |
| `ChatServer.Server.DeliverRetry` | proxy/server.go:684-738 | exactly one reply: the stream if it is an event stream, else the whole body, inspected first and passed on whatever it holds |
| `ChatServer.Server.TryAgain` | proxy/server.go:609-648 | within a block retry: no request without a fresh token, nor past an emptied rotator; after a failed token the whole new state is given, with the then current address dropped |
| `ChatServer.Server.ReplyWithBody` | proxy/server.go:755-878 | a clean whole body as it is; a blocked one ends as `Forecast.JSONRetries` tells, with the first clean body or event stream, or after useless retries with the blocked body itself |
| `ChatServer.Server.RetryBlockedJSON` | proxy/server.go:772-878 | the five tries of it: the exact ending, fleet and counts |
| `ChatServer.Server.RetryBlockedBody` | proxy/server.go:910-1001 | ends as `Forecast.PlainRetries` tells: the first readable clean body, or 403 after five tries or with nobody left; an unreadable answer costs nobody its place |
| `ChatServer.Server.Deliver` | proxy/server.go:558-1008 | ends as `Forecast.Delivery` tells; outside of streams never with a block message |
| `ChatServer.Server.Recover` | proxy/server.go:383-556 | the three status checks end as `Forecast.Recovery` tells, with or without a response, within nine requests and nine tokens, and what is handed on is no 429 |
| `ChatServer.Server.Settle` | proxy/server.go:383-1009 | from the first answer to the reply, as `Forecast.Settled` tells |
| `ChatServer.Server.Serve` | proxy/server.go:294-1009 | at most 20 requests and 19 looks for a token; the one reply, or none, and in both cases the final fleet and the counts are those of `Forecast.Serving` on the state before |
| `ChatServer.Server.HandleChat` | proxy/server.go:235-1010 | 429, 503, 400 and 500 exactly as the limiter, the slots and the body demand, with no upstream traffic, otherwise the ending `Forecast.Serving` tells from the state before the call, with the fleet and the counts it leaves to the next request even if it panics; `Progress` throughout, and the slot is given back in every case |
| `Endings.NoReplyExactly` | proxy/server.go:385-740 | a request ends without a reply if and only if, after a first answer, a retry on 401 or 429 fails before any brings another status, or one on a blocked stream fails and another token comes; all in terms of the state before and the answers to come |
| `Endings.Lost401` | proxy/server.go:385-436 | the 401 loop misses a response if and only if some retry is the first to fail, after answers of 401 only and with the rotator not emptied by bans |
| `Endings.Lost401Long` | proxy/server.go:385-436 | with a list no shorter than the number of retries only the answers count |
| `Endings.Lost401Tunnels` | proxy/server.go:176-187 | with a dialer for everybody and no smart router, the list must be longer than the number of bootstrap 403s up to then |
| `Endings.Lost429` | proxy/server.go:482-533 | the 429 loop misses a response if and only if some retry is the first to fail, after answers of 429 only, whoever is left |
| `Endings.Lost429Spelled` | proxy/server.go:482-533 | the same for its two retries, in terms of two bootstrap answers and two chat answers |
| `Endings.LostStream` | proxy/server.go:607-648 | the streaming block retry misses a response if and only if a retry fails after block messages only and the token for another comes within the five tries |
| `ChatServer.CrashingRun` | proxy/server.go:398-433 | a concrete call of `HandleChat` that ends without a reply |
| `Endings.BlockGoesOutExactly` | proxy/server.go:691-878 | a request ends with a blocked body on its way to the client if and only if it asked for a stream and the answer that makes it through the status checks hides the message behind clean first lines and all its retries are useless, or starts with it and some retry is the first to hide one; all in terms of the state before and the answers to come |
| `Endings.BlockGoesOutOnStream` | proxy/server.go:691-878 | the same from the answer that made it through the status checks on |
| `Endings.NoTokensPassBlock` | proxy/server.go:772-878 | it does so, for one, whenever no token is to be had |
| `Endings.SuchAnAnswerHidesBlock` | proxy/server.go:567-592 | an answer that can be received and hides the message: eleven empty lines, of which ten are inspected, and then the message |
| `Endings.LastTokenPassesBlock` | proxy/server.go:755-878 | a whole request that passes it on: the first answer hides the message, and its token was the last for a while |
| `ChatServer.BlockedRun` | proxy/server.go:755-878 | a concrete call of `HandleChat`, with answers that can be received, after which the client has a body with the block message |
| `Endings.NoBlockOutsideStreams` | proxy/server.go:900-1008 | outside of streams no body with the block message goes out |
| `Endings.NothingStale` | proxy/server.go:383-1009 | what is passed on answers the last request made, except for a blocked body on a stream after useless retries |
| `Outcomes.FirstLookExactly` | proxy/server.go:297-331 | which look decides, with what outcome and in what state: the first to bring a token or to leave nobody in the rotator, or the last |
| `Outcomes.NoTokenNoChat` | proxy/jwt.go:110-120 | 401 if none of five bootstrap answers is a 200 with a token in it |
| `Outcomes.FirstAnswerExactly` | proxy/server.go:351-371 | the first answer among the attempts counts, with the rotator moved on by the failed ones, or it is a 502 |
| `Outcomes.NobodyAnswers` | proxy/server.go:351-371 | a whole request of which all six attempts fail: 502 |
| `Outcomes.CleanAnswerGoesOut` | proxy/server.go:558-1008 | a whole request whose first answer asks for no retry and is clean: this answer goes out, as a stream, as a whole body, or of an unreadable one the status |
| `Outcomes.StatusIsChecked` | proxy/server.go:383-556 | the three checks in a row: up to five retries for a 401, one for a 403, up to two for a 429, each on what the one before has left |
| `Outcomes.Outcome401` | proxy/server.go:385-436 | which retry on 401 brings the answer, counted by its tokens: the first of another status; 401 if there is none, or nobody left |
| `Outcomes.Outcome403` | proxy/server.go:439-479 | the one retry on 403: its answer, 401 without a token, 502 without an answer |
| `Outcomes.Outcome429` | proxy/server.go:482-556 | which retry on 429 brings the answer; if none does, the fallback has the last word, and then it is a 429 |
| `Outcomes.BlockedStreamIsRetried` | proxy/server.go:594-744 | of up to five retries of a blocked stream the first that clears the inspection goes out; without any it is a 403, or no reply |
| `Outcomes.HiddenBlockIsRetried` | proxy/server.go:763-878 | of up to five retries of a body with the message further down the first useful one goes out; without any, that body does |
| `Outcomes.BlockedBodyIsRetried` | proxy/server.go:910-1001 | of up to five retries of a blocked body outside of streams the first useful one goes out; without any it is a 403 |
| `Outcomes.PlainIsBody` | proxy/server.go:772-1001 | the two loops for blocked bodies are one and the same, once answers that cannot be read count as failed and event streams as bodies |
| `Slots.AtMostLimitInside` | proxy/server.go:243-249 | over any coming and going at most the given number of handlers are inside, each with one slot, and a newcomer is refused exactly if all are taken |
| `Slots.EightInside` | proxy/server.go:243-249 | with the server's limit at most eight are inside, the eighth gets in, and a ninth is answered 503 |

## Left out

- Real sockets, TLS, HTTP clients, Shadowsocks ciphers and dialer construction: a request is answered, fails or brings bytes, as a parameter says.
- JSON syntax, `url.Parse`, IP parsing and the content regex: messages are a datatype, and library verdicts are parameters. Case folding is per character, ASCII as usual, and brings in no newline.
- Clocks and sleeps: the limiter gets its clock readings, a stream gets told when it is late, a token is unexpired or not by a parameter.
- `HandlerTrace.BlameIsRight`: one request by itself. Another request may rotate the list between a request and the inspection of its answer; exactly when the wrong address is blamed then is in `Crossing.BlameAfterCrossing`.
- `ChatServer.Server.HandleChat`: one request by itself; other requests and the two background loops do not move in between. Their interleavings over pool and rotator are in `Background`, those over the slots in `Slots`. Its reply on a stream is one status and a relayed stream; which lines of that reach the client is in `Stream`.
- `ChatServer.Server.ReplyWithBody`: what the line scanner has read ahead is lost to the code that reads the rest of the body; here a parameter says what the rest is.
- `Endings.NoReplyExactly`: answers with a status below 100. The library receives such a status line, and passing it on panics, too; the model writes any status.
- `ChatServer.Server.ForwardRequest`: a request that fails leaves no response. When redirects run out, the library returns a response beside the error, and then a failed retry on 401 or 429 is not dereferenced in vain.
- `Stream.StreamSSE`: flushing, the scanner's limit on the length of a line, and which end of input it was; a clean end and a read error are treated alike by the code.
- `SocksPeer.SucceedsExactly`: reads make progress or fail; a connection that for ever returned no bytes and no error would keep the client waiting.
- `Socks.Conn.Write`: a write succeeds whole or counts as not sent.
- `Pools.SavePool`: writing the file, and other goroutines moving the index meanwhile.
- `Pools.RebuildInPlace`: other goroutines adding servers meanwhile.
- `proxy/fallback.go`, `SmartRouter.SelectNext`, `MeasureAll`: not called by the handler, or dialing.
- Header copying: stream paths copy headers more than once, so nothing neat holds of them.
- `proxy/handler.go` but for its system message, `sspool/http_dialer.go`, `sspool/dialer.go`, flags, logging, fingerprints, the blacklist file: plumbing.
- That a blacklisted IP leaves the rotator on its other ports, and that rotator and pool always agree: not so.
- The rotator's `onRotate` callback, its listener's channels and `Stop`.

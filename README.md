# x11hotplug backend, modelled in Dafny

The X server's `x11hotplug` configuration backend listens on a datagram
socket in the Linux abstract namespace. A helper process sends it one
request per datagram: `key=value` lines, ended by an empty line. The
wakeup handler parses the request in place in a static 1024-byte buffer.
It fills in the device attributes and the option list, and asks the input
subsystem to add or remove the device. It then writes `"\nresult=<text>"`
over the end of the request and sends that buffer back. The init function
derives the socket name from the display name. The block handler puts the
socket into the server's select mask. Fini tears the socket down.

The project has these modules:

- `Framing` (framing.dfy): how a received datagram is cut into lines and a
  line into a key and a value, with C-string semantics.
- `Parser` (parse.dfy): what the parse loop builds from the lines. This is
  `hotplug_action`, `device`, `attrs` and the ordered `input_option_new`
  calls. The module also has the lemmas about flags, typed fields and
  option order.
- `Dispatch` (dispatch.dfy): the outcome chain, the calls into the input
  subsystem, and the reply text and layout.
- `InPlace` (buffer.dfy): the imperative part on `array<char>`. This is
  `recvfrom` into the buffer, the parse loop with its temporary NULs and
  their restoration, and the `sprintf` of the result line.
- `SocketName` (socket_name.dfy): the bound address.
- `Lifecycle` (lifecycle.dfy): init, the block handler and fini as
  functions on the static state.
- `Hotplug` (hotplug.dfy): class `Backend`, which holds the static state
  (`sock`, the server's general sockets, the handler registration and
  `buf`). Its methods are proved against `Lifecycle`, `Parser` and
  `Dispatch`. The select read mask belongs to the server: the block
  handler is handed it and returns it updated, and the wakeup handler is
  handed the mask select left (`ready`).

The calls to `remove_devices` and `NewInputDeviceRequest` are appended to
a ghost trace. The answer of `NewInputDeviceRequest` is chosen
nondeterministically. Whether `asprintf` succeeds is a parameter.

Four kinds of undefined behaviour are excluded by preconditions, with
the predicates that say so (`Accepted`, `Typed`, `Parsable`, `ReplyFits`):

- A request must be framed. Every non-empty line must end in `'\n'`
  before the empty line. A non-empty line that ends in a NUL (the one
  stored after the data, or one inside the data) sends `key` to `NULL + 1`.
- The first line must not be empty, or the handler writes `buf[-1]`.
- A line must not be exactly `type`, because `strcmp(NULL, ...)` is
  undefined.
- The reply must fit in the buffer, whatever the input subsystem answers.

The parse loop zeroes TWO bytes that it does not put back:

- the `'\n'` before the empty line;
- the empty line's own `'\n'`, if it has one: it is zeroed at line 89, and
  the `break` at line 93 skips its restore.

`InPlace.ParseLines` states both. Both bytes are overwritten by the
`sprintf` that follows, so after the reply is written, the buffer holds
the reply, a NUL, and the received bytes after them
(`InPlace.Respond`, `Hotplug.Backend.Answer`).

## Model

| member | source | states |
|---|---|---|
| Framing.LineEnd | config/x11hotplug.c:86 | `strchr(key, '\n')` bounded by the NUL after the data: the end of the line lies between its start and the data's end, and if it is inside the data it is a '\n' or a NUL |
| Framing.LineEndIsFirst | config/x11hotplug.c:86 | no byte before the line end is '\n' or NUL, so the line end is the first one |
| Framing.EqIndex | config/x11hotplug.c:95 | `strchr(key, '=')` within a line: the result is within the line, and if it is inside the line it is an '=' |
| Framing.EqIndexIsFirst | config/x11hotplug.c:95 | no byte before it is '=' |
| Framing.KeyValueSplit | config/x11hotplug.c:95-98 | the key has no '='; without '=' the line is its key and the value is NULL; otherwise the line is key + "=" + value |
| Framing.KeyValueJoin | config/x11hotplug.c:95-98 | for a key without '=', key + "=" + value splits back into that key and that value |
| Framing.Terminator | config/x11hotplug.c:85-94 | the empty line that stops the loop starts after the current line, and the byte before it is a '\n' whenever there is a line to parse |
| Framing.LinesRoundTrip | config/x11hotplug.c:85-134 | the parsed lines, each with its '\n', put back together are exactly the datagram up to the empty line |
| Framing.LinesAreClean | config/x11hotplug.c:86-94 | every parsed line is non-empty and contains neither '\n' nor NUL |
| Parser.CapOf | config/x11hotplug.c:102-114 | a `type` value selects exactly the capability tag it names, and any other value selects none |
| Parser.TypedMeansValued | config/x11hotplug.c:95-103 | a line is acceptable exactly when a `type` key comes with a value |
| Parser.TypeLineNames | config/x11hotplug.c:95-114 | a line selects tag c exactly when it is `type=` followed by the name of c |
| Parser.OptionsFollowLines | config/x11hotplug.c:66-127 | the options are `_source=server/x11hotplug` followed by one (key, value) pair per parsed line in line order, recognised or not |
| Parser.FlagsAreTypeUnion | config/x11hotplug.c:102-114 | the flags are exactly the tags named by some `type=<name>` line: a union over all lines |
| Parser.AbsentKeyLeavesNull | config/x11hotplug.c:100-125 | a typed field stays NULL when no line has its key |
| Parser.LastOccurrenceWins | config/x11hotplug.c:100-125 | a typed field holds the value of the last line with its key |
| Parser.DeviceMirrorsAttrs | config/x11hotplug.c:115-117 | `device` always equals `attrs.device` |
| Parser.ScanNext | config/x11hotplug.c:85-98 | a non-empty line during the scan ends in '\n', is acceptable, and is the next of the datagram's lines |
| Parser.ScanEnd | config/x11hotplug.c:90-93 | the empty line that stops the loop is the terminator, it comes after the first line, and every line has been processed |
| Framing.LineHasNoNul | config/x11hotplug.c:86-95 | a line holds no NUL, so `strchr(key, '=')` searches all of it |
| Framing.Framed | config/x11hotplug.c:85-134 | every non-empty line ends in '\n' before the empty line, so `lineend` is never NULL while `key` moves on (line 133) |
| Framing.Accepted | config/x11hotplug.c:90-94 | the first line is not empty, so `*(--key) = 0` at line 92 stays inside `buf`, and the datagram is framed |
| Parser.Typed | config/x11hotplug.c:95-103 | the line is not a bare `type`, whose NULL value would reach `strcmp` at line 103 |
| InPlace.Received | config/x11hotplug.c:77-82 | the buffer after `recvfrom` and `buf[ret] = 0`: the data, a NUL, and the earlier bytes after them |
| InPlace.ReplyFits | config/x11hotplug.c:54-167 | the request up to `key`, `\nresult=`, the text and the NUL fit in the 1024-byte `buf` |
| Dispatch.Outcome | config/x11hotplug.c:136-167 | the result text of an event: `failure ?: "ok"` of the branch the chain chooses |
| Lifecycle.Installs | config/x11hotplug.c:193 | the block handler's test: an open socket not yet in the mask |
| Hotplug.Handles | config/x11hotplug.c:73-79 | the handler's guard: select succeeded, the socket is open and in the ready mask, and `recvfrom` returned more than 0 |
| Framing.KeyOf | config/x11hotplug.c:95-98 | the key: the line before its first '=', the C string `key` once that '=' is zeroed |
| Framing.ValueOf | config/x11hotplug.c:95-98 | the value: the line after its first '=', or NULL when `strchr` finds none |
| Framing.Lines | config/x11hotplug.c:85-94 | the non-empty lines of a datagram, without their '\n', up to the empty line that stops the loop |
| Parser.Step | config/x11hotplug.c:99-127 | one pass of the loop body: `action` and `device` take the value when the key names them, the attributes take `AttrsStep`, and one option is appended |
| Parser.AttrsStep | config/x11hotplug.c:102-125 | the `strcmp` chain over the attribute keys: `type` adds to the flags, and each of `device`, `vendor`, `product`, `pnp_id`, `usb_id` takes the value when the key names it |
| Parser.FlagsStep | config/x11hotplug.c:103-114 | OR-ing the `ATTR_*` bit of a recognised `type` value into `attrs.flags` (adding its tag), nothing otherwise |
| Parser.Fold | config/x11hotplug.c:61-134 | the handler's locals after the loop body has run once per line, in order, from the initial attributes and the `_source` option |
| Parser.Parse | config/x11hotplug.c:81-134 | the event the parse loop builds from a datagram: `Fold` of its lines |
| Dispatch.Choose | config/x11hotplug.c:136-164 | the branch taken: no device, then asprintf failure, then no action, then add, then remove, then anything else |
| Dispatch.Failure | config/x11hotplug.c:136-164 | the `failure` string each branch leaves, NULL for a remove and for an accepted add |
| Dispatch.ResultText | config/x11hotplug.c:167 | `failure ?: "ok"` |
| Dispatch.ConfigInfo | config/x11hotplug.c:141 | `asprintf(&config_info, "%s:%s", BACKENDSTR, device)` |
| Dispatch.FinalOptions | config/x11hotplug.c:141-145 | the option list with the `config_info` pair appended once the device and asprintf checks pass |
| Dispatch.CallsFor | config/x11hotplug.c:147-164 | the calls each branch makes: evict then create for add, evict for remove, none otherwise |
| Dispatch.Reply | config/x11hotplug.c:92-168 | the `key - buf` bytes sent: the request up to the last line's '\n', then `\nresult=` and the text |
| SocketName.SunPath | config/x11hotplug.c:209 | `sprintf(name.sun_path, SOCKPREFIX "%s", display)` |
| SocketName.AddressLength | config/x11hotplug.c:210 | `SUN_LEN(&name)`, taken while the '@' is still in `sun_path` |
| SocketName.Abstract | config/x11hotplug.c:211-213 | the leading '@' replaced by NUL, which selects the abstract namespace |
| Lifecycle.Block | config/x11hotplug.c:193-194 | an open socket missing from the handed-in mask becomes a general socket |
| Lifecycle.BlockMask | config/x11hotplug.c:193-196 | an open socket missing from the handed-in mask is added to it |
| Lifecycle.Fini | config/x11hotplug.c:248-255 | with a socket: removed from the general sockets, handlers removed, closed, `sock` reset to -1; without one, nothing |
| Lifecycle.InitAsWritten | config/x11hotplug.c:214-242 | init as written: `sock` takes the descriptor; a failed bind closes it but leaves it in `sock`; a successful one registers the handlers |
| Lifecycle.Init | config/x11hotplug.c:214-242 | init with `sock` reset to -1 after the close on a failed bind |
| Dispatch.OutcomeChain | config/x11hotplug.c:136-164 | branch by branch: no device, then asprintf failure, then no action, then add, then remove, then unsupported; each branch's result text and registry calls |
| Dispatch.ReplyOkIff | config/x11hotplug.c:147-164 | the result is "ok" exactly for a request with a device and asprintf success that is a remove, or an add that the input subsystem accepted |
| Dispatch.RegistryCalledOnlyForAddOrRemove | config/x11hotplug.c:136-164 | the input subsystem is called exactly for add and remove past the device and asprintf checks, and the first call is always an eviction |
| Dispatch.OutcomeIsCString | config/x11hotplug.c:136-167 | every result text is free of NUL, so `%s` copies all of it |
| Dispatch.ReplyEchoesRequest | config/x11hotplug.c:167 | the reply is every parsed line with its '\n', then `result=` and the text; its first bytes up to the terminator are the request's |
| Dispatch.LinesEndInNewline | config/x11hotplug.c:92 | the lines joined again are the request up to the '\n' the loop steps back onto, plus that '\n' |
| SocketName.BoundName | config/x11hotplug.c:209-213 | the bound name is a NUL followed by `x11hotplug:` and the display name, and its length is `SUN_LEN` taken while the '@' was still there |
| SocketName.DistinctDisplaysDistinctNames | config/x11hotplug.c:209-213 | two displays bind the same name exactly when they are the same display |
| InPlace.Receive | config/x11hotplug.c:77-82 | the buffer holds the received bytes, then a NUL, then its earlier bytes |
| InPlace.ParseLine | config/x11hotplug.c:86-132 | on a non-empty, NUL-free line ended by '\n', one line's '\n' and first '=' are zeroed and put back, so the buffer is unchanged, and the event advances by the line's key and value |
| InPlace.ScanLines | config/x11hotplug.c:84-134 | the loop over a parsable datagram leaves the buffer unchanged, stops at the terminator, which comes after the first line, and builds the event `Parse` gives |
| InPlace.ParseLines | config/x11hotplug.c:81-134 | the parse stops with `key` on the last line's '\n'; the buffer differs from the received bytes only in that byte and the next, both NUL; the event is `Parse` of the datagram |
| InPlace.PutResult | config/x11hotplug.c:167 | `sprintf` writes `\nresult=`, the text and a NUL at `key` and changes nothing else; it returns the new `key` |
| InPlace.Load | config/x11hotplug.c:77-134 | after receive and parse, the buffer is the received layout with the two NULs at the end of the request |
| InPlace.Respond | config/x11hotplug.c:167-168 | after `sprintf`, the first `key - buf` bytes are the reply, followed by a NUL and the received bytes after it |
| InPlace.ReplyLayout | config/x11hotplug.c:167-168 | the buffer after parse and `sprintf` is the reply, a NUL and the rest of the received buffer |
| Lifecycle.BlockIdempotent | config/x11hotplug.c:193-197 | a second block handler call on the mask the first returned changes nothing; after one call an open socket is in the mask, and the mask gains nothing else and loses nothing; the socket becomes a general socket exactly when it was not yet in the mask |
| Lifecycle.ReopenedSocketIsInstalled | config/x11hotplug.c:193-197 | after fini and an init that gets the same descriptor back, the block handler installs it again in a mask the server built without it |
| Lifecycle.FiniIdempotent | config/x11hotplug.c:248-255 | fini leaves no socket, a second fini changes nothing, and an open socket is removed, unregistered and closed once |
| Lifecycle.StaleDescriptorAfterBindFailure | config/x11hotplug.c:219-254 | as written, the descriptor of a socket that failed to bind is closed twice: once by init and once by fini |
| Lifecycle.InitThenFiniClosesOnce | config/x11hotplug.c:214-255 | with `sock` reset after the close, init then fini closes each descriptor exactly once and leaves no socket; the handlers are registered exactly when socket and bind succeed |
| Hotplug.Backend.constructor | config/x11hotplug.c:52-54 | the initial state: `sock == -1`, nothing watched or registered, nothing called |
| Hotplug.Backend.Init | config/x11hotplug.c:200-243 | the state after init is `Lifecycle.Init`; the result is 1 exactly when socket and bind succeed; the address is the bound name |
| Hotplug.Backend.BlockHandler | config/x11hotplug.c:185-198 | the new state is `Lifecycle.Block` of the old one and the handed-in mask, the returned mask is `BlockMask` of them, and nothing is called |
| Hotplug.Backend.Fini | config/x11hotplug.c:245-256 | the new state is `Lifecycle.Fini` of the old one, and nothing is called |
| Hotplug.Backend.RemoveDevices | config/x11hotplug.c:150-160 | one eviction with the backend name and `config_info` is recorded |
| Hotplug.Backend.NewInputDeviceRequest | config/x11hotplug.c:151 | one creation with the final options and the attributes is recorded, together with its answer |
| Hotplug.Backend.Dispatch | config/x11hotplug.c:136-164 | the registry calls are those of the chosen branch, in order; there is no creation outside the add branch |
| Hotplug.Backend.Answer | config/x11hotplug.c:77-168 | for a received datagram: the reply sent is the request up to the last line's '\n' followed by `\nresult=` and the outcome text; the trace grows by that outcome's calls; the buffer holds the reply, a NUL and the rest of the received bytes |
| Hotplug.Backend.WakeupHandler | config/x11hotplug.c:58-183 | nothing is sent, called or written unless select succeeded, the socket is open and ready, and the datagram is non-empty; otherwise it behaves as `Answer` |

## Left out

- The socket system calls (`socket`, `bind`, `recvfrom`, `sendto`, `close`) are OS I/O. Their results are parameters: `fd`, `bindOk` and the received `data`. A `recvfrom` that fails and one that returns 0 are both modelled as empty `data`. `close` is recorded in the `closed` sequence, and the datagram `sendto` would send is returned as `sent`. The peer address is not modelled.
- Registration with the X server (`AddGeneralSocket`, `RemoveGeneralSocket`, `RegisterBlockAndWakeupHandlers`, `RemoveBlockAndWakeupHandlers`) is host-loop plumbing. It is modelled only as set membership (`general`) and a boolean (`handlers`). The `fd_set` is a `set<int>`; the one `FD_SET` writes through `read_mask` is passed in and returned.
- `input_option_new`, `remove_devices` and `NewInputDeviceRequest` are not part of this model. Their calls are recorded in order, in a ghost trace or the option sequence. Nothing is assumed about deduplication of option keys. `NewInputDeviceRequest`'s answer is nondeterministic.
- `xstrdup`, the `asprintf` allocation, `input_option_free_list` and the `xfree` cleanup at lines 171-182 are memory bookkeeping and are not modelled. `xstrdup(NULL)` is NULL, as an `Option`. Whether `asprintf` succeeds is the parameter `asprintfOk`.
- `ErrorF` and `LogMessage` logging is left out.
- The numeric `ATTR_*` values come from `input.h`, which is not part of this model. Each bit is a tag in `set<Cap>`, so OR becomes set union.
- Undefined behaviour of the source is not modelled. The requests that would trigger it are excluded by the preconditions of `Backend.WakeupHandler`, `InPlace.ParseLines` and `InPlace.ScanLines`:
  - `Accepted`: an unframed datagram, or an empty first line;
  - `Typed`: a bare `type` line;
  - `ReplyFits`: a reply that does not fit in `buf`.
- Hotplug.Backend.Init: the display name must leave room for the NUL in `sun_path` (`FitsSunPath`). The source's unchecked `sprintf` overflow of `sun_path` is not modelled.
- Hotplug.Backend.Init: this follows the corrected lifecycle (see Findings), so `sock` is reset to -1 after a failed bind. The as-written behaviour is `Lifecycle.InitAsWritten`.
- Bytes in `buf` beyond the received datagram's NUL are whatever an earlier request left there. The model carries them through as `before`, without a meaning.

## Findings

| source | as written | input that shows it | evidently intended | confidence | as-written member | corrected member |
|---|---|---|---|---|---|---|
| config/x11hotplug.c:219-254 | when `bind` fails, init closes the descriptor but leaves it in `sock`, so a later fini removes and closes that number again, and it may by then belong to another file | `socket` returns 5 and `bind` fails, then fini runs: `close(5)` happens twice | after the close, `sock` is reset to -1, so fini does nothing | medium, not executed | Lifecycle.StaleDescriptorAfterBindFailure | Lifecycle.InitThenFiniClosesOnce |

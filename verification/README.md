# Blind and valve control over KNXnet/IP — a Dafny model

This project models the control path of a small building-automation tool that
opens and closes blinds and positions valves on a KNX bus:

- the **REST server** (`main.py`) takes a POST to `/block/<action>_<floor>_<block>`
  with a JSON body `{"value": v}`, parses the path segment, dispatches on the
  action code, checks the value against that action's domain and makes one call
  on the bus client; its answer is `{"error": bool, "msg": string}`;
- the **REST client** (`rest_client.py`) validates its command-line arguments
  (non-negative integers, a supported action, a value in the action's range) and
  posts to that path;
- the **KNXnet/IP client** (`test_client.py`) delivers one write to a group
  address through the fixed tunnelling exchange of KNX Standard volume 3
  part 8 (chapter 3/8/2 Core, chapter 3/8/4 Tunnelling): connection request,
  connection-state request, tunnelling request, disconnect request, each
  followed by one reply. Its command line picks the data size from the
  destination's main group.

Modules:

| file | module | models |
|---|---|---|
| `results.dfy` | `Results` | `Option` (a Python value that may be `None`), `Result` (a call that returns or raises) |
| `text.dfy` | `Text` | `str()` of an integer, `int()` of a string, `str.split` and `str.join` with a one-character separator |
| `actions.dfy` | `Actions` | the three action codes, as a parameter record, and the byte and bit value domains |
| `server.dfy` | `Server` | `main.py` |
| `rest_client.dfy` | `RestClient` | `rest_client.py` |
| `knx.dfy` | `Knx` | `test_client.py` |
| `end_to_end.dfy` | `EndToEnd` | properties linking the client and the server |

Modelling choices:

- The numeric values of the action codes are defined in a module that is not
  part of this model. They are the parameter `ActionCodes(valvePosition,
  toggleBlind, setBlind)`. Properties that need the codes to be pairwise
  distinct say so with `codes.Distinct()`.
- A Flask response is `Server.Response`: `Info(msg)` or `Error(msg)`. A call
  the server makes on the bus client (`set_valve_position`, `open_blind`,
  `close_blind`, `set_blind`) is an emitted `Server.Command`. Those client
  methods are not part of this model.
- Python's `int()` is modelled as accepting an optional `+` or `-` followed by
  one or more ASCII decimal digits (`Text.IsIntLiteral`). Its scanner
  (`Text.ScanDigits`) is proved against the declarative value
  `Text.DigitsValue`.
- `str.split` is `Text.Split`, with Python's behaviour on empty pieces: `""`
  splits into `[""]`, and `"a__b"` splits into three pieces.
- The KNXnet/IP frame codec (`knxnet.create_frame`, `knxnet.decode_frame`,
  `GroupAddress.from_str`) is not part of this model. Sent frames are the
  abstract `Knx.Request`, holding the fields the client hands to the codec.
  Received frames are the abstract decoded `Knx.Reply`. The UDP socket is a
  trace of `Sent`/`Received` events. The gateway's replies are a parameter
  `inbox`. `recvfrom` blocks with no timeout, so a run with fewer than four
  replies ends blocked after the send whose reply never comes
  (`Run.completed == false`).
- `is_value_valid` tests `args.value` rather than its own parameter. At every
  call site the two are the same value, so `RestClient.IsValueValid` tests its
  parameter.
- The code, and so the model, does not:
  - use `/` as the path separator (it is `_`);
  - reject negative floor or block numbers in the server's `parse_group_addr`,
    since `int()` accepts them; only the REST client's `check_negative` rejects
    them;
  - check any field against a bit width;
  - check status codes, sequence numbers or reply kinds during the handshake;
  - time out, or enter a failure or cleanup state.

## Model

| member | source | states |
|---|---|---|
| `Text.ParseInt` | main.py:58 | `int(token)` succeeds exactly on an optionally signed run of decimal digits, and then yields the number that literal denotes |
| `Text.ScanDigitsValue` | main.py:58 | the left-to-right digit scanner `int()` runs computes the number the digits denote, most significant first |
| `Text.IntToString` | rest_client.py:69-70 | `str(i)` is canonical decimal text denoting `i`: a leading `-` exactly when `i` is negative, never a `+`, and no leading zero unless the text is `"0"` |
| `Text.IntRoundTrip` | rest_client.py:69-70 | `int(str(i)) == i` for every integer, which the path round trip relies on |
| `Text.Split` | main.py:55 | splitting yields at least one piece, and no piece contains the separator |
| `Text.SplitCount` | main.py:55 | splitting yields exactly one more piece than there are separators in the text |
| `Text.JoinSplit` | main.py:55 | joining the pieces of a split with the separator gives back the original text |
| `Text.SplitJoin` | main.py:55 | splitting a join of separator-free pieces gives back exactly those pieces |
| `Server.ParseGroupAddr` | main.py:51-60 | succeeds iff the segment splits on `_` into exactly three integer literals, returning them in order as (action, floor, block); every failure is the single error "Invalid group address for <segment>" |
| `Server.HandleValvePosition` | main.py:80-92 | issues one valve command carrying the value unchanged, with "OK", iff the value is present and in 0..255; otherwise the error "value provided is not valid" and no command |
| `Server.HandleToggleBlind` | main.py:95-120 | "OK" iff the value is present and 0 or 1; 0 issues only `open_blind`, 1 only `close_blind`; anything else is an error with no command |
| `Server.HandleSetBlind` | main.py:123-135 | issues one set-blind command carrying the value unchanged, with "OK", iff the value is present and in 0..255; otherwise an error with no command |
| `Server.HandleAction` | main.py:63-77 | raises "Invalid action for <code>" exactly for codes outside the three supported ones; otherwise at most one command, and "OK" exactly when one is issued |
| `Server.DispatchExact` | main.py:67-72 | with distinct codes, each supported code reaches its own handler and no other |
| `Server.PostBlock` | main.py:33-48 | a parse failure or an unknown action yields the error "Invalid group_addr. Received : <segment>" with no command; a parsed address with a supported action gets exactly `handle_action`'s response and commands; a command is issued only for a parsed address with a supported action and a present value in 0..255, and it targets the parsed floor and block |
| `RestClient.CheckNegative` | rest_client.py:16-25 | returns `int(value)` iff the text is an integer literal whose value is at least 0; otherwise the `ArgumentTypeError` "<text> is an invalid positive int value" |
| `RestClient.IsValueValid` | rest_client.py:28-32 | returns true iff the value is present and between the range's least and greatest members; otherwise an error naming them as "[min-max]" |
| `RestClient.ValueRange` | rest_client.py:52-65 | a range exists exactly for the three supported actions and is never empty; following the if/elif order it is 0..255 for the valve position, 0..1 for toggling a blind and 0..255 for setting a blind |
| `RestClient.FormatGroupAddr` | rest_client.py:69-70 | the `"%s_%s_%s"` segment splits on `_` into exactly the three `str()` tokens |
| `RestClient.ClientMain` | rest_client.py:35-73 | a request is built iff the action is an integer among the supported codes, floor and block are non-negative integers, and the value is a non-negative integer inside that action's range; the request carries that value and the formatted segment, and its URL is the server prefix followed by a segment that splits on `_` into the three `str()` tokens. A non-integer or unsupported action is rejected by name; after that the first bad argument in declaration order names the error: `check_negative`'s message for the floor, the block or a present value, then `is_value_valid`'s "[min-max]" message for a missing or out-of-range value |
| `EndToEnd.FormatParseRoundTrip` | rest_client.py:69-70 | the server's `parse_group_addr` of the client's segment returns the same (action, floor, block), for any three integers |
| `EndToEnd.DomainsAgree` | rest_client.py:52-62 | for each supported action, the client's range admits a value exactly when the server's handler issues a command for it |
| `EndToEnd.MissingValueRefused` | rest_client.py:29-31 | a missing value is refused by the client's check and by the server's handler alike |
| `EndToEnd.ClientRequestAccepted` | rest_client.py:69-73 | any request the client posts is answered "OK" by the server with exactly one command, for the client's floor and block and carrying the posted value; with distinct codes it is the command the action names |
| `Knx.NewClient` | test_client.py:17-25 | both advertised endpoints, control and data, are `0.0.0.0:0`, and the gateway is the given address |
| `Knx.SendDataToGroupAddr` | test_client.py:27-40 | the run completes iff four replies arrive |
| `Knx.ExchangeShape` | test_client.py:30-40 | a send-then-receive exchange sends exactly its requests, takes exactly its replies, and alternates sends and receives, starting with a send |
| `Knx.RunShape` | test_client.py:27-122 | a run sends a prefix of (connection, connection-state, tunnelling, disconnect), all to the gateway, with one request more than the replies taken while blocked and all four once complete. Every request after the first carries the `channel_id` of the first reply, and the control endpoint is reused. Replies are taken in arrival order, alternating with the sends |
| `Knx.CompletedRunSendsFour` | test_client.py:83-88 | a complete run sends exactly four frames of the four kinds in order; the last three share the learned channel; the tunnelling request carries destination, data and data size unchanged |
| `Knx.SentDependsOnlyOnChannel` | test_client.py:33-40 | two runs that take the same number of replies (counting any beyond the fourth as the fourth) and see the same first `channel_id` send the same frames; no other reply content is inspected |
| `Knx.DataSize` | test_client.py:153-158 | a data size exists only for main groups 0 and 1: 2 bytes for main group 0, 1 byte for main group 1 |
| `Knx.CliMain` | test_client.py:141-160 | a send happens iff argv is `-a` with exactly four entries, the destination parses with main group 0 or 1, and the data is an integer; its size follows the main group. With `-a` and four entries, a destination that fails to parse raises, a main group other than 0 or 1 gives "Unsupported destination", and a non-integer data word raises; any other shape of argv prints usage |
| `Knx.CliRun` | test_client.py:150-156 | the command line puts frames on the socket exactly when it decides to send, and then the trace is exactly one `send_data_to_group_addr` run of a default client, so `Knx.RunShape` applies to it; every frame goes to the default gateway 127.0.0.1:3671; once two replies have arrived, the third frame is the tunnelling request carrying the parsed destination, the data word and the chosen size |

## Left out

- Flask routing, `jsonify`, `request.json`, and a missing or non-object JSON body (`.get` on `None` raises): the model starts from the path segment and an optional integer value.
- JSON values that are not integers (floats, strings, booleans): the server compares them with Python's mixed-type rules, or raises `TypeError`. The model's value is an optional integer.
- The `except IndexError` branches of the three handlers: `dict.get` never raises `IndexError`, so they cannot be reached.
- The `with KNXClient(...)` block around the dispatch, and the client methods main.py calls on it: neither `__enter__`/`__exit__` nor those methods exist in test_client.py, so the calls are abstract `Server.Command`s.
- Python `int()` leniency: surrounding whitespace, `_` digit grouping, non-ASCII digits. A token is an optionally signed run of ASCII decimal digits.
- argparse machinery beyond the two validators: usage text, exit codes, and which error is reported when several arguments are bad at once. `RestClient.ClientMain` checks the arguments in declaration order.
- The HTTP request itself (`urllib`), and the server URL beyond the constant prefix `RestClient.RestServerUrl`.
- UDP socket creation, binding to port 3672, `sendto`/`recvfrom` byte buffers, and all `print` logging.
- The KNXnet/IP byte layout and the frame codec (`knxnet.create_frame`, `decode_frame`, `GroupAddress.from_str`): that module is not part of this model, so frames stay abstract and `Knx.CliMain` takes the group-address parser as a parameter.
- A decode exception inside the handshake: `decode_frame` is external, so the `inbox` holds replies that have already been decoded.
- Timeouts, status-code checks, sequence numbers, failure and cleanup states: the code performs none of them, so the model adds none.
- `RestClient.IsValueValid`: requires a non-empty range, because `min()` of an empty range raises a different error; every call site passes a non-empty range.

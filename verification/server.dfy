/** The REST server: parsing the `<action>_<floor>_<block>` path segment,
    dispatching on the action code and validating the posted value before
    issuing one command to the bus client. Flask responses become
    `Response`; calls on the bus client become emitted `Command`s. */
module Server {
  import opened Results
  import opened Text
  import opened Actions

  const ParameterSeparator: char := '_'

  const OkMsg: string := "OK"
  const InvalidValueMsg: string := "value provided is not valid"

  /** `Message.info(msg)` / `Message.error(msg)`: the JSON body
      `{"error": <bool>, "msg": msg}`. */
  datatype Response = Info(msg: string) | Error(msg: string)

  /** A call on the bus client, as the handlers issue it. */
  datatype Command =
    | SetValvePosition(floor: int, block: int, value: int)
    | OpenBlind(floor: int, block: int)
    | CloseBlind(floor: int, block: int)
    | SetBlind(floor: int, block: int, value: int)

  /** What a request produced: the response and the client calls, in order. */
  datatype Handled = Handled(response: Response, commands: seq<Command>)

  /** The three integers of a group address path segment. */
  datatype GroupAddr = GroupAddr(action: int, floor: int, block: int)

  function InvalidGroupAddressMsg(groupAddr: string): string {
    "Invalid group address for " + groupAddr
  }

  function InvalidGroupAddrResponse(groupAddr: string): Response {
    Error("Invalid group_addr. Received : " + groupAddr)
  }

  /** `parse_group_addr`: split on the separator, demand exactly three
      pieces, convert each with `int()`. Every failure raises the same
      `ValueError`, whose message is the error here. */
  function ParseGroupAddr(groupAddr: string): (r: Result<GroupAddr, string>)
    ensures r.Ok? <==>
      var p := Split(groupAddr, ParameterSeparator);
      |p| == 3 && IsIntLiteral(p[0]) && IsIntLiteral(p[1]) && IsIntLiteral(p[2])
    ensures r.Ok? ==>
      var p := Split(groupAddr, ParameterSeparator);
      r.value == GroupAddr(LiteralValue(p[0]), LiteralValue(p[1]), LiteralValue(p[2]))
    ensures r.Err? ==> r.error == InvalidGroupAddressMsg(groupAddr)
  {
    var params := Split(groupAddr, ParameterSeparator);
    if |params| != 3 then Err(InvalidGroupAddressMsg(groupAddr))
    else match (ParseInt(params[0]), ParseInt(params[1]), ParseInt(params[2]))
      case (Some(a), Some(f), Some(b)) => Ok(GroupAddr(a, f, b))
      case _ => Err(InvalidGroupAddressMsg(groupAddr))
  }

  /** `handle_valve_position`: one valve command carrying the value
      unchanged when it is present and a byte; an error otherwise. */
  function HandleValvePosition(floor: int, block: int, value: Option<int>): (h: Handled)
    ensures h.commands != [] <==> value.Some? && InByteRange(value.value)
    ensures h.commands != [] ==>
      h.commands == [SetValvePosition(floor, block, value.value)] && h.response == Info(OkMsg)
    ensures h.commands == [] ==> h.response == Error(InvalidValueMsg)
  {
    if value.Some? && 0 <= value.value && value.value <= 255 then
      Handled(Info(OkMsg), [SetValvePosition(floor, block, value.value)])
    else Handled(Error(InvalidValueMsg), [])
  }

  /** `handle_toggle_blind`: 0 opens, 1 closes, anything else is refused. */
  function HandleToggleBlind(floor: int, block: int, value: Option<int>): (h: Handled)
    ensures h.response == Info(OkMsg) <==> value.Some? && InBitRange(value.value)
    ensures h.response != Info(OkMsg) ==> h == Handled(Error(InvalidValueMsg), [])
    ensures value == Some(0) ==> h.commands == [OpenBlind(floor, block)]
    ensures value == Some(1) ==> h.commands == [CloseBlind(floor, block)]
  {
    if value.None? || !(0 <= value.value && value.value <= 1) then
      Handled(Error(InvalidValueMsg), [])
    else if value.value == 0 then Handled(Info(OkMsg), [OpenBlind(floor, block)])
    else Handled(Info(OkMsg), [CloseBlind(floor, block)])
  }

  /** `handle_set_blind`: one blind-position command carrying the value
      unchanged when it is present and a byte; an error otherwise. */
  function HandleSetBlind(floor: int, block: int, value: Option<int>): (h: Handled)
    ensures h.commands != [] <==> value.Some? && InByteRange(value.value)
    ensures h.commands != [] ==>
      h.commands == [SetBlind(floor, block, value.value)] && h.response == Info(OkMsg)
    ensures h.commands == [] ==> h.response == Error(InvalidValueMsg)
  {
    if value.None? || !(0 <= value.value && value.value <= 255) then
      Handled(Error(InvalidValueMsg), [])
    else Handled(Info(OkMsg), [SetBlind(floor, block, value.value)])
  }

  /** `handle_action`: the if/elif chain over the action codes; an unknown
      code raises `ValueError`. */
  function HandleAction(codes: ActionCodes, action: int, floor: int, block: int, value: Option<int>)
    : (r: Result<Handled, string>)
    ensures r.Err? <==> !codes.Supported(action)
    ensures r.Err? ==> r.error == "Invalid action for " + IntToString(action)
    ensures r.Ok? ==> |r.value.commands| <= 1
    ensures r.Ok? ==> (r.value.response == Info(OkMsg) <==> |r.value.commands| == 1)
  {
    if action == codes.valvePosition then Ok(HandleValvePosition(floor, block, value))
    else if action == codes.toggleBlind then Ok(HandleToggleBlind(floor, block, value))
    else if action == codes.setBlind then Ok(HandleSetBlind(floor, block, value))
    else Err("Invalid action for " + IntToString(action))
  }

  /** `post_block`: a `ValueError` from parsing or from dispatch becomes the
      "Invalid group_addr" error response, and no command is issued. */
  function PostBlock(codes: ActionCodes, groupAddr: string, value: Option<int>): (h: Handled)
    ensures ParseGroupAddr(groupAddr).Err? ==> h == Handled(InvalidGroupAddrResponse(groupAddr), [])
    ensures ParseGroupAddr(groupAddr).Ok? && !codes.Supported(ParseGroupAddr(groupAddr).value.action) ==>
      h == Handled(InvalidGroupAddrResponse(groupAddr), [])
    ensures h.commands != [] ==> h.response == Info(OkMsg) && |h.commands| == 1
    ensures h.commands != [] ==>
      && ParseGroupAddr(groupAddr).Ok?
      && codes.Supported(ParseGroupAddr(groupAddr).value.action)
      && value.Some? && InByteRange(value.value)
      && h.commands[0].floor == ParseGroupAddr(groupAddr).value.floor
      && h.commands[0].block == ParseGroupAddr(groupAddr).value.block
    ensures ParseGroupAddr(groupAddr).Ok? && codes.Supported(ParseGroupAddr(groupAddr).value.action) ==>
      var g := ParseGroupAddr(groupAddr).value;
      h == HandleAction(codes, g.action, g.floor, g.block, value).value
  {
    match ParseGroupAddr(groupAddr)
    case Err(_) => Handled(InvalidGroupAddrResponse(groupAddr), [])
    case Ok(GroupAddr(action, floor, block)) =>
      match HandleAction(codes, action, floor, block, value)
      case Err(_) => Handled(InvalidGroupAddrResponse(groupAddr), [])
      case Ok(h) => h
  }

  /** With distinct codes, each recognised action reaches exactly its own
      handler, and the commands it can issue belong to that handler alone. */
  lemma DispatchExact(codes: ActionCodes, floor: int, block: int, value: Option<int>)
    requires codes.Distinct()
    ensures HandleAction(codes, codes.valvePosition, floor, block, value) == Ok(HandleValvePosition(floor, block, value))
    ensures HandleAction(codes, codes.toggleBlind, floor, block, value) == Ok(HandleToggleBlind(floor, block, value))
    ensures HandleAction(codes, codes.setBlind, floor, block, value) == Ok(HandleSetBlind(floor, block, value))
  {
  }
}

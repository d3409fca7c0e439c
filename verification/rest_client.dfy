/** The command-line REST client: the two argument validators, the
    per-action choice of value range and the `<action>_<floor>_<block>`
    path segment of the POST request it builds. */
module RestClient {
  import opened Results
  import opened Text
  import opened Actions

  /** Why the client stops before sending anything. */
  datatype ClientError =
    | InvalidInt(text: string)          // argparse's `type=int` conversion failed
    | InvalidChoice(action: int)        // argparse's `choices=SUPPORTED_ACTIONS` check failed
    | ArgumentTypeError(msg: string)    // raised by one of the two validators
    | UnsupportedAction                 // the final `else` of the dispatch

  /** A Python `range(start, stop)` with step 1. */
  datatype PyRange = PyRange(start: int, stop: int) {
    predicate Contains(v: int) {
      start <= v < stop
    }
  }

  /** The raw command-line words: action, floor, block and the optional `--value`. */
  datatype Args = Args(action: string, floor: string, block: string, value: Option<string>)

  /** The request the client posts: the path segment after `/block/` and the
      JSON body's `"value"`. */
  datatype Post = Post(groupAddr: string, value: int)

  const RestServerUrl: string := "http://127.0.0.1:5000/block/"

  /** The URL the request is posted to: the fixed server prefix, then the
      path segment. */
  function Url(p: Post): string {
    RestServerUrl + p.groupAddr
  }

  /** A command-line word `check_negative` accepts. */
  predicate IsNonNegativeLiteral(s: string) {
    IsIntLiteral(s) && LiteralValue(s) >= 0
  }

  /** The message `is_value_valid` raises, naming the range's least and
      greatest members. */
  function ValueRangeMsg(validRange: PyRange): string {
    "you must provide a value [" + IntToString(validRange.start) + "-" + IntToString(validRange.stop - 1) + "] argument"
  }

  function InvalidPositiveMsg(value: string): string {
    value + " is an invalid positive int value"
  }

  /** `check_negative`: `int(value)` when it parses and is not negative;
      `ArgumentTypeError` naming the text otherwise. */
  function CheckNegative(value: string): (r: Result<nat, ClientError>)
    ensures r.Ok? <==> IsNonNegativeLiteral(value)
    ensures r.Ok? ==> r.value == LiteralValue(value)
    ensures r.Err? ==> r.error == ArgumentTypeError(InvalidPositiveMsg(value))
  {
    match ParseInt(value)
    case None => Err(ArgumentTypeError(InvalidPositiveMsg(value)))
    case Some(i) => if i < 0 then Err(ArgumentTypeError(InvalidPositiveMsg(value))) else Ok(i)
  }

  /** `is_value_valid`: the value must be present and inside the range;
      the error names the range's least and greatest members. The range
      must not be empty, since `min()` of an empty range raises. */
  function IsValueValid(value: Option<int>, validRange: PyRange): (r: Result<bool, ClientError>)
    requires validRange.start < validRange.stop
    ensures r.Ok? <==> value.Some? && validRange.start <= value.value <= validRange.stop - 1
    ensures r.Ok? ==> r.value
    ensures r.Err? ==> r.error == ArgumentTypeError(ValueRangeMsg(validRange))
  {
    if value.None? || !validRange.Contains(value.value) then
      Err(ArgumentTypeError("you must provide a value [" + IntToString(validRange.start) + "-"
        + IntToString(validRange.stop - 1) + "] argument"))
    else Ok(true)
  }

  /** The range each action's value is checked against. */
  function ValueRange(codes: ActionCodes, action: int): (r: Result<PyRange, ClientError>)
    ensures r.Ok? <==> codes.Supported(action)
    ensures r.Ok? ==> r.value.start < r.value.stop
    ensures action == codes.valvePosition ==> r == Ok(PyRange(0, 256))
    ensures action != codes.valvePosition && action == codes.toggleBlind ==> r == Ok(PyRange(0, 2))
    ensures action != codes.valvePosition && action != codes.toggleBlind && action == codes.setBlind ==>
      r == Ok(PyRange(0, 256))
  {
    if action == codes.valvePosition then Ok(PyRange(0, 255 + 1))
    else if action == codes.toggleBlind then Ok(PyRange(0, 1 + 1))
    else if action == codes.setBlind then Ok(PyRange(0, 255 + 1))
    else Err(UnsupportedAction)
  }

  /** The `"%s_%s_%s"` path segment. */
  function FormatGroupAddr(action: int, floor: int, block: int): (s: string)
    ensures Split(s, '_') == [IntToString(action), IntToString(floor), IntToString(block)]
  {
    IntToStringNoUnderscore(action);
    IntToStringNoUnderscore(floor);
    IntToStringNoUnderscore(block);
    var s := IntToString(action) + "_" + IntToString(floor) + "_" + IntToString(block);
    SplitThree(IntToString(action), IntToString(floor), IntToString(block), '_');
    s
  }

  /** The client's `__main__`, from the command-line words to the request it
      posts: conversion and validation of every argument, in the order the
      arguments are declared, then the per-action value check. */
  function ClientMain(codes: ActionCodes, args: Args): (r: Result<Post, ClientError>)
    ensures r.Ok? ==>
      && IsIntLiteral(args.action) && codes.Supported(LiteralValue(args.action))
      && IsIntLiteral(args.floor) && LiteralValue(args.floor) >= 0
      && IsIntLiteral(args.block) && LiteralValue(args.block) >= 0
      && args.value.Some? && IsIntLiteral(args.value.value)
      && r.value.value == LiteralValue(args.value.value)
      && r.value.groupAddr == FormatGroupAddr(LiteralValue(args.action), LiteralValue(args.floor), LiteralValue(args.block))
    ensures r.Ok? ==>
      var url := Url(r.value);
      && |url| >= |RestServerUrl| && url[..|RestServerUrl|] == RestServerUrl
      && Split(url[|RestServerUrl|..], '_')
         == [IntToString(LiteralValue(args.action)), IntToString(LiteralValue(args.floor)), IntToString(LiteralValue(args.block))]
    ensures r.Ok? <==>
      && IsIntLiteral(args.action) && codes.Supported(LiteralValue(args.action))
      && IsIntLiteral(args.floor) && LiteralValue(args.floor) >= 0
      && IsIntLiteral(args.block) && LiteralValue(args.block) >= 0
      && args.value.Some? && IsIntLiteral(args.value.value) && LiteralValue(args.value.value) >= 0
      && ValueRange(codes, LiteralValue(args.action)).value.Contains(LiteralValue(args.value.value))
    ensures !IsIntLiteral(args.action) ==> r == Err(InvalidInt(args.action))
    ensures IsIntLiteral(args.action) && !codes.Supported(LiteralValue(args.action)) ==>
      r == Err(InvalidChoice(LiteralValue(args.action)))
    // Once the action is accepted, the remaining arguments are checked in
    // declaration order and the first bad one names the error.
    ensures IsIntLiteral(args.action) && codes.Supported(LiteralValue(args.action)) ==>
      && (!IsNonNegativeLiteral(args.floor) ==>
            r == Err(ArgumentTypeError(InvalidPositiveMsg(args.floor))))
      && (IsNonNegativeLiteral(args.floor) && !IsNonNegativeLiteral(args.block) ==>
            r == Err(ArgumentTypeError(InvalidPositiveMsg(args.block))))
      && (IsNonNegativeLiteral(args.floor) && IsNonNegativeLiteral(args.block)
          && args.value.Some? && !IsNonNegativeLiteral(args.value.value) ==>
            r == Err(ArgumentTypeError(InvalidPositiveMsg(args.value.value))))
      && (IsNonNegativeLiteral(args.floor) && IsNonNegativeLiteral(args.block)
          && (args.value.Some? ==> IsNonNegativeLiteral(args.value.value))
          && !(args.value.Some? && ValueRange(codes, LiteralValue(args.action)).value.Contains(LiteralValue(args.value.value))) ==>
            r == Err(ArgumentTypeError(ValueRangeMsg(ValueRange(codes, LiteralValue(args.action)).value))))
  {
    match ParseInt(args.action)
    case None => Err(InvalidInt(args.action))
    case Some(action) =>
      if action !in [codes.valvePosition, codes.toggleBlind, codes.setBlind] then Err(InvalidChoice(action))
      else
        match (CheckNegative(args.floor), CheckNegative(args.block))
        case (Err(e), _) => Err(e)
        case (_, Err(e)) => Err(e)
        case (Ok(floor), Ok(block)) =>
          var value := match args.value
            case None => Ok(None)
            case Some(text) => (match CheckNegative(text) case Ok(v) => Ok(Some(v as int)) case Err(e) => Err(e));
          match value
          case Err(e) => Err(e)
          case Ok(value) =>
            match ValueRange(codes, action)
            case Err(e) => Err(e)
            case Ok(range) =>
              match IsValueValid(value, range)
              case Err(e) => Err(e)
              case Ok(_) => Ok(Post(FormatGroupAddr(action, floor, block), value.value))
  }
}

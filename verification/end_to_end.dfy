/** Properties that tie the REST client to the REST server: the path segment
    the client formats is parsed back by the server into the same three
    integers, both sides enforce the same value domain for each action, and
    a request the client is willing to send is one the server carries out. */
module EndToEnd {
  import opened Results
  import opened Text
  import opened Actions
  import Server
  import RestClient

  /** `parse_group_addr("%s_%s_%s" % (a, f, b)) == [a, f, b]` for every three
      integers, negative ones included. */
  lemma FormatParseRoundTrip(action: int, floor: int, block: int)
    ensures Server.ParseGroupAddr(RestClient.FormatGroupAddr(action, floor, block))
         == Ok(Server.GroupAddr(action, floor, block))
  {
  }

  /** For every supported action, the client's value range admits a value
      exactly when the server's handler for that action issues a command
      for it. Both sides test the codes in the same order, so this holds
      even when two codes coincide. */
  lemma DomainsAgree(codes: ActionCodes, action: int, floor: int, block: int, value: int)
    requires codes.Supported(action)
    ensures RestClient.ValueRange(codes, action).value.Contains(value)
        <==> Server.HandleAction(codes, action, floor, block, Some(value)).value.commands != []
  {
  }

  /** A missing value is refused on both sides. */
  lemma MissingValueRefused(codes: ActionCodes, action: int, floor: int, block: int)
    requires codes.Supported(action)
    ensures RestClient.IsValueValid(None, RestClient.ValueRange(codes, action).value).Err?
    ensures Server.HandleAction(codes, action, floor, block, None).value
         == Server.Handled(Server.Error(Server.InvalidValueMsg), [])
  {
  }

  /** Whatever the client posts, the server answers "OK" and issues exactly
      one command for the floor and block the client was given; a position
      command carries the posted value unchanged, and with distinct codes
      the command is the one the action names. */
  lemma ClientRequestAccepted(codes: ActionCodes, args: RestClient.Args)
    requires RestClient.ClientMain(codes, args).Ok?
    ensures var post := RestClient.ClientMain(codes, args).value;
      var action := LiteralValue(args.action);
      var floor := LiteralValue(args.floor);
      var block := LiteralValue(args.block);
      var h := Server.PostBlock(codes, post.groupAddr, Some(post.value));
      && h.response == Server.Info(Server.OkMsg)
      && |h.commands| == 1
      && h.commands[0].floor == floor && h.commands[0].block == block
      && (h.commands[0].SetValvePosition? || h.commands[0].SetBlind? ==> h.commands[0].value == post.value)
      && (action == codes.valvePosition ==> h.commands[0] == Server.SetValvePosition(floor, block, post.value))
      && (codes.Distinct() && action == codes.toggleBlind ==>
            h.commands[0] == (if post.value == 0 then Server.OpenBlind(floor, block) else Server.CloseBlind(floor, block)))
      && (codes.Distinct() && action == codes.setBlind ==> h.commands[0] == Server.SetBlind(floor, block, post.value))
  {
    var post := RestClient.ClientMain(codes, args).value;
    var action := LiteralValue(args.action);
    FormatParseRoundTrip(action, LiteralValue(args.floor), LiteralValue(args.block));
    DomainsAgree(codes, action, LiteralValue(args.floor), LiteralValue(args.block), post.value);
  }
}

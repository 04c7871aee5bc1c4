/**
 * The `interactionCreate` listener: look the command up, verify, then dispatch to a
 * subcommand callback or to the top-level callback, turning a thrown callback into a
 * `commandException` event. Effects are returned as a log instead of being performed.
 */
module Router {
  import opened Js
  import opened Commands
  import opened Permissions
  import opened Options

  /** What an incoming interaction is: a chat-input command, a context-menu command, or anything else. */
  datatype InteractionKind = ChatInputCommand | MessageContextMenu | UserContextMenu | OtherInteraction

  /**
   * An incoming interaction. `subcommand` is what `options.getSubcommand()` returns, or
   * `None` when that call throws; `member` is the caller and `me` the bot in the same guild.
   */
  datatype Interaction = Interaction(
    kind: InteractionKind,
    commandName: string,
    subcommand: Option<string>,
    options: seq<InteractionOption>,
    member: Member,
    me: Member)

  /** The handler-wide settings the listener reads. */
  datatype Settings = Settings(language: string, botOwners: seq<string>, names: map<string, string>)

  /** A callback invocation and the argument bundle that distinguishes it. */
  datatype Call =
    | CallSubcommand(sub: Descriptor)
    | CallChatInput(command: Descriptor, optionsArray: seq<Value>)
    | CallMessage(command: Descriptor)
    | CallUser(command: Descriptor)
  {
    /** The definition whose callback runs. */
    function Target(): Descriptor {
      match this
      case CallSubcommand(s) => s
      case CallChatInput(c, _) => c
      case CallMessage(c) => c
      case CallUser(c) => c
    }
  }

  /** `handler.emit('commandException', commandName, error)` */
  datatype Event = CommandException(commandName: string, error: string)

  /** Everything one interaction causes, in order of kind: replies sent, callbacks run, events emitted. */
  datatype Effects = Effects(replies: seq<Reply>, calls: seq<Call>, events: seq<Event>)

  const NoEffects := Effects([], [], [])

  /** `s.name === subName && s.reference === int.commandName` */
  predicate Matches(s: Descriptor, subName: Option<string>, commandName: string) {
    s.name == subName && s.reference == Some(commandName)
  }

  /** `subcommands.find(...)`: the first subcommand, in insertion order, matching both names. */
  function FindSubcommand(subs: seq<Descriptor>, subName: Option<string>, commandName: string): (r: Option<Descriptor>)
    ensures r.Some? ==> r.value in subs && Matches(r.value, subName, commandName)
    ensures r.None? <==> forall i :: 0 <= i < |subs| ==> !Matches(subs[i], subName, commandName)
    ensures r.Some? ==> exists i :: 0 <= i < |subs| && subs[i] == r.value
                            && forall j :: 0 <= j < i ==> !Matches(subs[j], subName, commandName)
  {
    if subs == [] then None
    else if Matches(subs[0], subName, commandName) then Some(subs[0])
    else
      var r := FindSubcommand(subs[1..], subName, commandName);
      assert forall i :: 1 <= i < |subs| ==> subs[i] == subs[1..][i - 1];
      r
  }

  /** Awaiting `call`'s callback inside `try`, with the `catch` that emits `commandException`. */
  function Invoke(call: Call): Effects {
    var d := call.Target();
    match d.callback
    case Returns => Effects([], [call], [])
    case Throws(err) => Effects([], [call], [CommandException(d.name.GetOr("unknown"), err)])
  }

  /** The result of the permission verifier for `command` invoked through `inter`. */
  function VerifyFor(settings: Settings, command: Descriptor, inter: Interaction): Option<Reply> {
    Verify(command.permissions, settings.botOwners, command.devsOnly, settings.language,
           settings.names, inter.member, inter.me)
  }

  /** The conditions under which the listener runs a subcommand callback. */
  predicate SubcommandDispatch(command: Descriptor, subs: seq<Descriptor>, inter: Interaction) {
    && command.kind == ChatInputType
    && inter.kind == ChatInputCommand
    && command.hasSub
    && FindSubcommand(subs, inter.subcommand, inter.commandName).Some?
  }

  /**
   * The listener body for one interaction, given the top-level index `commands` and the
   * subcommands in insertion order.
   */
  function Route(settings: Settings, commands: map<Option<string>, Descriptor>, subs: seq<Descriptor>,
                 inter: Interaction): (r: Effects)
    // neither a command nor a context menu, or an unknown name: nothing happens
    ensures (inter.kind == OtherInteraction || Some(inter.commandName) !in commands) ==> r == NoEffects
    // at most one reply or one callback, never both
    ensures |r.replies| + |r.calls| <= 1
    ensures |r.events| <= |r.calls|
    // a denial is the verifier's reply and nothing else
    ensures (inter.kind != OtherInteraction && Some(inter.commandName) in commands)
              ==> (r.replies != [] <==> VerifyFor(settings, commands[Some(inter.commandName)], inter).Some?)
    ensures (r.replies != [])
              ==> r.replies == [VerifyFor(settings, commands[Some(inter.commandName)], inter).value]
                  && r.calls == [] && r.events == []
    // a callback that throws yields exactly one commandException, named after it or 'unknown'
    ensures forall c :: c in r.calls ==>
              r.events == (match c.Target().callback
                           case Returns => []
                           case Throws(e) => [CommandException(c.Target().name.GetOr("unknown"), e)])
    // a subcommand runs only when the top-level command allows it and both names match
    ensures forall c :: c in r.calls && c.CallSubcommand? ==>
              && Some(inter.commandName) in commands
              && SubcommandDispatch(commands[Some(inter.commandName)], subs, inter)
              && c.sub in subs && Matches(c.sub, inter.subcommand, inter.commandName)
    ensures (inter.kind != OtherInteraction && Some(inter.commandName) in commands
             && VerifyFor(settings, commands[Some(inter.commandName)], inter).None?
             && SubcommandDispatch(commands[Some(inter.commandName)], subs, inter))
              ==> r.calls == [CallSubcommand(FindSubcommand(subs, inter.subcommand, inter.commandName).value)]
    // otherwise an allowed chat-input command falls through to its own callback
    ensures (inter.kind == ChatInputCommand && Some(inter.commandName) in commands
             && VerifyFor(settings, commands[Some(inter.commandName)], inter).None?
             && commands[Some(inter.commandName)].kind == ChatInputType
             && !SubcommandDispatch(commands[Some(inter.commandName)], subs, inter))
              ==> r.calls == [CallChatInput(commands[Some(inter.commandName)], Flatten(inter.options))]
    // an allowed context-menu command runs its message or user callback
    ensures (inter.kind in {MessageContextMenu, UserContextMenu} && Some(inter.commandName) in commands
             && VerifyFor(settings, commands[Some(inter.commandName)], inter).None?
             && commands[Some(inter.commandName)].kind != ChatInputType)
              ==> r.calls == [if commands[Some(inter.commandName)].kind == MessageType
                              then CallMessage(commands[Some(inter.commandName)])
                              else CallUser(commands[Some(inter.commandName)])]
    // an allowed command reached through the wrong kind of interaction does nothing
    ensures (inter.kind != OtherInteraction && Some(inter.commandName) in commands
             && VerifyFor(settings, commands[Some(inter.commandName)], inter).None?
             && ((commands[Some(inter.commandName)].kind == ChatInputType) != (inter.kind == ChatInputCommand)))
              ==> r == NoEffects
    // the callback shape follows the definition's type; a mismatched interaction kind does nothing
    ensures forall c :: c in r.calls && !c.CallSubcommand? ==>
              && Some(inter.commandName) in commands
              && c.Target() == commands[Some(inter.commandName)]
              && (c.CallChatInput? <==> c.Target().kind == ChatInputType)
              && (c.CallMessage? <==> c.Target().kind == MessageType)
              && (c.CallChatInput? <==> inter.kind == ChatInputCommand)
  {
    if inter.kind == OtherInteraction then NoEffects
    else if Some(inter.commandName) !in commands then NoEffects
    else
      var command := commands[Some(inter.commandName)];
      var verified := VerifyFor(settings, command, inter);
      if verified.Some? then Effects([verified.value], [], [])
      else if command.kind == ChatInputType then
        if inter.kind != ChatInputCommand then NoEffects
        else
          var subCommand := FindSubcommand(subs, inter.subcommand, inter.commandName);
          if command.hasSub && subCommand.Some? then Invoke(CallSubcommand(subCommand.value))
          else Invoke(CallChatInput(command, Flatten(inter.options)))
      else if inter.kind == ChatInputCommand then NoEffects
      else if command.kind == MessageType then Invoke(CallMessage(command))
      else Invoke(CallUser(command))
  }
}

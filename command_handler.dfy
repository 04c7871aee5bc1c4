/**
 * The command handler: it indexes the definitions loaded from the commands directory into
 * two collections, installs the interaction listener, and on the ready signal registers
 * the top-level commands globally and on every test server.
 */
module CommandLoader {
  import opened Js
  import opened Commands
  import opened Router

  /** What `require(file)?.default` yields for one file of the commands directory. */
  datatype LoadedFile = NoExport | Export(d: Descriptor) | ImportError

  /** The two collections: top-level commands by `name`, subcommands by `reference + ' ' + name`. */
  datatype Index = Index(commands: Collection<Option<string>>, subcommands: Collection<string>)

  function EmptyIndex(): Index {
    Index(EmptyCollection(), EmptyCollection())
  }

  /** The key a subcommand is stored under. */
  function SubKey(d: Descriptor): string {
    Coerce(d.reference) + " " + Coerce(d.name)
  }

  /** A definition whose `testOnly` is undefined takes the handler-wide setting. */
  function WithDefaultTestOnly(d: Descriptor, testOnly: bool): Descriptor {
    if d.testOnly.None? then d.(testOnly := Some(testOnly)) else d
  }

  /**
   * What loading guarantees of the collections: each is a well-formed ordered map, the
   * top-level one holds only non-subcommands, stored under their own name and with
   * `testOnly` set, and the subcommand one holds only subcommands under their key.
   */
  ghost predicate IndexValid(ix: Index) {
    && ix.commands.Valid()
    && ix.subcommands.Valid()
    && (forall k :: k in ix.commands.entries ==>
          && ix.commands.entries[k].kind != SubcommandType
          && ix.commands.entries[k].testOnly.Some?
          && ix.commands.entries[k].name == k)
    && (forall k :: k in ix.subcommands.entries ==>
          && ix.subcommands.entries[k].kind == SubcommandType
          && SubKey(ix.subcommands.entries[k]) == k)
  }

  /** One iteration of the loading loop. */
  function LoadStep(ix: Index, file: LoadedFile, testOnly: bool): Index {
    match file
    case Export(d) =>
      if d.kind == SubcommandType then ix.(subcommands := ix.subcommands.Set(SubKey(d), d))
      else ix.(commands := ix.commands.Set(d.name, WithDefaultTestOnly(d, testOnly)))
    case _ => ix
  }

  /** The collections after loading `files` in order, starting from `ix`. */
  function LoadFiles(ix: Index, files: seq<LoadedFile>, testOnly: bool): (r: Index)
    ensures IndexValid(ix) ==> IndexValid(r)
  {
    if files == [] then ix
    else
      var prev := LoadFiles(ix, files[..|files| - 1], testOnly);
      LoadStepValid(prev, files[|files| - 1], testOnly);
      LoadStep(prev, files[|files| - 1], testOnly)
  }

  lemma LoadStepValid(ix: Index, file: LoadedFile, testOnly: bool)
    ensures IndexValid(ix) ==> IndexValid(LoadStep(ix, file, testOnly))
  {
  }

  /** The files processed before the first one whose import throws. */
  function Imported(files: seq<LoadedFile>): (r: seq<LoadedFile>)
    ensures r <= files
    ensures ImportError !in r
    ensures r == files <==> ImportError !in files
    ensures |r| < |files| ==> files[|r|] == ImportError
  {
    if files == [] || files[0] == ImportError then []
    else
      var rest := Imported(files[1..]);
      assert files == [files[0]] + files[1..];
      [files[0]] + rest
  }

  /** The last top-level definition in `files` named `k`: the reference for "last write wins". */
  function LastTopLevel(files: seq<LoadedFile>, k: Option<string>): Option<Descriptor> {
    if files == [] then None
    else
      var last := files[|files| - 1];
      if last.Export? && last.d.kind != SubcommandType && last.d.name == k then Some(last.d)
      else LastTopLevel(files[..|files| - 1], k)
  }

  /** The last subcommand in `files` whose key is `key`. */
  function LastSubcommand(files: seq<LoadedFile>, key: string): Option<Descriptor> {
    if files == [] then None
    else
      var last := files[|files| - 1];
      if last.Export? && last.d.kind == SubcommandType && SubKey(last.d) == key then Some(last.d)
      else LastSubcommand(files[..|files| - 1], key)
  }

  /**
   * After loading, the top-level entry for any name is the last top-level definition of that
   * name, with its `testOnly` defaulted; a name no file defines keeps its earlier entry.
   * Subcommands and files without a definition never touch this collection.
   */
  lemma {:induction false} LoadedCommand(ix: Index, files: seq<LoadedFile>, testOnly: bool, k: Option<string>)
    ensures LoadFiles(ix, files, testOnly).commands.Get(k)
            == match LastTopLevel(files, k)
               case Some(d) => Some(WithDefaultTestOnly(d, testOnly))
               case None => ix.commands.Get(k)
  {
    if files != [] {
      LoadedCommand(ix, files[..|files| - 1], testOnly, k);
    }
  }

  /**
   * After loading, the subcommand entry under any key is the last subcommand with that key;
   * a key no file produces keeps its earlier entry.
   */
  lemma {:induction false} LoadedSubcommand(ix: Index, files: seq<LoadedFile>, testOnly: bool, key: string)
    ensures LoadFiles(ix, files, testOnly).subcommands.Get(key)
            == match LastSubcommand(files, key)
               case Some(d) => Some(d)
               case None => ix.subcommands.Get(key)
  {
    if files != [] {
      LoadedSubcommand(ix, files[..|files| - 1], testOnly, key);
    }
  }

  /** A file without a usable default export changes neither collection, wherever it appears. */
  lemma {:induction false} NoExportSkipped(ix: Index, a: seq<LoadedFile>, b: seq<LoadedFile>, testOnly: bool)
    ensures LoadFiles(ix, a + [NoExport] + b, testOnly) == LoadFiles(ix, a + b, testOnly)
  {
    if b == [] {
      assert (a + [NoExport] + b)[..|a|] == a;
      assert a + b == a;
    } else {
      var init := b[..|b| - 1];
      assert (a + [NoExport] + b)[..|a + [NoExport] + b| - 1] == a + [NoExport] + init;
      assert (a + b)[..|a + b| - 1] == a + init;
      NoExportSkipped(ix, a, init, testOnly);
    }
  }

  /**
   * In a loaded index at most one subcommand matches a given (subcommand name, command name)
   * pair, so the listener's `find` does not depend on insertion order.
   */
  lemma SubcommandMatchUnique(ix: Index, subName: Option<string>, commandName: string, i: nat, j: nat)
    requires IndexValid(ix)
    requires i < j < |ix.subcommands.Values()|
    ensures !(Matches(ix.subcommands.Values()[i], subName, commandName)
              && Matches(ix.subcommands.Values()[j], subName, commandName))
  {
    var subs := ix.subcommands;
    assert subs.keys[i] in subs.entries && subs.keys[j] in subs.entries;
    assert SubKey(subs.entries[subs.keys[i]]) == subs.keys[i];
    assert SubKey(subs.entries[subs.keys[j]]) == subs.keys[j];
  }

  /**
   * Over a loaded index a top-level callback always runs under the interaction's command
   * name, so a `commandException` named `'unknown'` can only come from a subcommand.
   */
  lemma TopLevelExceptionNamed(settings: Settings, ix: Index, inter: Interaction)
    requires IndexValid(ix)
    ensures var r := Route(settings, ix.commands.entries, ix.subcommands.Values(), inter);
            forall c :: c in r.calls && !c.CallSubcommand? ==>
              c.Target().name == Some(inter.commandName)
              && forall e :: e in r.events ==> e.commandName == inter.commandName
  {
  }

  /** A `commands.set(...)` call of the registration pass. */
  datatype RegistrationCall =
    | SetGlobal(commands: seq<Descriptor>)
    | SetGuild(guildId: string, commands: seq<Descriptor>)

  /** How `client.guilds.fetch(id)` settles: a guild, nothing, or a rejection. */
  datatype GuildFetch = Fetched | FetchedNothing | FetchRejected

  predicate IsTestCommand(c: Descriptor) {
    FlagSet(c.testOnly)
  }

  predicate IsGlobalCommand(c: Descriptor) {
    !FlagSet(c.testOnly)
  }

  /**
   * The two filters split the commands exactly: every command is in one list or the
   * other and none is lost or duplicated.
   */
  lemma {:induction false} PartitionExact(all: seq<Descriptor>)
    ensures multiset(Filter(IsGlobalCommand, all)) + multiset(Filter(IsTestCommand, all)) == multiset(all)
    ensures |Filter(IsGlobalCommand, all)| + |Filter(IsTestCommand, all)| == |all|
    ensures forall i :: 0 <= i < |all| ==>
              (all[i] in Filter(IsGlobalCommand, all) <==> all[i] !in Filter(IsTestCommand, all))
  {
    FilterSplit(IsGlobalCommand, IsTestCommand, all);
    var global, test := Filter(IsGlobalCommand, all), Filter(IsTestCommand, all);
    assert |multiset(global) + multiset(test)| == |multiset(all)|;
    assert |multiset(global)| == |global| && |multiset(test)| == |test| && |multiset(all)| == |all|;
    forall i | 0 <= i < |all|
      ensures all[i] in global <==> all[i] !in test
    {
      FilterMember(IsGlobalCommand, all, all[i]);
      FilterMember(IsTestCommand, all, all[i]);
      if IsTestCommand(all[i]) {
        FilterKeeps(IsTestCommand, all, i);
      } else {
        FilterKeeps(IsGlobalCommand, all, i);
      }
    }
  }

  /**
   * The per-server loop: each test server that fetches gets the test list, one that fetches
   * nothing is skipped, and a rejected fetch ends the pass.
   */
  function GuildCalls(servers: seq<string>, fetch: string -> GuildFetch, test: seq<Descriptor>): (r: seq<RegistrationCall>)
    ensures |r| <= |servers|
    ensures forall i :: 0 <= i < |r| ==> r[i].SetGuild? && r[i].commands == test && r[i].guildId in servers
  {
    if servers == [] then []
    else
      var rest := GuildCalls(servers[1..], fetch, test);
      assert forall i :: 1 <= i < |servers| ==> servers[i] == servers[1..][i - 1];
      match fetch(servers[0])
      case Fetched => [SetGuild(servers[0], test)] + rest
      case FetchedNothing => rest
      case FetchRejected => []
  }

  /** When every fetch yields a guild, each test server in turn receives the test list. */
  lemma {:induction false} AllGuildsRegistered(servers: seq<string>, fetch: string -> GuildFetch, test: seq<Descriptor>)
    requires forall i :: 0 <= i < |servers| ==> fetch(servers[i]) == Fetched
    ensures GuildCalls(servers, fetch, test)
            == seq(|servers|, i requires 0 <= i < |servers| => SetGuild(servers[i], test))
  {
    if servers != [] {
      assert forall i :: 1 <= i < |servers| ==> servers[i] == servers[1..][i - 1];
      AllGuildsRegistered(servers[1..], fetch, test);
    }
  }

  /** The position of the first test server whose fetch rejects, or the number of servers. */
  function FirstRejected(servers: seq<string>, fetch: string -> GuildFetch): (k: nat)
    ensures k <= |servers|
    ensures forall i :: 0 <= i < k ==> fetch(servers[i]) != FetchRejected
    ensures k < |servers| ==> fetch(servers[k]) == FetchRejected
  {
    if servers == [] then 0
    else if fetch(servers[0]) == FetchRejected then 0
    else
      var k := FirstRejected(servers[1..], fetch);
      assert forall i :: 1 <= i < |servers| ==> servers[i] == servers[1..][i - 1];
      1 + k
  }

  /** `fetch(id)` yields a guild. */
  function IsFetched(fetch: string -> GuildFetch): string -> bool {
    s => fetch(s) == Fetched
  }

  /** One `SetGuild` call with the test list per id, in order. */
  function SetGuildEach(ids: seq<string>, test: seq<Descriptor>): seq<RegistrationCall> {
    seq(|ids|, i requires 0 <= i < |ids| => SetGuild(ids[i], test))
  }

  /**
   * Whatever the fetches do, the per-server calls are one `SetGuild` with the test list for
   * each server, in order, whose fetch yields a guild, among the servers before the first
   * rejected fetch. A fetch that yields nothing gets no call; a rejection ends the pass.
   */
  lemma {:induction false} GuildCallsExact(servers: seq<string>, fetch: string -> GuildFetch, test: seq<Descriptor>)
    ensures GuildCalls(servers, fetch, test)
            == SetGuildEach(Filter(IsFetched(fetch), servers[..FirstRejected(servers, fetch)]), test)
  {
    if servers != [] {
      var k := FirstRejected(servers, fetch);
      if fetch(servers[0]) == FetchRejected {
        assert GuildCalls(servers, fetch, test) == [];
        assert servers[..k] == [];
        assert SetGuildEach([], test) == [];
      } else {
        GuildCallsExact(servers[1..], fetch, test);
        GuildCallsStep(servers, fetch, test);
      }
    }
  }

  /** The inductive step of `GuildCallsExact`, for a first server whose fetch settles. */
  lemma GuildCallsStep(servers: seq<string>, fetch: string -> GuildFetch, test: seq<Descriptor>)
    requires servers != [] && fetch(servers[0]) != FetchRejected
    requires GuildCalls(servers[1..], fetch, test)
             == SetGuildEach(Filter(IsFetched(fetch), servers[1..][..FirstRejected(servers[1..], fetch)]), test)
    ensures GuildCalls(servers, fetch, test)
            == SetGuildEach(Filter(IsFetched(fetch), servers[..FirstRejected(servers, fetch)]), test)
  {
    var k := FirstRejected(servers, fetch);
    var head := if fetch(servers[0]) == Fetched then [servers[0]] else [];
    var tail := Filter(IsFetched(fetch), servers[1..][..k - 1]);
    assert k - 1 == FirstRejected(servers[1..], fetch);
    assert GuildCalls(servers, fetch, test) == SetGuildEach(head, test) + GuildCalls(servers[1..], fetch, test);
    PrefixTail(servers, k);
    FilterCons(IsFetched(fetch), servers[..k]);
    assert Filter(IsFetched(fetch), servers[..k]) == head + tail;
    SetGuildEachAppend(head, tail, test);
    calc {
      GuildCalls(servers, fetch, test);
      SetGuildEach(head, test) + GuildCalls(servers[1..], fetch, test);
      SetGuildEach(head, test) + SetGuildEach(tail, test);
      SetGuildEach(head + tail, test);
      SetGuildEach(Filter(IsFetched(fetch), servers[..k]), test);
    }
  }

  lemma PrefixTail(s: seq<string>, k: nat)
    requires 0 < k <= |s|
    ensures s[..k] != [] && s[..k][0] == s[0] && s[..k][1..] == s[1..][..k - 1]
  {
  }

  lemma SetGuildEachAppend(a: seq<string>, b: seq<string>, test: seq<Descriptor>)
    ensures SetGuildEach(a + b, test) == SetGuildEach(a, test) + SetGuildEach(b, test)
  {
  }

  /** All calls of the registration pass, in order. */
  function Registrations(all: seq<Descriptor>, hasApplication: bool, servers: seq<string>,
                         fetch: string -> GuildFetch): seq<RegistrationCall> {
    (if hasApplication then [SetGlobal(Filter(IsGlobalCommand, all))] else [])
      + GuildCalls(servers, fetch, Filter(IsTestCommand, all))
  }

  class CommandHandler {
    var commands: Collection<Option<string>>
    var subcommands: Collection<string>
    /** Whether the interaction listener and the ready-time registration were installed. */
    var listening: bool

    ghost predicate Valid()
      reads this
    {
      IndexValid(State())
    }

    function State(): Index
      reads this
    {
      Index(commands, subcommands)
    }

    /**
     * Loads nothing when `dir` is empty or does not exist; otherwise loads the files and
     * installs the listener, unless importing a file throws.
     */
    constructor (dir: string, dirExists: bool, files: seq<LoadedFile>, testOnly: bool)
      ensures Valid()
      ensures (dir == "" || !dirExists) ==> State() == EmptyIndex() && !listening
      ensures (dir != "" && dirExists)
                ==> State() == LoadFiles(EmptyIndex(), Imported(files), testOnly)
                    && (listening <==> ImportError !in files)
    {
      commands := EmptyCollection();
      subcommands := EmptyCollection();
      listening := false;
      new;
      if dir != "" && dirExists {
        var completed, loaded := Load(files, testOnly);
        listening := completed;
      }
    }

    /**
     * `load`: indexes the files in order; a file whose import throws ends the loop and
     * keeps what was indexed before it. `loaded` is the count logged on completion.
     */
    method Load(files: seq<LoadedFile>, testOnly: bool) returns (completed: bool, loaded: nat)
      requires Valid()
      modifies this
      ensures Valid() && listening == old(listening)
      ensures State() == LoadFiles(old(State()), Imported(files), testOnly)
      ensures completed <==> ImportError !in files
      ensures completed ==> loaded == |commands.entries| + |subcommands.entries|
    {
      ghost var start := State();
      var i := 0;
      completed := true;
      loaded := 0;
      while i < |files| && completed
        invariant 0 <= i <= |files|
        invariant IndexValid(start) && listening == old(listening)
        invariant ImportError !in files[..i]
        invariant State() == LoadFiles(start, files[..i], testOnly)
        invariant !completed ==> i < |files| && files[i] == ImportError
        decreases |files| - i, completed
      {
        ghost var prev := State();
        assert files[..i + 1][..i] == files[..i];
        assert LoadFiles(start, files[..i + 1], testOnly) == LoadStep(prev, files[i], testOnly);
        match files[i] {
          case ImportError =>
            completed := false;
          case NoExport =>
            i := i + 1;
          case Export(command) =>
            if command.kind == SubcommandType {
              subcommands := subcommands.Set(SubKey(command), command);
            } else {
              commands := commands.Set(command.name, WithDefaultTestOnly(command, testOnly));
            }
            assert State() == LoadStep(prev, files[i], testOnly);
            i := i + 1;
        }
      }
      ImportedPrefix(files, i);
      if completed {
        loaded := |CommandsArray()| + |SubcommandsArray()|;
      }
    }

    /** `commandsArray` */
    function CommandsArray(): seq<Descriptor>
      reads this
      requires Valid()
    {
      commands.Values()
    }

    /** `subcommandsArray` */
    function SubcommandsArray(): seq<Descriptor>
      reads this
      requires Valid()
    {
      subcommands.Values()
    }

    /**
     * `registerCommands`: the non-test commands replace the global set, then each test
     * server in order receives the test commands.
     */
    method RegisterCommands(hasApplication: bool, testServers: seq<string>, fetch: string -> GuildFetch)
      returns (calls: seq<RegistrationCall>)
      requires Valid()
      ensures calls == Registrations(CommandsArray(), hasApplication, testServers, fetch)
      ensures forall i :: 0 <= i < |calls| && calls[i].SetGlobal? ==>
                i == 0 && calls[i].commands == Filter(IsGlobalCommand, CommandsArray())
      ensures forall i :: 0 <= i < |calls| && calls[i].SetGuild? ==>
                calls[i].commands == Filter(IsTestCommand, CommandsArray())
    {
      var register := CommandsArray();
      var global := Filter(IsGlobalCommand, register);
      var test := Filter(IsTestCommand, register);
      calls := if hasApplication then [SetGlobal(global)] else [];
      var i := 0;
      var rejected := false;
      while i < |testServers| && !rejected
        invariant 0 <= i <= |testServers|
        invariant calls + GuildCalls(testServers[i..], fetch, test)
                  == Registrations(register, hasApplication, testServers, fetch)
        invariant rejected ==> i < |testServers| && fetch(testServers[i]) == FetchRejected
        decreases |testServers| - i, !rejected
      {
        assert testServers[i..][1..] == testServers[i + 1..];
        match fetch(testServers[i]) {
          case FetchRejected =>
            rejected := true;
          case FetchedNothing =>
            i := i + 1;
          case Fetched =>
            calls := calls + [SetGuild(testServers[i], test)];
            i := i + 1;
        }
      }
    }
  }

  /** The loop stops exactly at the end of the imported prefix. */
  lemma {:induction false} ImportedPrefix(files: seq<LoadedFile>, i: nat)
    requires i <= |files|
    requires ImportError !in files[..i]
    requires i < |files| ==> files[i] == ImportError
    ensures Imported(files) == files[..i]
  {
    if i > 0 {
      assert files[0] in files[..i];
      assert files[1..][..i - 1] == files[1..i];
      assert files[1..i] == files[..i][1..];
      ImportedPrefix(files[1..], i - 1);
    } else if files != [] {
      assert files[0] == ImportError;
    }
  }
}

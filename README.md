# sl-commands: command index, routing and permission rules in Dafny

sl-commands is a convenience layer over the discord.js SDK. It loads command definition
files from a directory into two collections, registers the top-level commands with the
platform once the client is ready, and routes every incoming interaction to the right
callback after a permission check. This project models those rules and proves them:

- **Permission verifier** (`Permissions`): `verify`, `missing` and `strs` from
  `src/HandlerUtils.ts`. The checks run in a fixed order: the developer-only gate, then
  the caller's missing permissions, then the bot's. Each denial is a private reply whose
  content is a `getMessage(key, language, substitutions)` call. The model records that call
  as data, because the message table is outside the model.
- **Option flattening** (`Options`): the loop in the `interactionCreate` listener that
  builds `optionsArray`. It is modelled as a method with its loops, proved equal to a
  recursive function. That function is in turn proved equal to "walk everything, then drop
  the falsy values".
- **Interaction routing** (`Router`): the body of the `interactionCreate` listener.
  `Route` returns the effects of one interaction as a log: replies sent, callbacks run and
  `commandException` events emitted. Callbacks are outcomes (returns, or throws an error),
  not closures.
- **Command index and registration** (`CommandLoader`, `Commands`): the `CommandHandler`
  class. Its constructor and `load` build the two collections. `registerCommands` splits
  the top-level commands into a global list and a test-server list and produces the log of
  `commands.set` calls. The platform's `Collection` is a JavaScript `Map`, so it is
  modelled as an insertion-ordered map: setting an existing key keeps the key's position.

Inputs that come from the platform or the file system are parameters:
- the files the glob finds, each as what `require(file)?.default` yields;
- whether the directory exists;
- what `permissions.missing(required, true)` reports for the caller and for the bot;
- what `options.getSubcommand()` returns (`None` when it throws);
- whether `client.application` is set;
- how `guilds.fetch(id)` settles for each id.

Registration does not swallow every failed per-guild fetch, although the `?.` may suggest
so. The code does `(await handler.client.guilds.fetch(id))?.commands.set(test)`. The `?.`
only skips a fetch that resolves to nothing. A fetch that rejects throws out of
`registerCommands`, so the remaining test servers are not registered. `GuildCallsExact` states
exactly that.

Two quirks of the code are kept:
- Option flattening drops every falsy value (`0`, `false`, `''`).
- When `hasSub` is set but no subcommand matches, the listener falls through to the
  top-level callback.

The `'unknown'` fallback in `commandException` is reachable in one case only. `getSubcommand()`
throws, which leaves `subName` undefined, and a subcommand without a `name` whose `reference`
is the command's name matches it. `TopLevelExceptionNamed` shows that a top-level callback
always reports the command's own name.

## Model

| member | source | states |
|---|---|---|
| `Js.Filter` | src/CommandHandler.ts:64-65 | The filtered list keeps exactly the elements satisfying the predicate, is no longer than the input, and is a sub-multiset of it. |
| `Commands.Collection.Set` | src/CommandHandler.ts:38 | `Map.set`: the entry for the key becomes the new value. A new key goes last in insertion order and an existing key keeps its place. The ordered-map invariant is preserved. |
| `Commands.Collection.Values` | src/CommandHandler.ts:84-92 | `Array.from(values())` has one element per key, in insertion order. Its length equals the number of entries, and it contains exactly the map's values. |
| `Permissions.Missing` | src/HandlerUtils.ts:189-201 | The result is empty exactly when nothing is lacking. If the localized list holds `Administrador` the result is exactly `['Administrador']`; otherwise, if it holds `Administrator`, exactly `['Administrator']`; otherwise it is the localized list unchanged and in order. |
| `Permissions.Strs` | src/HandlerUtils.ts:203-209 | `s` is `'s'` and `a` is `'ões'` exactly when the list has more than one entry, and otherwise `''` and `'ão'`. The text is a backtick, the entries joined by `", "`, and a backtick. |
| `Permissions.JoinSingle` | src/HandlerUtils.ts:207 | `join` of one element is that element, with undefined rendered as the empty string. |
| `Permissions.JoinAppend` | src/HandlerUtils.ts:207 | `join` of two non-empty lists is their joined forms with one separator between them. |
| `Permissions.Verify` | src/HandlerUtils.ts:138-186 | With `devsOnly` and a caller outside `botOwners`, the result is the `DEV_ONLY` reply, whatever the permissions are. The result allows exactly when the gate passes and either nothing is required or neither party lacks anything. `PERMS_USER` comes exactly when the gate passes, something is required and the caller lacks something, so it wins over `PERMS_BOT`. `PERMS_BOT` comes exactly when the caller lacks nothing and the bot lacks something. Each denial is ephemeral, carries the language, and lists the missing set of the party it names. |
| `Options.NestedValuesIsFilter` | src/HandlerUtils.ts:101-103 | The nested `forEach` pushes exactly the nested options' values with the falsy ones removed, in order. |
| `Options.FlattenAllTruthy` | src/HandlerUtils.ts:96-105 | Every value of `optionsArray` is truthy: `0`, `false`, `''` and undefined never appear. |
| `Options.FlattenIsFilter` | src/HandlerUtils.ts:96-105 | `optionsArray` equals the unfiltered walk with its falsy values removed. The walk gives, for a `SUB_COMMAND` option, its name and then each nested option's value, and for any other option its value. |
| `Options.FlattenSnoc` | src/HandlerUtils.ts:98-105 | One more iteration of the outer loop appends what that option contributes and leaves the earlier values as they were. |
| `Options.FlattenAppend` | src/HandlerUtils.ts:98-105 | The options are flattened one after another: flattening a concatenation concatenates the results, so input order is kept. |
| `Options.PushNestedValues` | src/HandlerUtils.ts:101-103 | The nested loop appends exactly the truthy nested values, in order. |
| `Options.OptionsArray` | src/HandlerUtils.ts:96-105 | The loop with `push` calls builds exactly the flattened list. |
| `Router.FindSubcommand` | src/HandlerUtils.ts:71-73 | `find` returns a subcommand of the list whose `name` equals the subcommand name and whose `reference` equals the command name, and it is the first such one. It returns nothing exactly when none matches. |
| `Router.Route` | src/HandlerUtils.ts:32-135 | An interaction that is neither a command nor a context menu, or whose name is unknown, has no effect. A denial sends exactly the verifier's reply and runs no callback. At most one callback runs. A callback that throws yields exactly one `commandException` with its name, or `'unknown'`. The subcommand callback runs exactly when the command is chat-input, `hasSub` is set and a subcommand matches both names; otherwise an allowed chat-input command runs its own callback with the flattened options. An allowed `MESSAGE` command reached through a context menu runs its message callback, and any other non-chat-input command runs its user callback. An allowed command reached through the wrong kind of interaction (a chat-input command from a context menu, or the reverse) has no effect. The callback shape follows the definition's type. |
| `CommandLoader.LoadFiles` | src/CommandHandler.ts:33-46 | Loading keeps the index well formed: top-level entries are non-subcommands stored under their own name with `testOnly` set, and subcommand entries are subcommands stored under `reference + ' ' + name`. |
| `CommandLoader.Imported` | src/CommandHandler.ts:21-26 | The files processed are the prefix before the first file whose import throws, and that prefix is all the files exactly when none throws. |
| `CommandLoader.LoadedCommand` | src/CommandHandler.ts:37-44 | After loading, the top-level entry for a name is the last top-level definition with that name, with `testOnly` set to the handler's default when it was undefined and kept otherwise. Names no file defines keep their earlier entry, and subcommands never affect this collection. |
| `CommandLoader.LoadedSubcommand` | src/CommandHandler.ts:37-38 | After loading, the subcommand entry under `reference + ' ' + name` is the last subcommand with that key. Other keys keep their earlier entry. |
| `CommandLoader.NoExportSkipped` | src/CommandHandler.ts:34-35 | A file with no usable default export changes neither collection, wherever it appears in the file list. |
| `CommandLoader.SubcommandMatchUnique` | src/HandlerUtils.ts:71-73 | In a loaded index no two subcommands match the same (subcommand name, command name) pair. |
| `CommandLoader.TopLevelExceptionNamed` | src/HandlerUtils.ts:132-134 | Over a loaded index, a top-level callback runs under the interaction's command name, and so do the exceptions it raises. |
| `CommandLoader.PartitionExact` | src/CommandHandler.ts:64-65 | The global and test lists together hold every command exactly once (as multisets), and each command is in exactly one of them. |
| `CommandLoader.GuildCalls` | src/CommandHandler.ts:69-71 | Every per-server call sets the test list on a listed server, and there is at most one call per entry of `testServers` (an id listed twice can get two calls). |
| `CommandLoader.GuildCallsExact` | src/CommandHandler.ts:69-71 | For any outcome of the fetches, the per-server calls are one `SetGuild` with the test list for each server whose fetch yields a guild, in `testServers` order, taken from the servers before the first rejected fetch. A fetch that yields nothing gets no call, and a rejection ends the pass. |
| `CommandLoader.AllGuildsRegistered` | src/CommandHandler.ts:69-71 | When every fetch yields a guild, server `i` receives the test list as call `i`, in `testServers` order, and there is no other call. |
| `CommandLoader.CommandHandler.constructor` | src/CommandHandler.ts:13-27 | With an empty or missing directory nothing is loaded and no listener is installed. Otherwise the index is the load of the imported prefix, and a listener is installed exactly when no import throws. |
| `CommandLoader.CommandHandler.Load` | src/CommandHandler.ts:29-56 | The new index is the old one with the imported prefix loaded, and the invariant is kept. The loop completes exactly when no import throws, and the logged count is the number of top-level entries plus the number of subcommand entries. |
| `CommandLoader.CommandHandler.RegisterCommands` | src/CommandHandler.ts:58-72 | The call log is the registration log of `commandsArray`. A global call, if any, is the first call and carries exactly the commands with falsy `testOnly`. Every server call carries exactly the commands with truthy `testOnly`. |

Some helpers have no row of their own, because the rows above state what they mean:
- `Permissions.Localize` is the `.map(e => perms[language][e])` at src/HandlerUtils.ts:194-196, covered by the `Permissions.Missing` row.
- `Permissions.Join` is the `array.join(', ')` at src/HandlerUtils.ts:207, covered by the `Permissions.JoinSingle`, `Permissions.JoinAppend` and `Permissions.Strs` rows.
- `Router.Invoke` is the `try`/`catch` with `handler.emit('commandException', ...)` at src/HandlerUtils.ts:78-87 and :92-134, covered by the `Router.Route` row.
- `Commands.Collection.Get` is `collection.get` at src/HandlerUtils.ts:35, covered by the `CommandLoader.LoadedCommand` and `CommandLoader.LoadedSubcommand` rows.
- `CommandLoader.CommandHandler.CommandsArray` and `CommandLoader.CommandHandler.SubcommandsArray` are the getters at src/CommandHandler.ts:85-92, covered by the `Commands.Collection.Values` row.

## Left out

- `src/mongo.ts` (database connection and its state labels) is not part of this model: it is a thin wrapper over the database client.
- `src/FeatureHandler.ts` is not part of this model: it only globs files and calls arbitrary feature functions.
- `typings.d.ts` is used only to shape the datatypes. A `permissions` value given as a single string is modelled as a list, and `type` tags other than the four declared ones are not modelled.
- File globbing, `existsSync` and `require` are inputs: the list of default exports and whether the directory exists.
- The logger output (the error lines and the "Loaded N commands" line) is not modelled, apart from the count that `Load` returns.
- The discord.js semantics of `permissions.missing`, `getSubcommand`, `guilds.fetch`, `reply` and `commands.set` are inputs or entries of an output log.
- The localized permission table and the text that `getMessage` produces are inputs. A denial records the `getMessage` call instead of its text.
- The callback argument bundles (client, handler, interaction, target message or user) are reduced to the kind of call and, for chat input, `optionsArray`.
- Interactions outside a guild are not modelled: every interaction carries a caller and a bot member. In the code, a missing `member` makes `target.id` (src/HandlerUtils.ts:146) throw, and a missing guild makes `guild.me!` (src/HandlerUtils.ts:154) throw. The listener then ends with an unhandled rejection, with no reply and no `commandException`.
- Asynchrony is not modelled: the `once('ready')` wiring, the unawaited `reply` and `commands.set` promises, and the ordering of concurrent interactions. Interactions are modelled one at a time over a fixed index.
- `Options.FlattenAllTruthy`: numbers are modelled as reals, and `NaN` (also falsy in JavaScript) is not modelled.
- A nested option's own nested options are not represented, because the flattening reads only the nested option's value.

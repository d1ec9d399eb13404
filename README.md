# Self-service role bot: the component registry, modelled in Dafny

The bot lets administrators post messages that carry persistent interactive
components. A button toggles one role on the member who clicks it. A drop-down
lets a member pick any of several roles. Every posted component is recorded in a
store keyed by the id of its message. When the bot starts, it rebuilds the
components from that store and binds each one to its original message again.

This project models the logic inside those handlers. Discord objects are
replaced by plain data:

- the guild's role table is a map from role id to role name (`guild.get_role`);
- the channels that still exist are a set of channel ids (`bot.get_channel`);
- a member's roles are a set of role ids (discord.py compares roles by id);
- the id of a message the bot posts is a parameter, since the platform assigns it;
- the registry that `bot.add_view(view, message_id=...)` fills is a map from
  message id to view.

Modules, one per part of `bot.py`:

- `Numerals`: Python's `str(int)` and `int(str)` in base 10. Message ids are
  written as keys with `str` and read back with `int`, so the round trip matters.
- `Text`: `replace(" ", "")`, `split(",")` and `", ".join(...)`.
- `Guild`: roles, role lookup, and the order-preserving filter
  `[get_role(rid) for rid in ids if get_role(rid)]`.
- `Components`: the button and the drop-down as posted. Discord's `label` field
  is called `caption`, because `label` is a Dafny keyword.
- `RoleToggle`: the button's click handler.
- `RoleSync`: the drop-down's callback. Its two loops, the resulting role set
  and the reply text.
- `Mentions`: the parsing loop of the `setup` command.
- `Storage`: the `storage` dict as a class with two map fields.
- `Commands`: the `autorole` and `setup` commands.
- `Reattach`: the reattachment loops of `on_ready`.

The model follows what the code does in two places where the bot's intended
behaviour is different:

- A drop-down is meant to skip a stored role id that no longer resolves and carry
  on. The code's drop-down callback does not check for this: it fails on `None`.
  The model states "every submitted value resolves" as a precondition.
- A button's routing key is meant to be unique even across several messages for
  the same role. The code uses `autorole-<role id>`, which is the same for every
  message about that role. The model uses the code's key and proves only that
  distinct roles get distinct keys.

`member.roles` in the selector callback is the member object delivered with the
interaction. discord.py's `add_roles` and `remove_roles` do not update that
object. So every decision in the callback is taken against the roles held at
submission, and the resulting role set is the held set, plus the added roles,
minus the removed roles.

## Model

| member | source | states |
|---|---|---|
| `Numerals.IntToString` | bot.py:147 | `str(n)` is a minus sign exactly when `n` is negative, followed by decimal digits only |
| `Numerals.ParseInt` | bot.py:159 | `int(s)` succeeds only on non-empty text of digits and underscores with at most a leading sign, and a negative result comes only from a leading minus |
| `Numerals.ParseIntToString` | bot.py:114 | `int(str(n)) == n` for every integer, so a stored key gives back its message id |
| `Numerals.IntToStringCanonical` | bot.py:147 | every `str(n)` is a canonical key, and `str` is injective on integers |
| `Text.Join` | bot.py:88-90 | `sep.join(parts)` starts with the first piece and its length is the pieces' total length plus one separator between each two; no pieces give the empty string |
| `Text.Split` | bot.py:155 | `split(",")` yields at least one piece, no piece contains the separator, and joining the pieces with it rebuilds the text |
| `Text.SplitJoin` | bot.py:155 | splitting undoes joining when no piece contains the separator |
| `Text.RemoveSpaces` | bot.py:155 | `replace(" ", "")` leaves no space, never lengthens the text, and keeps every other character as often as it occurs |
| `Text.RemoveSpacesAppend` | bot.py:155 | removing spaces works piece by piece, and drops a single character exactly when it is a space; so the other characters keep their order |
| `Text.RemoveSpacesJoin` | bot.py:155 | in pieces without spaces, joined by a separator, only the separator loses its spaces |
| `Guild.GetRole` | bot.py:44 | `get_role(id)` yields a role exactly when the id is in the guild, and then the role has that id and the guild's name for it |
| `Guild.ResolveAll` | bot.py:119 | every role kept resolves in the guild, with the guild's name, and no more roles come out than ids went in |
| `Guild.ResolveAllAppend` | bot.py:119 | the filter distributes over concatenation, so the input order is kept |
| `Guild.ResolveAllMembership` | bot.py:119 | a role is kept if and only if its id occurs in the input and resolves to that role |
| `Guild.ResolveAllKeepsAll` | bot.py:156-162 | when every id resolves nothing is dropped, duplicates included |
| `Guild.ResolveAllEmpty` | bot.py:120 | the result is empty if and only if no id resolves |
| `Guild.ResolveAllOfIds` | bot.py:172 | resolving the ids of roles taken from the guild gives those roles back |
| `Guild.PartialResolution` | bot.py:116-121 | with ids [a, b, c] where only a and c resolve, the rebuilt selector holds exactly a and c, in that order |
| `Components.AutoroleButton` | bot.py:39-41 | the button holds its role id; its label is `Get Role ` followed by text that parses back to the id, and its key is `autorole-` followed by such text |
| `Components.AutoroleCustomIdIdentifiesRole` | bot.py:40 | the button's `autorole-<id>` key parses back to its role id; two buttons share a key if and only if they are for the same role |
| `Components.NewRoleSelect` | bot.py:60-69 | one option per role, labelled with its name, valued `str(role.id)`; at least 1 and at most n of them may be chosen; key `role_selector` |
| `Components.OptionValuesIdentifyRoles` | bot.py:61 | `int` of an option's value is its role's id; two options share a value if and only if their roles share an id |
| `RoleToggle.Toggle` | bot.py:43-55 | an unresolvable role changes nothing and replies "Role not found."; otherwise exactly the clicked role flips, every other role is kept, and the reply says which way it went |
| `RoleToggle.ToggleTwice` | bot.py:50-55 | two consecutive clicks restore the member's original role set |
| `RoleSync.AddSubmitted` | bot.py:75-79 | the first loop adds exactly the submitted roles the member lacks, in submission order |
| `RoleSync.RemoveDeselected` | bot.py:81-84 | the second loop removes exactly the held candidates whose value was not submitted, in candidate order |
| `RoleSync.Callback` | bot.py:71-94 | the names added and removed, the member's resulting roles and the reply are those of the specification functions; the reply is "No changes." if and only if both lists are empty |
| `RoleSync.AddedMembership` | bot.py:75-79 | a role id is added if and only if it is submitted and not held |
| `RoleSync.RemovedMembership` | bot.py:81-84 | a role is removed if and only if it is a candidate, is held, and its value was not submitted |
| `RoleSync.SelectorScope` | bot.py:73-84 | a role that is neither submitted nor a candidate of this selector keeps its membership |
| `RoleSync.SelectorSyncsCandidates` | bot.py:73-84 | with values of the form `str(id)`, the member ends up holding a candidate if and only if its value was submitted |
| `RoleSync.DeltaExample` | bot.py:73-84 | held {A, B}, candidates [A, B, D] and submitted [B, D] give added [D] and removed [A] |
| `RoleSync.NoChangesOnlyWhenEmpty` | bot.py:86-92 | the reply is "No changes." if and only if nothing was added and nothing removed |
| `RoleSync.BuildReply` | bot.py:86-92 | the reply built with `+=`: an Added line ending in a newline, then a Removed line, or "No changes." exactly when both are empty |
| `RoleSync.NoChangeSubmission` | bot.py:73-92 | when the held candidates are exactly the submitted ones, nothing is added or removed and the reply is "No changes." |
| `Mentions.ClassifyToken` | bot.py:158-159 | a token counts as a mention if and only if it starts with `<@&` and ends with `>`; its body then either parses to the id or makes `int` raise |
| `Mentions.MalformedAnywhere` | bot.py:157-159 | one delimited token with a non-integer body anywhere makes the whole parse raise |
| `Mentions.EmptyMentionIsMalformed` | bot.py:159 | `<@&>` is delimited and its empty body does not parse |
| `Mentions.MentionRoundTrip` | bot.py:158-159 | parsing the mention `<@&id>` gives back `id` |
| `Mentions.ParseWrittenMentions` | bot.py:155-162 | a comma-separated list of mentions parses to the roles of those ids that resolve, in the same order, duplicates kept |
| `Mentions.ParseSpacedMentions` | bot.py:155-162 | mentions separated by `", "`, as they are usually typed, parse to the same roles as without the spaces |
| `Mentions.NoValidRolesExample` | bot.py:155-166 | `<@&a>,<@&b>` with neither id in the guild parses to no role |
| `Mentions.ParseTokens` | bot.py:156-162 | the loop over the tokens raises exactly when some delimited token does not parse, and otherwise returns the resolved roles of the mentioned ids in order |
| `Mentions.ParseRoleMentions` | bot.py:155-162 | removing the spaces, splitting on `,` and running the loop gives the parse of the specification, raise included |
| `Storage.MessageKey` | bot.py:147 | the key `str(msg.id)` is canonical, and `int` of it is the message id |
| `Storage.ByMessageIdLookup` | bot.py:109-114 | read through `int(msg_id)`, a stored map has an entry for an id if and only if it holds the key `str(id)`, and it is the same entry |
| `Storage.ByMessageIdInsert` | bot.py:172 | storing under one more key adds exactly that message id to the id-keyed view |
| `Storage.Store.Empty` | bot.py:25-26 | a first run starts with both maps empty |
| `Storage.Store.PutAutorole` | bot.py:147 | only the key `str(msg.id)` of `autoroles` is set; every other entry and the `setups` map are unchanged |
| `Storage.Store.PutSetup` | bot.py:172 | only the key `str(msg.id)` of `setups` is set; every other entry and the `autoroles` map are unchanged |
| `Commands.Autorole` | bot.py:137-148 | posts the button for the role with its prompt, replies, and records {channel, role} under the new message's key |
| `Commands.Setup` | bot.py:154-173 | raises on a malformed mention and rejects with "No valid roles found." when nothing resolves, both without posting or storing; otherwise posts the drop-down over the parsed roles and records their ids in order |
| `Reattach.ReattachButtons` | bot.py:109-114 | the first loop registers a button under `int(key)` for every stored autorole whose channel resolves, whatever the order of the keys |
| `Reattach.ReattachSelectors` | bot.py:116-121 | the second loop registers, over what is already there, a drop-down for every stored setup whose channel resolves and that keeps at least one resolvable role |
| `Reattach.Reattach` | bot.py:108-121 | the registry left by `on_ready` is the buttons of the stored autoroles together with the drop-downs of the stored setups, read from the store without changing it |
| `Reattach.AutoroleRebound` | bot.py:109-114 | a stored autorole whose channel resolves is registered under its own message id, with a button for its stored role, which is not checked |
| `Reattach.SetupRebound` | bot.py:116-121 | a stored setup whose channel resolves is registered under its message id if and only if some role still resolves, over exactly those roles in stored order |
| `Reattach.AutoroleSurvivesRestart` | bot.py:147 | after an `autorole` write, a restart registers the same button under the same message id |
| `Reattach.SetupSurvivesRestart` | bot.py:172 | after a `setup` write, a restart with the same guild roles registers the same drop-down under the same message id |

## Left out

- Discord API calls (`add_roles`, `remove_roles`, `send_message`, `channel.send`, `tree.sync`, `add_view`, `bot.run`): these are network calls. Their effects appear only as the member's new role set, the returned reply and message, and the returned registry.
- The JSON file behind `load_storage` and `save_storage`: this is file I/O. Only the empty first-run default and the in-memory map writes are modelled. Saving and reloading a state is therefore not modelled, and neither is a corrupt file.
- Reading the token and guild id from the environment, the `embed` command, the permission error handler and the start-up `print`: these are configuration, formatting and middleware with no logic of their own.
- Interleaving of handlers at their `await` points: this is concurrency, and the code has no locking to verify. Each handler is modelled as one uninterrupted step.
- `RoleSync.Callback`: requires every submitted value to name a role of the guild. The code fails when a value no longer resolves, and the model does not invent graceful handling for that case.
- `Numerals.ParseInt`: models ASCII digits, an optional sign and single underscores between digits. It does not model the whitespace other than spaces that Python's `int()` strips, or non-ASCII decimal digits. Spaces are removed before parsing anyway. It also does not model Python's limit on integer string conversion: `int()` raises `ValueError` on more than 4300 digits. So a mention body of more than 4300 digits makes `setup` raise, where the model reads an id that does not resolve.
- `Numerals.IntToString`: does not model the same 4300-digit limit on `str()`. Message and role ids are far shorter.
- A channel's guild: the bot serves one guild, so `channel.guild.get_role` is the same role table as `interaction.guild.get_role`.
- Style and placeholder details of the components (`ButtonStyle.primary`, no timeout): these are constants with no logic. The drop-down's placeholder text is kept as a field.

/**
 * The two admin commands that post a component and record it: `autorole` (one
 * role, a button) and `setup` (several roles, a drop-down). The id of the posted
 * message is assigned by the platform and is a parameter here; permission
 * checks happen before these run and are not part of the model.
 */
module Commands {
  import opened Wrappers
  import opened Guild
  import opened Components
  import opened Mentions
  import opened Storage

  const AutoroleCreated: string := "\U{2705} Autorole message created."
  const SetupCreated: string := "\U{2705} Setup message created."
  const NoValidRoles: string := "\U{274C} No valid roles found."
  const SetupPrompt: string := "\U{1F4CC} Select your roles below:"

  function AutorolePrompt(roleName: string): string {
    "Click below to get the **" + roleName + "** role:"
  }

  /** A message posted to the channel, with the view attached to it. */
  datatype Message = Message(content: string, view: View)

  datatype SetupOutcome =
    | Raised                                // a malformed mention: ValueError, nothing sent
    | Rejected(reply: string)               // no role resolved: nothing sent
    | Created(sent: Message, reply: string) // posted and recorded

  /** `autorole(role)`: post the button, confirm, record the message. */
  method Autorole(store: Store, role: Role, channelId: int, messageId: int) returns (sent: Message, reply: string)
    requires store.Valid()
    modifies store
    ensures store.Valid()
    ensures sent == Message(AutorolePrompt(role.name), ButtonView(AutoroleButton(role.id)))
    ensures reply == AutoroleCreated
    ensures store.autoroles == old(store.autoroles)[MessageKey(messageId) := AutoroleEntry(channelId, role.id)]
    ensures store.setups == old(store.setups)
  {
    sent := Message(AutorolePrompt(role.name), ButtonView(AutoroleButton(role.id)));
    reply := AutoroleCreated;
    store.PutAutorole(messageId, AutoroleEntry(channelId, role.id));
  }

  /**
   * `setup(roles)`: parse the mentions; with no resolvable role reply and stop
   * before anything is sent or stored; otherwise post the drop-down over the
   * parsed roles and record their ids in the same order.
   */
  method Setup(store: Store, text: string, guild: RoleTable, channelId: int, messageId: int) returns (outcome: SetupOutcome)
    requires store.Valid()
    modifies store
    ensures store.Valid()
    ensures outcome.Raised? <==> ParsedRoles(text, guild).None?
    ensures outcome.Rejected? <==> ParsedRoles(text, guild) == Some([])
    ensures outcome.Rejected? ==> outcome.reply == NoValidRoles
    ensures !outcome.Created? ==> store.autoroles == old(store.autoroles) && store.setups == old(store.setups)
    ensures outcome.Created? ==>
      var roles := ParsedRoles(text, guild).value;
      && outcome.sent == Message(SetupPrompt, SelectView(NewRoleSelect(roles)))
      && outcome.reply == SetupCreated
      && store.setups == old(store.setups)[MessageKey(messageId) := SetupEntry(channelId, Ids(roles))]
      && store.autoroles == old(store.autoroles)
  {
    var parsed := ParseRoleMentions(text, guild);
    if parsed.None? {
      return Raised;
    }
    var roleObjects := parsed.value;
    if roleObjects == [] {
      return Rejected(NoValidRoles);
    }
    var sent := Message(SetupPrompt, SelectView(NewRoleSelect(roleObjects)));
    store.PutSetup(messageId, SetupEntry(channelId, Ids(roleObjects)));
    return Created(sent, SetupCreated);
  }
}

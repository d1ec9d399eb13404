/**
 * `AutoroleButton.callback`: a click flips whether the member holds the button's
 * role, and the ephemeral reply says which way it went.
 */
module RoleToggle {
  import opened Guild
  import opened Components

  const RoleNotFound: string := "\U{274C} Role not found."

  function RemovedReply(name: string): string { "\U{274C} Removed " + name + "." }
  function GrantedReply(name: string): string { "\U{2705} You got " + name + "!" }

  /** The member's roles after the click, and the reply sent to them. */
  datatype ToggleResult = ToggleResult(held: set<RoleId>, reply: string)

  function Toggle(button: Button, guild: RoleTable, held: set<RoleId>): (r: ToggleResult)
    // a role id that no longer resolves changes nothing
    ensures button.roleId !in guild ==> r == ToggleResult(held, RoleNotFound)
    // otherwise exactly the clicked role flips, and nothing else
    ensures button.roleId in guild ==>
      && (button.roleId in r.held <==> button.roleId !in held)
      && r.held - {button.roleId} == held - {button.roleId}
    ensures button.roleId in guild && button.roleId in held ==> r.reply == RemovedReply(guild[button.roleId])
    ensures button.roleId in guild && button.roleId !in held ==> r.reply == GrantedReply(guild[button.roleId])
  {
    match GetRole(guild, button.roleId)
    case None => ToggleResult(held, RoleNotFound)
    case Some(role) =>
      if role.id in held then ToggleResult(held - {role.id}, RemovedReply(role.name))
      else ToggleResult(held + {role.id}, GrantedReply(role.name))
  }

  /** Two consecutive clicks give the member back exactly the roles they had. */
  lemma ToggleTwice(button: Button, guild: RoleTable, held: set<RoleId>)
    ensures Toggle(button, guild, Toggle(button, guild, held).held).held == held
  {
    var once := Toggle(button, guild, held).held;
    var twice := Toggle(button, guild, once).held;
    if button.roleId in guild {
      forall x ensures x in twice <==> x in held {
        if x != button.roleId {
          assert x in twice - {button.roleId} <==> x in held - {button.roleId};
        }
      }
    }
  }
}

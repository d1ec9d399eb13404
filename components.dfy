/**
 * The interactive components the bot attaches to its messages: the single-role
 * button (`AutoroleButton`) and the multi-role drop-down (`RoleSelect`), each
 * wrapped in a view with no timeout so that it stays routable.
 */
module Components {
  import opened Wrappers
  import opened Numerals
  import opened Guild

  const ButtonIdPrefix: string := "autorole-"
  const ButtonLabelPrefix: string := "Get Role "
  const SelectorCustomId: string := "role_selector"
  const SelectorPlaceholder: string := "Choose your roles..."

  datatype Button = Button(caption: string, customId: string, roleId: RoleId)

  datatype SelectOption = SelectOption(caption: string, value: string)

  datatype RoleSelect = RoleSelect(
    placeholder: string,
    minValues: nat,
    maxValues: nat,
    options: seq<SelectOption>,
    customId: string,
    roles: seq<Role>)

  /** A persistent view holding one component. */
  datatype View = ButtonView(button: Button) | SelectView(menu: RoleSelect)

  /** `AutoroleButton(role_id)`: labelled with the id, routed by "autorole-<id>". */
  function AutoroleButton(roleId: RoleId): (b: Button)
    ensures b.roleId == roleId
    ensures ButtonLabelPrefix <= b.caption
    ensures ButtonIdPrefix <= b.customId
    ensures ParseInt(b.caption[|ButtonLabelPrefix|..]) == Some(roleId)
    ensures ParseInt(b.customId[|ButtonIdPrefix|..]) == Some(roleId)
  {
    ParseIntToString(roleId);
    Button(ButtonLabelPrefix + IntToString(roleId), ButtonIdPrefix + IntToString(roleId), roleId)
  }

  /** The routing key gives the role id back, so buttons for distinct roles never share one. */
  lemma AutoroleCustomIdIdentifiesRole(a: RoleId, b: RoleId)
    ensures ParseInt(AutoroleButton(a).customId[|ButtonIdPrefix|..]) == Some(a)
    ensures AutoroleButton(a).customId == AutoroleButton(b).customId <==> a == b
  {
    var ca, cb := AutoroleButton(a).customId, AutoroleButton(b).customId;
    assert ca[|ButtonIdPrefix|..] == IntToString(a);
    assert cb[|ButtonIdPrefix|..] == IntToString(b);
    ParseIntToString(a);
    IntToStringCanonical(a);
  }

  /**
   * `RoleSelect(roles)`: one option per role (label the role's name, value
   * `str(role.id)`), between one and all of them may be chosen.
   */
  function NewRoleSelect(roles: seq<Role>): (m: RoleSelect)
    ensures m.roles == roles && m.customId == SelectorCustomId
    ensures m.minValues == 1 && m.maxValues == |roles|
    ensures |m.options| == |roles|
    ensures forall i :: 0 <= i < |roles| ==> m.options[i] == SelectOption(roles[i].name, IntToString(roles[i].id))
  {
    var options := seq(|roles|, i requires 0 <= i < |roles| => SelectOption(roles[i].name, IntToString(roles[i].id)));
    RoleSelect(SelectorPlaceholder, 1, |options|, options, SelectorCustomId, roles)
  }

  /**
   * Option values are exactly the role ids as text: `int(value)` gives the id back,
   * and two options share a value only when their roles share an id.
   */
  lemma OptionValuesIdentifyRoles(roles: seq<Role>, i: nat, j: nat)
    requires i < |roles| && j < |roles|
    ensures ParseInt(NewRoleSelect(roles).options[i].value) == Some(roles[i].id)
    ensures NewRoleSelect(roles).options[i].value == NewRoleSelect(roles).options[j].value <==> roles[i].id == roles[j].id
  {
    ParseIntToString(roles[i].id);
    IntToStringCanonical(roles[i].id);
  }
}

/**
 * `on_ready`'s reattachment: rebuild a persistent view for every stored message
 * whose channel still exists and register it under that message's id
 * (`bot.add_view(view, message_id=int(msg_id))`). Nothing is sent or stored.
 * The registry is a map from message id to view. The bot never stores a button
 * and a drop-down under the same message id, since every key is the id of a
 * message it has just posted; the union below is therefore never asked to choose
 * between the two kinds, and the `*Rebound` lemmas state their result for ids
 * stored under one kind only.
 */
module Reattach {
  import opened Numerals
  import opened Guild
  import opened Components
  import opened Storage

  /** The views rebuilt from `autoroles`: a button for every entry whose channel resolves; the role is not checked. */
  function AutoroleViews(autoroles: map<int, AutoroleEntry>, channels: set<int>): map<int, View> {
    map id | id in autoroles && autoroles[id].channelId in channels :: ButtonView(AutoroleButton(autoroles[id].roleId))
  }

  /**
   * The views rebuilt from `setups`: a drop-down over the stored roles that still
   * resolve, in stored order, for every entry whose channel resolves and that keeps
   * at least one role.
   */
  function SetupViews(setups: map<int, SetupEntry>, channels: set<int>, guild: RoleTable): map<int, View> {
    map id | id in setups && setups[id].channelId in channels && ResolveAll(setups[id].roleIds, guild) != []
      :: SelectView(NewRoleSelect(ResolveAll(setups[id].roleIds, guild)))
  }

  /** What `on_ready` registers: the buttons of the stored autoroles and the drop-downs of the stored setups. */
  function Registry(autoroles: map<string, AutoroleEntry>, setups: map<string, SetupEntry>, channels: set<int>, guild: RoleTable): map<int, View>
    requires CanonicalKeys(autoroles) && CanonicalKeys(setups)
  {
    AutoroleViews(ByMessageId(autoroles), channels) + SetupViews(ByMessageId(setups), channels, guild)
  }

  lemma AutoroleViewsInsert(autoroles: map<int, AutoroleEntry>, id: int, entry: AutoroleEntry, channels: set<int>)
    requires id !in autoroles
    ensures AutoroleViews(autoroles[id := entry], channels) ==
      if entry.channelId in channels
      then AutoroleViews(autoroles, channels)[id := ButtonView(AutoroleButton(entry.roleId))]
      else AutoroleViews(autoroles, channels)
  {
  }

  lemma SetupViewsInsert(setups: map<int, SetupEntry>, id: int, entry: SetupEntry, channels: set<int>, guild: RoleTable)
    requires id !in setups
    ensures SetupViews(setups[id := entry], channels, guild) ==
      if entry.channelId in channels && ResolveAll(entry.roleIds, guild) != []
      then SetupViews(setups, channels, guild)[id := SelectView(NewRoleSelect(ResolveAll(entry.roleIds, guild)))]
      else SetupViews(setups, channels, guild)
  {
  }

  lemma UnionUpdate(earlier: map<int, View>, later: map<int, View>, id: int, v: View)
    ensures (earlier + later)[id := v] == earlier + later[id := v]
  {
  }

  lemma VisitedEntries<V>(m: map<string, V>, remaining: set<string>, k: string)
    requires remaining <= m.Keys && k in remaining
    ensures m - (remaining - {k}) == (m - remaining)[k := m[k]]
  {
  }

  /** Moving one key from the pending set to the stored entries already visited. */
  lemma VisitKey<V>(m: map<string, V>, remaining: set<string>, k: string)
    requires CanonicalKeys(m) && remaining <= m.Keys && k in remaining
    ensures ParseInt(k).value !in ByMessageId(m - remaining)
    ensures ByMessageId(m - (remaining - {k})) == ByMessageId(m - remaining)[ParseInt(k).value := m[k]]
  {
    VisitedEntries(m, remaining, k);
    ByMessageIdInsert(m - remaining, k, m[k]);
    ByMessageIdLookup(m - remaining, ParseInt(k).value);
  }

  /** `on_ready`'s first loop: a button for every stored autorole whose channel resolves. */
  method ReattachButtons(autoroles: map<string, AutoroleEntry>, channels: set<int>) returns (registry: map<int, View>)
    requires CanonicalKeys(autoroles)
    ensures registry == AutoroleViews(ByMessageId(autoroles), channels)
  {
    registry := map[];
    var remaining := autoroles.Keys;
    while remaining != {}
      invariant remaining <= autoroles.Keys
      invariant registry == AutoroleViews(ByMessageId(autoroles - remaining), channels)
      decreases remaining
    {
      var msgId :| msgId in remaining;
      var data := autoroles[msgId];
      VisitKey(autoroles, remaining, msgId);
      AutoroleViewsInsert(ByMessageId(autoroles - remaining), ParseInt(msgId).value, data, channels);
      if data.channelId in channels {
        registry := registry[ParseInt(msgId).value := ButtonView(AutoroleButton(data.roleId))];
      }
      remaining := remaining - {msgId};
    }
    assert autoroles - remaining == autoroles;
  }

  /** What the second loop has registered once only the keys in `remaining` are left. */
  function SelectorsSoFar(buttons: map<int, View>, setups: map<string, SetupEntry>, remaining: set<string>,
                          channels: set<int>, guild: RoleTable): map<int, View>
    requires CanonicalKeys(setups)
  {
    buttons + SetupViews(ByMessageId(setups - remaining), channels, guild)
  }

  /**
   * One step of the second loop: visiting key `k` registers its drop-down, if
   * any, over what the loop has registered so far.
   */
  lemma SelectorStep(setups: map<string, SetupEntry>, remaining: set<string>, k: string,
                     channels: set<int>, guild: RoleTable, buttons: map<int, View>, registry: map<int, View>)
    requires CanonicalKeys(setups) && remaining <= setups.Keys && k in remaining
    requires registry == SelectorsSoFar(buttons, setups, remaining, channels, guild)
    ensures var roles := ResolveAll(setups[k].roleIds, guild);
      SelectorsSoFar(buttons, setups, remaining - {k}, channels, guild)
      == if setups[k].channelId in channels && roles != [] then registry[ParseInt(k).value := SelectView(NewRoleSelect(roles))] else registry
  {
    VisitKey(setups, remaining, k);
    var done := ByMessageId(setups - remaining);
    SetupViewsInsert(done, ParseInt(k).value, setups[k], channels, guild);
    UnionUpdate(buttons, SetupViews(done, channels, guild), ParseInt(k).value, SelectView(NewRoleSelect(ResolveAll(setups[k].roleIds, guild))));
  }

  /** Before the second loop, nothing is registered beyond the buttons. */
  lemma SelectorsStart(setups: map<string, SetupEntry>, channels: set<int>, guild: RoleTable, buttons: map<int, View>)
    requires CanonicalKeys(setups)
    ensures SelectorsSoFar(buttons, setups, setups.Keys, channels, guild) == buttons
  {
    var none: map<string, SetupEntry> := map[];
    assert setups - setups.Keys == none;
    assert SetupViews(ByMessageId(none), channels, guild) == map[];
  }

  /** After the second loop, every setup has been visited. */
  lemma SelectorsDone(setups: map<string, SetupEntry>, channels: set<int>, guild: RoleTable, buttons: map<int, View>)
    requires CanonicalKeys(setups)
    ensures SelectorsSoFar(buttons, setups, {}, channels, guild) == buttons + SetupViews(ByMessageId(setups), channels, guild)
  {
    assert setups - {} == setups;
  }

  /** `on_ready`'s second loop: a drop-down for every stored setup whose channel and some role resolve. */
  method ReattachSelectors(setups: map<string, SetupEntry>, channels: set<int>, guild: RoleTable, buttons: map<int, View>)
    returns (registry: map<int, View>)
    requires CanonicalKeys(setups)
    ensures registry == buttons + SetupViews(ByMessageId(setups), channels, guild)
  {
    SelectorsStart(setups, channels, guild, buttons);
    registry := buttons;
    var remaining := setups.Keys;
    while remaining != {}
      invariant remaining <= setups.Keys
      invariant registry == SelectorsSoFar(buttons, setups, remaining, channels, guild)
      decreases remaining
    {
      var msgId :| msgId in remaining;
      var data := setups[msgId];
      SelectorStep(setups, remaining, msgId, channels, guild, buttons, registry);
      if data.channelId in channels {
        var roles := ResolveAll(data.roleIds, guild);
        if roles != [] {
          registry := registry[ParseInt(msgId).value := SelectView(NewRoleSelect(roles))];
        }
      }
      remaining := remaining - {msgId};
    }
    SelectorsDone(setups, channels, guild, buttons);
  }

  /**
   * The reattachment of `on_ready`, reading the stored maps: the registry it
   * leaves behind. It changes nothing in the store and sends nothing.
   */
  method Reattach(store: Store, channels: set<int>, guild: RoleTable) returns (registry: map<int, View>)
    requires store.Valid()
    ensures registry == Registry(store.autoroles, store.setups, channels, guild)
  {
    var buttons := ReattachButtons(store.autoroles, channels);
    registry := ReattachSelectors(store.setups, channels, guild, buttons);
  }

  /**
   * A button stored by `autorole` for message `messageId` is registered again
   * under exactly that id, as long as its channel exists and no setup claims the id.
   */
  lemma AutoroleRebound(autoroles: map<string, AutoroleEntry>, setups: map<string, SetupEntry>,
                        channels: set<int>, guild: RoleTable, messageId: int)
    requires CanonicalKeys(autoroles) && CanonicalKeys(setups)
    requires MessageKey(messageId) in autoroles && MessageKey(messageId) !in setups
    requires autoroles[MessageKey(messageId)].channelId in channels
    ensures var registry := Registry(autoroles, setups, channels, guild);
      && messageId in registry
      && registry[messageId] == ButtonView(AutoroleButton(autoroles[MessageKey(messageId)].roleId))
  {
    ByMessageIdLookup(autoroles, messageId);
    ByMessageIdLookup(setups, messageId);
  }

  /**
   * A drop-down stored by `setup` for message `messageId` comes back under that id
   * over exactly the stored roles that still resolve; when none does, nothing is
   * registered for it.
   */
  lemma SetupRebound(autoroles: map<string, AutoroleEntry>, setups: map<string, SetupEntry>,
                     channels: set<int>, guild: RoleTable, messageId: int)
    requires CanonicalKeys(autoroles) && CanonicalKeys(setups)
    requires MessageKey(messageId) in setups && MessageKey(messageId) !in autoroles
    requires setups[MessageKey(messageId)].channelId in channels
    ensures var registry := Registry(autoroles, setups, channels, guild);
      var live := ResolveAll(setups[MessageKey(messageId)].roleIds, guild);
      && (messageId in registry <==> live != [])
      && (live != [] ==> registry[messageId] == SelectView(NewRoleSelect(live)))
  {
    ByMessageIdLookup(autoroles, messageId);
    ByMessageIdLookup(setups, messageId);
  }

  /**
   * After a restart, the message `autorole` posted gets back the very button it
   * was posted with, provided its channel still exists.
   */
  lemma AutoroleSurvivesRestart(autoroles: map<string, AutoroleEntry>, setups: map<string, SetupEntry>,
                                channels: set<int>, guild: RoleTable, messageId: int, channelId: int, role: Role)
    requires CanonicalKeys(autoroles) && CanonicalKeys(setups)
    requires MessageKey(messageId) !in setups && channelId in channels
    ensures CanonicalKeys(autoroles[MessageKey(messageId) := AutoroleEntry(channelId, role.id)])
    ensures var registry := Registry(autoroles[MessageKey(messageId) := AutoroleEntry(channelId, role.id)], setups, channels, guild);
      messageId in registry && registry[messageId] == ButtonView(AutoroleButton(role.id))
  {
    var stored := autoroles[MessageKey(messageId) := AutoroleEntry(channelId, role.id)];
    AutoroleRebound(stored, setups, channels, guild, messageId);
  }

  /**
   * After a restart, the message `setup` posted gets back the very drop-down it
   * was posted with, provided its channel exists and the guild's roles are unchanged.
   */
  lemma SetupSurvivesRestart(autoroles: map<string, AutoroleEntry>, setups: map<string, SetupEntry>,
                             channels: set<int>, guild: RoleTable, messageId: int, channelId: int, roles: seq<Role>)
    requires CanonicalKeys(autoroles) && CanonicalKeys(setups)
    requires MessageKey(messageId) !in autoroles && channelId in channels
    requires roles != [] && forall i :: 0 <= i < |roles| ==> roles[i].id in guild && guild[roles[i].id] == roles[i].name
    ensures CanonicalKeys(setups[MessageKey(messageId) := SetupEntry(channelId, Ids(roles))])
    ensures var registry := Registry(autoroles, setups[MessageKey(messageId) := SetupEntry(channelId, Ids(roles))], channels, guild);
      messageId in registry && registry[messageId] == SelectView(NewRoleSelect(roles))
  {
    var stored := setups[MessageKey(messageId) := SetupEntry(channelId, Ids(roles))];
    ResolveAllOfIds(roles, guild);
    SetupRebound(autoroles, stored, channels, guild, messageId);
  }
}

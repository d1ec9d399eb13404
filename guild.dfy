/**
 * The guild as the bot sees it: its role table (`guild.get_role(id)` looks an id
 * up and yields the role or `None`) and the roles a member holds. discord.py
 * compares roles by id, so `role in member.roles` is id membership.
 */
module Guild {
  import opened Wrappers

  type RoleId = int

  datatype Role = Role(id: RoleId, name: string)

  /** The guild's roles: id to name. */
  type RoleTable = map<RoleId, string>

  /** `guild.get_role(id)`. */
  function GetRole(guild: RoleTable, id: RoleId): (r: Option<Role>)
    ensures r.Some? <==> id in guild
    ensures r.Some? ==> r.value.id == id && r.value.name == guild[id]
  {
    if id in guild then Some(Role(id, guild[id])) else None
  }

  function Ids(roles: seq<Role>): (ids: seq<RoleId>)
    ensures |ids| == |roles|
    ensures forall i :: 0 <= i < |roles| ==> ids[i] == roles[i].id
  {
    seq(|roles|, i requires 0 <= i < |roles| => roles[i].id)
  }

  function Names(roles: seq<Role>): (names: seq<string>)
    ensures |names| == |roles|
    ensures forall i :: 0 <= i < |roles| ==> names[i] == roles[i].name
  {
    seq(|roles|, i requires 0 <= i < |roles| => roles[i].name)
  }

  /** The ids of `roles`, as a set (membership only). */
  function IdSet(roles: seq<Role>): (ids: set<RoleId>)
    ensures forall r :: r in roles ==> r.id in ids
    ensures forall id :: id in ids ==> exists r :: r in roles && r.id == id
  {
    set r | r in roles :: r.id
  }

  lemma IdSetAppend(roles: seq<Role>, r: Role)
    ensures IdSet(roles + [r]) == IdSet(roles) + {r.id}
  {
    assert forall x :: x in roles + [r] <==> x in roles || x == r;
  }

  lemma NamesAppend(roles: seq<Role>, more: seq<Role>)
    ensures Names(roles + more) == Names(roles) + Names(more)
  {
  }

  /**
   * `[guild.get_role(rid) for rid in ids if guild.get_role(rid)]`: the roles
   * whose ids resolve, in the order of `ids`, duplicates kept.
   */
  function ResolveAll(ids: seq<RoleId>, guild: RoleTable): (roles: seq<Role>)
    ensures |roles| <= |ids|
    ensures forall i :: 0 <= i < |roles| ==> roles[i].id in guild && roles[i].name == guild[roles[i].id]
    decreases |ids|
  {
    if ids == [] then []
    else
      var last := ids[|ids| - 1];
      ResolveAll(ids[..|ids| - 1], guild) + (if last in guild then [Role(last, guild[last])] else [])
  }

  /** The filter distributes over concatenation: it keeps the relative order of `ids`. */
  lemma {:induction false} ResolveAllAppend(a: seq<RoleId>, b: seq<RoleId>, guild: RoleTable)
    ensures ResolveAll(a + b, guild) == ResolveAll(a, guild) + ResolveAll(b, guild)
    decreases |b|
  {
    if b == [] {
      assert a + b == a;
    } else {
      var b' := b[..|b| - 1];
      assert (a + b)[..|a + b| - 1] == a + b';
      ResolveAllAppend(a, b', guild);
    }
  }

  /** A role is kept exactly when its id occurs in `ids` and resolves. */
  lemma {:induction false} ResolveAllMembership(ids: seq<RoleId>, guild: RoleTable, r: Role)
    ensures r in ResolveAll(ids, guild) <==> r.id in ids && r.id in guild && r.name == guild[r.id]
    decreases |ids|
  {
    if ids != [] {
      var init := ids[..|ids| - 1];
      ResolveAllMembership(init, guild, r);
      assert ids == init + [ids[|ids| - 1]];
    }
  }

  /** When every id resolves nothing is dropped, duplicates included. */
  lemma {:induction false} ResolveAllKeepsAll(ids: seq<RoleId>, guild: RoleTable)
    requires forall i :: 0 <= i < |ids| ==> ids[i] in guild
    ensures Ids(ResolveAll(ids, guild)) == ids
    decreases |ids|
  {
    if ids != [] {
      var init := ids[..|ids| - 1];
      ResolveAllKeepsAll(init, guild);
      assert ids == init + [ids[|ids| - 1]];
    }
  }

  /** Resolving the ids of roles taken from the guild gives those same roles back. */
  lemma {:induction false} ResolveAllOfIds(roles: seq<Role>, guild: RoleTable)
    requires forall i :: 0 <= i < |roles| ==> roles[i].id in guild && guild[roles[i].id] == roles[i].name
    ensures ResolveAll(Ids(roles), guild) == roles
    decreases |roles|
  {
    if roles != [] {
      var init := roles[..|roles| - 1];
      ResolveAllOfIds(init, guild);
      assert Ids(roles)[..|roles| - 1] == Ids(init);
      assert init + [roles[|roles| - 1]] == roles;
    }
  }

  /** The result is empty exactly when no id resolves. */
  lemma {:induction false} ResolveAllEmpty(ids: seq<RoleId>, guild: RoleTable)
    ensures ResolveAll(ids, guild) == [] <==> forall i :: 0 <= i < |ids| ==> ids[i] !in guild
    decreases |ids|
  {
    if ids != [] {
      var init := ids[..|ids| - 1];
      ResolveAllEmpty(init, guild);
      assert forall i :: 0 <= i < |init| ==> init[i] == ids[i];
    }
  }

  /** Two of three ids resolve: the selector is rebuilt over exactly those two, in order. */
  lemma PartialResolution(a: RoleId, b: RoleId, c: RoleId, guild: RoleTable)
    requires a in guild && b !in guild && c in guild
    ensures ResolveAll([a, b, c], guild) == [Role(a, guild[a]), Role(c, guild[c])]
  {
    assert [a, b, c][..2] == [a, b];
    assert [a, b][..1] == [a];
    assert [a][..0] == [];
    assert ResolveAll([a], guild) == [Role(a, guild[a])];
    assert ResolveAll([a, b], guild) == [Role(a, guild[a])];
  }
}

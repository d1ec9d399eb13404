/**
 * `RoleSelect.callback`: the member submits a selection from the drop-down and
 * the bot adds the submitted roles they lack, removes the candidate roles they
 * hold but did not submit, and replies with what changed.
 *
 * `member.roles` is read from the member as the interaction delivered it;
 * discord.py's `add_roles`/`remove_roles` do not update that object, so every
 * decision below is taken against the roles held when the member submitted.
 */
module RoleSync {
  import opened Wrappers
  import opened Numerals
  import opened Text
  import opened Guild
  import opened Components

  const AddedPrefix: string := "\U{2705} Added: "
  const RemovedPrefix: string := "\U{274C} Removed: "
  const NoChanges: string := "\U{2139}\U{FE0F} No changes."

  /** Every submitted value is an integer naming a role of the guild (the callback crashes otherwise). */
  predicate ValuesResolve(values: seq<string>, guild: RoleTable) {
    forall i :: 0 <= i < |values| ==> ParseInt(values[i]).Some? && ParseInt(values[i]).value in guild
  }

  /** The role ids the submitted values name. */
  function SubmittedIds(values: seq<string>): set<RoleId> {
    set v | v in values && ParseInt(v).Some? :: ParseInt(v).value
  }

  /** The roles the first loop adds: submitted and not held, in submission order. */
  function AddedRoles(values: seq<string>, guild: RoleTable, held: set<RoleId>): (added: seq<Role>)
    requires ValuesResolve(values, guild)
    decreases |values|
  {
    if values == [] then []
    else
      var init := values[..|values| - 1];
      var id := ParseInt(values[|values| - 1]).value;
      AddedRoles(init, guild, held) + (if id !in held then [Role(id, guild[id])] else [])
  }

  /** The roles the second loop removes: candidates held and not submitted, in candidate order. */
  function RemovedRoles(candidates: seq<Role>, values: seq<string>, held: set<RoleId>): (removed: seq<Role>)
    decreases |candidates|
  {
    if candidates == [] then []
    else
      var init, role := candidates[..|candidates| - 1], candidates[|candidates| - 1];
      RemovedRoles(init, values, held) + (if IntToString(role.id) !in values && role.id in held then [role] else [])
  }

  /** The member's roles once both loops have run. */
  function SyncedRoles(menu: RoleSelect, values: seq<string>, guild: RoleTable, held: set<RoleId>): set<RoleId>
    requires ValuesResolve(values, guild)
  {
    (held + IdSet(AddedRoles(values, guild, held))) - IdSet(RemovedRoles(menu.roles, values, held))
  }

  /** The reply: an "Added" line, then a "Removed" line, or "No changes." when both are empty. */
  function ReplyText(added: seq<string>, removed: seq<string>): string {
    var lines := (if added != [] then AddedLine(added) else "") + (if removed != [] then RemovedLine(removed) else "");
    if lines == "" then NoChanges else lines
  }

  function AddedLine(names: seq<string>): string { AddedPrefix + Join(names, ", ") + "\n" }
  function RemovedLine(names: seq<string>): string { RemovedPrefix + Join(names, ", ") }

  /** A role id is added exactly when it is submitted and not held. */
  lemma {:induction false} AddedMembership(values: seq<string>, guild: RoleTable, held: set<RoleId>, id: RoleId)
    requires ValuesResolve(values, guild)
    ensures id in IdSet(AddedRoles(values, guild, held)) <==> id !in held && id in SubmittedIds(values)
    decreases |values|
  {
    if values != [] {
      var init, last := values[..|values| - 1], values[|values| - 1];
      AddedMembership(init, guild, held, id);
      assert values == init + [last];
      assert SubmittedIds(values) == SubmittedIds(init) + {ParseInt(last).value};
    }
  }

  /** A candidate is removed exactly when it is held and its value was not submitted. */
  lemma {:induction false} RemovedMembership(candidates: seq<Role>, values: seq<string>, held: set<RoleId>, r: Role)
    ensures r in RemovedRoles(candidates, values, held) <==> r in candidates && IntToString(r.id) !in values && r.id in held
    decreases |candidates|
  {
    if candidates != [] {
      var init := candidates[..|candidates| - 1];
      RemovedMembership(init, values, held, r);
      assert candidates == init + [candidates[|candidates| - 1]];
    }
  }

  /**
   * The selector never touches a role outside its own candidates and the
   * submitted values: every other role the member holds or lacks stays so.
   */
  lemma SelectorScope(menu: RoleSelect, values: seq<string>, guild: RoleTable, held: set<RoleId>, id: RoleId)
    requires ValuesResolve(values, guild)
    requires id !in SubmittedIds(values) && id !in IdSet(menu.roles)
    ensures id in SyncedRoles(menu, values, guild, held) <==> id in held
  {
    AddedMembership(values, guild, held, id);
    if id in IdSet(RemovedRoles(menu.roles, values, held)) {
      var r :| r in RemovedRoles(menu.roles, values, held) && r.id == id;
      RemovedMembership(menu.roles, values, held, r);
    }
  }

  /** Every submitted value is `str(id)` of the role it names, as the drop-down's option values are. */
  predicate CanonicalValues(values: seq<string>) {
    forall i :: 0 <= i < |values| ==> Canonical(values[i])
  }

  /**
   * After the callback the member holds a candidate role exactly when its option
   * was submitted, whatever they held before.
   */
  lemma SelectorSyncsCandidates(menu: RoleSelect, values: seq<string>, guild: RoleTable, held: set<RoleId>, c: Role)
    requires ValuesResolve(values, guild) && CanonicalValues(values)
    requires c in menu.roles
    ensures c.id in SyncedRoles(menu, values, guild, held) <==> IntToString(c.id) in values
  {
    var removed := RemovedRoles(menu.roles, values, held);
    AddedMembership(values, guild, held, c.id);
    RemovedMembership(menu.roles, values, held, c);
    ParseIntToString(c.id);
    if IntToString(c.id) in values {
      assert c.id in SubmittedIds(values);
      if c.id in IdSet(removed) {
        var r :| r in removed && r.id == c.id;
        RemovedMembership(menu.roles, values, held, r);
      }
    }
  }

  /**
   * Held {A, B}, candidates [A, B, D], submitted [B, D]: D is added and A removed.
   */
  lemma DeltaExample(a: Role, b: Role, d: Role, guild: RoleTable)
    requires a.id != b.id && b.id != d.id && a.id != d.id
    requires a.id in guild && b.id in guild && d.id in guild && guild[d.id] == d.name
    ensures ValuesResolve([IntToString(b.id), IntToString(d.id)], guild)
    ensures AddedRoles([IntToString(b.id), IntToString(d.id)], guild, {a.id, b.id}) == [d]
    ensures RemovedRoles([a, b, d], [IntToString(b.id), IntToString(d.id)], {a.id, b.id}) == [a]
  {
    var values := [IntToString(b.id), IntToString(d.id)];
    ParseIntToString(b.id);
    ParseIntToString(d.id);
    IntToStringCanonical(a.id);
    IntToStringCanonical(d.id);
    assert values[..1] == [IntToString(b.id)];
    assert values[..1][..0] == [];
    assert AddedRoles(values[..1], guild, {a.id, b.id}) == [];
    var cands := [a, b, d];
    assert cands[..2] == [a, b] && cands[..2][..1] == [a] && cands[..2][..1][..0] == [];
    assert RemovedRoles([a], values, {a.id, b.id}) == [a];
    assert RemovedRoles([a, b], values, {a.id, b.id}) == [a];
  }

  lemma NoChangesOnlyWhenEmpty(added: seq<string>, removed: seq<string>)
    ensures ReplyText(added, removed) == NoChanges <==> added == [] && removed == []
  {
    var lines := (if added != [] then AddedLine(added) else "") + (if removed != [] then RemovedLine(removed) else "");
    if added != [] {
      assert lines[0] == AddedPrefix[0];
    } else if removed != [] {
      assert lines[0] == RemovedPrefix[0];
    }
  }

  /**
   * When the member already holds exactly the submitted candidates, nothing is
   * added or removed and the reply reports no change.
   */
  lemma NoChangeSubmission(menu: RoleSelect, values: seq<string>, guild: RoleTable, held: set<RoleId>)
    requires ValuesResolve(values, guild) && CanonicalValues(values)
    requires forall v :: v in values ==> exists c :: c in menu.roles && v == IntToString(c.id)
    requires forall c :: c in menu.roles ==> (c.id in held <==> IntToString(c.id) in values)
    ensures AddedRoles(values, guild, held) == [] && RemovedRoles(menu.roles, values, held) == []
    ensures ReplyText(Names(AddedRoles(values, guild, held)), Names(RemovedRoles(menu.roles, values, held))) == NoChanges
  {
    var added := AddedRoles(values, guild, held);
    if added != [] {
      AddedMembership(values, guild, held, added[0].id);
      var v :| v in values && ParseInt(v).Some? && ParseInt(v).value == added[0].id;
      var c :| c in menu.roles && v == IntToString(c.id);
      ParseIntToString(c.id);
    }
    var removed := RemovedRoles(menu.roles, values, held);
    if removed != [] {
      RemovedMembership(menu.roles, values, held, removed[0]);
    }
    NoChangesOnlyWhenEmpty([], []);
  }

  /** The reply text, built up line by line as the callback does. */
  method BuildReply(added: seq<string>, removed: seq<string>) returns (msg: string)
    ensures msg == ReplyText(added, removed)
    ensures msg == NoChanges <==> added == [] && removed == []
  {
    ghost var addedPart := if added != [] then AddedLine(added) else "";
    ghost var removedPart := if removed != [] then RemovedLine(removed) else "";
    msg := "";
    if added != [] {
      msg := msg + AddedLine(added);
    }
    assert msg == addedPart;
    if removed != [] {
      msg := msg + RemovedLine(removed);
    }
    assert msg == addedPart + removedPart;
    if msg == "" {
      msg := NoChanges;
    }
    NoChangesOnlyWhenEmpty(added, removed);
  }

  lemma AddedRolesStep(values: seq<string>, guild: RoleTable, held: set<RoleId>, i: nat)
    requires ValuesResolve(values, guild) && i < |values|
    ensures ValuesResolve(values[..i], guild) && ValuesResolve(values[..i + 1], guild)
    ensures var id := ParseInt(values[i]).value;
      AddedRoles(values[..i + 1], guild, held)
      == AddedRoles(values[..i], guild, held) + (if id !in held then [Role(id, guild[id])] else [])
  {
    assert values[..i + 1][..i] == values[..i];
  }

  lemma RemovedRolesStep(candidates: seq<Role>, values: seq<string>, held: set<RoleId>, j: nat)
    requires j < |candidates|
    ensures var role := candidates[j];
      RemovedRoles(candidates[..j + 1], values, held)
      == RemovedRoles(candidates[..j], values, held) + (if IntToString(role.id) !in values && role.id in held then [role] else [])
  {
    assert candidates[..j + 1][..j] == candidates[..j];
  }

  /** The callback's first loop: add each submitted role the member lacks. */
  method AddSubmitted(values: seq<string>, guild: RoleTable, held: set<RoleId>)
    returns (added: seq<string>, newHeld: set<RoleId>)
    requires ValuesResolve(values, guild)
    ensures added == Names(AddedRoles(values, guild, held))
    ensures newHeld == held + IdSet(AddedRoles(values, guild, held))
  {
    added, newHeld := [], held;
    var i := 0;
    while i < |values|
      invariant 0 <= i <= |values|
      invariant ValuesResolve(values[..i], guild)
      invariant added == Names(AddedRoles(values[..i], guild, held))
      invariant newHeld == held + IdSet(AddedRoles(values[..i], guild, held))
    {
      var role := GetRole(guild, ParseInt(values[i]).value).value;
      AddedRolesStep(values, guild, held, i);
      if role.id !in held {
        newHeld := newHeld + {role.id};
        added := added + [role.name];
        NamesAppend(AddedRoles(values[..i], guild, held), [role]);
        IdSetAppend(AddedRoles(values[..i], guild, held), role);
      }
      i := i + 1;
    }
    assert values[..i] == values;
  }

  /** The callback's second loop: remove each held candidate whose value was not submitted. */
  method RemoveDeselected(candidates: seq<Role>, values: seq<string>, held: set<RoleId>, current: set<RoleId>)
    returns (removed: seq<string>, newHeld: set<RoleId>)
    ensures removed == Names(RemovedRoles(candidates, values, held))
    ensures newHeld == current - IdSet(RemovedRoles(candidates, values, held))
  {
    removed, newHeld := [], current;
    var j := 0;
    while j < |candidates|
      invariant 0 <= j <= |candidates|
      invariant removed == Names(RemovedRoles(candidates[..j], values, held))
      invariant newHeld == current - IdSet(RemovedRoles(candidates[..j], values, held))
    {
      var role := candidates[j];
      RemovedRolesStep(candidates, values, held, j);
      if IntToString(role.id) !in values && role.id in held {
        newHeld := newHeld - {role.id};
        removed := removed + [role.name];
        NamesAppend(RemovedRoles(candidates[..j], values, held), [role]);
        IdSetAppend(RemovedRoles(candidates[..j], values, held), role);
      }
      j := j + 1;
    }
    assert candidates[..j] == candidates;
  }

  /**
   * The callback: returns the names added and removed (in loop order), the
   * member's roles afterwards and the reply.
   */
  method Callback(menu: RoleSelect, values: seq<string>, guild: RoleTable, held: set<RoleId>)
    returns (added: seq<string>, removed: seq<string>, newHeld: set<RoleId>, reply: string)
    requires ValuesResolve(values, guild)
    ensures added == Names(AddedRoles(values, guild, held))
    ensures removed == Names(RemovedRoles(menu.roles, values, held))
    ensures newHeld == SyncedRoles(menu, values, guild, held)
    ensures reply == ReplyText(added, removed)
    ensures reply == NoChanges <==> added == [] && removed == []
  {
    var afterAdding;
    added, afterAdding := AddSubmitted(values, guild, held);
    removed, newHeld := RemoveDeselected(menu.roles, values, held, afterAdding);
    reply := BuildReply(added, removed);
  }
}

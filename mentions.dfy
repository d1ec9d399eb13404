/**
 * The parsing half of the `setup` command: the admin's text is a comma-separated
 * list of role mentions `<@&id>`; spaces are removed, the text is split on ",",
 * and every delimited token whose id resolves contributes its role, in order.
 */
module Mentions {
  import opened Wrappers
  import opened Numerals
  import opened Text
  import opened Guild

  const MentionOpen: string := "<@&"
  const MentionClose: char := '>'

  /** How the loop treats one token. */
  datatype Token =
    | Ignored            // not of the form "<@&...>": skipped
    | Mentioned(id: RoleId)  // delimited, and its body is an integer
    | Malformed          // delimited, but `int(mention[3:-1])` raises ValueError

  /** A role's mention as the chat platform writes it. */
  function Mention(id: RoleId): string {
    MentionOpen + IntToString(id) + [MentionClose]
  }

  /** `mention.startswith("<@&") and mention.endswith(">")`, then `int(mention[3:-1])`. */
  function ClassifyToken(tok: string): (t: Token)
    ensures t != Ignored <==> |tok| >= 4 && tok[..3] == MentionOpen && tok[|tok| - 1] == MentionClose
    ensures t.Mentioned? ==> ParseInt(tok[3..|tok| - 1]) == Some(t.id)
    ensures t.Malformed? ==> ParseInt(tok[3..|tok| - 1]) == None
  {
    if |tok| >= 3 && tok[..3] == MentionOpen && tok[|tok| - 1] == MentionClose then
      assert tok[2] == '&';
      match ParseInt(tok[3..|tok| - 1])
      case Some(id) => Mentioned(id)
      case None => Malformed
    else Ignored
  }

  /** The tokens of the admin's text: `roles.replace(" ", "").split(",")`. */
  function Tokens(text: string): seq<string> {
    Split(RemoveSpaces(text), ',')
  }

  /** The ids mentioned by `tokens`, in order; `None` if any delimited token is malformed. */
  function MentionIds(tokens: seq<string>): Option<seq<RoleId>>
    decreases |tokens|
  {
    if tokens == [] then Some([])
    else
      match MentionIds(tokens[..|tokens| - 1])
      case None => None
      case Some(ids) =>
        match ClassifyToken(tokens[|tokens| - 1])
        case Ignored => Some(ids)
        case Mentioned(id) => Some(ids + [id])
        case Malformed => None
  }

  /** What the parsing loop yields: `None` when it raises, else the resolved roles in order. */
  function ParsedRoles(text: string, guild: RoleTable): Option<seq<Role>> {
    match MentionIds(Tokens(text))
    case None => None
    case Some(ids) => Some(ResolveAll(ids, guild))
  }

  lemma {:induction false} MalformedPrefix(tokens: seq<string>, k: nat)
    requires k <= |tokens| && MentionIds(tokens[..k]).None?
    ensures MentionIds(tokens).None?
    decreases |tokens| - k
  {
    if k < |tokens| {
      assert tokens[..k + 1][..k] == tokens[..k];
      MalformedPrefix(tokens, k + 1);
    } else {
      assert tokens[..k] == tokens;
    }
  }

  /** A single malformed mention anywhere (such as "<@&>") makes the whole command raise. */
  lemma MalformedAnywhere(tokens: seq<string>, k: nat)
    requires k < |tokens| && ClassifyToken(tokens[k]).Malformed?
    ensures MentionIds(tokens).None?
  {
    assert tokens[..k + 1][..k] == tokens[..k];
    MalformedPrefix(tokens, k + 1);
  }

  lemma EmptyMentionIsMalformed()
    ensures ClassifyToken("<@&>").Malformed?
  {
    assert "<@&>"[3..3] == "";
  }

  /** Parsing a mention recovers the role id it was written for. */
  lemma MentionRoundTrip(id: RoleId)
    ensures ClassifyToken(Mention(id)) == Mentioned(id)
  {
    var m := Mention(id);
    assert m[..3] == MentionOpen;
    assert m[3..|m| - 1] == IntToString(id);
    ParseIntToString(id);
  }

  function Mentions(ids: seq<RoleId>): (ms: seq<string>)
    ensures |ms| == |ids|
    ensures forall i :: 0 <= i < |ids| ==> ms[i] == Mention(ids[i])
  {
    seq(|ids|, i requires 0 <= i < |ids| => Mention(ids[i]))
  }

  lemma {:induction false} MentionIdsOfMentions(ids: seq<RoleId>)
    ensures MentionIds(Mentions(ids)) == Some(ids)
    decreases |ids|
  {
    if ids != [] {
      var init := ids[..|ids| - 1];
      MentionIdsOfMentions(init);
      assert Mentions(ids)[..|ids| - 1] == Mentions(init);
      MentionRoundTrip(ids[|ids| - 1]);
      assert init + [ids[|ids| - 1]] == ids;
    }
  }

  lemma MentionChars(id: RoleId)
    ensures ',' !in Mention(id) && ' ' !in Mention(id)
  {
    assert forall i :: 3 <= i < |Mention(id)| - 1 ==> Mention(id)[i] == IntToString(id)[i - 3];
  }

  /**
   * Writing mentions of any non-empty list of ids, comma-separated, and parsing
   * the text gives back the roles of those ids that resolve, in the same order and
   * with duplicates kept.
   */
  lemma ParseWrittenMentions(ids: seq<RoleId>, guild: RoleTable)
    requires |ids| > 0
    ensures ParsedRoles(Join(Mentions(ids), ","), guild) == Some(ResolveAll(ids, guild))
  {
    var ms := Mentions(ids);
    forall i | 0 <= i < |ms| ensures ',' !in ms[i] && ' ' !in ms[i] {
      MentionChars(ids[i]);
    }
    JoinNoChar(ms, ",", ' ');
    RemoveSpacesNoop(Join(ms, ","));
    SplitJoin(ms, ',');
    MentionIdsOfMentions(ids);
  }

  /**
   * The same with the mentions separated by ", ", as they are usually typed: the
   * spaces are removed before splitting, so the parse is unchanged.
   */
  lemma ParseSpacedMentions(ids: seq<RoleId>, guild: RoleTable)
    requires |ids| > 0
    ensures ParsedRoles(Join(Mentions(ids), ", "), guild) == Some(ResolveAll(ids, guild))
  {
    var ms := Mentions(ids);
    forall i | 0 <= i < |ms| ensures ',' !in ms[i] && ' ' !in ms[i] {
      MentionChars(ids[i]);
    }
    RemoveSpacesJoin(ms, ", ");
    RemoveSpacesAppend(",", " ");
    RemoveSpacesAppend(" ", "");
    assert RemoveSpaces(", ") == ",";
    SplitJoin(ms, ',');
    MentionIdsOfMentions(ids);
  }

  /** "<@&a>,<@&b>" where neither id is a role of the guild: nothing resolves. */
  lemma NoValidRolesExample(a: RoleId, b: RoleId, guild: RoleTable)
    requires a !in guild && b !in guild
    ensures ParsedRoles(Mention(a) + "," + Mention(b), guild) == Some([])
  {
    assert Join(Mentions([a, b]), ",") == Mention(a) + "," + Mention(b);
    ParseWrittenMentions([a, b], guild);
    ResolveAllEmpty([a, b], guild);
  }

  /** One more token extends the mentioned ids as that token's classification says. */
  lemma MentionIdsStep(tokens: seq<string>, i: nat, ids: seq<RoleId>)
    requires i < |tokens| && MentionIds(tokens[..i]) == Some(ids)
    ensures MentionIds(tokens[..i + 1]) ==
      match ClassifyToken(tokens[i])
      case Ignored => Some(ids)
      case Mentioned(id) => Some(ids + [id])
      case Malformed => None
  {
    assert tokens[..i + 1][..i] == tokens[..i];
  }

  /** A token delimited by "<@&" and ">" has room for them both. */
  lemma DelimitedLength(tok: string)
    requires |tok| >= 3 && tok[..3] == MentionOpen && tok[|tok| - 1] == MentionClose
    ensures |tok| >= 4
  {
    assert tok[2] == '&';
  }

  /** `setup`'s loop over the tokens: accumulate the roles of the resolvable mentions; `None` where it raises. */
  method ParseTokens(tokens: seq<string>, guild: RoleTable) returns (result: Option<seq<Role>>)
    ensures result.None? <==> MentionIds(tokens).None?
    ensures result.Some? ==> result.value == ResolveAll(MentionIds(tokens).value, guild)
  {
    var roleObjects: seq<Role> := [];
    var i := 0;
    while i < |tokens|
      invariant 0 <= i <= |tokens|
      invariant MentionIds(tokens[..i]).Some?
      invariant roleObjects == ResolveAll(MentionIds(tokens[..i]).value, guild)
    {
      var mention := tokens[i];
      ghost var ids := MentionIds(tokens[..i]).value;
      MentionIdsStep(tokens, i, ids);
      if |mention| >= 3 && mention[..3] == MentionOpen && mention[|mention| - 1] == MentionClose {
        DelimitedLength(mention);
        var parsed := ParseInt(mention[3..|mention| - 1]);
        if parsed.None? {
          assert ClassifyToken(mention) == Malformed;
          MalformedPrefix(tokens, i + 1);
          return None;
        }
        var roleId := parsed.value;
        assert ClassifyToken(mention) == Mentioned(roleId);
        var role := GetRole(guild, roleId);
        assert (ids + [roleId])[..|ids|] == ids;
        if role.Some? {
          roleObjects := roleObjects + [role.value];
        }
      } else {
        assert ClassifyToken(mention) == Ignored;
      }
      i := i + 1;
    }
    assert tokens[..i] == tokens;
    return Some(roleObjects);
  }

  /** `setup`'s parsing: remove the spaces, split on ",", then run the loop over the tokens. */
  method ParseRoleMentions(text: string, guild: RoleTable) returns (result: Option<seq<Role>>)
    ensures result == ParsedRoles(text, guild)
  {
    result := ParseTokens(Tokens(text), guild);
  }
}

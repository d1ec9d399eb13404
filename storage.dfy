/**
 * The bot's persistent registry: the global `storage` dict with its two maps,
 * `autoroles` and `setups`, each keyed by `str(msg.id)` of the message the
 * component was posted with. The JSON file behind it is not part of this model;
 * only the empty default of a first run and the in-memory writes are.
 */
module Storage {
  import opened Numerals
  import opened Guild

  /** `{"channel_id": ..., "role_id": ...}` */
  datatype AutoroleEntry = AutoroleEntry(channelId: int, roleId: RoleId)

  /** `{"channel_id": ..., "role_ids": [...]}` */
  datatype SetupEntry = SetupEntry(channelId: int, roleIds: seq<RoleId>)

  /** Every key is `str` of a message id, so `int(key)` gives that id back. */
  predicate CanonicalKeys<V>(m: map<string, V>) {
    forall k :: k in m ==> Canonical(k)
  }

  /** The key a message is stored under. */
  function MessageKey(messageId: int): (key: string)
    ensures Canonical(key) && ParseInt(key).value == messageId
  {
    IntToStringCanonical(messageId);
    ParseIntToString(messageId);
    IntToString(messageId)
  }

  /**
   * A stored map as seen through `int(msg_id)`: the same entries, keyed by message
   * id. Canonical keys make `int` one-to-one on them.
   */
  function ByMessageId<V>(m: map<string, V>): (byId: map<int, V>)
    requires CanonicalKeys(m)
  {
    map k | k in m :: ParseInt(k).value := m[k]
  }

  /** The entry stored under `str(id)` is the entry `int` of its key gives back. */
  lemma ByMessageIdLookup<V>(m: map<string, V>, messageId: int)
    requires CanonicalKeys(m)
    ensures messageId in ByMessageId(m) <==> MessageKey(messageId) in m
    ensures messageId in ByMessageId(m) ==> ByMessageId(m)[messageId] == m[MessageKey(messageId)]
  {
    var key := MessageKey(messageId);
    if messageId in ByMessageId(m) {
      var k :| k in m && ParseInt(k).value == messageId;
      assert k == key;
    }
  }

  /** Storing under one more key adds exactly that message id. */
  lemma ByMessageIdInsert<V>(m: map<string, V>, k: string, v: V)
    requires CanonicalKeys(m) && Canonical(k)
    ensures CanonicalKeys(m[k := v])
    ensures ByMessageId(m[k := v]) == ByMessageId(m)[ParseInt(k).value := v]
  {
  }

  class Store {
    var autoroles: map<string, AutoroleEntry>
    var setups: map<string, SetupEntry>

    ghost predicate Valid()
      reads this
    {
      CanonicalKeys(autoroles) && CanonicalKeys(setups)
    }

    /** `load_storage()` when there is no file yet: both maps empty. */
    constructor Empty()
      ensures Valid()
      ensures autoroles == map[] && setups == map[]
    {
      autoroles := map[];
      setups := map[];
    }

    /** `storage["autoroles"][str(msg.id)] = {...}`: only that key of `autoroles` changes. */
    method PutAutorole(messageId: int, entry: AutoroleEntry)
      requires Valid()
      modifies this
      ensures Valid()
      ensures autoroles == old(autoroles)[MessageKey(messageId) := entry]
      ensures autoroles.Keys == old(autoroles.Keys) + {MessageKey(messageId)}
      ensures forall k :: k in old(autoroles) && k != MessageKey(messageId) ==> autoroles[k] == old(autoroles[k])
      ensures setups == old(setups)
    {
      autoroles := autoroles[MessageKey(messageId) := entry];
    }

    /** `storage["setups"][str(msg.id)] = {...}`: only that key of `setups` changes. */
    method PutSetup(messageId: int, entry: SetupEntry)
      requires Valid()
      modifies this
      ensures Valid()
      ensures setups == old(setups)[MessageKey(messageId) := entry]
      ensures setups.Keys == old(setups.Keys) + {MessageKey(messageId)}
      ensures forall k :: k in old(setups) && k != MessageKey(messageId) ==> setups[k] == old(setups[k])
      ensures autoroles == old(autoroles)
    {
      setups := setups[MessageKey(messageId) := entry];
    }
  }
}

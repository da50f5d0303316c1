/** API keys and their store: functions/keys/createKey.ts, deleteKey.ts and
    manageKey.ts. The key file is a read outcome (the parsed list, or unreadable)
    plus a write outcome; the UUID, the clock and the `makeid` mix are oracles. */
module Keys {
  import opened Wrappers
  import Seqs

  datatype Perm = ViewStats | CreateApiKey | DeleteApiKey | ViewApiKeys | UsePowerCommands

  datatype Permissions = Permissions(
    viewStats: bool, createApiKey: bool, deleteApiKey: bool, viewApiKeys: bool, usePowerCommands: bool)

  /** The flag `permissions[perm]` of a stored key. */
  function Has(p: Permissions, perm: Perm): bool {
    match perm
    case ViewStats => p.viewStats
    case CreateApiKey => p.createApiKey
    case DeleteApiKey => p.deleteApiKey
    case ViewApiKeys => p.viewApiKeys
    case UsePowerCommands => p.usePowerCommands
  }

  /** Builds the permissions from one flag per permission. */
  function FromFlags(f: Perm -> bool): (r: Permissions)
    ensures forall perm :: Has(r, perm) == f(perm)
  {
    Permissions(f(ViewStats), f(CreateApiKey), f(DeleteApiKey), f(ViewApiKeys), f(UsePowerCommands))
  }

  /** A field of a caller-supplied permissions object: missing, JSON `null`, or a boolean. */
  datatype Flag = Absent | Null | Value(b: bool)

  datatype PartialPermissions = PartialPermissions(
    viewStats: Flag, createApiKey: Flag, deleteApiKey: Flag, viewApiKeys: Flag, usePowerCommands: Flag)

  function Get(p: PartialPermissions, perm: Perm): Flag {
    match perm
    case ViewStats => p.viewStats
    case CreateApiKey => p.createApiKey
    case DeleteApiKey => p.deleteApiKey
    case ViewApiKeys => p.viewApiKeys
    case UsePowerCommands => p.usePowerCommands
  }

  /** `flag ?? false`. */
  function OrFalse(f: Flag): (b: bool)
    ensures b <==> f == Value(true)
  {
    match f
    case Value(v) => v
    case _ => false
  }

  /** `completePermissions`: each flag is the supplied boolean, an explicit `false`
      included, and `false` when it is missing or `null`. */
  function Complete(p: PartialPermissions): (r: Permissions)
    ensures forall perm :: Get(p, perm).Value? ==> Has(r, perm) == Get(p, perm).b
    ensures forall perm :: !Get(p, perm).Value? ==> !Has(r, perm)
  {
    FromFlags(perm => OrFalse(Get(p, perm)))
  }

  datatype Key = Key(uuid: string, name: string, key: string, permissions: Permissions, createdAt: int)

  /** What reading and parsing the key file gives. */
  datatype Store = Loaded(keys: seq<Key>) | Unreadable

  /** `loadKeys`: an unreadable or unparsable file is an empty list. */
  function LoadKeys(store: Store): (r: seq<Key>)
    ensures store.Unreadable? ==> r == []
    ensures store.Loaded? ==> r == store.keys
  {
    match store
    case Loaded(keys) => keys
    case Unreadable => []
  }

  // ---------------------------------------------------------------------------
  // makeid

  /** `n` consecutive code points starting at `first`. */
  function Range(first: char, n: nat): (r: string)
    requires first as int + n <= 0xD800
    ensures |r| == n
    ensures forall i :: 0 <= i < n ==> r[i] as int == first as int + i
  {
    seq(n, i requires 0 <= i < n => (first as int + i) as char)
  }

  /** `characters`: the upper-case letters, the lower-case letters, then the digits. */
  const Alphabet: string := Range('A', 26) + Range('a', 26) + Range('0', 10)
  const DefaultKeyLength: nat := 45

  predicate IsAlnum(c: char) {
    ('A' <= c <= 'Z') || ('a' <= c <= 'z') || ('0' <= c <= '9')
  }

  function Abs(x: int): nat {
    if x < 0 then -x else x
  }

  /** The alphabet has 62 characters, `A`..`Z`, `a`..`z`, `0`..`9`, and holds
      exactly the ASCII letters and digits. */
  lemma AlphabetIsAlnum()
    ensures |Alphabet| == 62
    ensures Alphabet[0] == 'A' && Alphabet[25] == 'Z' && Alphabet[26] == 'a'
    ensures Alphabet[51] == 'z' && Alphabet[52] == '0' && Alphabet[61] == '9'
    ensures forall i :: 0 <= i < |Alphabet| ==> IsAlnum(Alphabet[i])
    ensures forall c :: IsAlnum(c) ==> c in Alphabet
  {
    forall c | IsAlnum(c) ensures c in Alphabet {
      if 'A' <= c <= 'Z' {
        assert Alphabet[c as int - 'A' as int] == c;
      } else if 'a' <= c <= 'z' {
        assert Alphabet[26 + c as int - 'a' as int] == c;
      } else {
        assert Alphabet[52 + c as int - '0' as int] == c;
      }
    }
  }

  /** `makeid(length)`: character `i` is `characters[|floor(mix_i)| % 62]`, where
      `mix(i)` is the floored time/random mix drawn for that position. */
  function MakeId(length: nat, mix: nat -> int): (r: string)
    ensures |r| == length
    ensures forall i :: 0 <= i < length ==> r[i] == Alphabet[Abs(mix(i)) % |Alphabet|]
    ensures forall i :: 0 <= i < length ==> IsAlnum(r[i])
  {
    AlphabetIsAlnum();
    seq(length, i requires 0 <= i < length => Alphabet[Abs(mix(i)) % |Alphabet|])
  }

  // ---------------------------------------------------------------------------
  // createApiKey

  /** The key returned, and the list written back to the file. */
  datatype Created = Created(key: Key, stored: seq<Key>)

  datatype WriteFailed = WriteFailed

  /** `createApiKey`: a 45-character alphanumeric key with the completed
      permissions, appended after the keys already stored (none if the file was
      unreadable). A failed write rejects. */
  function CreateKey(name: string, permissions: PartialPermissions, uuid: string, mix: nat -> int,
                        now: int, store: Store, writeOk: bool): (r: Result<Created, WriteFailed>)
    ensures r.Err? <==> !writeOk
    ensures r.Ok? ==> r.value.stored == LoadKeys(store) + [r.value.key]
    ensures r.Ok? ==>
      && r.value.key.name == name
      && r.value.key.uuid == uuid
      && r.value.key.createdAt == now
      && (forall perm :: Has(r.value.key.permissions, perm) <==> Get(permissions, perm) == Value(true))
      && |r.value.key.key| == DefaultKeyLength
      && (forall i :: 0 <= i < DefaultKeyLength ==> IsAlnum(r.value.key.key[i]))
  {
    var key := Key(uuid, name, MakeId(DefaultKeyLength, mix), Complete(permissions), now);
    if writeOk then Ok(Created(key, LoadKeys(store) + [key])) else Err(WriteFailed)
  }

  /** Creation leaves every earlier entry where it was. */
  lemma CreateKeepsEarlier(name: string, permissions: PartialPermissions, uuid: string, mix: nat -> int,
                           now: int, keys: seq<Key>)
    ensures
      var r := CreateKey(name, permissions, uuid, mix, now, Loaded(keys), true);
      && r.Ok?
      && |r.value.stored| == |keys| + 1
      && r.value.stored[..|keys|] == keys
      && r.value.stored[|keys|] == r.value.key
  {
  }

  // ---------------------------------------------------------------------------
  // deleteApiKey

  /** The entry is named by `id`, through its UUID or its key string. */
  predicate Matches(k: Key, id: string) {
    k.uuid == id || k.key == id
  }

  function Survivors(keys: seq<Key>, id: string): seq<Key> {
    Seqs.Filter(k => !Matches(k, id), keys)
  }

  /** The keys left after deleting `id`: every entry named by it goes, the rest stay
      in order, and the list shrinks exactly when something was named. */
  lemma SurvivorsSpec(keys: seq<Key>, id: string)
    ensures Seqs.IsSubseq(Survivors(keys, id), keys)
    ensures forall k :: k in Survivors(keys, id) <==> k in keys && !Matches(k, id)
    ensures forall k :: !Matches(k, id) ==> multiset(Survivors(keys, id))[k] == multiset(keys)[k]
    ensures |Survivors(keys, id)| < |keys| <==> exists i :: 0 <= i < |keys| && Matches(keys[i], id)
  {
    Seqs.FilterSpec(k => !Matches(k, id), keys);
    Seqs.FilterKeepsAll(k => !Matches(k, id), keys);
  }

  /** The success flag, and the list written back when the write went through. */
  datatype Deleted = Deleted(ok: bool, written: Option<seq<Key>>)

  /** `deleteApiKey`: false, with nothing written, when the file is unreadable or no
      entry is named by `id`; otherwise the survivors are written, and the result is
      true exactly when that write succeeds. */
  function DeleteKey(store: Store, id: string, writeOk: bool): (r: Deleted)
    ensures r.ok <==> r.written.Some?
    ensures r.ok <==> store.Loaded? && writeOk && exists i :: 0 <= i < |store.keys| && Matches(store.keys[i], id)
    ensures r.ok ==> r.written.value == Survivors(store.keys, id) && |r.written.value| < |store.keys|
  {
    match store
    case Unreadable => Deleted(false, None)
    case Loaded(keys) =>
      SurvivorsSpec(keys, id);
      var remaining := Survivors(keys, id);
      if |remaining| == |keys| then Deleted(false, None)
      else if !writeOk then Deleted(false, None)
      else Deleted(true, Some(remaining))
  }

  /** Deleting the same identifier twice: the second call finds nothing and fails. */
  lemma DeleteTwiceFails(keys: seq<Key>, id: string, writeOk: bool)
    requires DeleteKey(Loaded(keys), id, true).ok
    ensures !DeleteKey(Loaded(DeleteKey(Loaded(keys), id, true).written.value), id, writeOk).ok
  {
    var rest := Survivors(keys, id);
    SurvivorsSpec(keys, id);
    SurvivorsSpec(rest, id);
    forall i | 0 <= i < |rest| ensures !Matches(rest[i], id) {
      assert rest[i] in rest;
    }
  }

  // ---------------------------------------------------------------------------
  // Listing after a write

  /** After a successful create, `loadKeys` lists the earlier keys and then the new one. */
  lemma ListAfterCreate(name: string, permissions: PartialPermissions, uuid: string, mix: nat -> int,
                        now: int, store: Store)
    ensures var c := CreateKey(name, permissions, uuid, mix, now, store, true);
      && c.Ok?
      && LoadKeys(Loaded(c.value.stored))[..|LoadKeys(store)|] == LoadKeys(store)
      && LoadKeys(Loaded(c.value.stored))[|LoadKeys(store)|..] == [c.value.key]
  {
  }

  /** After a successful delete, `loadKeys` lists fewer keys: none named by the
      identifier, and every earlier key not named by it, as often as before. */
  lemma ListAfterDelete(store: Store, id: string)
    requires DeleteKey(store, id, true).ok
    ensures var listed := LoadKeys(Loaded(DeleteKey(store, id, true).written.value));
      && |listed| < |LoadKeys(store)|
      && (forall i :: 0 <= i < |listed| ==> !Matches(listed[i], id))
      && (forall k :: !Matches(k, id) ==> multiset(listed)[k] == multiset(LoadKeys(store))[k])
  {
    SurvivorsSpec(store.keys, id);
  }
}

/**
 * The Redis key space the domain layer works on: string hashes, lists of audit
 * records and the `applications` list of names, with the commands the layer
 * issues (HGETALL, HMSET/HSET, DEL, LPUSH, LRANGE, LREM and KEYS).
 *
 * `Db` is the whole store as a value, and each command is a function from the
 * store before it to the store after it. `RedisStore` holds the same state in
 * fields that its command methods update in place, each one specified by the
 * `Db` function of the same name.
 *
 * Failures: every command on a key in `faulty` fails with an error, and a hash
 * command on a list (or a list command on a hash) fails as Redis's WRONGTYPE
 * error does. A failed command leaves the store unchanged.
 */
module Store {
  import opened Wrappers
  import opened Keys

  /** A Redis hash: field name to string value. */
  type Hash = map<string, string>

  /** The user object the layer stores with each audit record. */
  datatype User = User(name: string)

  /** One entry of an audit list (the JSON text the layer pushes, as a record). */
  datatype AuditRecord =
    | AppAudit(user: User, action: string, dateModified: string)
    | FeatureAudit(user: User, toggleName: Option<string>, value: Option<bool>, action: string, dateModified: string)

  /** A field of a hash, None (JavaScript `undefined`) when the hash has no such field. */
  function Field(h: Hash, name: string): (r: Option<string>)
    ensures r.Some? <==> name in h
    ensures r.Some? ==> r.value == h[name]
  {
    if name in h then Some(h[name]) else None
  }

  /** `keys` lists every member of `s` exactly once, in some order. */
  ghost predicate Enumerates(keys: seq<string>, s: set<string>)
  {
    (forall k :: k in keys <==> k in s) &&
    (forall i, j :: 0 <= i < j < |keys| ==> keys[i] != keys[j])
  }

  /** `LREM list 0 x`: the list with every occurrence of `x` removed. */
  function Without(s: seq<string>, x: string): (r: seq<string>)
    ensures x !in r
    ensures forall y :: y != x ==> (y in r <==> y in s)
    ensures |r| <= |s|
    decreases |s|
  {
    if s == [] then []
    else (if s[0] == x then [] else [s[0]]) + Without(s[1..], x)
  }

  datatype Db = Db(
    hashes: map<string, Hash>,
    lists: map<string, seq<AuditRecord>>,
    applications: seq<string>,
    faulty: set<string>)
  {
    /** A key holds one kind of value; the `applications` list is kept apart. */
    ghost predicate Valid()
    {
      hashes.Keys !! lists.Keys && ApplicationsKey !in hashes && ApplicationsKey !in lists
    }

    /** Every key that exists (Redis drops a list once it is empty). */
    function KeySpace(): set<string>
    {
      hashes.Keys + lists.Keys + (if applications == [] then {} else {ApplicationsKey})
    }

    /** The keys `KEYS pattern` reports. */
    function Matching(pattern: string): (r: set<string>)
      ensures forall k :: k in r <==> k in KeySpace() && Glob(pattern, k)
    {
      set k | k in KeySpace() && Glob(pattern, k)
    }

    /** `HGETALL key`: the hash, or None (the `null` the layer reads) when absent or on error. */
    function HGetAll(key: string): (r: Option<Hash>)
      ensures r.Some? <==> key in hashes && key !in faulty
      ensures r.Some? ==> r.value == hashes[key]
    {
      if key in hashes && key !in faulty then Some(hashes[key]) else None
    }

    predicate HashWritable(key: string)
    {
      key !in faulty && key !in lists && key != ApplicationsKey
    }

    /** `HMSET key fields`: the given fields overwrite, the others stay. */
    function HMSet(key: string, fields: Hash): (r: Db)
      ensures r.lists == lists && r.applications == applications && r.faulty == faulty
      ensures HashWritable(key) ==> key in r.hashes && r.hashes[key].Keys == FieldsAt(key).Keys + fields.Keys
      ensures HashWritable(key) ==> forall fld :: fld in r.hashes[key] ==>
        r.hashes[key][fld] == if fld in fields then fields[fld] else FieldsAt(key)[fld]
      ensures forall k :: k != key ==> (k in r.hashes <==> k in hashes)
      ensures forall k :: k != key && k in hashes ==> r.hashes[k] == hashes[k]
      ensures !HashWritable(key) ==> r == this
      ensures Valid() ==> r.Valid()
    {
      if HashWritable(key) then this.(hashes := hashes[key := FieldsAt(key) + fields]) else this
    }

    /** The fields of the hash at `key`, none when there is no such hash. */
    function FieldsAt(key: string): Hash
    {
      if key in hashes then hashes[key] else map[]
    }

    /** The store after a `DEL` of each key in `keys`: those that succeed are gone. */
    function Purge(keys: set<string>): (r: Db)
      ensures r.faulty == faulty
      ensures forall k :: k in r.hashes <==> k in hashes && (k !in keys || k in faulty)
      ensures forall k :: k in r.lists <==> k in lists && (k !in keys || k in faulty)
      ensures forall k :: k in r.hashes ==> r.hashes[k] == hashes[k]
      ensures forall k :: k in r.lists ==> r.lists[k] == lists[k]
      ensures r.applications == if ApplicationsKey in keys && ApplicationsKey !in faulty then [] else applications
      ensures Valid() ==> r.Valid()
    {
      var gone := keys - faulty;
      this.(hashes := hashes - gone, lists := lists - gone,
            applications := if ApplicationsKey in gone then [] else applications)
    }

    /** `DEL key`, which fails only on a faulty key. */
    function Del(key: string): Db
    {
      Purge({key})
    }

    predicate ListWritable(key: string)
    {
      key !in faulty && key !in hashes && key != ApplicationsKey
    }

    /** The entries of the list at `key`, none when there is no such list. */
    function ListAt(key: string): seq<AuditRecord>
    {
      if key in lists then lists[key] else []
    }

    /** `LPUSH key rec`: the record goes to the head, the list follows unchanged. */
    function LPush(key: string, rec: AuditRecord): (r: Db)
      ensures r.hashes == hashes && r.applications == applications && r.faulty == faulty
      ensures ListWritable(key) ==> key in r.lists && r.lists[key] == [rec] + ListAt(key)
      ensures forall k :: k != key ==> (k in r.lists <==> k in lists)
      ensures forall k :: k != key && k in lists ==> r.lists[k] == lists[k]
      ensures !ListWritable(key) ==> r == this
      ensures Valid() ==> r.Valid()
    {
      if ListWritable(key) then this.(lists := lists[key := [rec] + ListAt(key)]) else this
    }

    /** `LRANGE key 0 -1`: the whole list (empty when absent), or None on error. */
    function LRange(key: string): (r: Option<seq<AuditRecord>>)
      ensures r.None? <==> key in faulty || key in hashes || key == ApplicationsKey
      ensures r.Some? ==> r.value == ListAt(key)
    {
      if key in faulty || key in hashes || key == ApplicationsKey then None else Some(ListAt(key))
    }

    predicate ApplicationsUsable()
    {
      ApplicationsKey !in faulty
    }

    /** `LPUSH applications name`. */
    function LPushApplication(name: string): (r: Db)
      ensures r.hashes == hashes && r.lists == lists && r.faulty == faulty
      ensures r.applications == if ApplicationsUsable() then [name] + applications else applications
      ensures Valid() ==> r.Valid()
    {
      if ApplicationsUsable() then this.(applications := [name] + applications) else this
    }

    /** `LREM applications 0 name`. */
    function LRemApplication(name: string): (r: Db)
      ensures r.hashes == hashes && r.lists == lists && r.faulty == faulty
      ensures r.applications == if ApplicationsUsable() then Without(applications, name) else applications
      ensures Valid() ==> r.Valid()
    {
      if ApplicationsUsable() then this.(applications := Without(applications, name)) else this
    }
  }

  /** Deleting a set of keys one `DEL` at a time, in any order, is one purge of the set. */
  lemma PurgeUnion(db: Db, ks: set<string>, k: string)
    ensures db.Purge(ks).Del(k) == db.Purge(ks + {k})
  {
    var a := db.Purge(ks).Del(k);
    var b := db.Purge(ks + {k});
    assert a.hashes == b.hashes;
    assert a.lists == b.lists;
  }

  /** LREM keeps the order of what it does not remove: it distributes over concatenation. */
  lemma {:induction false} WithoutConcat(s: seq<string>, t: seq<string>, x: string)
    ensures Without(s + t, x) == Without(s, x) + Without(t, x)
    decreases |s|
  {
    if s == [] {
      assert s + t == t;
    } else {
      assert (s + t)[1..] == s[1..] + t;
      WithoutConcat(s[1..], t, x);
    }
  }

  /** LREM removes exactly the occurrences of `x` and keeps every other name as often as it was there. */
  lemma {:induction false} WithoutCounts(s: seq<string>, x: string)
    ensures multiset(Without(s, x)) == multiset(s)[x := 0]
    decreases |s|
  {
    if s != [] {
      WithoutCounts(s[1..], x);
      assert s == [s[0]] + s[1..];
    }
  }

  /** A name that is not in the list leaves it as it is. */
  /** The store, held in fields that each command updates in place. */
  class RedisStore {
    var hashes: map<string, Hash>
    var lists: map<string, seq<AuditRecord>>
    var applications: seq<string>
    const faulty: set<string>

    function State(): Db
      reads this
    {
      Db(hashes, lists, applications, faulty)
    }

    ghost predicate Valid()
      reads this
    {
      State().Valid()
    }

    constructor (db: Db)
      requires db.Valid()
      ensures State() == db && Valid()
    {
      hashes := db.hashes;
      lists := db.lists;
      applications := db.applications;
      faulty := db.faulty;
    }

    method HGetAll(key: string) returns (data: Option<Hash>)
      ensures data == State().HGetAll(key)
    {
      data := State().HGetAll(key);
    }

    method HMSet(key: string, fields: Hash) returns (ok: bool)
      requires Valid()
      modifies this
      ensures ok <==> old(State()).HashWritable(key)
      ensures State() == old(State()).HMSet(key, fields) && Valid()
    {
      ok := key !in faulty && key !in lists && key != ApplicationsKey;
      if ok {
        var current := if key in hashes then hashes[key] else map[];
        hashes := hashes[key := current + fields];
      }
    }

    /** `HSET key field value`, an HMSET of one field. */
    method HSet(key: string, field: string, value: string) returns (ok: bool)
      requires Valid()
      modifies this
      ensures ok <==> old(State()).HashWritable(key)
      ensures State() == old(State()).HMSet(key, map[field := value]) && Valid()
    {
      ok := HMSet(key, map[field := value]);
    }

    method Del(key: string) returns (ok: bool)
      requires Valid()
      modifies this
      ensures ok <==> key !in faulty
      ensures State() == old(State()).Del(key) && Valid()
    {
      ok := key !in faulty;
      if ok {
        hashes := hashes - {key};
        lists := lists - {key};
        if key == ApplicationsKey {
          applications := [];
        }
      }
    }

    method LPush(key: string, rec: AuditRecord) returns (ok: bool)
      requires Valid()
      modifies this
      ensures ok <==> old(State()).ListWritable(key)
      ensures State() == old(State()).LPush(key, rec) && Valid()
    {
      ok := key !in faulty && key !in hashes && key != ApplicationsKey;
      if ok {
        var current := if key in lists then lists[key] else [];
        lists := lists[key := [rec] + current];
      }
    }

    method LPushApplication(name: string) returns (ok: bool)
      requires Valid()
      modifies this
      ensures ok <==> old(State()).ApplicationsUsable()
      ensures State() == old(State()).LPushApplication(name) && Valid()
    {
      ok := ApplicationsKey !in faulty;
      if ok {
        applications := [name] + applications;
      }
    }

    method LRemApplication(name: string) returns (ok: bool)
      requires Valid()
      modifies this
      ensures ok <==> old(State()).ApplicationsUsable()
      ensures State() == old(State()).LRemApplication(name) && Valid()
    {
      ok := ApplicationsKey !in faulty;
      if ok {
        applications := Without(applications, name);
      }
    }

    /** `KEYS pattern`: each matching key once, in the order Redis walks its key table. */
    method Keys(pattern: string) returns (keys: seq<string>)
      ensures Enumerates(keys, State().Matching(pattern))
    {
      var rest := State().Matching(pattern);
      keys := [];
      while rest != {}
        invariant rest <= State().Matching(pattern)
        invariant forall k :: k in keys <==> k in State().Matching(pattern) && k !in rest
        invariant forall i, j :: 0 <= i < j < |keys| ==> keys[i] != keys[j]
        decreases |rest|
      {
        var k :| k in rest;
        keys := keys + [k];
        rest := rest - {k};
      }
    }
  }
}

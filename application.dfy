/**
 * Applications: the `applications` list of names, the application-level audit
 * entries that creating and deleting an application records, and the purge of
 * every `*:<app>:*` key when an application is deleted.
 */
module Application {
  import opened Wrappers
  import opened Keys
  import opened Store
  import opened Audit

  /** `getApplications`: the whole list in stored order, or the store's error. */
  function GetApplications(db: Db): Reply<seq<string>>
  {
    if db.ApplicationsUsable() then Ok(db.applications) else Failed
  }

  /** The store after `addApplication`: the name pushed, then a 'Created' audit; nothing when the push fails. */
  function AfterAddApplication(db: Db, name: string, user: User, now: string): Db
  {
    if db.ApplicationsUsable() then
      db.LPushApplication(name).LPush(AppAuditKey(name), AppAudit(user, "Created", now))
    else db
  }

  /**
   * `addApplication`. The reply is the push's outcome; a failed audit push
   * is only logged.
   */
  method AddApplication(st: RedisStore, name: string, user: User, now: string) returns (reply: Reply<()>)
    requires st.Valid()
    modifies st
    ensures reply == if old(st.State()).ApplicationsUsable() then Ok(()) else Failed
    ensures st.State() == AfterAddApplication(old(st.State()), name, user, now)
    ensures st.Valid()
  {
    var pushed := st.LPushApplication(name);
    if !pushed {
      return Failed;
    }
    var _ := AddApplicationAudit(st, user, name, "Created", now);
    reply := Ok(());
  }

  /** After a successful add the name heads the list, the old names follow, and there is one more entry. */
  lemma AddThenGetApplications(db: Db, name: string, user: User, now: string)
    requires db.ApplicationsUsable()
    ensures GetApplications(AfterAddApplication(db, name, user, now)) == Ok([name] + db.applications)
    ensures |AfterAddApplication(db, name, user, now).applications| == |db.applications| + 1
  {
  }

  /** No duplicate check: adding a name that is already there lists it once more. */
  lemma AddKeepsDuplicates(db: Db, name: string, user: User, now: string)
    requires db.ApplicationsUsable()
    ensures multiset(AfterAddApplication(db, name, user, now).applications)[name]
            == multiset(db.applications)[name] + 1
  {
    assert AfterAddApplication(db, name, user, now).applications == [name] + db.applications;
  }

  /** The 'Created' entry is written after a successful push, and a failed push writes nothing at all. */
  lemma AddRecordsCreated(db: Db, name: string, user: User, now: string)
    ensures db.ApplicationsUsable() && db.ListWritable(AppAuditKey(name)) ==>
      AfterAddApplication(db, name, user, now).ListAt(AppAuditKey(name))
      == [AppAudit(user, "Created", now)] + db.ListAt(AppAuditKey(name))
    ensures !db.ApplicationsUsable() ==> AfterAddApplication(db, name, user, now) == db
  {
  }

  /** The list after `LREM`, and the keys `KEYS *:<name>:*` reports on it. */
  function PurgedKeys(db: Db, name: string): set<string>
  {
    db.LRemApplication(name).Matching(PurgePattern(name))
  }

  /** The purged keys whose `DEL` fails, each one reported to the callback. */
  function DeleteErrors(db: Db, name: string): set<string>
  {
    PurgedKeys(db, name) * db.faulty
  }

  /**
   * The store after `deleteApplication`, in the order the commands reach
   * Redis: LREM, KEYS, the 'Deleted' audit push, then one DEL per key found.
   */
  function AfterDeleteApplication(db: Db, name: string, user: User, now: string): Db
  {
    if db.ApplicationsUsable() then
      db.LRemApplication(name).LPush(AppAuditKey(name), AppAudit(user, "Deleted", now)).Purge(PurgedKeys(db, name))
    else db
  }

  /** How many of `keys` are faulty, counted from the last one back. */
  function FaultyCount(keys: seq<string>, faulty: set<string>): nat
    decreases |keys|
  {
    if keys == [] then 0
    else FaultyCount(keys[..|keys| - 1], faulty) + if keys[|keys| - 1] in faulty then 1 else 0
  }

  /** For keys without repeats, the count is the number of distinct faulty keys among them. */
  lemma {:induction false} FaultyCountOfDistinct(keys: seq<string>, faulty: set<string>)
    requires forall i, j :: 0 <= i < j < |keys| ==> keys[i] != keys[j]
    ensures FaultyCount(keys, faulty) == |(set k | k in keys) * faulty|
    decreases |keys|
  {
    if keys != [] {
      var init := keys[..|keys| - 1];
      var last := keys[|keys| - 1];
      FaultyCountOfDistinct(init, faulty);
      var all, before := set k | k in keys, set k | k in init;
      assert keys == init + [last];
      assert all == before + {last};
      assert last !in before;
      CountStep(before, all, last, faulty);
    }
  }

  /** Adding one new key adds one to the faulty count exactly when that key is faulty. */
  lemma CountStep(before: set<string>, all: set<string>, last: string, faulty: set<string>)
    requires all == before + {last} && last !in before
    ensures |all * faulty| == |before * faulty| + if last in faulty then 1 else 0
  {
    if last in faulty {
      assert all * faulty == before * faulty + {last};
    } else {
      assert all * faulty == before * faulty;
    }
  }

  /** One `DEL` per key, each answered on its own; `errors` counts the ones that fail. */
  method DeleteEach(st: RedisStore, keys: seq<string>) returns (errors: nat)
    requires st.Valid()
    requires forall i, j :: 0 <= i < j < |keys| ==> keys[i] != keys[j]
    modifies st
    ensures st.State() == old(st.State()).Purge(set k | k in keys)
    ensures errors == |(set k | k in keys) * st.faulty|
    ensures st.Valid()
  {
    ghost var start := st.State();
    ghost var done: set<string> := {};
    errors := 0;
    var i := 0;
    while i < |keys|
      invariant 0 <= i <= |keys|
      invariant st.Valid() && st.faulty == start.faulty
      invariant forall k :: k in done <==> k in keys[..i]
      invariant st.State() == start.Purge(done)
      invariant errors == FaultyCount(keys[..i], start.faulty)
    {
      var deleted := st.Del(keys[i]);
      PurgeUnion(start, done, keys[i]);
      if !deleted {
        errors := errors + 1;
      }
      assert keys[..i + 1][..i] == keys[..i];
      assert keys[..i + 1] == keys[..i] + [keys[i]];
      done := done + {keys[i]};
      i := i + 1;
    }
    assert keys[..i] == keys;
    assert done == set k | k in keys;
    FaultyCountOfDistinct(keys, start.faulty);
  }

  /**
   * `deleteApplication`. `replies` lists the callback's calls in order: the
   * first, without an error, is made as soon as the command is issued; then
   * one error if the LREM fails, or one error per failing DEL.
   */
  method DeleteApplication(st: RedisStore, name: string, user: User, now: string)
    returns (replies: seq<Reply<()>>)
    requires st.Valid()
    modifies st
    ensures |replies| >= 1 && replies[0] == Ok(())
    ensures forall i :: 1 <= i < |replies| ==> replies[i] == Failed
    ensures |replies| == 1 + if old(st.State()).ApplicationsUsable() then |DeleteErrors(old(st.State()), name)| else 1
    ensures st.State() == AfterDeleteApplication(old(st.State()), name, user, now)
    ensures st.Valid()
  {
    ghost var db := st.State();
    var removed := st.LRemApplication(name);
    if !removed {
      return [Ok(()), Failed];
    }
    var keys := st.Keys(PurgePattern(name));
    assert (set k | k in keys) == PurgedKeys(db, name);
    var _ := AddApplicationAudit(st, user, name, "Deleted", now);
    var errors := DeleteEach(st, keys);
    replies := [Ok(())] + seq(errors, _ => Failed);
  }

  /** Delete removes every occurrence of the name; the other names keep their counts and their order. */
  lemma DeleteApplicationNames(db: Db, name: string, user: User, now: string, front: seq<string>, back: seq<string>)
    requires db.ApplicationsUsable()
    requires db.applications == front + back
    ensures AfterDeleteApplication(db, name, user, now).applications == Without(front, name) + Without(back, name)
    ensures name !in AfterDeleteApplication(db, name, user, now).applications
    ensures multiset(AfterDeleteApplication(db, name, user, now).applications) == multiset(db.applications)[name := 0]
  {
    PurgeSkipsApplications(name);
    WithoutConcat(front, back, name);
    WithoutCounts(db.applications, name);
  }

  /**
   * The purge takes the toggle, metadata and feature-audit keys of the deleted
   * application (unless their DEL fails) and leaves those of every other
   * application as they were.
   */
  lemma DeletePurgesFeatureKeys(db: Db, name: string, user: User, now: string, a: string, f: string)
    requires db.Valid() && db.ApplicationsUsable()
    requires NoColon(name) && NoGlobMeta(name) && NoColon(a) && NoColon(f)
    ensures var after := AfterDeleteApplication(db, name, user, now);
      (ToggleKey(a, f) in after.hashes <==> ToggleKey(a, f) in db.hashes && (a != name || ToggleKey(a, f) in db.faulty)) &&
      (MetaKey(a, f) in after.hashes <==> MetaKey(a, f) in db.hashes && (a != name || MetaKey(a, f) in db.faulty)) &&
      (FeatureAuditKey(a, f) in after.lists <==>
         FeatureAuditKey(a, f) in db.lists && (a != name || FeatureAuditKey(a, f) in db.faulty))
    ensures var after := AfterDeleteApplication(db, name, user, now);
      a != name ==>
        after.HGetAll(ToggleKey(a, f)) == db.HGetAll(ToggleKey(a, f)) &&
        after.HGetAll(MetaKey(a, f)) == db.HGetAll(MetaKey(a, f)) &&
        after.ListAt(FeatureAuditKey(a, f)) == db.ListAt(FeatureAuditKey(a, f))
  {
    assert ToggleKey(a, f) == "toggle" + ":" + a + ":" + f;
    assert MetaKey(a, f) == "meta" + ":" + a + ":" + f;
    assert FeatureAuditKey(a, f) == "audit" + ":" + a + ":" + f;
    PurgePatternSelects(name, "toggle", a, f);
    PurgePatternSelects(name, "meta", a, f);
    PurgePatternSelects(name, "audit", a, f);
    AuditKeysDisjoint(name, a, f);
  }

  /** The application-level list `audit:<name>` is not purged: it ends with the 'Deleted' entry on its head. */
  lemma DeleteKeepsApplicationAudit(db: Db, name: string, user: User, now: string)
    requires db.ApplicationsUsable() && db.ListWritable(AppAuditKey(name))
    requires NoColon(name) && NoGlobMeta(name)
    ensures AfterDeleteApplication(db, name, user, now).ListAt(AppAuditKey(name))
            == [AppAudit(user, "Deleted", now)] + db.ListAt(AppAuditKey(name))
  {
    assert AppAuditKey(name) == "audit" + ":" + name;
    PurgePatternSelects(name, "audit", name, "");
  }

  /** An application named `*` purges the toggles of every application. */
  lemma StarNameDeletesEveryToggle(db: Db, user: User, now: string, a: string, f: string)
    requires db.ApplicationsUsable() && ToggleKey(a, f) !in db.faulty
    ensures ToggleKey(a, f) !in AfterDeleteApplication(db, "*", user, now).hashes
  {
    assert ToggleKey(a, f) == "toggle" + ":" + a + ":" + f;
    StarNamePurgesEveryApplication("toggle", a, f);
  }
}

/**
 * Audit trails: an application-level list at `audit:<app>` and a feature-level
 * list at `audit:<app>:<feature>`. Each entry is pushed onto the head of its list,
 * so a trail reads newest first.
 */
module Audit {
  import opened Wrappers
  import opened Keys
  import opened Store

  /**
   * `addApplicationAudit`: push one record onto `audit:<app>`. `replies` lists
   * the callback's calls: one without an error on success; the error and then
   * one without an error when the push fails.
   */
  method AddApplicationAudit(st: RedisStore, user: User, app: string, action: string, now: string)
    returns (replies: seq<Reply<()>>)
    requires st.Valid()
    modifies st
    ensures replies == if old(st.State()).ListWritable(AppAuditKey(app)) then [Ok(())] else [Failed, Ok(())]
    ensures st.State() == old(st.State()).LPush(AppAuditKey(app), AppAudit(user, action, now))
    ensures st.Valid()
  {
    var ok := st.LPush(AppAuditKey(app), AppAudit(user, action, now));
    replies := if ok then [Ok(())] else [Failed, Ok(())];
  }

  /** `addFeatureAudit`: push one record onto `audit:<app>:<feature>`, with the same callback calls. */
  method AddFeatureAudit(st: RedisStore, user: User, app: string, feature: string,
                         toggleName: Option<string>, value: Option<bool>, action: string, now: string)
    returns (replies: seq<Reply<()>>)
    requires st.Valid()
    modifies st
    ensures replies == if old(st.State()).ListWritable(FeatureAuditKey(app, feature)) then [Ok(())] else [Failed, Ok(())]
    ensures st.State() == old(st.State()).LPush(FeatureAuditKey(app, feature),
                                                FeatureAudit(user, toggleName, value, action, now))
    ensures st.Valid()
  {
    var ok := st.LPush(FeatureAuditKey(app, feature), FeatureAudit(user, toggleName, value, action, now));
    replies := if ok then [Ok(())] else [Failed, Ok(())];
  }

  /**
   * `getFeatureAuditTrail`: one record per stored entry, in list order. The
   * callback never reports an error: a failed read gives the empty trail, as
   * an absent key does.
   */
  function FeatureAuditTrail(db: Db, app: string, feature: string): (trail: seq<AuditRecord>)
    ensures db.LRange(FeatureAuditKey(app, feature)).Some? ==> trail == db.ListAt(FeatureAuditKey(app, feature))
    ensures FeatureAuditKey(app, feature) !in db.lists ==> trail == []
  {
    match db.LRange(FeatureAuditKey(app, feature))
    case None => []
    case Some(entries) => entries
  }

  /** Round trip: after a successful feature audit its record heads the trail, before the old entries. */
  lemma AddFeatureAuditThenTrail(db: Db, user: User, app: string, feature: string,
                                 toggleName: Option<string>, value: Option<bool>, action: string, now: string)
    requires db.ListWritable(FeatureAuditKey(app, feature))
    ensures var trail := FeatureAuditTrail(db.LPush(FeatureAuditKey(app, feature),
                                                    FeatureAudit(user, toggleName, value, action, now)), app, feature);
      trail == [FeatureAudit(user, toggleName, value, action, now)] + FeatureAuditTrail(db, app, feature) &&
      trail[0].user == user && trail[0].toggleName == toggleName && trail[0].value == value &&
      trail[0].action == action
  {
  }

  /** Reverse of a sequence of records. */
  function Reverse(recs: seq<AuditRecord>): (r: seq<AuditRecord>)
    ensures |r| == |recs|
    ensures forall i :: 0 <= i < |recs| ==> r[i] == recs[|recs| - 1 - i]
    decreases |recs|
  {
    if recs == [] then [] else Reverse(recs[1..]) + [recs[0]]
  }

  /** The store after pushing `recs` onto `key` one after another. */
  function PushAll(db: Db, key: string, recs: seq<AuditRecord>): Db
    decreases |recs|
  {
    if recs == [] then db else PushAll(db.LPush(key, recs[0]), key, recs[1..])
  }

  /** A sequence of feature audits reads back most recent first: the reverse of the order they were added. */
  lemma {:induction false} TrailIsNewestFirst(db: Db, app: string, feature: string, recs: seq<AuditRecord>)
    requires db.ListWritable(FeatureAuditKey(app, feature))
    ensures FeatureAuditTrail(PushAll(db, FeatureAuditKey(app, feature), recs), app, feature)
            == Reverse(recs) + FeatureAuditTrail(db, app, feature)
    decreases |recs|
  {
    if recs != [] {
      var key := FeatureAuditKey(app, feature);
      var db' := db.LPush(key, recs[0]);
      assert FeatureAuditTrail(db', app, feature) == [recs[0]] + FeatureAuditTrail(db, app, feature);
      TrailIsNewestFirst(db', app, feature, recs[1..]);
      assert Reverse(recs) == Reverse(recs[1..]) + [recs[0]];
    }
  }

  /** An application audit never changes a feature's trail when the application name has no ':'. */
  lemma AppAuditKeepsFeatureTrails(db: Db, user: User, app: string, action: string, now: string,
                                   a: string, f: string)
    requires NoColon(app)
    ensures FeatureAuditTrail(db.LPush(AppAuditKey(app), AppAudit(user, action, now)), a, f)
            == FeatureAuditTrail(db, a, f)
  {
    AuditKeysDisjoint(app, a, f);
  }

  /** With a ':' in the application name the two key families meet: `audit:x:y` is both. */
  lemma AppAuditCanReachFeatureTrail(db: Db, user: User, action: string, now: string)
    requires db.ListWritable(AppAuditKey("x:y"))
    ensures FeatureAuditTrail(db.LPush(AppAuditKey("x:y"), AppAudit(user, action, now)), "x", "y")
            == [AppAudit(user, action, now)] + FeatureAuditTrail(db, "x", "y")
  {
    AuditKeysCollide();
  }
}

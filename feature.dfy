/**
 * Features of an application. A simple feature has a toggle hash at
 * `toggle:<app>:<feature>` holding its `value` ("true"/"false") and a metadata
 * hash at `meta:<app>:<feature>` holding `categoryId` and `description`. A
 * feature is simple when its parsed `categoryId` is the simple category's id;
 * every other feature is multi-toggle, a kind this layer does not implement.
 */
module Feature {
  import opened Wrappers
  import opened JsText
  import opened Keys
  import opened Store

  datatype Toggle = Toggle(name: string, value: bool)

  /** The object `getFeature` hands its callback (`toggleSuggestions` is always undefined and left out). */
  datatype FeatureView = FeatureView(
    applicationName: string,
    featureName: string,
    featureDescription: Option<string>,
    toggles: Option<seq<Toggle>>,
    isMultiToggle: bool)

  /** An event handed to the feature hooks; an absent field is None. */
  datatype HookEvent = HookEvent(
    fn: string,
    user: User,
    applicationName: string,
    featureName: string,
    toggleName: Option<string>,
    value: Option<bool>)

  /** One `{key, value}` entry of a hash scan: the key and one field of its hash. */
  datatype HashEntry = HashEntry(key: string, value: Option<string>)

  /** A feature as the category listing shows it. */
  datatype SimpleFeature = SimpleFeature(name: string, description: Option<string>, values: seq<bool>, categoryId: int)

  /** A category of the listing with the features filed under it. */
  datatype Category = Category(name: string, features: seq<SimpleFeature>)

  /** What the category module provides: the simple category's id and the table of categories. */
  datatype CategoryConfig = CategoryConfig(simpleCategoryId: int, categories: map<int, Category>)

  // ---------------------------------------------------------------------------
  // Pure helpers

  /**
   * `isMultiFeature`: a feature is multi-toggle unless `parseInt` of its
   * categoryId gives the simple id. A missing categoryId parses as NaN.
   */
  function IsMultiFeature(categoryId: Option<string>, simpleId: int): bool
  {
    var parsed := match categoryId
      case None => None
      case Some(text) => ParseInt(text);
    parsed != Some(simpleId)
  }

  /** A categoryId this layer writes is its decimal text: it is simple exactly when it is the simple id. */
  lemma IsMultiOfIntText(categoryId: int, simpleId: int)
    ensures IsMultiFeature(Some(IntText(categoryId)), simpleId) <==> categoryId != simpleId
  {
    ParseIntOfIntText(categoryId);
  }

  /** `parseInt` reads only a leading number, so text other than "0" can still name the simple category. */
  lemma IsMultiReadsLeadingNumber()
    ensures !IsMultiFeature(Some("0.5"), 0)
    ensures IsMultiFeature(Some("zero"), 0)
  {
    LeadingZero();
    NoLeadingDigit();
  }

  lemma LeadingZero()
    ensures ParseInt("0.5") == Some(0)
  {
    TrimStartKeeps("0.5");
    assert !IsDigit('.', 10);
    assert DigitPrefix(".5", 10) == "";
    assert DigitPrefix("0.5", 10) == "0";
    assert DigitsValue("0", 10) == 0;
  }

  lemma NoLeadingDigit()
    ensures ParseInt("zero") == None
  {
    TrimStartKeeps("zero");
    assert !IsDigit('z', 10);
    assert DigitPrefix("zero", 10) == "";
  }

  /** `getSimpleFeatureToggle`'s decoding: true only for the exact text "true". */
  function StrictTrue(value: Option<string>): bool
  {
    value == Some("true")
  }

  /** `getSimpleFeature`'s decoding: true when the lower-cased value is "true"; false when it is absent or empty. */
  function LenientTrue(value: Option<string>): (b: bool)
    ensures b <==> value.Some? && |value.value| == 4 &&
                   forall i :: 0 <= i < 4 ==> value.value[i] == "true"[i] || value.value[i] == "TRUE"[i]
  {
    match value
    case None => false
    case Some(text) => LowerIsTrue(text); text != "" && ToLower(text) == "true"
  }

  /** A text lower-cases to "true" exactly when each of its four letters is that of "true" or "TRUE". */
  lemma LowerIsTrue(s: string)
    ensures ToLower(s) == "true" <==>
      |s| == 4 && forall i :: 0 <= i < 4 ==> s[i] == "true"[i] || s[i] == "TRUE"[i]
  {
    if |s| == 4 {
      if forall i :: 0 <= i < 4 ==> s[i] == "true"[i] || s[i] == "TRUE"[i] {
        forall i | 0 <= i < 4 ensures ToLower(s)[i] == "true"[i] {
          assert s[i] == "true"[i] || s[i] == "TRUE"[i];
        }
      }
      if ToLower(s) == "true" {
        forall i | 0 <= i < 4 ensures s[i] == "true"[i] || s[i] == "TRUE"[i] {
          assert LowerChar(s[i]) == "true"[i];
        }
      }
    }
  }

  /** The two decodings agree on what this layer stores and on absence; the lenient one accepts more. */
  lemma DecodersCompared(b: bool)
    ensures StrictTrue(Some(BoolText(b))) == b && LenientTrue(Some(BoolText(b))) == b
    ensures !StrictTrue(None) && !LenientTrue(None)
    ensures forall v :: StrictTrue(v) ==> LenientTrue(v)
    ensures LenientTrue(Some("TRUE")) && !StrictTrue(Some("TRUE"))
  {
    assert ToLower("true") == "true";
    assert ToLower("TRUE") == "true";
    if !b {
      assert ToLower("false")[0] == 'f';
    }
  }

  /** `getSimpleFeatureToggle`: the single toggle of a simple feature. */
  function SimpleFeatureToggle(featureName: string, value: Option<string>): seq<Toggle>
  {
    [Toggle(featureName, StrictTrue(value))]
  }

  /**
   * `getSimpleFeature`: the listing entry for a toggle hash entry. Its name is
   * the last key segment and it is filed under category 0 whatever its metadata says.
   */
  function SimpleFeatureOf(node: HashEntry, meta: Hash): SimpleFeature
  {
    SimpleFeature(NodeName(node.key), Field(meta, "description"), [LenientTrue(node.value)], 0)
  }

  /** `_.object(pairs)`: each value under its name; a later pair with the same name overrides an earlier one. */
  function ObjectOf(pairs: seq<(string, Option<string>)>): (m: map<string, Option<string>>)
    ensures forall i :: 0 <= i < |pairs| ==> pairs[i].0 in m
    ensures forall name :: name in m ==> exists i :: 0 <= i < |pairs| && pairs[i].0 == name
    decreases |pairs|
  {
    if pairs == [] then map[]
    else
      var init := pairs[..|pairs| - 1];
      var last := pairs[|pairs| - 1];
      assert forall i :: 0 <= i < |init| ==> init[i] == pairs[i];
      ObjectOf(init)[last.0 := last.1]
  }

  /** The value under a name is that of the last pair with that name. */
  lemma {:induction false} ObjectOfLastWins(pairs: seq<(string, Option<string>)>, i: int)
    requires 0 <= i < |pairs|
    requires forall j :: i < j < |pairs| ==> pairs[j].0 != pairs[i].0
    ensures ObjectOf(pairs)[pairs[i].0] == pairs[i].1
    decreases |pairs|
  {
    if i < |pairs| - 1 {
      var init := pairs[..|pairs| - 1];
      assert init[i] == pairs[i];
      assert forall j :: i < j < |init| ==> init[j] == pairs[j];
      ObjectOfLastWins(init, i);
    }
  }

  /** The `[name, value]` pairs `getDescriptionsMap` builds, one per entry. */
  function DescriptionPairs(nodes: seq<HashEntry>): seq<(string, Option<string>)>
  {
    seq(|nodes|, i requires 0 <= i < |nodes| => (NodeName(nodes[i].key), nodes[i].value))
  }

  /**
   * `getDescriptionsMap`: each entry's value under its key's last segment; a
   * later entry with the same name overrides an earlier one.
   */
  function DescriptionsMap(nodes: seq<HashEntry>): (m: map<string, Option<string>>)
    ensures forall i :: 0 <= i < |nodes| ==> NodeName(nodes[i].key) in m
    ensures forall name :: name in m ==> exists i :: 0 <= i < |nodes| && NodeName(nodes[i].key) == name
  {
    var pairs := DescriptionPairs(nodes);
    assert forall i :: 0 <= i < |nodes| ==> pairs[i].0 == NodeName(nodes[i].key);
    ObjectOf(pairs)
  }

  /** The value under a name is that of the last entry with that name. */
  lemma DescriptionsMapLastWins(nodes: seq<HashEntry>, i: int)
    requires 0 <= i < |nodes|
    requires forall j :: i < j < |nodes| ==> NodeName(nodes[j].key) != NodeName(nodes[i].key)
    ensures DescriptionsMap(nodes)[NodeName(nodes[i].key)] == nodes[i].value
  {
    var pairs := DescriptionPairs(nodes);
    assert forall j :: 0 <= j < |nodes| ==> pairs[j].0 == NodeName(nodes[j].key);
    ObjectOfLastWins(pairs, i);
  }

  /** A metadata entry is filed under its feature's name. */
  lemma DescriptionOfMetaKey(app: string, feature: string, description: Option<string>)
    requires NoColon(app) && NoColon(feature)
    ensures DescriptionsMap([HashEntry(MetaKey(app, feature), description)]) == map[feature := description]
  {
    FeatureKeyNames(app, feature);
  }

  // ---------------------------------------------------------------------------
  // getFeature

  /**
   * `getFeature`. No reply when the metadata hash is missing, and for a simple
   * feature also when the toggle hash is missing (the code reads a field of
   * `null`). A multi-toggle feature is reported with no toggles.
   */
  function GetFeature(db: Db, simpleId: int, app: string, feature: string): (r: Reply<FeatureView>)
    ensures r != Failed
    ensures r.Ok? <==> (db.HGetAll(MetaKey(app, feature)).Some? &&
      (IsMultiFeature(Field(db.hashes[MetaKey(app, feature)], "categoryId"), simpleId) ||
       db.HGetAll(ToggleKey(app, feature)).Some?))
    ensures r.Ok? ==> (r.value.applicationName == app && r.value.featureName == feature &&
      r.value.featureDescription == Field(db.hashes[MetaKey(app, feature)], "description") &&
      (r.value.isMultiToggle <==> r.value.toggles.None?))
  {
    match db.HGetAll(MetaKey(app, feature))
    case None => NoReply
    case Some(meta) =>
      if IsMultiFeature(Field(meta, "categoryId"), simpleId) then
        Ok(FeatureView(app, feature, Field(meta, "description"), None, true))
      else
        match db.HGetAll(ToggleKey(app, feature))
        case None => NoReply
        case Some(toggle) =>
          Ok(FeatureView(app, feature, Field(meta, "description"),
                         Some(SimpleFeatureToggle(feature, Field(toggle, "value"))), false))
  }

  /** A simple feature's toggle reads true exactly when its stored `value` is the text "true". */
  lemma GetFeatureToggleValue(db: Db, simpleId: int, app: string, feature: string)
    requires GetFeature(db, simpleId, app, feature).Ok?
    requires !GetFeature(db, simpleId, app, feature).value.isMultiToggle
    ensures var ts := GetFeature(db, simpleId, app, feature).value.toggles;
      ts.Some? && |ts.value| == 1 && ts.value[0].name == feature &&
      (ts.value[0].value <==> "value" in db.hashes[ToggleKey(app, feature)] &&
                              db.hashes[ToggleKey(app, feature)]["value"] == "true")
  {
  }

  // ---------------------------------------------------------------------------
  // addFeature

  function AfterAddFeature(db: Db, simpleId: int, app: string, feature: string,
                           description: string, categoryId: int): Db
  {
    if IsMultiFeature(Some(IntText(categoryId)), simpleId) then db
    else
      db.HMSet(ToggleKey(app, feature), map["value" := "false"])
        .HMSet(MetaKey(app, feature), map["categoryId" := IntText(categoryId), "description" := description])
  }

  /** `addSimpleFeature`: write the toggle as off and announce it; the hook runs even when the write fails. */
  method AddSimpleFeature(st: RedisStore, app: string, feature: string, user: User)
    returns (ok: bool, hook: HookEvent)
    requires st.Valid()
    modifies st
    ensures ok <==> old(st.State()).HashWritable(ToggleKey(app, feature))
    ensures st.State() == old(st.State()).HMSet(ToggleKey(app, feature), map["value" := "false"])
    ensures hook == HookEvent("addFeatureToggle", user, app, feature, None, Some(false))
    ensures st.Valid()
  {
    ok := st.HMSet(ToggleKey(app, feature), map["value" := "false"]);
    hook := HookEvent("addFeatureToggle", user, app, feature, None, Some(false));
  }

  /** `addSimpleFeatureMeta`: write the categoryId (as its decimal text) and the description. */
  method AddSimpleFeatureMeta(st: RedisStore, app: string, feature: string, description: string, categoryId: int)
    returns (ok: bool)
    requires st.Valid()
    modifies st
    ensures ok <==> old(st.State()).HashWritable(MetaKey(app, feature))
    ensures st.State() == old(st.State()).HMSet(MetaKey(app, feature),
                                                map["categoryId" := IntText(categoryId), "description" := description])
    ensures st.Valid()
  {
    ok := st.HMSet(MetaKey(app, feature), map["categoryId" := IntText(categoryId), "description" := description]);
  }

  /**
   * `addFeature`. A multi-toggle categoryId does nothing and never replies.
   * Otherwise both hashes are written; the reply comes only if both writes succeed.
   */
  method AddFeature(st: RedisStore, simpleId: int, app: string, feature: string,
                    description: string, categoryId: int, user: User)
    returns (reply: Reply<()>, hooks: seq<HookEvent>)
    requires st.Valid()
    modifies st
    ensures categoryId != simpleId ==> reply == NoReply && hooks == []
    ensures categoryId == simpleId ==>
      (reply == if old(st.State()).HashWritable(ToggleKey(app, feature)) &&
                   old(st.State()).HashWritable(MetaKey(app, feature)) then Ok(()) else NoReply) &&
      hooks == [HookEvent("addFeatureToggle", user, app, feature, None, Some(false))]
    ensures st.State() == AfterAddFeature(old(st.State()), simpleId, app, feature, description, categoryId)
    ensures st.Valid()
  {
    IsMultiOfIntText(categoryId, simpleId);
    if IsMultiFeature(Some(IntText(categoryId)), simpleId) {
      return NoReply, [];
    }
    var toggled, hook := AddSimpleFeature(st, app, feature, user);
    var described := AddSimpleFeatureMeta(st, app, feature, description, categoryId);
    hooks := [hook];
    reply := if toggled && described then Ok(()) else NoReply;
  }

  /** Adding a simple feature writes its two hashes and changes no other key. */
  lemma AddFeatureFrame(db: Db, simpleId: int, app: string, feature: string,
                        description: string, categoryId: int, k: string)
    requires k != ToggleKey(app, feature) && k != MetaKey(app, feature)
    ensures var after := AfterAddFeature(db, simpleId, app, feature, description, categoryId);
      after.lists == db.lists && after.applications == db.applications &&
      (k in after.hashes <==> k in db.hashes) && (k in db.hashes ==> after.hashes[k] == db.hashes[k])
  {
  }

  /** After a simple `addFeature`, `getFeature` reports the feature with its description and one toggle, off. */
  lemma AddThenGetFeature(db: Db, simpleId: int, app: string, feature: string, description: string)
    requires db.HashWritable(ToggleKey(app, feature)) && db.HashWritable(MetaKey(app, feature))
    ensures GetFeature(AfterAddFeature(db, simpleId, app, feature, description, simpleId), simpleId, app, feature)
            == Ok(FeatureView(app, feature, Some(description), Some([Toggle(feature, false)]), false))
  {
    IsMultiOfIntText(simpleId, simpleId);
    var after := AfterAddFeature(db, simpleId, app, feature, description, simpleId);
    AddedFeatureHashes(db, simpleId, app, feature, description);
    GetSimpleFeatureView(after, simpleId, app, feature);
  }

  /** The two hashes a simple `addFeature` leaves behind. */
  lemma AddedFeatureHashes(db: Db, simpleId: int, app: string, feature: string, description: string)
    requires db.HashWritable(ToggleKey(app, feature)) && db.HashWritable(MetaKey(app, feature))
    requires !IsMultiFeature(Some(IntText(simpleId)), simpleId)
    ensures var after := AfterAddFeature(db, simpleId, app, feature, description, simpleId);
      after.HGetAll(MetaKey(app, feature)).Some? && after.HGetAll(ToggleKey(app, feature)).Some? &&
      Field(after.hashes[MetaKey(app, feature)], "categoryId") == Some(IntText(simpleId)) &&
      Field(after.hashes[MetaKey(app, feature)], "description") == Some(description) &&
      Field(after.hashes[ToggleKey(app, feature)], "value") == Some("false")
  {
    KeyFamiliesDisjoint(app, feature, app, feature, app);
    var d1 := db.HMSet(ToggleKey(app, feature), map["value" := "false"]);
    var meta := map["categoryId" := IntText(simpleId), "description" := description];
    var after := d1.HMSet(MetaKey(app, feature), meta);
    assert AfterAddFeature(db, simpleId, app, feature, description, simpleId) == after;
    assert d1.hashes[ToggleKey(app, feature)]["value"] == "false";
    assert after.hashes[ToggleKey(app, feature)] == d1.hashes[ToggleKey(app, feature)];
    assert "categoryId" in meta && "description" in meta;
  }

  /** What `getFeature` reports for a readable simple feature. */
  lemma GetSimpleFeatureView(db: Db, simpleId: int, app: string, feature: string)
    requires db.HGetAll(MetaKey(app, feature)).Some? && db.HGetAll(ToggleKey(app, feature)).Some?
    requires !IsMultiFeature(Field(db.hashes[MetaKey(app, feature)], "categoryId"), simpleId)
    ensures GetFeature(db, simpleId, app, feature) ==
      Ok(FeatureView(app, feature, Field(db.hashes[MetaKey(app, feature)], "description"),
                     Some([Toggle(feature, StrictTrue(Field(db.hashes[ToggleKey(app, feature)], "value")))]), false))
  {
  }

  // ---------------------------------------------------------------------------
  // updateFeatureToggle, updateFeatureDescription

  /**
   * `updateFeatureToggle`. `replies` lists the callback's calls: on an error
   * the callback is called with it and then once more without one. The hook runs either way.
   */
  method UpdateFeatureToggle(st: RedisStore, app: string, feature: string, value: bool, user: User)
    returns (replies: seq<Reply<()>>, hook: HookEvent)
    requires st.Valid()
    modifies st
    ensures replies == if old(st.State()).HashWritable(ToggleKey(app, feature)) then [Ok(())] else [Failed, Ok(())]
    ensures hook == HookEvent("updateFeatureToggle", user, app, feature, None, Some(value))
    ensures st.State() == old(st.State()).HMSet(ToggleKey(app, feature), map["value" := BoolText(value)])
    ensures st.Valid()
  {
    var ok := st.HSet(ToggleKey(app, feature), "value", BoolText(value));
    replies := if ok then [Ok(())] else [Failed, Ok(())];
    hook := HookEvent("updateFeatureToggle", user, app, feature, None, Some(value));
  }

  /** After a successful toggle update of a simple feature, `getFeature` reports the new value. */
  lemma UpdateThenGetFeature(db: Db, simpleId: int, app: string, feature: string, value: bool)
    requires db.HashWritable(ToggleKey(app, feature))
    requires db.HGetAll(MetaKey(app, feature)).Some?
    requires !IsMultiFeature(Field(db.hashes[MetaKey(app, feature)], "categoryId"), simpleId)
    ensures GetFeature(db.HMSet(ToggleKey(app, feature), map["value" := BoolText(value)]), simpleId, app, feature)
            == Ok(FeatureView(app, feature, Field(db.hashes[MetaKey(app, feature)], "description"),
                              Some([Toggle(feature, value)]), false))
  {
    KeyFamiliesDisjoint(app, feature, app, feature, app);
    var after := db.HMSet(ToggleKey(app, feature), map["value" := BoolText(value)]);
    assert after.hashes[ToggleKey(app, feature)]["value"] == BoolText(value);
  }

  /** `updateFeatureDescription`: set the description field; the callback's calls as for a toggle update. */
  method UpdateFeatureDescription(st: RedisStore, app: string, feature: string, description: string)
    returns (replies: seq<Reply<()>>)
    requires st.Valid()
    modifies st
    ensures replies == if old(st.State()).HashWritable(MetaKey(app, feature)) then [Ok(())] else [Failed, Ok(())]
    ensures st.State() == old(st.State()).HMSet(MetaKey(app, feature), map["description" := description])
    ensures st.Valid()
  {
    var ok := st.HSet(MetaKey(app, feature), "description", description);
    replies := if ok then [Ok(())] else [Failed, Ok(())];
  }

  /**
   * A description update changes only the description: the categoryId, the
   * toggle hash and so what `getFeature` reports apart from the description stay.
   */
  lemma DescriptionUpdateKeepsRest(db: Db, simpleId: int, app: string, feature: string, description: string)
    requires db.HashWritable(MetaKey(app, feature)) && MetaKey(app, feature) in db.hashes
    ensures var after := db.HMSet(MetaKey(app, feature), map["description" := description]);
      Field(after.hashes[MetaKey(app, feature)], "categoryId") == Field(db.hashes[MetaKey(app, feature)], "categoryId") &&
      Field(after.hashes[MetaKey(app, feature)], "description") == Some(description) &&
      after.HGetAll(ToggleKey(app, feature)) == db.HGetAll(ToggleKey(app, feature)) &&
      GetFeature(after, simpleId, app, feature) ==
        match GetFeature(db, simpleId, app, feature)
        case Ok(view) => Ok(view.(featureDescription := Some(description)))
        case other => other
  {
    KeyFamiliesDisjoint(app, feature, app, feature, app);
  }

  // ---------------------------------------------------------------------------
  // deleteFeature

  /**
   * `deleteFeatureAndMetaData`: delete the toggle hash, then the metadata
   * hash. A failed first delete does not stop the second; `ok` only when both succeed.
   */
  method DeleteFeatureAndMetaData(st: RedisStore, app: string, feature: string) returns (ok: bool)
    requires st.Valid()
    modifies st
    ensures ok <==> ToggleKey(app, feature) !in st.faulty && MetaKey(app, feature) !in st.faulty
    ensures st.State() == old(st.State()).Del(ToggleKey(app, feature)).Del(MetaKey(app, feature))
    ensures st.Valid()
  {
    var toggleGone := st.Del(ToggleKey(app, feature));
    var metaGone := st.Del(MetaKey(app, feature));
    ok := toggleGone && metaGone;
  }

  /** `deleteFeature`: on success the hook runs and the callback is called; otherwise nothing replies. */
  method DeleteFeature(st: RedisStore, app: string, feature: string, user: User)
    returns (reply: Reply<()>, hooks: seq<HookEvent>)
    requires st.Valid()
    modifies st
    ensures ToggleKey(app, feature) !in st.faulty && MetaKey(app, feature) !in st.faulty ==>
      reply == Ok(()) && hooks == [HookEvent("deleteFeature", user, app, feature, None, None)]
    ensures !(ToggleKey(app, feature) !in st.faulty && MetaKey(app, feature) !in st.faulty) ==>
      reply == NoReply && hooks == []
    ensures st.State() == old(st.State()).Del(ToggleKey(app, feature)).Del(MetaKey(app, feature))
    ensures st.Valid()
  {
    var ok := DeleteFeatureAndMetaData(st, app, feature);
    if ok {
      reply, hooks := Ok(()), [HookEvent("deleteFeature", user, app, feature, None, None)];
    } else {
      reply, hooks := NoReply, [];
    }
  }

  /** The metadata delete is attempted even when the toggle delete fails. */
  lemma FailedToggleDeleteStillDeletesMeta(db: Db, app: string, feature: string)
    requires ToggleKey(app, feature) in db.faulty && MetaKey(app, feature) !in db.faulty
    ensures var after := db.Del(ToggleKey(app, feature)).Del(MetaKey(app, feature));
      MetaKey(app, feature) !in after.hashes && after.HGetAll(ToggleKey(app, feature)) == db.HGetAll(ToggleKey(app, feature))
  {
    KeyFamiliesDisjoint(app, feature, app, feature, app);
  }

  /**
   * After a successful delete both hashes are gone, `getFeature` no longer
   * replies, and every other key is as it was.
   */
  lemma DeleteThenGetFeature(db: Db, simpleId: int, app: string, feature: string, k: string)
    requires ToggleKey(app, feature) !in db.faulty && MetaKey(app, feature) !in db.faulty
    ensures var after := db.Del(ToggleKey(app, feature)).Del(MetaKey(app, feature));
      ToggleKey(app, feature) !in after.hashes && MetaKey(app, feature) !in after.hashes &&
      GetFeature(after, simpleId, app, feature) == NoReply &&
      (k != ToggleKey(app, feature) && k != MetaKey(app, feature) ==>
        after.HGetAll(k) == db.HGetAll(k) && after.LRange(k) == db.LRange(k))
  {
  }

  // ---------------------------------------------------------------------------
  // getFeatureCategories

  /** The keys of a scan's entries, in order. */
  function EntryKeys(entries: seq<HashEntry>): (ks: seq<string>)
    ensures |ks| == |entries| && forall i :: 0 <= i < |entries| ==> ks[i] == entries[i].key
  {
    seq(|entries|, i requires 0 <= i < |entries| => entries[i].key)
  }

  /** Every key the pattern matches can be read as a hash. */
  ghost predicate AllReadable(db: Db, pattern: string)
  {
    forall k :: k in db.Matching(pattern) ==> db.HGetAll(k).Some?
  }

  /** `entries` is a scan of `pattern`: each matching key once, with the given field of its hash. */
  ghost predicate ScanOf(entries: seq<HashEntry>, db: Db, pattern: string, field: string)
  {
    Enumerates(EntryKeys(entries), db.Matching(pattern)) &&
    forall i :: 0 <= i < |entries| ==>
      entries[i].key in db.hashes && entries[i].value == Field(db.hashes[entries[i].key], field)
  }

  /**
   * `getHashDataForToggle`: one entry per key matching `prefix:*`, in the
   * order the keys are reported, empty when none match. None (the promise is
   * rejected) when some matching key cannot be read as a hash.
   */
  method GetHashDataForToggle(st: RedisStore, prefix: string, field: string)
    returns (r: Option<seq<HashEntry>>)
    ensures r.Some? <==> AllReadable(st.State(), prefix + ":*")
    ensures r.Some? ==> ScanOf(r.value, st.State(), prefix + ":*", field)
    ensures r.Some? && st.State().Matching(prefix + ":*") == {} ==> r.value == []
  {
    var keys := st.Keys(prefix + ":*");
    if |keys| == 0 {
      return Some([]);
    }
    var results: seq<HashEntry> := [];
    var i := 0;
    while i < |keys|
      invariant 0 <= i <= |keys|
      invariant |results| == i
      invariant forall j :: 0 <= j < i ==>
        results[j].key == keys[j] && keys[j] in st.hashes && results[j].value == Field(st.hashes[keys[j]], field)
      invariant forall j :: 0 <= j < i ==> st.State().HGetAll(keys[j]).Some?
    {
      var data := st.HGetAll(keys[i]);
      if data.None? {
        return None;
      }
      results := results + [HashEntry(keys[i], Field(data.value, field))];
      i := i + 1;
    }
    assert EntryKeys(results) == keys;
    assert keys[0] in st.State().Matching(prefix + ":*");
    r := Some(results);
  }

  /** With no toggle entries the listing is the category table as configured. */
  lemma NoFeaturesKeepCategories(db: Db, cfg: CategoryConfig)
    ensures FillCategories(db, cfg, []) == Ok(cfg.categories)
  {
  }

  /** The metadata hash a toggle entry's listing entry is built from, if it can be read and is simple. */
  predicate SimpleNode(db: Db, simpleId: int, node: HashEntry)
  {
    db.HGetAll(MetaName(node.key)).Some? &&
    !IsMultiFeature(Field(db.hashes[MetaName(node.key)], "categoryId"), simpleId)
  }

  /** File one toggle entry: no reply for a missing or multi-toggle metadata hash or a missing category. */
  function FileFeature(db: Db, cfg: CategoryConfig, cats: map<int, Category>, node: HashEntry): Reply<map<int, Category>>
  {
    if !SimpleNode(db, cfg.simpleCategoryId, node) then NoReply
    else
      var feature := SimpleFeatureOf(node, db.hashes[MetaName(node.key)]);
      if feature.categoryId in cats then
        Ok(cats[feature.categoryId := cats[feature.categoryId].(features := cats[feature.categoryId].features + [feature])])
      else NoReply
  }

  /** The listing `getCategoriesWithFeatureValues` builds: the toggle entries filed one after another. */
  function FillCategories(db: Db, cfg: CategoryConfig, nodes: seq<HashEntry>): Reply<map<int, Category>>
    decreases |nodes|
  {
    if nodes == [] then Ok(cfg.categories)
    else match FillCategories(db, cfg, nodes[..|nodes| - 1])
      case Ok(cats) => FileFeature(db, cfg, cats, nodes[|nodes| - 1])
      case other => other
  }

  /** `getCategoriesWithFeatureValues`: push each feature onto the features of its category. */
  method CategoriesWithFeatureValues(st: RedisStore, cfg: CategoryConfig, nodes: seq<HashEntry>)
    returns (r: Reply<map<int, Category>>)
    ensures r == FillCategories(st.State(), cfg, nodes)
  {
    var categories := cfg.categories;
    if |nodes| == 0 {
      return Ok(categories);
    }
    var i := 0;
    while i < |nodes|
      invariant 0 <= i <= |nodes|
      invariant FillCategories(st.State(), cfg, nodes[..i]) == Ok(categories)
    {
      assert nodes[..i + 1][..i] == nodes[..i];
      var name := MetaName(nodes[i].key);
      var meta := st.HGetAll(name);
      if meta.None? || IsMultiFeature(Field(meta.value, "categoryId"), cfg.simpleCategoryId) {
        NoReplyStays(st.State(), cfg, nodes, i + 1);
        return NoReply;
      }
      var feature := SimpleFeatureOf(nodes[i], meta.value);
      if feature.categoryId !in categories {
        NoReplyStays(st.State(), cfg, nodes, i + 1);
        return NoReply;
      }
      var bucket := categories[feature.categoryId];
      categories := categories[feature.categoryId := bucket.(features := bucket.features + [feature])];
      i := i + 1;
    }
    assert nodes[..i] == nodes;
    r := Ok(categories);
  }

  /** Once a prefix of the entries fails, the whole listing fails. */
  lemma {:induction false} NoReplyStays(db: Db, cfg: CategoryConfig, nodes: seq<HashEntry>, n: nat)
    requires n <= |nodes| && FillCategories(db, cfg, nodes[..n]) == NoReply
    ensures FillCategories(db, cfg, nodes) == NoReply
    decreases |nodes| - n
  {
    if n < |nodes| {
      assert nodes[..n + 1][..n] == nodes[..n];
      NoReplyStays(db, cfg, nodes, n + 1);
    } else {
      assert nodes[..n] == nodes;
    }
  }

  /** The listing entries of simple toggle entries, in order. */
  function FeaturesOf(db: Db, simpleId: int, nodes: seq<HashEntry>): seq<SimpleFeature>
    requires forall i :: 0 <= i < |nodes| ==> SimpleNode(db, simpleId, nodes[i])
    decreases |nodes|
  {
    if nodes == [] then []
    else
      var last := nodes[|nodes| - 1];
      assert SimpleNode(db, simpleId, last);
      FeaturesOf(db, simpleId, nodes[..|nodes| - 1]) + [SimpleFeatureOf(last, db.hashes[MetaName(last.key)])]
  }

  /** Filing one entry: it succeeds exactly for a simple entry with category 0 present, and then appends to category 0. */
  lemma FileFeatureOutcome(db: Db, cfg: CategoryConfig, cats: map<int, Category>, node: HashEntry)
    ensures FileFeature(db, cfg, cats, node).Ok? <==> SimpleNode(db, cfg.simpleCategoryId, node) && 0 in cats
    ensures FileFeature(db, cfg, cats, node) != Failed
    ensures FileFeature(db, cfg, cats, node).Ok? ==>
      FileFeature(db, cfg, cats, node).value ==
        cats[0 := cats[0].(features := cats[0].features + [SimpleFeatureOf(node, db.hashes[MetaName(node.key)])])]
  {
  }

  /** `nodes` is simple throughout exactly when its front is and its last entry is. */
  lemma AllSimpleSplit(db: Db, simpleId: int, nodes: seq<HashEntry>, init: seq<HashEntry>)
    requires nodes != [] && init == nodes[..|nodes| - 1]
    ensures (forall i :: 0 <= i < |nodes| ==> SimpleNode(db, simpleId, nodes[i])) <==>
      (forall i :: 0 <= i < |init| ==> SimpleNode(db, simpleId, init[i])) &&
      SimpleNode(db, simpleId, nodes[|nodes| - 1])
  {
    assert forall i :: 0 <= i < |init| ==> init[i] == nodes[i];
  }

  /**
   * The listing succeeds exactly when every entry's metadata is readable and
   * simple and, if there is any entry, category 0 exists. It is never an
   * error reply and keeps the set of categories.
   */
  lemma {:induction false} FillCategoriesSucceeds(db: Db, cfg: CategoryConfig, nodes: seq<HashEntry>)
    ensures FillCategories(db, cfg, nodes).Ok? <==>
      (nodes == [] || 0 in cfg.categories) &&
      forall i :: 0 <= i < |nodes| ==> SimpleNode(db, cfg.simpleCategoryId, nodes[i])
    ensures FillCategories(db, cfg, nodes) != Failed
    ensures FillCategories(db, cfg, nodes).Ok? ==> FillCategories(db, cfg, nodes).value.Keys == cfg.categories.Keys
    decreases |nodes|
  {
    if nodes != [] {
      var init := nodes[..|nodes| - 1];
      var last := nodes[|nodes| - 1];
      FillCategoriesSucceeds(db, cfg, init);
      AllSimpleSplit(db, cfg.simpleCategoryId, nodes, init);
      var prev := FillCategories(db, cfg, init);
      if prev.Ok? {
        FileFeatureOutcome(db, cfg, prev.value, last);
        assert FillCategories(db, cfg, nodes) == FileFeature(db, cfg, prev.value, last);
      } else {
        assert FillCategories(db, cfg, nodes) == prev;
      }
    }
  }

  /**
   * With every entry simple, all features land in category 0, after the
   * features it already had and in scan order; the other categories are unchanged.
   */
  lemma {:induction false} FillCategoriesFilesInZero(db: Db, cfg: CategoryConfig, nodes: seq<HashEntry>)
    requires 0 in cfg.categories
    requires forall i :: 0 <= i < |nodes| ==> SimpleNode(db, cfg.simpleCategoryId, nodes[i])
    ensures FillCategories(db, cfg, nodes) ==
      Ok(cfg.categories[0 := cfg.categories[0].(features := cfg.categories[0].features +
                                                            FeaturesOf(db, cfg.simpleCategoryId, nodes))])
    decreases |nodes|
  {
    var zero := cfg.categories[0];
    if nodes == [] {
      assert zero.(features := zero.features + []) == zero;
      assert cfg.categories[0 := zero] == cfg.categories;
    } else {
      var init := nodes[..|nodes| - 1];
      var last := nodes[|nodes| - 1];
      AllSimpleSplit(db, cfg.simpleCategoryId, nodes, init);
      FillCategoriesFilesInZero(db, cfg, init);
      var fs := FeaturesOf(db, cfg.simpleCategoryId, init);
      var cats := cfg.categories[0 := zero.(features := zero.features + fs)];
      assert FillCategories(db, cfg, init) == Ok(cats);
      FileFeatureOutcome(db, cfg, cats, last);
      var feature := SimpleFeatureOf(last, db.hashes[MetaName(last.key)]);
      assert FillCategories(db, cfg, nodes) == Ok(cats[0 := cats[0].(features := cats[0].features + [feature])]);
      assert FeaturesOf(db, cfg.simpleCategoryId, nodes) == fs + [feature];
      assert zero.features + fs + [feature] == zero.features + (fs + [feature]);
      assert cats[0 := cats[0].(features := cats[0].features + [feature])] ==
             cfg.categories[0 := zero.(features := zero.features + (fs + [feature]))];
    }
  }

  /**
   * `getFeatureCategories`: scan the application's toggle values and
   * descriptions, then build the listing from the toggle scan. Never an
   * error reply; no reply when either scan fails.
   */
  method GetFeatureCategories(st: RedisStore, cfg: CategoryConfig, app: string)
    returns (reply: Reply<map<int, Category>>)
    ensures reply != Failed
    ensures !(AllReadable(st.State(), TogglePattern(app)) && AllReadable(st.State(), MetaPattern(app))) ==>
      reply == NoReply
    ensures AllReadable(st.State(), TogglePattern(app)) && AllReadable(st.State(), MetaPattern(app)) ==>
      exists nodes :: ScanOf(nodes, st.State(), TogglePattern(app), "value") &&
        reply == FillCategories(st.State(), cfg, nodes)
  {
    assert "toggle:" + app + ":*" == TogglePattern(app);
    assert "meta:" + app + ":*" == MetaPattern(app);
    var values := GetHashDataForToggle(st, "toggle:" + app, "value");
    var descriptions := GetHashDataForToggle(st, "meta:" + app, "description");
    if values.None? || descriptions.None? {
      return NoReply;
    }
    var descriptionsMap := DescriptionsMap(descriptions.value);
    reply := CategoriesWithFeatureValues(st, cfg, values.value);
    FillCategoriesSucceeds(st.State(), cfg, values.value);
    assert ScanOf(values.value, st.State(), TogglePattern(app), "value");
  }

  /** A toggle entry of a colon-free feature is listed under the feature's name and reads its own metadata. */
  lemma ToggleEntryNames(app: string, feature: string, value: Option<string>, meta: Hash)
    requires NoColon(app) && NoColon(feature)
    ensures MetaName(ToggleKey(app, feature)) == MetaKey(app, feature)
    ensures SimpleFeatureOf(HashEntry(ToggleKey(app, feature), value), meta).name == feature
  {
    FeatureKeyNames(app, feature);
  }
}

# hobknob Redis domain layer, modelled in Dafny

hobknob is a feature-toggle service. Its Redis domain layer stores everything as
flat keys of one Redis key space:

- a simple feature `f` of application `a` has a toggle hash at `toggle:a:f`,
  whose `value` field holds `"true"`/`"false"`;
- it also has a metadata hash at `meta:a:f` with `categoryId` and `description`;
- `audit:a:f` is the feature's audit list and `audit:a` the application's;
- `applications` is the list of application names.

This project models that layer:

- the key builders and the two key parsers (`getNodeName`, `getMetaName`);
- the `KEYS` glob patterns the layer scans and purges with;
- the JavaScript built-ins the layer relies on (`split`, `toLowerCase`,
  `parseInt`, `String(n)`);
- the Redis commands it issues, over an abstract store;
- the operations of the three domain modules: applications, features and
  audit. The stubs `getApplicationMetaData`, `deleteApplicationMetaData` and
  `saveApplicationMetaData` (server/domain/redis/application.js:71-87) and the
  unimplemented multi-toggle branches are not modelled (see "Left out").

Modules, one file each:

| module | file | contents |
|---|---|---|
| `Wrappers` | wrappers.dfy | `Option`; `Reply` (`Ok`, `Failed`, or `NoReply` when the callback is never called) |
| `JsText` | jstext.dfy | `split`/join, `toLowerCase`, `parseInt` without a radix, `String(n)` and `String(b)` |
| `Keys` | keys.dfy | key names, key parsing, the glob matcher, which keys each pattern selects |
| `Store` | store.dfy | the store as a value `Db` with one function per command; the class `RedisStore` holding the same state in fields, one method per command |
| `Audit` | audit.dfy | `audit.js` |
| `Application` | application.dfy | `application.js` |
| `Feature` | feature.dfy | `feature.js` |

**The store.** The store is a map from key to hash, a map from key to list of
audit records, and the `applications` list, plus a set `faulty` of keys on which
every command fails.

- A hash command on a list (or a list command on a hash) fails the way Redis's WRONGTYPE error does.
- A failed command changes nothing.
- Operations that change the store are methods on a `RedisStore`. Each one
  states its new state as a `Db` function of the old state, and its reply.
  The lemmas then prove properties of those functions.
- Reads that only compute are functions on `Db`: `getFeature`,
  `getApplications`, `getFeatureAuditTrail`.
- Each operation runs its commands in the order they reach Redis, as one
  sequential step.

**Replies.** Replies follow the code as written:

- A callback that is never called is `NoReply`. That covers:
  - a promise that is rejected and never handled;
  - a `TypeError` on a `null` hash inside a promise's `.then`
    (server/domain/redis/feature.js:68 and 76);
  - an exception thrown inside a Redis client callback
    (server/domain/redis/feature.js:178 and 228-229; see "Left out");
  - a `//todo` branch.
- Operations whose callback can be called more than once return the whole
  sequence of calls: `addApplicationAudit`, `addFeatureAudit`,
  `updateFeatureToggle`, `updateFeatureDescription` and `deleteApplication`.

**Behaviour of the code worth knowing.** The model follows the code:

- `deleteFeatureAndMetaData` (server/domain/redis/feature.js:310-324) has no
  `return` after `reject` (lines 313-317). The metadata delete is therefore
  attempted even when the toggle delete failed.
- `deleteFeature` (server/domain/redis/feature.js:90-103) fires its hook but
  writes no audit entry.
- `getFeature` of a feature with no metadata hash (or, for a simple feature,
  no toggle hash) never replies, because the code reads a field of `null`
  (server/domain/redis/feature.js:68 and 76); it does not report "not found".
- `addApplication` has no duplicate check: adding an existing name lists it twice.
- In `deleteApplication`, the callback is called without an error as soon as
  the operation starts (server/domain/redis/application.js:68). It is called
  again with an error if the LREM fails, and once more for each DEL that fails.
- A failed application audit is never reported, which looks like a latent bug:
  the callbacks at server/domain/redis/application.js:32-36 and 61-65 take no
  parameter and test the enclosing `err`, which is always falsy there, so
  their `console.log` never runs.

**Naming hazards.** Two lemmas show the key naming breaking down:

- An application name with `:` in it makes its audit list `audit:x:y` the same
  key as the audit trail of feature `y` of application `x`
  (`Audit.AppAuditCanReachFeatureTrail`).
- Deleting an application named `*` purges the toggles of every application
  (`Application.StarNameDeletesEveryToggle`).

## Model

| member | source | states |
|---|---|---|
| JsText.Split | server/domain/redis/feature.js:146 | `key.split(':')` gives at least one segment; no segment contains `:`; joining the segments with `:` gives the key back |
| JsText.SplitJoin | server/domain/redis/feature.js:146-147 | splitting a `:`-join of colon-free segments gives those segments back |
| JsText.ToLower | server/domain/redis/feature.js:244 | same length; no upper-case letter is left; every character stays or is an upper-case letter turned into its lower-case partner |
| JsText.ToLowerIdempotent | server/domain/redis/feature.js:244 | lower-casing twice is lower-casing once |
| JsText.ParseIntOfIntText | server/domain/redis/feature.js:159 | `parseInt(String(n))` is `n` for every integer `n` |
| Keys.NodeNameIsLastSuffix | server/domain/redis/feature.js:145-148 | `getNodeName` gives the key's longest suffix without `:`: a `:`-free suffix, preceded by `:` unless it is the whole key |
| Keys.MetaName | server/domain/redis/feature.js:237-240 | `getMetaName` always gives a three-segment `meta:` key made of the key's second and third segments (`undefined` when missing); for a three-segment key it ends in the same name |
| Keys.FeatureKeyNames | server/domain/redis/feature.js:237-240 | for colon-free names, `getMetaName(toggle:a:f)` is `meta:a:f`, and `getNodeName` of either key is `f` |
| Keys.ToggleKeyInjective | server/domain/redis/feature.js:107 | two colon-free (application, feature) pairs with the same toggle key are the same pair |
| Keys.MetaNameTruncates | server/domain/redis/feature.js:237-240 | a feature name containing `:` is cut short: `getMetaName(toggle:a:b:c)` is `meta:a:b`, not `meta:a:b:c` |
| Keys.KeyFamiliesDisjoint | server/domain/redis/feature.js:256 | toggle, metadata, audit and `applications` keys never coincide, whatever the names |
| Keys.AuditKeysDisjoint | server/domain/redis/audit.js:32 | for a colon-free application name, `audit:<app>` is never a feature audit key |
| Keys.AuditKeysCollide | server/domain/redis/audit.js:50 | `audit:x:y` is both the audit list of application `x:y` and the trail of feature `y` of `x` |
| Keys.ToggleScanSelects | server/domain/redis/feature.js:165 | `toggle:<app>:*` matches `toggle:a:f` exactly when `a` is `app`, and never matches a metadata key |
| Keys.PurgePatternSelects | server/domain/redis/application.js:48 | `*:<app>:*` matches a three-segment key exactly when its middle segment is `app`, and never matches a two-segment key such as `audit:<app>` |
| Keys.PurgeSkipsApplications | server/domain/redis/application.js:48 | whatever the name, the purge pattern never matches `applications` |
| Keys.GlobNeedsLiteral | server/domain/redis/application.js:48 | every literal character of a pattern occurs in each key it matches |
| Keys.StarNamePurgesEveryApplication | server/domain/redis/application.js:48 | with the name `*`, the purge pattern matches every three-segment key |
| Store.Without | server/domain/redis/application.js:43 | LREM with count 0: the name no longer occurs, every other name is still there, and the list is not longer |
| Store.WithoutConcat | server/domain/redis/application.js:43 | LREM keeps the order of the names it leaves: it distributes over concatenation |
| Store.WithoutCounts | server/domain/redis/application.js:43 | every other name occurs as often as before |
| Store.Db.HMSet | server/domain/redis/feature.js:256 | the given fields are overwritten and the hash's other fields stay; other keys, lists and `applications` are unchanged; a failing write changes nothing |
| Store.Db.Purge | server/domain/redis/application.js:52 | exactly the deletable keys of the set are gone, and everything left keeps its value |
| Store.Db.LPush | server/domain/redis/audit.js:32 | the record heads the list, the old entries follow, and no other key changes |
| Store.PurgeUnion | server/domain/redis/application.js:50-57 | one DEL after another amounts to one purge of the set of keys |
| Store.RedisStore.Keys | server/domain/redis/feature.js:165 | KEYS reports each matching key exactly once |
| Audit.AddApplicationAudit | server/domain/redis/audit.js:23-37 | pushes exactly one `{user, action, dateModified}` record onto `audit:<app>`; the callback is called once without an error on success, and with the error and then once more without one when the push fails |
| Audit.AddFeatureAudit | server/domain/redis/audit.js:39-55 | pushes exactly one `{user, toggleName, value, action, dateModified}` record onto `audit:<app>:<feature>`, with the same callback calls |
| Audit.FeatureAuditTrail | server/domain/redis/audit.js:9-21 | one record per stored entry in list order; empty when the key is absent |
| Audit.AddFeatureAuditThenTrail | server/domain/redis/audit.js:39-55 | straight after a feature audit, the trail's head has the same user, toggle name, value and action, and the old trail follows |
| Audit.TrailIsNewestFirst | server/domain/redis/audit.js:50 | after audits pushed in any order, the trail lists the newest first: the reverse of the insertion order, followed by the old trail |
| Audit.AppAuditKeepsFeatureTrails | server/domain/redis/audit.js:32 | an application audit of a colon-free name changes no feature's audit trail |
| Audit.AppAuditCanReachFeatureTrail | server/domain/redis/audit.js:32 | an application audit of `x:y` lands on top of the trail of feature `y` of `x` |
| Application.AddApplication | server/domain/redis/application.js:26-40 | pushes the name and then records `Created`; replies with the push's error when it fails, and then writes nothing |
| Application.AddThenGetApplications | server/domain/redis/application.js:27 | after an add, the name heads the list, the old names follow, and the list has one more entry |
| Application.AddKeepsDuplicates | server/domain/redis/application.js:27 | adding a name that is already listed lists it once more |
| Application.AddRecordsCreated | server/domain/redis/application.js:27-36 | a successful push adds a `Created` record to `audit:<name>`; a failed push changes nothing |
| Application.DeleteEach | server/domain/redis/application.js:50-57 | deleting the found keys one by one purges them all, and reports one error per key whose DEL fails |
| Application.FaultyCountOfDistinct | server/domain/redis/application.js:52-55 | for keys without repeats, the failed-DEL count is the number of distinct failing keys |
| Application.DeleteApplication | server/domain/redis/application.js:42-69 | the callback calls come in order: one at once, then one error for a failed LREM or one per failed DEL; the new state is LREM, then the `Deleted` audit, then the purge of the keys KEYS found |
| Application.DeleteApplicationNames | server/domain/redis/application.js:43 | delete removes every occurrence of the name; the other names keep their counts and their relative order |
| Application.DeletePurgesFeatureKeys | server/domain/redis/application.js:48-58 | the toggle, metadata and feature-audit keys of the deleted application go (unless their DEL fails); those of every other application keep their values |
| Application.DeleteKeepsApplicationAudit | server/domain/redis/application.js:61-65 | `audit:<name>` survives the purge, with the `Deleted` record at its head |
| Application.StarNameDeletesEveryToggle | server/domain/redis/application.js:48 | deleting an application named `*` removes the toggle hashes of every application |
| Feature.IsMultiOfIntText | server/domain/redis/feature.js:44 | a categoryId written as decimal text is simple exactly when it equals the simple id |
| Feature.IsMultiReadsLeadingNumber | server/domain/redis/feature.js:159 | `"0.5"` counts as category 0, and `"zero"` is multi-toggle |
| Feature.LenientTrue | server/domain/redis/feature.js:244 | true exactly for a present four-character value each of whose letters is that of `"true"` or of `"TRUE"`, i.e. that lower-cases to `"true"` |
| Feature.DecodersCompared | server/domain/redis/feature.js:244 | both decoders give `b` on the text `String(b)` and false on an absent value; the strict one implies the lenient one; `"TRUE"` separates them |
| Feature.ObjectOf | server/domain/redis/feature.js:142 | `_.object`: its names are exactly the first components of the pairs |
| Feature.ObjectOfLastWins | server/domain/redis/feature.js:142 | under each name is the value of the last pair with that name |
| Feature.DescriptionsMap | server/domain/redis/feature.js:137-143 | its names are exactly the last key segments of the entries |
| Feature.DescriptionsMapLastWins | server/domain/redis/feature.js:142 | under each name is the value of the last entry with that name |
| Feature.DescriptionOfMetaKey | server/domain/redis/feature.js:139 | a `meta:a:f` entry is filed under `f` |
| Feature.GetFeature | server/domain/redis/feature.js:57-88 | never an error reply; replies exactly when the metadata hash is readable and the feature is multi-toggle or its toggle hash is readable; reports the metadata's description, with no toggles exactly for a multi-toggle feature |
| Feature.GetFeatureToggleValue | server/domain/redis/feature.js:76 | a simple feature's single toggle is on exactly when its stored `value` is `"true"` |
| Feature.GetSimpleFeatureView | server/domain/redis/feature.js:79-86 | the full object `getFeature` reports for a readable simple feature |
| Feature.AddSimpleFeature | server/domain/redis/feature.js:253-273 | writes `value: "false"` to the toggle hash; returns the `addFeatureToggle` hook event whether or not the write succeeds |
| Feature.AddSimpleFeatureMeta | server/domain/redis/feature.js:275-285 | writes the categoryId as decimal text, and the description, to the metadata hash |
| Feature.AddFeature | server/domain/redis/feature.js:37-55 | a multi-toggle categoryId writes nothing and never replies; a simple one writes both hashes, fires the hook, and replies only when both writes succeed |
| Feature.AddFeatureFrame | server/domain/redis/feature.js:49-50 | `addFeature` changes no key other than its two hashes |
| Feature.AddedFeatureHashes | server/domain/redis/feature.js:256 | after a simple add, both hashes are readable with `categoryId`, `description` and `value: "false"` |
| Feature.AddThenGetFeature | server/domain/redis/feature.js:57-88 | after a simple `addFeature(a, f, d, simple id)`, `getFeature(a, f)` reports `d`, one toggle `{f, false}`, and not multi-toggle |
| Feature.UpdateFeatureToggle | server/domain/redis/feature.js:105-123 | sets the `value` field only; the callback gets the error and then a second call when the write fails; the hook fires either way |
| Feature.UpdateThenGetFeature | server/domain/redis/feature.js:107 | after a toggle update of a simple feature, `getFeature` reports the new value |
| Feature.UpdateFeatureDescription | server/domain/redis/feature.js:125-134 | sets the `description` field only, with the same callback calls as a toggle update |
| Feature.DescriptionUpdateKeepsRest | server/domain/redis/feature.js:127 | categoryId and the toggle hash are unchanged, and `getFeature` changes only in its description |
| Feature.DeleteFeatureAndMetaData | server/domain/redis/feature.js:310-324 | both deletes are attempted; success exactly when both succeed |
| Feature.FailedToggleDeleteStillDeletesMeta | server/domain/redis/feature.js:313-317 | a failing toggle delete still lets the metadata delete through |
| Feature.DeleteFeature | server/domain/redis/feature.js:90-103 | on success, fires the `deleteFeature` hook with no toggle name or value and replies; otherwise neither |
| Feature.DeleteThenGetFeature | server/domain/redis/feature.js:310-324 | after a successful delete, both hashes are gone, `getFeature` no longer replies, and every other key is unchanged |
| Feature.GetHashDataForToggle | server/domain/redis/feature.js:162-187 | succeeds exactly when every key matching `prefix:*` is readable; then gives one `{key, field value}` entry per matching key, and `[]` when none match |
| Feature.CategoriesWithFeatureValues | server/domain/redis/feature.js:189-217 | the listing pushes the entries one after another onto their categories |
| Feature.NoFeaturesKeepCategories | server/domain/redis/feature.js:196-198 | with no entries, the configured categories are returned unchanged |
| Feature.FileFeatureOutcome | server/domain/redis/feature.js:219-235 | filing one entry succeeds exactly for a simple entry when category 0 exists, and then appends that entry's feature to category 0 |
| Feature.NoReplyStays | server/domain/redis/feature.js:211 | once one entry fails, the listing never replies |
| Feature.FillCategoriesSucceeds | server/domain/redis/feature.js:200-214 | the listing replies exactly when every entry is simple and, if there is any entry, category 0 exists; it is never an error and keeps the set of categories |
| Feature.FillCategoriesFilesInZero | server/domain/redis/feature.js:206 | with every entry simple, category 0 gets all features in scan order after its own, and the other categories are unchanged |
| Feature.GetFeatureCategories | server/domain/redis/feature.js:17-35 | never an error reply; no reply when either scan hits an unreadable key; otherwise the listing built from a scan of the application's toggles |
| Feature.ToggleEntryNames | server/domain/redis/feature.js:222 | a toggle entry of a colon-free feature reads its own metadata hash and is listed under the feature's name |

## Left out

- Callbacks, promises and concurrency. Each operation is one sequential step
  over the store in the order its commands reach Redis. This leaves out:
  - the completion counting in `getHashDataForToggle` and `getCategoriesWithFeatureValues`;
  - lost updates between concurrent operations;
  - a process crash between two commands.
- The Redis client itself and its connection errors. A command fails exactly
  on the keys in `faulty` or on a key of the other type. KEYS never fails: the
  code would crash on `keys.length` of `undefined`.
- Hooks are returned as event values; the hook module is not part of this model.
- Users and timestamps are parameters: `getUserDetails`, `config.RequiresAuth`
  and `new Date().toISOString()` are not modelled.
- JSON stringify and parse of audit entries are not modelled: an audit entry
  is a record, and only records this layer writes are read back. The
  `createdIndex` copy (server/domain/redis/audit.js:15) is not modelled.
- The category module is not part of this model. The simple category id and
  the category table are parameters. A category is a name and its features;
  its other configured fields are not modelled. Whether the table is shared
  between calls is also not modelled.
- The multi-toggle branches are `//todo` in the source. `addFeature` does
  nothing for them. `getFeature` reports them without toggles. The listing
  stops replying at one, because `getMultiFeature` is undefined. Toggle
  suggestions are not modelled.
- The description lookup by the full metadata key
  (server/domain/redis/feature.js:222-224) is not modelled: it never matches
  and its result is unused.
- The stubbed `getApplicationMetaData`, `deleteApplicationMetaData` and
  `saveApplicationMetaData` (server/domain/redis/application.js:71-87) are
  not modelled: they only call back.
- The `console.log` in the application-audit callbacks
  (server/domain/redis/application.js:32-36 and 61-65) is not modelled: it can
  never run, so a failed application audit is simply ignored.
- Uncaught exceptions: reading a field of a `null` hash in a Redis client
  callback (server/domain/redis/feature.js:178 and 228) and the call to the
  undefined `getMultiFeature` (server/domain/redis/feature.js:229) throw
  outside any promise and would reach the process's uncaught-exception
  handler. The model renders each as `NoReply` of the operation.
- Keys.Glob: handles `*` and `?` only. `[...]` classes and `\` escapes are not
  modelled, so the lemmas about selected keys assume names without `*`, `?`, `[` or `\`.
- JsText.ToLower: maps ASCII letters only, not the full Unicode case mapping.
- JsText.ParseInt: gives exact integers. Double rounding beyond 2^53 is not
  modelled, and neither is NaN's inequality to itself (only `Some`/`None`).
- JsText.IntText: plain decimal; the exponent form `String(n)` uses from 1e21 up is not modelled.
- Feature.LenientTrue: gives false where the source gives `undefined` or `""`,
  which are falsy but distinct from `false`.
- Feature.AddFeature: takes the description as a string and the categoryId as
  an integer. Other JavaScript values for them are not modelled.
- Feature.UpdateFeatureToggle: takes the new value as a boolean, stored as
  `"true"`/`"false"`.
- Feature.HookEvent: `null` and a missing field are both `None`.
- client/js/services/applicationService.js and client/configuration/config.js
  are not part of this model.

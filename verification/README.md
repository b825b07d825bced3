# Bolt schema manager, access control and storage core — a Dafny model

This project models, as immutable data and pure functions, the parts of the
Bolt CMS that decide what the database should look like and how the live
database is brought in line with it, together with the smaller pieces of
logic around them:

- **Schema manager** (`src/Storage/Database/Schema/Manager.php`):
  - the validity marker, a cache file holding the time of the last clean
    integrity check (`SchemaValidity`);
  - the table prefix, prefixed table names, the filter that keeps only
    prefixed live tables, and the table map (`SchemaNaming`);
  - the target schema: core tables, then one table per content type, then
    the extension tables (`SchemaAssembly`);
  - `cleanupTableDiff` (`SchemaDiff`);
  - the integrity check, `needsUpdate` and the repair (`SchemaIntegrity`).
  Tables are names with column lists. Doctrine's comparator, SQL
  generation and reserved-keyword list are uninterpreted functions of a
  `Platform` (`SchemaTables`). "The diff produces ALTER SQL" means the
  generated statement list is non-empty.
- **Extension identity** (`ExtensionIdentity`). Namespace, name, vendor
  and id are derived from an extension's class name. The memoised getters
  and the base-directory and relative-URL accessors are included.
- **Login** (`Login`): how `login` dispatches, the password and auth-token
  paths, the failed-login counter and its throttle, the last-seen
  bookkeeping, and the auth-token record.
- **Password** (`Password`): random passwords, and the two-step reset
  through a shadow password and an IP-bound shadow token.
- **Storage**:
  - the `Content` entity accessors (`ContentEntity`, over the values in
    `Entities`);
  - the hydrator's class check, `create` and its loop over field mappings
    (`Hydrator`);
  - the template-fields field handler (`TemplateFields`);
  - the cron repository's query for the last run of an interim job
    (`CronRepository`).

Shared pieces:
- `Common` holds `Option` and `Result`. `Result` stands for PHP
  exceptions; `None` stands for `null`/`false`.
- `Strings` models `strpos`, `strrpos`, `str_replace`, `Str::replaceFirst`
  and ASCII `strtolower`.
- `Users` holds the user record, a first-match repository lookup, and the
  flash/system message log.

Inputs the code takes from collaborators are parameters: the clock, the
file system, the hasher, the random generator, the slugifier, the JSON
codec and the entity manager.

A few places where the code's behaviour differs from what its comments or
its callers suggest are modelled as the code is written:
- `resetPasswordRequest` flashes "A password reset link has been sent to
  …" only for an unknown user. Its comment says the message is shown
  regardless. A known user gets no flash message.
- `loginFailed` computes the throttle from the incremented counter plus
  one. So a user is throttled from the fourth failure on, not the fifth
  (`Login.FourthFailureIsThrottled`).
- `Hydrator::hydrate` hands every field handler the undefined `$source`,
  which PHP reads as `null`.
- `new \DateInterval(PT2H)` names a bare constant. PHP 7 reads it as the
  string `PT2H`, a two-hour window.
- PHP 7 semantics are assumed throughout, as the code was written for it.
  In particular the loose `$values['index'] == 'true'` follows PHP 7, where
  the integer 0 equals `'true'`; under PHP 8 it does not
  (`SchemaAssembly.IntegerIndexQuirk`).
- In `queryNextRunTimes` the `cron.` removal runs before lower-casing. So
  `Cron.daily` keeps its `cron.` (`CronRepository.CapitalisedCronDotSurvives`).

## Model

| member | source | states |
|---|---|---|
| SchemaTables.DiffTable | src/Storage/Database/Schema/Manager.php:158-159 | The comparator reports a diff exactly when it finds one, and that diff names the live table as its `fromTable`. |
| SchemaValidity.StoredTimestamp | src/Storage/Database/Schema/Manager.php:81-87 | The timestamp compared is 0 for a missing or unreadable marker file, and otherwise the file's integer value. |
| SchemaValidity.NeedsCheck | src/Storage/Database/Schema/Manager.php:194-197 | A check is needed exactly when the state is not valid, i.e. exactly when the stored timestamp is older than `now − 1800`. |
| SchemaValidity.MarkValid | src/Storage/Database/Schema/Manager.php:69-73 | After marking, a marker file exists. A missing file is created holding `now`, a writable file is overwritten with `now`, and a read-only file is left as it is. |
| SchemaValidity.Invalidate | src/Storage/Database/Schema/Manager.php:47-61 | Invalidating succeeds exactly when there is no file or it is writable, and then the marker is gone. Otherwise it aborts with HTTP 401. |
| SchemaValidity.MarkValidWindow | src/Storage/Database/Schema/Manager.php:69-90 | After marking at time t on a usable file, the state is valid at t, and valid at a later time exactly until t + 1800. |
| SchemaValidity.MarkValidThenNoCheck | src/Storage/Database/Schema/Manager.php:69-197 | Right after marking, no check is needed. |
| SchemaValidity.InvalidateThenNeedsCheck | src/Storage/Database/Schema/Manager.php:47-90 | After a successful invalidation, the state is invalid and a check is needed. |
| SchemaValidity.InvalidateAbortKeepsMarker | src/Storage/Database/Schema/Manager.php:53-60 | An existing marker that cannot be removed aborts the invalidation, and a state that was valid stays valid. |
| SchemaValidity.UnreadableMarkerCountsAsZero | src/Storage/Database/Schema/Manager.php:83-87 | An unreadable marker never makes the state valid, whatever it holds. |
| SchemaNaming.TablenamePrefix | src/Storage/Database/Schema/Manager.php:471-485 | The prefix always ends in `_`. It defaults to `bolt_`, keeps a configured prefix that already ends in `_`, and otherwise extends the configured prefix by one `_`. |
| SchemaNaming.PrefixIdempotent | src/Storage/Database/Schema/Manager.php:479-482 | Normalising an already normalised prefix changes nothing. |
| SchemaNaming.Tablename | src/Storage/Database/Schema/Manager.php:458-464 | A table name is the prefix followed by the slug with every `-` turned into `_`, so no `-` follows the prefix. |
| SchemaNaming.FilterPrefixed | src/Storage/Database/Schema/Manager.php:108-112 | Exactly the live tables whose name starts with the prefix are kept. |
| SchemaNaming.TableObjects | src/Storage/Database/Schema/Manager.php:97-115 | The table objects are keyed by name, and hold exactly the live tables whose names carry the prefix. |
| SchemaNaming.KeyByName | src/Storage/Database/Schema/Manager.php:110-111 | Keying tables by name covers every table's name, and each name holds a table of that name that no later table in the list shares its name with: when names repeat, the last table wins. |
| SchemaNaming.TablenameIsKept | src/Storage/Database/Schema/Manager.php:108-112 | A live table named by `getTablename` always survives the prefix filter. |
| SchemaNaming.MapTableName | src/Storage/Database/Schema/Manager.php:507-510 | After mapping `from` to `to`, `getKeyForTable(from)` is `to`, and every other key's lookup is unchanged. |
| SchemaNaming.KeyForTable | src/Storage/Database/Schema/Manager.php:519-524 | The lookup returns the mapped name exactly when the table is mapped, and `null` otherwise. |
| SchemaAssembly.AddIndex | src/Storage/Database/Schema/Manager.php:439-443 | Index is added when `index` loosely equals `'true'`: for `true` and `"true"`, not for `false`, `null` or unset, and a string only when it is `"true"`. |
| SchemaAssembly.IntegerIndexQuirk | src/Storage/Database/Schema/Manager.php:441 | Under loose comparison, the integer 0 requests an index and the integer 1 does not. |
| SchemaAssembly.FieldColumns | src/Storage/Database/Schema/Manager.php:437-449 | A known type adds its custom columns, indexed as `index` says. An unknown type with a handler adds one column with the handler's storage type and storage options. Otherwise nothing is added. |
| SchemaAssembly.ContentTypeColumnsAppend | src/Storage/Database/Schema/Manager.php:409-427 | The columns of a field list are the columns of its parts, in order. |
| SchemaAssembly.SingleFieldColumns | src/Storage/Database/Schema/Manager.php:413-425 | A field named by a reserved keyword adds no column. Any other field adds exactly its own columns. |
| SchemaAssembly.ReservedFields | src/Storage/Database/Schema/Manager.php:415-422 | The reported fields are exactly the fields whose names are reserved keywords. |
| SchemaAssembly.ReservedFieldAddsNoColumn | src/Storage/Database/Schema/Manager.php:415-423 | Removing a reserved-keyword field from a content type leaves its columns unchanged. |
| SchemaAssembly.CoreTables | src/Storage/Database/Schema/Manager.php:365-373 | There is one core table per `schema.tables` key, in key order, each named by `getTablename` of its key. |
| SchemaAssembly.CoreTableNames | src/Storage/Database/Schema/Manager.php:349-358 | The base table names are exactly the core tables' names, in order. |
| SchemaAssembly.ContentTypeTable | src/Storage/Database/Schema/Manager.php:384-394 | A content-type table is named by `getTablename` of its `tablename`. Its columns are the base columns followed by the columns of its fields, or the base columns alone without a `fields` array. |
| SchemaAssembly.ContentTypeTables | src/Storage/Database/Schema/Manager.php:380-400 | There is one table per configured content type, in configuration order. |
| SchemaAssembly.ContentTypeTableMap | src/Storage/Database/Schema/Manager.php:386-387 | Every content type's table name is mapped back to its `tablename` and no other key is added. Each mapped name keeps its earlier entry when no content type builds it, and otherwise holds the key of the last content type that does. |
| SchemaAssembly.ExtensionTablesAppend | src/Storage/Database/Schema/Manager.php:325-342 | The extension tables of concatenated generators are the concatenation of their tables. |
| SchemaAssembly.RegisterExtensionTable | src/Storage/Database/Schema/Manager.php:313-339 | A generator registered last adds its single table, or each table of its list in order, after the existing extension tables. |
| SchemaAssembly.TablesSchema | src/Storage/Database/Schema/Manager.php:296-305 | The target schema is the core tables, then the content-type tables, then the extension tables, and contains nothing else. |
| SchemaAssembly.CoreAndContentTablesArePrefixed | src/Storage/Database/Schema/Manager.php:365-400 | Every core or content-type table name starts with the prefix. |
| SchemaDiff.InterimRenames | src/Storage/Database/Schema/Manager.php:275-278 | The selected renames are exactly those whose new column is named `interim`. |
| SchemaDiff.OtherRenames | src/Storage/Database/Schema/Manager.php:278-279 | The kept renames are exactly those whose new column is not named `interim`. |
| SchemaDiff.RenamePartitionSize | src/Storage/Database/Schema/Manager.php:275-280 | Every rename is either moved or kept, never both and never lost. |
| SchemaDiff.CleanupTableDiff | src/Storage/Database/Schema/Manager.php:269-289 | Changed columns are untouched. A non-core table loses all column removals, while a core table keeps them. Only for the `cron` table do `interim` renames become additions, and other renames are kept. No addition or rename is lost. |
| SchemaDiff.InterimRenamesOfOthers | src/Storage/Database/Schema/Manager.php:275-280 | No `interim` rename survives the move, and a second move keeps the same renames. |
| SchemaDiff.CleanupIdempotent | src/Storage/Database/Schema/Manager.php:269-289 | Cleaning a cleaned diff changes nothing. |
| SchemaIntegrity.Classify | src/Storage/Database/Schema/Manager.php:155-165 | A table is missing exactly when it has no live counterpart. It is drifted exactly when the comparator finds a diff that produces ALTER SQL. |
| SchemaIntegrity.CheckAll | src/Storage/Database/Schema/Manager.php:151-170 | A "not present" title is given exactly for target tables without a live counterpart. A "not the correct schema" title is given exactly for drifted tables. The response is empty exactly when every table is fine. |
| SchemaIntegrity.TitlesForAppend | src/Storage/Database/Schema/Manager.php:151-170 | The titles for a name count additively over the check's concatenated parts. |
| SchemaIntegrity.TitlesForOne | src/Storage/Database/Schema/Manager.php:155-165 | Checking one table yields a title under a name exactly when it is that table's name and the table is not fine, and then exactly one. |
| SchemaIntegrity.CheckAllTitles | src/Storage/Database/Schema/Manager.php:151-170 | The titles under a name split into those of the earlier tables and those of the last table. |
| SchemaIntegrity.MissingTableHasOneTitle | src/Storage/Database/Schema/Manager.php:155-157 | With distinct table names, a missing target table yields exactly one title. |
| SchemaIntegrity.NoTitlesForAbsentName | src/Storage/Database/Schema/Manager.php:151-170 | A name that is no target table's name gets no title. |
| SchemaIntegrity.DebugLog | src/Storage/Database/Schema/Manager.php:172-176 | The debug log ends with all diff details collected by the whole check. |
| SchemaIntegrity.DebugLogRepeats | src/Storage/Database/Schema/Manager.php:151-177 | The log is written inside the loop, so the details of a drifted first table are logged again after every later table. |
| SchemaIntegrity.CheckTablesIntegrity | src/Storage/Database/Schema/Manager.php:142-186 | The response is empty exactly when the live schema is up to date. The marker is refreshed exactly when the response is empty, and is left alone otherwise. |
| SchemaIntegrity.CheckReportsMissingTableOnce | src/Storage/Database/Schema/Manager.php:146-157 | With distinct target names, each missing target table is reported exactly once. |
| SchemaIntegrity.CleanCheckValidates | src/Storage/Database/Schema/Manager.php:179-197 | A clean check on a usable marker leaves the state valid, so no further check is needed. |
| SchemaIntegrity.NeedsUpdate | src/Storage/Database/Schema/Manager.php:204-209 | An update is needed exactly when the live schema is not up to date. The check's marker update happens as a side effect. |
| SchemaIntegrity.RunQueries | src/Storage/Database/Schema/Manager.php:236-239 | The queries are issued one by one, in order. |
| SchemaIntegrity.RepairAll | src/Storage/Database/Schema/Manager.php:229-256 | "Created" is given exactly for the missing tables, and "Updated" exactly for present tables whose cleaned diff still produces SQL. Every CREATE statement of every missing table is issued, and only those statements are issued as queries. Every present table whose cleaned diff produces SQL is altered with that diff, every ALTER applies such a diff, and none removes columns of a non-core table. |
| SchemaIntegrity.RepairTables | src/Storage/Database/Schema/Manager.php:216-259 | The repair reports exactly the missing target tables as created and issues exactly their CREATE statements. It alters every present target table whose cleaned diff produces SQL with that diff, and never drops a column of a table outside the core set. |
| SchemaIntegrity.UpToDateRepairCreatesNothing | src/Storage/Database/Schema/Manager.php:216-259 | On an up-to-date schema the repair creates nothing and at most alters tables. |
| ExtensionIdentity.ShortName | src/Extension/AbstractExtension.php:88-89 | The short name is the last backslash-free segment, and a name without backslash is its own short name. |
| ExtensionIdentity.Namespace | src/Extension/AbstractExtension.php:123-131 | The namespace is a prefix of the class name, empty without a backslash, and otherwise the class name is namespace + `\` + short name. |
| ExtensionIdentity.CutAtExtension | src/Extension/AbstractExtension.php:90-93 | A short name without `Extension` is kept. Otherwise it is cut before its last `Extension`. |
| ExtensionIdentity.Name | src/Extension/AbstractExtension.php:84-103 | The name is the cut short name when non-empty, else the last namespace segment. It is `null` only for a bare `Extension` class name, and never contains a backslash. |
| ExtensionIdentity.Vendor | src/Extension/AbstractExtension.php:108-118 | After the first `Bolt\Extension\` is stripped from the namespace, the vendor is a backslash-free prefix of what remains that ends right at its first backslash, or all of it when there is none. |
| ExtensionIdentity.Id | src/Extension/AbstractExtension.php:76-79 | The id has a `/` right after the vendor; before it stands the vendor and after it the name (empty for a `null` name). |
| ExtensionIdentity.IdDecodes | src/Extension/AbstractExtension.php:76-79 | For a class name without `/`, the first `/` of the id sits right after the vendor, so the id decodes back into vendor and name. |
| ExtensionIdentity.SplitClassName | src/Extension/AbstractExtension.php:88-131 | Joining a namespace and a backslash-free short name with `\` splits back into the same two parts. |
| ExtensionIdentity.BlogClassSplits | src/Extension/AbstractExtension.php:123-131 | `Bolt\Extension\Acme\Blog\BlogExtension` has namespace `Bolt\Extension\Acme\Blog` and short name `BlogExtension`. |
| ExtensionIdentity.BlogExtensionName | src/Extension/AbstractExtension.php:84-103 | That class is named `Blog`. |
| ExtensionIdentity.BlogExtensionVendor | src/Extension/AbstractExtension.php:108-118 | That class's vendor is `Acme`. |
| ExtensionIdentity.PlainExtensionName | src/Extension/AbstractExtension.php:94-97 | A class literally called `Extension` takes its name from the last namespace segment. |
| ExtensionIdentity.GlobalExtensionHasNoName | src/Extension/AbstractExtension.php:94-99 | A global class called `Extension` has no name. |
| ExtensionIdentity.NewExtension | src/Extension/AbstractExtension.php:84-131 | A new extension memoises nothing yet, which is consistent with every derivation. |
| ExtensionIdentity.GetNamespace | src/Extension/AbstractExtension.php:123-131 | The getter returns the derived namespace and memoises exactly it. |
| ExtensionIdentity.GetName | src/Extension/AbstractExtension.php:84-103 | The getter returns the derived name and memoises exactly it. |
| ExtensionIdentity.GetVendor | src/Extension/AbstractExtension.php:108-118 | The getter returns the derived vendor and memoises it, leaving the other fields alone. |
| ExtensionIdentity.GetId | src/Extension/AbstractExtension.php:76-79 | The getter returns vendor `/` name, and keeps the memo fields consistent. |
| ExtensionIdentity.GetDisplayName | src/Extension/AbstractExtension.php:136-139 | The display name is the name. |
| ExtensionIdentity.IdentityIsMemoised | src/Extension/AbstractExtension.php:84-131 | Calling a getter again returns the first computed value and changes nothing more. |
| ExtensionIdentity.SetBaseDirectory | src/Extension/AbstractExtension.php:40-53 | The base directory read back is the one set, and nothing else changes. |
| ExtensionIdentity.SetRelativeUrl | src/Extension/AbstractExtension.php:58-71 | The relative URL read back is the one set, and nothing else changes. |
| ExtensionIdentity.SettersCommute | src/Extension/AbstractExtension.php:40-71 | The two setters are independent: their order does not matter, and they keep the memo fields consistent. |
| Login.ThrottleUntil | src/AccessControl/Login.php:239-251 | There is no throttle below 5 attempts. From 5 on, the throttle ends strictly after now. |
| Login.ThrottleWaitsAreSquares | src/AccessControl/Login.php:244-249 | The wait is (attempts − 4)² seconds, so it starts at one second and grows strictly with the attempts. |
| Login.DeleteExpired | src/AccessControl/Login.php:35-36 | Exactly the tokens that have not expired are kept. |
| Login.GetToken | src/AccessControl/Login.php:82 | A token is found only when it matches the cookie, IP and user agent, and none is found exactly when no token matches. |
| Login.GetUserToken | src/AccessControl/Login.php:202 | The token found is the first one for this user, IP and user agent, and none is found exactly when there is none. |
| Login.GetUserEntity | src/AccessControl/Login.php:110-125 | A user is returned exactly when it exists and is enabled. Otherwise "account disabled" is flashed and nothing else changes. |
| Login.UpdateUserLogin | src/AccessControl/Login.php:173-189 | The result is whether the save succeeds. On success only this user changes, and only in four fields: the counter is reset, the throttle cleared, and last-seen time and IP recorded; password, email, enabled flag and shadow fields are kept. Success is flashed. On failure nothing changes. |
| Login.NewAuthtoken | src/AccessControl/Login.php:198-223 | A new auth-token record holds the username, salt, `getAuthToken` value, IP, user agent and last-seen time, and is valid for the cookie lifetime from now. |
| Login.UpdateAuthToken | src/AccessControl/Login.php:198-223 | A new record is appended when the user has none for this IP and agent, and otherwise that record is replaced. Other records are untouched. |
| Login.UpdatedTokenIsFound | src/AccessControl/Login.php:198-223 | After the update, the lookup for this user, IP and agent finds exactly the new record. |
| Login.LoginFinish | src/AccessControl/Login.php:134-148 | When the user update fails, the result is false and nothing changes. Otherwise the session holds the user with the password masked, and the token list is exactly the old one after `updateAuthToken` for this user. |
| Login.LoginFailed | src/AccessControl/Login.php:155-164 | Only this user's counter grows by one, and its throttle is computed from the new count plus one. The user is saved only if the save succeeds. "Wrong credentials" is flashed and a system message is logged. |
| Login.FourthFailureIsThrottled | src/AccessControl/Login.php:161-162 | After the fourth failure the user is throttled for one second, although four attempts alone would not throttle. |
| Login.LoginCheckPassword | src/AccessControl/Login.php:57-71 | Password login succeeds exactly when the user exists, is enabled, the password checks, and the save succeeds. A failure leaves session and tokens alone. |
| Login.LoginCheckAuthtoken | src/AccessControl/Login.php:80-101 | A session is resumed only from a stored token matching cookie, IP and agent whose stored value equals `getAuthToken(username, salt)`. Without a matching token the result is false. |
| Login.Login | src/AccessControl/Login.php:33-47 | Expired tokens are gone afterwards. Missing credentials and cookie are rejected with "invalid login parameters". Given username and password, login succeeds exactly as the password check does. Otherwise only the token path can succeed. Success leaves a masked session and the pruned tokens after `updateAuthToken` for the logged-on user. Failure leaves the session alone and exactly the unexpired tokens. |
| Login.LoginKeepsStoredPasswords | src/AccessControl/Login.php:134-189 | No login attempt changes any stored password hash. Only the session copy is masked. |
| Login.WrongPasswordCountsOneFailure | src/AccessControl/Login.php:57-71 | A wrong password for an enabled user fails and raises that user's counter by exactly one. |
| Login.GoodPasswordResetsCounter | src/AccessControl/Login.php:173-189 | A successful password login leaves the user with a zero counter and no throttle. |
| Password.HashStrength | src/AccessControl/Password.php:51 | The hash strength is the configured value, raised to at least 8. |
| Password.ShadowCleared | src/AccessControl/Password.php:56-58 | Clearing empties the shadow password and token and unsets the validity, and touches nothing else. |
| Password.SetRandomPassword | src/AccessControl/Password.php:44-69 | An unknown user gives `false` and no change. Otherwise only that user changes: the password is the hash of the generated one at strength ≥ 8, the shadow fields are cleared, and the plain password is returned. |
| Password.ShadowSuffix | src/AccessControl/Password.php:126 | The suffix is `-` followed by the IP with every `.` replaced by `-`, so it contains no `.`. |
| Password.GetUserShadowAuth | src/AccessControl/Password.php:83 | The user found is the first whose shadow token matches and whose validity is still in the future, and none exactly when there is none. |
| Password.ResetPasswordRequest | src/AccessControl/Password.php:106-134 | The request succeeds exactly for a known user. An unknown user only gets the "link has been sent" flash. A known user alone changes: the shadow hash, the IP-suffixed token, and a validity of now plus two hours. |
| Password.ResetPasswordConfirm | src/AccessControl/Password.php:78-97 | When no user matches the token plus this IP's suffix, no user changes and errors are logged. Otherwise only that user changes: the password becomes the shadow password and the shadow fields are cleared. |
| Password.RequestThenConfirm | src/AccessControl/Password.php:78-134 | A confirmation from the same IP within two hours installs the requested shadow password. |
| Password.LateConfirmFails | src/AccessControl/Password.php:121-127 | A confirmation two hours or more after the request changes no user. |
| Password.RandomPasswordRevokesReset | src/AccessControl/Password.php:56-58 | After a random password is set, the earlier reset token no longer matches. |
| Entities.Index | src/Storage/Field/Type/TemplateFieldsType.php:41-43 | Indexing a non-array, or a missing key, yields `null`. A present key yields the value of its first entry. |
| Entities.Field | src/Storage/Entity/Content.php:70 | An unset property reads as `null`, and a set one as its value. |
| ContentEntity.NewContent | src/Storage/Entity/Content.php:22-32 | A fresh entity has every declared property `null`, including `datepublish` and `datedepublish`. |
| ContentEntity.GetDatecreated | src/Storage/Entity/Content.php:34-41 | The creation date is the stored value when it is truthy, and otherwise the current time. It is never falsy. |
| ContentEntity.GetDatechanged | src/Storage/Entity/Content.php:43-50 | The change date is the stored value when it is truthy, and otherwise the current time. It is never falsy. |
| ContentEntity.SetContenttype | src/Storage/Entity/Content.php:52-60 | The content type read back is the one set, and nothing else changes. |
| ContentEntity.SetContenttypeTwice | src/Storage/Entity/Content.php:57-60 | Setting twice is setting the second value. |
| ContentEntity.Initialize | src/Storage/ContentLegacyService.php:25-33 | A content-type name is resolved through the storage. An object or `null` is taken as it is. |
| ContentEntity.SetLegacyService | src/Storage/Entity/Content.php:62-66 | The entity keeps the service, initialised with the entity itself, and nothing else changes. |
| ContentEntity.Get | src/Storage/Entity/Content.php:68-76 | `get` returns the property unchanged unless it is a date, which is formatted. An unset property reads as `null`. |
| ContentEntity.GetAgreesWithDatecreated | src/Storage/Entity/Content.php:68-76 | For an entity with a creation date, `get('datecreated')` is `getDatecreated()` formatted. |
| ContentEntity.FreshContentDates | src/Storage/Entity/Content.php:26-50 | On a fresh entity the publication dates read as `null`, and the creation and change dates as now. |
| Hydrator.NewHydrator | src/Storage/Hydrator.php:26-35 | Construction succeeds exactly when the metadata's class exists. Otherwise it is an invalid-argument error naming the class. |
| Hydrator.Create | src/Storage/Hydrator.php:43-50 | A fresh entity of the handler class whose content type is the metadata's Bolt name, or none if that is unset. |
| Hydrator.CreateIgnoresSource | src/Storage/Hydrator.php:43-50 | The source argument makes no difference. |
| Hydrator.HandlerFor | src/Storage/Hydrator.php:65-69 | A handler comes from the factory exactly when one is supplied, and is always built for the mapping's field type. |
| Hydrator.Hydrate | src/Storage/Hydrator.php:59-75 | One handler call per field mapping, in mapping order, each on the entity the previous one returned. With no mappings the entity is returned as given. |
| TemplateFields.HandlerNames | src/Storage/Field/Type/TemplateFieldsType.php:105-116 | The handler is named `templatefields` and stored as `json_array`. |
| TemplateFields.BuildMetadata | src/Storage/Field/Type/TemplateFieldsType.php:89-100 | Field mappings come from `config[template]['fields']` exactly when the chosen template is configured, and are empty otherwise. |
| TemplateFields.Set | src/Storage/Field/Type/TemplateFieldsType.php:50-63 | The mapped field becomes a sub-entity typed `templatefields` carrying the template's field mappings. Every other property and the entity's own type are kept. |
| TemplateFields.Hydrate | src/Storage/Field/Type/TemplateFieldsType.php:39-48 | A falsy decoded value leaves the entity unchanged. A truthy one sets the field to a `templatefields` sub-entity. |
| TemplateFields.HydrateWithoutDataIsNoop | src/Storage/Field/Type/TemplateFieldsType.php:39-48 | Called with `null` data that decodes to a falsy value, the handler changes nothing. |
| TemplateFields.UnconfiguredTemplateHasNoFields | src/Storage/Field/Type/TemplateFieldsType.php:89-100 | A record whose template is not configured gets a sub-entity without field mappings. |
| TemplateFields.Persist | src/Storage/Field/Type/TemplateFieldsType.php:65-87 | Insert and update both use the placeholder `:fieldname`, and exactly one parameter of that name is bound on top of the first query as the nested persister left it. It is the default when the serialised value is `null` (and then the query is otherwise untouched), else the encoded persisted sub-entity. |
| CronRepository.OldName | src/Storage/Repository/CronRepository.php:21 | The old-style name is never longer and never contains upper-case letters. |
| CronRepository.QueryNextRunTimes | src/Storage/Repository/CronRepository.php:19-29 | The query selects `id, lastrun, interim`, compares `interim` with the name and the old name, and orders by `lastrun` descending. |
| CronRepository.MatchesNameOrOldName | src/Storage/Repository/CronRepository.php:24-27 | A row matches exactly when its interim is the name or the old-style name. |
| CronRepository.Filter | src/Storage/Repository/CronRepository.php:24 | Exactly the matching rows are kept, with their multiplicities. |
| CronRepository.Insert | src/Storage/Repository/CronRepository.php:25 | Inserting into a descending list keeps it descending and adds exactly one row. |
| CronRepository.SortDesc | src/Storage/Repository/CronRepository.php:25 | The result is a permutation sorted by `lastrun`, descending. |
| CronRepository.Run | src/Storage/Repository/CronRepository.php:23-27 | The result holds exactly the matching rows, each as often as in the table, latest run first. |
| CronRepository.GetNextRunTimes | src/Storage/Repository/CronRepository.php:13-17 | The result holds exactly the rows for the current or the old-style name, each as often as stored, latest run first. |
| CronRepository.OldNameAtFirstCronDot | src/Storage/Repository/CronRepository.php:21 | The first `cron.` is removed with everything before it only lower-cased, and the rest of the name is derived the same way; with `OldNameWithoutCronDot` this determines the old-style name of every string. |
| CronRepository.OldNameWithoutCronDot | src/Storage/Repository/CronRepository.php:21 | A name without `cron.` is only lower-cased. |
| CronRepository.CapitalisedCronDotSurvives | src/Storage/Repository/CronRepository.php:21 | `Cron.daily` becomes `cron.daily`, because removal is case-sensitive and happens first. |
| CronRepository.OldNameNotIdempotent | src/Storage/Repository/CronRepository.php:21 | Removal can create a new `cron.`, so deriving the old name twice can differ from deriving it once. |

## Left out

- Doctrine DBAL: the comparator, SQL generation, `alterTable`, the reserved-keyword lists and the table builders are library code. They are uninterpreted functions of `Platform` and `SchemaConfig`.
- `getTableObjects` memoisation: the live tables are an argument, so the cache in `$this->tables` has no effect in the model.
- `checkUserTableIntegrity`: it is not among the operations modelled.
- `checkTablesIntegrity`'s `$hinting` flag and the `CheckResponse` message text: titles are kept as a table name plus a kind.
- The flash messages: the reserved-word error in `addContentTypeTableColumns` and the flash clear at the start of `repairTables` are logging and are not modelled.
- The validity file's name and location (`getValidityTimestampFilename`): the cache directory is taken to be writable, so `markValid` can always create the file.
- `setContainer`/`getContainer`: dependency-injection plumbing.
- Directories: a directory object is reduced to its path. The setters' fluent `return $this` is the returned record.
- Login and password persistence: the users and auth-token repositories are not part of this model. User lookup is the first record whose username or email matches. `deleteExpiredTokens` removes tokens whose validity lies before now. `getUserShadowAuth` needs the shadow validity to lie after now.
- Login saves: a users-repository save succeeds when the environment says so (`saveOk`). In `Password` saves always persist.
- Login.LoginCheckAuthtoken: the auth-token repository save of the user entity at `src/AccessControl/Login.php:94` is not modelled; the token list changes only through `updateAuthToken`.
- `setcookie`, the session object and the request: the session is one optional entry, and the cookie is not modelled.
- Password hashing, the random generator, `getAuthToken` and slugify: they are parameters. The 12-character password and the 32-character salt and token are taken as given inputs.
- `resetPasswordNotification`: mail, Twig rendering and URL building are not part of this model.
- Undeclared properties: `Password` reads `$this->remoteIP` and `$this->hashStrength` without declaring them, so both are inputs.
- DateTime: dates are integer seconds, and `format('Y-m-d H:i:s')` is an abstract formatter.
- The template-fields persister's effect on other queries: only the first query's values, sets and parameters are modelled. The nested persister is a parameter that returns the value it persisted and the first query as it leaves it.
- The content type's string cast: a `ContentType` object cast to a string is taken to be its name.
- CronRepository.OldName: `strtolower` is modelled for ASCII letters only.
- `findWith`: the repository's query runner is not part of this model. `CronRepository.GetNextRunTimes` returns the matching rows themselves (an empty list when none match) rather than hydrated entities.
- CronRepository.Run: SQL leaves rows with equal `lastrun` in an unspecified order, and the model fixes one.
- The UI widget, the console command, `Mapping`, `ContentRepository` and the tests: they carry no behaviour of the modelled core.

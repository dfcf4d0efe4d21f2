# NotifyHub tenant core, modelled in Dafny

This project models the multi-tenant administration core of NotifyHub, a NestJS and Prisma backend. It covers:

- **API keys.** Issuing a key (`key_` plus 32 random bytes in hex, stored only as its SHA-256 digest), validating a key, switching keys on and off by mode (`all`, `latest`, `oldest` or a literal id), and listing a tenant's keys.
- **The `x-api-key` guard.** It runs in front of every tenant-scoped route, and its checks run in a fixed order.
- **Tenants.** Creating a tenant with an optional first key. The filtered, paginated listing and its query validation. Lookup by id or by email. Plan and email changes. Suspension, which deactivates the tenant's keys and leaves them inactive on reactivation.
- **End users.** Creation, unique per tenant by external id. Activation, where deactivating a user cancels its queued and sending notifications. Soft delete and hard delete.
- **Channel configurations.** Validating the payload, building the stored JSON, mapping a unique violation to a conflict, and masking the SMTP password in the reply.

Every operation is a pure function from a store and its inputs to a `Result`. The `Result` holds the new store and the reply, or an error:
- `BadRequest`, `Unauthorized`, `Forbidden`, `NotFound` or `Conflict`, for the HTTP exceptions the code throws;
- `Unhandled(fault)`, for a database error that nothing catches and that surfaces as a server error.

The store (`store.dfy`) holds the tables as sequences in insertion order:
- `findUnique`, and `findFirst` without an ordering, return the first matching row.
- Inserts enforce the unique indexes and foreign keys and fail the way the database does.
- A clock stands in for `new Date()`.
- `Valid` is the invariant the schema maintains: ids, emails, digests and (tenant, external id) are unique, and every reference resolves.

Several things are parameters of the operations rather than computed:
- the ids the database assigns;
- the random bytes of a new key;
- the unique key of the channel-config table (`sameSlot`).

A JSON body, query or header value is a JavaScript value (`values.dfy`). The model carries JavaScript's own tests on such values: truthiness, `typeof`, `?.`, `??`, and the `@IsOptional()` treatment of `null` and `undefined`.

The global `ValidationPipe` (src/main.ts:22-28) runs with `whitelist`, `forbidNonWhitelisted` and `transform`. The model therefore refuses unknown properties in the listing query and in the channel-config body. It also applies each payload class's declared constraints.

Module layout follows the source: `ApiKeysService`, `ApiKeysController`, `ApiKeyGuard`, `TenantsQuery`, `TenantsService`, `TenantsController`, `UsersService`, `UsersController`, `ChannelConfigDto`, `ChannelConfigsService`. Two more modules sit beside them:
- `Lifecycle` holds properties that span several services.
- `Wrappers`, `Text`, `JsValues`, `Seqs` and `Store` are the shared ground.

Two behaviours of the code worth noting:
- Suspending a tenant deactivates its keys and cancels no notifications. Only deactivating a user cancels notifications.
- A key chosen by `latest`/`oldest` among keys with the same creation time is the first in table order. The model orders tenants with the same creation time in the tenant listing the same way; the database does not promise that order (see "## Left out").

## Model

| member | source | states |
|---|---|---|
| `ApiKeysService.RawKey` | src/admin/api_keys/api-keys.service.ts:20 | the raw key is `key_` followed by two hex digits per random byte, and the bytes can be read back from it |
| `ApiKeysService.RawKeyInjective` | src/admin/api_keys/api-keys.service.ts:20-22 | different random bytes never give the same raw key, so never the same stored digest |
| `ApiKeysService.GenerateForTenant` | src/admin/api_keys/api-keys.service.ts:14-38 | NotFound "Tenant not found" for an unknown email. On success the store gains exactly one active row holding the digest of the returned raw key, owned by that tenant and created now. It succeeds whenever the tenant exists and the id and digest are fresh |
| `ApiKeysService.ValidateApiKey` | src/admin/api_keys/api-keys.service.ts:43-53 | `null` when no stored digest matches. A tenant it returns owns an active key with that digest |
| `ApiKeysService.ValidateApiKeyCharacterized` | src/admin/api_keys/api-keys.service.ts:43-53 | in a valid store, a matching active key yields its owning tenant and a matching inactive key yields `null`, never an error |
| `ApiKeysService.ParseMode` | src/admin/api_keys/api-keys.service.ts:71-117 | `all`, `latest` and `oldest` are modes; every other path value is taken as a literal key id |
| `ApiKeysService.SetTenantKeys` | src/admin/api_keys/api-keys.service.ts:72-75 | the bulk update leaves every key of the tenant in the target state, changes no other column and no other tenant's key |
| `ApiKeysService.SetTenantKeysCount` | src/admin/api_keys/api-keys.service.ts:72-78 | after the bulk update no key of the tenant is left in the opposite state, and the target state gains exactly the keys that were in it |
| `ApiKeysService.SetKeyAt` | src/admin/api_keys/api-keys.service.ts:95-98 | a single-row update changes only that row's flag |
| `ApiKeysService.NoKeysMessageAsWrittenIsInverted` | src/admin/api_keys/api-keys.service.ts:90-93 | the message as written names the state opposite to the one searched, for both directions |
| `ApiKeysService.KeyStatusByMode` | src/admin/api_keys/api-keys.service.ts:58-118 | NotFound for an unknown tenant and NotFound only. A success changes nothing but the activity flags of that tenant's keys, and every key it changes ends in the requested state |
| `ApiKeysService.UpdateKeyStatusByModeAsWritten` | src/admin/api_keys/api-keys.service.ts:58-118 | the method as written: on every input the same outcome as the corrected `UpdateKeyStatusByMode`, except that the NotFound of an empty `latest`/`oldest` carries the message as written |
| `ApiKeysService.LatestNoKeysAsWritten` | src/admin/api_keys/api-keys.service.ts:83-93 | for a tenant with no key in the searched state, `latest` as written reports that no key is in the other state, where the corrected operation names the state searched |
| `ApiKeysService.AllModeSpec` | src/admin/api_keys/api-keys.service.ts:71-80 | mode `all` always succeeds. Its count is the number of the tenant's keys that were in the opposite state, all of them end in the requested state, and the target state's count grows by that number |
| `ApiKeysService.LatestModeSpec` | src/admin/api_keys/api-keys.service.ts:83-101 | `latest` fails NotFound exactly when the tenant has no key in the opposite state, with the message naming that searched state. Otherwise it flips exactly one such key, one with the newest creation time |
| `ApiKeysService.OldestModeSpec` | src/admin/api_keys/api-keys.service.ts:83-101 | `oldest` behaves the same way, choosing a key with the oldest creation time |
| `ApiKeysService.ByIdModeSpec` | src/admin/api_keys/api-keys.service.ts:104-117 | a literal id fails NotFound exactly when no key with that id belongs to the tenant. Otherwise that key alone is set, whatever its state |
| `ApiKeysService.ByIdIdempotent` | src/admin/api_keys/api-keys.service.ts:104-117 | repeating a change by id returns the same store and reply |
| `ApiKeysService.AllModeIdempotent` | src/admin/api_keys/api-keys.service.ts:71-80 | repeating mode `all` changes nothing and reports zero keys |
| `ApiKeysService.ListTenantKeys` | src/admin/api_keys/api-keys.service.ts:123-138 | NotFound exactly for an unknown tenant. Otherwise one view per key of the tenant, newest first |
| `ApiKeysService.ListTenantKeysContents` | src/admin/api_keys/api-keys.service.ts:129-137 | a view is listed if and only if it is the view of a key the tenant owns |
| `ApiKeysController.CreateApiKey` | src/admin/api_keys/api-keys.controller.ts:24-39 | an unknown tenant fails before any key is made. The reply carries the raw key, shown once, of exactly one new active row |
| `ApiKeysController.GetTenantKeys` | src/admin/api_keys/api-keys.controller.ts:42-48 | an existing tenant's listing succeeds exactly when it owns a key and is then non-empty and newest first. Otherwise NotFound "No API keys found for this tenant" |
| `ApiKeysController.NoViewsMeansNoKeys` | src/admin/api_keys/api-keys.controller.ts:44-46 | the listing is empty exactly when the tenant owns no key |
| `ApiKeysController.DeactivateKey` | src/admin/api_keys/api-keys.controller.ts:51-61 | only the named tenant's key flags change, and every key changed ends inactive |
| `ApiKeysController.ReactivateKey` | src/admin/api_keys/api-keys.controller.ts:64-74 | only the named tenant's key flags change, and every key changed ends active |
| `ApiKeysController.DeactivateThenReactivate` | src/admin/api_keys/api-keys.controller.ts:51-74 | deactivating an active key by id and then reactivating it restores the store exactly |
| `ApiKeyGuard.CanActivate` | src/common/guards/api-key-auth.guard.ts:16-46 | a missing, empty or non-string header is Unauthorized. An admitted tenant is stored, not suspended, and owns an active key whose digest matches the header |
| `ApiKeyGuard.CheckOrder` | src/common/guards/api-key-auth.guard.ts:31-45 | in a valid store the first failing check decides: no key, then an inactive key (even of a suspended tenant), then a suspended owner. Otherwise the owner is attached |
| `ApiKeyGuard.AgreesWithValidateApiKey` | src/common/guards/api-key-auth.guard.ts:24-45 | the guard admits a key exactly when `validateApiKey` resolves it to a tenant that is not suspended, and attaches that tenant |
| `TenantsQuery.ParsePlan` | src/admin/tenants/dto/create-tenant.dto.ts:3-7 | exactly FREE, PRO and ULTRA name a plan, each its own |
| `TenantsQuery.PositiveOr` | src/admin/tenants/dto/get-tenants-query.dto.ts:14-24 | a missing value takes the default. A number is accepted exactly when it is at least 1, and anything else is refused |
| `TenantsQuery.ValidateTenantsQuery` | src/admin/tenants/dto/get-tenants-query.dto.ts:5-25 | accepted exactly when every parameter is declared and of the declared type and range. The validated query carries the given values, or the defaults 1 and 10 |
| `TenantsService.CreateTenant` | src/admin/tenants/tenants.service.ts:25-52 | a blank email is refused first, then an existing one. A success adds the tenant unsuspended, plus a first key exactly when one was asked for. It succeeds whenever the email and ids are free |
| `TenantsService.NewTenantFound` | src/admin/tenants/tenants.service.ts:35-45 | once the new tenant is stored, looking its email up finds it, so the key issued next is issued for it |
| `TenantsService.Ordered` | src/admin/tenants/tenants.service.ts:58-69 | the ordered listing has as many rows as there are matching tenants |
| `TenantsService.ListTenants` | src/admin/tenants/tenants.service.ts:55-81 | `total` counts every matching tenant, `page` and `pageSize` are echoed, and a page never holds more than `pageSize` rows |
| `TenantsService.ListTenantsPageCount` | src/admin/tenants/tenants.service.ts:78 | `totalPages` is the fewest pages of `pageSize` rows that hold `total` rows |
| `TenantsService.ListTenantsSlice` | src/admin/tenants/tenants.service.ts:63-68 | a page is the run of the newest-first order that starts at `(page - 1) * pageSize`, as long as rows last, and empty past the end |
| `TenantsService.ListTenantsSound` | src/admin/tenants/tenants.service.ts:58-68 | every listed tenant is stored and matches the plan and email filters |
| `TenantsService.ListTenantsNewestFirst` | src/admin/tenants/tenants.service.ts:67 | every page is ordered newest first |
| `TenantsService.PagesOfArePages` | src/admin/tenants/tenants.service.ts:63-68 | fetching pages 1 to n one after another gives the first n slices of the ordered listing |
| `TenantsService.ListTenantsCoversMatches` | src/admin/tenants/tenants.service.ts:55-81 | the total does not depend on the page asked for. Pages 1 to `totalPages` together list every matching tenant exactly as often as it is stored, newest first |
| `TenantsService.OrderedUniqueWhenTimesDistinct` | src/admin/tenants/tenants.service.ts:63-68 | when the matching tenants' creation times are pairwise distinct, every ordering of them by `created_at desc` is the model's order, so each page query sees the same order |
| `TenantsService.GetTenant` | src/admin/tenants/tenants.service.ts:84-90 | a found tenant is stored and has the given id or email. NotFound "TenantNotFound" exactly when none has |
| `TenantsService.TenantIndex` | src/admin/tenants/tenants.service.ts:99-102 | the row an update by email rewrites is the tenant found by that email |
| `TenantsService.UpdateTenantPlan` | src/admin/tenants/tenants.service.ts:93-109 | NotFound for an unknown tenant, Conflict when the plan is unchanged. Otherwise only that tenant's plan changes |
| `TenantsService.UpdateTenantEmail` | src/admin/tenants/tenants.service.ts:112-136 | NotFound, then Conflict when unchanged, then Conflict when another tenant uses the new email. Otherwise only that tenant's email changes |
| `TenantsService.TenantUpdatesPreserveValid` | src/admin/tenants/tenants.service.ts:93-136 | plan and email changes keep the store valid, emails unique included |
| `TenantsService.UpdateTenantSuspension` | src/admin/tenants/tenants.service.ts:139-170 | NotFound exactly for an unknown email. Otherwise only the flag changes, suspension leaves every key of the tenant inactive and touches no other tenant's keys, reactivation leaves the keys as they were, and the message names the direction |
| `TenantsService.SuspensionCascade` | src/admin/tenants/tenants.service.ts:145-158 | after suspension no key of the tenant is active and the inactive ones gained them all. Both directions keep the store valid |
| `TenantsController.TenantKeyOf` | src/admin/tenants/tenants.controller.ts:43-45 | the lookup is by email exactly when the path value contains `@`, and by id otherwise |
| `TenantsController.AtSignContained` | src/admin/tenants/tenants.controller.ts:43 | `includes('@')` holds exactly when the character `@` occurs |
| `TenantsController.GetTenantRoute` | src/admin/tenants/tenants.controller.ts:41-48 | a value with `@` finds the tenant with that email, and one without finds the tenant with that id. NotFound exactly when none matches |
| `TenantsController.ListTenantsRoute` | src/admin/tenants/tenants.controller.ts:36-39 | BadRequest exactly for an inadmissible query. Otherwise a page within bounds, with the defaults applied |
| `UsersService.UserIndex` | src/public/users/users.service.ts:53-60 | the user found is the tenant's user with that external id. None exactly when there is no such user |
| `UsersService.CreateUser` | src/public/users/users.service.ts:14-45 | an empty external id is BadRequest, then an existing one in the same tenant is Conflict. A success adds one active user created now |
| `UsersService.ExternalIdScopedToTenant` | src/public/users/users.service.ts:19-30 | an external id used in one tenant is no duplicate in another |
| `UsersService.CancelPending` | src/public/users/users.service.ts:71-79 | exactly the user's QUEUED and SENDING notifications become CANCELED, and no other field or row changes |
| `UsersService.SetActiveState` | src/public/users/users.service.ts:48-83 | `null` exactly when the tenant has no such user. Otherwise only the user's flag changes, plus, on deactivation, the cancellation of its pending notifications |
| `UsersService.DeactivationCascade` | src/public/users/users.service.ts:64-80 | after deactivation none of the user's notifications is pending, no other notification changes, and the store stays valid |
| `UsersService.ReactivationOnlyFlag` | src/public/users/users.service.ts:64-67 | reactivation changes only the user's flag and keeps the store valid |
| `UsersService.HardDeleteUser` | src/public/users/users.service.ts:86-106 | `null` exactly when there is no such user. Otherwise the user, its subscriptions and its notifications are gone, nothing else is added, and only those three tables change |
| `UsersService.HardDeleteKeepsOthers` | src/public/users/users.service.ts:98-103 | every row not tied to the user survives as often as it was stored. Nothing refers to the deleted user, and the store stays valid |
| `UsersService.FilterUsersUnique` | src/public/users/users.service.ts:103 | removing users keeps ids and (tenant, external id) pairs unique |
| `UsersController.SetActiveStateRoute` | src/public/users/users.controller.ts:34-58 | a body value that is not a boolean is BadRequest before any lookup. Then NotFound exactly when the user is missing. Otherwise the user ends in the given state and the reply echoes it |
| `UsersController.DeleteUserRoute` | src/public/users/users.controller.ts:61-89 | `force` equal to the string `true` hard-deletes and anything else deactivates. NotFound exactly when the user is missing, and the reply says which delete happened |
| `UsersController.HardDeleteIsFinal` | src/public/users/users.controller.ts:68-78 | after a hard delete, deleting or (de)activating the same user fails NotFound |
| `UsersController.SoftDeleteIdempotent` | src/public/users/users.controller.ts:80-88 | a soft delete keeps the user, inactive, and repeating it changes nothing |
| `ChannelConfigDto.ValidateAsWritten` | src/public/channels-configs/dto/create-channel-config.dto.ts:48-65 | as written, a body is accepted exactly when its properties are declared, the channel is EMAIL or EXPO_PUSH, that channel's nested value is an object and `allowOverrides` is absent or boolean |
| `ChannelConfigDto.Validate` | src/public/channels-configs/dto/create-channel-config.dto.ts:19-65 | with the nested classes applied, a body is accepted exactly when the checks above hold and the nested object meets its class: a non-empty host and sender, a port in 1..65535, optional string user and password, a non-empty project id, and no undeclared fields |
| `ChannelConfigDto.NestedConstraintsSkipped` | src/public/channels-configs/dto/create-channel-config.dto.ts:52-60 | an EMAIL body with a numeric host and a string port passes the pipe as written and fails the corrected one |
| `ChannelConfigsService.IsEmailConfig` | src/public/channels-configs/channel-configs.service.ts:45-52 | holds exactly for a plain object with a string host, a numeric port and a string sender |
| `ChannelConfigsService.IsExpoConfig` | src/public/channels-configs/channel-configs.service.ts:54-56 | holds exactly for a plain object with a string project id |
| `JsValues.IsRecord` | src/public/channels-configs/channel-configs.service.ts:41-43 | exactly the plain objects pass: not `null`, not an array, not a primitive |
| `ChannelConfigsService.ToConfigJson` | src/public/channels-configs/channel-configs.service.ts:97-123 | EMAIL succeeds exactly with a truthy host, port and sender (port 0 refused) and keeps exactly the five fields, with `null` for a missing user or password. EXPO_PUSH succeeds exactly with a truthy project id and keeps only it. Any other channel is "BadRequest: unsupported channel" |
| `ChannelConfigsService.SanitizeConfig` | src/public/channels-configs/channel-configs.service.ts:125-149 | only the JSON changes. An EMAIL row passing `isEmailConfig` keeps every field but the password, which becomes the mask when truthy and `null` otherwise. Every other row is returned unchanged |
| `ChannelConfigsService.SanitizeIdempotent` | src/public/channels-configs/channel-configs.service.ts:125-149 | sanitizing twice is sanitizing once |
| `ChannelConfigsService.CreateForTenant` | src/public/channels-configs/channel-configs.service.ts:62-95 | a bad config fails before the store is touched. A unique violation becomes Conflict "ConfigExists" exactly when the slot is taken. `allowOverrides` defaults to false. The reply is the sanitized new row |
| `ChannelConfigsService.CreateKeepsValid` | src/public/channels-configs/channel-configs.service.ts:66-81 | an accepted insert keeps the store valid |
| `ChannelConfigsService.CreateRouteAsWritten` | src/public/channels-configs/channel-configs.controller.ts:34-40 | the guard decides first and the pipe as written second, and then the service runs for the guard's tenant |
| `ChannelConfigsService.CreateRoute` | src/public/channels-configs/channel-configs.controller.ts:34-40 | with the nested classes validated, every reply masks the password, and every stored EMAIL config has a numeric port in 1..65535 |
| `ChannelConfigsService.PasswordEchoedAsWritten` | src/public/channels-configs/channel-configs.service.ts:125-149 | with validation as written, a string port gets past `isEmailConfig`'s mask and the reply carries the password in clear |
| `Lifecycle.CreateTenantKeepsValid` | src/admin/tenants/tenants.service.ts:35-47 | creating a tenant, with or without its first key, keeps the store valid |
| `Lifecycle.GenerateKeepsValid` | src/admin/api_keys/api-keys.service.ts:24-32 | issuing a key keeps the store valid |
| `Lifecycle.CreateUserKeepsValid` | src/public/users/users.service.ts:32-42 | creating a user keeps the store valid |
| `Lifecycle.IssuedKeyAdmitted` | src/admin/api_keys/api-keys.service.ts:14-53 | the raw key returned at issue time validates to its tenant, and the guard admits it unless that tenant is suspended |
| `Lifecycle.SuspensionLocksKeys` | src/admin/tenants/tenants.service.ts:150-163 | once the tenant is suspended, the guard refuses each of its keys as inactive, and still does after the tenant is reactivated |
| `Text.Trim` | src/admin/tenants/tenants.service.ts:28 | the trimmed email is empty exactly when the email is all whitespace |
| `Text.UnhexHex` | src/admin/api_keys/api-keys.service.ts:20 | hex encoding of bytes can be decoded back to the same bytes |
| `JsValues.Coalesce` | src/public/channels-configs/channel-configs.service.ts:108-109 | `v ?? d` is `d` exactly when `v` is `null` or `undefined` (or already `d`), and `v` otherwise |
| `Seqs.SortDesc` | src/admin/api_keys/api-keys.service.ts:136 | `orderBy ... 'desc'`: the result is ordered by the key, largest first, and is a permutation of the input |
| `Seqs.SortedDescUnique` | src/admin/tenants/tenants.service.ts:63-68 | when no two elements share a key, two largest-first orders of the same elements are the same sequence |
| `Seqs.CeilDiv` | src/admin/tenants/tenants.service.ts:78 | `Math.ceil(a / b)`: the fewest multiples of `b` that reach `a` |
| `Seqs.PagesArePrefix` | src/admin/tenants/tenants.service.ts:65-66 | pages 1 to n put together are the first `n * size` rows, or all of them |
| `Seqs.IndexOfMax` | src/admin/api_keys/api-keys.service.ts:85-88 | the index found is a matching row whose key no other matching row exceeds. None exactly when no row matches |
| `Seqs.Paginate` | src/admin/tenants/tenants.service.ts:65-66 | `skip`/`take`: at most `take` rows, each the row `skip` places further on, as many as remain |
| `Seqs.PagesCoverAll` | src/admin/tenants/tenants.service.ts:65-66 | `ceil(n / size)` consecutive pages put together give back the whole sequence |

## Left out

- Logging and other I/O. `console.log` calls are dropped. `adminUserId` in `createTenant` is only logged, so it is an unused parameter.
- Admin authentication (the JWT guard and the login service) is not part of this model. The admin routes are modelled as already authenticated.
- Delegating routes are covered by the service function they call and have no function of their own: the tenant routes create (tenants.controller.ts:30-34), plan (50-56), email (58-64), POST `:email/api-keys` (66-69) and suspend (71-77), and the user route create (users.controller.ts:24-31).
- Request bodies of the update routes (`UpdateTenantPlanDto`, `UpdateTenantEmailDto`, `UpdateTenantSuspensionDto`, `CreateUserDto`, `CreateTenantDto`) are taken as already-validated typed parameters. Only `CreateTenantDto`'s plan enum is used.
- Query text to number conversion. The `@Type(() => Number)` conversion of query text is not modelled: `page` and `pageSize` arrive as values already converted, and numbers are integers. A `null` query value is treated like an absent one.
- Validation messages. class-validator's message texts are approximated, and the unknown-property message omits the property name.
- Case folding. The case-insensitive `contains` filter folds ASCII letters only. Database collation and Unicode case folding are not modelled.
- Hashing and randomness. SHA-256 is modelled as an injective digest (`Store.Hash`); digest collisions and the hex text of the digest are not modelled. `randomBytes`, database-assigned UUIDs and timestamps are parameters or the store's clock.
- Partial writes. A request that fails midway is modelled as failing whole, with the store unchanged. The source can leave partial writes behind: a tenant created whose key insert then fails, or a user updated whose notification update then fails.
- Concurrency. `Promise.all` in the listing and races between a pre-check and the write are not modelled; each request runs alone against the store.
- The channel-config table's unique key is not part of this model: `sameSlot` says which rows collide.
- `TenantsService.Ordered`: its contract gives only the length; what it holds and its order are stated by `TenantsService.ListTenantsCoversMatches` and `TenantsService.ListTenantsNewestFirst`.
- `ApiKeysService.ValidateApiKey`: a key whose tenant row is missing is modelled as an unhandled relation fault; in a valid store it cannot happen.
- `ApiKeysService.UpdateKeyStatusByMode`, and the routes `ApiKeysController.DeactivateKey` and `ApiKeysController.ReactivateKey` built on it, answer an empty `latest`/`oldest` with the corrected message naming the state searched. The message the code as written returns is modelled by `ApiKeysService.UpdateKeyStatusByModeAsWritten` (see Findings).
- `TenantsService.ListTenantsCoversMatches` and `TenantsService.PagesOfArePages` rely on one fixed order among tenants with equal `created_at`. Each page is a separate query, and PostgreSQL does not promise the same order of equal rows across `OFFSET` queries, so where such a tie spans a page boundary the source can list a tenant twice or not at all. `TenantsService.OrderedUniqueWhenTimesDistinct` shows that the two lemmas hold whatever order the database picks when creation times are distinct.
- `UsersService.CreateUser`: the new user is active because the schema gives `isActive` a default of `true`. The schema is not part of this model.

## Findings

| source | as written | input that shows it | evidently intended | confidence | as-written member | corrected member |
|---|---|---|---|---|---|---|
| src/public/channels-configs/dto/create-channel-config.dto.ts:52-60 | `email` and `expoPush` carry `@IsObject()` only, with no `@ValidateNested()` or `@Type()`, so the constraints of `EmailConfigDto` and `ExpoPushConfigDto` never run | body `{channel: "EMAIL", email: {smtpHost: 1, smtpPort: "587", from: "noreply@example.com", pass: "secret"}}` is accepted. The stored JSON then fails `isEmailConfig`, so `sanitizeConfig` returns `pass: "secret"` in clear; a port of 70000 is accepted as well | nested objects validated against their classes: port in 1..65535, non-empty strings, no undeclared fields. Every reply masks the password | not executed; high | `ChannelConfigDto.ValidateAsWritten`, `ChannelConfigsService.PasswordEchoedAsWritten` | `ChannelConfigDto.Validate`, `ChannelConfigsService.CreateRoute` |
| src/admin/api_keys/api-keys.service.ts:90-93 | the NotFound message of `latest`/`oldest` is `No ${!isActive ? 'inactive' : 'active'} keys found`, naming the state the key would be moved to | deactivating `latest` for a tenant whose keys are all inactive searches for active keys and reports "No inactive keys found" | the message names the state searched: "No active keys found" when deactivating | not executed; medium | `ApiKeysService.UpdateKeyStatusByModeAsWritten`, `ApiKeysService.LatestNoKeysAsWritten` | `ApiKeysService.UpdateKeyStatusByMode`, `ApiKeysService.LatestModeSpec` |

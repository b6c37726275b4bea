# LDAP user-details context mapper — a Dafny model

This project models the identity-reconciliation policy of
`LdapUserDetailsContextMapper`. It runs after an LDAP bind has succeeded and
makes three decisions:

- **Authority → group translation** (`mapLdapAuthoritiesToGroups`). Each LDAP
  authority has its spaces replaced by dots. The result is looked up under
  `ldap.group.mapping.<name>`, which holds an array of portal group names. Each
  name is trimmed and resolved to a portal group, and null resolutions are
  dropped. When `ldap.group.assign.default` is on and `ldap.group.default` is
  non-empty, the default group is appended last.
- **Group find-or-create** (`getPortalGroup`). A stored group is returned as it
  is. A missing group is created with `Role.USER` when `ldap.group.create` is
  on. Its description names the originating authority, or is `""` for the
  default group. Otherwise the result is null. A refused creation is a fatal
  `FoundationRuntimeException`.
- **User resolution** (`mapUserFromContext`, `registerUser`):
  - A known user is returned unchanged in authenticate-only mode.
  - Otherwise, with group update on, the user's groups are overwritten with the
    translated groups and persisted.
  - An unknown user is rejected, or registered with a generated password, the
    configured enabled flag and the translated groups. Registration needs at
    least one group.
  - Finally the session copy can be force-enabled.
- Writing back to the directory (`mapUserToContext`) always fails.

Files:

- `types.dfy` (module `LdapTypes`): groups, users, the configuration source and
  the exception kinds, as datatypes.
- `strings.dfy` (module `JavaStrings`): `String.replace(' ', '.')`, `String.trim()`
  and `StringUtils.isEmpty`.
- `stores.dfy` (module `Stores`): map-backed stand-ins for the user and group
  business services, as classes with `map` fields.
- `group_mapping.dfy` (module `GroupMapping`): translation and group resolution
  as functions over the group store, with the lemmas about them.
- `context_mapper.dfy` (module `ContextMapper`): the mapper as a class. Its
  methods change the two stores and are proved against the functions of
  `GroupMapping`.

Each translation function returns its result together with the group store it
leaves behind. A group created before a fatal error therefore stays created,
as it does in the source. The configuration keys are the `ldap.*` keys the
code reads.

## Model

| member | source | states |
|---|---|---|
| JavaStrings.ReplaceSpaces | src/main/java/com/backbase/extensions/security/ldap/LdapUserDetailsContextMapper.java:210 | the result has the input's length, every space becomes a dot, every other character is kept, and no space remains |
| JavaStrings.TrimIsJavaTrim | src/main/java/com/backbase/extensions/security/ldap/LdapUserDetailsContextMapper.java:217 | `Trim` gives a factor of the input with only white space (chars up to U+0020) before and after it; the result neither starts nor ends with white space; it is empty exactly when the input is all white space |
| GroupMapping.DefaultGroupName | src/main/java/com/backbase/extensions/security/ldap/LdapUserDetailsContextMapper.java:231-236 | there is a default group name exactly when `ldap.group.assign.default` is on (off when absent) and `ldap.group.default` is neither null nor ""; the name is then that string |
| GroupMapping.MappingKey | src/main/java/com/backbase/extensions/security/ldap/LdapUserDetailsContextMapper.java:210-211 | the lookup key is "ldap.group.mapping." followed by the authority with each space replaced by a dot, character for character |
| GroupMapping.ResolveGroupOutcomes | src/main/java/com/backbase/extensions/security/ldap/LdapUserDetailsContextMapper.java:248-284 | stored name: that group, store unchanged; missing with auto-create and accepted: a new USER-role group under that name is inserted, with an empty description without an authority and one that names the group and ends with the authority otherwise; missing without auto-create: null, store unchanged; refused creation: FoundationRuntime, store unchanged |
| GroupMapping.ResolveNamesStopsAtFailure | src/main/java/com/backbase/extensions/security/ldap/LdapUserDetailsContextMapper.java:216-223 | once resolving a configured name fails, the later names are not resolved: the outcome and store are those at the failure |
| GroupMapping.ResolveAuthoritiesStopsAtFailure | src/main/java/com/backbase/extensions/security/ldap/LdapUserDetailsContextMapper.java:206-227 | once an authority's resolution fails, later authorities are not processed: the outcome and store are those at the failure |
| GroupMapping.ResolveAuthoritiesAppend | src/main/java/com/backbase/extensions/security/ldap/LdapUserDetailsContextMapper.java:204-227 | translating authorities a1 + a2 gives a1's groups followed by a2's groups, with a2 resolved against the store a1 left |
| GroupMapping.ResolveAuthoritiesFirst | src/main/java/com/backbase/extensions/security/ldap/LdapUserDetailsContextMapper.java:204-227 | the first authority's groups come first, in configured-name order, then the groups of the remaining authorities |
| GroupMapping.ResolveNamesAppend | src/main/java/com/backbase/extensions/security/ldap/LdapUserDetailsContextMapper.java:216-223 | resolving names n1 + n2 gives n1's groups followed by n2's groups, so groups keep configured order |
| GroupMapping.ResolveNamesReadOnly | src/main/java/com/backbase/extensions/security/ldap/LdapUserDetailsContextMapper.java:215-223 | without auto-creation the names of one authority yield exactly the stored groups of their trimmed forms, in order and with repetitions, and the store is unchanged |
| GroupMapping.ResolveAuthoritiesReadOnly | src/main/java/com/backbase/extensions/security/ldap/LdapUserDetailsContextMapper.java:203-230 | without auto-creation the authorities yield exactly the stored groups of their configured names, authority by authority, and the store is unchanged |
| GroupMapping.TranslateReadOnly | src/main/java/com/backbase/extensions/security/ldap/LdapUserDetailsContextMapper.java:197-246 | without auto-creation translation equals the independent lookup definition, followed by the default group when it is stored |
| GroupMapping.ResolveNamesComplete | src/main/java/com/backbase/extensions/security/ldap/LdapUserDetailsContextMapper.java:215-221 | with auto-creation on, an authority's names that resolve without failure yield exactly one group per configured name, in order and with repetitions, each the group stored under the trimmed name |
| GroupMapping.ResolveAuthoritiesComplete | src/main/java/com/backbase/extensions/security/ldap/LdapUserDetailsContextMapper.java:203-227 | with auto-creation on, authorities that resolve without failure yield, authority by authority, the stored group of every configured name, and every such name ends up stored |
| GroupMapping.TranslateComplete | src/main/java/com/backbase/extensions/security/ldap/LdapUserDetailsContextMapper.java:197-246 | with auto-creation on, a translation without failure yields the group of every configured name of every authority, in order, then the default group when one is configured; every one of them ends up stored |
| GroupMapping.DuplicatesKept | src/main/java/com/backbase/extensions/security/ldap/LdapUserDetailsContextMapper.java:215-221 | a name configured twice is resolved twice with no de-duplication: a stored group comes back twice; a missing one is created by the first copy and found by the second, so the new group comes back twice; without auto-creation both copies are dropped; a refused creation fails at the first copy |
| GroupMapping.TranslateWithoutAuthorities | src/main/java/com/backbase/extensions/security/ldap/LdapUserDetailsContextMapper.java:201-245 | with a null or empty authority collection: [] when no default is configured; [default group] when it is stored, or when it is missing and gets created (the store then gains it); [] when it is missing and auto-creation is off; FoundationRuntime when the store refuses its creation |
| GroupMapping.DefaultGroupLast | src/main/java/com/backbase/extensions/security/ldap/LdapUserDetailsContextMapper.java:231-245 | without a configured default the result is exactly the authority groups; with one, the default group is appended after all authority groups when it is stored or created (created with description ""), and is left out only when it is missing and auto-creation is off |
| GroupMapping.TranslateOnlyAddsGroups | src/main/java/com/backbase/extensions/security/ldap/LdapUserDetailsContextMapper.java:255-281 | translation never removes or changes a stored group; every group it adds was auto-created under its own name with the USER role, with auto-creation on and the store accepting it |
| GroupMapping.TranslateStored | src/main/java/com/backbase/extensions/security/ldap/LdapUserDetailsContextMapper.java:217-220 | every returned group is the stored group of its name, and the store stays keyed by name |
| GroupMapping.TranslateProvenance | src/main/java/com/backbase/extensions/security/ldap/LdapUserDetailsContextMapper.java:208-237 | every returned group is named by the trimmed form of a name configured under the mapping key of one of the authorities, or is the default group |
| GroupMapping.TranslateFailure | src/main/java/com/backbase/extensions/security/ldap/LdapUserDetailsContextMapper.java:215-237 | a failure happens only with auto-creation on, is FoundationRuntime, and names a refused creation: the trimmed form of a name configured for one of the authorities, or the default group name, is among the names the store refuses; unmapped authorities and names that merely do not resolve never fail |
| ContextMapper.SetEmail | src/main/java/com/backbase/extensions/security/ldap/LdapUserDetailsContextMapper.java:183-188 | a null email changes nothing; otherwise the "email" property holds that email as a string property; no other property or field changes |
| ContextMapper.SessionView | src/main/java/com/backbase/extensions/security/ldap/LdapUserDetailsContextMapper.java:136-138 | the session copy is enabled when the stored user is enabled or the session flag is set, and is otherwise the stored user |
| ContextMapper.LdapUserDetailsContextMapper.constructor | src/main/java/com/backbase/extensions/security/ldap/LdapUserDetailsContextMapper.java:60-74 | each of the eight policy flags is the configured boolean under its key, or its default (create flags and user enable true, the rest false); the mapper is ready for use when both stores are |
| ContextMapper.LdapUserDetailsContextMapper.GetPortalGroup | src/main/java/com/backbase/extensions/security/ldap/LdapUserDetailsContextMapper.java:248-284 | the result and the new group store are exactly those of ResolveGroup on the old store |
| ContextMapper.LdapUserDetailsContextMapper.MapLdapAuthoritiesToGroups | src/main/java/com/backbase/extensions/security/ldap/LdapUserDetailsContextMapper.java:197-246 | the loop's result and the new group store are exactly those of Translate on the old store |
| ContextMapper.LdapUserDetailsContextMapper.MapAuthorityToGroups | src/main/java/com/backbase/extensions/security/ldap/LdapUserDetailsContextMapper.java:207-226 | one authority's pass over its configured names yields exactly ResolveNames for the names under its mapping key |
| ContextMapper.LdapUserDetailsContextMapper.RegisterUser | src/main/java/com/backbase/extensions/security/ldap/LdapUserDetailsContextMapper.java:146-170 | the new user has the given name and password, the configured enabled flag, the translated groups and no properties, and is stored; a store failure is FoundationRuntime with the user store unchanged |
| ContextMapper.LdapUserDetailsContextMapper.MapUserFromContext | src/main/java/com/backbase/extensions/security/ldap/LdapUserDetailsContextMapper.java:79-144 | groups created by translation persist in every outcome, and a failed translation is raised before any user lookup. A known user in authenticate-only mode or without group update is returned as stored. With group update, its groups become exactly the translated groups and are persisted, or a read-only or data failure gives ServiceError. An unknown user gives CredentialsNotFound without auto-create and ServiceError with no groups (no user stored in either case); otherwise it is registered, or, when the store refuses the new user, FoundationRuntime with the user store unchanged. The session flag force-enables only the returned copy |
| ContextMapper.LdapUserDetailsContextMapper.MapUserToContext | src/main/java/com/backbase/extensions/security/ldap/LdapUserDetailsContextMapper.java:193-195 | always fails with IllegalState, for every input |

## Left out

- Logging and diagnostics (`debugLdapAttributes`, `debugUserAuthorities`, every `LOG` call) have no behavioural effect and are not modelled.
- `mapLdapAttributes` has an empty body in the source. It is modelled as the identity and called where the source calls it. The directory context it would read is not modelled.
- The password comes from `UUID.randomUUID()`. It is a parameter of `MapUserFromContext`, so the claim that it differs on every call is not modelled.
- Spring Security, `DirContextOperations`, `BackbaseConfiguration` and the two business services are foreign code. The configuration is a datatype of three maps. The services are map-backed classes. Which writes the real services refuse is unknown, so each store is given its refused names and a read-only flag as data.
- How `User.getAuthorities()` is derived from groups is not modelled.
- Concurrent first logins are not modelled. An "already exists" answer from the store is the fatal error the source raises.
- The portal `User` type is not part of this model. Its group collection is modelled as a set (membership only). The translated list stays a sequence and keeps duplicates.
- Users are values, not shared objects. The clear-and-add of groups and the session `setEnabled(true)` act on a copy. Only `createUser` and `updateUser` change the store. If the real service hands out the stored object itself, the session flag could leak into the store; this model does not capture that aliasing.
- `Role` has only two cases here: `USER`, and one case standing for all other roles, which the source never assigns.
- The body of the authority loop in `mapLdapAuthoritiesToGroups` is the separate method `MapAuthorityToGroups`, so that each loop is proved on its own.
- `updateUser` raising `ItemNotFoundException` would reach the not-found handler. The method models that branch, but the map-backed store never takes it, because the user was just found.
- A null authority name, and null entries in a configured name array, would raise `NullPointerException` in the source. Authorities and names are non-null strings here.
- MapUserFromContext: its contract does not mention the unreachable path above, and it does not describe the attribute-mapping calls, which change nothing.

/**
 * Translation of LDAP authorities into portal groups, as functions over the
 * group store. Each function returns its result together with the group store
 * it leaves behind, because resolving a name may create a group, and a group
 * created before a failure stays created.
 *
 * The lists are built by appending at the end, the way the mapper's loops do,
 * so each function is defined by its LAST input; the lemmas at the end of the
 * module give the front-to-back reading (authority order, then configured
 * order) and the properties the mapper promises.
 */
module GroupMapping {
  import opened LdapTypes
  import opened JavaStrings

  const MappingPrefix: string := "ldap.group.mapping."
  const AssignDefaultKey: string := "ldap.group.assign.default"
  const DefaultGroupKey: string := "ldap.group.default"

  /** What translation depends on besides the group store and the authorities. */
  datatype Env = Env(config: Configuration, autoCreateGroup: bool, rejected: set<string>)

  /** A result together with the group store left behind. */
  datatype Resolved<+T> = Resolved(result: Result<T, Failure>, groups: map<string, Group>)

  /**
   * The configuration key for an authority: the mapping prefix followed by the
   * authority with each space replaced by a dot.
   */
  function MappingKey(authority: string): (key: string)
    ensures |key| == |MappingPrefix| + |authority|
    ensures key[..|MappingPrefix|] == MappingPrefix
    ensures forall k | 0 <= k < |authority| ::
              key[|MappingPrefix| + k] == (if authority[k] == ' ' then '.' else authority[k])
  {
    MappingPrefix + ReplaceSpaces(authority)
  }

  /** The portal group names configured for an authority; none when the key is absent. */
  function MappedNames(c: Configuration, authority: string): seq<string> {
    match GetStringArray(c, MappingKey(authority))
    case None => []
    case Some(names) => names
  }

  /** The group `getPortalGroup` creates for a missing name. */
  function NewGroup(name: string, authority: Option<string>): Group {
    var description :=
      match authority
      case Some(a) => "Group " + name + " created automatically form LDAP Authority: " + a
      case None => "";
    Group(name, description, UserRole)
  }

  /**
   * `getPortalGroup`: the stored group; else, when auto-creation is on, a new
   * group that is stored (or a fatal error when the store refuses it); else null.
   */
  function ResolveGroup(env: Env, groups: map<string, Group>, name: string, authority: Option<string>)
    : Resolved<Option<Group>>
  {
    if name in groups then Resolved(Ok(Some(groups[name])), groups)
    else if !env.autoCreateGroup then Resolved(Ok(None), groups)
    else if name in env.rejected then Resolved(Err(FoundationRuntime(FoundationData)), groups)
    else Resolved(Ok(Some(NewGroup(name, authority))), groups[name := NewGroup(name, authority)])
  }

  /**
   * The four outcomes of `getPortalGroup`: a stored group is returned and the
   * store is left alone; a missing group is created with the USER role when
   * auto-creation is on and the store accepts it; otherwise the result is null
   * (auto-creation off) or a fatal error (creation refused), and the store is
   * left alone.
   */
  lemma ResolveGroupOutcomes(env: Env, groups: map<string, Group>, name: string, authority: Option<string>)
    ensures var r := ResolveGroup(env, groups, name, authority);
            && (name in groups ==> r == Resolved(Ok(Some(groups[name])), groups))
            && (name !in groups && !env.autoCreateGroup ==> r == Resolved(Ok(None), groups))
            && (name !in groups && env.autoCreateGroup && name !in env.rejected ==>
                  && r.result.Ok? && r.result.value.Some?
                  && var g := r.result.value.value;
                  && g.name == name && g.role == UserRole
                  && r.groups == groups[name := g]
                  && (authority.None? ==> g.description == "")
                  && (authority.Some? ==> DescribesAuthority(g.description, name, authority.value)))
            && (name !in groups && env.autoCreateGroup && name in env.rejected ==>
                  r == Resolved(Err(FoundationRuntime(FoundationData)), groups))
  {
  }

  /** The description starts by naming the group and ends with the authority it was created for. */
  ghost predicate DescribesAuthority(description: string, name: string, authority: string) {
    var head := "Group " + name;
    |description| >= |head| + |authority| &&
    description[..|head|] == head &&
    description[|description| - |authority|..] == authority
  }

  /** Adds one resolution to a list built so far: a group is appended, a null is dropped. */
  function Add(acc: seq<Group>, one: Resolved<Option<Group>>): Resolved<seq<Group>> {
    match one.result
    case Err(e) => Resolved(Err(e), one.groups)
    case Ok(None) => Resolved(Ok(acc), one.groups)
    case Ok(Some(g)) => Resolved(Ok(acc + [g]), one.groups)
  }

  /** The inner loop: resolves each configured name, trimmed, on behalf of `authority`. */
  function ResolveNames(env: Env, groups: map<string, Group>, authority: string, names: seq<string>)
    : Resolved<seq<Group>>
    decreases |names|
  {
    if names == [] then Resolved(Ok([]), groups)
    else NameStep(env, ResolveNames(env, groups, authority, names[..|names| - 1]), authority, names[|names| - 1])
  }

  /** One pass of the inner loop: resolve the trimmed `name` unless an earlier pass failed. */
  function NameStep(env: Env, prev: Resolved<seq<Group>>, authority: string, name: string): Resolved<seq<Group>> {
    if prev.result.Err? then prev
    else Add(prev.result.value, ResolveGroup(env, prev.groups, Trim(name), Some(authority)))
  }

  /** The outer loop: the groups of each authority, in authority order. */
  function ResolveAuthorities(env: Env, groups: map<string, Group>, authorities: seq<string>)
    : Resolved<seq<Group>>
    decreases |authorities|
  {
    if authorities == [] then Resolved(Ok([]), groups)
    else AuthorityStep(env, ResolveAuthorities(env, groups, authorities[..|authorities| - 1]), authorities[|authorities| - 1])
  }

  /** One pass of the outer loop: resolve the names mapped for `a` unless an earlier pass failed. */
  function AuthorityStep(env: Env, prev: Resolved<seq<Group>>, a: string): Resolved<seq<Group>> {
    if prev.result.Err? then prev
    else Then(prev.result.value, ResolveNames(env, prev.groups, a, MappedNames(env.config, a)))
  }

  /** Appends a list resolved later to a list resolved earlier. */
  function Then(acc: seq<Group>, next: Resolved<seq<Group>>): Resolved<seq<Group>> {
    match next.result
    case Err(e) => next
    case Ok(gs) => Resolved(Ok(acc + gs), next.groups)
  }

  /**
   * The configured default group name: there is one exactly when
   * `ldap.group.assign.default` is on (it is off when absent) and
   * `ldap.group.default` is neither null nor "", and it is that string.
   */
  function DefaultGroupName(c: Configuration): (name: Option<string>)
    ensures name.None? <==>
              || !GetBoolean(c, AssignDefaultKey, false)
              || GetString(c, DefaultGroupKey) == None
              || GetString(c, DefaultGroupKey) == Some("")
    ensures name.Some? ==> name == GetString(c, DefaultGroupKey) && name.value != ""
  {
    if !GetBoolean(c, AssignDefaultKey, false) then None
    else
      var name := GetString(c, DefaultGroupKey);
      if IsEmpty(name) then None else name
  }

  /**
   * `mapLdapAuthoritiesToGroups`: the groups of all authorities (none for a null
   * or empty collection), then the default group when one is configured.
   */
  function Translate(env: Env, groups: map<string, Group>, authorities: Option<seq<string>>)
    : Resolved<seq<Group>>
  {
    var claims := if authorities.Some? then authorities.value else [];
    var base := ResolveAuthorities(env, groups, claims);
    if base.result.Err? then base
    else
      match DefaultGroupName(env.config)
      case None => base
      case Some(name) => Add(base.result.value, ResolveGroup(env, base.groups, name, None))
  }

  // ---------------------------------------------------------------------------
  // Failures stop the loops

  lemma {:induction false} ResolveNamesStopsAtFailure(
    env: Env, groups: map<string, Group>, authority: string, names: seq<string>, j: nat)
    requires j <= |names|
    requires ResolveNames(env, groups, authority, names[..j]).result.Err?
    ensures ResolveNames(env, groups, authority, names) == ResolveNames(env, groups, authority, names[..j])
    decreases |names| - j
  {
    if j < |names| {
      var init := names[..|names| - 1];
      assert init[..j] == names[..j];
      ResolveNamesStopsAtFailure(env, groups, authority, init, j);
    } else {
      assert names[..j] == names;
    }
  }

  lemma {:induction false} ResolveAuthoritiesStopsAtFailure(
    env: Env, groups: map<string, Group>, authorities: seq<string>, i: nat)
    requires i <= |authorities|
    requires ResolveAuthorities(env, groups, authorities[..i]).result.Err?
    ensures ResolveAuthorities(env, groups, authorities) == ResolveAuthorities(env, groups, authorities[..i])
    decreases |authorities| - i
  {
    if i < |authorities| {
      var init := authorities[..|authorities| - 1];
      assert init[..i] == authorities[..i];
      ResolveAuthoritiesStopsAtFailure(env, groups, init, i);
    } else {
      assert authorities[..i] == authorities;
    }
  }

  // ---------------------------------------------------------------------------
  // Order: authority-iteration order, then configured-name order

  /** Resolving `a1` and then `more` against the store `a1` left. */
  function AuthoritiesThen(env: Env, first: Resolved<seq<Group>>, more: seq<string>): Resolved<seq<Group>> {
    if first.result.Err? then first
    else Then(first.result.value, ResolveAuthorities(env, first.groups, more))
  }

  /** Resolving `a1 + a2` resolves `a1` first and then `a2` against the store `a1` left. */
  lemma {:induction false} ResolveAuthoritiesAppend(
    env: Env, groups: map<string, Group>, a1: seq<string>, a2: seq<string>)
    ensures ResolveAuthorities(env, groups, a1 + a2) ==
            AuthoritiesThen(env, ResolveAuthorities(env, groups, a1), a2)
    decreases |a2|
  {
    if a2 == [] {
      AuthoritiesThenNothing(env, ResolveAuthorities(env, groups, a1));
      assert a1 + a2 == a1;
    } else {
      var init := a2[..|a2| - 1];
      ResolveAuthoritiesAppend(env, groups, a1, init);
      AuthoritiesAppendStep(env, groups, a1, a2);
    }
  }

  lemma AuthoritiesThenNothing(env: Env, first: Resolved<seq<Group>>)
    ensures AuthoritiesThen(env, first, []) == first
  {
    if first.result.Ok? {
      assert first.result.value + [] == first.result.value;
    }
  }

  lemma AuthoritiesAppendStep(env: Env, groups: map<string, Group>, a1: seq<string>, a2: seq<string>)
    requires a2 != []
    requires ResolveAuthorities(env, groups, a1 + a2[..|a2| - 1]) ==
             AuthoritiesThen(env, ResolveAuthorities(env, groups, a1), a2[..|a2| - 1])
    ensures ResolveAuthorities(env, groups, a1 + a2) ==
            AuthoritiesThen(env, ResolveAuthorities(env, groups, a1), a2)
  {
    var first := ResolveAuthorities(env, groups, a1);
    var init, a := a2[..|a2| - 1], a2[|a2| - 1];
    var whole := a1 + a2;
    assert whole[..|whole| - 1] == a1 + init && whole[|whole| - 1] == a;
    ResolveAuthoritiesLast(env, groups, whole);
    if first.result.Ok? {
      var m := ResolveAuthorities(env, first.groups, init);
      ResolveAuthoritiesLast(env, first.groups, a2);
      AuthorityStepThen(env, first.result.value, m, a);
    }
  }

  lemma ResolveAuthoritiesLast(env: Env, groups: map<string, Group>, authorities: seq<string>)
    requires authorities != []
    ensures ResolveAuthorities(env, groups, authorities) ==
            AuthorityStep(env, ResolveAuthorities(env, groups, authorities[..|authorities| - 1]),
                          authorities[|authorities| - 1])
  {
  }

  lemma AuthorityStepThen(env: Env, acc: seq<Group>, m: Resolved<seq<Group>>, a: string)
    ensures AuthorityStep(env, Then(acc, m), a) == Then(acc, AuthorityStep(env, m, a))
  {
    if m.result.Ok? {
      var n := ResolveNames(env, m.groups, a, MappedNames(env.config, a));
      if n.result.Ok? {
        assert (acc + m.result.value) + n.result.value == acc + (m.result.value + n.result.value);
      }
    }
  }

  /**
   * Front-to-back reading: the first authority's groups come first, in the order
   * its names are configured, followed by the groups of the remaining authorities.
   */
  lemma ResolveAuthoritiesFirst(env: Env, groups: map<string, Group>, a: string, rest: seq<string>)
    ensures ResolveAuthorities(env, groups, [a] + rest) ==
            AuthoritiesThen(env, ResolveNames(env, groups, a, MappedNames(env.config, a)), rest)
  {
    ResolveAuthoritiesAppend(env, groups, [a], rest);
    assert [a][..0] == [];
    var first := ResolveNames(env, groups, a, MappedNames(env.config, a));
    if first.result.Ok? {
      assert [] + first.result.value == first.result.value;
    }
  }

  /** Resolving `n1` and then `more` against the store `n1` left. */
  function NamesThen(env: Env, first: Resolved<seq<Group>>, authority: string, more: seq<string>)
    : Resolved<seq<Group>>
  {
    if first.result.Err? then first
    else Then(first.result.value, ResolveNames(env, first.groups, authority, more))
  }

  /** Resolving `n1 + n2` resolves `n1` first and then `n2` against the store `n1` left. */
  lemma {:induction false} ResolveNamesAppend(
    env: Env, groups: map<string, Group>, authority: string, n1: seq<string>, n2: seq<string>)
    ensures ResolveNames(env, groups, authority, n1 + n2) ==
            NamesThen(env, ResolveNames(env, groups, authority, n1), authority, n2)
    decreases |n2|
  {
    if n2 == [] {
      NamesThenNothing(env, ResolveNames(env, groups, authority, n1), authority);
      assert n1 + n2 == n1;
    } else {
      ResolveNamesAppend(env, groups, authority, n1, n2[..|n2| - 1]);
      NamesAppendStep(env, groups, authority, n1, n2);
    }
  }

  lemma NamesThenNothing(env: Env, first: Resolved<seq<Group>>, authority: string)
    ensures NamesThen(env, first, authority, []) == first
  {
    if first.result.Ok? {
      assert first.result.value + [] == first.result.value;
    }
  }

  lemma NamesAppendStep(env: Env, groups: map<string, Group>, authority: string, n1: seq<string>, n2: seq<string>)
    requires n2 != []
    requires ResolveNames(env, groups, authority, n1 + n2[..|n2| - 1]) ==
             NamesThen(env, ResolveNames(env, groups, authority, n1), authority, n2[..|n2| - 1])
    ensures ResolveNames(env, groups, authority, n1 + n2) ==
            NamesThen(env, ResolveNames(env, groups, authority, n1), authority, n2)
  {
    var first := ResolveNames(env, groups, authority, n1);
    var init, n := n2[..|n2| - 1], n2[|n2| - 1];
    var whole := n1 + n2;
    assert whole[..|whole| - 1] == n1 + init && whole[|whole| - 1] == n;
    ResolveNamesLast(env, groups, authority, whole);
    if first.result.Ok? {
      ResolveNamesLast(env, first.groups, authority, n2);
      NameStepThen(env, first.result.value, ResolveNames(env, first.groups, authority, init), authority, n);
    }
  }

  lemma ResolveNamesLast(env: Env, groups: map<string, Group>, authority: string, names: seq<string>)
    requires names != []
    ensures ResolveNames(env, groups, authority, names) ==
            NameStep(env, ResolveNames(env, groups, authority, names[..|names| - 1]), authority, names[|names| - 1])
  {
  }

  lemma NameStepThen(env: Env, acc: seq<Group>, m: Resolved<seq<Group>>, authority: string, name: string)
    ensures NameStep(env, Then(acc, m), authority, name) == Then(acc, NameStep(env, m, authority, name))
  {
    if m.result.Ok? {
      var one := ResolveGroup(env, m.groups, Trim(name), Some(authority));
      if one.result.Ok? && one.result.value.Some? {
        var g := one.result.value.value;
        assert (acc + m.result.value) + [g] == acc + (m.result.value + [g]);
      }
    }
  }

  // ---------------------------------------------------------------------------
  // Without auto-creation: a read-only lookup, duplicates kept

  /** The stored group of one name, as a list of at most one group. */
  function StoredAs(groups: map<string, Group>, name: string): seq<Group> {
    if name in groups then [groups[name]] else []
  }

  /** The stored groups named by `names` (each trimmed), in order, with repetitions. */
  function StoredGroups(groups: map<string, Group>, names: seq<string>): seq<Group> {
    if names == [] then []
    else StoredAs(groups, Trim(names[0])) + StoredGroups(groups, names[1..])
  }

  /** The stored groups of every authority, in authority order. */
  function StoredGroupsOfAll(c: Configuration, groups: map<string, Group>, authorities: seq<string>)
    : seq<Group>
  {
    if authorities == [] then []
    else StoredGroups(groups, MappedNames(c, authorities[0])) + StoredGroupsOfAll(c, groups, authorities[1..])
  }

  lemma {:induction false} StoredGroupsSnoc(groups: map<string, Group>, names: seq<string>)
    requires names != []
    ensures StoredGroups(groups, names) ==
            StoredGroups(groups, names[..|names| - 1]) + StoredAs(groups, Trim(names[|names| - 1]))
  {
    var init, last := names[..|names| - 1], names[|names| - 1];
    var tail := StoredAs(groups, Trim(last));
    if |names| == 1 {
      assert init == [] && names[1..] == [];
      assert StoredGroups(groups, names) == tail + [];
    } else {
      var rest := names[1..];
      var head := StoredAs(groups, Trim(names[0]));
      assert rest[..|rest| - 1] == init[1..];
      assert rest[|rest| - 1] == last;
      assert init[0] == names[0];
      StoredGroupsSnoc(groups, rest);
      var mid := StoredGroups(groups, init[1..]);
      assert StoredGroups(groups, rest) == mid + tail;
      assert StoredGroups(groups, names) == head + StoredGroups(groups, names[1..]);
      assert StoredGroups(groups, init) == head + mid;
      assert head + (mid + tail) == (head + mid) + tail;
    }
  }

  /** Associativity of `+`, proved apart so the proof above stays cheap. */
  lemma ConcatAssociative(a: seq<Group>, b: seq<Group>, c: seq<Group>)
    ensures a + (b + c) == (a + b) + c
  {
  }

  lemma {:induction false} StoredGroupsOfAllSnoc(c: Configuration, groups: map<string, Group>, authorities: seq<string>)
    requires authorities != []
    ensures StoredGroupsOfAll(c, groups, authorities) ==
            StoredGroupsOfAll(c, groups, authorities[..|authorities| - 1]) +
            StoredGroups(groups, MappedNames(c, authorities[|authorities| - 1]))
  {
    var init, last := authorities[..|authorities| - 1], authorities[|authorities| - 1];
    var tail := StoredGroups(groups, MappedNames(c, last));
    if |authorities| == 1 {
      assert init == [] && authorities[1..] == [];
      assert StoredGroupsOfAll(c, groups, authorities) == tail + [];
    } else {
      var rest := authorities[1..];
      var head := StoredGroups(groups, MappedNames(c, authorities[0]));
      assert rest[..|rest| - 1] == init[1..];
      assert rest[|rest| - 1] == last;
      assert init[0] == authorities[0];
      StoredGroupsOfAllSnoc(c, groups, rest);
      var mid := StoredGroupsOfAll(c, groups, init[1..]);
      assert StoredGroupsOfAll(c, groups, rest) == mid + tail;
      assert StoredGroupsOfAll(c, groups, authorities) == head + StoredGroupsOfAll(c, groups, rest);
      assert StoredGroupsOfAll(c, groups, init) == head + mid;
      ConcatAssociative(head, mid, tail);
    }
  }

  /** With auto-creation off, the inner loop only looks names up and never changes the store. */
  lemma {:induction false} ResolveNamesReadOnly(
    env: Env, groups: map<string, Group>, authority: string, names: seq<string>)
    requires !env.autoCreateGroup
    ensures ResolveNames(env, groups, authority, names) == Resolved(Ok(StoredGroups(groups, names)), groups)
    decreases |names|
  {
    if names != [] {
      var init, n := names[..|names| - 1], Trim(names[|names| - 1]);
      ResolveNamesReadOnly(env, groups, authority, init);
      StoredGroupsSnoc(groups, names);
      assert ResolveNames(env, groups, authority, names) ==
             Add(StoredGroups(groups, init), ResolveGroup(env, groups, n, Some(authority)));
      if n in groups {
        assert ResolveGroup(env, groups, n, Some(authority)) == Resolved(Ok(Some(groups[n])), groups);
      } else {
        assert ResolveGroup(env, groups, n, Some(authority)) == Resolved(Ok(None), groups);
        assert StoredGroups(groups, init) + [] == StoredGroups(groups, init);
      }
    }
  }

  /**
   * With auto-creation off, translating the authorities yields exactly the stored
   * groups their configured names denote, authority by authority, and the store
   * is unchanged.
   */
  lemma {:induction false} ResolveAuthoritiesReadOnly(
    env: Env, groups: map<string, Group>, authorities: seq<string>)
    requires !env.autoCreateGroup
    ensures ResolveAuthorities(env, groups, authorities) ==
            Resolved(Ok(StoredGroupsOfAll(env.config, groups, authorities)), groups)
    decreases |authorities|
  {
    if authorities != [] {
      var a := authorities[|authorities| - 1];
      ResolveAuthoritiesReadOnly(env, groups, authorities[..|authorities| - 1]);
      ResolveNamesReadOnly(env, groups, a, MappedNames(env.config, a));
      StoredGroupsOfAllSnoc(env.config, groups, authorities);
    }
  }

  /**
   * With auto-creation off, translation is a pure lookup: the stored groups the
   * authorities' configured names denote, in order, then the default group if it
   * is stored; the store is unchanged.
   */
  lemma TranslateReadOnly(env: Env, groups: map<string, Group>, authorities: Option<seq<string>>)
    requires !env.autoCreateGroup
    ensures var claims := if authorities.Some? then authorities.value else [];
            var found := StoredGroupsOfAll(env.config, groups, claims);
            Translate(env, groups, authorities) ==
              match DefaultGroupName(env.config)
              case Some(name) =>
                Resolved(Ok(found + (if name in groups then [groups[name]] else [])), groups)
              case None => Resolved(Ok(found), groups)
  {
    var claims := if authorities.Some? then authorities.value else [];
    ResolveAuthoritiesReadOnly(env, groups, claims);
    var found := StoredGroupsOfAll(env.config, groups, claims);
    assert found + [] == found;
  }

  /**
   * The same name configured twice for an authority is resolved twice, with no
   * de-duplication: a stored group is returned twice; a missing one is created
   * by the first copy and found by the second; without auto-creation both copies
   * are dropped; a refused creation fails at the first copy.
   */
  lemma DuplicatesKept(env: Env, groups: map<string, Group>, authority: string, name: string)
    ensures var n := Trim(name);
            var r := ResolveNames(env, groups, authority, [name, name]);
            && (n in groups ==> r == Resolved(Ok([groups[n], groups[n]]), groups))
            && (n !in groups && env.autoCreateGroup && n !in env.rejected ==>
                  var g := NewGroup(n, Some(authority));
                  r == Resolved(Ok([g, g]), groups[n := g]))
            && (n !in groups && !env.autoCreateGroup ==> r == Resolved(Ok([]), groups))
            && (n !in groups && env.autoCreateGroup && n in env.rejected ==>
                  r == Resolved(Err(FoundationRuntime(FoundationData)), groups))
  {
    var n := Trim(name);
    assert [name][..0] == [];
    assert [name, name][..1] == [name];
    var first := ResolveNames(env, groups, authority, [name]);
    ResolveNamesLast(env, groups, authority, [name]);
    ResolveNamesLast(env, groups, authority, [name, name]);
    if first.result.Ok? && first.result.value != [] {
      var g := first.result.value[0];
      assert first.result.value == [g] && n in first.groups && first.groups[n] == g;
      assert [g] + [g] == [g, g];
    }
  }

  // ---------------------------------------------------------------------------
  // The default group

  /**
   * With no authorities (null or empty), the result is the default group alone
   * when one is configured and resolves, and empty otherwise.
   */
  lemma TranslateWithoutAuthorities(env: Env, groups: map<string, Group>, authorities: Option<seq<string>>)
    requires authorities == None || authorities == Some([])
    ensures var t := Translate(env, groups, authorities);
            match DefaultGroupName(env.config)
            case None => t == Resolved(Ok([]), groups)
            case Some(name) =>
              && (name in groups ==> t == Resolved(Ok([groups[name]]), groups))
              && (name !in groups && env.autoCreateGroup && name !in env.rejected ==>
                    t == Resolved(Ok([NewGroup(name, None)]), groups[name := NewGroup(name, None)]))
              && (name !in groups && !env.autoCreateGroup ==> t == Resolved(Ok([]), groups))
              && (name !in groups && env.autoCreateGroup && name in env.rejected ==>
                    t == Resolved(Err(FoundationRuntime(FoundationData)), groups))
  {
    var claims := if authorities.Some? then authorities.value else [];
    assert claims == [];
    assert ResolveAuthorities(env, groups, claims) == Resolved(Ok([]), groups);
    match DefaultGroupName(env.config)
    case None =>
    case Some(name) =>
      if name in groups {
        assert [] + [groups[name]] == [groups[name]];
      } else {
        assert [] + [NewGroup(name, None)] == [NewGroup(name, None)];
      }
  }

  /**
   * The default group comes after every authority group: it is appended when it
   * is configured and stored or auto-created (with an empty description), and
   * left out when it is not configured, or missing while auto-creation is off.
   */
  lemma DefaultGroupLast(env: Env, groups: map<string, Group>, authorities: Option<seq<string>>)
    ensures var claims := if authorities.Some? then authorities.value else [];
            var base := ResolveAuthorities(env, groups, claims);
            var t := Translate(env, groups, authorities);
            DefaultGroupName(env.config).None? ==> t == base
    ensures var claims := if authorities.Some? then authorities.value else [];
            var base := ResolveAuthorities(env, groups, claims);
            var t := Translate(env, groups, authorities);
            DefaultGroupName(env.config).Some? && t.result.Ok? ==>
              var name := DefaultGroupName(env.config).value;
              && base.result.Ok?
              && (name in base.groups ==>
                    t == Resolved(Ok(base.result.value + [base.groups[name]]), base.groups))
              && (name !in base.groups && env.autoCreateGroup ==>
                    t.result.value == base.result.value + [NewGroup(name, None)] &&
                    NewGroup(name, None).description == "" &&
                    t.groups == base.groups[name := NewGroup(name, None)])
              && (name !in base.groups && !env.autoCreateGroup ==> t == base)
  {
  }

  // ---------------------------------------------------------------------------
  // The store only grows

  /**
   * `after` keeps every group of `before` as it was, and every group it adds was
   * auto-created under its own name with the USER role.
   */
  ghost predicate OnlyAddsGroups(env: Env, before: map<string, Group>, after: map<string, Group>) {
    && (forall k | k in before :: k in after && after[k] == before[k])
    && (forall k | k in after && k !in before ::
          env.autoCreateGroup && k !in env.rejected && after[k].name == k && after[k].role == UserRole)
  }

  lemma OnlyAddsGroupsTransitive(env: Env, g1: map<string, Group>, g2: map<string, Group>, g3: map<string, Group>)
    requires OnlyAddsGroups(env, g1, g2) && OnlyAddsGroups(env, g2, g3)
    ensures OnlyAddsGroups(env, g1, g3)
  {
  }

  lemma ResolveGroupOnlyAddsGroups(env: Env, groups: map<string, Group>, name: string, authority: Option<string>)
    ensures OnlyAddsGroups(env, groups, ResolveGroup(env, groups, name, authority).groups)
  {
  }

  lemma {:induction false} ResolveNamesOnlyAddsGroups(
    env: Env, groups: map<string, Group>, authority: string, names: seq<string>)
    ensures OnlyAddsGroups(env, groups, ResolveNames(env, groups, authority, names).groups)
    decreases |names|
  {
    if names != [] {
      var prev := ResolveNames(env, groups, authority, names[..|names| - 1]);
      ResolveNamesOnlyAddsGroups(env, groups, authority, names[..|names| - 1]);
      if prev.result.Ok? {
        var one := ResolveGroup(env, prev.groups, Trim(names[|names| - 1]), Some(authority));
        ResolveGroupOnlyAddsGroups(env, prev.groups, Trim(names[|names| - 1]), Some(authority));
        OnlyAddsGroupsTransitive(env, groups, prev.groups, one.groups);
      }
    }
  }

  lemma {:induction false} ResolveAuthoritiesOnlyAddsGroups(
    env: Env, groups: map<string, Group>, authorities: seq<string>)
    ensures OnlyAddsGroups(env, groups, ResolveAuthorities(env, groups, authorities).groups)
    decreases |authorities|
  {
    if authorities != [] {
      var prev := ResolveAuthorities(env, groups, authorities[..|authorities| - 1]);
      var a := authorities[|authorities| - 1];
      ResolveAuthoritiesOnlyAddsGroups(env, groups, authorities[..|authorities| - 1]);
      if prev.result.Ok? {
        ResolveNamesOnlyAddsGroups(env, prev.groups, a, MappedNames(env.config, a));
        OnlyAddsGroupsTransitive(env, groups, prev.groups,
          ResolveNames(env, prev.groups, a, MappedNames(env.config, a)).groups);
      }
    }
  }

  /**
   * Translation never removes or alters a stored group; the groups it adds were
   * auto-created (so auto-creation is on) under their own names with the USER role.
   */
  lemma TranslateOnlyAddsGroups(env: Env, groups: map<string, Group>, authorities: Option<seq<string>>)
    ensures OnlyAddsGroups(env, groups, Translate(env, groups, authorities).groups)
  {
    var claims := if authorities.Some? then authorities.value else [];
    var base := ResolveAuthorities(env, groups, claims);
    ResolveAuthoritiesOnlyAddsGroups(env, groups, claims);
    if base.result.Ok? && DefaultGroupName(env.config).Some? {
      var one := ResolveGroup(env, base.groups, DefaultGroupName(env.config).value, None);
      ResolveGroupOnlyAddsGroups(env, base.groups, DefaultGroupName(env.config).value, None);
      OnlyAddsGroupsTransitive(env, groups, base.groups, one.groups);
    }
  }

  // ---------------------------------------------------------------------------
  // Every returned group is stored

  /** Every group in `gs` is the stored group of its name. */
  ghost predicate AllStored(gs: seq<Group>, groups: map<string, Group>) {
    forall i | 0 <= i < |gs| :: gs[i].name in groups && groups[gs[i].name] == gs[i]
  }

  lemma ResolveGroupStored(env: Env, groups: map<string, Group>, name: string, authority: Option<string>)
    requires GroupsKeyedByName(groups)
    ensures var r := ResolveGroup(env, groups, name, authority);
            GroupsKeyedByName(r.groups) &&
            (r.result.Ok? && r.result.value.Some? ==>
               r.result.value.value.name in r.groups && r.groups[r.result.value.value.name] == r.result.value.value)
  {
  }

  lemma AllStoredKept(env: Env, gs: seq<Group>, before: map<string, Group>, after: map<string, Group>)
    requires AllStored(gs, before) && OnlyAddsGroups(env, before, after)
    ensures AllStored(gs, after)
  {
  }

  lemma {:induction false} ResolveNamesStored(
    env: Env, groups: map<string, Group>, authority: string, names: seq<string>)
    requires GroupsKeyedByName(groups)
    ensures var r := ResolveNames(env, groups, authority, names);
            GroupsKeyedByName(r.groups) && (r.result.Ok? ==> AllStored(r.result.value, r.groups))
    decreases |names|
  {
    if names != [] {
      var prev := ResolveNames(env, groups, authority, names[..|names| - 1]);
      ResolveNamesStored(env, groups, authority, names[..|names| - 1]);
      if prev.result.Ok? {
        var n := Trim(names[|names| - 1]);
        var one := ResolveGroup(env, prev.groups, n, Some(authority));
        ResolveGroupStored(env, prev.groups, n, Some(authority));
        ResolveGroupOnlyAddsGroups(env, prev.groups, n, Some(authority));
        AllStoredKept(env, prev.result.value, prev.groups, one.groups);
      }
    }
  }

  lemma {:induction false} ResolveAuthoritiesStored(env: Env, groups: map<string, Group>, authorities: seq<string>)
    requires GroupsKeyedByName(groups)
    ensures var r := ResolveAuthorities(env, groups, authorities);
            GroupsKeyedByName(r.groups) && (r.result.Ok? ==> AllStored(r.result.value, r.groups))
    decreases |authorities|
  {
    if authorities != [] {
      var prev := ResolveAuthorities(env, groups, authorities[..|authorities| - 1]);
      var a := authorities[|authorities| - 1];
      ResolveAuthoritiesStored(env, groups, authorities[..|authorities| - 1]);
      if prev.result.Ok? {
        var next := ResolveNames(env, prev.groups, a, MappedNames(env.config, a));
        ResolveNamesStored(env, prev.groups, a, MappedNames(env.config, a));
        ResolveNamesOnlyAddsGroups(env, prev.groups, a, MappedNames(env.config, a));
        AllStoredKept(env, prev.result.value, prev.groups, next.groups);
        if next.result.Ok? {
          var all := prev.result.value + next.result.value;
          forall i | 0 <= i < |all| ensures all[i].name in next.groups && next.groups[all[i].name] == all[i] {
            if i >= |prev.result.value| {
              assert all[i] == next.result.value[i - |prev.result.value|];
            }
          }
        }
      }
    }
  }

  /** Each returned group is the stored group of its name, so all of them are persisted. */
  lemma TranslateStored(env: Env, groups: map<string, Group>, authorities: Option<seq<string>>)
    requires GroupsKeyedByName(groups)
    ensures var r := Translate(env, groups, authorities);
            GroupsKeyedByName(r.groups) && (r.result.Ok? ==> AllStored(r.result.value, r.groups))
  {
    var claims := if authorities.Some? then authorities.value else [];
    var base := ResolveAuthorities(env, groups, claims);
    ResolveAuthoritiesStored(env, groups, claims);
    if base.result.Ok? && DefaultGroupName(env.config).Some? {
      var name := DefaultGroupName(env.config).value;
      ResolveGroupStored(env, base.groups, name, None);
      ResolveGroupOnlyAddsGroups(env, base.groups, name, None);
      AllStoredKept(env, base.result.value, base.groups, ResolveGroup(env, base.groups, name, None).groups);
    }
  }

  // ---------------------------------------------------------------------------
  // With auto-creation on: every configured name yields its group

  /** Every name of `names`, trimmed, is a key of the store. */
  ghost predicate AllNamesStored(groups: map<string, Group>, names: seq<string>) {
    forall i | 0 <= i < |names| :: Trim(names[i]) in groups
  }

  /** When every name is stored, the lookup has one group per name, in order. */
  lemma {:induction false} StoredGroupsAllPresent(groups: map<string, Group>, names: seq<string>)
    requires AllNamesStored(groups, names)
    ensures |StoredGroups(groups, names)| == |names|
    ensures forall i | 0 <= i < |names| :: StoredGroups(groups, names)[i] == groups[Trim(names[i])]
    decreases |names|
  {
    if names != [] {
      assert Trim(names[0]) in groups;
      StoredGroupsAllPresent(groups, names[1..]);
      forall i | 0 <= i < |names| ensures StoredGroups(groups, names)[i] == groups[Trim(names[i])] {
        if 0 < i {
          assert names[1..][i - 1] == names[i];
        }
      }
    }
  }

  /** Growing the store as translation does leaves the lookup of stored names alone. */
  lemma {:induction false} StoredGroupsKept(
    env: Env, before: map<string, Group>, after: map<string, Group>, names: seq<string>)
    requires AllNamesStored(before, names) && OnlyAddsGroups(env, before, after)
    ensures AllNamesStored(after, names)
    ensures StoredGroups(before, names) == StoredGroups(after, names)
    decreases |names|
  {
    if names != [] {
      assert Trim(names[0]) in before;
      assert AllNamesStored(before, names[1..]) by {
        forall i | 0 <= i < |names[1..]| ensures Trim(names[1..][i]) in before {
          assert names[1..][i] == names[i + 1];
        }
      }
      StoredGroupsKept(env, before, after, names[1..]);
    }
  }

  lemma {:induction false} StoredGroupsOfAllKept(
    env: Env, before: map<string, Group>, after: map<string, Group>, authorities: seq<string>)
    requires forall a | a in authorities :: AllNamesStored(before, MappedNames(env.config, a))
    requires OnlyAddsGroups(env, before, after)
    ensures forall a | a in authorities :: AllNamesStored(after, MappedNames(env.config, a))
    ensures StoredGroupsOfAll(env.config, before, authorities) == StoredGroupsOfAll(env.config, after, authorities)
    decreases |authorities|
  {
    if authorities != [] {
      StoredGroupsKept(env, before, after, MappedNames(env.config, authorities[0]));
      assert forall a | a in authorities[1..] :: a in authorities;
      StoredGroupsOfAllKept(env, before, after, authorities[1..]);
      forall a | a in authorities ensures AllNamesStored(after, MappedNames(env.config, a)) {
        if a != authorities[0] {
          assert a in authorities[1..];
        }
      }
    }
  }

  /**
   * With auto-creation on, an inner loop that does not fail yields one group per
   * configured name, in order and with repetitions: the group stored (found or
   * created) under the trimmed name.
   */
  lemma {:induction false} ResolveNamesComplete(
    env: Env, groups: map<string, Group>, authority: string, names: seq<string>)
    requires env.autoCreateGroup
    ensures var r := ResolveNames(env, groups, authority, names);
            r.result.Ok? ==>
              && AllNamesStored(r.groups, names)
              && r.result.value == StoredGroups(r.groups, names)
              && |r.result.value| == |names|
              && forall i | 0 <= i < |names| :: r.result.value[i] == r.groups[Trim(names[i])]
  {
    var r := ResolveNames(env, groups, authority, names);
    ResolveNamesLookup(env, groups, authority, names);
    if r.result.Ok? {
      StoredGroupsAllPresent(r.groups, names);
    }
  }

  lemma {:induction false} ResolveNamesLookup(
    env: Env, groups: map<string, Group>, authority: string, names: seq<string>)
    requires env.autoCreateGroup
    ensures var r := ResolveNames(env, groups, authority, names);
            r.result.Ok? ==> AllNamesStored(r.groups, names) && r.result.value == StoredGroups(r.groups, names)
    decreases |names|
  {
    if names != [] {
      var init, last := names[..|names| - 1], names[|names| - 1];
      var prev := ResolveNames(env, groups, authority, init);
      ResolveNamesLast(env, groups, authority, names);
      assert ResolveNames(env, groups, authority, names) == NameStep(env, prev, authority, last);
      assert init + [last] == names;
      ResolveNamesLookup(env, groups, authority, init);
      if prev.result.Ok? {
        NameStepLookup(env, prev, authority, init, last);
      }
    }
  }

  /** One pass of the inner loop keeps the lookup reading of the list built so far. */
  lemma NameStepLookup(env: Env, prev: Resolved<seq<Group>>, authority: string, init: seq<string>, name: string)
    requires env.autoCreateGroup && prev.result.Ok?
    requires AllNamesStored(prev.groups, init) && prev.result.value == StoredGroups(prev.groups, init)
    ensures var r := NameStep(env, prev, authority, name);
            r.result.Ok? ==>
              AllNamesStored(r.groups, init + [name]) && r.result.value == StoredGroups(r.groups, init + [name])
  {
    var n := Trim(name);
    var r := NameStep(env, prev, authority, name);
    var one := ResolveGroup(env, prev.groups, n, Some(authority));
    if r.result.Ok? {
      ResolveGroupOnlyAddsGroups(env, prev.groups, n, Some(authority));
      assert one.result.Ok? && one.result.value.Some? && n in one.groups;
      assert r == Resolved(Ok(prev.result.value + [one.groups[n]]), one.groups);
      StoredGroupsKept(env, prev.groups, one.groups, init);
      var names := init + [name];
      assert names[..|names| - 1] == init;
      StoredGroupsSnoc(one.groups, names);
      forall i | 0 <= i < |names| ensures Trim(names[i]) in r.groups {
        if i < |init| {
          assert names[i] == init[i];
        }
      }
    }
  }

  /**
   * With auto-creation on, an outer loop that does not fail yields, authority by
   * authority, one group per configured name: the group stored under its trimmed
   * form once translation is done.
   */
  lemma {:induction false} ResolveAuthoritiesComplete(env: Env, groups: map<string, Group>, authorities: seq<string>)
    requires env.autoCreateGroup
    ensures var r := ResolveAuthorities(env, groups, authorities);
            r.result.Ok? ==>
              && (forall a | a in authorities :: AllNamesStored(r.groups, MappedNames(env.config, a)))
              && r.result.value == StoredGroupsOfAll(env.config, r.groups, authorities)
    decreases |authorities|
  {
    var r := ResolveAuthorities(env, groups, authorities);
    if authorities != [] && r.result.Ok? {
      var init, a := authorities[..|authorities| - 1], authorities[|authorities| - 1];
      var prev := ResolveAuthorities(env, groups, init);
      ResolveAuthoritiesLast(env, groups, authorities);
      assert prev.result.Ok?;
      ResolveAuthoritiesComplete(env, groups, init);
      var next := ResolveNames(env, prev.groups, a, MappedNames(env.config, a));
      assert next.result.Ok? && r == Resolved(Ok(prev.result.value + next.result.value), next.groups);
      ResolveNamesComplete(env, prev.groups, a, MappedNames(env.config, a));
      ResolveNamesOnlyAddsGroups(env, prev.groups, a, MappedNames(env.config, a));
      StoredGroupsOfAllKept(env, prev.groups, next.groups, init);
      StoredGroupsOfAllSnoc(env.config, next.groups, authorities);
      forall a' | a' in authorities ensures AllNamesStored(r.groups, MappedNames(env.config, a')) {
        if a' != a {
          assert a' in init;
        }
      }
    }
  }

  /**
   * With auto-creation on, a translation that does not fail yields one group per
   * configured name of every authority, in order, then the default group when one
   * is configured; every one of them is the group stored under its name.
   */
  lemma TranslateComplete(env: Env, groups: map<string, Group>, authorities: Option<seq<string>>)
    requires env.autoCreateGroup
    ensures var claims := if authorities.Some? then authorities.value else [];
            var r := Translate(env, groups, authorities);
            r.result.Ok? ==>
              && (forall a | a in claims :: AllNamesStored(r.groups, MappedNames(env.config, a)))
              && match DefaultGroupName(env.config)
                 case None => r.result.value == StoredGroupsOfAll(env.config, r.groups, claims)
                 case Some(name) =>
                   name in r.groups &&
                   r.result.value == StoredGroupsOfAll(env.config, r.groups, claims) + [r.groups[name]]
  {
    var claims := if authorities.Some? then authorities.value else [];
    var base := ResolveAuthorities(env, groups, claims);
    var r := Translate(env, groups, authorities);
    ResolveAuthoritiesComplete(env, groups, claims);
    if r.result.Ok? && DefaultGroupName(env.config).Some? {
      var name := DefaultGroupName(env.config).value;
      ResolveGroupOnlyAddsGroups(env, base.groups, name, None);
      StoredGroupsOfAllKept(env, base.groups, r.groups, claims);
    }
  }

  // ---------------------------------------------------------------------------
  // Where the returned groups come from

  /** `name` is the trimmed form of a name configured for one of `authorities`. */
  ghost predicate ConfiguredFor(c: Configuration, authorities: seq<string>, name: string) {
    exists a, n | a in authorities && n in MappedNames(c, a) :: name == Trim(n)
  }

  lemma {:induction false} ResolveNamesProvenance(
    env: Env, groups: map<string, Group>, authority: string, names: seq<string>)
    requires GroupsKeyedByName(groups)
    ensures var r := ResolveNames(env, groups, authority, names);
            GroupsKeyedByName(r.groups) &&
            (r.result.Ok? ==> forall i | 0 <= i < |r.result.value| ::
                                exists n | n in names :: r.result.value[i].name == Trim(n))
    decreases |names|
  {
    if names != [] {
      var init, last := names[..|names| - 1], names[|names| - 1];
      ResolveNamesProvenance(env, groups, authority, init);
      var prev := ResolveNames(env, groups, authority, init);
      if prev.result.Ok? {
        ResolveGroupStored(env, prev.groups, Trim(last), Some(authority));
        var r := ResolveNames(env, groups, authority, names);
        if r.result.Ok? {
          forall i | 0 <= i < |r.result.value| ensures exists n | n in names :: r.result.value[i].name == Trim(n) {
            if i < |prev.result.value| {
              var n :| n in init && prev.result.value[i].name == Trim(n);
              assert n in names;
            } else {
              assert r.result.value[i].name == Trim(last);
              assert last in names;
            }
          }
        }
      }
    }
  }

  lemma {:induction false} ResolveAuthoritiesProvenance(env: Env, groups: map<string, Group>, authorities: seq<string>)
    requires GroupsKeyedByName(groups)
    ensures var r := ResolveAuthorities(env, groups, authorities);
            GroupsKeyedByName(r.groups) &&
            (r.result.Ok? ==> forall i | 0 <= i < |r.result.value| ::
                                ConfiguredFor(env.config, authorities, r.result.value[i].name))
    decreases |authorities|
  {
    if authorities != [] {
      var init, a := authorities[..|authorities| - 1], authorities[|authorities| - 1];
      ResolveAuthoritiesProvenance(env, groups, init);
      var prev := ResolveAuthorities(env, groups, init);
      if prev.result.Ok? {
        var next := ResolveNames(env, prev.groups, a, MappedNames(env.config, a));
        ResolveNamesProvenance(env, prev.groups, a, MappedNames(env.config, a));
        if next.result.Ok? {
          var all := prev.result.value + next.result.value;
          forall i | 0 <= i < |all| ensures ConfiguredFor(env.config, authorities, all[i].name) {
            if i < |prev.result.value| {
              assert all[i] == prev.result.value[i];
              var a', n :| a' in init && n in MappedNames(env.config, a') && all[i].name == Trim(n);
              assert a' in authorities;
            } else {
              var n :| n in MappedNames(env.config, a) && next.result.value[i - |prev.result.value|].name == Trim(n);
              assert a in authorities;
            }
          }
        }
      }
    }
  }

  /**
   * Every returned group is named by the trimmed form of a name configured under
   * the mapping key of one of the authorities, or is the default group.
   */
  lemma TranslateProvenance(env: Env, groups: map<string, Group>, authorities: Option<seq<string>>)
    requires GroupsKeyedByName(groups)
    ensures var claims := if authorities.Some? then authorities.value else [];
            var r := Translate(env, groups, authorities);
            r.result.Ok? ==> forall i | 0 <= i < |r.result.value| ::
              ConfiguredFor(env.config, claims, r.result.value[i].name) ||
              Some(r.result.value[i].name) == DefaultGroupName(env.config)
  {
    var claims := if authorities.Some? then authorities.value else [];
    ResolveAuthoritiesProvenance(env, groups, claims);
    var base := ResolveAuthorities(env, groups, claims);
    if base.result.Ok? && DefaultGroupName(env.config).Some? {
      ResolveGroupStored(env, base.groups, DefaultGroupName(env.config).value, None);
    }
  }

  // ---------------------------------------------------------------------------
  // Failures come only from refused creations

  lemma {:induction false} ResolveNamesFailure(
    env: Env, groups: map<string, Group>, authority: string, names: seq<string>)
    ensures var r := ResolveNames(env, groups, authority, names);
            r.result.Err? ==>
              env.autoCreateGroup && r.result.error == FoundationRuntime(FoundationData) &&
              exists n | n in names :: Trim(n) in env.rejected
    decreases |names|
  {
    if names != [] {
      var init := names[..|names| - 1];
      ResolveNamesFailure(env, groups, authority, init);
      var r := ResolveNames(env, groups, authority, names);
      if r.result.Err? {
        var prev := ResolveNames(env, groups, authority, init);
        if prev.result.Err? {
          var n :| n in init && Trim(n) in env.rejected;
          assert n in names;
        } else {
          assert names[|names| - 1] in names;
        }
      }
    }
  }

  lemma {:induction false} ResolveAuthoritiesFailure(env: Env, groups: map<string, Group>, authorities: seq<string>)
    ensures var r := ResolveAuthorities(env, groups, authorities);
            r.result.Err? ==>
              env.autoCreateGroup && r.result.error == FoundationRuntime(FoundationData) &&
              exists a, n | a in authorities && n in MappedNames(env.config, a) :: Trim(n) in env.rejected
    decreases |authorities|
  {
    if authorities != [] {
      var init := authorities[..|authorities| - 1];
      var a := authorities[|authorities| - 1];
      ResolveAuthoritiesFailure(env, groups, init);
      var r := ResolveAuthorities(env, groups, authorities);
      if r.result.Err? {
        var prev := ResolveAuthorities(env, groups, init);
        if prev.result.Err? {
          var a', n :| a' in init && n in MappedNames(env.config, a') && Trim(n) in env.rejected;
          assert a' in authorities;
        } else {
          ResolveNamesFailure(env, prev.groups, a, MappedNames(env.config, a));
          assert a in authorities;
        }
      }
    }
  }

  /**
   * Unmapped authorities and unresolvable names never make translation fail:
   * its only failure is a group the store refused to create, raised as a
   * FoundationRuntimeException.
   */
  lemma TranslateFailure(env: Env, groups: map<string, Group>, authorities: Option<seq<string>>)
    ensures var claims := if authorities.Some? then authorities.value else [];
            var r := Translate(env, groups, authorities);
            r.result.Err? ==>
              && env.autoCreateGroup
              && r.result.error == FoundationRuntime(FoundationData)
              && ((exists a, n | a in claims && n in MappedNames(env.config, a) :: Trim(n) in env.rejected)
                  || (DefaultGroupName(env.config).Some? && DefaultGroupName(env.config).value in env.rejected))
  {
    var claims := if authorities.Some? then authorities.value else [];
    ResolveAuthoritiesFailure(env, groups, claims);
  }
}

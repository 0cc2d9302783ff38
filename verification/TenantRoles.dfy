/** Normalisation of the custom roles of a registration, and the seeding of a tenant's roles and grants. */
module TenantRoles {
  import opened Options
  import opened JsText
  import opened Sequences

  /** A role as the request sends it; a permission key that is not a string is `None`. */
  datatype RoleInput = RoleInput(
    name: Option<string>, description: Option<string>, permissionKeys: Option<seq<Option<string>>>
  )

  datatype CustomRole = CustomRole(name: string, description: Option<string>, permissionKeys: seq<string>)

  datatype Problem = TooManyRoles | NameTooLong | NameNotUnique

  datatype Normalized = Ok(roles: seq<CustomRole>) | Failed(problem: Problem)

  const MAX_ROLES := 20
  const MAX_NAME := 100
  const MAX_DESCRIPTION := 500

  // Normalisation.

  function NameOf(role: RoleInput): string {
    if role.name.None? then "" else Trim(role.name.value)
  }

  function DescriptionOf(role: RoleInput): Option<string> {
    if role.description.None? || Trim(role.description.value) == "" then None
    else Some(Prefix(Trim(role.description.value), MAX_DESCRIPTION))
  }

  /** The keys that are strings with something in them, trimmed. */
  function TrimmedKeys(keys: seq<Option<string>>): seq<string> {
    if keys == [] then []
    else (if keys[0].Some? && Trim(keys[0].value) != "" then [Trim(keys[0].value)] else []) + TrimmedKeys(keys[1..])
  }

  /** `[...new Set(keys)]`: each key where it comes first. */
  function Unique(keys: seq<string>): seq<string> {
    if keys == [] then []
    else
      var before := Unique(keys[..|keys| - 1]);
      if keys[|keys| - 1] in before then before else before + [keys[|keys| - 1]]
  }

  function KeysOf(role: RoleInput): seq<string> {
    if role.permissionKeys.None? then [] else Unique(TrimmedKeys(role.permissionKeys.value))
  }

  function RoleOf(role: RoleInput): CustomRole {
    CustomRole(NameOf(role), DescriptionOf(role), KeysOf(role))
  }

  /** The roles from here on, given the names seen so far; `lower` stands for `toLowerCase`. */
  function NormalizeFrom(lower: string -> string, roles: seq<RoleInput>, seen: set<string>): Normalized
    decreases roles
  {
    if roles == [] then Ok([])
    else
      var name := NameOf(roles[0]);
      if name == "" then NormalizeFrom(lower, roles[1..], seen)
      else if Length(name) > MAX_NAME then Failed(NameTooLong)
      else if lower(name) in seen then Failed(NameNotUnique)
      else
        match NormalizeFrom(lower, roles[1..], seen + {lower(name)})
        case Ok(rest) => Ok([RoleOf(roles[0])] + rest)
        case Failed(problem) => Failed(problem)
  }

  function Normalize(lower: string -> string, roles: Option<seq<RoleInput>>): Normalized {
    if roles.None? then Ok([])
    else if |roles.value| > MAX_ROLES then Failed(TooManyRoles)
    else NormalizeFrom(lower, roles.value, {})
  }

  /** The whole, given the roles already taken. */
  function Continue(taken: seq<CustomRole>, rest: Normalized): Normalized {
    match rest
    case Ok(roles) => Ok(taken + roles)
    case Failed(problem) => Failed(problem)
  }

  lemma TakeOne(lower: string -> string, roles: seq<RoleInput>, seen: set<string>, taken: seq<CustomRole>)
    requires roles != [] && NameOf(roles[0]) != "" && Length(NameOf(roles[0])) <= MAX_NAME
    requires lower(NameOf(roles[0])) !in seen
    ensures Continue(taken, NormalizeFrom(lower, roles, seen)) ==
      Continue(taken + [RoleOf(roles[0])], NormalizeFrom(lower, roles[1..], seen + {lower(NameOf(roles[0]))}))
  {
    hide NameOf, RoleOf;
    var rest := NormalizeFrom(lower, roles[1..], seen + {lower(NameOf(roles[0]))});
    if rest.Ok? {
      assert taken + ([RoleOf(roles[0])] + rest.roles) == taken + [RoleOf(roles[0])] + rest.roles;
    }
  }

  lemma SkipOne(lower: string -> string, roles: seq<RoleInput>, seen: set<string>)
    requires roles != [] && NameOf(roles[0]) == ""
    ensures NormalizeFrom(lower, roles, seen) == NormalizeFrom(lower, roles[1..], seen)
  {
    hide NameOf;
  }

  lemma RefuseOne(lower: string -> string, roles: seq<RoleInput>, seen: set<string>, taken: seq<CustomRole>)
    requires roles != [] && NameOf(roles[0]) != ""
    requires Length(NameOf(roles[0])) > MAX_NAME || lower(NameOf(roles[0])) in seen
    ensures Continue(taken, NormalizeFrom(lower, roles, seen)) ==
      Failed(if Length(NameOf(roles[0])) > MAX_NAME then NameTooLong else NameNotUnique)
  {
    hide NameOf;
  }

  method NormalizeCustomTenantRoles(lower: string -> string, customRoles: Option<seq<RoleInput>>)
    returns (result: Normalized)
    ensures result == Normalize(lower, customRoles)
  {
    if customRoles.None? {
      return Ok([]);
    }
    var input := customRoles.value;
    if |input| > MAX_ROLES {
      return Failed(TooManyRoles);
    }
    hide Continue, NormalizeFrom, NameOf, DescriptionOf, KeysOf, RoleOf, Length, Prefix;
    var seen: set<string> := {};
    var roles: seq<CustomRole> := [];
    NothingTaken(NormalizeFrom(lower, input, {}));
    assert input[0..] == input;
    for i := 0 to |input|
      invariant NormalizeFrom(lower, input, {}) == Continue(roles, NormalizeFrom(lower, input[i..], seen))
    {
      RestOf(input, i);
      var name := NameOf(input[i]);
      if name == "" {
        SkipOne(lower, input[i..], seen);
        continue;
      }
      if Length(name) > MAX_NAME {
        RefuseOne(lower, input[i..], seen, roles);
        return Failed(NameTooLong);
      }
      if lower(name) in seen {
        RefuseOne(lower, input[i..], seen, roles);
        return Failed(NameNotUnique);
      }
      TakeOne(lower, input[i..], seen, roles);
      KeptWhole(input[i]);
      seen := seen + {lower(name)};
      roles := roles + [CustomRole(Prefix(name, MAX_NAME), DescriptionOf(input[i]), KeysOf(input[i]))];
    }
    NothingLeft(lower, input[|input|..], seen, roles);
    return Ok(roles);
  }

  lemma RestOf(input: seq<RoleInput>, i: nat)
    requires i < |input|
    ensures input[i..] != [] && input[i..][0] == input[i] && input[i..][1..] == input[i + 1..]
  {
  }

  lemma KeptWhole(role: RoleInput)
    requires Length(NameOf(role)) <= MAX_NAME
    ensures CustomRole(Prefix(NameOf(role), MAX_NAME), DescriptionOf(role), KeysOf(role)) == RoleOf(role)
  {
    hide NameOf, DescriptionOf, KeysOf;
    PrefixFits(NameOf(role), MAX_NAME);
  }

  lemma NothingTaken(rest: Normalized)
    ensures Continue([], rest) == rest
  {
  }

  lemma NothingLeft(lower: string -> string, roles: seq<RoleInput>, seen: set<string>, taken: seq<CustomRole>)
    requires roles == []
    ensures Continue(taken, NormalizeFrom(lower, roles, seen)) == Ok(taken)
  {
  }

  /** The inputs that have a name. */
  function Named(roles: seq<RoleInput>): seq<RoleInput> {
    if roles == [] then []
    else if NameOf(roles[0]) == "" then Named(roles[1..])
    else [roles[0]] + Named(roles[1..])
  }

  /** No name is too long, and the names differ from each other and from those seen, ignoring case. */
  ghost predicate Acceptable(lower: string -> string, named: seq<RoleInput>, seen: set<string>) {
    && (forall i :: 0 <= i < |named| ==> Length(NameOf(named[i])) <= MAX_NAME && lower(NameOf(named[i])) !in seen)
    && forall i, j :: 0 <= i < j < |named| ==> lower(NameOf(named[i])) != lower(NameOf(named[j]))
  }

  lemma AcceptableFirst(lower: string -> string, first: RoleInput, rest: seq<RoleInput>, seen: set<string>)
    ensures Acceptable(lower, [first] + rest, seen) <==>
      && Length(NameOf(first)) <= MAX_NAME && lower(NameOf(first)) !in seen
      && Acceptable(lower, rest, seen + {lower(NameOf(first))})
  {
    hide NameOf, Length;
    var all := [first] + rest;
    assert all[0] == first && forall i :: 0 <= i < |rest| ==> all[i + 1] == rest[i];
    if Acceptable(lower, all, seen) {
      forall i | 0 <= i < |rest|
        ensures Length(NameOf(rest[i])) <= MAX_NAME && lower(NameOf(rest[i])) !in seen + {lower(NameOf(first))}
      {
        assert rest[i] == all[i + 1];
      }
      forall i, j | 0 <= i < j < |rest| ensures lower(NameOf(rest[i])) != lower(NameOf(rest[j])) {
        assert rest[i] == all[i + 1] && rest[j] == all[j + 1];
      }
    }
    if Length(NameOf(first)) <= MAX_NAME && lower(NameOf(first)) !in seen && Acceptable(lower, rest, seen + {lower(NameOf(first))}) {
      AcceptableWithFirst(lower, first, rest, seen);
    }
  }

  lemma AcceptableWithFirst(lower: string -> string, first: RoleInput, rest: seq<RoleInput>, seen: set<string>)
    requires Length(NameOf(first)) <= MAX_NAME && lower(NameOf(first)) !in seen
    requires Acceptable(lower, rest, seen + {lower(NameOf(first))})
    ensures Acceptable(lower, [first] + rest, seen)
  {
    hide NameOf, Length;
    var all := [first] + rest;
    forall i | 0 <= i < |all| ensures Length(NameOf(all[i])) <= MAX_NAME && lower(NameOf(all[i])) !in seen {
      assert all[i] == if i == 0 then first else rest[i - 1];
    }
    forall i, j | 0 <= i < j < |all| ensures lower(NameOf(all[i])) != lower(NameOf(all[j])) {
      assert all[j] == rest[j - 1] && all[i] == if i == 0 then first else rest[i - 1];
    }
  }

  lemma {:induction false} NormalizeFromIsExact(lower: string -> string, roles: seq<RoleInput>, seen: set<string>)
    ensures NormalizeFrom(lower, roles, seen).Ok? <==> Acceptable(lower, Named(roles), seen)
    ensures NormalizeFrom(lower, roles, seen).Ok? ==>
      var (named, out) := (Named(roles), NormalizeFrom(lower, roles, seen).roles);
      |out| == |named| && forall i :: 0 <= i < |out| ==> out[i] == RoleOf(named[i])
    decreases roles
  {
    if roles != [] {
      var (name, named) := (NameOf(roles[0]), Named(roles));
      if name == "" {
        NormalizeFromIsExact(lower, roles[1..], seen);
      } else {
        NormalizeFromIsExact(lower, roles[1..], seen + {lower(name)});
        AcceptableFirst(lower, roles[0], Named(roles[1..]), seen);
      }
    }
  }

  /**
    Normalisation succeeds exactly when there are at most twenty roles and the named ones have names of at most
    a hundred characters that differ ignoring case; it then keeps the named roles in order.
   */
  lemma NormalizeIsExact(lower: string -> string, roles: seq<RoleInput>)
    ensures Normalize(lower, Some(roles)).Ok? <==> |roles| <= MAX_ROLES && Acceptable(lower, Named(roles), {})
    ensures Normalize(lower, Some(roles)).Ok? ==>
      var (named, out) := (Named(roles), Normalize(lower, Some(roles)).roles);
      && |out| == |named| && (forall i :: 0 <= i < |out| ==> out[i] == RoleOf(named[i]))
      && forall i, j :: 0 <= i < j < |out| ==> lower(out[i].name) != lower(out[j].name)
  {
    NormalizeFromIsExact(lower, roles, {});
  }

  // Idempotence.

  /** A normalised role sent in again. */
  function AsInput(role: CustomRole): RoleInput {
    RoleInput(Some(role.name), role.description, Some(seq(|role.permissionKeys|, i requires 0 <= i < |role.permissionKeys| => Some(role.permissionKeys[i]))))
  }

  function AllAsInput(roles: seq<CustomRole>): seq<RoleInput> {
    seq(|roles|, i requires 0 <= i < |roles| => AsInput(roles[i]))
  }

  lemma {:induction false} UniqueIsDistinct(keys: seq<string>)
    ensures Distinct(Unique(keys)) && forall k :: k in Unique(keys) <==> k in keys
  {
    if keys != [] {
      UniqueIsDistinct(keys[..|keys| - 1]);
      assert keys == keys[..|keys| - 1] + [keys[|keys| - 1]];
    }
  }

  lemma {:induction false} UniqueOfDistinct(keys: seq<string>)
    requires Distinct(keys)
    ensures Unique(keys) == keys
  {
    if keys != [] {
      UniqueOfDistinct(keys[..|keys| - 1]);
      assert keys == keys[..|keys| - 1] + [keys[|keys| - 1]];
    }
  }

  lemma {:induction false} TrimmedKeysAreTrimmed(keys: seq<Option<string>>)
    ensures forall k <- TrimmedKeys(keys) :: k != "" && Trim(k) == k
  {
    if keys != [] {
      TrimmedKeysAreTrimmed(keys[1..]);
      if keys[0].Some? {
        TrimTrims(keys[0].value);
        TrimFixes(Trim(keys[0].value));
      }
    }
  }

  lemma {:induction false} TrimmedKeysOfTrimmed(keys: seq<string>, input: seq<Option<string>>)
    requires |input| == |keys| && forall i :: 0 <= i < |keys| ==> input[i] == Some(keys[i])
    requires forall i :: 0 <= i < |keys| ==> keys[i] != "" && Trim(keys[i]) == keys[i]
    ensures TrimmedKeys(input) == keys
  {
    if keys != [] {
      TrimmedKeysOfTrimmed(keys[1..], input[1..]);
    }
  }

  lemma KeysAreStable(role: RoleInput)
    ensures KeysOf(AsInput(RoleOf(role))) == KeysOf(role)
  {
    var keys := KeysOf(role);
    if role.permissionKeys.Some? {
      UniqueIsDistinct(TrimmedKeys(role.permissionKeys.value));
      TrimmedKeysAreTrimmed(role.permissionKeys.value);
    }
    forall i | 0 <= i < |keys| ensures keys[i] != "" && Trim(keys[i]) == keys[i] {
      assert keys[i] in keys;
    }
    TrimmedKeysOfTrimmed(keys, AsInput(RoleOf(role)).permissionKeys.value);
    UniqueOfDistinct(keys);
  }

  lemma NameIsStable(role: RoleInput)
    ensures NameOf(AsInput(RoleOf(role))) == NameOf(role)
  {
    if role.name.Some? {
      TrimTrims(role.name.value);
    }
    TrimFixes(NameOf(role));
  }

  /** The description was not cut, or not right behind white space. */
  predicate CleanCut(role: RoleInput) {
    role.description.Some? ==> CutsCleanly(Trim(role.description.value), MAX_DESCRIPTION)
  }

  /** A second normalisation leaves a description alone exactly when the first cut it cleanly. */
  lemma DescriptionIsStable(role: RoleInput)
    ensures DescriptionOf(AsInput(RoleOf(role))) == DescriptionOf(role) <==> CleanCut(role)
  {
    hide Trim, Trimmed, Prefix, Length, CutsCleanly, IsSpace;
    if DescriptionOf(role).Some? {
      var d := Trim(role.description.value);
      var cut := Prefix(d, MAX_DESCRIPTION);
      TrimTrims(role.description.value);
      TrimmedPrefix(d, MAX_DESCRIPTION);
      PrefixFits(d, MAX_DESCRIPTION);
      TrimFixes(cut);
      TrimShortens(cut);
      PrefixFits(Trim(cut), MAX_DESCRIPTION);
    } else if role.description.Some? {
      EmptyIsCleanlyCut(MAX_DESCRIPTION);
    }
  }

  lemma EmptyIsCleanlyCut(n: nat)
    ensures CutsCleanly("", n)
  {
  }

  lemma {:induction false} AllAreNamed(roles: seq<RoleInput>)
    requires forall i :: 0 <= i < |roles| ==> NameOf(roles[i]) != ""
    ensures Named(roles) == roles
  {
    if roles != [] {
      AllAreNamed(roles[1..]);
    }
  }

  lemma {:induction false} NamedAreNamed(roles: seq<RoleInput>)
    ensures |Named(roles)| <= |roles| && forall i :: 0 <= i < |Named(roles)| ==> NameOf(Named(roles)[i]) != ""
  {
    if roles != [] {
      NamedAreNamed(roles[1..]);
    }
  }

  /**
    Normalising what normalisation returned changes no name and no key, and changes no description
    exactly when every named role's description was cut cleanly.
   */
  lemma NormalizeTwice(lower: string -> string, roles: seq<RoleInput>)
    requires Normalize(lower, Some(roles)).Ok?
    ensures var once := Normalize(lower, Some(roles)).roles;
      var twice := Normalize(lower, Some(AllAsInput(once)));
      && twice.Ok? && |twice.roles| == |once|
      && (forall i :: 0 <= i < |once| ==>
            twice.roles[i].name == once[i].name && twice.roles[i].permissionKeys == once[i].permissionKeys)
      && (twice.roles == once <==> forall i :: 0 <= i < |Named(roles)| ==> CleanCut(Named(roles)[i]))
  {
    hide NameOf, KeysOf, DescriptionOf, CleanCut;
    var (named, once) := (Named(roles), Normalize(lower, Some(roles)).roles);
    var input := AllAsInput(once);
    NormalizeIsExact(lower, roles);
    NamedAreNamed(roles);
    forall i | 0 <= i < |once| ensures NameOf(input[i]) == NameOf(named[i]) && KeysOf(input[i]) == KeysOf(named[i]) {
      NameIsStable(named[i]);
      KeysAreStable(named[i]);
    }
    AllAreNamed(input);
    NormalizeIsExact(lower, input);
    forall i | 0 <= i < |once| ensures DescriptionOf(input[i]) == once[i].description <==> CleanCut(named[i]) {
      DescriptionIsStable(named[i]);
    }
  }

  // What normalisation means, told by the input alone.

  predicate HasName(role: RoleInput) {
    role.name.Some? && Trim(role.name.value) != ""
  }

  function WithNames(roles: seq<RoleInput>): seq<RoleInput> {
    if roles == [] then []
    else (if HasName(roles[0]) then [roles[0]] else []) + WithNames(roles[1..])
  }

  /** The key is there, trimmed and not empty, at this place and at none before. */
  ghost predicate FirstAt(keys: seq<Option<string>>, k: string, p: int) {
    && 0 <= p < |keys| && k != "" && keys[p].Some? && Trim(keys[p].value) == k
    && forall q :: 0 <= q < p && keys[q].Some? ==> Trim(keys[q].value) != k
  }

  /** The keys that are there, each once, in the order in which they first come. */
  ghost predicate KeysAre(keys: seq<Option<string>>, out: seq<string>) {
    && (forall k :: k in out <==> exists p :: FirstAt(keys, k, p))
    && Distinct(out)
    && forall i, j, p, q :: 0 <= i < j < |out| && FirstAt(keys, out[i], p) && FirstAt(keys, out[j], q) ==> p < q
  }

  ghost predicate IsNormalOf(role: RoleInput, out: CustomRole) {
    && role.name.Some? && out.name == Trim(role.name.value)
    && (match role.description
        case Some(d) => out.description == (if Trim(d) == "" then None else Some(Prefix(Trim(d), 500)))
        case None => out.description == None)
    && (match role.permissionKeys
        case Some(keys) => KeysAre(keys, out.permissionKeys)
        case None => out.permissionKeys == [])
  }

  lemma {:induction false} NamedAreWithNames(roles: seq<RoleInput>)
    ensures Named(roles) == WithNames(roles)
    ensures forall i :: 0 <= i < |WithNames(roles)| ==> HasName(WithNames(roles)[i])
  {
    if roles != [] {
      NamedAreWithNames(roles[1..]);
    }
  }

  /** One more key at the end: it is new, or it is there already, or it does not count. */
  lemma KeysAreGrow(keys: seq<Option<string>>, out: seq<string>, last: Option<string>)
    requires KeysAre(keys, out)
    ensures KeysAre(keys + [last],
                    if last.None? || Trim(last.value) == "" || Trim(last.value) in out then out else out + [Trim(last.value)])
  {
    hide Trim;
    var all := keys + [last];
    forall k, p ensures FirstAt(all, k, p) <==>
      FirstAt(keys, k, p) || (p == |keys| && last.Some? && Trim(last.value) == k && k != "" && k !in out)
    {
      FirstGrows(keys, out, last, k, p);
    }
    hide FirstAt;
    var out' := if last.None? || Trim(last.value) == "" || Trim(last.value) in out then out else out + [Trim(last.value)];
    forall k ensures k in out' <==> exists p :: FirstAt(all, k, p) {
      if k in out {
        var p :| FirstAt(keys, k, p);
        assert FirstAt(all, k, p);
      } else if k in out' {
        assert FirstAt(all, k, |keys|);
      }
    }
    forall i, j, p, q | 0 <= i < j < |out'| && FirstAt(all, out'[i], p) && FirstAt(all, out'[j], q) ensures p < q {
      assert out'[i] == out[i] && out[i] in out && FirstAt(keys, out[i], p);
      FirstIsInside(keys, out[i], p);
      assert j < |out| ==> out'[j] == out[j] && out[j] in out;
    }
  }

  lemma FirstIsInside(keys: seq<Option<string>>, k: string, p: int)
    requires FirstAt(keys, k, p)
    ensures p < |keys|
  {
  }

  lemma {:induction false} FirstExists(keys: seq<Option<string>>, k: string, n: nat) returns (p: nat)
    requires n < |keys| && keys[n].Some? && Trim(keys[n].value) == k && k != ""
    ensures p <= n && FirstAt(keys, k, p)
  {
    hide Trim;
    if q: nat :| q < n && keys[q].Some? && Trim(keys[q].value) == k {
      p := FirstExists(keys, k, q);
    } else {
      p := n;
    }
  }

  lemma FirstGrows(keys: seq<Option<string>>, out: seq<string>, last: Option<string>, k: string, p: int)
    requires KeysAre(keys, out)
    ensures FirstAt(keys + [last], k, p) <==>
      FirstAt(keys, k, p) || (p == |keys| && last.Some? && Trim(last.value) == k && k != "" && k !in out)
  {
    hide Trim;
    var all := keys + [last];
    assert forall q :: 0 <= q < |keys| ==> all[q] == keys[q];
    if p == |keys| && k in out {
      var q :| FirstAt(keys, k, q);
      assert all[q] == keys[q];
    }
    if p == |keys| && last.Some? && Trim(last.value) == k && k != "" && k !in out {
      forall q | 0 <= q < p && all[q].Some? ensures Trim(all[q].value) != k {
        if Trim(keys[q].value) == k {
          var f := FirstExists(keys, k, q);
        }
      }
    }
  }

  lemma TrimmedKeysEnd(keys: seq<Option<string>>, last: Option<string>)
    ensures TrimmedKeys(keys + [last]) ==
      TrimmedKeys(keys) + if last.Some? && Trim(last.value) != "" then [Trim(last.value)] else []
  {
    hide Trim;
    if keys == [] {
      assert keys + [last] == [last] && [last][1..] == [];
    } else {
      TrimmedKeysEnd(keys[1..], last);
      assert (keys + [last])[1..] == keys[1..] + [last];
    }
  }

  lemma {:induction false} KeysAreKept(keys: seq<Option<string>>)
    ensures KeysAre(keys, Unique(TrimmedKeys(keys)))
    decreases |keys|
  {
    hide Trim, KeysAre;
    if keys == [] {
      NoKeys();
    } else {
      var (before, last) := (keys[..|keys| - 1], keys[|keys| - 1]);
      KeysAreKept(before);
      assert keys == before + [last];
      TrimmedKeysEnd(before, last);
      KeysAreGrow(before, Unique(TrimmedKeys(before)), last);
      if last.Some? && Trim(last.value) != "" {
        UniqueEnd(TrimmedKeys(before), Trim(last.value));
      } else {
        assert TrimmedKeys(before) + [] == TrimmedKeys(before);
      }
    }
  }

  lemma NoKeys()
    ensures KeysAre([], [])
  {
  }

  lemma UniqueEnd(keys: seq<string>, k: string)
    ensures Unique(keys + [k]) == if k in Unique(keys) then Unique(keys) else Unique(keys) + [k]
  {
    assert (keys + [k])[..|keys + [k]| - 1] == keys;
  }

  lemma RoleIsNormal(role: RoleInput)
    requires HasName(role)
    ensures IsNormalOf(role, RoleOf(role))
  {
    hide Trim, Prefix, KeysAre, TrimmedKeys, Unique;
    if role.permissionKeys.Some? {
      KeysAreKept(role.permissionKeys.value);
    }
  }

  /** No name has more than a hundred code units, and no two are alike ignoring case. */
  ghost predicate NamesFit(lower: string -> string, named: seq<RoleInput>) {
    && (forall i :: 0 <= i < |named| ==> HasName(named[i]) && Length(Trim(named[i].name.value)) <= 100)
    && forall i, j :: 0 <= i < j < |named| ==> !SameName(lower, named[i], named[j])
  }

  predicate SameName(lower: string -> string, a: RoleInput, b: RoleInput) {
    a.name.Some? && b.name.Some? && lower(Trim(a.name.value)) == lower(Trim(b.name.value))
  }

  /**
    Normalisation succeeds exactly for at most twenty roles whose trimmed names fit. It keeps the roles with a name, in
    order, each with its trimmed name, its description trimmed and cut, and its trimmed keys, each once.
   */
  lemma NormalizeMeans(lower: string -> string, roles: seq<RoleInput>)
    ensures forall i :: 0 <= i < |WithNames(roles)| ==> HasName(WithNames(roles)[i])
    ensures Normalize(lower, Some(roles)).Ok? <==> |roles| <= 20 && NamesFit(lower, WithNames(roles))
    ensures Normalize(lower, Some(roles)).Ok? ==>
      var (named, out) := (WithNames(roles), Normalize(lower, Some(roles)).roles);
      |out| == |named| && forall i :: 0 <= i < |out| ==> IsNormalOf(named[i], out[i])
  {
    hide Trim, Length, Normalize, RoleOf, IsNormalOf;
    NamedAreWithNames(roles);
    NormalizeIsExact(lower, roles);
    var named := WithNames(roles);
    forall i | 0 <= i < |named| ensures NameOf(named[i]) == Trim(named[i].name.value) {}
    forall i | 0 <= i < |named| ensures IsNormalOf(named[i], RoleOf(named[i])) {
      RoleIsNormal(named[i]);
    }
  }

  /** It fails at the first role that does not fit, and says whether its name is too long or taken. */
  lemma {:induction false} FailsAtFirst(lower: string -> string, roles: seq<RoleInput>, seen: set<string>) returns (i: nat)
    requires NormalizeFrom(lower, roles, seen).Failed?
    ensures i < |Named(roles)| && Acceptable(lower, Named(roles)[..i], seen)
    ensures var (named, problem) := (Named(roles), NormalizeFrom(lower, roles, seen).problem);
      && (problem == NameTooLong <==> Length(NameOf(named[i])) > MAX_NAME)
      && (problem != NameTooLong ==> problem == NameNotUnique)
      && (problem == NameNotUnique ==>
            (lower(NameOf(named[i])) in seen || exists j :: 0 <= j < i && lower(NameOf(named[j])) == lower(NameOf(named[i]))))
    decreases roles
  {
    hide NameOf, Length, RoleOf;
    var (name, named) := (NameOf(roles[0]), Named(roles));
    if name == "" {
      i := FailsAtFirst(lower, roles[1..], seen);
    } else if Length(name) > MAX_NAME || lower(name) in seen {
      i := 0;
    } else {
      var k := FailsAtFirst(lower, roles[1..], seen + {lower(name)});
      i := k + 1;
      var rest := Named(roles[1..]);
      assert named == [roles[0]] + rest && named[..i] == [roles[0]] + rest[..k];
      AcceptableFirst(lower, roles[0], rest[..k], seen);
      if lower(NameOf(named[i])) == lower(name) {
        assert named[0] == roles[0];
      }
      if j :| 0 <= j < k && lower(NameOf(rest[j])) == lower(NameOf(rest[k])) {
        assert named[j + 1] == rest[j];
      }
    }
  }

  lemma NormalizeFailsAtFirst(lower: string -> string, roles: seq<RoleInput>) returns (i: nat)
    requires Normalize(lower, Some(roles)).Failed?
    ensures forall k :: 0 <= k < |WithNames(roles)| ==> HasName(WithNames(roles)[k])
    ensures var (named, problem) := (WithNames(roles), Normalize(lower, Some(roles)).problem);
      && (problem == TooManyRoles <==> |roles| > 20)
      && (problem != TooManyRoles ==>
            && i < |named| && NamesFit(lower, named[..i])
            && HasName(named[i]) && (problem == NameTooLong <==> Length(Trim(named[i].name.value)) > 100)
            && (problem == NameNotUnique ==> exists j :: 0 <= j < i && SameName(lower, named[j], named[i])))
  {
    hide Trim, Length, NormalizeFrom;
    i := 0;
    NamedAreWithNames(roles);
    var named := WithNames(roles);
    forall k | 0 <= k < |named| ensures NameOf(named[k]) == Trim(named[k].name.value) {}
    if |roles| <= MAX_ROLES {
      i := FailsAtFirst(lower, roles, {});
    }
  }
}

/** The OpenStack admin commands on security modes. A repository is a map; a command works on
    the copy of a region that it has read, and stores it with `save`. A request field that is
    null is the empty string here: every command treats the two alike. */
module SecurityModes {
  import opened Wrappers

  datatype Mode = Mode(name: string, description: string, adminGroup: string, isDefault: bool)

  datatype Region = Region(id: string, modes: map<string, Mode>)

  datatype TenantKey = TenantKey(alias: string, regionId: string)

  /** Regions by alias; the security mode of every tenant, None when it is unset. */
  datatype State = State(regions: map<string, Region>, tenants: map<TenantKey, Option<string>>)

  datatype Command =
    | Configure(region: string, name: string, description: string, group: string, isDefault: bool, override: bool,
                groupExists: bool)                // what the security group service answers
    | Delete(region: string, name: string)
    | CreateTenant(region: string, alias: string, mode: string, complete: bool)  // the other fields are filled in
    | SetMode(region: string, newMode: string, tenant: string, currentMode: string)

  datatype Error =
    | Invalid | NoRegion | NoMode | ModeExists | NoSecurityGroup | DefaultExists | ModeInUse | NoTenant | NoTenants
    | TenantExists

  /** `Report` maps the alias of each tenant set to the mode it had before. */
  datatype Response = Done | NothingToUpdate | Report(before: map<string, Option<string>>) | Failed(error: Error)

  /** `StringUtils.isBlank`, for the whitespace characters of ASCII. */
  predicate IsBlank(s: string) {
    forall i :: 0 <= i < |s| ==> s[i] == ' ' || '\t' <= s[i] <= '\r' || '\U{1c}' <= s[i] <= '\U{1f}'
  }

  // ----- configuring a mode

  predicate HasDefault(modes: map<string, Mode>) {
    exists n :: n in modes && modes[n].isDefault
  }

  function ClearDefaults(modes: map<string, Mode>): map<string, Mode> {
    map n | n in modes :: modes[n].(isDefault := false)
  }

  /** `updateDescription` and `updateDefaultMode` on the modes of a region, and whether one of
      them made a change. */
  function Override(modes: map<string, Mode>, name: string, description: string, isDefault: bool)
    : (map<string, Mode>, bool)
    requires name in modes
  {
    var described := !IsBlank(description) && modes[name].description != description;
    var modes1 := if described then modes[name := modes[name].(description := description)] else modes;
    if modes1[name].isDefault == isDefault then (modes1, described)
    else if isDefault then (ClearDefaults(modes1)[name := modes1[name].(isDefault := true)], true)
    else (modes1[name := modes1[name].(isDefault := false)], true)
  }

  function ConfigureMode(s: State, c: Command): (State, Response)
    requires c.Configure?
  {
    if IsBlank(c.region) || IsBlank(c.name) || IsBlank(c.group) != c.override then (s, Failed(Invalid))
    else if c.region !in s.regions then (s, Failed(NoRegion))
    else
      var region := s.regions[c.region];
      if c.override then
        if c.name !in region.modes then (s, Failed(NoMode))
        else
          var (modes, updated) := Override(region.modes, c.name, c.description, c.isDefault);
          if updated then (s.(regions := s.regions[c.region := region.(modes := modes)]), Done)
          else (s, NothingToUpdate)
      else if c.name in region.modes then (s, Failed(ModeExists))
      else if !c.groupExists then (s, Failed(NoSecurityGroup))
      else if c.isDefault && HasDefault(region.modes) then (s, Failed(DefaultExists))
      else
        var mode := Mode(c.name, c.description, c.group, c.isDefault);
        (s.(regions := s.regions[c.region := region.(modes := region.modes[c.name := mode])]), Done)
  }

  // ----- deleting a mode

  function TenantsWithMode(s: State, regionId: string, name: string): set<TenantKey> {
    set t | t in s.tenants && t.regionId == regionId && s.tenants[t] == Some(name)
  }

  function DeleteMode(s: State, c: Command): (State, Response)
    requires c.Delete?
  {
    if IsBlank(c.region) || IsBlank(c.name) then (s, Failed(Invalid))
    else if c.region !in s.regions then (s, Failed(NoRegion))
    else
      var region := s.regions[c.region];
      if c.name !in region.modes then (s, Failed(NoMode))
      else if |TenantsWithMode(s, region.id, c.name)| > 0 then (s, Failed(ModeInUse))
      else (s.(regions := s.regions[c.region := region.(modes := region.modes - {c.name})]), Done)
  }

  // ----- tenants

  ghost function DefaultName(modes: map<string, Mode>): string
    requires HasDefault(modes)
  {
    var n :| n in modes && modes[n].isDefault;
    n
  }

  ghost function AddTenant(s: State, c: Command): (State, Response)
    requires c.CreateTenant?
  {
    if c.region !in s.regions then (s, Failed(NoRegion))
    else if IsBlank(c.alias) || !c.complete then (s, Failed(Invalid))
    else
      var region := s.regions[c.region];
      var key := TenantKey(c.alias, region.id);
      if key in s.tenants then (s, Failed(TenantExists))
      else if !IsBlank(c.mode) then
        if c.mode !in region.modes then (s, Failed(NoMode))
        else (s.(tenants := s.tenants[key := Some(c.mode)]), Done)
      else
        var mode := if HasDefault(region.modes) then Some(region.modes[DefaultName(region.modes)].name) else None;
        (s.(tenants := s.tenants[key := mode]), Done)
  }

  /** `getTenants`: one tenant, those with the current mode, or all of the region. */
  function Chosen(s: State, regionId: string, c: Command): set<TenantKey>
    requires c.SetMode?
  {
    if !IsBlank(c.tenant) then set t | t in s.tenants && t == TenantKey(c.tenant, regionId)
    else if !IsBlank(c.currentMode) then TenantsWithMode(s, regionId, c.currentMode)
    else set t | t in s.tenants && t.regionId == regionId
  }

  function Assign(tenants: map<TenantKey, Option<string>>, chosen: set<TenantKey>, mode: string)
    : map<TenantKey, Option<string>>
  {
    map t | t in tenants :: if t in chosen then Some(mode) else tenants[t]
  }

  function Before(tenants: map<TenantKey, Option<string>>, chosen: set<TenantKey>): map<string, Option<string>>
    requires chosen <= tenants.Keys && forall t, u :: t in chosen && u in chosen && t.alias == u.alias ==> t == u
  {
    map t | t in chosen :: t.alias := tenants[t]
  }

  function SetModes(s: State, c: Command): (State, Response)
    requires c.SetMode?
  {
    if IsBlank(c.region) || IsBlank(c.newMode) || (!IsBlank(c.tenant) && !IsBlank(c.currentMode)) then
      (s, Failed(Invalid))
    else if c.region !in s.regions then (s, Failed(NoRegion))
    else
      var region := s.regions[c.region];
      if c.newMode !in region.modes then (s, Failed(NoMode))
      else
        var chosen := Chosen(s, region.id, c);
        if chosen == {} then (s, Failed(if IsBlank(c.tenant) then NoTenants else NoTenant))
        else
          (s.(tenants := Assign(s.tenants, chosen, region.modes[c.newMode].name)), Report(Before(s.tenants, chosen)))
  }

  ghost function Step(s: State, c: Command): (State, Response) {
    match c
    case Configure(_, _, _, _, _, _, _) => ConfigureMode(s, c)
    case Delete(_, _) => DeleteMode(s, c)
    case CreateTenant(_, _, _, _) => AddTenant(s, c)
    case SetMode(_, _, _, _) => SetModes(s, c)
  }

  ghost function Run(s: State, cs: seq<Command>): State
    decreases |cs|
  {
    if cs == [] then s else Run(Step(s, cs[0]).0, cs[1..])
  }

  // ----- referential integrity

  ghost predicate RegionOk(r: Region) {
    && (forall n :: n in r.modes ==> r.modes[n].name == n)
    && (forall m, n :: m in r.modes && n in r.modes && r.modes[m].isDefault && r.modes[n].isDefault ==> m == n)
  }

  /** The region with this id is the one at this alias. */
  ghost predicate IdsDistinct(s: State) {
    forall a, b :: a in s.regions && b in s.regions && s.regions[a].id == s.regions[b].id ==> a == b
  }

  ghost predicate TenantOk(s: State, t: TenantKey)
    requires t in s.tenants
  {
    exists a :: a in s.regions && s.regions[a].id == t.regionId
      && (s.tenants[t].Some? ==> s.tenants[t].value in s.regions[a].modes)
  }

  /** Each region has at most one default mode and keys its modes by name, and the mode of each
      tenant is unset or configured in the tenant's own region. */
  ghost predicate Valid(s: State) {
    && (forall a :: a in s.regions ==> RegionOk(s.regions[a]))
    && IdsDistinct(s)
    && (forall t :: t in s.tenants ==> TenantOk(s, t))
  }

  // ----- override

  /** `updateRequired` is true exactly when the configurations of the region change; the other
      modes keep all but their default flag, and a new default displaces the old one. */
  lemma OverrideExactly(modes: map<string, Mode>, name: string, description: string, isDefault: bool)
    requires name in modes && RegionOk(Region("", modes))
    ensures var (modes', updated) := Override(modes, name, description, isDefault);
      && (updated <==> modes' != modes)
      && modes'.Keys == modes.Keys && RegionOk(Region("", modes'))
      && modes'[name].isDefault == isDefault
      && modes'[name].description == (if IsBlank(description) then modes[name].description else description)
      && (forall n :: n in modes ==> modes'[n].adminGroup == modes[n].adminGroup)
      && (forall n :: n in modes && n != name ==>
            modes'[n] == if isDefault then modes[n].(isDefault := false) else modes[n])
  {
    var described := !IsBlank(description) && modes[name].description != description;
    var modes1 := if described then modes[name := modes[name].(description := description)] else modes;
    var (modes', updated) := Override(modes, name, description, isDefault);
    assert described ==> modes1[name] != modes[name];
    assert modes1.Keys == modes.Keys;
    assert updated ==> modes'[name] != modes[name];
  }

  /** A mode is created exactly under a new name, with a group that exists, and as the default
      only of a region without one; the region gains that mode and nothing else changes. */
  lemma CreateExactly(s: State, c: Command)
    requires c.Configure? && !c.override && Valid(s)
    requires !IsBlank(c.region) && !IsBlank(c.name) && !IsBlank(c.group) && c.region in s.regions
    ensures var (s', r) := ConfigureMode(s, c);
      var modes := s.regions[c.region].modes;
      && (r == Done <==>
            && c.name !in modes && c.groupExists
            && (c.isDefault ==> forall n :: n in modes ==> !modes[n].isDefault))
      && (r == Done ==>
            && s'.tenants == s.tenants && s'.regions.Keys == s.regions.Keys
            && (forall a :: a in s.regions && a != c.region ==> s'.regions[a] == s.regions[a])
            && s'.regions[c.region].id == s.regions[c.region].id
            && var modes' := s'.regions[c.region].modes;
            && modes'.Keys == modes.Keys + {c.name}
            && (forall n :: n in modes ==> modes'[n] == modes[n])
            && modes'[c.name] == Mode(c.name, c.description, c.group, c.isDefault))
      && (r != Done ==> r.Failed? && s' == s)
  {
  }

  /** Overriding is accepted exactly with the fields it asks for, of a known mode. Then the mode has
      the default flag asked for, and the new description unless that is blank; the other modes
      keep all but a default flag that the new default displaces, and nothing else changes. */
  lemma OverrideCommandExactly(s: State, c: Command)
    requires c.Configure? && c.override && Valid(s)
    ensures var (s', r) := ConfigureMode(s, c);
      && (!r.Failed? <==>
            && !IsBlank(c.region) && !IsBlank(c.name) && IsBlank(c.group)
            && c.region in s.regions && c.name in s.regions[c.region].modes)
      && (r.Failed? ==> s' == s)
      && (!r.Failed? ==>
            && (r == Done || r == NothingToUpdate) && (r == NothingToUpdate <==> s' == s)
            && s'.tenants == s.tenants && s'.regions.Keys == s.regions.Keys
            && (forall a :: a in s.regions && a != c.region ==> s'.regions[a] == s.regions[a])
            && s'.regions[c.region].id == s.regions[c.region].id
            && var modes, modes' := s.regions[c.region].modes, s'.regions[c.region].modes;
            && modes'.Keys == modes.Keys
            && modes'[c.name] == modes[c.name].(isDefault := c.isDefault,
                 description := if IsBlank(c.description) then modes[c.name].description else c.description)
            && (forall n :: n in modes && n != c.name ==>
                  modes'[n] == if c.isDefault then modes[n].(isDefault := false) else modes[n]))
  {
    var (s', r) := ConfigureMode(s, c);
    if !r.Failed? {
      var modes := s.regions[c.region].modes;
      assert RegionOk(s.regions[c.region]);
      OverrideExactly(modes, c.name, c.description, c.isDefault);
      assert r.Done? ==> s'.regions[c.region].modes != modes;
    }
  }

  /** Only an accepted command changes anything. */
  lemma ChangesOnlyWhenAccepted(s: State, c: Command)
    requires c.Configure? && ConfigureMode(s, c).0 != s
    ensures ConfigureMode(s, c).1 == Done
    ensures !IsBlank(c.region) && !IsBlank(c.name) && (c.override || !IsBlank(c.group)) && c.region in s.regions
  {
    hide IsBlank, Override;
  }

  lemma ConfigureKeeps(s: State, c: Command)
    requires c.Configure? && Valid(s)
    ensures Valid(ConfigureMode(s, c).0)
  {
    hide ConfigureMode, IdsDistinct, TenantOk, IsBlank;
    var s' := ConfigureMode(s, c).0;
    if s' != s {
      ChangesOnlyWhenAccepted(s, c);
      assert RegionOk(s.regions[c.region]);
      if c.override {
        OverrideCommandExactly(s, c);
      } else {
        CreateExactly(s, c);
      }
      assert s.regions[c.region].modes.Keys <= s'.regions[c.region].modes.Keys;
      TenantsKept(s, s');
      ConfiguredRegion(s, c);
    }
  }

  lemma ConfiguredRegion(s: State, c: Command)
    requires c.Configure? && Valid(s) && ConfigureMode(s, c).1 == Done
    ensures var s' := ConfigureMode(s, c).0; forall a :: a in s'.regions ==> RegionOk(s'.regions[a])
  {
    hide IsBlank, Override, IdsDistinct, TenantOk;
    var region := s.regions[c.region];
    assert RegionOk(region);
    if c.override {
      OverrideExactly(region.modes, c.name, c.description, c.isDefault);
    }
  }

  /** Regions that only gain modes keep their tenants in order. */
  lemma TenantsKept(s: State, s': State)
    requires Valid(s) && s'.tenants == s.tenants && s'.regions.Keys == s.regions.Keys
    requires forall a :: a in s.regions ==>
      s'.regions[a].id == s.regions[a].id && s.regions[a].modes.Keys <= s'.regions[a].modes.Keys
    ensures IdsDistinct(s') && forall t :: t in s'.tenants ==> TenantOk(s', t)
  {
    forall t | t in s'.tenants ensures TenantOk(s', t) {
      assert TenantOk(s, t);
      var a :| a in s.regions && s.regions[a].id == t.regionId
        && (s.tenants[t].Some? ==> s.tenants[t].value in s.regions[a].modes);
      assert a in s'.regions;
    }
  }

  // ----- delete

  /** Deletion succeeds exactly when the mode exists and no tenant of the region has it, and
      then it takes away that mode alone. */
  lemma DeleteExactly(s: State, c: Command)
    requires c.Delete? && !IsBlank(c.region) && !IsBlank(c.name) && c.region in s.regions
    ensures var (s', r) := DeleteMode(s, c);
      var region := s.regions[c.region];
      && (r == Done <==>
            && c.name in region.modes
            && forall t :: t in s.tenants && t.regionId == region.id ==> s.tenants[t] != Some(c.name))
      && (r == Done ==> s' == s.(regions := s.regions[c.region := region.(modes := region.modes - {c.name})]))
      && (r != Done ==> s' == s)
  {
    var region := s.regions[c.region];
    assert TenantsWithMode(s, region.id, c.name) == {} <==>
      forall t :: t in s.tenants && t.regionId == region.id ==> s.tenants[t] != Some(c.name) by {
      if TenantsWithMode(s, region.id, c.name) != {} {
        var t :| t in TenantsWithMode(s, region.id, c.name);
      } else {
        forall t | t in s.tenants && t.regionId == region.id ensures s.tenants[t] != Some(c.name) {
          assert t !in TenantsWithMode(s, region.id, c.name);
        }
      }
    }
  }

  lemma DeleteKeeps(s: State, c: Command)
    requires c.Delete? && Valid(s)
    ensures Valid(DeleteMode(s, c).0)
  {
    var (s', r) := DeleteMode(s, c);
    if r.Done? {
      DeleteExactly(s, c);
      assert RegionOk(s.regions[c.region]);
      forall t | t in s'.tenants ensures TenantOk(s', t) {
        assert TenantOk(s, t);
        var a :| a in s.regions && s.regions[a].id == t.regionId
          && (s.tenants[t].Some? ==> s.tenants[t].value in s.regions[a].modes);
        assert a in s'.regions && s'.regions[a].id == t.regionId;
      }
    }
  }

  // ----- tenants

  lemma AddTenantKeeps(s: State, c: Command)
    requires c.CreateTenant? && Valid(s)
    ensures Valid(AddTenant(s, c).0)
  {
    var (s', r) := AddTenant(s, c);
    if r.Done? {
      var region := s.regions[c.region];
      assert RegionOk(region);
      forall t | t in s'.tenants ensures TenantOk(s', t) {
        if t in s.tenants {
          assert TenantOk(s, t);
        } else {
          assert c.region in s'.regions && s'.regions[c.region].id == t.regionId;
        }
      }
    }
  }

  /** A tenant is added exactly when the region is known, the tenant new and the mode asked for
      configured. Nothing else changes, and without a mode asked for the tenant has the default
      of its region, whichever mode that is, or none. */
  lemma NewTenantExactly(s: State, c: Command)
    requires c.CreateTenant? && Valid(s)
    ensures var (s', r) := AddTenant(s, c);
      && (r.Done? <==>
            && c.region in s.regions && !IsBlank(c.alias) && c.complete
            && TenantKey(c.alias, s.regions[c.region].id) !in s.tenants
            && (IsBlank(c.mode) || c.mode in s.regions[c.region].modes))
      && (r.Done? ==>
            var region := s.regions[c.region];
            var key := TenantKey(c.alias, region.id);
            && key in s'.tenants && s' == s.(tenants := s.tenants[key := s'.tenants[key]])
            && (!IsBlank(c.mode) ==> s'.tenants[key] == Some(c.mode))
            && (IsBlank(c.mode) ==>
                  forall n :: n in region.modes && region.modes[n].isDefault <==>
                    n in region.modes && s'.tenants[key] == Some(n)))
      && (!r.Done? ==> s' == s)
  {
    if c.region in s.regions {
      assert RegionOk(s.regions[c.region]);
    }
  }

  /** The tenants a request means: those of the region, with the alias and the current mode if it
      names one. */
  predicate Meant(s: State, id: string, c: Command, t: TenantKey)
    requires c.SetMode?
  {
    && t in s.tenants && t.regionId == id
    && (!IsBlank(c.tenant) ==> t.alias == c.tenant)
    && (!IsBlank(c.currentMode) ==> s.tenants[t] == Some(c.currentMode))
  }

  lemma ChosenIsMeant(s: State, id: string, c: Command)
    requires c.SetMode? && (IsBlank(c.tenant) || IsBlank(c.currentMode))
    ensures forall t :: t in Chosen(s, id, c) <==> Meant(s, id, c, t)
  {
  }

  /** Setting a mode succeeds exactly on a known region with that mode, with at most one of tenant
      and current mode given, when some tenant is meant. It reaches exactly the tenants meant, and
      the report lists them with the modes they had. */
  lemma SetModesExactly(s: State, c: Command)
    requires c.SetMode? && Valid(s)
    ensures var (s', r) := SetModes(s, c);
      && (r.Report? <==>
            && !IsBlank(c.region) && !IsBlank(c.newMode) && (IsBlank(c.tenant) || IsBlank(c.currentMode))
            && c.region in s.regions && c.newMode in s.regions[c.region].modes
            && exists t :: Meant(s, s.regions[c.region].id, c, t))
      && (!r.Report? ==> r.Failed? && s' == s)
      && (r.Report? ==>
            var id := s.regions[c.region].id;
            && s'.regions == s.regions && s'.tenants.Keys == s.tenants.Keys
            && (forall t :: t in s.tenants ==>
                  s'.tenants[t] == if Meant(s, id, c, t) then Some(c.newMode) else s.tenants[t])
            && (forall t :: Meant(s, id, c, t) ==> t.alias in r.before && r.before[t.alias] == s.tenants[t])
            && (forall x :: x in r.before ==> Meant(s, id, c, TenantKey(x, id))))
  {
    if c.region in s.regions {
      assert RegionOk(s.regions[c.region]);
      if IsBlank(c.tenant) || IsBlank(c.currentMode) {
        ChosenIsMeant(s, s.regions[c.region].id, c);
      }
    }
  }

  lemma SetModesKeeps(s: State, c: Command)
    requires c.SetMode? && Valid(s)
    ensures Valid(SetModes(s, c).0)
  {
    hide SetModes;
    var (s', r) := SetModes(s, c);
    SetModesExactly(s, c);
    if r.Report? {
      forall t | t in s'.tenants ensures TenantOk(s', t) {
        assert TenantOk(s, t);
        if Meant(s, s.regions[c.region].id, c, t) {
          assert c.region in s'.regions && s'.regions[c.region].id == t.regionId;
        }
      }
    }
  }

  // ----- commands one after the other

  /** No tenant can have a mode that is not there yet, so deleting a mode just created succeeds
      and gives the state back. */
  lemma DeleteUndoesCreate(s: State, c: Command)
    requires c.Configure? && !c.override && Valid(s) && ConfigureMode(s, c).1 == Done
    ensures DeleteMode(ConfigureMode(s, c).0, Delete(c.region, c.name)) == (s, Done)
  {
    var region := s.regions[c.region];
    var s1 := ConfigureMode(s, c).0;
    forall t | t in s1.tenants && t.regionId == region.id ensures s1.tenants[t] != Some(c.name) {
      assert TenantOk(s, t);
    }
    DeleteExactly(s1, Delete(c.region, c.name));
    assert s1.regions[c.region].modes - {c.name} == region.modes;
    assert s1.regions[c.region := region] == s.regions;
  }

  /** When all tenants with a mode have been given another one, the mode can be deleted. */
  lemma MoveThenDelete(s: State, c: Command)
    requires c.SetMode? && Valid(s) && SetModes(s, c).1.Report?
    requires !IsBlank(c.currentMode) && c.currentMode != c.newMode && c.currentMode in s.regions[c.region].modes
    ensures DeleteMode(SetModes(s, c).0, Delete(c.region, c.currentMode)).1 == Done
  {
    hide SetModes;
    SetModesExactly(s, c);
    var s1 := SetModes(s, c).0;
    DeleteExactly(s1, Delete(c.region, c.currentMode));
    forall t | t in s1.tenants && t.regionId == s1.regions[c.region].id ensures s1.tenants[t] != Some(c.currentMode) {
      assert Meant(s, s.regions[c.region].id, c, t) || s.tenants[t] != Some(c.currentMode);
    }
  }

  // ----- every run

  lemma StepKeeps(s: State, c: Command)
    requires Valid(s)
    ensures Valid(Step(s, c).0)
    ensures Step(s, c).1.Failed? || Step(s, c).1.NothingToUpdate? ==> Step(s, c).0 == s
  {
    match c
    case Configure(_, _, _, _, _, _, _) => ConfigureKeeps(s, c);
    case Delete(_, _) => DeleteKeeps(s, c);
    case CreateTenant(_, _, _, _) => AddTenantKeeps(s, c);
    case SetMode(_, _, _, _) => SetModesKeeps(s, c);
  }

  /** Every sequence of commands keeps the integrity of regions and tenants. */
  lemma {:induction false} RunKeeps(s: State, cs: seq<Command>)
    requires Valid(s)
    ensures Valid(Run(s, cs))
    decreases |cs|
  {
    if cs != [] {
      StepKeeps(s, cs[0]);
      RunKeeps(Step(s, cs[0]).0, cs[1..]);
    }
  }

  // ----- what a failing command answers

  /** The error says what is wrong with the command. */
  ghost predicate Blames(s: State, c: Command, e: Error) {
    match e
    case Invalid => (
      match c
      case Configure(region, name, _, group, _, override, _) =>
        IsBlank(region) || IsBlank(name) || (override <==> !IsBlank(group))
      case Delete(region, name) => IsBlank(region) || IsBlank(name)
      case CreateTenant(_, alias, _, complete) => IsBlank(alias) || !complete
      case SetMode(region, newMode, tenant, currentMode) =>
        IsBlank(region) || IsBlank(newMode) || !(IsBlank(tenant) || IsBlank(currentMode)))
    case NoRegion => c.region !in s.regions
    case NoMode => c.region in s.regions && (
      var modes := s.regions[c.region].modes;
      match c
      case Configure(_, name, _, _, _, override, _) => override && name !in modes
      case Delete(_, name) => name !in modes
      case CreateTenant(_, _, mode, _) => !IsBlank(mode) && mode !in modes
      case SetMode(_, newMode, _, _) => newMode !in modes)
    case ModeExists =>
      c.Configure? && !c.override && c.region in s.regions && c.name in s.regions[c.region].modes
    case NoSecurityGroup => c.Configure? && !c.override && !c.groupExists
    case DefaultExists =>
      && c.Configure? && !c.override && c.isDefault && c.region in s.regions
      && exists n :: n in s.regions[c.region].modes && s.regions[c.region].modes[n].isDefault
    case ModeInUse =>
      && c.Delete? && c.region in s.regions
      && exists t :: t in s.tenants && t.regionId == s.regions[c.region].id && s.tenants[t] == Some(c.name)
    case TenantExists =>
      c.CreateTenant? && c.region in s.regions && TenantKey(c.alias, s.regions[c.region].id) in s.tenants
    case NoTenant => c.SetMode? && !IsBlank(c.tenant) && NobodyMeant(s, c)
    case NoTenants => c.SetMode? && IsBlank(c.tenant) && NobodyMeant(s, c)
  }

  ghost predicate NobodyMeant(s: State, c: Command)
    requires c.SetMode?
  {
    c.region in s.regions && !exists t :: Meant(s, s.regions[c.region].id, c, t)
  }

  /** What a command complains of first. Only the new tenant has its region looked up before its
      fields are checked. */
  function Order(c: Command, e: Error): nat {
    match e
    case Invalid => 1
    case NoRegion => if c.CreateTenant? then 0 else 2
    case TenantExists => 3
    case ModeExists => 4
    case NoMode => 4
    case NoSecurityGroup => 5
    case ModeInUse => 5
    case NoTenant => 5
    case NoTenants => 5
    case DefaultExists => 6
  }

  /** The answer is an error exactly when there is something to complain of; it names what is wrong,
      and of several things the first. */
  ghost predicate Answers(s: State, c: Command, r: Response) {
    && (r.Failed? <==> exists e :: Blames(s, c, e))
    && (r.Failed? ==> Blames(s, c, r.error) && forall e :: Blames(s, c, e) ==> Order(c, r.error) <= Order(c, e))
  }

  lemma ConfigureAnswers(s: State, c: Command)
    requires c.Configure?
    ensures Answers(s, c, ConfigureMode(s, c).1)
  {
    hide IsBlank, Override;
    var r := ConfigureMode(s, c).1;
    assert r.Failed? ==> Blames(s, c, r.error);
  }

  lemma DeleteAnswers(s: State, c: Command)
    requires c.Delete?
    ensures Answers(s, c, DeleteMode(s, c).1)
  {
    hide IsBlank;
    var r := DeleteMode(s, c).1;
    if c.region in s.regions {
      var used := TenantsWithMode(s, s.regions[c.region].id, c.name);
      assert used != {} ==> exists t :: t in used;
      assert forall t :: t in used <==>
        t in s.tenants && t.regionId == s.regions[c.region].id && s.tenants[t] == Some(c.name);
    }
    assert r.Failed? ==> Blames(s, c, r.error);
  }

  lemma CreateTenantAnswers(s: State, c: Command)
    requires c.CreateTenant?
    ensures Answers(s, c, AddTenant(s, c).1)
  {
    hide IsBlank, DefaultName;
    var r := AddTenant(s, c).1;
    assert r.Failed? ==> Blames(s, c, r.error);
  }

  lemma SetModeAnswers(s: State, c: Command)
    requires c.SetMode?
    ensures Answers(s, c, SetModes(s, c).1)
  {
    hide IsBlank, Assign, Before, Meant, Chosen;
    var r := SetModes(s, c).1;
    if c.region in s.regions && (IsBlank(c.tenant) || IsBlank(c.currentMode)) {
      ChosenIsMeant(s, s.regions[c.region].id, c);
      assert Chosen(s, s.regions[c.region].id, c) != {} ==> exists t :: t in Chosen(s, s.regions[c.region].id, c);
    }
    assert r.Failed? ==> Blames(s, c, r.error);
  }

  lemma FailsExactly(s: State, c: Command)
    ensures Answers(s, c, Step(s, c).1)
  {
    hide Answers, ConfigureMode, DeleteMode, AddTenant, SetModes;
    match c
    case Configure(_, _, _, _, _, _, _) => ConfigureAnswers(s, c);
    case Delete(_, _) => DeleteAnswers(s, c);
    case CreateTenant(_, _, _, _) => CreateTenantAnswers(s, c);
    case SetMode(_, _, _, _) => SetModeAnswers(s, c);
  }
}

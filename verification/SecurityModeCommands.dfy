/** The commands of SecurityModes.dfy as the Java classes execute them: read a region, change
    its configurations in place, save it. */
module SecurityModeCommands {
  import opened SecurityModes
  import opened Wrappers

  /** One region as read from the repository. */
  class RegionConfig {
    const id: string
    var modes: map<string, Mode>

    constructor (region: Region)
      ensures View() == region
    {
      id, modes := region.id, region.modes;
    }

    ghost function View(): Region
      reads this
    {
      Region(id, modes)
    }

    method UpdateDescription(name: string, description: string) returns (updated: bool)
      requires name in modes
      modifies this
      ensures updated == (!IsBlank(description) && old(modes)[name].description != description)
      ensures modes == if updated then old(modes)[name := old(modes)[name].(description := description)] else old(modes)
    {
      if IsBlank(description) || modes[name].description == description {
        return false;
      }
      modes := modes[name := modes[name].(description := description)];
      updated := true;
    }

    /** Takes the default flag from every configuration in turn. */
    method ClearAllDefaults()
      modifies this
      ensures modes == ClearDefaults(old(modes))
    {
      var names := modes.Keys;
      while names != {}
        invariant modes.Keys == old(modes).Keys && names <= modes.Keys
        invariant forall n :: n in modes ==>
          modes[n] == if n in names then old(modes)[n] else old(modes)[n].(isDefault := false)
        decreases |names|
      {
        var n :| n in names;
        modes := modes[n := modes[n].(isDefault := false)];
        names := names - {n};
      }
    }

    method UpdateDefaultMode(name: string, isDefault: bool) returns (updated: bool)
      requires name in modes
      modifies this
      ensures updated == (old(modes)[name].isDefault != isDefault)
      ensures modes ==
        if !updated then old(modes)
        else if isDefault then ClearDefaults(old(modes))[name := old(modes)[name].(isDefault := true)]
        else old(modes)[name := old(modes)[name].(isDefault := false)]
    {
      if !isDefault {
        if modes[name].isDefault {
          modes := modes[name := modes[name].(isDefault := false)];
          return true;
        }
        return false;
      }
      if modes[name].isDefault {
        return false;
      }
      ClearAllDefaults();
      modes := modes[name := modes[name].(isDefault := true)];
      updated := true;
    }

    /** `getDefaultSecurityModeConfiguration` */
    method GetDefault() returns (mode: Option<Mode>)
      ensures mode.Some? == HasDefault(modes)
      ensures mode.Some? ==> exists n :: n in modes && modes[n].isDefault && modes[n] == mode.value
    {
      var names := modes.Keys;
      while names != {}
        invariant names <= modes.Keys && forall n :: n in modes && n !in names ==> !modes[n].isDefault
        decreases |names|
      {
        var n :| n in names;
        if modes[n].isDefault {
          return Some(modes[n]);
        }
        names := names - {n};
      }
      mode := None;
    }
  }

  class AdminService {
    var regions: map<string, Region>
    var tenants: map<TenantKey, Option<string>>

    ghost function View(): State
      reads this
    {
      State(regions, tenants)
    }

    constructor (regions: map<string, Region>)
      ensures View() == State(regions, map[])
    {
      this.regions, tenants := regions, map[];
    }

    method Save(alias: string, region: RegionConfig)
      modifies this
      ensures View() == old(View()).(regions := old(regions)[alias := region.View()])
    {
      regions := regions[alias := Region(region.id, region.modes)];
    }

    method Configure(c: Command) returns (r: Response)
      requires c.Configure?
      modifies this
      ensures (View(), r) == ConfigureMode(old(View()), c)
    {
      if IsBlank(c.region) || IsBlank(c.name) || IsBlank(c.group) != c.override {
        return Failed(Invalid);
      }
      if c.region !in regions {
        return Failed(NoRegion);
      }
      var region := new RegionConfig(regions[c.region]);
      if c.override {
        if c.name !in region.modes {
          return Failed(NoMode);
        }
        var described := region.UpdateDescription(c.name, c.description);
        var defaulted := region.UpdateDefaultMode(c.name, c.isDefault);
        if !described && !defaulted {
          return NothingToUpdate;
        }
        Save(c.region, region);
      } else {
        if c.name in region.modes {
          return Failed(ModeExists);
        }
        if !c.groupExists {
          return Failed(NoSecurityGroup);
        }
        if c.isDefault {
          var mode := region.GetDefault();
          if mode.Some? {
            return Failed(DefaultExists);
          }
        }
        region.modes := region.modes[c.name := Mode(c.name, c.description, c.group, c.isDefault)];
        Save(c.region, region);
      }
      r := Done;
    }

    method Delete(c: Command) returns (r: Response)
      requires c.Delete?
      modifies this
      ensures (View(), r) == DeleteMode(old(View()), c)
    {
      if IsBlank(c.region) || IsBlank(c.name) {
        return Failed(Invalid);
      }
      if c.region !in regions {
        return Failed(NoRegion);
      }
      var region := new RegionConfig(regions[c.region]);
      if c.name !in region.modes {
        return Failed(NoMode);
      }
      var projects := set t | t in tenants && t.regionId == region.id && tenants[t] == Some(c.name);
      if |projects| > 0 {
        return Failed(ModeInUse);
      }
      region.modes := region.modes - {c.name};
      Save(c.region, region);
      r := Done;
    }

    /** Which default a region with several would give is not determined, so the region's
        integrity is needed here. */
    method CreateTenant(c: Command) returns (r: Response)
      requires c.CreateTenant? && Valid(View())
      modifies this
      ensures (View(), r) == AddTenant(old(View()), c)
    {
      if c.region !in regions {
        return Failed(NoRegion);
      }
      if IsBlank(c.alias) || !c.complete {
        return Failed(Invalid);
      }
      var region := new RegionConfig(regions[c.region]);
      var key := TenantKey(c.alias, region.id);
      if key in tenants {
        return Failed(TenantExists);
      }
      if !IsBlank(c.mode) {
        if c.mode !in region.modes {
          return Failed(NoMode);
        }
        tenants := tenants[key := Some(c.mode)];
      } else {
        assert RegionOk(region.View());
        var mode := region.GetDefault();
        tenants := tenants[key := if mode.Some? then Some(mode.value.name) else None];
      }
      r := Done;
    }

    /** Collects the report before it updates the chosen tenants one by one. */
    method SetMode(c: Command) returns (r: Response)
      requires c.SetMode?
      modifies this
      ensures (View(), r) == SetModes(old(View()), c)
    {
      if IsBlank(c.region) || IsBlank(c.newMode) || (!IsBlank(c.tenant) && !IsBlank(c.currentMode)) {
        return Failed(Invalid);
      }
      if c.region !in regions {
        return Failed(NoRegion);
      }
      var region := regions[c.region];
      if c.newMode !in region.modes {
        return Failed(NoMode);
      }
      var chosen := Chosen(State(regions, tenants), region.id, c);
      if chosen == {} {
        return Failed(if IsBlank(c.tenant) then NoTenants else NoTenant);
      }
      r := Report(Before(tenants, chosen));
      var left := chosen;
      while left != {}
        invariant left <= chosen && regions == old(regions)
        invariant tenants == Assign(old(tenants), chosen - left, region.modes[c.newMode].name)
        decreases |left|
      {
        var t :| t in left;
        tenants := tenants[t := Some(region.modes[c.newMode].name)];
        left := left - {t};
      }
      assert chosen - left == chosen;
    }
  }
}

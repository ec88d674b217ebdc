/** The instance-run report: records grouped by cloud, region and tenant, and image alias. */
module RunReport {
  import opened Wrappers

  // ----- one container

  datatype Counts = Counts(
    total: nat, lessOneMin: nat, oneToThree: nat, threeToTen: nat, tenToThirty: nat, moreThenThirty: nat, error: nat)

  const MINUTE := 60000

  const EMPTY := Counts(0, 0, 0, 0, 0, 0, 0)

  function Updated(c: Counts, duration: int): Counts {
    var n := c.(total := c.total + 1);
    if duration < MINUTE then n.(lessOneMin := c.lessOneMin + 1)
    else if duration < 3 * MINUTE then n.(oneToThree := c.oneToThree + 1)
    else if duration < 10 * MINUTE then n.(threeToTen := c.threeToTen + 1)
    else if duration < 30 * MINUTE then n.(tenToThirty := c.tenToThirty + 1)
    else n.(moreThenThirty := c.moreThenThirty + 1)
  }

  /** How many durations lie from one bound up to, not including, another. */
  function InRange(ds: seq<int>, low: Option<int>, high: Option<int>): nat {
    if ds == [] then 0
    else
      var d := ds[|ds| - 1];
      InRange(ds[..|ds| - 1], low, high)
      + if (low.Some? ==> low.value <= d) && (high.Some? ==> d < high.value) then 1 else 0
  }

  /** The buckets of a list of durations in milliseconds: below one minute, up to three, up to
      ten, up to thirty, and from thirty on. */
  function Tally(ds: seq<int>): Counts {
    Counts(|ds|,
      InRange(ds, None, Some(60_000)), InRange(ds, Some(60_000), Some(180_000)),
      InRange(ds, Some(180_000), Some(600_000)), InRange(ds, Some(600_000), Some(1_800_000)),
      InRange(ds, Some(1_800_000), None), 0)
  }

  function BucketSum(c: Counts): nat {
    c.lessOneMin + c.oneToThree + c.threeToTen + c.tenToThirty + c.moreThenThirty
  }

  lemma TallyUpdates(ds: seq<int>, d: int)
    ensures Updated(Tally(ds), d) == Tally(ds + [d])
  {
    assert (ds + [d])[..|ds|] == ds;
  }

  lemma {:induction false} TallyAddsUp(ds: seq<int>)
    ensures Tally(ds).total == BucketSum(Tally(ds))
  {
    if ds != [] {
      TallyAddsUp(ds[..|ds| - 1]);
    }
  }

  // ----- the report

  datatype Record = Record(region: string, tenant: string, imageId: string, startDuration: int)

  datatype Region = Region(id: string, regionAlias: string)

  datatype Tenant = Tenant(id: string, tenantAlias: string, cloud: string)

  /** The repositories: regions and tenants by identifier, and the alias of an image, if it has
      one, by cloud, tenant, region and image identifiers. */
  datatype Env = Env(
    regions: map<string, Region>, tenants: map<string, Tenant>,
    findAlias: (string, string, string, string) -> Option<string>)

  datatype Key = Key(cloud: string, place: string, image: string)

  predicate Known(env: Env, r: Record) {
    r.region in env.regions && r.tenant in env.tenants
  }

  function Alias(env: Env, r: Record): string
    requires Known(env, r)
  {
    var tenant, region := env.tenants[r.tenant], env.regions[r.region];
    var alias := env.findAlias(tenant.cloud, tenant.id, region.id, r.imageId);
    if alias.Some? then alias.value else r.imageId
  }

  /** The key under which an alias is remembered. */
  function MemoKey(env: Env, r: Record): string
    requires Known(env, r)
  {
    env.regions[r.region].regionAlias + env.tenants[r.tenant].tenantAlias + r.imageId
  }

  function KeyFor(env: Env, r: Record, alias: string): Key
    requires Known(env, r)
  {
    Key(env.tenants[r.tenant].cloud,
        env.regions[r.region].regionAlias + " in " + env.tenants[r.tenant].tenantAlias,
        alias)
  }

  type Report = map<Key, Counts>

  function Added(report: Report, key: Key, duration: int): Report {
    report[key := Updated(if key in report then report[key] else EMPTY, duration)]
  }

  /** The aliases remembered after some records: each by the first record with its key. */
  function Memo(env: Env, rs: seq<Record>): map<string, string> {
    if rs == [] then map[]
    else
      var memo, r := Memo(env, rs[..|rs| - 1]), rs[|rs| - 1];
      if !Known(env, r) || MemoKey(env, r) in memo then memo else memo[MemoKey(env, r) := Alias(env, r)]
  }

  lemma {:induction false} MemoHas(env: Env, rs: seq<Record>, r: Record)
    requires Known(env, r) && r in rs
    ensures MemoKey(env, r) in Memo(env, rs)
  {
    if r != rs[|rs| - 1] {
      MemoHas(env, rs[..|rs| - 1], r);
    }
  }

  /** The alias the report uses for the last of some records. */
  function UsedAlias(env: Env, rs: seq<Record>): string
    requires rs != [] && Known(env, rs[|rs| - 1])
  {
    var r := rs[|rs| - 1];
    MemoHas(env, rs, r);
    Memo(env, rs)[MemoKey(env, r)]
  }

  function ReportOf(env: Env, rs: seq<Record>): Report {
    if rs == [] then map[]
    else
      var report, r := ReportOf(env, rs[..|rs| - 1]), rs[|rs| - 1];
      if Known(env, r) then Added(report, KeyFor(env, r, UsedAlias(env, rs)), r.startDuration) else report
  }

  /** The same with every alias looked up anew. */
  function PlainReport(env: Env, rs: seq<Record>): Report {
    if rs == [] then map[]
    else
      var report, r := PlainReport(env, rs[..|rs| - 1]), rs[|rs| - 1];
      if Known(env, r) then Added(report, KeyFor(env, r, Alias(env, r)), r.startDuration) else report
  }

  // ----- each container tallies the records of its key

  /** The record belongs to the cloud of its tenant, and to the place that its region and its tenant
      name. */
  predicate BelongsTo(env: Env, r: Record, key: Key) {
    && r.region in env.regions && r.tenant in env.tenants
    && key.cloud == env.tenants[r.tenant].cloud
    && key.place == env.regions[r.region].regionAlias + " in " + env.tenants[r.tenant].tenantAlias
  }

  /** The durations of the records that the report puts under a key. */
  function DurationsAt(env: Env, rs: seq<Record>, key: Key): seq<int> {
    if rs == [] then []
    else
      var ds, r := DurationsAt(env, rs[..|rs| - 1], key), rs[|rs| - 1];
      if BelongsTo(env, r, key) && UsedAlias(env, rs) == key.image then ds + [r.startDuration] else ds
  }

  /** The report has a container for a key only if a record belongs there, by the alias that its own
      image or another one with the same joined names has in the cloud of the tenant. */
  lemma {:induction false} KeysOfReport(env: Env, rs: seq<Record>, key: Key) returns (i: nat, j: nat)
    requires key in ReportOf(env, rs)
    ensures j <= i < |rs| && BelongsTo(env, rs[i], key) && SameNames(env, rs[j], rs[i])
    ensures var tenant, region := env.tenants[rs[j].tenant], env.regions[rs[j].region];
      key.image == match env.findAlias(tenant.cloud, tenant.id, region.id, rs[j].imageId)
        case Some(alias) => alias
        case None => rs[j].imageId
  {
    var before, r := rs[..|rs| - 1], rs[|rs| - 1];
    if key in ReportOf(env, before) {
      i, j := KeysOfReport(env, before, key);
      assert before[i] == rs[i] && before[j] == rs[j];
    } else {
      MemoHas(env, rs, r);
      i := |rs| - 1;
      j := MemoIsFirst(env, rs, MemoKey(env, r));
    }
  }

  lemma {:induction false} ReportTallies(env: Env, rs: seq<Record>, key: Key)
    ensures var ds := DurationsAt(env, rs, key);
      var report := ReportOf(env, rs);
      && (key in report <==> ds != [])
      && (key in report ==> report[key] == Tally(ds) && report[key].total == BucketSum(report[key]))
  {
    hide Tally, Updated, UsedAlias, BucketSum;
    TallyAddsUp(DurationsAt(env, rs, key));
    if rs != [] {
      var before, r := rs[..|rs| - 1], rs[|rs| - 1];
      ReportTallies(env, before, key);
      TallyUpdates(DurationsAt(env, before, key), r.startDuration);
      NothingTallied();
    }
  }

  lemma NothingTallied()
    ensures Tally([]) == EMPTY
  {
  }

  // ----- the totals

  ghost function TotalOf(report: Report): nat
    decreases |report|
  {
    if report == map[] then 0
    else
      var k :| k in report;
      report[k].total + TotalOf(report - {k})
  }

  lemma {:induction false} TotalWithout(report: Report, k: Key)
    requires k in report
    ensures TotalOf(report) == report[k].total + TotalOf(report - {k})
    decreases |report|
  {
    var j :| j in report && TotalOf(report) == report[j].total + TotalOf(report - {j});
    if j != k {
      TotalWithout(report - {j}, k);
      TotalWithout(report - {k}, j);
      assert report - {j} - {k} == report - {k} - {j};
    }
  }

  lemma AddedCounts(report: Report, k: Key, d: int)
    ensures TotalOf(Added(report, k, d)) == TotalOf(report) + 1
  {
    var next := Added(report, k, d);
    TotalWithout(next, k);
    if k in report {
      TotalWithout(report, k);
      assert next - {k} == report - {k};
    } else {
      assert next - {k} == report;
    }
  }

  function KnownCount(env: Env, rs: seq<Record>): nat {
    if rs == [] then 0 else KnownCount(env, rs[..|rs| - 1]) + if Known(env, rs[|rs| - 1]) then 1 else 0
  }

  /** Every record with a known tenant and region is counted exactly once, and no other. */
  lemma {:induction false} TotalsAreRecords(env: Env, rs: seq<Record>)
    ensures TotalOf(ReportOf(env, rs)) == KnownCount(env, rs)
  {
    if rs != [] {
      var before, r := rs[..|rs| - 1], rs[|rs| - 1];
      TotalsAreRecords(env, before);
      if Known(env, r) {
        AddedCounts(ReportOf(env, before), KeyFor(env, r, UsedAlias(env, rs)), r.startDuration);
      }
    }
  }

  // ----- the memo

  /** The names that the memo joins, alias of the region, alias of the tenant and image, come out
      alike. */
  predicate SameNames(env: Env, r: Record, s: Record) {
    && Known(env, r) && Known(env, s)
    && env.regions[r.region].regionAlias + env.tenants[r.tenant].tenantAlias + r.imageId
      == env.regions[s.region].regionAlias + env.tenants[s.tenant].tenantAlias + s.imageId
  }

  /** Records with the same joined names have the same alias. */
  ghost predicate Consistent(env: Env, rs: seq<Record>) {
    forall r, s :: r in rs && s in rs && SameNames(env, r, s) ==> Alias(env, r) == Alias(env, s)
  }

  /** Every record is filed under its own alias. */
  ghost predicate OwnAliases(env: Env, rs: seq<Record>) {
    forall n :: 0 < n <= |rs| && Known(env, rs[n - 1]) ==> UsedAlias(env, rs[..n]) == Alias(env, rs[n - 1])
  }

  lemma {:induction false} MemoIsFirst(env: Env, rs: seq<Record>, k: string) returns (i: nat)
    requires k in Memo(env, rs)
    ensures i < |rs| && Known(env, rs[i]) && MemoKey(env, rs[i]) == k && Memo(env, rs)[k] == Alias(env, rs[i])
    ensures k !in Memo(env, rs[..i]) && Memo(env, rs[..i + 1]) == Memo(env, rs[..i])[k := Alias(env, rs[i])]
  {
    var before, r := rs[..|rs| - 1], rs[|rs| - 1];
    if k in Memo(env, before) {
      i := MemoIsFirst(env, before, k);
      assert before[..i] == rs[..i] && before[..i + 1] == rs[..i + 1];
    } else {
      i := |rs| - 1;
      assert rs[..i + 1] == rs;
    }
  }

  lemma {:induction false} MemoStays(env: Env, rs: seq<Record>, n: nat, k: string)
    requires n <= |rs| && k in Memo(env, rs[..n])
    ensures k in Memo(env, rs) && Memo(env, rs)[k] == Memo(env, rs[..n])[k]
  {
    if n < |rs| {
      var before := rs[..|rs| - 1];
      assert before[..n] == rs[..n];
      MemoStays(env, before, n, k);
    } else {
      assert rs[..n] == rs;
    }
  }

  lemma NamesAreKeys(env: Env, r: Record, s: Record)
    ensures SameNames(env, r, s) <==> Known(env, r) && Known(env, s) && MemoKey(env, r) == MemoKey(env, s)
  {
  }

  /** Filing every record under its own alias takes exactly that the joined names tell aliases
      apart. */
  lemma OwnAliasesExactly(env: Env, rs: seq<Record>)
    ensures OwnAliases(env, rs) <==> Consistent(env, rs)
  {
    hide Alias, MemoKey, Known;
    if Consistent(env, rs) {
      forall n | 0 < n <= |rs| && Known(env, rs[n - 1]) ensures UsedAlias(env, rs[..n]) == Alias(env, rs[n - 1]) {
        MemoHas(env, rs[..n], rs[n - 1]);
        var i := MemoIsFirst(env, rs[..n], MemoKey(env, rs[n - 1]));
        NamesAreKeys(env, rs[i], rs[n - 1]);
      }
    }
    if OwnAliases(env, rs) {
      forall i | 0 <= i < |rs| && Known(env, rs[i])
        ensures MemoKey(env, rs[i]) in Memo(env, rs) && Memo(env, rs)[MemoKey(env, rs[i])] == Alias(env, rs[i])
      {
        OwnIsRemembered(env, rs, i);
      }
      forall r, s | r in rs && s in rs && SameNames(env, r, s) ensures Alias(env, r) == Alias(env, s) {
        NamesAreKeys(env, r, s);
      }
    }
  }

  lemma OwnIsRemembered(env: Env, rs: seq<Record>, i: nat)
    requires OwnAliases(env, rs) && i < |rs| && Known(env, rs[i])
    ensures MemoKey(env, rs[i]) in Memo(env, rs) && Memo(env, rs)[MemoKey(env, rs[i])] == Alias(env, rs[i])
  {
    hide Alias, MemoKey, Known;
    var n := i + 1;
    assert rs[..n][n - 1] == rs[n - 1];
    assert UsedAlias(env, rs[..n]) == Alias(env, rs[n - 1]);
    MemoHas(env, rs[..n], rs[i]);
    MemoStays(env, rs, n, MemoKey(env, rs[i]));
  }

  /** With such keys the memo changes nothing in the report. */
  lemma {:induction false} MemoIsTransparent(env: Env, rs: seq<Record>)
    requires Consistent(env, rs)
    ensures ReportOf(env, rs) == PlainReport(env, rs)
  {
    hide Alias, MemoKey, Known, Memo, KeyFor, Added, UsedAlias, OwnAliases;
    if rs != [] {
      var before := rs[..|rs| - 1];
      assert Consistent(env, before);
      MemoIsTransparent(env, before);
      LastAliasIsOwn(env, rs);
    }
  }

  lemma LastAliasIsOwn(env: Env, rs: seq<Record>)
    requires Consistent(env, rs) && rs != []
    ensures var r := rs[|rs| - 1]; Known(env, r) ==> UsedAlias(env, rs) == Alias(env, r)
  {
    hide Alias, MemoKey, Known, Memo, Consistent;
    OwnAliasesExactly(env, rs);
    assert rs[..|rs|] == rs;
  }

  /** The joined names determine the record's region, tenant and image. */
  ghost predicate KeyIsInjective(env: Env, rs: seq<Record>) {
    forall r, s :: r in rs && s in rs && SameNames(env, r, s) ==>
      r.region == s.region && r.tenant == s.tenant && r.imageId == s.imageId
  }

  lemma InjectiveIsTransparent(env: Env, rs: seq<Record>)
    requires KeyIsInjective(env, rs)
    ensures ReportOf(env, rs) == PlainReport(env, rs)
  {
    assert Consistent(env, rs);
    MemoIsTransparent(env, rs);
  }

  /** Records of one region and one tenant: whatever the images, the memo changes nothing. */
  lemma OnePlaceIsTransparent(env: Env, rs: seq<Record>)
    requires forall r, s :: r in rs && s in rs ==> r.region == s.region && r.tenant == s.tenant
    ensures ReportOf(env, rs) == PlainReport(env, rs)
  {
    forall r, s | r in rs && s in rs && SameNames(env, r, s) ensures Alias(env, r) == Alias(env, s) {
      var names := env.regions[r.region].regionAlias + env.tenants[r.tenant].tenantAlias;
      assert (names + r.imageId)[|names|..] == r.imageId && (names + s.imageId)[|names|..] == s.imageId;
    }
    MemoIsTransparent(env, rs);
  }

  /** More generally, where aliases of regions have one length and those of tenants have one, and no
      two regions or tenants share an alias. */
  lemma EqualLengthsAreTransparent(env: Env, rs: seq<Record>)
    requires forall r, s :: r in rs && s in rs && Known(env, r) && Known(env, s) ==>
      var a, b := env.regions[r.region].regionAlias, env.regions[s.region].regionAlias;
      var c, d := env.tenants[r.tenant].tenantAlias, env.tenants[s.tenant].tenantAlias;
      && |a| == |b| && |c| == |d| && (a == b ==> r.region == s.region) && (c == d ==> r.tenant == s.tenant)
    ensures ReportOf(env, rs) == PlainReport(env, rs)
  {
    forall r, s | r in rs && s in rs && SameNames(env, r, s)
      ensures r.region == s.region && r.tenant == s.tenant && r.imageId == s.imageId
    {
      SplitAlike(
        env.regions[r.region].regionAlias, env.tenants[r.tenant].tenantAlias, r.imageId,
        env.regions[s.region].regionAlias, env.tenants[s.tenant].tenantAlias, s.imageId);
    }
    InjectiveIsTransparent(env, rs);
  }

  lemma SplitAlike(a: string, c: string, i: string, b: string, d: string, j: string)
    requires a + c + i == b + d + j && |a| == |b| && |c| == |d|
    ensures a == b && c == d && i == j
  {
    var t, u := a + c + i, b + d + j;
    assert t[..|a|] == a && t[|a|..|a| + |c|] == c && t[|a| + |c|..] == i;
    assert u[..|b|] == b && u[|b|..|b| + |d|] == d && u[|b| + |d|..] == j;
  }

  /** Joined without a separator, "a" with "bc" and "ab" with "c" are one key: the second
      tenant's image is filed under the first one's alias. */
  lemma JoinedKeysCollide() returns (env: Env, rs: seq<Record>)
    ensures |rs| == 2 && Known(env, rs[0]) && Known(env, rs[1])
    ensures SameNames(env, rs[0], rs[1]) && rs[0].tenant != rs[1].tenant && rs[0].imageId == rs[1].imageId
    ensures ReportOf(env, rs) != PlainReport(env, rs)
  {
    var find := (cloud: string, tenant: string, region: string, image: string) => Some(tenant);
    env := Env(map["r" := Region("r", "a"), "s" := Region("s", "ab")],
               map["t" := Tenant("t", "bc", "o"), "u" := Tenant("u", "c", "o")], find);
    rs := [Record("r", "t", "i", 0), Record("s", "u", "i", 0)];
    assert "a" + "bc" + "i" == "ab" + "c" + "i";
    assert rs[..1] == [rs[0]] && rs[..1][..0] == [];
    assert Memo(env, rs[..1]) == map[MemoKey(env, rs[0]) := "t"];
    assert UsedAlias(env, rs) == "t";
    var k := KeyFor(env, rs[1], "u");
    assert k.image == "u" && k in PlainReport(env, rs);
    assert k !in ReportOf(env, rs[..1]) && k !in ReportOf(env, rs);
  }

  // ----- when the two reports are the same

  function WithDurations(rs: seq<Record>, ds: seq<int>): (r: seq<Record>)
    requires |ds| == |rs|
    ensures |r| == |rs| && forall i :: 0 <= i < |rs| ==> r[i] == rs[i].(startDuration := ds[i])
  {
    seq(|rs|, i requires 0 <= i < |rs| => rs[i].(startDuration := ds[i]))
  }

  ghost predicate SameButDurations(rs: seq<Record>, rs': seq<Record>) {
    |rs| == |rs'| && forall i :: 0 <= i < |rs| ==> rs[i] == rs'[i].(startDuration := rs[i].startDuration)
  }

  lemma {:induction false} MemoIgnoresDurations(env: Env, rs: seq<Record>, rs': seq<Record>)
    requires SameButDurations(rs, rs')
    ensures Memo(env, rs) == Memo(env, rs')
  {
    if rs != [] {
      MemoIgnoresDurations(env, rs[..|rs| - 1], rs'[..|rs| - 1]);
    }
  }

  lemma ConsistentIgnoresDurations(env: Env, rs: seq<Record>, rs': seq<Record>)
    requires SameButDurations(rs, rs') && Consistent(env, rs)
    ensures Consistent(env, rs')
  {
    forall r', s' | r' in rs' && s' in rs' && SameNames(env, r', s') ensures Alias(env, r') == Alias(env, s') {
      var i :| 0 <= i < |rs| && rs'[i] == r';
      var j :| 0 <= j < |rs| && rs'[j] == s';
      assert rs[i] in rs && rs[j] in rs && SameNames(env, rs[i], rs[j]);
    }
  }

  /** Only record m took half an hour; the others took no time. */
  ghost predicate OneSlow(rs: seq<Record>, m: nat) {
    forall i :: 0 <= i < |rs| ==> rs[i].startDuration == if i == m then 30 * MINUTE else 0
  }

  lemma {:induction false} SlowIsFiled(env: Env, rs: seq<Record>, m: nat)
    requires OneSlow(rs, m) && m < |rs| && Known(env, rs[m])
    ensures var k := KeyFor(env, rs[m], Alias(env, rs[m]));
      k in PlainReport(env, rs) && PlainReport(env, rs)[k].moreThenThirty > 0
  {
    hide KeyFor, Alias, Known;
    if m < |rs| - 1 {
      SlowIsFiled(env, rs[..|rs| - 1], m);
    }
  }

  lemma {:induction false} SlowIsNotFiled(env: Env, rs: seq<Record>, m: nat, k: Key)
    requires OneSlow(rs, m)
    requires m < |rs| && Known(env, rs[m]) ==> KeyFor(env, rs[m], UsedAlias(env, LastSeen(rs, m))) != k
    ensures k in ReportOf(env, rs) ==> ReportOf(env, rs)[k].moreThenThirty == 0
  {
    hide KeyFor, Known, UsedAlias;
    if rs != [] {
      var before := rs[..|rs| - 1];
      if m < |rs| - 1 {
        assert before[..m + 1] == rs[..m + 1];
      } else {
        assert rs[..|rs|] == rs;
      }
      SlowIsNotFiled(env, before, m, k);
    }
  }

  /** The records up to m. */
  function LastSeen(rs: seq<Record>, m: nat): (r: seq<Record>)
    requires m < |rs|
    ensures |r| == m + 1 && r[m] == rs[m]
  {
    rs[..m + 1]
  }

  lemma MisfiledDiffers(env: Env, rs: seq<Record>, n: nat) returns (ds: seq<int>)
    requires 0 < n <= |rs| && Known(env, rs[n - 1]) && UsedAlias(env, rs[..n]) != Alias(env, rs[n - 1])
    ensures |ds| == |rs| && ReportOf(env, WithDurations(rs, ds)) != PlainReport(env, WithDurations(rs, ds))
  {
    var m := n - 1;
    ds := seq(|rs|, i => if i == m then 30 * MINUTE else 0);
    var rs' := WithDurations(rs, ds);
    MemoIgnoresDurations(env, rs[..n], rs'[..n]);
    MemoHas(env, rs'[..n], rs'[m]);
    var k := KeyFor(env, rs'[m], Alias(env, rs'[m]));
    SlowIsFiled(env, rs', m);
    SlowIsNotFiled(env, rs', m, k);
  }

  /** Whatever the durations are, the memo changes nothing in the report, if and only if records
      with the same memo key have the same alias. */
  lemma ReportsAgreeExactly(env: Env, rs: seq<Record>)
    ensures (forall ds: seq<int> :: |ds| == |rs| ==>
        ReportOf(env, WithDurations(rs, ds)) == PlainReport(env, WithDurations(rs, ds)))
      <==> Consistent(env, rs)
  {
    hide ReportOf, PlainReport, UsedAlias, Alias, Known, Consistent;
    OwnAliasesExactly(env, rs);
    if Consistent(env, rs) {
      forall ds: seq<int> | |ds| == |rs|
        ensures ReportOf(env, WithDurations(rs, ds)) == PlainReport(env, WithDurations(rs, ds))
      {
        ConsistentIgnoresDurations(env, rs, WithDurations(rs, ds));
        MemoIsTransparent(env, WithDurations(rs, ds));
      }
    } else {
      var n :| 0 < n <= |rs| && Known(env, rs[n - 1]) && UsedAlias(env, rs[..n]) != Alias(env, rs[n - 1]);
      var ds := MisfiledDiffers(env, rs, n);
    }
  }
}

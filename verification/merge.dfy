/**
 * `mergeAppInfo(ips, apps)`: the per-node reports of `/api/apps` merged into
 * one list of apps. Reports are grouped by app name, then by the version key
 * `version + '_' + buildNum`, then by node IP, the first report winning at
 * each level; every version's cluster is then padded with an entry of status
 * `none` for each known IP that did not report it, and the three levels are
 * sorted: members by IP, versions by weight, apps by name.
 */
module Merge {
  import opened Wrappers
  import opened Strings
  import opened Sorting
  import opened JsObject
  import opened AppId

  /** One element of a node's `/api/apps` answer. */
  datatype Report = Report(
    name: string,
    appId: string,
    ip: string,
    version: string,
    buildNum: BuildNum,
    publishAt: string,
    workerNum: int,
    isCurrWorking: bool,
    expectWorkerNum: int,
    status: string,
    errorExitCount: int,
    errorExitRecord: seq<string>)

  const AbsentStatus: string := "none"

  /** A cluster entry: what one node reported, or the `{ip, status: 'none'}` filler. */
  datatype Member =
    | Reported(
        ip: string,
        status: string,
        workerNum: int,
        expectWorkerNum: int,
        errorExitCount: int,
        errorExitRecord: seq<string>)
    | Absent(ip: string)
  {
    function Status(): string {
      if Absent? then AbsentStatus else status
    }
  }

  /** One version of an app, with its cluster. */
  datatype VersionGroup = VersionGroup(
    version: string,
    buildNum: BuildNum,
    publishAt: string,
    appId: string,
    cluster: seq<Member>,
    isCurrWorking: bool)
  {
    /** `genWeight(version || '0.0.0.0', buildNum)`, scaled by 1000. */
    function Weight(): Option<int> {
      WeightFor(version, buildNum)
    }

    function Key(): string {
      VersionKey(version, buildNum)
    }
  }

  /** One app with its versions. */
  datatype AppGroup = AppGroup(name: string, versions: seq<VersionGroup>)

  /** `version + '_' + buildNum`. */
  function VersionKey(version: string, b: BuildNum): string {
    version + "_" + BuildString(b)
  }

  function KeyOf(r: Report): string {
    VersionKey(r.version, r.buildNum)
  }

  /** The cluster entry a report creates. */
  function MemberOf(r: Report): Member {
    Reported(r.ip, r.status, r.workerNum, r.expectWorkerNum, r.errorExitCount, r.errorExitRecord)
  }

  // ---------------------------------------------------------------------
  // Grouping: the `apps.forEach` pass over the reports
  // ---------------------------------------------------------------------

  /** `versions[vkey]` while grouping: the first report of the key and the cluster so far. */
  datatype VerAcc = VerAcc(first: Report, cluster: Obj<Member>)

  /** `result[name]` while grouping. */
  datatype AppAcc = AppAcc(name: string, versions: Obj<VerAcc>)

  ghost predicate VersionsValid(vs: Obj<VerAcc>) {
    Valid(vs) && forall k :: k in vs.vals ==> Valid(vs.vals[k].cluster)
  }

  ghost predicate WellFormed(acc: Obj<AppAcc>) {
    Valid(acc) && forall n :: n in acc.vals ==> VersionsValid(acc.vals[n].versions)
  }

  /** `if (!cluster[ip]) cluster[ip] = {...}`: an IP already present keeps its first entry. */
  function AddMember(c: Obj<Member>, r: Report): (c': Obj<Member>)
    requires Valid(c)
    ensures Valid(c')
    ensures r.ip in c.vals ==> c' == c
    ensures r.ip !in c.vals ==> c'.vals == c.vals[r.ip := MemberOf(r)]
  {
    if r.ip in c.vals then c else Put(c, r.ip, MemberOf(r))
  }

  /** `if (!versions[vkey]) versions[vkey] = {...}` followed by the cluster update. */
  function AddVersion(vs: Obj<VerAcc>, r: Report): (vs': Obj<VerAcc>)
    requires VersionsValid(vs)
    ensures VersionsValid(vs')
    ensures KeyOf(r) in vs'.vals
    ensures vs'.vals == vs.vals[KeyOf(r) := vs'.vals[KeyOf(r)]]
    ensures KeyOf(r) in vs.vals ==>
      vs'.vals[KeyOf(r)] == VerAcc(vs.vals[KeyOf(r)].first, AddMember(vs.vals[KeyOf(r)].cluster, r))
    ensures KeyOf(r) !in vs.vals ==> vs'.vals[KeyOf(r)] == VerAcc(r, AddMember(Empty(), r))
  {
    var key := KeyOf(r);
    var ver := if key in vs.vals then vs.vals[key] else VerAcc(r, Empty());
    Put(vs, key, VerAcc(ver.first, AddMember(ver.cluster, r)))
  }

  lemma PutWellFormed(acc: Obj<AppAcc>, n: string, app: AppAcc)
    requires WellFormed(acc) && VersionsValid(app.versions)
    ensures WellFormed(Put(acc, n, app))
  {
    var acc' := Put(acc, n, app);
    forall m | m in acc'.vals ensures VersionsValid(acc'.vals[m].versions) {
      if m != n {
        assert acc'.vals[m] == acc.vals[m];
      }
    }
  }

  /** One pass of the `apps.forEach` callback: create the app if new, then its version, then its member. */
  function Step(acc: Obj<AppAcc>, r: Report): (acc': Obj<AppAcc>)
    requires WellFormed(acc)
    ensures WellFormed(acc')
    ensures r.name in acc'.vals
    ensures acc'.vals == acc.vals[r.name := acc'.vals[r.name]]
    ensures r.name in acc.vals ==>
      acc'.vals[r.name] == AppAcc(acc.vals[r.name].name, AddVersion(acc.vals[r.name].versions, r))
    ensures r.name !in acc.vals ==> acc'.vals[r.name] == AppAcc(r.name, AddVersion(Empty(), r))
  {
    var app := if r.name in acc.vals then acc.vals[r.name] else AppAcc(r.name, Empty());
    var app' := AppAcc(app.name, AddVersion(app.versions, r));
    PutWellFormed(acc, r.name, app');
    Put(acc, r.name, app')
  }

  /** `result` after the reports `rs` have been processed in order. */
  function Group(rs: seq<Report>): (acc: Obj<AppAcc>)
    ensures WellFormed(acc)
    decreases |rs|
  {
    if |rs| == 0 then Empty() else Step(Group(rs[..|rs| - 1]), rs[|rs| - 1])
  }

  // The reference for grouping: which reports exist, and which one comes first.

  predicate OfVersion(r: Report, n: string, k: string) {
    r.name == n && KeyOf(r) == k
  }

  predicate OfMember(r: Report, n: string, k: string, ip: string) {
    OfVersion(r, n, k) && r.ip == ip
  }

  /** Some report belongs to app `n`. */
  predicate Mentions(rs: seq<Report>, n: string)
    decreases |rs|
  {
    |rs| > 0 && (Mentions(rs[..|rs| - 1], n) || rs[|rs| - 1].name == n)
  }

  lemma {:induction false} MentionsExactly(rs: seq<Report>, n: string)
    ensures Mentions(rs, n) <==> exists i :: 0 <= i < |rs| && rs[i].name == n
    decreases |rs|
  {
    if |rs| > 0 {
      var init := rs[..|rs| - 1];
      MentionsExactly(init, n);
      if Mentions(init, n) {
        var i :| 0 <= i < |init| && init[i].name == n;
        assert rs[i].name == n;
      }
      if exists i :: 0 <= i < |rs| && rs[i].name == n {
        var i :| 0 <= i < |rs| && rs[i].name == n;
        if i < |init| {
          assert init[i].name == n;
        }
      }
    }
  }

  /** The earliest report of version key `k` of app `n`. */
  function FirstVersion(rs: seq<Report>, n: string, k: string): (first: Option<Report>)
    ensures first.Some? ==> OfVersion(first.value, n, k)
    decreases |rs|
  {
    if |rs| == 0 then None
    else
      var earlier := FirstVersion(rs[..|rs| - 1], n, k);
      if earlier.Some? then earlier
      else if OfVersion(rs[|rs| - 1], n, k) then Some(rs[|rs| - 1])
      else None
  }

  /** The earliest report by node `ip` of version key `k` of app `n`. */
  function FirstMember(rs: seq<Report>, n: string, k: string, ip: string): (first: Option<Report>)
    ensures first.Some? ==> OfMember(first.value, n, k, ip)
    decreases |rs|
  {
    if |rs| == 0 then None
    else
      var earlier := FirstMember(rs[..|rs| - 1], n, k, ip);
      if earlier.Some? then earlier
      else if OfMember(rs[|rs| - 1], n, k, ip) then Some(rs[|rs| - 1])
      else None
  }

  /** `FirstVersion` finds a report exactly when there is one, and it is the one at the lowest position. */
  lemma {:induction false} FirstVersionExactly(rs: seq<Report>, n: string, k: string)
    ensures FirstVersion(rs, n, k).None? <==> forall i :: 0 <= i < |rs| ==> !OfVersion(rs[i], n, k)
    ensures FirstVersion(rs, n, k).Some? ==>
      exists i :: 0 <= i < |rs| && rs[i] == FirstVersion(rs, n, k).value &&
        forall j :: 0 <= j < i ==> !OfVersion(rs[j], n, k)
    decreases |rs|
  {
    if |rs| > 0 {
      var init := rs[..|rs| - 1];
      FirstVersionExactly(init, n, k);
      if FirstVersion(init, n, k).Some? {
        var i :| 0 <= i < |init| && init[i] == FirstVersion(init, n, k).value &&
          forall j :: 0 <= j < i ==> !OfVersion(init[j], n, k);
        assert rs[i] == init[i];
        assert forall j :: 0 <= j < i ==> rs[j] == init[j];
      } else {
        assert forall j :: 0 <= j < |rs| - 1 ==> rs[j] == init[j];
      }
    }
  }

  /** `FirstMember` finds a report exactly when there is one, and it is the one at the lowest position. */
  lemma {:induction false} FirstMemberExactly(rs: seq<Report>, n: string, k: string, ip: string)
    ensures FirstMember(rs, n, k, ip).None? <==> forall i :: 0 <= i < |rs| ==> !OfMember(rs[i], n, k, ip)
    ensures FirstMember(rs, n, k, ip).Some? ==>
      exists i :: 0 <= i < |rs| && rs[i] == FirstMember(rs, n, k, ip).value &&
        forall j :: 0 <= j < i ==> !OfMember(rs[j], n, k, ip)
    decreases |rs|
  {
    if |rs| > 0 {
      var init := rs[..|rs| - 1];
      FirstMemberExactly(init, n, k, ip);
      if FirstMember(init, n, k, ip).Some? {
        var i :| 0 <= i < |init| && init[i] == FirstMember(init, n, k, ip).value &&
          forall j :: 0 <= j < i ==> !OfMember(init[j], n, k, ip);
        assert rs[i] == init[i];
        assert forall j :: 0 <= j < i ==> rs[j] == init[j];
      } else {
        assert forall j :: 0 <= j < |rs| - 1 ==> rs[j] == init[j];
      }
    }
  }

  /** No member of a version nobody reported. */
  lemma {:induction false} NoVersionNoMember(rs: seq<Report>, n: string, k: string, ip: string)
    requires FirstVersion(rs, n, k).None?
    ensures FirstMember(rs, n, k, ip).None?
    decreases |rs|
  {
    if |rs| > 0 {
      NoVersionNoMember(rs[..|rs| - 1], n, k, ip);
    }
  }

  /** No version of an app nobody reported. */
  lemma {:induction false} NotMentionedNoVersion(rs: seq<Report>, n: string, k: string)
    requires !Mentions(rs, n)
    ensures FirstVersion(rs, n, k).None?
    decreases |rs|
  {
    if |rs| > 0 {
      NotMentionedNoVersion(rs[..|rs| - 1], n, k);
    }
  }

  /** The cluster of version `k` of app `n` holds one entry per reporting IP: its first report. */
  ghost predicate ClusterGrouped(c: Obj<Member>, rs: seq<Report>, n: string, k: string) {
    && Valid(c)
    && (forall ip :: ip in c.vals <==> FirstMember(rs, n, k, ip).Some?)
    && (forall ip :: ip in c.vals ==> c.vals[ip] == MemberOf(FirstMember(rs, n, k, ip).value))
  }

  /** The versions of app `n`: one per reported key, holding its first report and its cluster. */
  ghost predicate VersionsGrouped(vs: Obj<VerAcc>, rs: seq<Report>, n: string) {
    && VersionsValid(vs)
    && (forall k :: k in vs.vals <==> FirstVersion(rs, n, k).Some?)
    && (forall k :: k in vs.vals ==>
          vs.vals[k].first == FirstVersion(rs, n, k).value && ClusterGrouped(vs.vals[k].cluster, rs, n, k))
  }

  /** The whole grouping: one app per reported name, grouped as above. */
  ghost predicate Grouped(acc: Obj<AppAcc>, rs: seq<Report>) {
    && WellFormed(acc)
    && NamedByKey(acc)
    && (forall n :: n in acc.vals <==> Mentions(rs, n))
    && (forall n :: n in acc.vals ==> VersionsGrouped(acc.vals[n].versions, rs, n))
  }

  /** Every app entry sits under its own name. */
  ghost predicate NamedByKey(acc: Obj<AppAcc>) {
    forall n :: n in acc.vals ==> acc.vals[n].name == n
  }

  // Each lemma below takes one more report: `rs` is the longer list, its
  // last element the new report and `rs[..|rs| - 1]` the list before it.

  /** A report of another version leaves a cluster's grouping as it was. */
  lemma ClusterOther(c: Obj<Member>, rs: seq<Report>, n: string, k: string)
    requires |rs| > 0 && ClusterGrouped(c, rs[..|rs| - 1], n, k)
    requires !OfVersion(rs[|rs| - 1], n, k)
    ensures ClusterGrouped(c, rs, n, k)
  {
  }

  /** A report of this version adds its IP unless that IP is already there. */
  lemma ClusterSame(c: Obj<Member>, rs: seq<Report>, n: string, k: string)
    requires |rs| > 0 && ClusterGrouped(c, rs[..|rs| - 1], n, k)
    requires OfVersion(rs[|rs| - 1], n, k)
    ensures ClusterGrouped(AddMember(c, rs[|rs| - 1]), rs, n, k)
  {
    var c' := AddMember(c, rs[|rs| - 1]);
    forall ip
      ensures ip in c'.vals <==> FirstMember(rs, n, k, ip).Some?
      ensures ip in c'.vals ==> c'.vals[ip] == MemberOf(FirstMember(rs, n, k, ip).value)
    {
    }
  }

  /** A version nobody has reported has an empty cluster. */
  lemma ClusterNew(rs: seq<Report>, n: string, k: string)
    requires FirstVersion(rs, n, k).None?
    ensures ClusterGrouped(Empty(), rs, n, k)
  {
    forall ip ensures FirstMember(rs, n, k, ip).None? {
      NoVersionNoMember(rs, n, k, ip);
    }
  }

  /** A report of another app leaves an app's versions grouped as they were. */
  lemma VersionsOther(vs: Obj<VerAcc>, rs: seq<Report>, n: string)
    requires |rs| > 0 && VersionsGrouped(vs, rs[..|rs| - 1], n)
    requires rs[|rs| - 1].name != n
    ensures VersionsGrouped(vs, rs, n)
  {
    forall k | k in vs.vals ensures ClusterGrouped(vs.vals[k].cluster, rs, n, k) {
      ClusterOther(vs.vals[k].cluster, rs, n, k);
    }
  }

  /** A report of this app creates its version if new and then records its member. */
  lemma VersionsSame(vs: Obj<VerAcc>, rs: seq<Report>)
    requires |rs| > 0 && VersionsGrouped(vs, rs[..|rs| - 1], rs[|rs| - 1].name)
    ensures VersionsGrouped(AddVersion(vs, rs[|rs| - 1]), rs, rs[|rs| - 1].name)
  {
    var r := rs[|rs| - 1];
    var n, key := r.name, KeyOf(r);
    var vs' := AddVersion(vs, r);
    forall k
      ensures k in vs'.vals <==> FirstVersion(rs, n, k).Some?
      ensures k in vs'.vals ==> vs'.vals[k].first == FirstVersion(rs, n, k).value
      ensures k in vs'.vals ==> ClusterGrouped(vs'.vals[k].cluster, rs, n, k)
    {
      if k == key {
        if key in vs.vals {
          ClusterSame(vs.vals[key].cluster, rs, n, key);
        } else {
          ClusterNew(rs[..|rs| - 1], n, key);
          ClusterSame(Empty(), rs, n, key);
        }
      } else if k in vs.vals {
        ClusterOther(vs.vals[k].cluster, rs, n, k);
      }
    }
  }

  /** An app nobody has reported has no versions. */
  lemma VersionsNew(rs: seq<Report>, n: string)
    requires !Mentions(rs, n)
    ensures VersionsGrouped(Empty(), rs, n)
  {
    forall k ensures FirstVersion(rs, n, k).None? {
      NotMentionedNoVersion(rs, n, k);
    }
  }

  /** One more report keeps each app's entry faithful to the longer list of reports. */
  lemma StepGroupedAt(acc: Obj<AppAcc>, rs: seq<Report>, n: string)
    requires |rs| > 0 && Grouped(acc, rs[..|rs| - 1])
    requires n in Step(acc, rs[|rs| - 1]).vals
    ensures Step(acc, rs[|rs| - 1]).vals[n].name == n
    ensures VersionsGrouped(Step(acc, rs[|rs| - 1]).vals[n].versions, rs, n)
  {
    var r := rs[|rs| - 1];
    if n == r.name {
      if r.name in acc.vals {
        VersionsSame(acc.vals[n].versions, rs);
      } else {
        VersionsNew(rs[..|rs| - 1], n);
        VersionsSame(Empty(), rs);
      }
    } else {
      VersionsOther(acc.vals[n].versions, rs, n);
    }
  }

  /** One more report keeps the grouping faithful to the longer list of reports. */
  lemma StepGrouped(acc: Obj<AppAcc>, rs: seq<Report>)
    requires |rs| > 0 && Grouped(acc, rs[..|rs| - 1])
    ensures Grouped(Step(acc, rs[|rs| - 1]), rs)
  {
    var acc' := Step(acc, rs[|rs| - 1]);
    forall n | n in acc'.vals
      ensures acc'.vals[n].name == n && VersionsGrouped(acc'.vals[n].versions, rs, n)
    {
      StepGroupedAt(acc, rs, n);
    }
  }

  /** The `apps.forEach` pass groups the reports by name, version key and IP, first report first. */
  lemma {:induction false} GroupFaithful(rs: seq<Report>)
    ensures Grouped(Group(rs), rs)
    decreases |rs|
  {
    if |rs| > 0 {
      GroupFaithful(rs[..|rs| - 1]);
      StepGrouped(Group(rs[..|rs| - 1]), rs);
    }
  }

  // ---------------------------------------------------------------------
  // Output: the `Object.keys(result).forEach` pass
  // ---------------------------------------------------------------------

  /** Some entry of `ms` is for node `ip`. */
  predicate HasIp(ms: seq<Member>, ip: string) {
    exists j :: 0 <= j < |ms| && ms[j].ip == ip
  }

  /** No two entries are for the same node. */
  predicate DistinctIps(ms: seq<Member>) {
    forall i, j :: 0 <= i < j < |ms| ==> ms[i].ip != ms[j].ip
  }

  /** Every cluster entry sits under its own IP. */
  ghost predicate KeyedByIp(c: Obj<Member>) {
    forall ip :: ip in c.vals ==> c.vals[ip].ip == ip
  }

  function IpOf(m: Member): string {
    m.ip
  }

  /** `_.findIndex(ms, vm => ip === vm.ip)` from position `from` on. */
  function FindIndexFrom(ms: seq<Member>, ip: string, from: nat): (i: int)
    requires from <= |ms|
    ensures i == -1 || from <= i < |ms|
    ensures i == -1 <==> forall j :: from <= j < |ms| ==> ms[j].ip != ip
    ensures i >= 0 ==> ms[i].ip == ip && forall j :: from <= j < i ==> ms[j].ip != ip
    decreases |ms| - from
  {
    if from == |ms| then -1
    else if ms[from].ip == ip then from
    else FindIndexFrom(ms, ip, from + 1)
  }

  /** `_.findIndex(ms, vm => ip === vm.ip)`: the first entry for `ip`, or -1. */
  function FindIndexByIp(ms: seq<Member>, ip: string): (i: int)
    ensures -1 <= i < |ms|
    ensures i == -1 <==> !HasIp(ms, ip)
    ensures i >= 0 ==> ms[i].ip == ip && forall j :: 0 <= j < i ==> ms[j].ip != ip
  {
    FindIndexFrom(ms, ip, 0)
  }

  /** One turn of the `ips.forEach` loop: `{ip, status: 'none'}` is appended unless `ip` has an entry. */
  function FillOne(vms: seq<Member>, ip: string): (r: seq<Member>)
    ensures |vms| <= |r| <= |vms| + 1 && r[..|vms|] == vms
    ensures |r| == |vms| + 1 ==> r[|vms|] == Absent(ip)
    ensures r == vms <==> HasIp(vms, ip)
    ensures forall x :: HasIp(r, x) <==> HasIp(vms, x) || x == ip
    ensures DistinctIps(vms) ==> DistinctIps(r)
  {
    if FindIndexByIp(vms, ip) < 0 then
      var r := vms + [Absent(ip)];
      assert r[|vms|].ip == ip;
      assert forall j :: 0 <= j < |vms| ==> r[j] == vms[j];
      r
    else vms
  }

  /** The `ips.forEach` loop: each known IP without an entry yet gets `{ip, status: 'none'}` at the end. */
  function GapFill(vms: seq<Member>, ips: seq<string>): (r: seq<Member>)
    ensures |vms| <= |r| && r[..|vms|] == vms
    decreases |ips|
  {
    if |ips| == 0 then vms
    else GapFill(FillOne(vms, ips[0]), ips[1..])
  }

  /** Everything the loop appends is the filler of a known IP. */
  lemma {:induction false} GapFillAppendsFillers(vms: seq<Member>, ips: seq<string>)
    ensures forall j :: |vms| <= j < |GapFill(vms, ips)| ==>
      GapFill(vms, ips)[j] == Absent(GapFill(vms, ips)[j].ip) && GapFill(vms, ips)[j].ip in ips
    decreases |ips|
  {
    if |ips| > 0 {
      var next := FillOne(vms, ips[0]);
      var r := GapFill(next, ips[1..]);
      assert r == GapFill(vms, ips);
      GapFillAppendsFillers(next, ips[1..]);
      forall j | |vms| <= j < |r| ensures r[j] == Absent(r[j].ip) && r[j].ip in ips {
        if j < |next| {
          assert r[j] == r[..|next|][j] == next[j] == Absent(ips[0]);
        } else {
          assert r[j].ip in ips[1..];
        }
      }
    }
  }

  /** After the loop, exactly the IPs that had an entry or are known have one. */
  lemma {:induction false} GapFillCovers(vms: seq<Member>, ips: seq<string>)
    ensures forall ip :: HasIp(GapFill(vms, ips), ip) <==> HasIp(vms, ip) || ip in ips
    decreases |ips|
  {
    if |ips| > 0 {
      GapFillCovers(FillOne(vms, ips[0]), ips[1..]);
      assert ips == [ips[0]] + ips[1..];
    }
  }

  /** The loop never adds a second entry for an IP. */
  lemma {:induction false} GapFillDistinct(vms: seq<Member>, ips: seq<string>)
    requires DistinctIps(vms)
    ensures DistinctIps(GapFill(vms, ips))
    decreases |ips|
  {
    if |ips| > 0 {
      GapFillDistinct(FillOne(vms, ips[0]), ips[1..]);
    }
  }

  /** `a.ip > b.ip ? 1 : -1` read as an order: `a` may come first when `a.ip` is not above `b.ip`. */
  predicate IpLe(a: Member, b: Member) {
    LessOrEqual(a.ip, b.ip)
  }

  lemma IpOrder()
    ensures TotalPreorder(IpLe)
  {
    forall a: Member, b: Member ensures IpLe(a, b) || IpLe(b, a) {
      LessOrEqualFacts(a.ip, b.ip, b.ip);
    }
    forall a: Member, b: Member, c: Member | IpLe(a, b) && IpLe(b, c) ensures IpLe(a, c) {
      LessOrEqualFacts(a.ip, b.ip, c.ip);
    }
  }

  /** A version's cluster as output: the recorded entries in key order, gap-filled, sorted by IP. */
  function BuildCluster(c: Obj<Member>, ips: seq<string>): (ms: seq<Member>)
    requires Valid(c)
    ensures multiset(ms) == multiset(GapFill(Values(c), ips))
    ensures SortedBy(IpLe, ms)
  {
    IpOrder();
    SortBy(GapFill(Values(c), ips), IpLe)
  }

  /** An output entry agrees with the cluster it came from: its recorded entry, or a filler. */
  ghost predicate Recorded(c: Obj<Member>, m: Member) {
    && (m.ip in c.vals ==> m == c.vals[m.ip])
    && (m.ip !in c.vals ==> m == Absent(m.ip))
  }

  /** The recorded entries of a cluster keyed by IP: one per key, with distinct IPs. */
  lemma ClusterValues(c: Obj<Member>)
    requires Valid(c) && KeyedByIp(c)
    ensures DistinctIps(Values(c))
    ensures forall ip :: HasIp(Values(c), ip) <==> ip in c.vals
    ensures forall m :: m in Values(c) ==> Recorded(c, m)
  {
    var vs := Values(c);
    forall ip | ip in c.vals ensures HasIp(vs, ip) {
      var i :| 0 <= i < |c.keys| && c.keys[i] == ip;
      assert vs[i].ip == ip;
    }
  }

  /** A filler is only ever added for an IP the cluster does not record. */
  lemma FillerNotRecorded(c: Obj<Member>, ips: seq<string>, j: int)
    requires Valid(c) && KeyedByIp(c)
    requires |Values(c)| <= j < |GapFill(Values(c), ips)|
    requires DistinctIps(GapFill(Values(c), ips))
    ensures GapFill(Values(c), ips)[j].ip !in c.vals
  {
    var vs := Values(c);
    var g := GapFill(vs, ips);
    var ip := g[j].ip;
    forall i | 0 <= i < |vs| ensures vs[i].ip != ip {
      assert g[i] == g[..|vs|][i];
    }
    assert !HasIp(vs, ip);
    ClusterValues(c);
  }

  /** The gap-filled list before sorting: distinct IPs, each entry recorded or a filler. */
  lemma FilledValues(c: Obj<Member>, ips: seq<string>)
    requires Valid(c) && KeyedByIp(c)
    ensures DistinctIps(GapFill(Values(c), ips))
    ensures forall ip :: HasIp(GapFill(Values(c), ips), ip) <==> ip in c.vals || ip in ips
    ensures forall m :: m in GapFill(Values(c), ips) ==> Recorded(c, m)
  {
    var vs := Values(c);
    var g := GapFill(vs, ips);
    ClusterValues(c);
    GapFillAppendsFillers(vs, ips);
    GapFillCovers(vs, ips);
    GapFillDistinct(vs, ips);
    forall j | 0 <= j < |g| ensures Recorded(c, g[j]) {
      if j < |vs| {
        assert g[j] == vs[j] && vs[j] in vs;
      } else {
        FillerNotRecorded(c, ips, j);
      }
    }
  }

  /** A built cluster: strictly ascending IPs, an entry for each recorded or known IP, and each
      entry the recorded one or the `none` filler. */
  lemma BuildClusterFaithful(c: Obj<Member>, ips: seq<string>)
    requires Valid(c) && KeyedByIp(c)
    ensures forall i, j :: 0 <= i < j < |BuildCluster(c, ips)| ==>
      Less(BuildCluster(c, ips)[i].ip, BuildCluster(c, ips)[j].ip)
    ensures forall ip :: HasIp(BuildCluster(c, ips), ip) <==> ip in c.vals || ip in ips
    ensures forall m :: m in BuildCluster(c, ips) ==> Recorded(c, m)
  {
    var g := GapFill(Values(c), ips);
    var ms := BuildCluster(c, ips);
    FilledValues(c, ips);
    forall ip ensures HasIp(ms, ip) <==> HasIp(g, ip) {
      if HasIp(ms, ip) {
        var j :| 0 <= j < |ms| && ms[j].ip == ip;
        assert ms[j] in multiset(g);
      }
      if HasIp(g, ip) {
        var j :| 0 <= j < |g| && g[j].ip == ip;
        assert g[j] in multiset(ms);
      }
    }
    forall m | m in ms ensures Recorded(c, m) {
      assert m in multiset(g);
    }
    PermutationKeepsDistinct(g, ms, IpOf);
    forall i, j | 0 <= i < j < |ms| ensures Less(ms[i].ip, ms[j].ip) {
      assert IpLe(ms[i], ms[j]) && IpOf(ms[i]) != IpOf(ms[j]);
      LessOrEqualFacts(ms[i].ip, ms[j].ip, ms[j].ip);
    }
  }

  /** One output version from its grouping entry: the first report's fields and the built cluster. */
  function BuildVersion(v: VerAcc, ips: seq<string>): (r: VersionGroup)
    requires Valid(v.cluster)
    ensures r.Key() == KeyOf(v.first)
    ensures SortedBy(IpLe, r.cluster)
  {
    var f := v.first;
    VersionGroup(f.version, f.buildNum, f.publishAt, f.appId, BuildCluster(v.cluster, ips), f.isCurrWorking)
  }

  /** `Object.keys(versions).forEach(...)`: one output version per entry, in key order. */
  function BuildVersions(vs: seq<VerAcc>, ips: seq<string>): (out: seq<VersionGroup>)
    requires forall i :: 0 <= i < |vs| ==> Valid(vs[i].cluster)
    ensures |out| == |vs|
    decreases |vs|
  {
    if |vs| == 0 then [] else [BuildVersion(vs[0], ips)] + BuildVersions(vs[1..], ips)
  }

  lemma {:induction false} BuildVersionsAt(vs: seq<VerAcc>, ips: seq<string>, i: int)
    requires forall i :: 0 <= i < |vs| ==> Valid(vs[i].cluster)
    requires 0 <= i < |vs|
    ensures BuildVersions(vs, ips)[i] == BuildVersion(vs[i], ips)
    decreases |vs|
  {
    if i > 0 {
      BuildVersionsAt(vs[1..], ips, i - 1);
    }
  }

  /** `a.weight > b.weight ? 1 : -1` read as an order on weights; a NaN weight is placed first. */
  predicate WeightLe(a: VersionGroup, b: VersionGroup) {
    match a.Weight()
    case None => true
    case Some(x) => b.Weight().Some? && x <= b.Weight().value
  }

  lemma WeightLeOrder()
    ensures TotalPreorder(WeightLe)
  {
  }

  /** One output app: its versions built and sorted by weight. */
  function BuildApp(a: AppAcc, ips: seq<string>): (r: AppGroup)
    requires VersionsValid(a.versions)
    ensures r.name == a.name
    ensures SortedBy(WeightLe, r.versions)
  {
    WeightLeOrder();
    AppGroup(a.name, SortBy(BuildVersions(Values(a.versions), ips), WeightLe))
  }

  /** `Object.keys(result).forEach(...)`: one output app per entry, in key order. */
  function BuildApps(apps: seq<AppAcc>, ips: seq<string>): (out: seq<AppGroup>)
    requires forall i :: 0 <= i < |apps| ==> VersionsValid(apps[i].versions)
    ensures |out| == |apps|
    ensures forall i :: 0 <= i < |apps| ==> out[i].name == apps[i].name
    decreases |apps|
  {
    if |apps| == 0 then [] else [BuildApp(apps[0], ips)] + BuildApps(apps[1..], ips)
  }

  lemma {:induction false} BuildAppsAt(apps: seq<AppAcc>, ips: seq<string>, i: int)
    requires forall i :: 0 <= i < |apps| ==> VersionsValid(apps[i].versions)
    requires 0 <= i < |apps|
    ensures BuildApps(apps, ips)[i] == BuildApp(apps[i], ips)
    decreases |apps|
  {
    if i > 0 {
      BuildAppsAt(apps[1..], ips, i - 1);
    }
  }

  /** `a.name > b.name ? 1 : -1` read as an order. */
  predicate NameLe(a: AppGroup, b: AppGroup) {
    LessOrEqual(a.name, b.name)
  }

  lemma NameOrder()
    ensures TotalPreorder(NameLe)
  {
    forall a: AppGroup, b: AppGroup ensures NameLe(a, b) || NameLe(b, a) {
      LessOrEqualFacts(a.name, b.name, b.name);
    }
    forall a: AppGroup, b: AppGroup, c: AppGroup | NameLe(a, b) && NameLe(b, c) ensures NameLe(a, c) {
      LessOrEqualFacts(a.name, b.name, c.name);
    }
  }

  /** The apps in `Object.keys(result)` order, each built, before the final sort. */
  function Unsorted(ips: seq<string>, rs: seq<Report>): seq<AppGroup> {
    BuildApps(Values(Group(rs)), ips)
  }

  /** `mergeAppInfo(ips, apps)`. */
  function MergeAppInfo(ips: seq<string>, rs: seq<Report>): (out: seq<AppGroup>)
    ensures multiset(out) == multiset(Unsorted(ips, rs))
    ensures SortedBy(NameLe, out)
  {
    NameOrder();
    SortBy(Unsorted(ips, rs), NameLe)
  }

  // The promises about the output, stated against the reports.

  /** An output member: the first report of its node, or the filler when its node did not report. */
  ghost predicate MemberFaithful(m: Member, rs: seq<Report>, n: string, k: string) {
    var first := FirstMember(rs, n, k, m.ip);
    if first.Some? then m == MemberOf(first.value) else m == Absent(m.ip)
  }

  /** An output cluster: strictly ascending IPs, one entry per known or reporting node. */
  ghost predicate ClusterFaithful(ms: seq<Member>, rs: seq<Report>, n: string, k: string, ips: seq<string>) {
    && (forall i, j :: 0 <= i < j < |ms| ==> Less(ms[i].ip, ms[j].ip))
    && (forall ip :: HasIp(ms, ip) <==> ip in ips || FirstMember(rs, n, k, ip).Some?)
    && (forall m :: m in ms ==> MemberFaithful(m, rs, n, k))
  }

  /** An output version: reported, with the first report's fields and a faithful cluster. */
  ghost predicate VersionFaithful(v: VersionGroup, rs: seq<Report>, n: string, ips: seq<string>) {
    var first := FirstVersion(rs, n, v.Key());
    && first.Some?
    && v.version == first.value.version
    && v.buildNum == first.value.buildNum
    && v.publishAt == first.value.publishAt
    && v.appId == first.value.appId
    && v.isCurrWorking == first.value.isCurrWorking
    && ClusterFaithful(v.cluster, rs, n, v.Key(), ips)
  }

  /** Some output version has key `k`. */
  predicate HasKey(vs: seq<VersionGroup>, k: string) {
    exists j :: 0 <= j < |vs| && vs[j].Key() == k
  }

  /** An output app: reported, one version per reported key, sorted by weight, each faithful. */
  ghost predicate AppFaithful(a: AppGroup, rs: seq<Report>, ips: seq<string>) {
    && Mentions(rs, a.name)
    && SortedBy(WeightLe, a.versions)
    && (forall i, j :: 0 <= i < j < |a.versions| ==> a.versions[i].Key() != a.versions[j].Key())
    && (forall k :: HasKey(a.versions, k) <==> FirstVersion(rs, a.name, k).Some?)
    && (forall v :: v in a.versions ==> VersionFaithful(v, rs, a.name, ips))
  }

  /** A cluster grouped for version `k` of app `n` sits under its IPs. */
  lemma GroupedKeyedByIp(c: Obj<Member>, rs: seq<Report>, n: string, k: string)
    requires ClusterGrouped(c, rs, n, k)
    ensures KeyedByIp(c)
  {
  }

  /** A cluster built from its grouping entry is faithful to the reports. */
  lemma BuiltClusterFaithful(c: Obj<Member>, rs: seq<Report>, n: string, k: string, ips: seq<string>)
    requires ClusterGrouped(c, rs, n, k)
    ensures ClusterFaithful(BuildCluster(c, ips), rs, n, k, ips)
  {
    GroupedKeyedByIp(c, rs, n, k);
    BuildClusterFaithful(c, ips);
    var ms := BuildCluster(c, ips);
    forall m | m in ms ensures MemberFaithful(m, rs, n, k) {
      assert Recorded(c, m);
    }
  }

  /** A version built from its grouping entry is faithful to the reports. */
  lemma BuildVersionFaithful(v: VerAcc, rs: seq<Report>, n: string, k: string, ips: seq<string>)
    requires ClusterGrouped(v.cluster, rs, n, k) && FirstVersion(rs, n, k) == Some(v.first)
    ensures BuildVersion(v, ips).Key() == k
    ensures VersionFaithful(BuildVersion(v, ips), rs, n, ips)
  {
    assert BuildVersion(v, ips).Key() == KeyOf(v.first);
    BuiltClusterFaithful(v.cluster, rs, n, k, ips);
  }

  function KeyOfGroup(v: VersionGroup): string {
    v.Key()
  }

  function NameOf(a: AppGroup): string {
    a.name
  }

  /** The versions built from a grouping entry, before sorting: one per key, in key order. */
  lemma BuiltVersions(a: AppAcc, rs: seq<Report>, ips: seq<string>)
    requires VersionsGrouped(a.versions, rs, a.name)
    ensures var bs := BuildVersions(Values(a.versions), ips);
      && (forall i :: 0 <= i < |bs| ==> bs[i].Key() == a.versions.keys[i])
      && (forall i :: 0 <= i < |bs| ==> VersionFaithful(bs[i], rs, a.name, ips))
      && DistinctBy(bs, KeyOfGroup)
      && (forall k :: HasKey(bs, k) <==> FirstVersion(rs, a.name, k).Some?)
  {
    var bs := BuildVersions(Values(a.versions), ips);
    forall i | 0 <= i < |bs|
      ensures bs[i].Key() == a.versions.keys[i] && VersionFaithful(bs[i], rs, a.name, ips)
    {
      var k := a.versions.keys[i];
      BuildVersionsAt(Values(a.versions), ips, i);
      BuildVersionFaithful(a.versions.vals[k], rs, a.name, k, ips);
    }
    forall k | FirstVersion(rs, a.name, k).Some? ensures HasKey(bs, k) {
      var i :| 0 <= i < |a.versions.keys| && a.versions.keys[i] == k;
      assert bs[i].Key() == k;
    }
  }

  /** An app built from its grouping entry is faithful to the reports. */
  lemma BuildAppFaithful(a: AppAcc, rs: seq<Report>, ips: seq<string>)
    requires VersionsGrouped(a.versions, rs, a.name) && Mentions(rs, a.name)
    ensures BuildApp(a, ips).name == a.name
    ensures AppFaithful(BuildApp(a, ips), rs, ips)
  {
    var bs := BuildVersions(Values(a.versions), ips);
    var out := BuildApp(a, ips).versions;
    WeightLeOrder();
    assert out == SortBy(bs, WeightLe);
    BuiltVersions(a, rs, ips);
    PermutationKeepsDistinct(bs, out, KeyOfGroup);
    forall k ensures HasKey(out, k) <==> HasKey(bs, k) {
      if HasKey(out, k) {
        var j :| 0 <= j < |out| && out[j].Key() == k;
        assert out[j] in multiset(bs);
      }
      if HasKey(bs, k) {
        var j :| 0 <= j < |bs| && bs[j].Key() == k;
        assert bs[j] in multiset(out);
      }
    }
    forall v | v in out ensures VersionFaithful(v, rs, a.name, ips) {
      assert v in multiset(bs);
    }
  }

  /** Some output app is named `n`. */
  predicate HasName(out: seq<AppGroup>, n: string) {
    exists i :: 0 <= i < |out| && out[i].name == n
  }

  /** Built from a grouping, the apps come in key order. */
  lemma BuiltInKeyOrder(acc: Obj<AppAcc>, ips: seq<string>)
    requires WellFormed(acc) && NamedByKey(acc)
    ensures |BuildApps(Values(acc), ips)| == |acc.keys|
    ensures forall i :: 0 <= i < |acc.keys| ==> BuildApps(Values(acc), ips)[i].name == acc.keys[i]
  {
  }

  /** Names in key order: each name of the grouping, once. */
  lemma KeyOrderNames(apps: seq<AppGroup>, acc: Obj<AppAcc>)
    requires Valid(acc) && |apps| == |acc.keys|
    requires forall i :: 0 <= i < |acc.keys| ==> apps[i].name == acc.keys[i]
    ensures DistinctBy(apps, NameOf)
    ensures forall n :: HasName(apps, n) <==> n in acc.vals
  {
    forall n | n in acc.vals ensures HasName(apps, n) {
      var i :| 0 <= i < |acc.keys| && acc.keys[i] == n;
      assert apps[i].name == n;
    }
  }

  /** Built from a grouping, every app is faithful to the reports. */
  lemma BuiltFaithful(acc: Obj<AppAcc>, rs: seq<Report>, ips: seq<string>)
    requires Grouped(acc, rs)
    ensures forall i :: 0 <= i < |BuildApps(Values(acc), ips)| ==>
      AppFaithful(BuildApps(Values(acc), ips)[i], rs, ips)
  {
    var apps := BuildApps(Values(acc), ips);
    forall i | 0 <= i < |apps| ensures AppFaithful(apps[i], rs, ips) {
      var n := acc.keys[i];
      BuildAppsAt(Values(acc), ips, i);
      BuildAppFaithful(acc.vals[n], rs, ips);
    }
  }

  /** Before the final sort: the reported names, once each. */
  lemma UnsortedNames(ips: seq<string>, rs: seq<Report>)
    ensures DistinctBy(Unsorted(ips, rs), NameOf)
    ensures forall n :: HasName(Unsorted(ips, rs), n) <==> Mentions(rs, n)
  {
    GroupFaithful(rs);
    BuiltInKeyOrder(Group(rs), ips);
    KeyOrderNames(Unsorted(ips, rs), Group(rs));
  }

  /** Before the final sort: every app is faithful to the reports. */
  lemma UnsortedFaithful(ips: seq<string>, rs: seq<Report>)
    ensures forall i :: 0 <= i < |Unsorted(ips, rs)| ==> AppFaithful(Unsorted(ips, rs)[i], rs, ips)
  {
    GroupFaithful(rs);
    BuiltFaithful(Group(rs), rs, ips);
  }

  /** The output lists every reported app exactly once, in strictly ascending name order. */
  lemma MergeNames(ips: seq<string>, rs: seq<Report>)
    ensures var out := MergeAppInfo(ips, rs);
      forall i, j :: 0 <= i < j < |out| ==> Less(out[i].name, out[j].name)
    ensures forall n :: HasName(MergeAppInfo(ips, rs), n) <==> Mentions(rs, n)
  {
    var apps := Unsorted(ips, rs);
    var out := MergeAppInfo(ips, rs);
    UnsortedNames(ips, rs);
    PermutationKeepsDistinct(apps, out, NameOf);
    forall i, j | 0 <= i < j < |out| ensures Less(out[i].name, out[j].name) {
      assert NameLe(out[i], out[j]) && NameOf(out[i]) != NameOf(out[j]);
      LessOrEqualFacts(out[i].name, out[j].name, out[j].name);
    }
    forall n ensures HasName(out, n) <==> HasName(apps, n) {
      if HasName(out, n) {
        var j :| 0 <= j < |out| && out[j].name == n;
        assert out[j] in multiset(apps);
      }
      if HasName(apps, n) {
        var j :| 0 <= j < |apps| && apps[j].name == n;
        assert apps[j] in multiset(out);
      }
    }
  }

  /** A report whose node already reported that version changes nothing in the grouping. */
  lemma StepRepeated(acc: Obj<AppAcc>, r: Report)
    requires WellFormed(acc) && r.name in acc.vals
    requires KeyOf(r) in acc.vals[r.name].versions.vals
    requires r.ip in acc.vals[r.name].versions.vals[KeyOf(r)].cluster.vals
    ensures Step(acc, r) == acc
  {
    var app := acc.vals[r.name];
    var v := app.versions.vals[KeyOf(r)];
    assert AddVersion(app.versions, r).vals == app.versions.vals;
    assert AddVersion(app.versions, r) == app.versions;
    assert Step(acc, r).vals == acc.vals;
  }

  /** A later report by the same node of the same version is ignored: the output stays the same. */
  lemma DuplicateIgnored(ips: seq<string>, rs: seq<Report>, r: Report)
    requires FirstMember(rs, r.name, KeyOf(r), r.ip).Some?
    ensures MergeAppInfo(ips, rs + [r]) == MergeAppInfo(ips, rs)
  {
    var acc := Group(rs);
    GroupFaithful(rs);
    if FirstVersion(rs, r.name, KeyOf(r)).None? {
      NoVersionNoMember(rs, r.name, KeyOf(r), r.ip);
    }
    if !Mentions(rs, r.name) {
      NotMentionedNoVersion(rs, r.name, KeyOf(r));
    }
    StepRepeated(acc, r);
    assert (rs + [r])[..|rs|] == rs;
    assert Group(rs + [r]) == Step(acc, r);
  }

  /** Every output app is faithful to the reports: versions by weight, clusters gap-filled and by IP,
      each level taken from the first report. */
  lemma MergeFaithful(ips: seq<string>, rs: seq<Report>)
    ensures forall a :: a in MergeAppInfo(ips, rs) ==> AppFaithful(a, rs, ips)
  {
    var apps := Unsorted(ips, rs);
    UnsortedFaithful(ips, rs);
    forall a | a in MergeAppInfo(ips, rs) ensures AppFaithful(a, rs, ips) {
      assert a in multiset(apps);
    }
  }
}

/** The two phases of auto_ec2_snapshot.rb: snapshotting the attached volumes of the listed
    instances, then pruning the tool's own snapshots whose expiration tag has passed. Provider
    responses come in as data (Cloud, the described instances and snapshots); every provider
    call and dry-run report goes out as an entry of an action log. */
module AutoSnapshot {
  import opened Records
  import opened TimeText
  import opened Options
  import opened AwsHelper

  const AutoscalingKey := "aws:autoscaling:groupName"
  const BuildFleetMarker := "bamboo"
  const TagCompleted := "ff:snapshot:complete"
  const TagExpiration := "ff:snapshot:expiration"
  const TagDeleteAfterExpiration := "ff:snapshot:delete_after_expiration"
  const Attached := "attached"
  const Running := "running"
  const Completed := "completed"

  // ---------------------------------------------------------------------------------------
  // Instance eligibility and display name

  predicate OccursAt(s: string, sub: string, i: nat)
    requires i + |sub| <= |s|
  {
    s[i..i + |sub|] == sub
  }

  /** Ruby's String#include?. */
  predicate Contains(s: string, sub: string)
  {
    exists i: nat :: i + |sub| <= |s| && OccursAt(s, sub, i)
  }

  /** A tag that makes the whole instance ineligible. */
  predicate ExcludingTag(t: Tag)
  {
    t.key == AutoscalingKey || (t.key == NameKey && Contains(t.value, BuildFleetMarker))
  }

  /** Instances in an autoscaling group or of the build fleet are not snapshotted. */
  predicate Skipped(tags: seq<Tag>)
  {
    exists k :: 0 <= k < |tags| && ExcludingTag(tags[k])
  }

  /** Exclusion depends on which tags an instance carries, not on their order. */
  lemma SkippedIgnoresOrder(tags: seq<Tag>, other: seq<Tag>)
    requires multiset(tags) == multiset(other)
    ensures Skipped(tags) <==> Skipped(other)
  {
    if Skipped(tags) {
      var k :| 0 <= k < |tags| && ExcludingTag(tags[k]);
      assert tags[k] in multiset(other);
      var j :| 0 <= j < |other| && other[j] == tags[k];
    }
    if Skipped(other) {
      var k :| 0 <= k < |other| && ExcludingTag(other[k]);
      assert other[k] in multiset(tags);
      var j :| 0 <= j < |tags| && tags[j] == other[k];
    }
  }

  /** The name a non-excluded instance's snapshots are described by: decided by its LAST
      Name tag, the instance id when that value is empty; '' when it has no Name tag. */
  function DisplayName(id: string, tags: seq<Tag>): string
  {
    if tags == [] then ""
    else
      var n := |tags| - 1;
      if tags[n].key == NameKey then (if tags[n].value == "" then id else tags[n].value)
      else DisplayName(id, tags[..n])
  }

  /** DisplayName is decided by the last Name tag (at k), and is '' without one (k = -1). */
  lemma {:induction false} DisplayNameFromLastNameTag(id: string, tags: seq<Tag>, k: int)
    requires -1 <= k < |tags| && (k >= 0 ==> tags[k].key == NameKey)
    requires forall j :: k < j < |tags| ==> tags[j].key != NameKey
    ensures DisplayName(id, tags) == if k < 0 then "" else if tags[k].value == "" then id else tags[k].value
  {
    if tags != [] && k != |tags| - 1 {
      var n := |tags| - 1;
      assert forall j :: k < j < n ==> tags[..n][j] == tags[j];
      DisplayNameFromLastNameTag(id, tags[..n], k);
    }
  }

  /** The tag loop of the creation phase: stops at the first excluding tag; otherwise every
      Name tag overwrites the display name. */
  method ScanInstanceTags(id: string, tags: seq<Tag>) returns (skip: bool, name: string)
    ensures skip <==> Skipped(tags)
    ensures !skip ==> name == DisplayName(id, tags)
  {
    skip, name := false, "";
    var i := 0;
    while i < |tags|
      invariant 0 <= i <= |tags|
      invariant forall j :: 0 <= j < i ==> !ExcludingTag(tags[j])
      invariant name == DisplayName(id, tags[..i])
    {
      var t := tags[i];
      if t.key == AutoscalingKey {
        skip := true;
        break;
      }
      if t.key == NameKey {
        if t.value == "" {
          name := id;
        } else if Contains(t.value, BuildFleetMarker) {
          skip := true;
          break;
        } else {
          name := t.value;
        }
      }
      assert tags[..i + 1][..i] == tags[..i];
      i := i + 1;
    }
    assert tags[..|tags|] == tags;
  }

  // ---------------------------------------------------------------------------------------
  // Snapshot requests

  /** The volume-level rule: only mappings whose EBS status is "attached", in mapping order. */
  function AttachedVolumes(mappings: seq<Ebs>): seq<Ebs>
  {
    if mappings == [] then []
    else
      var n := |mappings| - 1;
      AttachedVolumes(mappings[..n]) + if mappings[n].status == Attached then [mappings[n]] else []
  }

  /** Exactly the attached mappings are kept, each as often as it occurs. */
  lemma {:induction false} AttachedVolumesCounts(mappings: seq<Ebs>)
    ensures forall v :: multiset(AttachedVolumes(mappings))[v]
                        == if v.status == Attached then multiset(mappings)[v] else 0
  {
    if mappings != [] {
      var n := |mappings| - 1;
      assert mappings == mappings[..n] + [mappings[n]];
      AttachedVolumesCounts(mappings[..n]);
    }
  }

  /** The filter keeps the order of the mappings: it works on each part of a concatenation
      separately. */
  lemma {:induction false} AttachedVolumesAppend(a: seq<Ebs>, b: seq<Ebs>)
    ensures AttachedVolumes(a + b) == AttachedVolumes(a) + AttachedVolumes(b)
  {
    if b == [] {
      assert a + b == a;
    } else {
      var n, ab := |b| - 1, a + b;
      var m := |ab| - 1;
      assert ab[..m] == a + b[..n] && ab[m] == b[n];
      assert AttachedVolumes(ab) == AttachedVolumes(ab[..m]) + (if ab[m].status == Attached then [ab[m]] else []);
      assert AttachedVolumes(b) == AttachedVolumes(b[..n]) + (if b[n].status == Attached then [b[n]] else []);
      AttachedVolumesAppend(a, b[..n]);
    }
  }

  /** A single mapping is kept exactly when it is attached. */
  lemma AttachedVolumesOne(e: Ebs)
    ensures AttachedVolumes([e]) == if e.status == Attached then [e] else []
  {
    assert [e][..0] == [];
  }

  /** One snapshot request: the volume and the description default from its instance. */
  datatype Request = Request(instanceId: string, name: string, volumeId: string)

  function VolumeRequests(id: string, name: string, mappings: seq<Ebs>): seq<Request>
  {
    if mappings == [] then []
    else
      var n := |mappings| - 1;
      VolumeRequests(id, name, mappings[..n])
      + if mappings[n].status == Attached then [Request(id, name, mappings[n].volumeId)] else []
  }

  lemma VolumeRequestsStep(id: string, name: string, mappings: seq<Ebs>, b: nat)
    requires b < |mappings|
    ensures VolumeRequests(id, name, mappings[..b + 1])
            == VolumeRequests(id, name, mappings[..b])
               + if mappings[b].status == Attached then [Request(id, name, mappings[b].volumeId)] else []
  {
    assert mappings[..b + 1][..b] == mappings[..b];
  }

  /** One request per attached volume, in mapping order, none for the other volumes. */
  lemma {:induction false} VolumeRequestsAreAttachedVolumes(id: string, name: string, mappings: seq<Ebs>)
    ensures |VolumeRequests(id, name, mappings)| == |AttachedVolumes(mappings)|
    ensures forall k :: 0 <= k < |AttachedVolumes(mappings)| ==>
              VolumeRequests(id, name, mappings)[k] == Request(id, name, AttachedVolumes(mappings)[k].volumeId)
  {
    if mappings != [] {
      VolumeRequestsAreAttachedVolumes(id, name, mappings[..|mappings| - 1]);
    }
  }

  /** An excluded instance yields no request; any other one request per attached volume. */
  function InstanceRequests(inst: Instance): seq<Request>
  {
    if Skipped(inst.tags) then []
    else VolumeRequests(inst.id, DisplayName(inst.id, inst.tags), inst.mappings)
  }

  function ReservationRequests(instances: seq<Instance>): seq<Request>
  {
    Concat(instances, InstanceRequests)
  }

  /** The requests of a describe_instances result, in reservation and instance order. */
  function Requests(reservations: seq<Reservation>): seq<Request>
  {
    Concat(reservations, ReservationRequests)
  }

  /** The server-side filter of describe_instances: running, and among the given ids when
      --instance-ids named any. */
  predicate Listed(inst: Instance, ids: seq<string>)
  {
    inst.state == Running && (|ids| == 0 || inst.id in ids)
  }

  function ListedInstances(instances: seq<Instance>, ids: seq<string>): (r: seq<Instance>)
    ensures forall x :: x in r <==> x in instances && Listed(x, ids)
  {
    if instances == [] then []
    else
      var n := |instances| - 1;
      assert instances == instances[..n] + [instances[n]];
      ListedInstances(instances[..n], ids) + if Listed(instances[n], ids) then [instances[n]] else []
  }

  function DescribeInstances(reservations: seq<Reservation>, ids: seq<string>): (r: seq<Reservation>)
    ensures |r| == |reservations|
    ensures forall k :: 0 <= k < |r| ==> r[k] == ListedInstances(reservations[k], ids)
  {
    if reservations == [] then []
    else
      var n := |reservations| - 1;
      DescribeInstances(reservations[..n], ids) + [ListedInstances(reservations[n], ids)]
  }

  // ---------------------------------------------------------------------------------------
  // Creation and tagging

  /** The settings the phases read from the argument map. */
  datatype Config = Config(retentionDays: nat, dryRun: bool)

  /** The expiration instant of a snapshot taken at `now` and kept for `days` days. */
  function Expiry(now: nat, days: nat): nat
  {
    now + days * SecondsPerDay
  }

  /** The three tags written on a new snapshot, with `now` the clock reading in epoch seconds. */
  function RetentionTags(now: nat, days: nat): seq<Tag>
  {
    [ Tag(TagCompleted, Format(now)),
      Tag(TagExpiration, Format(Expiry(now, days))),
      Tag(TagDeleteAfterExpiration, "true") ]
  }

  /** What the creation phase does for the k-th request of the run: in dry-run mode only the
      report; otherwise createEBSSnapshot's calls, then, unless the returned snapshot id is
      empty, one create_tags call on that snapshot with the clock's k-th reading. */
  function RequestLog(q: Request, k: nat, cfg: Config, cloud: Cloud, clock: Clock): seq<Action>
  {
    if cfg.dryRun then [ReportSnapshot(q.volumeId)]
    else
      var id := cloud.snapshotIdFor(q.volumeId);
      [ DescribeVolumes(q.volumeId),
        CreateSnapshot(q.volumeId, ResolvedDescription(q.name, cloud.volumeTags(q.volumeId)), false) ]
      + if id == "" then [] else [CreateTags([id], RetentionTags(clock.reading(k), cfg.retentionDays))]
  }

  function Creation(cfg: Config, cloud: Cloud, clock: Clock): Handler<Request>
  {
    Handler((q: Request, k: nat) => RequestLog(q, k, cfg, cloud, clock))
  }

  /** The body of the block-device loop for an attached volume: report it in dry-run mode,
      otherwise create its snapshot and tag the snapshot unless its id came back empty. */
  method SnapshotVolume(q: Request, k: nat, cfg: Config, cloud: Cloud, clock: Clock)
    returns (log: seq<Action>)
    ensures log == RequestLog(q, k, cfg, cloud, clock)
  {
    if cfg.dryRun {
      return [ReportSnapshot(q.volumeId)];
    }
    var outcome, calls := CreateEbsSnapshot(Some(cloud), q.name, Some(q.volumeId));
    log := calls;
    if outcome.snapshotId != "" {
      var now := clock.reading(k);
      log := log + [CreateTags([outcome.snapshotId], RetentionTags(now, cfg.retentionDays))];
    }
  }

  /** Appends the handling of one more request to the log of the requests before it. */
  method AppendVolume(ghost done: seq<Request>, q: Request, start: nat, k: nat, cfg: Config, cloud: Cloud,
                      clock: Clock, log: seq<Action>)
    returns (log': seq<Action>)
    requires k == start + |done| && log == LogOf(done, start, Creation(cfg, cloud, clock))
    ensures log' == LogOf(done + [q], start, Creation(cfg, cloud, clock))
  {
    var calls := SnapshotVolume(q, k, cfg, cloud, clock);
    LogOfExtend(done, q, start, k, Creation(cfg, cloud, clock), log, calls);
    log' := log + calls;
  }

  /** The block-device loop of one instance; `start` counts the requests handled before. */
  method SnapshotVolumes(inst: Instance, name: string, start: nat, cfg: Config, cloud: Cloud, clock: Clock)
    returns (log: seq<Action>, next: nat)
    ensures log == LogOf(VolumeRequests(inst.id, name, inst.mappings), start, Creation(cfg, cloud, clock))
    ensures next == start + |VolumeRequests(inst.id, name, inst.mappings)|
  {
    ghost var h := Creation(cfg, cloud, clock);
    var mappings := inst.mappings;
    log := [];
    ghost var done: seq<Request> := [];
    var count := start;
    var b := 0;
    while b < |mappings|
      invariant 0 <= b <= |mappings|
      invariant done == VolumeRequests(inst.id, name, mappings[..b])
      invariant count == start + |done| && log == LogOf(done, start, h)
    {
      var ebs := mappings[b];
      VolumeRequestsStep(inst.id, name, mappings, b);
      if ebs.status == Attached {
        var q := Request(inst.id, name, ebs.volumeId);
        log := AppendVolume(done, q, start, count, cfg, cloud, clock, log);
        done := done + [q];
        count := count + 1;
      }
      // otherwise: NOTICE, the volume is not attached
      b := b + 1;
    }
    assert mappings[..|mappings|] == mappings;
    next := count;
  }

  /** One iteration of the instance loop: the tag scan, then the block-device loop unless
      the instance is excluded. */
  method SnapshotInstance(inst: Instance, start: nat, cfg: Config, cloud: Cloud, clock: Clock)
    returns (log: seq<Action>, next: nat)
    ensures log == LogOf(InstanceRequests(inst), start, Creation(cfg, cloud, clock))
    ensures next == start + |InstanceRequests(inst)|
  {
    var skip, name := ScanInstanceTags(inst.id, inst.tags);
    if skip {
      return [], start;
    }
    log, next := SnapshotVolumes(inst, name, start, cfg, cloud, clock);
  }

  lemma ReservationRequestsStep(instances: seq<Instance>, i: nat)
    requires i < |instances|
    ensures ReservationRequests(instances[..i + 1]) == ReservationRequests(instances[..i]) + InstanceRequests(instances[i])
  {
    ConcatStep(instances, InstanceRequests, i);
  }

  lemma RequestsStep(reservations: seq<Reservation>, r: nat)
    requires r < |reservations|
    ensures Requests(reservations[..r + 1]) == Requests(reservations[..r]) + ReservationRequests(reservations[r])
  {
    ConcatStep(reservations, ReservationRequests, r);
  }

  /** The creation phase: the reservation and instance loops around SnapshotInstance. */
  method CreationPhase(reservations: seq<Reservation>, cfg: Config, cloud: Cloud, clock: Clock)
    returns (log: seq<Action>)
    ensures log == LogOf(Requests(reservations), 0, Creation(cfg, cloud, clock))
  {
    ghost var h := Creation(cfg, cloud, clock);
    log := [];
    ghost var done: seq<Request> := [];
    var count := 0;
    var r := 0;
    while r < |reservations|
      invariant 0 <= r <= |reservations|
      invariant done == Requests(reservations[..r]) && count == |done|
      invariant log == LogOf(done, 0, h)
    {
      var instances := reservations[r];
      var reservationLog := [];
      ghost var part: seq<Request> := [];
      var next := count;
      var i := 0;
      while i < |instances|
        invariant 0 <= i <= |instances|
        invariant part == ReservationRequests(instances[..i])
        invariant next == count + |part| && reservationLog == LogOf(part, count, h)
      {
        var calls, after := SnapshotInstance(instances[i], next, cfg, cloud, clock);
        ghost var qs := InstanceRequests(instances[i]);
        LogOfExtendBy(part, qs, count, next, h, reservationLog, calls);
        ReservationRequestsStep(instances, i);
        reservationLog := reservationLog + calls;
        part := part + qs;
        next := after;
        i := i + 1;
      }
      assert instances[..|instances|] == instances;
      LogOfExtendBy(done, part, 0, count, h, log, reservationLog);
      RequestsStep(reservations, r);
      log := log + reservationLog;
      done := done + part;
      count := next;
      r := r + 1;
    }
    assert reservations[..|reservations|] == reservations;
  }

  /** Which requests the instance listing yields: one per attached volume of a listed,
      non-excluded instance, described by the instance's display name. */
  lemma {:induction false} VolumeRequestsMembers(id: string, name: string, mappings: seq<Ebs>, q: Request)
    ensures q in VolumeRequests(id, name, mappings)
            <==> q.instanceId == id && q.name == name && Ebs(q.volumeId, Attached) in mappings
  {
    if mappings != [] {
      var n := |mappings| - 1;
      VolumeRequestsMembers(id, name, mappings[..n], q);
      assert mappings == mappings[..n] + [mappings[n]];
    }
  }

  lemma InstanceRequestsMembers(inst: Instance, q: Request)
    ensures q in InstanceRequests(inst)
            <==> !Skipped(inst.tags) && q.instanceId == inst.id && q.name == DisplayName(inst.id, inst.tags)
                 && Ebs(q.volumeId, Attached) in inst.mappings
  {
    VolumeRequestsMembers(inst.id, DisplayName(inst.id, inst.tags), inst.mappings, q);
  }

  lemma ReservationRequestsMembers(instances: seq<Instance>, q: Request)
    ensures q in ReservationRequests(instances) <==> exists inst :: inst in instances && q in InstanceRequests(inst)
  {
    ConcatMembers(instances, InstanceRequests, q);
    if exists inst :: inst in instances && q in InstanceRequests(inst) {
      var inst :| inst in instances && q in InstanceRequests(inst);
      var k :| 0 <= k < |instances| && instances[k] == inst;
    }
  }

  lemma RequestsMembers(reservations: seq<Reservation>, q: Request)
    ensures q in Requests(reservations)
            <==> exists r :: 0 <= r < |reservations| && q in ReservationRequests(reservations[r])
  {
    ConcatMembers(reservations, ReservationRequests, q);
  }

  /** The volumes a run snapshots: exactly the attached volumes of the running, listed
      instances that are neither in an autoscaling group nor of the build fleet. */
  lemma SnapshottedVolumes(reservations: seq<Reservation>, ids: seq<string>, q: Request)
    ensures q in Requests(DescribeInstances(reservations, ids))
            <==> exists r, inst :: 0 <= r < |reservations| && inst in reservations[r] && Listed(inst, ids)
                   && !Skipped(inst.tags) && q.instanceId == inst.id && q.name == DisplayName(inst.id, inst.tags)
                   && Ebs(q.volumeId, Attached) in inst.mappings
  {
    var listed := DescribeInstances(reservations, ids);
    RequestsMembers(listed, q);
    forall r | 0 <= r < |listed|
      ensures q in ReservationRequests(listed[r])
              <==> exists inst :: inst in reservations[r] && Listed(inst, ids) && q in InstanceRequests(inst)
    {
      ReservationRequestsMembers(listed[r], q);
    }
    forall inst ensures q in InstanceRequests(inst)
      <==> !Skipped(inst.tags) && q.instanceId == inst.id && q.name == DisplayName(inst.id, inst.tags)
           && Ebs(q.volumeId, Attached) in inst.mappings
    {
      InstanceRequestsMembers(inst, q);
    }
  }

  /** In dry-run mode the creation phase only reports: one report per request, in order. */
  lemma {:induction false} DryRunOnlyReports(reqs: seq<Request>, start: nat, cfg: Config, cloud: Cloud, clock: Clock)
    requires cfg.dryRun
    ensures var log := LogOf(reqs, start, Creation(cfg, cloud, clock));
      |log| == |reqs| && (forall k :: 0 <= k < |reqs| ==> log[k] == ReportSnapshot(reqs[k].volumeId))
      && NoMutation(log)
  {
    if reqs != [] {
      var n := |reqs| - 1;
      DryRunOnlyReports(reqs[..n], start, cfg, cloud, clock);
      assert forall k :: 0 <= k < n ==> reqs[..n][k] == reqs[k];
    }
  }

  /** The volumes of the create_snapshot calls in a log, in call order. */
  function SnapshotTargets(log: seq<Action>): seq<string>
  {
    if log == [] then []
    else
      var n := |log| - 1;
      SnapshotTargets(log[..n]) + if log[n].CreateSnapshot? then [log[n].volumeId] else []
  }

  lemma {:induction false} SnapshotTargetsAppend(a: seq<Action>, b: seq<Action>)
    ensures SnapshotTargets(a + b) == SnapshotTargets(a) + SnapshotTargets(b)
  {
    if b == [] {
      assert a + b == a;
    } else {
      var n, ab := |b| - 1, a + b;
      var m := |ab| - 1;
      assert ab[..m] == a + b[..n] && ab[m] == b[n];
      assert SnapshotTargets(ab) == SnapshotTargets(ab[..m]) + (if ab[m].CreateSnapshot? then [ab[m].volumeId] else []);
      assert SnapshotTargets(b) == SnapshotTargets(b[..n]) + (if b[n].CreateSnapshot? then [b[n].volumeId] else []);
      SnapshotTargetsAppend(a, b[..n]);
    }
  }

  lemma SnapshotTargetsOfRequest(q: Request, k: nat, cfg: Config, cloud: Cloud, clock: Clock)
    requires !cfg.dryRun
    ensures SnapshotTargets(RequestLog(q, k, cfg, cloud, clock)) == [q.volumeId]
  {
    var id := cloud.snapshotIdFor(q.volumeId);
    var calls := [ DescribeVolumes(q.volumeId),
                   CreateSnapshot(q.volumeId, ResolvedDescription(q.name, cloud.volumeTags(q.volumeId)), false) ];
    var tagging := if id == "" then [] else [CreateTags([id], RetentionTags(clock.reading(k), cfg.retentionDays))];
    assert RequestLog(q, k, cfg, cloud, clock) == calls + tagging;
    assert SnapshotTargets(calls) == [q.volumeId] by {
      assert calls[..1][..0] == [];
      assert SnapshotTargets(calls[..1]) == [];
    }
    assert SnapshotTargets(tagging) == [] by {
      if id != "" {
        assert tagging[..0] == [];
      }
    }
    SnapshotTargetsAppend(calls, tagging);
  }

  /** Outside dry-run mode one snapshot is created per request, in request order. */
  lemma SnapshotsInRequestOrder(reqs: seq<Request>, start: nat, cfg: Config, cloud: Cloud,
                                                   clock: Clock)
    requires !cfg.dryRun
    ensures var t := SnapshotTargets(LogOf(reqs, start, Creation(cfg, cloud, clock)));
      |t| == |reqs| && forall k :: 0 <= k < |reqs| ==> t[k] == reqs[k].volumeId
  {
    var h := Creation(cfg, cloud, clock);
    forall a: seq<Action>, b: seq<Action> ensures SnapshotTargets(a + b) == SnapshotTargets(a) + SnapshotTargets(b) {
      SnapshotTargetsAppend(a, b);
    }
    forall k | 0 <= k < |reqs| ensures SnapshotTargets(h.handle(reqs[k], start + k)) == [reqs[k].volumeId] {
      SnapshotTargetsOfRequest(reqs[k], start + k, cfg, cloud, clock);
    }
    LogOfProjection(reqs, start, h, SnapshotTargets, (q: Request) => q.volumeId);
  }

  /** Outside dry-run mode each snapshot is described by its volume's Name tag, or else by
      the display name of its instance. */
  lemma CreatedSnapshots(reqs: seq<Request>, start: nat, cfg: Config, cloud: Cloud, clock: Clock, v: string,
                         d: string)
    requires !cfg.dryRun
    ensures CreateSnapshot(v, d, false) in LogOf(reqs, start, Creation(cfg, cloud, clock))
            <==> exists k :: 0 <= k < |reqs| && reqs[k].volumeId == v
                             && d == ResolvedDescription(reqs[k].name, cloud.volumeTags(v))
  {
    LogOfMembers(reqs, start, Creation(cfg, cloud, clock), CreateSnapshot(v, d, false));
  }

  /** Outside dry-run mode every snapshot whose id came back is tagged once, with the clock
      reading of its request, and nothing else is tagged. */
  lemma TaggedSnapshots(reqs: seq<Request>, start: nat, cfg: Config, cloud: Cloud, clock: Clock,
                        resources: seq<string>, tags: seq<Tag>)
    requires !cfg.dryRun
    ensures CreateTags(resources, tags) in LogOf(reqs, start, Creation(cfg, cloud, clock))
            <==> exists k :: 0 <= k < |reqs| && cloud.snapshotIdFor(reqs[k].volumeId) != ""
                   && resources == [cloud.snapshotIdFor(reqs[k].volumeId)]
                   && tags == RetentionTags(clock.reading(start + k), cfg.retentionDays)
  {
    LogOfMembers(reqs, start, Creation(cfg, cloud, clock), CreateTags(resources, tags));
  }

  /** The resource lists of the create_tags calls in a log, one entry per call, in call order. */
  function TaggedResources(log: seq<Action>): seq<seq<string>>
  {
    if log == [] then []
    else
      var n := |log| - 1;
      TaggedResources(log[..n]) + if log[n].CreateTags? then [log[n].resources] else []
  }

  lemma {:induction false} TaggedResourcesAppend(a: seq<Action>, b: seq<Action>)
    ensures TaggedResources(a + b) == TaggedResources(a) + TaggedResources(b)
  {
    if b == [] {
      assert a + b == a;
    } else {
      var n, ab := |b| - 1, a + b;
      var m := |ab| - 1;
      assert ab[..m] == a + b[..n] && ab[m] == b[n];
      assert TaggedResources(ab) == TaggedResources(ab[..m]) + (if ab[m].CreateTags? then [ab[m].resources] else []);
      assert TaggedResources(b) == TaggedResources(b[..n]) + (if b[n].CreateTags? then [b[n].resources] else []);
      TaggedResourcesAppend(a, b[..n]);
    }
  }

  /** The create_tags call a request leads to, outside dry-run mode: one on the new snapshot
      when its id came back, none otherwise. */
  function TagCallFor(cloud: Cloud, q: Request): seq<seq<string>>
  {
    var id := cloud.snapshotIdFor(q.volumeId);
    if id == "" then [] else [[id]]
  }

  lemma TaggedResourcesOfRequest(q: Request, k: nat, cfg: Config, cloud: Cloud, clock: Clock)
    requires !cfg.dryRun
    ensures TaggedResources(RequestLog(q, k, cfg, cloud, clock)) == TagCallFor(cloud, q)
  {
    var id := cloud.snapshotIdFor(q.volumeId);
    var calls := [ DescribeVolumes(q.volumeId),
                   CreateSnapshot(q.volumeId, ResolvedDescription(q.name, cloud.volumeTags(q.volumeId)), false) ];
    var tagging := if id == "" then [] else [CreateTags([id], RetentionTags(clock.reading(k), cfg.retentionDays))];
    assert RequestLog(q, k, cfg, cloud, clock) == calls + tagging;
    assert TaggedResources(calls) == [] by {
      assert calls[..1][..0] == [];
      assert TaggedResources(calls[..1]) == [];
    }
    assert TaggedResources(tagging) == TagCallFor(cloud, q) by {
      if id != "" {
        assert tagging[..0] == [];
      }
    }
    TaggedResourcesAppend(calls, tagging);
  }

  /** Outside dry-run mode the creation phase makes exactly one create_tags call per request
      whose snapshot id came back, on that snapshot alone, in request order. */
  lemma TaggedInRequestOrder(reqs: seq<Request>, start: nat, cfg: Config, cloud: Cloud, clock: Clock)
    requires !cfg.dryRun
    ensures TaggedResources(LogOf(reqs, start, Creation(cfg, cloud, clock)))
            == Concat(reqs, (q: Request) => TagCallFor(cloud, q))
  {
    var h := Creation(cfg, cloud, clock);
    forall a: seq<Action>, b: seq<Action> ensures TaggedResources(a + b) == TaggedResources(a) + TaggedResources(b) {
      TaggedResourcesAppend(a, b);
    }
    forall k | 0 <= k < |reqs|
      ensures TaggedResources(h.handle(reqs[k], start + k)) == TagCallFor(cloud, reqs[k])
    {
      TaggedResourcesOfRequest(reqs[k], start + k, cfg, cloud, clock);
    }
    LogOfConcat(reqs, start, h, TaggedResources, (q: Request) => TagCallFor(cloud, q));
  }

  /** The tag texts read back as the instants they were written for. */
  lemma RetentionTagsReadBack(now: nat, days: nat)
    ensures Parse(RetentionTags(now, days)[0].value) == Some(now)
    ensures Parse(RetentionTags(now, days)[1].value) == Some(Expiry(now, days))
  {
    ParseFormat(now);
    ParseFormat(Expiry(now, days));
  }

  /** A snapshot carrying the tags the creation phase writes is one the pruning phase manages,
      and it counts as expired exactly once the retention period after `now` has passed. */
  lemma TaggedSnapshotExpires(id: string, now: nat, days: nat, later: int)
    ensures Managed(SnapshotRecord(id, Completed, RetentionTags(now, days)))
    ensures ExpiredBy(RetentionTags(now, days), later) <==> Expiry(now, days) < later
  {
    var tags := RetentionTags(now, days);
    assert tags[2].key == TagDeleteAfterExpiration && Truthy(tags[2].value);
    assert tags[1].key == TagExpiration;
    assert tags[0].key != TagExpiration;
    assert FirstExpiration(tags) == 1 by {
      assert tags[1..][0].key == TagExpiration;
    }
    RetentionTagsReadBack(now, days);
  }

  /** The creation phase never deletes a snapshot. */
  lemma CreationDeletesNothing(reqs: seq<Request>, start: nat, cfg: Config, cloud: Cloud, clock: Clock, id: string)
    ensures DeleteSnapshot(id, false) !in LogOf(reqs, start, Creation(cfg, cloud, clock))
  {
    var h := Creation(cfg, cloud, clock);
    LogOfMembers(reqs, start, h, DeleteSnapshot(id, false));
    forall k | 0 <= k < |reqs| ensures DeleteSnapshot(id, false) !in h.handle(reqs[k], start + k) {
      RequestLogDeletesNothing(reqs[k], start + k, cfg, cloud, clock, id);
    }
  }

  lemma RequestLogDeletesNothing(q: Request, k: nat, cfg: Config, cloud: Cloud, clock: Clock, id: string)
    ensures DeleteSnapshot(id, false) !in RequestLog(q, k, cfg, cloud, clock)
  {
    if !cfg.dryRun {
      var snapshotId := cloud.snapshotIdFor(q.volumeId);
      var calls := [ DescribeVolumes(q.volumeId),
                     CreateSnapshot(q.volumeId, ResolvedDescription(q.name, cloud.volumeTags(q.volumeId)), false) ];
      var tagging := if snapshotId == "" then [] else [CreateTags([snapshotId], RetentionTags(clock.reading(k), cfg.retentionDays))];
      assert RequestLog(q, k, cfg, cloud, clock) == calls + tagging;
    }
  }

  // ---------------------------------------------------------------------------------------
  // Pruning

  /** The values of the delete_after_expiration tag the snapshot filter accepts. */
  predicate Truthy(v: string)
  {
    v == "true" || v == "yes" || v == "1"
  }

  /** The describe_snapshots filters: completed, marked for deletion after expiration, and
      carrying an expiration tag. */
  predicate Managed(s: SnapshotRecord)
  {
    s.status == Completed
    && (exists k :: 0 <= k < |s.tags| && s.tags[k].key == TagDeleteAfterExpiration && Truthy(s.tags[k].value))
    && (exists k :: 0 <= k < |s.tags| && s.tags[k].key == TagExpiration)
  }

  /** The snapshots describe_snapshots returns, in account order. */
  function DescribeSnapshots(all: seq<SnapshotRecord>): seq<SnapshotRecord>
  {
    if all == [] then []
    else
      var n := |all| - 1;
      DescribeSnapshots(all[..n]) + if Managed(all[n]) then [all[n]] else []
  }

  /** The listing holds exactly the managed snapshots of the account. */
  lemma {:induction false} DescribeSnapshotsMembers(all: seq<SnapshotRecord>)
    ensures forall s :: s in DescribeSnapshots(all) <==> s in all && Managed(s)
  {
    if all != [] {
      var n := |all| - 1;
      assert all == all[..n] + [all[n]];
      DescribeSnapshotsMembers(all[..n]);
    }
  }

  /** The listing keeps account order: it filters each part of a concatenation separately. */
  lemma {:induction false} DescribeSnapshotsAppend(a: seq<SnapshotRecord>, b: seq<SnapshotRecord>)
    ensures DescribeSnapshots(a + b) == DescribeSnapshots(a) + DescribeSnapshots(b)
  {
    if b == [] {
      assert a + b == a;
    } else {
      var n, ab := |b| - 1, a + b;
      var m := |ab| - 1;
      assert ab[..m] == a + b[..n] && ab[m] == b[n];
      assert DescribeSnapshots(ab) == DescribeSnapshots(ab[..m]) + (if Managed(ab[m]) then [ab[m]] else []);
      assert DescribeSnapshots(b) == DescribeSnapshots(b[..n]) + (if Managed(b[n]) then [b[n]] else []);
      DescribeSnapshotsAppend(a, b[..n]);
    }
  }

  /** The tag loop of the pruning phase for snapshot `id`: tags other than the expiration tag
      are passed over; an unparsable expiration stops the scan with a warning; a passed one
      deletes the snapshot and stops, except in dry-run mode, where it is reported and the
      scan goes on; one not yet passed stops the scan. */
  function TagScan(id: string, tags: seq<Tag>, dryRun: bool, now: int): seq<Action>
  {
    if tags == [] then []
    else if tags[0].key != TagExpiration then TagScan(id, tags[1..], dryRun, now)
    else
      match Parse(tags[0].value)
      case None => [ExpirationWarning(id)]
      case Some(expires) =>
        if expires < now then
          if dryRun then [ReportDelete(id)] + TagScan(id, tags[1..], dryRun, now)
          else [DeleteSnapshot(id, false)]
        else []
  }

  method ScanSnapshotTags(s: SnapshotRecord, dryRun: bool, now: int) returns (acts: seq<Action>)
    ensures acts == TagScan(s.id, s.tags, dryRun, now)
  {
    var tags := s.tags;
    acts := [];
    var i := 0;
    while i < |tags|
      invariant 0 <= i <= |tags|
      invariant acts + TagScan(s.id, tags[i..], dryRun, now) == TagScan(s.id, tags, dryRun, now)
    {
      assert tags[i..][1..] == tags[i + 1..];
      var t := tags[i];
      if t.key == TagExpiration {
        var expires := Parse(t.value);
        if expires.None? {
          acts := acts + [ExpirationWarning(s.id)];
          break;
        }
        if expires.value < now {
          if dryRun {
            assert acts + [ReportDelete(s.id)] + TagScan(s.id, tags[i + 1..], dryRun, now)
                == acts + ([ReportDelete(s.id)] + TagScan(s.id, tags[i + 1..], dryRun, now));
            acts := acts + [ReportDelete(s.id)];
            i := i + 1;
            continue;
          }
          acts := acts + [DeleteSnapshot(s.id, false)];
        }
        break;
      }
      i := i + 1;
    }
    if i == |tags| {
      assert tags[i..] == [];
    }
  }

  function Pruning(dryRun: bool, now: int): Handler<SnapshotRecord>
  {
    Handler((s: SnapshotRecord, k: nat) => TagScan(s.id, s.tags, dryRun, now))
  }

  /** The snapshot loop of the pruning phase, with `now` the single clock reading it uses. */
  method PruningPhase(snapshots: seq<SnapshotRecord>, dryRun: bool, now: int) returns (log: seq<Action>)
    ensures log == LogOf(snapshots, 0, Pruning(dryRun, now))
  {
    ghost var h := Pruning(dryRun, now);
    log := [];
    var i := 0;
    while i < |snapshots|
      invariant 0 <= i <= |snapshots|
      invariant log == LogOf(snapshots[..i], 0, h)
    {
      var acts := ScanSnapshotTags(snapshots[i], dryRun, now);
      LogOfExtend(snapshots[..i], snapshots[i], 0, i, h, log, acts);
      assert snapshots[..i] + [snapshots[i]] == snapshots[..i + 1];
      log := log + acts;
      i := i + 1;
    }
    assert snapshots[..|snapshots|] == snapshots;
  }

  /** The position of the first expiration tag, |tags| when there is none. */
  function FirstExpiration(tags: seq<Tag>): (k: nat)
    ensures k <= |tags| && (k < |tags| ==> tags[k].key == TagExpiration)
    ensures forall j :: 0 <= j < k ==> tags[j].key != TagExpiration
  {
    if tags == [] || tags[0].key == TagExpiration then 0
    else 1 + FirstExpiration(tags[1..])
  }

  /** A snapshot's expiration has passed: its first expiration tag reads as an instant before
      `now`. */
  predicate ExpiredBy(tags: seq<Tag>, now: int)
  {
    var k := FirstExpiration(tags);
    k < |tags| && Parse(tags[k].value).Some? && Parse(tags[k].value).value < now
  }

  lemma ExpiredBySkipsOtherTags(tags: seq<Tag>, now: int)
    requires tags != [] && tags[0].key != TagExpiration
    ensures ExpiredBy(tags, now) == ExpiredBy(tags[1..], now)
  {
    var k := FirstExpiration(tags[1..]);
    if k < |tags[1..]| {
      assert tags[1..][k] == tags[k + 1];
    }
  }

  /** Outside dry-run mode only the first expiration tag matters: it decides between a
      warning, a deletion and nothing. */
  lemma {:induction false} ScanDecidesOnFirstExpiration(id: string, tags: seq<Tag>, now: int)
    ensures var k := FirstExpiration(tags);
      TagScan(id, tags, false, now) ==
        if k == |tags| then []
        else match Parse(tags[k].value)
          case None => [ExpirationWarning(id)]
          case Some(expires) => if expires < now then [DeleteSnapshot(id, false)] else []
  {
    if tags != [] && tags[0].key != TagExpiration {
      ScanDecidesOnFirstExpiration(id, tags[1..], now);
      var k := FirstExpiration(tags[1..]);
      if k < |tags[1..]| {
        assert tags[1..][k] == tags[k + 1];
      }
    }
  }

  /** Outside dry-run mode a snapshot is deleted exactly when its expiration has passed. */
  lemma DeletedIffExpired(id: string, tags: seq<Tag>, now: int, other: string)
    ensures DeleteSnapshot(other, false) in TagScan(id, tags, false, now) <==> other == id && ExpiredBy(tags, now)
  {
    ScanDecidesOnFirstExpiration(id, tags, now);
  }

  /** In dry-run mode the scan changes nothing, and it reports the deletion exactly when the
      real run would delete. */
  lemma {:induction false} DryRunScanReportsDeletion(id: string, tags: seq<Tag>, now: int)
    ensures NoMutation(TagScan(id, tags, true, now))
    ensures ReportDelete(id) in TagScan(id, tags, true, now) <==> ExpiredBy(tags, now)
  {
    if tags != [] {
      DryRunScanReportsDeletion(id, tags[1..], now);
      if tags[0].key != TagExpiration {
        ExpiredBySkipsOtherTags(tags, now);
      }
    }
  }

  /** The snapshot loop deletes exactly the expired snapshots it is given. */
  lemma PruningDeletes(snapshots: seq<SnapshotRecord>, now: int, id: string)
    ensures DeleteSnapshot(id, false) in LogOf(snapshots, 0, Pruning(false, now))
            <==> exists k :: 0 <= k < |snapshots| && snapshots[k].id == id && ExpiredBy(snapshots[k].tags, now)
  {
    var h := Pruning(false, now);
    LogOfMembers(snapshots, 0, h, DeleteSnapshot(id, false));
    forall k | 0 <= k < |snapshots|
      ensures DeleteSnapshot(id, false) in h.handle(snapshots[k], k)
              <==> snapshots[k].id == id && ExpiredBy(snapshots[k].tags, now)
    {
      DeletedIffExpired(snapshots[k].id, snapshots[k].tags, now, id);
    }
  }

  /** The pruning phase deletes a snapshot exactly when describe_snapshots returns it and its
      expiration has passed. */
  lemma ExpiredSnapshotsDeleted(all: seq<SnapshotRecord>, now: int, id: string)
    ensures DeleteSnapshot(id, false) in LogOf(DescribeSnapshots(all), 0, Pruning(false, now))
            <==> exists s :: s in all && Managed(s) && s.id == id && ExpiredBy(s.tags, now)
  {
    var snapshots := DescribeSnapshots(all);
    DescribeSnapshotsMembers(all);
    PruningDeletes(snapshots, now, id);
    ListedAndExpired(snapshots, all, now, id);
  }

  lemma ListedAndExpired(snapshots: seq<SnapshotRecord>, all: seq<SnapshotRecord>, now: int, id: string)
    requires forall s :: s in snapshots <==> s in all && Managed(s)
    ensures (exists k :: 0 <= k < |snapshots| && snapshots[k].id == id && ExpiredBy(snapshots[k].tags, now))
            <==> exists s :: s in all && Managed(s) && s.id == id && ExpiredBy(s.tags, now)
  {
    if exists k :: 0 <= k < |snapshots| && snapshots[k].id == id && ExpiredBy(snapshots[k].tags, now) {
      var k :| 0 <= k < |snapshots| && snapshots[k].id == id && ExpiredBy(snapshots[k].tags, now);
      assert snapshots[k] in snapshots;
    }
    if exists s :: s in all && Managed(s) && s.id == id && ExpiredBy(s.tags, now) {
      var s :| s in all && Managed(s) && s.id == id && ExpiredBy(s.tags, now);
      var k :| 0 <= k < |snapshots| && snapshots[k] == s;
    }
  }

  /** In dry-run mode the pruning phase changes nothing and reports exactly the snapshots the
      real run deletes. */
  lemma DryRunPruneReportsDeletions(all: seq<SnapshotRecord>, now: int, id: string)
    ensures NoMutation(LogOf(DescribeSnapshots(all), 0, Pruning(true, now)))
    ensures ReportDelete(id) in LogOf(DescribeSnapshots(all), 0, Pruning(true, now))
            <==> DeleteSnapshot(id, false) in LogOf(DescribeSnapshots(all), 0, Pruning(false, now))
  {
    var snapshots, dry, live := DescribeSnapshots(all), Pruning(true, now), Pruning(false, now);
    forall k | 0 <= k < |snapshots|
      ensures NoMutation(dry.handle(snapshots[k], k))
      ensures ReportDelete(id) in dry.handle(snapshots[k], k) <==> DeleteSnapshot(id, false) in live.handle(snapshots[k], k)
    {
      DryRunScanReportsDeletion(snapshots[k].id, snapshots[k].tags, now);
      DeletedIffExpired(snapshots[k].id, snapshots[k].tags, now, id);
      if snapshots[k].id != id {
        DryRunReportsOnlyItself(snapshots[k].id, snapshots[k].tags, now, id);
      }
    }
    LogOfNoMutation(snapshots, 0, dry);
    LogOfMembers(snapshots, 0, dry, ReportDelete(id));
    LogOfMembers(snapshots, 0, live, DeleteSnapshot(id, false));
  }

  /** The dry-run scan of a snapshot reports no other snapshot. */
  lemma {:induction false} DryRunReportsOnlyItself(id: string, tags: seq<Tag>, now: int, other: string)
    requires other != id
    ensures ReportDelete(other) !in TagScan(id, tags, true, now)
  {
    if tags != [] {
      DryRunReportsOnlyItself(id, tags[1..], now, other);
    }
  }

  // ---------------------------------------------------------------------------------------
  // The whole run

  /** What a run does once every required argument is present: the creation phase over the
      instances describe_instances lists, then the pruning phase over the snapshots
      describe_snapshots returns, with `pruneNow` the clock reading taken between them. */
  function RunLog(a: Args, reservations: seq<Reservation>, cloud: Cloud, clock: Clock,
                  snapshots: seq<SnapshotRecord>, pruneNow: nat): seq<Action>
    requires a.retention.Some?
  {
    var cfg := Config(RetentionDays(a.retention.value), a.dryRun);
    LogOf(Requests(DescribeInstances(reservations, a.instances)), 0, Creation(cfg, cloud, clock))
    + LogOf(DescribeSnapshots(snapshots), 0, Pruning(a.dryRun, pruneNow))
  }

  /** The script from its parsed flags to its exit: status 1 and nothing done when a
      required argument is nil, otherwise both phases and status 0. */
  method Run(flags: seq<Flag>, reservations: seq<Reservation>, cloud: Cloud, clock: Clock,
             snapshots: seq<SnapshotRecord>, pruneNow: nat) returns (exitCode: nat, log: seq<Action>)
    ensures exitCode == 0 || exitCode == 1
    ensures exitCode == 1 <==> Parsed(flags).profile.None? || Parsed(flags).region.None? || Parsed(flags).retention.None?
    ensures exitCode == 1 ==> log == []
    ensures exitCode == 0 ==> log == RunLog(Parsed(flags), reservations, cloud, clock, snapshots, pruneNow)
  {
    var a := Parsed(flags);
    var missing := MissingArgument(a);
    if missing.Some? {
      return 1, [];
    }
    var cfg := Config(RetentionDays(a.retention.value), a.dryRun);
    var created := CreationPhase(DescribeInstances(reservations, a.instances), cfg, cloud, clock);
    var pruned := PruningPhase(DescribeSnapshots(snapshots), a.dryRun, pruneNow);
    return 0, created + pruned;
  }

  /** With --dry-run a run creates, tags and deletes nothing. */
  lemma DryRunChangesNothing(a: Args, reservations: seq<Reservation>, cloud: Cloud, clock: Clock,
                             snapshots: seq<SnapshotRecord>, pruneNow: nat)
    requires a.retention.Some? && a.dryRun
    ensures NoMutation(RunLog(a, reservations, cloud, clock, snapshots, pruneNow))
  {
    var cfg := Config(RetentionDays(a.retention.value), a.dryRun);
    var reqs := Requests(DescribeInstances(reservations, a.instances));
    DryRunOnlyReports(reqs, 0, cfg, cloud, clock);
    DryRunPruneReportsDeletions(snapshots, pruneNow, "");
    NoMutationAppend(LogOf(reqs, 0, Creation(cfg, cloud, clock)),
                     LogOf(DescribeSnapshots(snapshots), 0, Pruning(true, pruneNow)));
  }

  /** As written, a run given --no-dry-run (or --dry-run) is a dry run: it creates, tags and
      deletes nothing. */
  lemma RunAsWrittenWithDryRunFlag(flags: seq<Flag>, j: nat, reservations: seq<Reservation>, cloud: Cloud,
                                   clock: Clock, snapshots: seq<SnapshotRecord>, pruneNow: nat)
    requires j < |flags| && flags[j].DryRunFlag? && Parsed(flags).retention.Some?
    ensures ParsedAsWritten(flags).dryRun && ParsedAsWritten(flags).retention.Some?
    ensures NoMutation(RunLog(ParsedAsWritten(flags), reservations, cloud, clock, snapshots, pruneNow))
  {
    DryRunAsWritten(flags);
    DryRunChangesNothing(ParsedAsWritten(flags), reservations, cloud, clock, snapshots, pruneNow);
  }

  /** Outside dry-run mode a run deletes exactly the snapshots of the account that the
      snapshot filters select and whose expiration has passed; the creation phase deletes
      nothing. */
  lemma RunDeletesExpiredSnapshots(a: Args, reservations: seq<Reservation>, cloud: Cloud, clock: Clock,
                                   snapshots: seq<SnapshotRecord>, pruneNow: nat, id: string)
    requires a.retention.Some? && !a.dryRun
    ensures DeleteSnapshot(id, false) in RunLog(a, reservations, cloud, clock, snapshots, pruneNow)
            <==> exists s :: s in snapshots && Managed(s) && s.id == id && ExpiredBy(s.tags, pruneNow)
  {
    var cfg := Config(RetentionDays(a.retention.value), a.dryRun);
    var reqs := Requests(DescribeInstances(reservations, a.instances));
    CreationDeletesNothing(reqs, 0, cfg, cloud, clock, id);
    ExpiredSnapshotsDeleted(snapshots, pruneNow, id);
  }
}

/** The EBS helpers of includes/aws_helper.rb that the snapshot script relies on. */
module AwsHelper {
  import opened Records

  const NameKey := "Name"

  /** The snapshot description createEBSSnapshot settles on for a volume with `tags`. */
  function ResolvedDescription(default: string, tags: seq<Tag>): string
  {
    if tags == [] then default
    else if tags[0].key == NameKey then (if tags[0].value == "" then default else tags[0].value)
    else ResolvedDescription(default, tags[1..])
  }

  /** The description is the value of the volume's FIRST Name tag (at k) when that value is
      not empty, and the caller's default otherwise or when there is no Name tag (k = |tags|). */
  lemma {:induction false} DescriptionFromFirstNameTag(default: string, tags: seq<Tag>, k: nat)
    requires k <= |tags| && (k < |tags| ==> tags[k].key == NameKey)
    requires forall j :: 0 <= j < k ==> tags[j].key != NameKey
    ensures ResolvedDescription(default, tags)
            == if k == |tags| || tags[k].value == "" then default else tags[k].value
  {
    if tags != [] && k != 0 {
      assert forall j :: 0 <= j < k - 1 ==> tags[1..][j] == tags[j + 1];
      DescriptionFromFirstNameTag(default, tags[1..], k - 1);
    }
  }

  /** The tag scan of createEBSSnapshot: `description` is replaced by a non-empty Name value,
      and the scan stops at the first Name tag whatever its value. */
  method ResolveDescription(description: string, tags: seq<Tag>) returns (d: string)
    ensures d == ResolvedDescription(description, tags)
  {
    d := description;
    var i := 0;
    while i < |tags|
      invariant 0 <= i <= |tags|
      invariant forall j :: 0 <= j < i ==> tags[j].key != NameKey
      invariant d == description
    {
      if tags[i].key == NameKey {
        if tags[i].value != "" {
          d := tags[i].value;
        }
        DescriptionFromFirstNameTag(description, tags, i);
        return;
      }
      i := i + 1;
    }
    DescriptionFromFirstNameTag(description, tags, |tags|);
  }

  /** What createEBSSnapshot returns: false from its guard, or the create_snapshot response. */
  datatype CreateOutcome = Refused | Created(snapshotId: string)

  /** createEBSSnapshot(client, description, volume_id): refuses without a volume id or a
      client; otherwise reads the volume's tags, resolves the description and issues one
      create_snapshot call for exactly that volume with dry_run false. */
  method CreateEbsSnapshot(client: Option<Cloud>, description: string, volumeId: Option<string>)
    returns (outcome: CreateOutcome, calls: seq<Action>)
    ensures outcome.Refused? <==> volumeId.None? || client.None?
    ensures outcome.Refused? ==> calls == []
    ensures outcome.Created? ==>
              outcome.snapshotId == client.value.snapshotIdFor(volumeId.value)
              && calls == [ DescribeVolumes(volumeId.value),
                            CreateSnapshot(volumeId.value,
                                           ResolvedDescription(description, client.value.volumeTags(volumeId.value)),
                                           false) ]
  {
    if volumeId.None? || client.None? {
      return Refused, [];
    }
    var cloud, volume := client.value, volumeId.value;
    calls := [DescribeVolumes(volume)];
    var d := ResolveDescription(description, cloud.volumeTags(volume));
    calls := calls + [CreateSnapshot(volume, d, false)];
    outcome := Created(cloud.snapshotIdFor(volume));
  }

  /** The argument of deleteEBSSnapshot: a single snapshot id or an Array of them. */
  datatype SnapshotArg = One(id: string) | Many(ids: seq<string>)

  /** A non-Array argument is wrapped into a one-element list. */
  function AsList(arg: SnapshotArg): seq<string>
  {
    match arg
    case One(id) => [id]
    case Many(ids) => ids
  }

  /** The delete_snapshot calls deleteEBSSnapshot issues for `ids`. In dry-run mode each id is
      first confirmed on standard input (replies[k] is the chomped answer for ids[k]) and only a
      "y" leads to a call, which then carries dry_run true. */
  function DeleteCalls(ids: seq<string>, dryRun: bool, replies: seq<string>): (calls: seq<Action>)
    requires dryRun ==> |replies| >= |ids|
    ensures !dryRun ==> |calls| == |ids| && forall k :: 0 <= k < |ids| ==> calls[k] == DeleteSnapshot(ids[k], false)
    ensures dryRun ==> forall a :: a in calls ==>
              exists k :: 0 <= k < |ids| && replies[k] == "y" && a == DeleteSnapshot(ids[k], true)
    ensures dryRun ==> forall k :: 0 <= k < |ids| && replies[k] == "y" ==> DeleteSnapshot(ids[k], true) in calls
  {
    if ids == [] then []
    else
      var n := |ids| - 1;
      var before := DeleteCalls(ids[..n], dryRun, replies);
      var last := if !dryRun then [DeleteSnapshot(ids[n], false)]
                  else if replies[n] == "y" then [DeleteSnapshot(ids[n], true)]
                  else [];
      assert forall k :: 0 <= k < n ==> ids[..n][k] == ids[k];
      before + last
  }

  /** deleteEBSSnapshot(client, snapshots_to_delete, dry_run): false without a client;
      otherwise attempts every listed snapshot in order (a failing call is rescued and the loop
      goes on) and returns true. */
  method DeleteEbsSnapshot(client: Option<Cloud>, arg: SnapshotArg, dryRun: bool, replies: seq<string>)
    returns (ok: bool, calls: seq<Action>)
    requires dryRun ==> |replies| >= |AsList(arg)|
    ensures ok <==> client.Some?
    ensures !ok ==> calls == []
    ensures ok ==> calls == DeleteCalls(AsList(arg), dryRun, replies)
  {
    if client.None? {
      return false, [];
    }
    var ids := AsList(arg);
    calls := [];
    var i := 0;
    while i < |ids|
      invariant 0 <= i <= |ids|
      invariant calls == DeleteCalls(ids[..i], dryRun, replies)
    {
      // in dry-run mode: next unless prompt == "y"
      if !dryRun || replies[i] == "y" {
        calls := calls + [DeleteSnapshot(ids[i], dryRun)];
      }
      assert ids[..i + 1][..i] == ids[..i];
      i := i + 1;
    }
    assert ids[..|ids|] == ids;
    ok := true;
  }

  /** In dry-run mode deleteEBSSnapshot changes nothing: its calls are all AWS dry runs. */
  lemma DryRunDeletesNothing(ids: seq<string>, replies: seq<string>)
    requires |replies| >= |ids|
    ensures NoMutation(DeleteCalls(ids, true, replies))
  {
    var calls := DeleteCalls(ids, true, replies);
    forall k | 0 <= k < |calls| ensures !IsMutating(calls[k]) {
      assert calls[k] in calls;
    }
  }
}

# auto_ec2_backups in Dafny

A model of the decision logic of `auto_ec2_snapshot.rb`, a command-line script that backs up
EBS volumes. The model also covers the two EBS helpers of `includes/aws_helper.rb` that the
script relies on. A run of the script does three things:

- It builds the argument hash from its defaults and the command-line options. It stops with
  exit status 1 when profile, region or retention_days is nil.
- In the creation phase it lists the running instances and skips those in an autoscaling group
  or of the "bamboo" build fleet. It snapshots every attached volume of the others. Each snapshot
  is described by the volume's Name tag, or else by the instance's display name. Each new
  snapshot gets three tags: when it was taken, when it expires, and delete_after_expiration=true.
- In the pruning phase it lists the completed snapshots that carry these tags. It deletes those
  whose expiration instant has passed.

With `--dry-run` both phases only report what they would do.

The provider is data. `Records.Cloud` answers describe_volumes and create_snapshot for each
volume, and the described instances and snapshots are plain sequences. `Records.Clock` gives the
clock readings. Everything the script sends to the provider, and every dry-run report, is one
`Records.Action` in a returned log. Loops of the source are methods with loop invariants. Each
method is proved equal to a specification function. The properties the script promises are
lemmas about those functions.

Modules:

- `Records` holds the entities and the action log. `LogOf` is the log of handling a sequence of
  items in order; its lemmas are generic.
- `Decimal` covers digit strings and Ruby's `to_i` on unsigned text.
- `TimeText` covers the tag timestamps: `Time#to_s` of a UTC time
  ("YYYY-MM-DD HH:MM:SS UTC"), and the reading back that `DateTime.parse(...).strftime("%s").to_i`
  performs.
- `Options` covers the argument hash and its required-argument check.
- `AwsHelper` covers createEBSSnapshot and deleteEBSSnapshot.
- `AutoSnapshot` covers the two phases and the whole run.

## Model

| member | source | states |
|---|---|---|
| Options.CheckFlagValue | auto_ec2_snapshot.rb:11-19 | nil stays nil; otherwise the value loses every '=' and becomes nil exactly when nothing is left; a non-nil result is non-empty, has no '=' and keeps every other character as often as it occurs (their order: WithoutEqualsAppend) |
| Options.WithoutEqualsCounts | auto_ec2_snapshot.rb:14 | gsub('=', '') leaves no '=' and keeps the other characters with their multiplicities |
| Options.WithoutEqualsAppend | auto_ec2_snapshot.rb:14 | gsub works piece by piece: the result for a concatenation is the concatenation of the results, so the kept characters stay in order |
| Options.WithoutEqualsChar | auto_ec2_snapshot.rb:14 | a single character is dropped exactly when it is '=' |
| Options.WithoutEqualsFixed | auto_ec2_snapshot.rb:14 | text without '=' comes through gsub unchanged |
| Options.CheckFlagValueIdempotent | auto_ec2_snapshot.rb:11-19 | cleaning a cleaned value again changes nothing |
| Options.ProfileFromFlags | auto_ec2_snapshot.rb:30-32 | the last --profile decides the profile, through checkFlagValue; without one it stays nil |
| Options.RegionFromFlags | auto_ec2_snapshot.rb:33-35 | the last --region decides the region, through checkFlagValue (a bare --region gives nil); without one it is us-east-1 |
| Options.RetentionFromFlags | auto_ec2_snapshot.rb:36-38 | the last --retention-days decides retention_days as text, through checkFlagValue; without one it is the Integer 3 |
| Options.DryRunFromFlags | auto_ec2_snapshot.rb:42-44 | the last of --dry-run / --no-dry-run decides the mode; without either the run is real (corrected, see Findings) |
| Options.NoDryRunAsWritten | auto_ec2_snapshot.rb:42-44 | as written, the callback turns dry-run mode on for --no-dry-run too, unlike the corrected callback |
| Options.MissingArgument | auto_ec2_snapshot.rb:56-59 | the run stops exactly when profile, region or retention_days is nil, naming the first nil key in hash order |
| Options.ProfileIsRequired | auto_ec2_snapshot.rb:56-59 | without --profile the profile stays nil, so the check stops the run |
| Decimal.LeadingValueOfDigits | auto_ec2_snapshot.rb:129 | to_i of a number's decimal text gives the number back |
| TimeText.ToCivil | auto_ec2_snapshot.rb:128-129 | the broken-down UTC time of an epoch second is a valid calendar time that denotes that second |
| TimeText.ToCivilOfEpoch | auto_ec2_snapshot.rb:128-129 | breaking down the epoch second of any valid time at or after 1970 gives that time back, so distinct valid times have distinct epoch seconds |
| TimeText.ParseAcceptsOnlyFormat | auto_ec2_snapshot.rb:154 | the reader accepts exactly the texts the writer produces: text whose year has no leading zero reads as epoch second t exactly when it is the text written for t |
| TimeText.ParseFormat | auto_ec2_snapshot.rb:154 | reading back the text the creation phase writes for an epoch second (`"#{now}"`) gives that second |
| AwsHelper.DescriptionFromFirstNameTag | includes/aws_helper.rb:48-57 | the description is the value of the volume's first Name tag when that value is non-empty, and the caller's default otherwise or without a Name tag |
| AwsHelper.ResolveDescription | includes/aws_helper.rb:52-57 | the tag loop with its break settles on that description |
| AwsHelper.CreateEbsSnapshot | includes/aws_helper.rb:48-64 | false, with no call, exactly when the volume id or the client is nil; otherwise describe_volumes and then create_snapshot with the resolved description, returning the provider's snapshot id |
| AwsHelper.DeleteCalls | includes/aws_helper.rb:73-90 | outside dry-run mode one delete_snapshot per id, in order; in dry-run mode a dry-run call for exactly the ids answered "y" |
| AwsHelper.DeleteEbsSnapshot | includes/aws_helper.rb:68-92 | false, with no call, exactly when the client is nil; otherwise a lone id is wrapped into a list, its calls are DeleteCalls, and the result is true |
| AwsHelper.DryRunDeletesNothing | includes/aws_helper.rb:74-85 | in dry-run mode every delete_snapshot call carries dry_run true |
| AutoSnapshot.SkippedIgnoresOrder | auto_ec2_snapshot.rb:89-109 | whether an instance is excluded depends on its set of tags, not their order |
| AutoSnapshot.DisplayNameFromLastNameTag | auto_ec2_snapshot.rb:87-106 | the display name is set by the last Name tag: its value, or the instance id when it is empty; '' without a Name tag |
| AutoSnapshot.ScanInstanceTags | auto_ec2_snapshot.rb:87-109 | the tag loop skips the instance exactly when a tag is the autoscaling key or a Name containing "bamboo"; otherwise it yields the display name |
| AutoSnapshot.AttachedVolumesCounts | auto_ec2_snapshot.rb:111-115 | exactly the mappings whose status is "attached" are kept, each as often as it occurs |
| AutoSnapshot.AttachedVolumesAppend | auto_ec2_snapshot.rb:111-115 | the filter works piece by piece over a concatenation, so the kept mappings stay in mapping order |
| AutoSnapshot.AttachedVolumesOne | auto_ec2_snapshot.rb:111-115 | a single mapping is kept exactly when its status is "attached" |
| AutoSnapshot.VolumeRequestsAreAttachedVolumes | auto_ec2_snapshot.rb:111-117 | one snapshot request per attached volume, in mapping order, with the instance's display name as default description |
| AutoSnapshot.ListedInstances | auto_ec2_snapshot.rb:73-83 | describe_instances returns exactly the running instances, restricted to the given ids when --instance-ids named any |
| AutoSnapshot.DescribeInstances | auto_ec2_snapshot.rb:73-83 | the filter applies reservation by reservation |
| AutoSnapshot.SnapshottedVolumes | auto_ec2_snapshot.rb:73-117 | a volume is snapshotted exactly when it is attached to a listed, running instance that is neither in an autoscaling group nor of the build fleet |
| AutoSnapshot.SnapshotVolume | auto_ec2_snapshot.rb:116-135 | a dry run only reports; otherwise createEBSSnapshot's calls, then, unless the snapshot id is empty, one create_tags call on that snapshot with the three retention tags |
| AutoSnapshot.SnapshotVolumes | auto_ec2_snapshot.rb:111-136 | the block-device loop handles the attached volumes in order, each as SnapshotVolume does |
| AutoSnapshot.SnapshotInstance | auto_ec2_snapshot.rb:86-136 | an excluded instance adds nothing; any other adds the handling of its attached volumes |
| AutoSnapshot.CreationPhase | auto_ec2_snapshot.rb:85-138 | the reservation and instance loops handle every request of the listing, in order |
| AutoSnapshot.DryRunOnlyReports | auto_ec2_snapshot.rb:118-121 | in dry-run mode the creation phase logs exactly one report per request, in order, and changes nothing |
| AutoSnapshot.SnapshotsInRequestOrder | auto_ec2_snapshot.rb:111-123 | outside dry-run mode exactly one snapshot is created per request, in request order |
| AutoSnapshot.CreatedSnapshots | auto_ec2_snapshot.rb:116-123 | a snapshot is created for a volume with a description exactly when a request names the volume and the description is the one createEBSSnapshot resolves |
| AutoSnapshot.TaggedSnapshots | auto_ec2_snapshot.rb:124-135 | a create_tags call with given resources and tags occurs exactly when some request returned a non-empty snapshot id, the resources are that id alone and the tags carry the clock reading of that request |
| AutoSnapshot.TaggedInRequestOrder | auto_ec2_snapshot.rb:124-135 | the create_tags calls, one per request whose snapshot id came back and none for the others, name those snapshots in request order |
| AutoSnapshot.CreationDeletesNothing | auto_ec2_snapshot.rb:85-138 | the creation phase never deletes a snapshot |
| AutoSnapshot.RetentionTagsReadBack | auto_ec2_snapshot.rb:128-135 | the completion tag reads back as the clock reading, and the expiration tag as that reading plus retention_days * 86400 seconds |
| AutoSnapshot.TaggedSnapshotExpires | auto_ec2_snapshot.rb:142-159 | a completed snapshot with the tags the creation phase writes passes the pruning filters, and counts as expired exactly when its retention period has passed |
| AutoSnapshot.DescribeSnapshotsMembers | auto_ec2_snapshot.rb:143-149 | describe_snapshots returns exactly the completed snapshots with a delete_after_expiration tag of true, yes or 1 and an expiration tag |
| AutoSnapshot.DescribeSnapshotsAppend | auto_ec2_snapshot.rb:143-149 | the listing filters piece by piece, so it keeps the account's order |
| AutoSnapshot.ScanSnapshotTags | auto_ec2_snapshot.rb:151-169 | the tag loop of one snapshot, with its breaks and its dry-run next, logs what TagScan specifies |
| AutoSnapshot.PruningPhase | auto_ec2_snapshot.rb:150-170 | the snapshot loop handles every returned snapshot in order |
| AutoSnapshot.FirstExpiration | auto_ec2_snapshot.rb:151-152 | the position of the first expiration tag: no earlier tag is one |
| AutoSnapshot.ScanDecidesOnFirstExpiration | auto_ec2_snapshot.rb:151-168 | outside dry-run mode only the first expiration tag matters: unreadable gives a warning, passed gives one delete, otherwise nothing |
| AutoSnapshot.DeletedIffExpired | auto_ec2_snapshot.rb:152-167 | outside dry-run mode the scan of a snapshot deletes that snapshot exactly when its expiration has passed, and no other |
| AutoSnapshot.DryRunScanReportsDeletion | auto_ec2_snapshot.rb:159-164 | in dry-run mode the scan changes nothing and reports the deletion exactly when the real run would delete |
| AutoSnapshot.PruningDeletes | auto_ec2_snapshot.rb:150-170 | the snapshot loop deletes exactly the expired snapshots it is given |
| AutoSnapshot.ExpiredSnapshotsDeleted | auto_ec2_snapshot.rb:142-170 | the pruning phase deletes a snapshot exactly when the filters select it and its expiration has passed |
| AutoSnapshot.DryRunPruneReportsDeletions | auto_ec2_snapshot.rb:150-170 | in dry-run mode the pruning phase changes nothing and reports exactly the snapshots the real run would delete |
| AutoSnapshot.Run | auto_ec2_snapshot.rb:21-170 | exit status 1 with nothing done exactly when a required argument is nil; otherwise status 0 and the creation phase followed by the pruning phase; the arguments come through the corrected --[no-]dry-run callback (see Findings and the Left out line on Run) |
| AutoSnapshot.DryRunChangesNothing | auto_ec2_snapshot.rb:118-164 | with --dry-run a run creates, tags and deletes nothing |
| Options.DryRunAsWritten | auto_ec2_snapshot.rb:42-44 | with the callbacks as written, dry-run mode is on exactly when --dry-run or --no-dry-run was given, and every other entry of the hash is as with the corrected callback |
| AutoSnapshot.RunAsWrittenWithDryRunFlag | auto_ec2_snapshot.rb:42-44 | as written, a run given --no-dry-run is a dry run: it creates, tags and deletes nothing |
| AutoSnapshot.RunDeletesExpiredSnapshots | auto_ec2_snapshot.rb:85-170 | outside dry-run mode a run deletes exactly the account's filtered snapshots whose expiration has passed |

## Left out

- Console output is not modelled: warnings, notices, usage text and colour codes. The dry-run
  reports and the unreadable-expiration warning are kept as log actions.
- loadProfile and createEC2Client (credentials, client construction, their exits) are not
  modelled. The run is given the provider directly.
- The RDS helpers of includes/aws_helper.rb are not modelled. The script does not use them.
- The OptionParser grammar is not modelled. Options arrive as a sequence of `Flag`s, one per
  callback call, and --instance-ids arrives already split at commas.
- `Options.RetentionDays`: String#to_i is modelled only on unsigned text. A sign, leading
  whitespace or underscores between digits are read as no further digits.
- `TimeText.Parse`: DateTime.parse accepts many other shapes of text. Only the shape the script
  writes is read; any other expiration text counts as unreadable. Years before 1970 read as
  negative instants.
- `TimeText.ParseFormat`: years beyond 9999 are written with more digits and read back the same
  way. Ruby's behaviour for them is not checked.
- `AutoSnapshot.ListedInstances`: the source passes the describe_instances filter in the SDK's
  second argument. The SDK is not part of this model, and the model applies the filter as
  the comments intend.
- `AwsHelper.CreateEbsSnapshot`: a describe_volumes answer without a volume (where the source
  would raise on nil) is not modelled. The provider always answers with the volume's tags.
- `AwsHelper.DeleteEbsSnapshot`: provider failures are rescued in the source and change nothing
  in the loop, so every call is logged whether it succeeds or not. Standard-input answers are an
  input sequence.
- `AutoSnapshot.RequestLog`: the clock's k-th reading is used for the k-th request of the run.
  The source reads the clock only for volumes it snapshotted, so the readings are indexed
  differently; their values are unconstrained either way. The pruning phase's single reading
  is the separate parameter `pruneNow`.
- `AutoSnapshot.Run`: every provider call is assumed to succeed. In the source an exception from
  describe_volumes, create_snapshot, create_tags or the pruning phase's delete_snapshot is not
  rescued: the script ends there with a Ruby error and a non-zero status, and the remaining
  volumes and snapshots are not handled. The model's run always reaches status 0 once the
  arguments are present.
- `AutoSnapshot.Run`: the arguments are parsed with the corrected --[no-]dry-run callback
  (`Options.Parsed`). With the callback as written (`Options.ParsedAsWritten`) only dryRun
  differs, and `AutoSnapshot.RunAsWrittenWithDryRunFlag` shows that such a run changes nothing.
- Concurrency and pagination of the provider's answers are not modelled.

## Findings

| source | as written | input that shows it | evidently intended | confidence | as-written member | corrected member |
|---|---|---|---|---|---|---|
| auto_ec2_snapshot.rb:42-44 | the `--[no-]dry-run` callback stores true whatever value the switch gives it | `--no-dry-run` | `--no-dry-run` makes the run a real one, as the negatable switch declares | medium; not executed | Options.NoDryRunAsWritten | Options.DryRunFromFlags |

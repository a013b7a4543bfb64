/** The argument map of auto_ec2_snapshot.rb: its defaults, what each command-line option's
    callback stores in it, and the check that aborts the run when a value is missing. */
module Options {
  import opened Records
  import opened Decimal

  /** checkFlagValue(flag, value): nil stays nil; otherwise every '=' is removed and text
      that is then empty becomes nil. */
  function CheckFlagValue(value: Option<string>): (r: Option<string>)
    ensures value.None? ==> r.None?
    ensures value.Some? ==> (r.None? <==> WithoutEquals(value.value) == "")
    ensures r.Some? ==> r.value != "" && '=' !in r.value
    ensures r.Some? ==> multiset(r.value) == multiset(value.value)['=' := 0]
  {
    match value
    case None => None
    case Some(s) =>
      WithoutEqualsCounts(s);
      var t := WithoutEquals(s); if t == "" then None else Some(t)
  }

  /** value.gsub('=', ''): the text with every '=' removed, everything else kept in order. */
  function WithoutEquals(s: string): string
  {
    if s == [] then []
    else
      var n := |s| - 1;
      WithoutEquals(s[..n]) + (if s[n] == '=' then [] else [s[n]])
  }

  /** gsub leaves no '=' and keeps every other character as often as it occurs. */
  lemma {:induction false} WithoutEqualsCounts(s: string)
    ensures '=' !in WithoutEquals(s)
    ensures multiset(WithoutEquals(s)) == multiset(s)['=' := 0]
  {
    if s != [] {
      var n := |s| - 1;
      assert s == s[..n] + [s[n]];
      WithoutEqualsCounts(s[..n]);
    }
  }

  /** gsub works character by character: the text of a concatenation is the concatenation of
      the texts, so the characters that remain keep their order. */
  lemma {:induction false} WithoutEqualsAppend(a: string, b: string)
    ensures WithoutEquals(a + b) == WithoutEquals(a) + WithoutEquals(b)
  {
    if b == [] {
      assert a + b == a;
    } else {
      var n, ab := |b| - 1, a + b;
      var m := |ab| - 1;
      assert ab[..m] == a + b[..n] && ab[m] == b[n];
      assert WithoutEquals(ab) == WithoutEquals(ab[..m]) + (if ab[m] == '=' then [] else [ab[m]]);
      assert WithoutEquals(b) == WithoutEquals(b[..n]) + (if b[n] == '=' then [] else [b[n]]);
      WithoutEqualsAppend(a, b[..n]);
    }
  }

  /** A single character is dropped exactly when it is '='. */
  lemma WithoutEqualsChar(c: char)
    ensures WithoutEquals([c]) == if c == '=' then [] else [c]
  {
    assert [c][..0] == [];
  }

  /** Text without '=' is left as it is. */
  lemma {:induction false} WithoutEqualsFixed(s: string)
    requires '=' !in s
    ensures WithoutEquals(s) == s
  {
    if s != [] {
      var n := |s| - 1;
      assert s == s[..n] + [s[n]];
      WithoutEqualsFixed(s[..n]);
    }
  }

  /** Cleaning a cleaned value changes nothing more. */
  lemma CheckFlagValueIdempotent(value: Option<string>)
    ensures CheckFlagValue(CheckFlagValue(value)) == CheckFlagValue(value)
  {
    var r := CheckFlagValue(value);
    if r.Some? {
      WithoutEqualsFixed(r.value);
    }
  }

  /** The retention_days entry: the Integer default, or the text an option stored. */
  datatype RetentionValue = DefaultDays(days: nat) | DaysText(text: string)

  /** retention_days.to_i */
  function RetentionDays(v: RetentionValue): nat
  {
    match v
    case DefaultDays(d) => d
    case DaysText(t) => LeadingValue(t)
  }

  /** The `arguments` hash; None stands for nil. */
  datatype Args = Args(profile: Option<string>, region: Option<string>,
                       retention: Option<RetentionValue>, dryRun: bool, instances: seq<string>)

  const DefaultRegion := "us-east-1"
  const DefaultRetentionDays: nat := 3

  /** The hash before option parsing: profile nil, region us-east-1, 3 retention days. */
  const Defaults := Args(None, Some(DefaultRegion), Some(DefaultDays(DefaultRetentionDays)), false, [])

  /** One command-line option as OptionParser hands it to its callback. */
  datatype Flag =
    | ProfileFlag(text: string)               // --profile PROFILE (argument mandatory)
    | RegionFlag(given: Option<string>)       // --region [REGION] (argument optional)
    | RetentionFlag(given: Option<string>)    // --retention-days [DAYS] (argument optional)
    | InstanceIdsFlag(ids: seq<string>)       // --instance-ids INSTANCES, split at commas
    | DryRunFlag(negated: bool)               // --dry-run, or --no-dry-run when negated

  /** What the option's callback stores in the hash. For --[no-]dry-run this is the switch's
      value, so that --no-dry-run turns dry-run mode off (see ApplyAsWritten). */
  function Apply(a: Args, f: Flag): Args
  {
    match f
    case ProfileFlag(text) => a.(profile := CheckFlagValue(Some(text)))
    case RegionFlag(given) => a.(region := CheckFlagValue(given))
    case RetentionFlag(given) =>
      a.(retention := match CheckFlagValue(given) case None => None case Some(t) => Some(DaysText(t)))
    case InstanceIdsFlag(ids) => a.(instances := ids)
    case DryRunFlag(negated) => a.(dryRun := !negated)
  }

  /** The callbacks as auto_ec2_snapshot.rb writes them: the --[no-]dry-run callback stores
      true whatever the switch's value. */
  function ApplyAsWritten(a: Args, f: Flag): Args
  {
    match f
    case DryRunFlag(_) => a.(dryRun := true)
    case _ => Apply(a, f)
  }

  /** As written, --no-dry-run turns dry-run mode on. */
  lemma NoDryRunAsWritten(a: Args)
    ensures ApplyAsWritten(a, DryRunFlag(true)).dryRun
    ensures ApplyAsWritten(a, DryRunFlag(true)) != Apply(a, DryRunFlag(true))
  {
  }

  /** The hash after the callbacks of the given options ran in order. */
  function Parsed(flags: seq<Flag>): Args
  {
    if flags == [] then Defaults
    else
      var n := |flags| - 1;
      Apply(Parsed(flags[..n]), flags[n])
  }

  /** The hash after the callbacks as written ran in order. */
  function ParsedAsWritten(flags: seq<Flag>): Args
  {
    if flags == [] then Defaults
    else
      var n := |flags| - 1;
      ApplyAsWritten(ParsedAsWritten(flags[..n]), flags[n])
  }

  /** As written, dry-run mode is on exactly when --dry-run or --no-dry-run was given, and the
      hash agrees with the corrected one in every other entry. */
  lemma {:induction false} DryRunAsWritten(flags: seq<Flag>)
    ensures ParsedAsWritten(flags).dryRun <==> exists j :: 0 <= j < |flags| && flags[j].DryRunFlag?
    ensures ParsedAsWritten(flags) == Parsed(flags).(dryRun := ParsedAsWritten(flags).dryRun)
  {
    if flags != [] {
      var n := |flags| - 1;
      var before, a := flags[..n], ParsedAsWritten(flags[..n]);
      DryRunAsWritten(before);
      assert ParsedAsWritten(flags) == ApplyAsWritten(a, flags[n]);
      assert Parsed(flags) == Apply(Parsed(before), flags[n]);
      if flags[n].DryRunFlag? {
        assert ParsedAsWritten(flags).dryRun;
      } else {
        assert ParsedAsWritten(flags).dryRun == a.dryRun;
        if a.dryRun {
          var j :| 0 <= j < n && before[j].DryRunFlag?;
          assert flags[j] == before[j];
        } else {
          forall j | 0 <= j < |flags| ensures !flags[j].DryRunFlag? {
            if j < n {
              assert flags[j] == before[j];
            }
          }
        }
      }
    }
  }

  /** The last of --dry-run and --no-dry-run decides the mode; without either a run is a real
      one. */
  lemma {:induction false} DryRunFromFlags(flags: seq<Flag>, k: int)
    requires -1 <= k < |flags|
    requires k >= 0 ==> flags[k].DryRunFlag?
    requires forall j :: k < j < |flags| ==> !flags[j].DryRunFlag?
    ensures Parsed(flags).dryRun == (k >= 0 && !flags[k].negated)
  {
    if flags != [] && k != |flags| - 1 {
      var n := |flags| - 1;
      assert forall j :: k < j < n ==> flags[..n][j] == flags[j];
      DryRunFromFlags(flags[..n], k);
      assert Parsed(flags).dryRun == Parsed(flags[..n]).dryRun;
    }
  }

  /** The last --profile decides the profile; without one it stays nil. */
  lemma {:induction false} ProfileFromFlags(flags: seq<Flag>, k: int)
    requires -1 <= k < |flags|
    requires k >= 0 ==> flags[k].ProfileFlag?
    requires forall j :: k < j < |flags| ==> !flags[j].ProfileFlag?
    ensures Parsed(flags).profile == if k < 0 then None else CheckFlagValue(Some(flags[k].text))
  {
    if flags != [] && k != |flags| - 1 {
      var n := |flags| - 1;
      assert forall j :: k < j < n ==> flags[..n][j] == flags[j];
      ProfileFromFlags(flags[..n], k);
      assert Parsed(flags).profile == Parsed(flags[..n]).profile;
    }
  }

  /** The last --region decides the region; without one it stays us-east-1. */
  lemma {:induction false} RegionFromFlags(flags: seq<Flag>, k: int)
    requires -1 <= k < |flags|
    requires k >= 0 ==> flags[k].RegionFlag?
    requires forall j :: k < j < |flags| ==> !flags[j].RegionFlag?
    ensures Parsed(flags).region == if k < 0 then Some(DefaultRegion) else CheckFlagValue(flags[k].given)
  {
    if flags != [] && k != |flags| - 1 {
      var n := |flags| - 1;
      assert forall j :: k < j < n ==> flags[..n][j] == flags[j];
      RegionFromFlags(flags[..n], k);
      assert Parsed(flags).region == Parsed(flags[..n]).region;
    }
  }

  /** The last --retention-days decides the retention text; without one it stays 3. */
  lemma {:induction false} RetentionFromFlags(flags: seq<Flag>, k: int)
    requires -1 <= k < |flags|
    requires k >= 0 ==> flags[k].RetentionFlag?
    requires forall j :: k < j < |flags| ==> !flags[j].RetentionFlag?
    ensures Parsed(flags).retention ==
              if k < 0 then Some(DefaultDays(DefaultRetentionDays))
              else match CheckFlagValue(flags[k].given) case None => None case Some(t) => Some(DaysText(t))
  {
    if flags != [] && k != |flags| - 1 {
      var n := |flags| - 1;
      assert forall j :: k < j < n ==> flags[..n][j] == flags[j];
      RetentionFromFlags(flags[..n], k);
      assert Parsed(flags).retention == Parsed(flags[..n]).retention;
    }
  }

  /** One entry of the hash as the required-argument check sees it. */
  datatype Entry = Entry(key: string, isNil: bool)

  /** The hash's entries in insertion order. */
  function Entries(a: Args): seq<Entry>
  {
    [ Entry("profile", a.profile.None?), Entry("region", a.region.None?),
      Entry("retention_days", a.retention.None?), Entry("dry_run", false), Entry("instances", false) ]
  }

  /** The required-argument check: the key of the first nil entry, for which usage() exits 1,
      or None when the run may go on. Only profile, region and retention_days can be nil. */
  method MissingArgument(a: Args) returns (missing: Option<string>)
    ensures missing.None? <==> a.profile.Some? && a.region.Some? && a.retention.Some?
    ensures missing.Some? ==>
              missing.value == if a.profile.None? then "profile"
                               else if a.region.None? then "region"
                               else "retention_days"
  {
    var entries := Entries(a);
    var i := 0;
    while i < |entries|
      invariant 0 <= i <= |entries|
      invariant forall j :: 0 <= j < i ==> !entries[j].isNil
    {
      if entries[i].isNil {
        assert i < 3;
        assert i > 0 ==> !entries[0].isNil;
        assert i > 1 ==> !entries[1].isNil;
        return Some(entries[i].key);
      }
      i := i + 1;
    }
    assert !entries[0].isNil && !entries[1].isNil && !entries[2].isNil;
    return None;
  }

  /** A run without --profile stops at the required-argument check. */
  lemma ProfileIsRequired(flags: seq<Flag>)
    requires forall j :: 0 <= j < |flags| ==> !flags[j].ProfileFlag?
    ensures Parsed(flags).profile.None?
  {
    ProfileFromFlags(flags, -1);
  }
}

/** Plain data exchanged between the snapshot script, its helpers and the EC2 provider. */
module Records {

  datatype Option<+T> = None | Some(value: T)

  /** An EC2 resource tag: a key and a value, both strings. */
  datatype Tag = Tag(key: string, value: string)

  /** The EBS part of a block-device mapping: the volume and its attachment status. */
  datatype Ebs = Ebs(volumeId: string, status: string)

  /** An instance as describe_instances returns it. */
  datatype Instance = Instance(id: string, state: string, tags: seq<Tag>, mappings: seq<Ebs>)

  /** A reservation groups the instances launched together. */
  type Reservation = seq<Instance>

  /** A snapshot as describe_snapshots returns it. */
  datatype SnapshotRecord = SnapshotRecord(id: string, status: string, tags: seq<Tag>)

  /** The provider behind an EC2 client handle: what it answers to the calls the tool makes.
      volumeTags answers describe_volumes for one volume; snapshotIdFor is the snapshot_id of
      the create_snapshot response for a volume ("" when the provider returns none). */
  datatype Cloud = Cloud(volumeTags: string -> seq<Tag>, snapshotIdFor: string -> string)

  /** The wall clock: reading(k) is the epoch second Time.now gives at the k-th reading. */
  datatype Clock = Clock(reading: nat -> nat)

  /** What the tool does towards the provider and what it reports in dry-run mode. */
  datatype Action =
    | DescribeVolumes(volumeId: string)
    | CreateSnapshot(volumeId: string, description: string, dryRun: bool)
    | CreateTags(resources: seq<string>, tags: seq<Tag>)
    | DeleteSnapshot(snapshotId: string, dryRun: bool)
    | ReportSnapshot(volumeId: string)          // "DRY RUN: Would be Taking snapshot of ..."
    | ReportDelete(snapshotId: string)          // "DRY RUN: Would be Deleting snapshot ..."
    | ExpirationWarning(snapshotId: string)     // unparsable expiration tag

  /** A provider call that changes something in the account. */
  predicate IsMutating(a: Action)
  {
    match a
    case CreateSnapshot(_, _, dryRun) => !dryRun
    case CreateTags(_, _) => true
    case DeleteSnapshot(_, dryRun) => !dryRun
    case _ => false
  }

  predicate NoMutation(log: seq<Action>)
  {
    forall k :: 0 <= k < |log| ==> !IsMutating(log[k])
  }

  lemma NoMutationAppend(a: seq<Action>, b: seq<Action>)
    requires NoMutation(a) && NoMutation(b)
    ensures NoMutation(a + b)
  {
    forall k | 0 <= k < |a + b| ensures !IsMutating((a + b)[k]) {
      if k >= |a| {
        assert (a + b)[k] == b[k - |a|];
      }
    }
  }

  /** The concatenation of f(x) over the items x, in order. */
  function Concat<T, U>(items: seq<T>, f: T -> seq<U>): seq<U>
  {
    if items == [] then []
    else
      var n := |items| - 1;
      Concat(items[..n], f) + f(items[n])
  }

  lemma ConcatStep<T, U>(items: seq<T>, f: T -> seq<U>, i: nat)
    requires i < |items|
    ensures Concat(items[..i + 1], f) == Concat(items[..i], f) + f(items[i])
  {
    assert items[..i + 1][..i] == items[..i];
  }

  /** y occurs in the concatenation exactly when it occurs in the part of some item. */
  lemma {:induction false} ConcatMembers<T, U>(items: seq<T>, f: T -> seq<U>, y: U)
    ensures y in Concat(items, f) <==> exists k :: 0 <= k < |items| && y in f(items[k])
  {
    if items != [] {
      var n := |items| - 1;
      ConcatMembers(items[..n], f, y);
      assert forall k :: 0 <= k < n ==> items[..n][k] == items[k];
    }
  }

  /** How a phase handles one item: handle(x, k) is what it logs for x, the k-th item of
      the run. */
  datatype Handler<!T> = Handler(handle: (T, nat) -> seq<Action>)

  /** The log of handling `items` in order, the first being item number `start`. */
  function LogOf<T>(items: seq<T>, start: nat, h: Handler<T>): seq<Action>
  {
    if items == [] then []
    else
      var n := |items| - 1;
      LogOf(items[..n], start, h) + h.handle(items[n], start + n)
  }

  lemma {:induction false} LogOfAppend<T>(items: seq<T>, more: seq<T>, start: nat, h: Handler<T>)
    ensures LogOf(items + more, start, h) == LogOf(items, start, h) + LogOf(more, start + |items|, h)
  {
    if more == [] {
      assert items + more == items;
    } else {
      var n := |more| - 1;
      var all := items + more;
      assert all[..|all| - 1] == items + more[..n] && all[|all| - 1] == more[n];
      LogOfAppend(items, more[..n], start, h);
    }
  }

  lemma LogOfStep<T>(items: seq<T>, x: T, start: nat, h: Handler<T>)
    ensures LogOf(items + [x], start, h) == LogOf(items, start, h) + h.handle(x, start + |items|)
  {
    assert (items + [x])[..|items|] == items;
  }

  /** Extending a log by the handling of one more item. */
  lemma LogOfExtend<T>(items: seq<T>, x: T, start: nat, k: nat, h: Handler<T>, log: seq<Action>, calls: seq<Action>)
    requires k == start + |items| && log == LogOf(items, start, h) && calls == h.handle(x, k)
    ensures log + calls == LogOf(items + [x], start, h)
  {
    LogOfStep(items, x, start, h);
  }

  /** Extending a log by the handling of further items. */
  lemma LogOfExtendBy<T>(items: seq<T>, more: seq<T>, start: nat, k: nat, h: Handler<T>, log: seq<Action>,
                         calls: seq<Action>)
    requires k == start + |items| && log == LogOf(items, start, h) && calls == LogOf(more, k, h)
    ensures log + calls == LogOf(items + more, start, h)
  {
    LogOfAppend(items, more, start, h);
  }

  /** An action is in the log exactly when handling some item logged it. */
  lemma {:induction false} LogOfMembers<T>(items: seq<T>, start: nat, h: Handler<T>, a: Action)
    ensures a in LogOf(items, start, h) <==> exists k :: 0 <= k < |items| && a in h.handle(items[k], start + k)
  {
    if items != [] {
      var n := |items| - 1;
      LogOfMembers(items[..n], start, h, a);
      assert forall k :: 0 <= k < n ==> items[..n][k] == items[k];
    }
  }

  /** A log changes nothing when the handling of each of its items changes nothing. */
  lemma {:induction false} LogOfNoMutation<T>(items: seq<T>, start: nat, h: Handler<T>)
    requires forall k :: 0 <= k < |items| ==> NoMutation(h.handle(items[k], start + k))
    ensures NoMutation(LogOf(items, start, h))
  {
    if items != [] {
      var n := |items| - 1;
      assert forall k :: 0 <= k < n ==> items[..n][k] == items[k];
      LogOfNoMutation(items[..n], start, h);
      NoMutationAppend(LogOf(items[..n], start, h), h.handle(items[n], start + n));
    }
  }

  /** A projection of logs that distributes over concatenation maps the log of handling the
      items to the concatenation of what it makes of each item's handling. */
  lemma {:induction false} LogOfConcat<T, U>(items: seq<T>, start: nat, h: Handler<T>,
                                             f: seq<Action> -> seq<U>, g: T -> seq<U>)
    requires f([]) == []
    requires forall a: seq<Action>, b: seq<Action> :: f(a + b) == f(a) + f(b)
    requires forall k :: 0 <= k < |items| ==> f(h.handle(items[k], start + k)) == g(items[k])
    ensures f(LogOf(items, start, h)) == Concat(items, g)
  {
    if items != [] {
      var n := |items| - 1;
      assert forall k :: 0 <= k < n ==> items[..n][k] == items[k];
      LogOfConcat(items[..n], start, h, f, g);
      assert f(LogOf(items, start, h)) == f(LogOf(items[..n], start, h)) + f(h.handle(items[n], start + n));
    }
  }

  /** A projection of logs that distributes over concatenation, and picks exactly one value
      from the handling of each item, picks those values in item order. */
  lemma {:induction false} LogOfProjection<T, U>(items: seq<T>, start: nat, h: Handler<T>,
                                                 f: seq<Action> -> seq<U>, g: T -> U)
    requires f([]) == []
    requires forall a: seq<Action>, b: seq<Action> :: f(a + b) == f(a) + f(b)
    requires forall k :: 0 <= k < |items| ==> f(h.handle(items[k], start + k)) == [g(items[k])]
    ensures |f(LogOf(items, start, h))| == |items|
    ensures forall k :: 0 <= k < |items| ==> f(LogOf(items, start, h))[k] == g(items[k])
  {
    if items != [] {
      var n := |items| - 1;
      assert forall k :: 0 <= k < n ==> items[..n][k] == items[k];
      LogOfProjection(items[..n], start, h, f, g);
      assert f(LogOf(items, start, h)) == f(LogOf(items[..n], start, h)) + f(h.handle(items[n], start + n));
    }
  }
}

/**
 * Orchestration (`lambda_handler`): for each configured account, list its
 * images, then run discovery, exemption, ranking and deletion in turn. The
 * value-level functions here say what one account and a whole run amount to;
 * the methods run the stage methods and are proved to agree with them.
 */
module Handler {
  import opened Outcomes
  import opened StringOrder
  import opened Images
  import opened Discovery
  import opened Exemption
  import opened Ranking
  import opened Deletion
  import opened Sequences

  /** The three module constants, passed in as one value. */
  datatype Config = Config(namePrefix: string, numberToRetain: nat, accountIds: seq<string>)

  /** The values the script is deployed with. */
  const DefaultConfig: Config := Config(SlavePrefix, 2, ["524624737625"])

  /** The object `lambda_handler` returns. */
  datatype Response = Response(statusCode: int, body: string)

  /** The candidates for deletion in one account: matching, untagged, in listing order. */
  function Eligible(reply: seq<RawImage>, prefix: string): (r: seq<ImageView>)
    ensures |r| <= |reply|
    ensures forall v :: v in r ==> v.delete && StartsWith(v.name, prefix) && !HasRetainTag(v.tags)
  {
    Untagged(Discover(reply, prefix), ViewTags)
  }

  /** The first `k` entries with `delete` cleared. */
  function ClearFirst(s: seq<ImageView>, k: nat): (r: seq<ImageView>)
    ensures |r| == |s|
  {
    seq(|s|, i requires 0 <= i < |s| => if i < k then s[i].(delete := false) else s[i])
  }

  /** The records as `mark_newest_images` leaves them, when it succeeds. */
  function Ranked(eligible: seq<ImageView>, k: nat): (r: seq<ImageView>)
    ensures |r| == |eligible|
    ensures forall i :: 0 <= i < |r| && i < k ==> !r[i].delete
  {
    ClearFirst(SortNewestFirst(eligible, ViewCreated), k)
  }

  /** The deletion calls made for the eligible records of one account; none when ranking fails. */
  function AccountPlan(eligible: seq<ImageView>, k: nat): (r: seq<Request>)
    ensures forall i :: 0 <= i < |r| ==> !r[i].DescribeImagesCall?
  {
    if k <= |eligible| then DeletionRequests(Ranked(eligible, k)) else []
  }

  /** Every call made for one account: the listing, then the deletion calls. */
  function AccountRequests(owner: string, reply: seq<RawImage>, prefix: string, k: nat): (r: seq<Request>)
    ensures |r| >= 1 && r[0] == DescribeImagesCall(owner)
  {
    [DescribeImagesCall(owner)] + AccountPlan(Eligible(reply, prefix), k)
  }

  /** One account makes exactly one listing call, its first. */
  lemma AccountListsOnce(owner: string, reply: seq<RawImage>, prefix: string, k: nat)
    ensures var r := AccountRequests(owner, reply, prefix, k);
            forall i :: 0 <= i < |r| ==> (r[i].DescribeImagesCall? <==> i == 0)
  {
  }

  /** What one invocation does: the calls made, and what it returns or raises. */
  datatype Run = Run(requests: seq<Request>, outcome: Result<Response>)

  /**
   * One invocation over the accounts of `config`; `listings[i]` is the
   * service's answer to the listing for `config.accountIds[i]`. The first
   * account whose ranking fails ends the run.
   */
  function HandlerRun(config: Config, listings: seq<seq<RawImage>>): (r: Run)
    requires |listings| == |config.accountIds|
    ensures r.outcome.Success? ==> r.outcome.value == Response(200, "")
    decreases |listings|
  {
    if listings == [] then Run([], Success(Response(200, "")))
    else
      var k := config.numberToRetain;
      var n := |Eligible(listings[0], config.namePrefix)|;
      var requests := AccountRequests(config.accountIds[0], listings[0], config.namePrefix, k);
      if k <= n then
        var rest := HandlerRun(config.(accountIds := config.accountIds[1..]), listings[1..]);
        Run(requests + rest.requests, rest.outcome)
      else Run(requests, Failure(IndexOutOfRange(n)))
  }

  /** Every eligible record starts out marked for deletion. */
  lemma EligibleMarked(reply: seq<RawImage>, prefix: string, v: ImageView)
    requires v in Eligible(reply, prefix)
    ensures v.delete && StartsWith(v.name, prefix) && !HasRetainTag(v.tags)
    ensures exists i :: 0 <= i < |reply| && v == Record(reply[i])
  {
    UntaggedMembership(Discover(reply, prefix), ViewTags, v);
    DiscoverMembership(reply, prefix, v);
  }

  /**
   * Retention: when ranking succeeds, exactly the first `k` records of the
   * newest-first order are kept, no deleted record is newer than a kept one,
   * and apart from the flags the records are the eligible ones.
   */
  lemma MarkedRetainsNewest(reply: seq<RawImage>, prefix: string, k: nat)
    requires k <= |Eligible(reply, prefix)|
    ensures var m := Ranked(Eligible(reply, prefix), k);
            && |m| == |Eligible(reply, prefix)|
            && (forall i :: 0 <= i < |m| ==> (m[i].delete <==> k <= i))
            && (forall i, j :: 0 <= i < k <= j < |m| ==> AtMost(m[j].created, m[i].created))
            && (forall i :: 0 <= i < |m| ==> m[i].(delete := true) in Eligible(reply, prefix))
  {
    var eligible := Eligible(reply, prefix);
    var sorted := SortNewestFirst(eligible, ViewCreated);
    SortNewestFirstOrdered(eligible, ViewCreated);
    SortedMarked(reply, prefix);
    var m := Ranked(eligible, k);
    assert m == ClearFirst(sorted, k);
    forall i | 0 <= i < |m|
      ensures m[i].created == sorted[i].created && m[i].(delete := true) == sorted[i]
      ensures m[i].delete <==> k <= i
    {
    }
  }

  /** The newest-first order of the eligible records holds eligible, marked records, as many as there are. */
  lemma SortedMarked(reply: seq<RawImage>, prefix: string)
    ensures var eligible := Eligible(reply, prefix);
            var sorted := SortNewestFirst(eligible, ViewCreated);
            && |sorted| == |eligible|
            && forall i :: 0 <= i < |sorted| ==> sorted[i].delete && sorted[i] in eligible
  {
    var eligible := Eligible(reply, prefix);
    var sorted := SortNewestFirst(eligible, ViewCreated);
    assert |sorted| == |multiset(sorted)| == |eligible|;
    forall i | 0 <= i < |sorted|
      ensures sorted[i].delete && sorted[i] in eligible
    {
      assert sorted[i] in multiset(eligible);
      EligibleMarked(reply, prefix, sorted[i]);
    }
  }

  /** Ranking fails in an account exactly when it has fewer eligible records than are to be kept. */
  lemma {:induction false} HandlerSucceedsIff(config: Config, listings: seq<seq<RawImage>>)
    requires |listings| == |config.accountIds|
    ensures HandlerRun(config, listings).outcome.Success? <==>
            forall i :: 0 <= i < |listings| ==>
              config.numberToRetain <= |Eligible(listings[i], config.namePrefix)|
    decreases |listings|
  {
    if listings != [] {
      var rest := config.(accountIds := config.accountIds[1..]);
      OutcomeStep(config, listings);
      if config.numberToRetain <= |Eligible(listings[0], config.namePrefix)| {
        HandlerSucceedsIff(rest, listings[1..]);
        forall i | 1 <= i < |listings|
          ensures listings[1..][i - 1] == listings[i]
        {
        }
      }
    }
  }

  /** The outcome of a run: the first account's ranking fails, or the rest of the run decides. */
  lemma OutcomeStep(config: Config, listings: seq<seq<RawImage>>)
    requires |listings| == |config.accountIds| && listings != []
    ensures var n := |Eligible(listings[0], config.namePrefix)|;
            HandlerRun(config, listings).outcome ==
              if config.numberToRetain <= n
              then HandlerRun(config.(accountIds := config.accountIds[1..]), listings[1..]).outcome
              else Failure(IndexOutOfRange(n))
  {
  }

  /** The failure a run raises names the eligible count of an account that has too few. */
  lemma {:induction false} HandlerFailure(config: Config, listings: seq<seq<RawImage>>)
    requires |listings| == |config.accountIds|
    requires HandlerRun(config, listings).outcome.Failure?
    ensures exists i :: 0 <= i < |listings| &&
              var n := |Eligible(listings[i], config.namePrefix)|;
              config.numberToRetain > n && HandlerRun(config, listings).outcome.error == IndexOutOfRange(n)
    decreases |listings|
  {
    var n := |Eligible(listings[0], config.namePrefix)|;
    OutcomeStep(config, listings);
    if config.numberToRetain <= n {
      HandlerFailure(config.(accountIds := config.accountIds[1..]), listings[1..]);
      var i :| 0 <= i < |listings[1..]| &&
               var n := |Eligible(listings[1..][i], config.namePrefix)|;
               config.numberToRetain > n &&
               HandlerRun(config.(accountIds := config.accountIds[1..]), listings[1..]).outcome.error == IndexOutOfRange(n);
      assert listings[1..][i] == listings[i + 1];
    } else {
      assert config.numberToRetain > n;
    }
  }

  /** One account deregisters only images that match the prefix and carry no `Retain` tag. */
  lemma AccountDeregistersOnlyEligible(owner: string, reply: seq<RawImage>, prefix: string, k: nat, id: string)
    requires DeregisterImageCall(id) in AccountRequests(owner, reply, prefix, k)
    ensures exists j :: 0 <= j < |reply| && reply[j].imageId == id &&
              StartsWith(reply[j].name, prefix) && !HasRetainTag(reply[j].tags.GetOr([]))
  {
    assert k <= |Eligible(reply, prefix)|;
    var m := Ranked(Eligible(reply, prefix), k);
    assert DeregisterImageCall(id) in DeletionRequests(m);
    DeregisteredExactly(m, id);
    var i :| 0 <= i < |m| && m[i].delete && m[i].id == id;
    MarkedRetainsNewest(reply, prefix, k);
    EligibleMarked(reply, prefix, m[i].(delete := true));
    var j :| 0 <= j < |reply| && m[i].(delete := true) == Record(reply[j]);
    DiscoverMembership(reply, prefix, m[i].(delete := true));
  }

  /**
   * With every record marked, clearing the first `k` flags deregisters exactly
   * the records from position `k` on and deletes exactly their snapshots.
   */
  lemma ClearFirstDeletesTail(sorted: seq<ImageView>, k: nat, id: string, snapshotId: string)
    requires k <= |sorted|
    requires forall i :: 0 <= i < |sorted| ==> sorted[i].delete
    ensures DeregisterImageCall(id) in DeletionRequests(ClearFirst(sorted, k)) <==>
            exists j :: k <= j < |sorted| && sorted[j].id == id
    ensures DeleteSnapshotCall(snapshotId) in DeletionRequests(ClearFirst(sorted, k)) <==>
            exists j :: k <= j < |sorted| && snapshotId in sorted[j].snapshots
  {
    var m := ClearFirst(sorted, k);
    DeregisteredExactly(m, id);
    SnapshotDeletedExactly(m, snapshotId);
    if exists i :: 0 <= i < |m| && m[i].delete && m[i].id == id {
      var i :| 0 <= i < |m| && m[i].delete && m[i].id == id;
      assert k <= i && sorted[i].id == id;
    }
    if exists j :: k <= j < |sorted| && sorted[j].id == id {
      var j :| k <= j < |sorted| && sorted[j].id == id;
      assert m[j].delete && m[j].id == id;
    }
    if exists i :: 0 <= i < |m| && m[i].delete && snapshotId in m[i].snapshots {
      var i :| 0 <= i < |m| && m[i].delete && snapshotId in m[i].snapshots;
      assert k <= i && snapshotId in sorted[i].snapshots;
    }
    if exists j :: k <= j < |sorted| && snapshotId in sorted[j].snapshots {
      var j :| k <= j < |sorted| && snapshotId in sorted[j].snapshots;
      assert m[j].delete && snapshotId in m[j].snapshots;
    }
  }

  /**
   * In one account whose ranking succeeds, an image is deregistered exactly
   * when its record sits past the `k` newest in the newest-first order, and a
   * snapshot is deleted exactly when it belongs to such a record.
   */
  lemma AccountDeletesExactly(reply: seq<RawImage>, prefix: string, k: nat, id: string, snapshotId: string)
    requires k <= |Eligible(reply, prefix)|
    ensures var sorted := SortNewestFirst(Eligible(reply, prefix), ViewCreated);
            && (DeregisterImageCall(id) in AccountPlan(Eligible(reply, prefix), k) <==>
                exists j :: k <= j < |sorted| && sorted[j].id == id)
            && (DeleteSnapshotCall(snapshotId) in AccountPlan(Eligible(reply, prefix), k) <==>
                exists j :: k <= j < |sorted| && snapshotId in sorted[j].snapshots)
  {
    var sorted := SortNewestFirst(Eligible(reply, prefix), ViewCreated);
    SortedMarked(reply, prefix);
    ClearFirstDeletesTail(sorted, k, id, snapshotId);
  }

  /** Keeping none deregisters every eligible image of the account. */
  lemma RetainNoneDeregistersAll(reply: seq<RawImage>, prefix: string, id: string)
    ensures DeregisterImageCall(id) in AccountPlan(Eligible(reply, prefix), 0) <==>
            exists v :: v in Eligible(reply, prefix) && v.id == id
  {
    AccountDeletesExactly(reply, prefix, 0, id, "");
    SortedIds(Eligible(reply, prefix), SortNewestFirst(Eligible(reply, prefix), ViewCreated), id);
  }

  /** Sorting keeps the set of image ids. */
  lemma SortedIds(eligible: seq<ImageView>, sorted: seq<ImageView>, id: string)
    requires sorted == SortNewestFirst(eligible, ViewCreated)
    ensures (exists j :: 0 <= j < |sorted| && sorted[j].id == id) <==>
            (exists v :: v in eligible && v.id == id)
  {
    forall v
      ensures v in sorted <==> v in eligible
    {
      assert v in sorted <==> v in multiset(sorted);
      assert v in eligible <==> v in multiset(eligible);
    }
    if exists v :: v in eligible && v.id == id {
      var v :| v in eligible && v.id == id;
      var j :| 0 <= j < |sorted| && sorted[j] == v;
      assert sorted[j].id == id;
    }
    if exists j :: 0 <= j < |sorted| && sorted[j].id == id {
      var j :| 0 <= j < |sorted| && sorted[j].id == id;
      assert sorted[j] in eligible;
    }
  }

  /**
   * A whole run deregisters only images that some listing returned with a
   * matching name and without a `Retain` tag.
   */
  lemma {:induction false} HandlerDeregistersOnlyEligible(config: Config, listings: seq<seq<RawImage>>, id: string)
    requires |listings| == |config.accountIds|
    requires DeregisterImageCall(id) in HandlerRun(config, listings).requests
    ensures exists i, j :: 0 <= i < |listings| && 0 <= j < |listings[i]| && listings[i][j].imageId == id &&
              StartsWith(listings[i][j].name, config.namePrefix) &&
              !HasRetainTag(listings[i][j].tags.GetOr([]))
    decreases |listings|
  {
    var k := config.numberToRetain;
    var requests := AccountRequests(config.accountIds[0], listings[0], config.namePrefix, k);
    if DeregisterImageCall(id) in requests {
      AccountDeregistersOnlyEligible(config.accountIds[0], listings[0], config.namePrefix, k, id);
      var j :| 0 <= j < |listings[0]| && listings[0][j].imageId == id &&
               StartsWith(listings[0][j].name, config.namePrefix) &&
               !HasRetainTag(listings[0][j].tags.GetOr([]));
      assert 0 < |listings|;
    } else {
      var rest := config.(accountIds := config.accountIds[1..]);
      HandlerDeregistersOnlyEligible(rest, listings[1..], id);
      var i, j :| 0 <= i < |listings[1..]| && 0 <= j < |listings[1..][i]| && listings[1..][i][j].imageId == id &&
                  StartsWith(listings[1..][i][j].name, config.namePrefix) &&
                  !HasRetainTag(listings[1..][i][j].tags.GetOr([]));
      assert listings[1..][i] == listings[i + 1];
    }
  }

  /** The accounts of `config` from the `i`-th on. */
  function From(config: Config, i: nat): Config
    requires i <= |config.accountIds|
  {
    config.(accountIds := config.accountIds[i..])
  }

  /** A run over the accounts from the `i`-th on is account `i` followed by the run from `i + 1` on. */
  lemma HandlerRunStep(config: Config, listings: seq<seq<RawImage>>, i: nat)
    requires |listings| == |config.accountIds| && i < |listings|
    ensures var k, n := config.numberToRetain, |Eligible(listings[i], config.namePrefix)|;
            var requests := AccountRequests(config.accountIds[i], listings[i], config.namePrefix, k);
            var next := HandlerRun(From(config, i + 1), listings[i + 1..]);
            HandlerRun(From(config, i), listings[i..]) ==
              if k <= n then Run(requests + next.requests, next.outcome)
              else Run(requests, Failure(IndexOutOfRange(n)))
  {
    assert From(config, i).accountIds[1..] == config.accountIds[i + 1..];
    assert listings[i..][1..] == listings[i + 1..];
  }

  /**
   * The first three stages for one account: list its images, keep the
   * matching ones and drop those with a `Retain` tag.
   */
  method ListEligible(ec2: Ec2Client, owner: string, reply: seq<RawImage>, prefix: string)
    returns (slaveImages: seq<Image>)
    modifies ec2
    ensures ec2.requests == old(ec2.requests) + [DescribeImagesCall(owner)]
    ensures Views(slaveImages) == Eligible(reply, prefix)
    ensures Distinct(slaveImages)
    ensures forall i :: 0 <= i < |slaveImages| ==> fresh(slaveImages[i])
  {
    var response := ec2.DescribeImages(owner, reply);
    var discovered := GetSlaveImages(response, prefix);
    slaveImages := RemoveTaggedImages(discovered);
    UntaggedViews(discovered);
    UntaggedDistinct(discovered);
    forall i | 0 <= i < |slaveImages|
      ensures slaveImages[i] in discovered
    {
      UntaggedMembership(discovered, TagsOf, slaveImages[i]);
    }
  }

  /**
   * Ranking for one account, in terms of the images' values: on success the
   * newest-first list, whose values are the sorted values with the first
   * `numberToRetain` flags cleared.
   */
  method Rank(slaveImages: seq<Image>, ghost eligible: seq<ImageView>, numberToRetain: nat)
    returns (outcome: Result<seq<Image>>)
    requires Distinct(slaveImages) && Views(slaveImages) == eligible
    modifies set img | img in slaveImages
    ensures outcome.Success? <==> numberToRetain <= |eligible|
    ensures outcome.Failure? ==> outcome.error == IndexOutOfRange(|eligible|)
    ensures outcome.Success? ==> Views(outcome.value) == Ranked(eligible, numberToRetain)
  {
    ghost var sorted := SortNewestFirst(slaveImages, Created);
    SortViews(slaveImages);
    SortDistinct(slaveImages);
    ghost var before := Views(sorted);
    label Before:
    outcome := MarkNewestImages(slaveImages, numberToRetain);
    if outcome.Success? {
      assert |sorted| == |multiset(sorted)| == |slaveImages|;
      assert Retained(slaveImages, numberToRetain) == sorted[..numberToRetain];
      forall i | 0 <= i < |sorted|
        ensures sorted[i].View() == ClearFirst(before, numberToRetain)[i]
      {
        assert sorted[i] in multiset(slaveImages);
        assert sorted[i] in slaveImages;
        assert sorted[i] in sorted[..numberToRetain] <==> i < numberToRetain;
        assert before[i] == old@Before(sorted[i].View());
        assert sorted[i].delete == if i < numberToRetain then false else old@Before(sorted[i].delete);
      }
      assert |Views(sorted)| == |ClearFirst(before, numberToRetain)|;
    }
  }

  /**
   * The last two stages for one account: rank the eligible images and,
   * unless ranking raised, delete those still marked.
   */
  method RankAndDelete(ec2: Ec2Client, slaveImages: seq<Image>, ghost eligible: seq<ImageView>, numberToRetain: nat)
    returns (outcome: Result<()>)
    requires Distinct(slaveImages) && Views(slaveImages) == eligible
    modifies ec2, set img | img in slaveImages
    ensures outcome.Success? <==> numberToRetain <= |eligible|
    ensures outcome.Failure? ==> outcome.error == IndexOutOfRange(|eligible|)
    ensures ec2.requests == old(ec2.requests) + AccountPlan(eligible, numberToRetain)
  {
    var marked := Rank(slaveImages, eligible, numberToRetain);
    if marked.Failure? {
      return Failure(marked.error);
    }
    DeleteOldImages(ec2, marked.value);
    return Success(());
  }

  /** The stages of `lambda_handler` for one account. */
  method ExpireAccount(ec2: Ec2Client, owner: string, reply: seq<RawImage>, prefix: string, numberToRetain: nat)
    returns (outcome: Result<()>)
    modifies ec2
    ensures outcome.Success? <==> numberToRetain <= |Eligible(reply, prefix)|
    ensures outcome.Failure? ==> outcome.error == IndexOutOfRange(|Eligible(reply, prefix)|)
    ensures ec2.requests == old(ec2.requests) + AccountRequests(owner, reply, prefix, numberToRetain)
  {
    var slaveImages := ListEligible(ec2, owner, reply, prefix);
    outcome := RankAndDelete(ec2, slaveImages, Eligible(reply, prefix), numberToRetain);
    ConcatAssociative(old(ec2.requests), [DescribeImagesCall(owner)], AccountPlan(Eligible(reply, prefix), numberToRetain));
  }

  /**
   * `lambda_handler`: run every configured account in turn and return the
   * fixed success object; an index error in an account ends the run there.
   */
  method LambdaHandler(ec2: Ec2Client, config: Config, listings: seq<seq<RawImage>>)
    returns (outcome: Result<Response>)
    requires |listings| == |config.accountIds|
    modifies ec2
    ensures ec2.requests == old(ec2.requests) + HandlerRun(config, listings).requests
    ensures outcome == HandlerRun(config, listings).outcome
  {
    assert From(config, 0) == config && listings[0..] == listings;
    for i := 0 to |listings|
      invariant old(ec2.requests) + HandlerRun(config, listings).requests ==
                ec2.requests + HandlerRun(From(config, i), listings[i..]).requests
      invariant HandlerRun(config, listings).outcome == HandlerRun(From(config, i), listings[i..]).outcome
    {
      label Account:
      var accountOutcome := ExpireAccount(ec2, config.accountIds[i], listings[i], config.namePrefix,
                                          config.numberToRetain);
      HandlerRunStep(config, listings, i);
      ghost var next := HandlerRun(From(config, i + 1), listings[i + 1..]);
      ConcatAssociative(old@Account(ec2.requests), AccountRequests(config.accountIds[i], listings[i], config.namePrefix, config.numberToRetain), next.requests);
      if accountOutcome.Failure? {
        return Failure(accountOutcome.error);
      }
    }
    return Success(Response(200, ""));
  }
}

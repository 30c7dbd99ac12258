/**
 * Discovery (`get_slave_images`): keep the raw descriptions whose name
 * matches the slave-image pattern and build one `Image` record for each.
 */
module Discovery {
  import opened Outcomes
  import opened Images

  /**
   * The literal part of the configured pattern `jenkins-win-slave*`. As a
   * regular expression that pattern is this literal followed by zero or more
   * `e`, and `re.match` anchors only at the start of the name, so a name
   * matches exactly when it starts with this literal (PatternMatchIsPrefixTest).
   */
  const SlavePrefix: string := "jenkins-win-slav"

  /** `name` begins with `prefix`, character by character. */
  predicate StartsWith(name: string, prefix: string)
    ensures StartsWith(name, prefix) <==>
            |prefix| <= |name| && forall j :: 0 <= j < |prefix| ==> name[j] == prefix[j]
  {
    prefix <= name
  }

  /** `name[..n]` is in the language of the regular expression `jenkins-win-slave*`. */
  ghost predicate PatternMatchesFirst(name: string, n: nat)
  {
    |SlavePrefix| <= n <= |name| &&
    name[..|SlavePrefix|] == SlavePrefix &&
    forall j :: |SlavePrefix| <= j < n ==> name[j] == 'e'
  }

  /** `re.match("jenkins-win-slave*", name)` succeeds exactly when `name` starts with `SlavePrefix`. */
  lemma PatternMatchIsPrefixTest(name: string)
    ensures (exists n: nat :: PatternMatchesFirst(name, n)) <==> StartsWith(name, SlavePrefix)
  {
    if StartsWith(name, SlavePrefix) {
      assert PatternMatchesFirst(name, |SlavePrefix|);
    }
  }

  /** The snapshot ids of the mappings that carry `Ebs`, in mapping order. */
  function SnapshotIds(mappings: seq<BlockDeviceMapping>): (r: seq<string>)
    ensures |r| <= |mappings|
  {
    if mappings == [] then []
    else
      (match mappings[0].ebs
       case Some(ebs) => [ebs.snapshotId]
       case None => [])
      + SnapshotIds(mappings[1..])
  }

  lemma {:induction false} SnapshotIdsAppend(a: seq<BlockDeviceMapping>, b: seq<BlockDeviceMapping>)
    ensures SnapshotIds(a + b) == SnapshotIds(a) + SnapshotIds(b)
  {
    if a != [] {
      assert (a + b)[1..] == a[1..] + b;
      SnapshotIdsAppend(a[1..], b);
    } else {
      assert a + b == b;
    }
  }

  /** A snapshot id is collected exactly when some mapping's `Ebs` names it. */
  lemma {:induction false} SnapshotIdsMembership(mappings: seq<BlockDeviceMapping>, snapshotId: string)
    ensures snapshotId in SnapshotIds(mappings) <==>
            exists j :: 0 <= j < |mappings| && mappings[j].ebs == Some(Ebs(snapshotId))
  {
    if mappings != [] {
      SnapshotIdsMembership(mappings[1..], snapshotId);
      if exists j :: 0 <= j < |mappings| && mappings[j].ebs == Some(Ebs(snapshotId)) {
        var j :| 0 <= j < |mappings| && mappings[j].ebs == Some(Ebs(snapshotId));
        if j > 0 {
          assert mappings[1..][j - 1] == mappings[j];
        }
      }
    }
  }

  /** The record `Image(...)` builds for a matching description (missing tags read as `[]`). */
  function Record(raw: RawImage): (r: ImageView)
    ensures r.delete
    ensures raw.tags == None ==> r.tags == []
    ensures |r.snapshots| <= |raw.blockDeviceMappings|
  {
    ImageView(raw.name, raw.creationDate, raw.tags.GetOr([]), raw.imageId,
              SnapshotIds(raw.blockDeviceMappings), true)
  }

  /** The records discovery builds, in input order. */
  function Discover(raws: seq<RawImage>, prefix: string): (r: seq<ImageView>)
    ensures |r| <= |raws|
    ensures forall v :: v in r ==> v.delete && StartsWith(v.name, prefix)
  {
    if raws == [] then []
    else
      (if StartsWith(raws[0].name, prefix) then [Record(raws[0])] else [])
      + Discover(raws[1..], prefix)
  }

  /** Discovery treats each description on its own: it distributes over concatenation. */
  lemma {:induction false} DiscoverAppend(a: seq<RawImage>, b: seq<RawImage>, prefix: string)
    ensures Discover(a + b, prefix) == Discover(a, prefix) + Discover(b, prefix)
  {
    if a != [] {
      assert (a + b)[1..] == a[1..] + b;
      DiscoverAppend(a[1..], b, prefix);
    } else {
      assert a + b == b;
    }
  }

  lemma DiscoverStep(raws: seq<RawImage>, i: nat, prefix: string)
    requires i < |raws|
    ensures Discover(raws[..i + 1], prefix) ==
            Discover(raws[..i], prefix) + if StartsWith(raws[i].name, prefix) then [Record(raws[i])] else []
  {
    assert raws[..i + 1] == raws[..i] + [raws[i]];
    DiscoverAppend(raws[..i], [raws[i]], prefix);
  }

  /** A record is produced exactly for the descriptions whose name matches. */
  lemma {:induction false} DiscoverMembership(raws: seq<RawImage>, prefix: string, v: ImageView)
    ensures v in Discover(raws, prefix) <==>
            exists i :: 0 <= i < |raws| && StartsWith(raws[i].name, prefix) && v == Record(raws[i])
  {
    if raws != [] {
      DiscoverMembership(raws[1..], prefix, v);
      if exists i :: 0 <= i < |raws| && StartsWith(raws[i].name, prefix) && v == Record(raws[i]) {
        var i :| 0 <= i < |raws| && StartsWith(raws[i].name, prefix) && v == Record(raws[i]);
        if i > 0 {
          assert raws[1..][i - 1] == raws[i];
        }
      }
    }
  }

  /** The descriptions after discovery: each matching one without `Tags` now has `Tags = []`. */
  function FillTags(raws: seq<RawImage>, prefix: string): (r: seq<RawImage>)
    ensures |r| == |raws|
    ensures forall i :: 0 <= i < |raws| ==>
              r[i].tags.GetOr([]) == raws[i].tags.GetOr([]) &&
              (StartsWith(raws[i].name, prefix) ==> r[i].tags.Some?) &&
              (!StartsWith(raws[i].name, prefix) ==> r[i] == raws[i])
  {
    seq(|raws|, i requires 0 <= i < |raws| =>
      if StartsWith(raws[i].name, prefix) then raws[i].(tags := Some(raws[i].tags.GetOr([])))
      else raws[i])
  }

  /**
   * Running discovery again on the descriptions it has updated builds the same
   * records: the in-place `Tags = []` is invisible to a second run.
   */
  lemma {:induction false} DiscoverAfterFillTags(raws: seq<RawImage>, prefix: string)
    ensures Discover(FillTags(raws, prefix), prefix) == Discover(raws, prefix)
  {
    if raws != [] {
      var filled := FillTags(raws, prefix);
      assert filled[1..] == FillTags(raws[1..], prefix);
      DiscoverAfterFillTags(raws[1..], prefix);
    }
  }

  /** The inner loop of `get_slave_images` over the block-device mappings of one image. */
  method CollectSnapshots(mappings: seq<BlockDeviceMapping>) returns (snapshots: seq<string>)
    ensures snapshots == SnapshotIds(mappings)
  {
    snapshots := [];
    for j := 0 to |mappings|
      invariant snapshots == SnapshotIds(mappings[..j])
    {
      var bdm := mappings[j];
      assert mappings[..j + 1] == mappings[..j] + [bdm];
      SnapshotIdsAppend(mappings[..j], [bdm]);
      if bdm.ebs.Some? {
        snapshots := snapshots + [bdm.ebs.value.snapshotId];
      }
    }
    assert mappings[..|mappings|] == mappings;
  }

  /**
   * The body of `get_slave_images` for one matching description: write
   * `Tags = []` into it when the key is missing, collect its snapshots and
   * build the record.
   */
  method BuildRecord(image: Description) returns (record: Image)
    modifies image
    ensures image.tags == Some(old(image.tags).GetOr([]))
    ensures fresh(record)
    ensures record.View() == Record(old(image.View()))
  {
    if image.tags.None? {
      image.tags := Some([]);
    }
    var snapshots := CollectSnapshots(image.blockDeviceMappings);
    record := new Image(image.name, image.creationDate, image.tags.value, image.imageId, snapshots);
  }

  /**
   * What the loop of `get_slave_images` has done after visiting the first
   * `i` descriptions, whose values before the loop were `raws`.
   */
  ghost predicate Progress(response: seq<Description>, raws: seq<RawImage>, prefix: string,
                           i: nat, slaveAmis: seq<Image>, seen: set<Description>)
    reads set d | d in response, set img | img in slaveAmis
  {
    && i <= |response| == |raws|
    && Views(slaveAmis) == Discover(raws[..i], prefix)
    && (forall k, l :: 0 <= k < l < |slaveAmis| ==> slaveAmis[k] != slaveAmis[l])
    && (forall k :: 0 <= k < i ==> response[k] in seen)
    && (forall k :: 0 <= k < |response| ==>
          response[k].View() == if response[k] in seen && StartsWith(raws[k].name, prefix)
                                then raws[k].(tags := Some(raws[k].tags.GetOr([]))) else raws[k])
  }

  /** What the finished loop has done, in terms of the descriptions' values before it. */
  lemma ProgressDone(response: seq<Description>, raws: seq<RawImage>, prefix: string,
                     slaveAmis: seq<Image>, seen: set<Description>)
    requires Progress(response, raws, prefix, |response|, slaveAmis, seen)
    ensures Views(slaveAmis) == Discover(raws, prefix)
    ensures RawViews(response) == FillTags(raws, prefix)
    ensures forall k, l :: 0 <= k < l < |slaveAmis| ==> slaveAmis[k] != slaveAmis[l]
  {
    assert raws[..|response|] == raws;
  }

  /** A description whose name does not match is passed over. */
  lemma ProgressSkip(response: seq<Description>, raws: seq<RawImage>, prefix: string, i: nat,
                     slaveAmis: seq<Image>, seen: set<Description>)
    requires i < |response|
    requires Progress(response, raws, prefix, i, slaveAmis, seen)
    requires !StartsWith(response[i].name, prefix)
    ensures Progress(response, raws, prefix, i + 1, slaveAmis, seen + {response[i]})
  {
    DiscoverStep(raws, i, prefix);
  }

  /** The loop body of `get_slave_images` for a matching description `response[i]`. */
  method Visit(response: seq<Description>, ghost raws: seq<RawImage>, prefix: string, i: nat,
               slaveAmis: seq<Image>, ghost seen: set<Description>)
    returns (record: Image)
    requires i < |response|
    requires Progress(response, raws, prefix, i, slaveAmis, seen)
    requires StartsWith(response[i].name, prefix)
    modifies response[i]
    ensures Progress(response, raws, prefix, i + 1, slaveAmis + [record], seen + {response[i]})
    ensures fresh(record)
  {
    var image := response[i];
    DiscoverStep(raws, i, prefix);
    record := BuildRecord(image);
    ViewsAppend(slaveAmis, record);
  }

  /**
   * `get_slave_images`: one fresh `Image` per matching description, in input
   * order; matching descriptions without `Tags` get `Tags = []` written into them.
   */
  method GetSlaveImages(response: seq<Description>, prefix: string) returns (slaveAmis: seq<Image>)
    modifies set d | d in response
    ensures Views(slaveAmis) == Discover(old(RawViews(response)), prefix)
    ensures RawViews(response) == FillTags(old(RawViews(response)), prefix)
    ensures forall i :: 0 <= i < |slaveAmis| ==> fresh(slaveAmis[i])
    ensures forall i, j :: 0 <= i < j < |slaveAmis| ==> slaveAmis[i] != slaveAmis[j]
  {
    ghost var raws := RawViews(response);
    ghost var seen: set<Description> := {};
    slaveAmis := [];
    for i := 0 to |response|
      invariant Progress(response, raws, prefix, i, slaveAmis, seen)
      invariant forall k :: 0 <= k < |slaveAmis| ==> fresh(slaveAmis[k])
    {
      if StartsWith(response[i].name, prefix) {
        var record := Visit(response, raws, prefix, i, slaveAmis, seen);
        slaveAmis := slaveAmis + [record];
      } else {
        ProgressSkip(response, raws, prefix, i, slaveAmis, seen);
      }
      seen := seen + {response[i]};
    }
    ProgressDone(response, raws, prefix, slaveAmis, seen);
  }
}

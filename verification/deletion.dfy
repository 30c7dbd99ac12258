/**
 * Deletion (`delete_old_images`): deregister every image still marked for
 * deletion, then delete all of their snapshots. The EC2 service is seen only
 * through the calls made to it.
 */
module Deletion {
  import opened Images

  /** One call to the EC2 service. */
  datatype Request =
    | DescribeImagesCall(owner: string)
    | DeregisterImageCall(imageId: string)
    | DeleteSnapshotCall(snapshotId: string)

  /** The EC2 client; `requests` is every call it has been asked to make, in order. */
  class Ec2Client {
    var requests: seq<Request>

    constructor ()
      ensures requests == []
    {
      requests := [];
    }

    /**
     * `ec2.describe_images(Owners=[owner])["Images"]`: `reply` is the list the
     * service answers with, returned as fresh dictionaries.
     */
    method DescribeImages(owner: string, reply: seq<RawImage>) returns (response: seq<Description>)
      modifies this
      ensures requests == old(requests) + [DescribeImagesCall(owner)]
      ensures RawViews(response) == reply
      ensures forall i :: 0 <= i < |response| ==> fresh(response[i])
    {
      requests := requests + [DescribeImagesCall(owner)];
      response := [];
      for i := 0 to |reply|
        invariant requests == old(requests) + [DescribeImagesCall(owner)]
        invariant |response| == i
        invariant forall k :: 0 <= k < i ==> fresh(response[k]) && response[k].View() == reply[k]
      {
        var d := new Description(reply[i]);
        response := response + [d];
      }
    }

    /** `ec2.deregister_image(ImageId=imageId)` */
    method DeregisterImage(imageId: string)
      modifies this
      ensures requests == old(requests) + [DeregisterImageCall(imageId)]
    {
      requests := requests + [DeregisterImageCall(imageId)];
    }

    /** `ec2.delete_snapshot(SnapshotId=snapshotId)` */
    method DeleteSnapshot(snapshotId: string)
      modifies this
      ensures requests == old(requests) + [DeleteSnapshotCall(snapshotId)]
    {
      requests := requests + [DeleteSnapshotCall(snapshotId)];
    }
  }

  /** The ids of the images marked for deletion, in list order. */
  function AmisToDelete(images: seq<ImageView>): (r: seq<string>)
    ensures |r| <= |images|
  {
    if images == [] then []
    else (if images[0].delete then [images[0].id] else []) + AmisToDelete(images[1..])
  }

  /** The snapshots of the images marked for deletion, image after image. */
  function SnapshotsToDelete(images: seq<ImageView>): (r: seq<string>)
    ensures (forall i :: 0 <= i < |images| ==> !images[i].delete) ==> r == []
  {
    if images == [] then []
    else (if images[0].delete then images[0].snapshots else []) + SnapshotsToDelete(images[1..])
  }

  function DeregisterCalls(ids: seq<string>): (r: seq<Request>)
  {
    seq(|ids|, i requires 0 <= i < |ids| => DeregisterImageCall(ids[i]))
  }

  function DeleteSnapshotCalls(ids: seq<string>): (r: seq<Request>)
  {
    seq(|ids|, i requires 0 <= i < |ids| => DeleteSnapshotCall(ids[i]))
  }

  /** Every call `delete_old_images` makes, in order. */
  function DeletionRequests(images: seq<ImageView>): (r: seq<Request>)
    ensures |r| == |AmisToDelete(images)| + |SnapshotsToDelete(images)|
    ensures forall i, j :: 0 <= i < j < |r| && r[j].DeregisterImageCall? ==> r[i].DeregisterImageCall?
  {
    DeregisterCalls(AmisToDelete(images)) + DeleteSnapshotCalls(SnapshotsToDelete(images))
  }

  lemma {:induction false} AmisToDeleteAppend(a: seq<ImageView>, b: seq<ImageView>)
    ensures AmisToDelete(a + b) == AmisToDelete(a) + AmisToDelete(b)
  {
    if a != [] {
      assert (a + b)[1..] == a[1..] + b;
      AmisToDeleteAppend(a[1..], b);
    } else {
      assert a + b == b;
    }
  }

  lemma {:induction false} SnapshotsToDeleteAppend(a: seq<ImageView>, b: seq<ImageView>)
    ensures SnapshotsToDelete(a + b) == SnapshotsToDelete(a) + SnapshotsToDelete(b)
  {
    if a != [] {
      assert (a + b)[1..] == a[1..] + b;
      SnapshotsToDeleteAppend(a[1..], b);
    } else {
      assert a + b == b;
    }
  }

  /** An image is deregistered exactly when some image marked for deletion has its id. */
  lemma {:induction false} DeregisteredExactly(images: seq<ImageView>, id: string)
    ensures DeregisterImageCall(id) in DeletionRequests(images) <==>
            exists i :: 0 <= i < |images| && images[i].delete && images[i].id == id
  {
    var amis := AmisToDelete(images);
    var r := DeletionRequests(images);
    if DeregisterImageCall(id) in r {
      var k :| 0 <= k < |r| && r[k] == DeregisterImageCall(id);
      assert k < |amis| && amis[k] == id;
    }
    if id in amis {
      var k :| 0 <= k < |amis| && amis[k] == id;
      assert r[k] == DeregisterImageCall(id);
    }
    AmisToDeleteMembership(images, id);
  }

  lemma {:induction false} AmisToDeleteMembership(images: seq<ImageView>, id: string)
    ensures id in AmisToDelete(images) <==>
            exists i :: 0 <= i < |images| && images[i].delete && images[i].id == id
  {
    if images != [] {
      AmisToDeleteMembership(images[1..], id);
      if exists i :: 0 <= i < |images| && images[i].delete && images[i].id == id {
        var i :| 0 <= i < |images| && images[i].delete && images[i].id == id;
        if i > 0 {
          assert images[1..][i - 1] == images[i];
        }
      }
    }
  }

  lemma {:induction false} SnapshotsToDeleteMembership(images: seq<ImageView>, snapshotId: string)
    ensures snapshotId in SnapshotsToDelete(images) <==>
            exists i :: 0 <= i < |images| && images[i].delete && snapshotId in images[i].snapshots
  {
    if images != [] {
      SnapshotsToDeleteMembership(images[1..], snapshotId);
      if exists i :: 0 <= i < |images| && images[i].delete && snapshotId in images[i].snapshots {
        var i :| 0 <= i < |images| && images[i].delete && snapshotId in images[i].snapshots;
        if i > 0 {
          assert images[1..][i - 1] == images[i];
        }
      }
    }
  }

  /** A snapshot is deleted exactly when it belongs to some image marked for deletion. */
  lemma SnapshotDeletedExactly(images: seq<ImageView>, snapshotId: string)
    ensures DeleteSnapshotCall(snapshotId) in DeletionRequests(images) <==>
            exists i :: 0 <= i < |images| && images[i].delete && snapshotId in images[i].snapshots
  {
    var amis, snaps := AmisToDelete(images), SnapshotsToDelete(images);
    var r := DeletionRequests(images);
    if DeleteSnapshotCall(snapshotId) in r {
      var k :| 0 <= k < |r| && r[k] == DeleteSnapshotCall(snapshotId);
      assert |amis| <= k && snaps[k - |amis|] == snapshotId;
    }
    if snapshotId in snaps {
      var k :| 0 <= k < |snaps| && snaps[k] == snapshotId;
      assert r[|amis| + k] == DeleteSnapshotCall(snapshotId);
    }
    SnapshotsToDeleteMembership(images, snapshotId);
  }

  /** An image whose flag was cleared adds no call, wherever it sits in the list. */
  lemma KeptImageRequestsNothing(before: seq<ImageView>, kept: ImageView, after: seq<ImageView>)
    requires !kept.delete
    ensures DeletionRequests(before + [kept] + after) == DeletionRequests(before + after)
  {
    var all := before + [kept] + after;
    assert AmisToDelete(all) == AmisToDelete(before + after) by {
      AmisToDeleteAppend(before + [kept], after);
      AmisToDeleteAppend(before, [kept]);
      AmisToDeleteAppend(before, after);
    }
    assert SnapshotsToDelete(all) == SnapshotsToDelete(before + after) by {
      SnapshotsToDeleteAppend(before + [kept], after);
      SnapshotsToDeleteAppend(before, [kept]);
      SnapshotsToDeleteAppend(before, after);
    }
  }

  /** Extending a prefix of the list by one image extends both collections by what that image contributes. */
  lemma CollectStep(views: seq<ImageView>, i: nat)
    requires i < |views|
    ensures AmisToDelete(views[..i + 1]) ==
            AmisToDelete(views[..i]) + if views[i].delete then [views[i].id] else []
    ensures SnapshotsToDelete(views[..i + 1]) ==
            SnapshotsToDelete(views[..i]) + if views[i].delete then views[i].snapshots else []
  {
    var v := views[i];
    assert views[..i + 1] == views[..i] + [v];
    AmisToDeleteAppend(views[..i], [v]);
    SnapshotsToDeleteAppend(views[..i], [v]);
    assert [v][1..] == [];
  }

  /**
   * The first loop of `delete_old_images`: the ids of the images marked for
   * deletion and the concatenation of their snapshots, in list order.
   */
  method CollectDeletions(imageList: seq<Image>) returns (amisToDelete: seq<string>, snapshotsToDelete: seq<string>)
    ensures amisToDelete == AmisToDelete(Views(imageList))
    ensures snapshotsToDelete == SnapshotsToDelete(Views(imageList))
  {
    ghost var views := Views(imageList);
    amisToDelete := [];
    snapshotsToDelete := [];
    for i := 0 to |imageList|
      invariant amisToDelete == AmisToDelete(views[..i])
      invariant snapshotsToDelete == SnapshotsToDelete(views[..i])
    {
      var image := imageList[i];
      CollectStep(views, i);
      if image.delete == true {
        amisToDelete := amisToDelete + [image.id];
        for j := 0 to |image.snapshots|
          invariant snapshotsToDelete == SnapshotsToDelete(views[..i]) + image.snapshots[..j]
        {
          assert image.snapshots[..j + 1] == image.snapshots[..j] + [image.snapshots[j]];
          snapshotsToDelete := snapshotsToDelete + [image.snapshots[j]];
        }
        assert image.snapshots[..|image.snapshots|] == image.snapshots;
      }
    }
    assert views[..|imageList|] == views;
  }

  /** The second loop of `delete_old_images`: one deregistration per id, in order. */
  method DeregisterAll(ec2: Ec2Client, amisToDelete: seq<string>)
    modifies ec2
    ensures ec2.requests == old(ec2.requests) + DeregisterCalls(amisToDelete)
  {
    for k := 0 to |amisToDelete|
      invariant ec2.requests == old(ec2.requests) + DeregisterCalls(amisToDelete[..k])
    {
      assert DeregisterCalls(amisToDelete[..k + 1]) ==
             DeregisterCalls(amisToDelete[..k]) + [DeregisterImageCall(amisToDelete[k])];
      ec2.DeregisterImage(amisToDelete[k]);
    }
    assert amisToDelete[..|amisToDelete|] == amisToDelete;
  }

  /** The third loop of `delete_old_images`: one snapshot deletion per id, in order. */
  method DeleteAllSnapshots(ec2: Ec2Client, snapshotsToDelete: seq<string>)
    modifies ec2
    ensures ec2.requests == old(ec2.requests) + DeleteSnapshotCalls(snapshotsToDelete)
  {
    for k := 0 to |snapshotsToDelete|
      invariant ec2.requests == old(ec2.requests) + DeleteSnapshotCalls(snapshotsToDelete[..k])
    {
      assert DeleteSnapshotCalls(snapshotsToDelete[..k + 1]) ==
             DeleteSnapshotCalls(snapshotsToDelete[..k]) + [DeleteSnapshotCall(snapshotsToDelete[k])];
      ec2.DeleteSnapshot(snapshotsToDelete[k]);
    }
    assert snapshotsToDelete[..|snapshotsToDelete|] == snapshotsToDelete;
  }

  /**
   * `delete_old_images`: deregister every image still marked for deletion and,
   * only after all of those calls, delete every one of their snapshots.
   */
  method DeleteOldImages(ec2: Ec2Client, imageList: seq<Image>)
    modifies ec2
    ensures ec2.requests == old(ec2.requests) + DeletionRequests(Views(imageList))
  {
    var amisToDelete, snapshotsToDelete := CollectDeletions(imageList);
    DeregisterAll(ec2, amisToDelete);
    DeleteAllSnapshots(ec2, snapshotsToDelete);
  }
}

/**
 * Worked runs of the script on small, concrete inputs: the order of the
 * deletion calls, one account with five slave images and two to keep, and
 * an account with too few images to keep two.
 */
module Scenarios {
  import opened Outcomes
  import opened StringOrder
  import opened Images
  import opened Discovery
  import opened Exemption
  import opened Ranking
  import opened Deletion
  import opened Handler

  /** Images A (marked, two snapshots), B (kept) and C (marked, no snapshot): deregistrations come first. */
  lemma DeletionOrderExample()
    ensures DeletionRequests([ImageView("a", "t1", [], "ami-a", ["snap-1", "snap-2"], true),
                              ImageView("b", "t2", [], "ami-b", ["snap-3"], false),
                              ImageView("c", "t3", [], "ami-c", [], true)])
         == [DeregisterImageCall("ami-a"), DeregisterImageCall("ami-c"),
             DeleteSnapshotCall("snap-1"), DeleteSnapshotCall("snap-2")]
  {
  }

  /** The creation timestamp of sample image `n`. */
  function Stamp(n: char): string
  {
    "2024-01-0" + [n] + "T12:00:00.000Z"
  }

  /** Sample timestamps order by their day digit. */
  lemma StampOrder(m: char, n: char)
    requires m < n
    ensures AtMost(Stamp(m), Stamp(n)) && !AtMost(Stamp(n), Stamp(m))
  {
    assert DifferFirstAt(Stamp(m), Stamp(n), 9) && DifferFirstAt(Stamp(n), Stamp(m), 9) by {
      assert Stamp(m)[..9] == "2024-01-0" == Stamp(n)[..9];
    }
    AtMostAtFirstDifference(Stamp(m), Stamp(n), 9);
    AtMostAtFirstDifference(Stamp(n), Stamp(m), 9);
  }

  /** Sample slave image `n`: one volume with snapshot `snap-n` and one mapping without `Ebs`. */
  function Sample(n: char, tags: Option<seq<Tag>>): RawImage
  {
    RawImage("jenkins-win-slave-" + [n], Stamp(n), "ami-" + [n], tags,
             [BlockDeviceMapping(Some(Ebs("snap-" + [n]))), BlockDeviceMapping(None)])
  }

  /** The record discovery builds for sample image `n`. */
  function SampleRecord(n: char): ImageView
  {
    ImageView("jenkins-win-slave-" + [n], Stamp(n), [], "ami-" + [n], ["snap-" + [n]], true)
  }

  /** The image whose `Retain` tag exempts it. */
  function RetainedSample(): RawImage
  {
    Sample('9', Some([Tag("Retain", "yes")]))
  }

  /**
   * Five untagged slave images listed out of date order, one image of another
   * family and one slave image with a `Retain` tag, which is the newest.
   */
  function SampleListing(): seq<RawImage>
  {
    ListedFirst() + ListedLast()
  }

  function ListedFirst(): seq<RawImage>
  {
    [Sample('2', None), Sample('5', Some([])), Sample('1', None)]
  }

  function ListedLast(): seq<RawImage>
  {
    [RawImage("ubuntu-base", Stamp('8'), "ami-u", None, []),
     Sample('4', Some([])), RetainedSample(), Sample('3', None)]
  }

  /** A sample image without tags matches the slave pattern and yields its sample record. */
  lemma SampleDiscovered(n: char, tags: Option<seq<Tag>>)
    requires tags.GetOr([]) == []
    ensures StartsWith(Sample(n, tags).name, SlavePrefix)
    ensures Record(Sample(n, tags)) == SampleRecord(n)
  {
    var mappings := Sample(n, tags).blockDeviceMappings;
    assert SnapshotIds(mappings[1..]) == [];
    assert SnapshotIds(mappings) == ["snap-" + [n]];
  }

  lemma DiscoverListedFirst()
    ensures Discover(ListedFirst(), SlavePrefix) == [SampleRecord('2'), SampleRecord('5'), SampleRecord('1')]
  {
    var listing, p := ListedFirst(), SlavePrefix;
    assert Discover(listing[2..], p) == [SampleRecord('1')] by {
      SampleDiscovered('1', None);
    }
    assert Discover(listing[1..], p) == [SampleRecord('5'), SampleRecord('1')] by {
      SampleDiscovered('5', Some([]));
    }
    SampleDiscovered('2', None);
  }

  lemma DiscoverListedLast()
    ensures Discover(ListedLast(), SlavePrefix) == [SampleRecord('4'), Record(RetainedSample()), SampleRecord('3')]
  {
    var listing, p := ListedLast(), SlavePrefix;
    assert Discover(listing[3..], p) == [SampleRecord('3')] by {
      SampleDiscovered('3', None);
    }
    assert Discover(listing[2..], p) == [Record(RetainedSample()), SampleRecord('3')] by {
      assert StartsWith(RetainedSample().name, p);
    }
    assert Discover(listing[1..], p) == [SampleRecord('4'), Record(RetainedSample()), SampleRecord('3')] by {
      SampleDiscovered('4', Some([]));
    }
    assert !StartsWith(listing[0].name, p) by {
      assert listing[0].name[0] != p[0];
    }
  }

  lemma SampleDiscover()
    ensures Discover(SampleListing(), SlavePrefix) ==
            [SampleRecord('2'), SampleRecord('5'), SampleRecord('1')] +
            [SampleRecord('4'), Record(RetainedSample()), SampleRecord('3')]
  {
    DiscoverAppend(ListedFirst(), ListedLast(), SlavePrefix);
    DiscoverListedFirst();
    DiscoverListedLast();
  }

  lemma UntaggedFirst()
    ensures Untagged([SampleRecord('2'), SampleRecord('5'), SampleRecord('1')], ViewTags) ==
            [SampleRecord('2'), SampleRecord('5'), SampleRecord('1')]
  {
    var first := [SampleRecord('2'), SampleRecord('5'), SampleRecord('1')];
    assert Untagged(first[2..], ViewTags) == [SampleRecord('1')];
    assert Untagged(first[1..], ViewTags) == [SampleRecord('5'), SampleRecord('1')];
  }

  lemma UntaggedLast()
    ensures Untagged([SampleRecord('4'), Record(RetainedSample()), SampleRecord('3')], ViewTags) ==
            [SampleRecord('4'), SampleRecord('3')]
  {
    var retained := Record(RetainedSample());
    var last := [SampleRecord('4'), retained, SampleRecord('3')];
    assert HasRetainTag(retained.tags) by {
      assert retained.tags[0].key == RetainKey;
    }
    assert Untagged(last[2..], ViewTags) == [SampleRecord('3')];
    assert Untagged(last[1..], ViewTags) == [SampleRecord('3')];
  }

  lemma SampleEligible()
    ensures Eligible(SampleListing(), SlavePrefix) ==
            [SampleRecord('2'), SampleRecord('5'), SampleRecord('1')] + [SampleRecord('4'), SampleRecord('3')]
  {
    SampleDiscover();
    UntaggedAppend([SampleRecord('2'), SampleRecord('5'), SampleRecord('1')],
                   [SampleRecord('4'), Record(RetainedSample()), SampleRecord('3')], ViewTags);
    UntaggedFirst();
    UntaggedLast();
  }

  /** `created(a)` is strictly older than `created(b)`. */
  predicate Older<T>(a: T, b: T, created: T -> string)
  {
    AtMost(created(a), created(b)) && !AtMost(created(b), created(a))
  }

  // Nested, SortCons, InsertFront and InsertPast only unfold definitions one
  // step at a time; they exist to keep the verification of SortFive fast.

  /** A five-element list written out, as a concatenation, and element by element. */
  lemma Nested<T>(a: T, b: T, c: T, d: T, e: T)
    ensures [a, b, c] + [d, e] == [a] + ([b] + ([c] + ([d] + ([e] + [])))) == [a, b, c, d, e]
  {
  }

  lemma SortCons<T>(x: T, s: seq<T>, created: T -> string)
    ensures SortNewestFirst([x] + s, created) == Insert(x, SortNewestFirst(s, created), created)
  {
    assert ([x] + s)[1..] == s;
  }

  lemma InsertFront<T>(x: T, s: seq<T>, created: T -> string)
    requires s == [] || AtMost(created(s[0]), created(x))
    ensures Insert(x, s, created) == [x] + s
  {
  }

  lemma InsertPast<T>(x: T, y: T, s: seq<T>, created: T -> string)
    requires !AtMost(created(y), created(x))
    ensures Insert(x, [y] + s, created) == [y] + Insert(x, s, created)
  {
    assert ([y] + s)[1..] == s;
  }

  /** Five records with strictly increasing dates, listed in the order 2, 5, 1, 4, 3, sort newest first. */
  lemma SortFive<T>(r1: T, r2: T, r3: T, r4: T, r5: T, created: T -> string)
    requires Older(r1, r2, created) && Older(r1, r3, created) && Older(r1, r4, created) && Older(r1, r5, created)
    requires Older(r2, r3, created) && Older(r2, r4, created) && Older(r2, r5, created)
    requires Older(r3, r4, created) && Older(r3, r5, created) && Older(r4, r5, created)
    ensures SortNewestFirst([r2, r5, r1] + [r4, r3], created) == [r5, r4, r3, r2, r1]
  {
    var e: seq<T> := [];
    SortCons(r3, e, created);
    InsertFront(r3, e, created);
    SortCons(r4, [r3] + e, created);
    InsertFront(r4, [r3] + e, created);
    SortCons(r1, [r4] + ([r3] + e), created);
    InsertPast(r1, r4, [r3] + e, created);
    InsertPast(r1, r3, e, created);
    InsertFront(r1, e, created);
    SortCons(r5, [r1] + ([r4] + ([r3] + e)), created);
    InsertFront(r5, [r4] + ([r3] + ([r1] + e)), created);
    SortCons(r2, [r5] + ([r1] + ([r4] + ([r3] + e))), created);
    InsertPast(r2, r5, [r4] + ([r3] + ([r1] + e)), created);
    InsertPast(r2, r4, [r3] + ([r1] + e), created);
    InsertPast(r2, r3, [r1] + e, created);
    InsertFront(r2, [r1] + e, created);
    Nested(r2, r5, r1, r4, r3);
    Nested(r5, r4, r3, r2, r1);
  }

  lemma SampleSorted()
    ensures SortNewestFirst(Eligible(SampleListing(), SlavePrefix), ViewCreated) ==
            [SampleRecord('5'), SampleRecord('4'), SampleRecord('3'), SampleRecord('2'), SampleRecord('1')]
  {
    SampleEligible();
    StampOrder('1', '2'); StampOrder('1', '3'); StampOrder('1', '4'); StampOrder('1', '5');
    StampOrder('2', '3'); StampOrder('2', '4'); StampOrder('2', '5');
    StampOrder('3', '4'); StampOrder('3', '5'); StampOrder('4', '5');
    SortFive(SampleRecord('1'), SampleRecord('2'), SampleRecord('3'), SampleRecord('4'), SampleRecord('5'), ViewCreated);
  }

  /** Ranking five records keeping two clears the flags of the first two only. */
  lemma ClearFirstTwo(a: ImageView, b: ImageView, c: ImageView, d: ImageView, e: ImageView)
    ensures ClearFirst([a, b, c, d, e], 2) == [a.(delete := false), b.(delete := false), c, d, e]
  {
  }

  lemma SampleRanked()
    ensures Ranked(Eligible(SampleListing(), SlavePrefix), 2) ==
            [SampleRecord('5').(delete := false), SampleRecord('4').(delete := false),
             SampleRecord('3'), SampleRecord('2'), SampleRecord('1')]
  {
    SampleSorted();
    ClearFirstTwo(SampleRecord('5'), SampleRecord('4'), SampleRecord('3'), SampleRecord('2'), SampleRecord('1'));
  }

  // AmisToDeleteCons and SnapshotsToDeleteCons only unfold the collections
  // one step; they exist to keep the verification of PlanFive fast.

  lemma AmisToDeleteCons(x: ImageView, s: seq<ImageView>)
    ensures AmisToDelete([x] + s) == (if x.delete then [x.id] else []) + AmisToDelete(s)
  {
    assert ([x] + s)[1..] == s;
  }

  lemma SnapshotsToDeleteCons(x: ImageView, s: seq<ImageView>)
    ensures SnapshotsToDelete([x] + s) == (if x.delete then x.snapshots else []) + SnapshotsToDelete(s)
  {
    assert ([x] + s)[1..] == s;
  }

  /** Two kept records followed by three marked ones: the three are deregistered in list order. */
  lemma PlanFive(a: ImageView, b: ImageView, c: ImageView, d: ImageView, e: ImageView)
    requires !a.delete && !b.delete && c.delete && d.delete && e.delete
    ensures AmisToDelete([a, b, c, d, e]) == [c.id, d.id, e.id]
    ensures SnapshotsToDelete([a, b, c, d, e]) == c.snapshots + d.snapshots + e.snapshots
  {
    var none: seq<ImageView> := [];
    Nested(a, b, c, d, e);
    AmisToDeleteCons(e, none);
    AmisToDeleteCons(d, [e] + none);
    AmisToDeleteCons(c, [d] + ([e] + none));
    AmisToDeleteCons(b, [c] + ([d] + ([e] + none)));
    AmisToDeleteCons(a, [b] + ([c] + ([d] + ([e] + none))));
    SnapshotsToDeleteCons(e, none);
    SnapshotsToDeleteCons(d, [e] + none);
    SnapshotsToDeleteCons(c, [d] + ([e] + none));
    SnapshotsToDeleteCons(b, [c] + ([d] + ([e] + none)));
    SnapshotsToDeleteCons(a, [b] + ([c] + ([d] + ([e] + none))));
  }

  lemma SampleFields()
    ensures SampleRecord('3').id == "ami-3" && SampleRecord('3').snapshots == ["snap-3"]
    ensures SampleRecord('2').id == "ami-2" && SampleRecord('2').snapshots == ["snap-2"]
    ensures SampleRecord('1').id == "ami-1" && SampleRecord('1').snapshots == ["snap-1"]
  {
    assert "snap-" + ['3'] == "snap-3" && "snap-" + ['2'] == "snap-2" && "snap-" + ['1'] == "snap-1";
    assert "ami-" + ['3'] == "ami-3" && "ami-" + ['2'] == "ami-2" && "ami-" + ['1'] == "ami-1";
  }

  /** The calls for the ranked sample: the three older images, then their snapshots. */
  lemma SamplePlan()
    ensures DeletionRequests([SampleRecord('5').(delete := false), SampleRecord('4').(delete := false),
                              SampleRecord('3'), SampleRecord('2'), SampleRecord('1')]) ==
            [DeregisterImageCall("ami-3"), DeregisterImageCall("ami-2"), DeregisterImageCall("ami-1"),
             DeleteSnapshotCall("snap-3"), DeleteSnapshotCall("snap-2"), DeleteSnapshotCall("snap-1")]
  {
    PlanFive(SampleRecord('5').(delete := false), SampleRecord('4').(delete := false),
             SampleRecord('3'), SampleRecord('2'), SampleRecord('1'));
    SampleFields();
    assert DeregisterCalls(["ami-3", "ami-2", "ami-1"]) ==
           [DeregisterImageCall("ami-3"), DeregisterImageCall("ami-2"), DeregisterImageCall("ami-1")];
    assert ["snap-3"] + ["snap-2"] + ["snap-1"] == ["snap-3", "snap-2", "snap-1"];
    assert DeleteSnapshotCalls(["snap-3", "snap-2", "snap-1"]) ==
           [DeleteSnapshotCall("snap-3"), DeleteSnapshotCall("snap-2"), DeleteSnapshotCall("snap-1")];
  }

  lemma SampleAccountPlan()
    ensures AccountPlan(Eligible(SampleListing(), SlavePrefix), 2) ==
            [DeregisterImageCall("ami-3"), DeregisterImageCall("ami-2"), DeregisterImageCall("ami-1"),
             DeleteSnapshotCall("snap-3"), DeleteSnapshotCall("snap-2"), DeleteSnapshotCall("snap-1")]
  {
    SampleEligible();
    SampleRanked();
    SamplePlan();
  }

  /** A run over one account whose ranking succeeds makes that account's calls and returns status 200. */
  lemma SingleAccountRun(config: Config, listing: seq<RawImage>)
    requires |config.accountIds| == 1
    requires config.numberToRetain <= |Eligible(listing, config.namePrefix)|
    ensures HandlerRun(config, [listing]) ==
            Run(AccountRequests(config.accountIds[0], listing, config.namePrefix, config.numberToRetain) + [],
                Success(Response(200, "")))
  {
    assert [listing][1..] == [];
  }

  /**
   * Keeping two: the listing, then the three older images deregistered
   * newest first, then their snapshots; the run returns status 200.
   */
  lemma SampleRun()
    ensures HandlerRun(DefaultConfig, [SampleListing()]) ==
            Run([DescribeImagesCall("524624737625")] +
                [DeregisterImageCall("ami-3"), DeregisterImageCall("ami-2"), DeregisterImageCall("ami-1"),
                 DeleteSnapshotCall("snap-3"), DeleteSnapshotCall("snap-2"), DeleteSnapshotCall("snap-1")] + [],
                Success(Response(200, "")))
  {
    assert |Eligible(SampleListing(), SlavePrefix)| == 5 by {
      SampleEligible();
    }
    SingleAccountRun(DefaultConfig, SampleListing());
    SampleAccountPlan();
  }

  /** An account with a single eligible image cannot keep two: the run raises after the listing. */
  lemma TooFewRun()
    ensures HandlerRun(DefaultConfig, [[Sample('1', None)]]) ==
            Run([DescribeImagesCall("524624737625")], Failure(IndexOutOfRange(1)))
  {
    SampleDiscovered('1', None);
    assert Discover([Sample('1', None)], SlavePrefix) == [SampleRecord('1')];
    assert Eligible([Sample('1', None)], SlavePrefix) == [SampleRecord('1')];
  }
}

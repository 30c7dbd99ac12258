/**
 * Ranking (`mark_newest_images`): order the images newest first with a
 * stable sort on the creation-date string, then clear `delete` on the first
 * `numberToRetain` entries.
 */
module Ranking {
  import opened Outcomes
  import opened StringOrder
  import opened Images
  import opened Sequences

  /** Newest first: no entry was created after an entry before it. */
  ghost predicate NewestFirst<T>(s: seq<T>, created: T -> string)
  {
    forall i, j :: 0 <= i < j < |s| ==> AtMost(created(s[j]), created(s[i]))
  }

  /** The entries whose creation date is `created`, in list order. */
  function CreatedAt<T>(s: seq<T>, created: T -> string, date: string): seq<T>
  {
    if s == [] then []
    else (if created(s[0]) == date then [s[0]] else []) + CreatedAt(s[1..], created, date)
  }

  /**
   * Place `x` before the first entry that is not newer than it; `x` comes
   * first in the input, so among equal dates it keeps its place.
   */
  function Insert<T>(x: T, s: seq<T>, created: T -> string): (r: seq<T>)
    ensures |r| == |s| + 1
    ensures multiset(r) == multiset(s) + multiset{x}
  {
    if s == [] || AtMost(created(s[0]), created(x)) then [x] + s
    else
      assert s == [s[0]] + s[1..];
      [s[0]] + Insert(x, s[1..], created)
  }

  /** `sorted(s, reverse=True, key=created)`. */
  function SortNewestFirst<T>(s: seq<T>, created: T -> string): (r: seq<T>)
    ensures |r| == |s|
    ensures multiset(r) == multiset(s)
  {
    if s == [] then []
    else
      assert s == [s[0]] + s[1..];
      Insert(s[0], SortNewestFirst(s[1..], created), created)
  }

  lemma {:induction false} InsertNewestFirst<T>(x: T, s: seq<T>, created: T -> string)
    requires NewestFirst(s, created)
    ensures NewestFirst(Insert(x, s, created), created)
  {
    if s == [] || AtMost(created(s[0]), created(x)) {
      forall j | 0 < j < |s| + 1
        ensures AtMost(created(([x] + s)[j]), created(x))
      {
        if j > 1 {
          AtMostTransitive(created(s[j - 1]), created(s[0]), created(x));
        }
      }
    } else {
      InsertNewestFirst(x, s[1..], created);
      var r := Insert(x, s[1..], created);
      AtMostTotal(created(s[0]), created(x));
      forall j | 0 <= j < |r|
        ensures AtMost(created(r[j]), created(s[0]))
      {
        assert r[j] in multiset(r);
        if r[j] != x {
          assert r[j] in multiset(s[1..]);
          var k :| 0 <= k < |s[1..]| && s[1..][k] == r[j];
          assert s[k + 1] == r[j];
        }
      }
    }
  }

  /** The result of the sort is newest first. */
  lemma {:induction false} SortNewestFirstOrdered<T>(s: seq<T>, created: T -> string)
    ensures NewestFirst(SortNewestFirst(s, created), created)
  {
    if s != [] {
      SortNewestFirstOrdered(s[1..], created);
      InsertNewestFirst(s[0], SortNewestFirst(s[1..], created), created);
    }
  }

  lemma CreatedAtCons<T>(x: T, s: seq<T>, created: T -> string, date: string)
    ensures CreatedAt([x] + s, created, date) == (if created(x) == date then [x] else []) + CreatedAt(s, created, date)
  {
    assert ([x] + s)[1..] == s;
  }

  lemma {:induction false} InsertCreatedAt<T>(x: T, s: seq<T>, created: T -> string, date: string)
    ensures CreatedAt(Insert(x, s, created), created, date) ==
            (if created(x) == date then [x] else []) + CreatedAt(s, created, date)
  {
    if s == [] || AtMost(created(s[0]), created(x)) {
      CreatedAtCons(x, s, created, date);
    } else {
      var r := Insert(x, s[1..], created);
      var c := CreatedAt(s[1..], created, date);
      assert Insert(x, s, created) == [s[0]] + r;
      assert [s[0]] + s[1..] == s;
      CreatedAtCons(s[0], r, created, date);
      CreatedAtCons(s[0], s[1..], created, date);
      InsertCreatedAt(x, s[1..], created, date);
      if created(x) == date {
        AtMostReflexive(created(x));
        ConcatEmptyLeft([x] + c);
        ConcatEmptyLeft(c);
      } else if created(s[0]) == date {
        ConcatEmptyLeft(c);
        ConcatEmptyLeft([s[0]] + c);
      } else {
        ConcatEmptyLeft(c);
      }
    }
  }

  /** The sort is stable: entries with the same creation date keep their relative order. */
  lemma {:induction false} SortNewestFirstStable<T>(s: seq<T>, created: T -> string, date: string)
    ensures CreatedAt(SortNewestFirst(s, created), created, date) == CreatedAt(s, created, date)
  {
    if s != [] {
      SortNewestFirstStable(s[1..], created, date);
      InsertCreatedAt(s[0], SortNewestFirst(s[1..], created), created, date);
    }
  }

  lemma {:induction false} CreatedAtMembership<T>(s: seq<T>, created: T -> string, date: string, x: T)
    ensures x in CreatedAt(s, created, date) <==> x in s && created(x) == date
  {
    if s != [] {
      CreatedAtMembership(s[1..], created, date, x);
      assert x in s <==> x == s[0] || x in s[1..];
    }
  }

  /**
   * Newest first and stable pin the order down completely: two newest-first
   * lists that agree on the order of each group of equal dates are equal.
   * So SortNewestFirst is the only result `sorted` may give.
   */
  lemma {:induction false} StableNewestFirstUnique<T>(a: seq<T>, b: seq<T>, created: T -> string)
    requires NewestFirst(a, created) && NewestFirst(b, created)
    requires forall date :: CreatedAt(a, created, date) == CreatedAt(b, created, date)
    ensures a == b
    decreases |a|
  {
    if a != [] {
      assert CreatedAt(b, created, created(a[0])) == CreatedAt(a, created, created(a[0])) != [];
    }
    if b != [] {
      assert CreatedAt(a, created, created(b[0])) == CreatedAt(b, created, created(b[0])) != [];
    }
    if a != [] {
      var m, n := created(a[0]), created(b[0]);
      assert a[0] in CreatedAt(a, created, m);
      CreatedAtMembership(b, created, m, a[0]);
      var j :| 0 <= j < |b| && b[j] == a[0];
      if j > 0 { assert AtMost(created(b[j]), created(b[0])); } else { AtMostReflexive(m); }
      assert b[0] in CreatedAt(b, created, n);
      CreatedAtMembership(a, created, n, b[0]);
      var k :| 0 <= k < |a| && a[k] == b[0];
      if k > 0 { assert AtMost(created(a[k]), created(a[0])); } else { AtMostReflexive(n); }
      AtMostAntisymmetric(m, n);
      assert CreatedAt(a, created, m)[0] == a[0] && CreatedAt(b, created, m)[0] == b[0];
      forall date
        ensures CreatedAt(a[1..], created, date) == CreatedAt(b[1..], created, date)
      {
        if m == date {
          assert CreatedAt(a[1..], created, date) == CreatedAt(a, created, date)[1..];
          assert CreatedAt(b[1..], created, date) == CreatedAt(b, created, date)[1..];
        } else {
          assert CreatedAt(a[1..], created, date) == CreatedAt(a, created, date);
          assert CreatedAt(b[1..], created, date) == CreatedAt(b, created, date);
        }
      }
      StableNewestFirstUnique(a[1..], b[1..], created);
      assert a == [a[0]] + a[1..] && b == [b[0]] + b[1..];
    }
  }

  lemma {:induction false} InsertViews(x: Image, s: seq<Image>)
    ensures Views(Insert(x, s, Created)) == Insert(x.View(), Views(s), ViewCreated)
  {
    if s != [] && !AtMost(s[0].created, x.created) {
      var r := Insert(x, s[1..], Created);
      assert Views(Insert(x, s, Created)) == [s[0].View()] + Views(r) by {
        assert Insert(x, s, Created) == [s[0]] + r;
        ViewsCons(s[0], r);
      }
      InsertViews(x, s[1..]);
      ViewsTail(s);
    } else {
      assert Insert(x, s, Created) == [x] + s;
      ViewsCons(x, s);
    }
  }

  /** Sorting the objects and then reading them agrees with sorting their values. */
  lemma {:induction false} SortViews(s: seq<Image>)
    ensures Views(SortNewestFirst(s, Created)) == SortNewestFirst(Views(s), ViewCreated)
  {
    if s != [] {
      SortViews(s[1..]);
      InsertViews(s[0], SortNewestFirst(s[1..], Created));
      ViewsTail(s);
    }
  }

  lemma {:induction false} InsertDistinct(x: Image, s: seq<Image>)
    requires Distinct(s) && x !in s
    ensures Distinct(Insert(x, s, Created))
  {
    if s != [] && !AtMost(s[0].created, x.created) {
      InsertDistinct(x, s[1..]);
      var r := Insert(x, s[1..], Created);
      assert s[0] !in multiset(r) by {
        assert s[0] !in s[1..];
      }
    }
  }

  /** The sort keeps distinct objects distinct. */
  lemma {:induction false} SortDistinct(s: seq<Image>)
    requires Distinct(s)
    ensures Distinct(SortNewestFirst(s, Created))
  {
    if s != [] {
      SortDistinct(s[1..]);
      var r := SortNewestFirst(s[1..], Created);
      assert s[0] !in multiset(r) by {
        assert s[0] !in s[1..];
      }
      InsertDistinct(s[0], r);
    }
  }

  /** The entries `mark_newest_images` reaches: the first `numberToRetain` of the sorted list, or all of it. */
  function Retained(imageList: seq<Image>, numberToRetain: nat): (r: seq<Image>)
    ensures |r| == if numberToRetain <= |imageList| then numberToRetain else |imageList|
    ensures multiset(r) <= multiset(imageList)
  {
    var sortedList := SortNewestFirst(imageList, Created);
    if numberToRetain <= |sortedList| then
      assert sortedList == sortedList[..numberToRetain] + sortedList[numberToRetain..];
      sortedList[..numberToRetain]
    else sortedList
  }

  /** No entry left out of Retained is newer than an entry in it. */
  lemma RetainedAreNewest(imageList: seq<Image>, numberToRetain: nat, kept: Image, dropped: Image)
    requires kept in Retained(imageList, numberToRetain)
    requires dropped in imageList && dropped !in Retained(imageList, numberToRetain)
    ensures AtMost(dropped.created, kept.created)
  {
    var sortedList := SortNewestFirst(imageList, Created);
    SortNewestFirstOrdered(imageList, Created);
    assert dropped in multiset(sortedList);
    var i :| 0 <= i < |Retained(imageList, numberToRetain)| && Retained(imageList, numberToRetain)[i] == kept;
    var j :| 0 <= j < |sortedList| && sortedList[j] == dropped;
    var r := Retained(imageList, numberToRetain);
    assert r == sortedList[..|r|];
    assert forall t :: 0 <= t < |r| ==> r[t] != dropped;
    assert i < |r| <= j;
  }

  /**
   * `mark_newest_images`: sort, then clear `delete` on the first
   * `numberToRetain` entries. The index loop does not clamp: when
   * `numberToRetain` exceeds the list it clears every entry and then fails
   * with an index error at the list length.
   */
  method MarkNewestImages(imageList: seq<Image>, numberToRetain: nat) returns (result: Result<seq<Image>>)
    modifies set img | img in imageList
    ensures result.Success? <==> numberToRetain <= |imageList|
    ensures result.Success? ==> result.value == SortNewestFirst(imageList, Created)
    ensures result.Failure? ==> result.error == IndexOutOfRange(|imageList|)
    ensures forall img :: img in imageList ==>
              img.delete == if img in Retained(imageList, numberToRetain) then false else old(img.delete)
    ensures forall i :: 0 <= i < |Retained(imageList, numberToRetain)| ==>
              !Retained(imageList, numberToRetain)[i].delete
  {
    var sortedList := SortNewestFirst(imageList, Created);
    assert |sortedList| == |multiset(sortedList)| == |imageList|;
    for x := 0 to numberToRetain
      invariant x <= |sortedList|
      invariant forall img :: img in imageList ==>
                  img.delete == if img in sortedList[..x] then false else old(img.delete)
    {
      if x >= |sortedList| {
        assert sortedList[..x] == sortedList;
        forall i | 0 <= i < |sortedList|
          ensures !sortedList[i].delete
        {
          assert sortedList[i] in multiset(imageList);
        }
        return Failure(IndexOutOfRange(x));
      }
      assert sortedList[x] in multiset(imageList);
      sortedList[x].delete := false;
      assert sortedList[..x + 1] == sortedList[..x] + [sortedList[x]];
    }
    forall i | 0 <= i < numberToRetain
      ensures !sortedList[i].delete
    {
      assert sortedList[i] in multiset(imageList);
      assert sortedList[i] in sortedList[..numberToRetain];
    }
    return Success(sortedList);
  }
}

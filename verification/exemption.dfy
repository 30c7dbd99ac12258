/**
 * Exemption (`remove_tagged_images`): drop every image that carries a tag
 * whose key is `Retain`, whatever its value.
 */
module Exemption {
  import opened Images

  const RetainKey: string := "Retain"

  /** Some tag has the key `Retain`; its value does not matter. */
  predicate HasRetainTag(tags: seq<Tag>)
    ensures HasRetainTag(tags) <==> exists t :: t in tags && t.key == RetainKey
  {
    exists j :: 0 <= j < |tags| && tags[j].key == RetainKey
  }

  /** The entries without a `Retain` tag, in list order. */
  function Untagged<T>(s: seq<T>, tags: T -> seq<Tag>): (r: seq<T>)
    ensures |r| <= |s|
    ensures forall x :: x in r ==> x in s && !HasRetainTag(tags(x))
  {
    if s == [] then []
    else (if HasRetainTag(tags(s[0])) then [] else [s[0]]) + Untagged(s[1..], tags)
  }

  /** The filter looks at each entry on its own: it distributes over concatenation. */
  lemma {:induction false} UntaggedAppend<T>(a: seq<T>, b: seq<T>, tags: T -> seq<Tag>)
    ensures Untagged(a + b, tags) == Untagged(a, tags) + Untagged(b, tags)
  {
    if a != [] {
      assert (a + b)[1..] == a[1..] + b;
      UntaggedAppend(a[1..], b, tags);
    } else {
      assert a + b == b;
    }
  }

  /** An entry survives exactly when it is in the list and has no `Retain` tag. */
  lemma {:induction false} UntaggedMembership<T>(s: seq<T>, tags: T -> seq<Tag>, x: T)
    ensures x in Untagged(s, tags) <==> x in s && !HasRetainTag(tags(x))
  {
    if s != [] {
      UntaggedMembership(s[1..], tags, x);
      assert x in s <==> x == s[0] || x in s[1..];
    }
  }

  /** The survivors form a sub-multiset of the input: nothing is added or duplicated. */
  lemma {:induction false} UntaggedSubMultiset<T>(s: seq<T>, tags: T -> seq<Tag>)
    ensures multiset(Untagged(s, tags)) <= multiset(s)
  {
    if s != [] {
      UntaggedSubMultiset(s[1..], tags);
      assert s == [s[0]] + s[1..];
    }
  }

  /** Exemption applied twice drops nothing more. */
  lemma {:induction false} UntaggedIdempotent<T>(s: seq<T>, tags: T -> seq<Tag>)
    ensures Untagged(Untagged(s, tags), tags) == Untagged(s, tags)
  {
    if s != [] {
      UntaggedIdempotent(s[1..], tags);
      var head := if HasRetainTag(tags(s[0])) then [] else [s[0]];
      UntaggedAppend(head, Untagged(s[1..], tags), tags);
    }
  }

  /** Filtering the objects and then reading them agrees with filtering their values. */
  lemma {:induction false} UntaggedViews(images: seq<Image>)
    ensures Views(Untagged(images, TagsOf)) == Untagged(Views(images), ViewTags)
  {
    if images != [] {
      UntaggedViews(images[1..]);
      var head := if HasRetainTag(images[0].tags) then [] else [images[0]];
      ViewsConcat(head, Untagged(images[1..], TagsOf));
      assert Views(images)[1..] == Views(images[1..]);
    }
  }

  /** The filter keeps distinct objects distinct. */
  lemma {:induction false} UntaggedDistinct(images: seq<Image>)
    requires Distinct(images)
    ensures Distinct(Untagged(images, TagsOf))
  {
    if images != [] {
      UntaggedDistinct(images[1..]);
      UntaggedMembership(images[1..], TagsOf, images[0]);
      assert images[0] !in images[1..];
    }
  }

  /**
   * `remove_tagged_images`: the sub-list of images with no `Retain` tag; the
   * images themselves are not touched.
   */
  method RemoveTaggedImages(imageList: seq<Image>) returns (untaggedList: seq<Image>)
    ensures untaggedList == Untagged(imageList, TagsOf)
  {
    untaggedList := [];
    for i := 0 to |imageList|
      invariant untaggedList == Untagged(imageList[..i], TagsOf)
    {
      var image := imageList[i];
      var tagged := false;
      for j := 0 to |image.tags|
        invariant tagged <==> HasRetainTag(image.tags[..j])
      {
        if image.tags[j].key == RetainKey {
          tagged := true;
        }
        assert image.tags[..j + 1][j] == image.tags[j];
      }
      assert image.tags[..|image.tags|] == image.tags;
      assert imageList[..i + 1] == imageList[..i] + [image];
      UntaggedAppend(imageList[..i], [image], TagsOf);
      if tagged == false {
        untaggedList := untaggedList + [image];
      }
    }
    assert imageList[..|imageList|] == imageList;
  }
}

/**
 * The records the script works on: the raw image descriptions returned by
 * `describe_images`, and the `Image` helper objects built from them.
 */
module Images {
  import opened Outcomes

  datatype Tag = Tag(key: string, value: string)

  /** The `Ebs` part of a block-device mapping. */
  datatype Ebs = Ebs(snapshotId: string)

  /** A block-device mapping; `ebs` is `None` when the mapping has no `Ebs` key. */
  datatype BlockDeviceMapping = BlockDeviceMapping(ebs: Option<Ebs>)

  /** The value of one raw image description; `tags` is `None` when the key `Tags` is absent. */
  datatype RawImage = RawImage(
    name: string,
    creationDate: string,
    imageId: string,
    tags: Option<seq<Tag>>,
    blockDeviceMappings: seq<BlockDeviceMapping>)

  /**
   * One raw image description as the script holds it: a dictionary that
   * discovery may update in place by adding an empty `Tags` list.
   */
  class Description {
    const name: string
    const creationDate: string
    const imageId: string
    var tags: Option<seq<Tag>>
    const blockDeviceMappings: seq<BlockDeviceMapping>

    constructor (raw: RawImage)
      ensures View() == raw
    {
      name := raw.name;
      creationDate := raw.creationDate;
      imageId := raw.imageId;
      tags := raw.tags;
      blockDeviceMappings := raw.blockDeviceMappings;
    }

    function View(): RawImage
      reads this
    {
      RawImage(name, creationDate, imageId, tags, blockDeviceMappings)
    }
  }

  /** The value of an `Image` object, its `delete` flag included. */
  datatype ImageView = ImageView(
    name: string,
    created: string,
    tags: seq<Tag>,
    id: string,
    snapshots: seq<string>,
    delete: bool)

  /**
   * The helper record for one matching image. Only `delete` is ever
   * assigned after construction.
   */
  class Image {
    const name: string
    const created: string
    const tags: seq<Tag>
    const id: string
    const snapshots: seq<string>
    var delete: bool

    /** A new record starts out marked for deletion. */
    constructor (name: string, created: string, tags: seq<Tag>, id: string, snapshots: seq<string>)
      ensures View() == ImageView(name, created, tags, id, snapshots, true)
    {
      this.name := name;
      this.created := created;
      this.tags := tags;
      this.id := id;
      this.snapshots := snapshots;
      this.delete := true;
    }

    function View(): ImageView
      reads this
    {
      ImageView(name, created, tags, id, snapshots, delete)
    }
  }

  /** The sort key `image.created` of an object. */
  function Created(image: Image): string
  {
    image.created
  }

  /** The sort key of a value. */
  function ViewCreated(v: ImageView): string
  {
    v.created
  }

  /** The tags of an object. */
  function TagsOf(image: Image): seq<Tag>
  {
    image.tags
  }

  /** The tags of a value. */
  function ViewTags(v: ImageView): seq<Tag>
  {
    v.tags
  }

  /** The values of a list of descriptions, in list order. */
  function RawViews(ds: seq<Description>): (r: seq<RawImage>)
    reads set d | d in ds
    ensures |r| == |ds|
    ensures forall i :: 0 <= i < |ds| ==> r[i] == ds[i].View()
  {
    seq(|ds|, i requires 0 <= i < |ds| reads set d | d in ds => ds[i].View())
  }

  /** The values of a list of images, in list order. */
  function Views(images: seq<Image>): (r: seq<ImageView>)
    reads set img | img in images
    ensures |r| == |images|
    ensures forall i :: 0 <= i < |images| ==> r[i] == images[i].View()
  {
    seq(|images|, i requires 0 <= i < |images| reads set img | img in images => images[i].View())
  }

  /** No object occurs twice in the list. */
  ghost predicate Distinct(images: seq<Image>)
  {
    forall i, j :: 0 <= i < j < |images| ==> images[i] != images[j]
  }

  lemma ViewsConcat(a: seq<Image>, b: seq<Image>)
    ensures Views(a + b) == Views(a) + Views(b)
  {
  }

  lemma ViewsCons(img: Image, images: seq<Image>)
    ensures Views([img] + images) == [img.View()] + Views(images)
  {
  }

  lemma ViewsTail(images: seq<Image>)
    requires images != []
    ensures Views(images)[1..] == Views(images[1..])
  {
  }

  lemma ViewsAppend(images: seq<Image>, img: Image)
    ensures Views(images + [img]) == Views(images) + [img.View()]
  {
  }
}

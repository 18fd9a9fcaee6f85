/**
 * CompliantPost: one published post being brought into line with the media
 * library. Its `<img>` nodes are the post's DOM as far as the fix touches it;
 * one pass rewrites the `alt` of every image whose media-library text is
 * truthy and differs, and counts every image as updated or skipped (and,
 * when it has no text from anywhere, as missing).
 */
module CompliantPosts {
  import opened Wrappers
  import opened PhpText
  import opened MediaLibrary
  import opened EmbeddedImages

  /** `updates_counter`: alt-updated, alt-skipped, alt-missing. */
  datatype Counters = Counters(updated: nat, skipped: nat, missing: nat)

  datatype CounterKey = AltUpdated | AltSkipped | AltMissing

  /** What `wp_update_post` reports: success, or a WP_Error carrying its messages. */
  datatype PersistOutcome = Persisted | PersistFailed(messages: seq<string>)

  /**
   * A published post as fetched: its `<img>` nodes in document order, how its
   * DOM serialises for a given state of those nodes (DOMDocument's `saveXML`
   * after the wrapper is removed), and what saving it will report.
   */
  datatype PostRecord = PostRecord(
    id: int,
    title: string,
    content: string,
    imgs: seq<ImgNode>,
    serialize: seq<ImgNode> -> string,
    persist: PersistOutcome)

  /** `counts()`: the survey figures of one post. */
  datatype PostCounts = PostCounts(
    mediaImages: nat,
    mediaImagesSansAlt: nat,
    embeddedImages: nat,
    embeddedImagesSansAlt: nat,
    embeddedImagesSansMedia: nat)

  const ZeroCounters := Counters(0, 0, 0)

  function AddCounters(a: Counters, b: Counters): Counters {
    Counters(a.updated + b.updated, a.skipped + b.skipped, a.missing + b.missing)
  }

  /** `log_update($type)`: one more on the named counter. */
  function Increment(c: Counters, key: CounterKey): Counters {
    match key
    case AltUpdated => c.(updated := c.updated + 1)
    case AltSkipped => c.(skipped := c.skipped + 1)
    case AltMissing => c.(missing := c.missing + 1)
  }

  function PersistErrors(p: PersistOutcome): seq<string> {
    match p
    case Persisted => []
    case PersistFailed(messages) => messages
  }

  // ---------------------------------------------------------------------------
  // The reconciliation of one image, and of a sequence of images
  // ---------------------------------------------------------------------------

  /** What one pass does with one image. */
  datatype Decision =
    | Rewrite(text: string)   // alt set to the library text; alt-updated
    | AlreadySet              // library text equals the alt; alt-skipped
    | NoText(missing: bool)   // no library text; alt-skipped, and alt-missing when the own alt is falsy

  function Decide(img: EmbeddedImage): Decision {
    match AltTextFromMediaLibrary(img)
    case Some(text) => if text != img.altText then Rewrite(text) else AlreadySet
    case None => NoText(!Truthy(img.altText))
  }

  /** The counter increments of one decision. */
  function Bump(c: Counters, d: Decision): Counters {
    match d
    case Rewrite(_) => Increment(c, AltUpdated)
    case AlreadySet => Increment(c, AltSkipped)
    case NoText(missing) =>
      if missing then Increment(Increment(c, AltSkipped), AltMissing) else Increment(c, AltSkipped)
  }

  /** The counter increments of a pass over `imgs`, in order. */
  function Tally(imgs: seq<EmbeddedImage>): Counters
    decreases |imgs|
  {
    if imgs == [] then ZeroCounters else Bump(Tally(imgs[..|imgs| - 1]), Decide(imgs[|imgs| - 1]))
  }

  /** The images a pass appends to `embedded_images_sans_alt`, in order. */
  function SansAlt(imgs: seq<EmbeddedImage>): seq<EmbeddedImage>
    decreases |imgs|
  {
    if imgs == [] then []
    else SansAlt(imgs[..|imgs| - 1]) + (if Decide(imgs[|imgs| - 1]) == NoText(true) then [imgs[|imgs| - 1]] else [])
  }

  /** `$node->setAttribute('alt', $text)` on the node at index `i`. */
  function SetAlt(dom: seq<ImgNode>, i: nat, text: string): seq<ImgNode> {
    if i < |dom| then dom[i := dom[i].(alt := text)] else dom
  }

  /** The `<img>` nodes after a pass over `imgs`. */
  function Rewritten(dom: seq<ImgNode>, imgs: seq<EmbeddedImage>): seq<ImgNode>
    decreases |imgs|
  {
    if imgs == [] then dom
    else
      var before := Rewritten(dom, imgs[..|imgs| - 1]);
      var last := imgs[|imgs| - 1];
      match Decide(last)
      case Rewrite(text) => SetAlt(before, last.node, text)
      case _ => before
  }

  /** Some image of `imgs` gets its alt rewritten (`$post_updated`). */
  predicate AnyRewrite(imgs: seq<EmbeddedImage>) {
    exists k :: 0 <= k < |imgs| && Decide(imgs[k]).Rewrite?
  }

  /** The images of `imgs` whose src is external, in order. */
  function ExternalOf(imgs: seq<EmbeddedImage>): seq<EmbeddedImage>
    decreases |imgs|
  {
    if imgs == [] then []
    else ExternalOf(imgs[..|imgs| - 1]) + (if HasExternalSrc(imgs[|imgs| - 1].src) then [imgs[|imgs| - 1]] else [])
  }

  /** The embedded images of a post's nodes: image `i` is node `i`. */
  function EmbedAll(nodes: seq<ImgNode>, post: PostRef, lib: Library, media: seq<MediaImage>): (imgs: seq<EmbeddedImage>)
    ensures |imgs| == |nodes|
  {
    seq(|nodes|, i requires 0 <= i < |nodes| => NewEmbeddedImage(nodes[i], i, post, lib, media))
  }

  /** The media images of a post: one per attachment child. */
  function MediaOf(children: seq<AttachmentPost>, altMeta: map<int, string>): (media: seq<MediaImage>)
    ensures |media| == |children|
  {
    seq(|children|, i requires 0 <= i < |children| => NewMediaImage(children[i], altMeta))
  }

  function ChildrenOf(lib: Library, postId: int): seq<AttachmentPost> {
    if postId in lib.children then lib.children[postId] else []
  }

  /** How many elements satisfy `p`, counted from the front. */
  function CountWhere<T>(xs: seq<T>, p: T -> bool): nat
    decreases |xs|
  {
    if xs == [] then 0
    else CountWhere(xs[..|xs| - 1], p) + (if p(xs[|xs| - 1]) then 1 else 0)
  }

  /** The count is the size of the set of positions whose element satisfies `p`. */
  lemma {:induction false} CountWhereIndices<T>(xs: seq<T>, p: T -> bool, positions: set<int>)
    requires forall i :: i in positions <==> 0 <= i < |xs| && p(xs[i])
    ensures CountWhere(xs, p) == |positions|
    decreases |xs|
  {
    if xs == [] {
      assert forall i :: i !in positions;
      assert positions == {};
    } else {
      var init := xs[..|xs| - 1];
      var last := |xs| - 1;
      assert forall i :: 0 <= i < |init| ==> init[i] == xs[i];
      var before := positions - {last};
      CountWhereIndices(init, p, before);
      if p(xs[last]) {
        assert positions == before + {last};
      } else {
        assert positions == before;
      }
    }
  }

  /** `media-images-sans-alt`: the media images whose alt text is `''`. */
  function CountMediaSansAlt(media: seq<MediaImage>): (n: nat)
    ensures n == |set i | 0 <= i < |media| && media[i].altText == ""|
  {
    CountWhereIndices(media, (m: MediaImage) => m.altText == "", set i | 0 <= i < |media| && media[i].altText == "");
    CountWhere(media, (m: MediaImage) => m.altText == "")
  }

  /** `embedded-images-sans-alt`: the embedded images whose own alt is `''`. */
  function CountEmbeddedSansAlt(imgs: seq<EmbeddedImage>): (n: nat)
    ensures n == |set i | 0 <= i < |imgs| && imgs[i].altText == ""|
  {
    CountWhereIndices(imgs, (e: EmbeddedImage) => e.altText == "", set i | 0 <= i < |imgs| && imgs[i].altText == "");
    CountWhere(imgs, (e: EmbeddedImage) => e.altText == "")
  }

  /** `embedded-images-sans-media`: the embedded images no media image was found for. */
  function CountSansMedia(imgs: seq<EmbeddedImage>): (n: nat)
    ensures n == |set i | 0 <= i < |imgs| && imgs[i].mediaImage.None?|
  {
    CountWhereIndices(imgs, (e: EmbeddedImage) => e.mediaImage.None?, set i | 0 <= i < |imgs| && imgs[i].mediaImage.None?);
    CountWhere(imgs, (e: EmbeddedImage) => e.mediaImage.None?)
  }

  // ---------------------------------------------------------------------------
  // Building a post
  // ---------------------------------------------------------------------------

  /** `fetch_associated_media_images`: one MediaLibraryImage per attachment child, in order. */
  method FetchAssociatedMediaImages(children: seq<AttachmentPost>, altMeta: map<int, string>)
    returns (media: seq<MediaImage>)
    ensures |media| == |children|
    ensures forall i :: 0 <= i < |children| ==> media[i] == NewMediaImage(children[i], altMeta)
  {
    media := [];
    for i := 0 to |children|
      invariant |media| == i
      invariant forall j :: 0 <= j < i ==> media[j] == NewMediaImage(children[j], altMeta)
    {
      media := media + [NewMediaImage(children[i], altMeta)];
    }
  }

  /** `extract_embedded_images_from_post_content`: one EmbeddedImage per `<img>` node, in document order. */
  method ExtractEmbeddedImages(nodes: seq<ImgNode>, post: PostRef, lib: Library, media: seq<MediaImage>)
    returns (imgs: seq<EmbeddedImage>)
    ensures |imgs| == |nodes|
    ensures forall i :: 0 <= i < |nodes| ==>
      imgs[i].node == i && imgs[i].altText == nodes[i].alt && imgs[i].src == nodes[i].src &&
      imgs[i].mediaImage == FetchMediaLibraryImage(nodes[i].cls, nodes[i].src, lib, media)
    ensures imgs == EmbedAll(nodes, post, lib, media)
  {
    imgs := [];
    for i := 0 to |nodes|
      invariant |imgs| == i
      invariant forall j :: 0 <= j < i ==> imgs[j] == NewEmbeddedImage(nodes[j], j, post, lib, media)
    {
      imgs := imgs + [NewEmbeddedImage(nodes[i], i, post, lib, media)];
    }
  }

  class CompliantPost {
    const id: int
    const title: string
    const blogId: int
    const blogPath: string
    const serialize: seq<ImgNode> -> string
    const persist: PersistOutcome
    const mediaImages: seq<MediaImage>
    const embeddedImages: seq<EmbeddedImage>

    var content: string
    var dom: seq<ImgNode>
    var updatesCounter: Counters
    var embeddedImagesSansAlt: seq<EmbeddedImage>
    var errors: seq<string>

    /** Embedded image `i` is the `i`-th `<img>` node. */
    ghost predicate Valid()
      reads this
    {
      |dom| == |embeddedImages| && forall i :: 0 <= i < |embeddedImages| ==> embeddedImages[i].node == i
    }

    /** `new CompliantPost($wp_post)` on blog `blogId`; media images are fetched before images are extracted. */
    constructor (post: PostRecord, blogId: int, blogPath: string, lib: Library)
      ensures Valid()
      ensures id == post.id && title == post.title && this.blogId == blogId && this.blogPath == blogPath
      ensures serialize == post.serialize && persist == post.persist
      ensures content == post.content && dom == post.imgs
      ensures mediaImages == MediaOf(ChildrenOf(lib, post.id), lib.altMeta)
      ensures embeddedImages == EmbedAll(post.imgs, PostRef(blogId, blogPath, post.id, post.title), lib, mediaImages)
      ensures updatesCounter == ZeroCounters && embeddedImagesSansAlt == [] && errors == []
    {
      var media := FetchAssociatedMediaImages(ChildrenOf(lib, post.id), lib.altMeta);
      var imgs := ExtractEmbeddedImages(post.imgs, PostRef(blogId, blogPath, post.id, post.title), lib, media);
      id, title, this.blogId, this.blogPath := post.id, post.title, blogId, blogPath;
      serialize, persist := post.serialize, post.persist;
      content, dom := post.content, post.imgs;
      mediaImages, embeddedImages := media, imgs;
      updatesCounter, embeddedImagesSansAlt, errors := ZeroCounters, [], [];
    }

    /** `log_update($type)`. */
    method LogUpdate(key: CounterKey)
      modifies this`updatesCounter
      ensures updatesCounter == Increment(old(updatesCounter), key)
    {
      updatesCounter := Increment(updatesCounter, key);
    }

    /** `log_error($error)`. */
    method LogError(error: string)
      modifies this`errors
      ensures errors == old(errors) + [error]
    {
      errors := errors + [error];
    }

    /**
     * `save_content`: the serialised DOM is saved and returned; every message
     * of a failed save is appended to `errors`, and the content is returned
     * either way.
     */
    method SaveContent() returns (postContent: string)
      modifies this`errors
      ensures postContent == serialize(dom)
      ensures errors == old(errors) + PersistErrors(persist)
    {
      postContent := serialize(dom);
      if persist.PersistFailed? {
        var messages := persist.messages;
        for i := 0 to |messages|
          invariant errors == old(errors) + messages[..i]
        {
          LogError(messages[i]);
          assert messages[..i + 1] == messages[..i] + [messages[i]];
        }
        assert messages[..|messages|] == messages;
      }
    }

    /**
     * The body of the pass for one image: a truthy library text that differs
     * from the alt is written to the node and counted as updated; otherwise
     * the image is skipped, and also counted missing and listed "sans alt"
     * when it has no library text and a falsy alt.
     */
    method ReconcileImage(img: EmbeddedImage) returns (rewritten: bool)
      modifies this`dom, this`updatesCounter, this`embeddedImagesSansAlt
      ensures rewritten <==> Decide(img).Rewrite?
      ensures updatesCounter == Bump(old(updatesCounter), Decide(img))
      ensures embeddedImagesSansAlt == old(embeddedImagesSansAlt) + (if Decide(img) == NoText(true) then [img] else [])
      ensures dom == (if rewritten then SetAlt(old(dom), img.node, Decide(img).text) else old(dom))
    {
      rewritten := false;
      var libraryText := AltTextFromMediaLibrary(img);
      if libraryText.Some? {
        if libraryText.value != img.altText {
          dom := SetAlt(dom, img.node, libraryText.value);
          LogUpdate(AltUpdated);
          rewritten := true;
        } else {
          LogUpdate(AltSkipped);
        }
      } else {
        LogUpdate(AltSkipped);
        if !Truthy(img.altText) {
          LogUpdate(AltMissing);
          embeddedImagesSansAlt := embeddedImagesSansAlt + [img];
        }
      }
    }

    /** The loop of the pass: every embedded image, in document order; whether some alt was rewritten. */
    method ReconcileAll() returns (postUpdated: bool)
      requires |dom| == |embeddedImages|
      modifies this`dom, this`updatesCounter, this`embeddedImagesSansAlt
      ensures |dom| == |embeddedImages|
      ensures updatesCounter == AddCounters(old(updatesCounter), Tally(embeddedImages))
      ensures embeddedImagesSansAlt == old(embeddedImagesSansAlt) + SansAlt(embeddedImages)
      ensures dom == Rewritten(old(dom), embeddedImages)
      ensures postUpdated == AnyRewrite(embeddedImages)
    {
      postUpdated := false;
      for i := 0 to |embeddedImages|
        invariant |dom| == |embeddedImages|
        invariant updatesCounter == AddCounters(old(updatesCounter), Tally(embeddedImages[..i]))
        invariant embeddedImagesSansAlt == old(embeddedImagesSansAlt) + SansAlt(embeddedImages[..i])
        invariant dom == Rewritten(old(dom), embeddedImages[..i])
        invariant postUpdated <==> Tally(embeddedImages[..i]).updated > 0
      {
        var img := embeddedImages[i];
        PassStep(old(dom), embeddedImages, i);
        BumpAfterAdd(old(updatesCounter), Tally(embeddedImages[..i]), Decide(img));
        var rewritten := ReconcileImage(img);
        postUpdated := postUpdated || rewritten;
      }
      assert embeddedImages[..|embeddedImages|] == embeddedImages;
      UpdatedIffRewrite(embeddedImages);
    }

    /**
     * `update_content_img_alt_attributes`: one pass over the embedded images
     * in document order. The counters and the "sans alt" list grow by what
     * the pass decides; the DOM holds the rewritten alts; the content is
     * re-serialised and saved only when some alt was rewritten.
     */
    method UpdateContentImgAltAttributes() returns (newContent: string)
      requires Valid()
      modifies this
      ensures Valid()
      ensures updatesCounter == AddCounters(old(updatesCounter), Tally(embeddedImages))
      ensures embeddedImagesSansAlt == old(embeddedImagesSansAlt) + SansAlt(embeddedImages)
      ensures dom == Rewritten(old(dom), embeddedImages)
      ensures AnyRewrite(embeddedImages) ==> content == serialize(dom) && errors == old(errors) + PersistErrors(persist)
      ensures !AnyRewrite(embeddedImages) ==> content == old(content) && errors == old(errors)
      ensures newContent == content
    {
      var postUpdated := ReconcileAll();
      if postUpdated {
        content := SaveContent();
      }
      newContent := content;
    }

    /** `counts()`: media images and embedded images, with and without alt text or media. */
    method Counts() returns (c: PostCounts)
      ensures c == PostCounts(
        |mediaImages|, CountMediaSansAlt(mediaImages),
        |embeddedImages|, CountEmbeddedSansAlt(embeddedImages), CountSansMedia(embeddedImages))
    {
      var mediaSansAlt := 0;
      for i := 0 to |mediaImages|
        invariant mediaSansAlt == CountMediaSansAlt(mediaImages[..i])
      {
        assert mediaImages[..i + 1][..i] == mediaImages[..i];
        if mediaImages[i].altText == "" {
          mediaSansAlt := mediaSansAlt + 1;
        }
      }
      assert mediaImages[..|mediaImages|] == mediaImages;
      var sansAlt, sansMedia := 0, 0;
      for i := 0 to |embeddedImages|
        invariant sansAlt == CountEmbeddedSansAlt(embeddedImages[..i])
        invariant sansMedia == CountSansMedia(embeddedImages[..i])
      {
        assert embeddedImages[..i + 1][..i] == embeddedImages[..i];
        if embeddedImages[i].altText == "" {
          sansAlt := sansAlt + 1;
        }
        if embeddedImages[i].mediaImage.None? {
          sansMedia := sansMedia + 1;
        }
      }
      assert embeddedImages[..|embeddedImages|] == embeddedImages;
      c := PostCounts(|mediaImages|, mediaSansAlt, |embeddedImages|, sansAlt, sansMedia);
    }

    /** `external_embedded_images`: the embedded images whose src is external, in order. */
    method ExternalEmbeddedImages() returns (images: seq<EmbeddedImage>)
      ensures images == ExternalOf(embeddedImages)
    {
      images := [];
      for i := 0 to |embeddedImages|
        invariant images == ExternalOf(embeddedImages[..i])
      {
        assert embeddedImages[..i + 1][..i] == embeddedImages[..i];
        if HasExternalSrc(embeddedImages[i].src) {
          images := images + [embeddedImages[i]];
        }
      }
      assert embeddedImages[..|embeddedImages|] == embeddedImages;
    }
  }

  // ---------------------------------------------------------------------------
  // Properties of a pass
  // ---------------------------------------------------------------------------

  /**
   * Every image adds exactly one to alt-updated or alt-skipped; alt-missing
   * counts a subset of the skipped ones, exactly the images put on the
   * "sans alt" list.
   */
  lemma {:induction false} TallyCoversEveryImage(imgs: seq<EmbeddedImage>)
    ensures Tally(imgs).updated + Tally(imgs).skipped == |imgs|
    ensures Tally(imgs).missing <= Tally(imgs).skipped
    ensures |SansAlt(imgs)| == Tally(imgs).missing
    decreases |imgs|
  {
    if imgs != [] {
      TallyCoversEveryImage(imgs[..|imgs| - 1]);
    }
  }

  /** An image is on the "sans alt" list exactly when it has no library text and its own alt is falsy. */
  lemma {:induction false} SansAltMembers(imgs: seq<EmbeddedImage>, x: EmbeddedImage)
    ensures x in SansAlt(imgs) <==> x in imgs && AltTextFromMediaLibrary(x).None? && !Truthy(x.altText)
    decreases |imgs|
  {
    if imgs != [] {
      var init, last := imgs[..|imgs| - 1], imgs[|imgs| - 1];
      SansAltMembers(init, x);
      assert imgs == init + [last];
    }
  }

  /** The "sans alt" list is in document order. */
  lemma {:induction false} SansAltInDocumentOrder(imgs: seq<EmbeddedImage>)
    requires forall k :: 0 <= k < |imgs| ==> imgs[k].node == k
    ensures forall i, j :: 0 <= i < j < |SansAlt(imgs)| ==> SansAlt(imgs)[i].node < SansAlt(imgs)[j].node
    ensures forall i :: 0 <= i < |SansAlt(imgs)| ==> SansAlt(imgs)[i].node < |imgs|
    decreases |imgs|
  {
    if imgs != [] {
      var init := imgs[..|imgs| - 1];
      SansAltInDocumentOrder(init);
    }
  }

  /** A pass changes node `k` only when image `k` is rewritten, and then only its alt, to the library text. */
  lemma {:induction false} RewrittenAt(dom: seq<ImgNode>, imgs: seq<EmbeddedImage>)
    requires |imgs| <= |dom|
    requires forall k :: 0 <= k < |imgs| ==> imgs[k].node == k
    ensures |Rewritten(dom, imgs)| == |dom|
    ensures forall k :: 0 <= k < |dom| ==> (Rewritten(dom, imgs)[k] ==
      if k < |imgs| && Decide(imgs[k]).Rewrite? then dom[k].(alt := Decide(imgs[k]).text) else dom[k])
    decreases |imgs|
  {
    if imgs != [] {
      var init, last := imgs[..|imgs| - 1], imgs[|imgs| - 1];
      RewrittenAt(dom, init);
      var before := Rewritten(dom, init);
      assert Rewritten(dom, imgs) == if Decide(last).Rewrite? then SetAlt(before, last.node, Decide(last).text) else before;
      forall k | 0 <= k < |init| ensures init[k].node == k {
        assert init[k] == imgs[k];
      }
    }
  }

  /** Without a rewrite, a pass leaves every node as it was. */
  lemma {:induction false} NoRewriteKeepsDom(dom: seq<ImgNode>, imgs: seq<EmbeddedImage>)
    requires !AnyRewrite(imgs)
    ensures Rewritten(dom, imgs) == dom
    decreases |imgs|
  {
    if imgs != [] {
      var init := imgs[..|imgs| - 1];
      assert !AnyRewrite(init) by {
        forall k | 0 <= k < |init| ensures !Decide(init[k]).Rewrite? { assert init[k] == imgs[k]; }
      }
      NoRewriteKeepsDom(dom, init);
    }
  }

  /** alt-updated grows exactly when some image is rewritten, i.e. exactly when the post is saved. */
  lemma {:induction false} UpdatedIffRewrite(imgs: seq<EmbeddedImage>)
    ensures Tally(imgs).updated > 0 <==> AnyRewrite(imgs)
    decreases |imgs|
  {
    if imgs != [] {
      var init, last := imgs[..|imgs| - 1], imgs[|imgs| - 1];
      UpdatedIffRewrite(init);
      if AnyRewrite(imgs) && !Decide(last).Rewrite? {
        var k :| 0 <= k < |imgs| && Decide(imgs[k]).Rewrite?;
        assert k < |init| && init[k] == imgs[k];
      }
      if AnyRewrite(init) {
        var k :| 0 <= k < |init| && Decide(init[k]).Rewrite?;
        assert imgs[k] == init[k];
      }
    }
  }

  /** Two sequences of images that agree on every image either of them lists as "sans alt" give the same list. */
  lemma {:induction false} SansAltAgree(a: seq<EmbeddedImage>, b: seq<EmbeddedImage>)
    requires |a| == |b|
    requires forall k :: 0 <= k < |a| ==>
      (Decide(a[k]) == NoText(true) || Decide(b[k]) == NoText(true)) ==> a[k] == b[k]
    ensures SansAlt(a) == SansAlt(b)
    decreases |a|
  {
    if a != [] {
      SansAltAgree(a[..|a| - 1], b[..|b| - 1]);
    }
  }

  /** Counting onto a running total is counting onto the part and adding. */
  lemma BumpAfterAdd(a: Counters, b: Counters, d: Decision)
    ensures AddCounters(a, Bump(b, d)) == Bump(AddCounters(a, b), d)
  {
  }

  /** A pass over one more image adds that image's decision to the pass over the ones before it. */
  lemma PassStep(dom: seq<ImgNode>, imgs: seq<EmbeddedImage>, i: nat)
    requires i < |imgs|
    ensures Tally(imgs[..i + 1]) == Bump(Tally(imgs[..i]), Decide(imgs[i]))
    ensures SansAlt(imgs[..i + 1]) == SansAlt(imgs[..i]) + (if Decide(imgs[i]) == NoText(true) then [imgs[i]] else [])
    ensures Rewritten(dom, imgs[..i + 1]) ==
      if Decide(imgs[i]).Rewrite? then SetAlt(Rewritten(dom, imgs[..i]), imgs[i].node, Decide(imgs[i]).text)
      else Rewritten(dom, imgs[..i])
  {
    assert imgs[..i + 1][..i] == imgs[..i];
  }

  /** The node a pass leaves behind for one image. */
  function AfterDecision(n: ImgNode, d: Decision): ImgNode {
    if d.Rewrite? then n.(alt := d.text) else n
  }

  /** One image read again from the node a pass left behind: it is not rewritten, and it is unchanged when either reading lacks any text. */
  lemma FreshImage(n: ImgNode, k: nat, post: PostRef, lib: Library, media: seq<MediaImage>)
    ensures
      var img := NewEmbeddedImage(n, k, post, lib, media);
      var again := NewEmbeddedImage(AfterDecision(n, Decide(img)), k, post, lib, media);
      && !Decide(again).Rewrite?
      && ((Decide(img) == NoText(true) || Decide(again) == NoText(true)) ==> img == again)
  {
    var img := NewEmbeddedImage(n, k, post, lib, media);
    ResolutionIgnoresAlt(n, AfterDecision(n, Decide(img)).alt, k, post, lib, media);
    assert AfterDecision(n, Decide(img)) == n.(alt := AfterDecision(n, Decide(img)).alt);
  }

  /** Image by image, a fresh pass over the result rewrites nothing and reads the same "sans alt" images. */
  lemma FreshPassImages(nodes: seq<ImgNode>, post: PostRef, lib: Library, media: seq<MediaImage>)
    ensures
      var first := EmbedAll(nodes, post, lib, media);
      var again := EmbedAll(Rewritten(nodes, first), post, lib, media);
      && |again| == |first| == |nodes|
      && (forall k :: 0 <= k < |nodes| ==> !Decide(again[k]).Rewrite?)
      && (forall k :: 0 <= k < |nodes| ==>
            (Decide(first[k]) == NoText(true) || Decide(again[k]) == NoText(true)) ==> first[k] == again[k])
  {
    var first := EmbedAll(nodes, post, lib, media);
    var result := Rewritten(nodes, first);
    RewrittenAt(nodes, first);
    var again := EmbedAll(result, post, lib, media);
    forall k | 0 <= k < |nodes|
      ensures !Decide(again[k]).Rewrite?
      ensures (Decide(first[k]) == NoText(true) || Decide(again[k]) == NoText(true)) ==> first[k] == again[k]
    {
      assert result[k] == AfterDecision(nodes[k], Decide(first[k]));
      FreshImage(nodes[k], k, post, lib, media);
    }
  }

  /**
   * A fresh pass over the result (a new CompliantPost on the saved content,
   * with the same media library) rewrites nothing: every image is skipped,
   * the same images are reported missing, and the nodes stay as they are.
   */
  lemma FreshPassUpdatesNothing(nodes: seq<ImgNode>, post: PostRef, lib: Library, media: seq<MediaImage>)
    ensures
      var first := EmbedAll(nodes, post, lib, media);
      var result := Rewritten(nodes, first);
      var again := EmbedAll(result, post, lib, media);
      && Tally(again) == Counters(0, |nodes|, Tally(first).missing)
      && SansAlt(again) == SansAlt(first)
      && Rewritten(result, again) == result
  {
    var first := EmbedAll(nodes, post, lib, media);
    var result := Rewritten(nodes, first);
    var again := EmbedAll(result, post, lib, media);
    FreshPassImages(nodes, post, lib, media);
    assert !AnyRewrite(again);
    NoRewriteKeepsDom(result, again);
    UpdatedIffRewrite(again);
    SansAltAgree(first, again);
    TallyCoversEveryImage(first);
    TallyCoversEveryImage(again);
  }

  /**
   * Calling the update twice on the same object rewrites the same nodes to
   * the same values, yet counts every rewrite again: the embedded images keep
   * the alt they read at construction.
   */
  lemma SecondCallRecounts(dom: seq<ImgNode>, imgs: seq<EmbeddedImage>)
    requires |imgs| == |dom|
    requires forall k :: 0 <= k < |imgs| ==> imgs[k].node == k
    ensures Rewritten(Rewritten(dom, imgs), imgs) == Rewritten(dom, imgs)
    ensures AnyRewrite(imgs) ==> Tally(imgs).updated > 0
  {
    RewrittenAt(dom, imgs);
    RewrittenAt(Rewritten(dom, imgs), imgs);
    UpdatedIffRewrite(imgs);
  }

  /**
   * The update called twice on one object: the nodes end as one call leaves
   * them, yet the counters grow by the pass's tally twice, so every rewrite
   * is counted again.
   */
  method UpdateTwice(post: CompliantPost) returns (first: string, second: string)
    requires post.Valid()
    modifies post
    ensures post.Valid()
    ensures post.updatesCounter ==
      AddCounters(AddCounters(old(post.updatesCounter), Tally(post.embeddedImages)), Tally(post.embeddedImages))
    ensures post.dom == Rewritten(old(post.dom), post.embeddedImages)
    ensures AnyRewrite(post.embeddedImages) ==> post.updatesCounter.updated >= old(post.updatesCounter.updated) + 2
  {
    first := post.UpdateContentImgAltAttributes();
    second := post.UpdateContentImgAltAttributes();
    SecondCallRecounts(old(post.dom), post.embeddedImages);
  }

  /** An image is reported external exactly when its src lacks the local uploads marker. */
  lemma {:induction false} ExternalOfMembers(imgs: seq<EmbeddedImage>, x: EmbeddedImage)
    ensures x in ExternalOf(imgs) <==> x in imgs && HasExternalSrc(x.src)
    decreases |imgs|
  {
    if imgs != [] {
      var init, last := imgs[..|imgs| - 1], imgs[|imgs| - 1];
      ExternalOfMembers(init, x);
      assert imgs == init + [last];
    }
  }

  /** The image of the example post resolves, by its class, to attachment 7 and takes its alt text. */
  lemma ExampleDogImage(lib: Library, post: PostRef, src: string)
    requires 7 in lib.posts && lib.posts[7].id == 7
    requires 7 in lib.altMeta && lib.altMeta[7] == "A dog"
    ensures Decide(NewEmbeddedImage(ImgNode("", src, "wp-image-7"), 0, post, lib, [])) == Rewrite("A dog")
  {
    assert "wp-image-7" == PostIdPrefix + NatToString(7);
    SingleClassToken(7);
    assert ClassTierHit("wp-image-7", lib);
    FetchMediaLibraryImageTiers("wp-image-7", src, lib, []);
    var img := NewEmbeddedImage(ImgNode("", src, "wp-image-7"), 0, post, lib, []);
    assert img.mediaImage == Some(NewMediaImage(lib.posts[7], lib.altMeta));
  }

  /**
   * The example post: `<img src=".../uploads/2021/05/dog.jpg" class="wp-image-7" alt="">`
   * with attachment 7 whose alt text is "A dog": the alt is rewritten to
   * "A dog" and the counters read 1 updated, 0 skipped, 0 missing.
   */
  lemma ExampleDogPost(lib: Library, post: PostRef)
    requires 7 in lib.posts && lib.posts[7].id == 7
    requires 7 in lib.altMeta && lib.altMeta[7] == "A dog"
    ensures
      var nodes := [ImgNode("", "https://host/uploads/2021/05/dog.jpg", "wp-image-7")];
      var imgs := EmbedAll(nodes, post, lib, []);
      && Tally(imgs) == Counters(1, 0, 0)
      && Rewritten(nodes, imgs) == [ImgNode("A dog", "https://host/uploads/2021/05/dog.jpg", "wp-image-7")]
  {
    var src := "https://host/uploads/2021/05/dog.jpg";
    ExampleDogImage(lib, post, src);
    var nodes := [ImgNode("", src, "wp-image-7")];
    var img := NewEmbeddedImage(nodes[0], 0, post, lib, []);
    var imgs := EmbedAll(nodes, post, lib, []);
    assert imgs == [img];
    assert imgs[..0] == [];
  }
}

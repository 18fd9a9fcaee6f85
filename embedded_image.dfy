/**
 * EmbeddedImage: one `<img>` of a post's content, resolved to a media-library
 * image by its `wp-image-<id>` class token or, failing that, by the first
 * media image whose `embed_id` occurs in its `src`.
 */
module EmbeddedImages {
  import opened Wrappers
  import opened PhpText
  import opened MediaLibrary

  /** The attributes of an `<img>` node that the script reads; a missing attribute reads as "". */
  datatype ImgNode = ImgNode(alt: string, src: string, cls: string)

  /** The post an embedded image belongs to, as far as the reports use it. */
  datatype PostRef = PostRef(blogId: int, blogPath: string, postId: int, title: string)

  /**
   * An embedded image: the index of its node among the post's `<img>` nodes
   * (document order), its `alt` and `src` as read at construction, and the
   * media image it resolved to.
   */
  datatype EmbeddedImage = EmbeddedImage(
    node: nat,
    altText: string,
    src: string,
    mediaImage: Option<MediaImage>,
    post: PostRef)

  /**
   * What WordPress answers on the current blog: `get_post` by id, the
   * `_wp_attachment_image_alt` post meta, and `get_children` (the image
   * attachments of a post, in the order returned).
   */
  datatype Library = Library(
    posts: map<int, AttachmentPost>,
    altMeta: map<int, string>,
    children: map<int, seq<AttachmentPost>>)

  const PostIdPrefix := "wp-image-"
  const LocalMarker := "/wp-content/uploads"

  /** The index of the first token starting with `prefix`. */
  function FirstWithPrefix(tokens: seq<string>, prefix: string): (r: Option<nat>)
    ensures r.Some? ==> r.value < |tokens| && StartsWith(tokens[r.value], prefix)
    ensures r.Some? ==> forall j :: 0 <= j < r.value ==> !StartsWith(tokens[j], prefix)
    ensures r.None? ==> forall j :: 0 <= j < |tokens| ==> !StartsWith(tokens[j], prefix)
  {
    if tokens == [] then None
    else if StartsWith(tokens[0], prefix) then Some(0)
    else match FirstWithPrefix(tokens[1..], prefix)
      case None => None
      case Some(k) => Some(k + 1)
  }

  /** The whitespace-separated tokens of a class attribute. */
  function ClassTokens(cls: string): seq<string> {
    SplitWs(Trim(cls))
  }

  /** `v` is what some "wp-image-" token of the class reads as. */
  predicate ReadFromSomeToken(cls: string, v: int) {
    exists k :: 0 <= k < |ClassTokens(cls)| && StartsWith(ClassTokens(cls)[k], PostIdPrefix) &&
      v == IntCast(RemoveAll(ClassTokens(cls)[k], PostIdPrefix))
  }

  /**
   * `extract_post_id_from_class`: `null` for a falsy class attribute or when
   * no token starts with "wp-image-"; otherwise the first such token with every
   * "wp-image-" removed, cast with `(int)`.
   */
  function ExtractPostIdFromClass(cls: string): (id: Option<int>)
    ensures !Truthy(cls) ==> id.None?
    ensures id.Some? ==> ReadFromSomeToken(cls, id.value)
  {
    if !Truthy(cls) then None
    else
      var tokens := ClassTokens(cls);
      match FirstWithPrefix(tokens, PostIdPrefix)
      case None => None
      case Some(k) => Some(IntCast(RemoveAll(tokens[k], PostIdPrefix)))
  }

  /**
   * A falsy class gives no id; otherwise an id is read exactly when some token
   * starts with "wp-image-", and it is read from the first such token.
   */
  lemma ExtractPostIdFromClassReadsFirstToken(cls: string)
    ensures !Truthy(cls) ==> ExtractPostIdFromClass(cls).None?
    ensures Truthy(cls) ==> (ExtractPostIdFromClass(cls).Some? <==>
      exists k :: 0 <= k < |ClassTokens(cls)| && StartsWith(ClassTokens(cls)[k], PostIdPrefix))
    ensures ExtractPostIdFromClass(cls).Some? ==> exists k :: (
      && 0 <= k < |ClassTokens(cls)|
      && StartsWith(ClassTokens(cls)[k], PostIdPrefix)
      && (forall j :: 0 <= j < k ==> !StartsWith(ClassTokens(cls)[j], PostIdPrefix))
      && ExtractPostIdFromClass(cls).value == IntCast(RemoveAll(ClassTokens(cls)[k], PostIdPrefix)))
  {
    if Truthy(cls) {
      var tokens := ClassTokens(cls);
      match FirstWithPrefix(tokens, PostIdPrefix)
      case None =>
      case Some(k) =>
        assert StartsWith(tokens[k], PostIdPrefix);
    }
  }

  /** A decimal is made of digits and a minus sign. */
  lemma IntToStringChars(i: int)
    ensures forall m :: 0 <= m < |IntToString(i)| ==> IsDigit(IntToString(i)[m]) || IntToString(i)[m] == '-'
  {
    var s := IntToString(i);
    if i < 0 {
      forall m | 1 <= m < |s| ensures IsDigit(s[m]) { assert s[m] == NatToString(-i)[m - 1]; }
    }
  }

  lemma IntToStringHasNoPrefix(i: int)
    ensures !Contains(IntToString(i), PostIdPrefix)
  {
    var s := IntToString(i);
    IntToStringChars(i);
    forall j: nat | j <= |s|
      ensures !OccursAt(s, PostIdPrefix, j)
    {
      if j + |PostIdPrefix| <= |s| {
        assert s[j..j + |PostIdPrefix|][0] == s[j];
      }
    }
  }

  /** The first token with the prefix is found past every token before it that lacks the prefix. */
  lemma FirstWithPrefixAt(before: seq<string>, t: string, after: seq<string>, prefix: string)
    requires StartsWith(t, prefix)
    requires forall j :: 0 <= j < |before| ==> !StartsWith(before[j], prefix)
    ensures FirstWithPrefix(before + [t] + after, prefix) == Some(|before|)
  {
    var tokens := before + [t] + after;
    assert tokens[|before|] == t;
  }

  /** A "wp-image-<n>" token reads back as `n`. */
  lemma PrefixedIdReadsBack(n: int)
    ensures IntCast(RemoveAll(PostIdPrefix + IntToString(n), PostIdPrefix)) == n
  {
    IntToStringHasNoPrefix(n);
    RemoveLeading(PostIdPrefix, IntToString(n));
    IntCastRoundTrip(n);
  }

  /**
   * The first `wp-image-<n>` token decides: whatever tokens follow it, and
   * whatever tokens without the prefix precede it, the id read is `n`.
   */
  lemma ClassIdFromFirstToken(cls: string, before: seq<string>, n: int, after: seq<string>)
    requires Truthy(cls)
    requires ClassTokens(cls) == before + [PostIdPrefix + IntToString(n)] + after
    requires forall j :: 0 <= j < |before| ==> !StartsWith(before[j], PostIdPrefix)
    ensures ExtractPostIdFromClass(cls) == Some(n)
  {
    var t := PostIdPrefix + IntToString(n);
    assert StartsWith(t, PostIdPrefix);
    FirstWithPrefixAt(before, t, after, PostIdPrefix);
    PrefixedIdReadsBack(n);
  }

  lemma PrefixHasNoSpace(k: nat)
    requires k < |PostIdPrefix|
    ensures !IsPcreSpace(PostIdPrefix[k])
  {
    assert PostIdPrefix[k] in {'w', 'p', '-', 'i', 'm', 'a', 'g', 'e'};
  }

  /** A class without whitespace, whose ends `trim` keeps, is a single token. */
  lemma OneClassToken(cls: string)
    requires cls != "" && !IsTrimChar(cls[0]) && !IsTrimChar(cls[|cls| - 1])
    requires forall k :: 0 <= k < |cls| ==> !IsPcreSpace(cls[k])
    ensures ClassTokens(cls) == [cls]
  {
    TrimNoop(cls);
    SplitWsNoSpace(cls);
  }

  lemma NoSpaceConcat(a: string, b: string)
    requires forall k :: 0 <= k < |a| ==> !IsPcreSpace(a[k])
    requires forall k :: 0 <= k < |b| ==> !IsPcreSpace(b[k])
    ensures forall k :: 0 <= k < |a + b| ==> !IsPcreSpace((a + b)[k])
  {
    forall k | 0 <= k < |a + b| ensures !IsPcreSpace((a + b)[k]) {
      if k >= |a| {
        assert (a + b)[k] == b[k - |a|];
      }
    }
  }

  /** "wp-image-" followed by digits is one whitespace-free token that `trim` leaves alone. */
  lemma PrefixedDigitsOneToken(d: string)
    requires AllDigits(d) && d != ""
    ensures ClassTokens(PostIdPrefix + d) == [PostIdPrefix + d]
  {
    forall k | 0 <= k < |PostIdPrefix| ensures !IsPcreSpace(PostIdPrefix[k]) {
      PrefixHasNoSpace(k);
    }
    NoSpaceConcat(PostIdPrefix, d);
    var cls := PostIdPrefix + d;
    assert cls[0] == PostIdPrefix[0] && cls[|cls| - 1] == d[|d| - 1];
    OneClassToken(cls);
  }

  /** "wp-image-<n>" is a plain class token. */
  lemma PrefixedIdPlain(n: int)
    ensures IsPlainToken(PostIdPrefix + IntToString(n))
  {
    var t := PostIdPrefix + IntToString(n);
    IntToStringChars(n);
    forall k | 0 <= k < |t| ensures !IsPcreSpace(t[k]) && !IsTrimChar(t[k]) {
      if k < |PostIdPrefix| {
        assert t[k] in {'w', 'p', '-', 'i', 'm', 'a', 'g', 'e'};
      } else {
        assert t[k] == IntToString(n)[k - |PostIdPrefix|];
      }
    }
  }

  /** A class attribute of plain tokens joined by single spaces reads back as those tokens. */
  lemma ClassOfPlainTokens(tokens: seq<string>)
    requires tokens != [] && forall j :: 0 <= j < |tokens| ==> IsPlainToken(tokens[j])
    ensures ClassTokens(Implode(tokens, " ")) == tokens
  {
    var cls := Implode(tokens, " ");
    assert forall j :: 0 <= j < |tokens| ==> tokens[j] != [];
    ImplodeStartsWithFirst(tokens, " ");
    assert !IsTrimChar(tokens[0][0]) && !IsTrimChar(tokens[|tokens| - 1][|tokens[|tokens| - 1]| - 1]);
    TrimNoop(cls);
    SplitWsImplode(tokens);
  }

  /**
   * In a class attribute of plain tokens joined by spaces, such as
   * "alignnone size-full wp-image-42", the first "wp-image-<n>" token names
   * post `n`, whatever tokens without the prefix precede it and whatever
   * tokens follow it.
   */
  lemma ClassIdAmongTokens(before: seq<string>, n: int, after: seq<string>)
    requires forall j :: 0 <= j < |before| ==> IsPlainToken(before[j]) && !StartsWith(before[j], PostIdPrefix)
    requires forall j :: 0 <= j < |after| ==> IsPlainToken(after[j])
    ensures ExtractPostIdFromClass(Implode(before + [PostIdPrefix + IntToString(n)] + after, " ")) == Some(n)
  {
    var t := PostIdPrefix + IntToString(n);
    var tokens := before + [t] + after;
    var cls := Implode(tokens, " ");
    PrefixedIdPlain(n);
    PlainAround(before, t, after);
    ClassOfPlainTokens(tokens);
    assert tokens[|before|] == t;
    ImplodeHoldsEachPart(tokens, " ", |before|);
    ClassIdFromFirstToken(cls, before, n, after);
  }

  lemma PlainAround(before: seq<string>, t: string, after: seq<string>)
    requires forall j :: 0 <= j < |before| ==> IsPlainToken(before[j])
    requires IsPlainToken(t)
    requires forall j :: 0 <= j < |after| ==> IsPlainToken(after[j])
    ensures forall j :: 0 <= j < |before + [t] + after| ==> IsPlainToken((before + [t] + after)[j])
  {
    var tokens := before + [t] + after;
    forall j | 0 <= j < |tokens| ensures IsPlainToken(tokens[j]) {
      if j < |before| { assert tokens[j] == before[j]; }
      else if j > |before| { assert tokens[j] == after[j - |before| - 1]; }
    }
  }

  /** The class WordPress gives a full-size image names its attachment. */
  lemma FullSizeImageClass()
    ensures ExtractPostIdFromClass("alignnone size-full wp-image-42") == Some(42)
  {
    var before := ["alignnone", "size-full"];
    LiteralTokens();
    ClassIdAmongTokens(before, 42, []);
    ClassLiteral();
  }

  lemma LiteralTokens()
    ensures IsPlainToken("alignnone") && !StartsWith("alignnone", PostIdPrefix)
    ensures IsPlainToken("size-full") && !StartsWith("size-full", PostIdPrefix)
  {
    assert "alignnone"[..|PostIdPrefix|][0] == 'a';
    assert "size-full"[..|PostIdPrefix|][0] == 's';
  }

  lemma ClassLiteral()
    ensures Implode(["alignnone", "size-full"] + [PostIdPrefix + IntToString(42)] + [], " ") == "alignnone size-full wp-image-42"
  {
    assert IntToString(42) == "42";
    var tokens := ["alignnone", "size-full", "wp-image-42"];
    assert PostIdPrefix + "42" == "wp-image-42";
    assert ["alignnone", "size-full"] + [PostIdPrefix + "42"] + [] == tokens;
    assert tokens[1..][1..] == ["wp-image-42"];
    assert Implode(tokens[1..], " ") == "size-full" + " " + "wp-image-42";
  }

  /** A class that is a single "wp-image-<n>" token names post `n`. */
  lemma SingleClassToken(n: nat)
    ensures ExtractPostIdFromClass(PostIdPrefix + NatToString(n)) == Some(n)
  {
    var d := NatToString(n);
    assert IntToString(n) == d;
    PrefixedDigitsOneToken(d);
    assert [PostIdPrefix + d] == [] + [PostIdPrefix + IntToString(n)] + [];
    ClassIdFromFirstToken(PostIdPrefix + d, [], n, []);
  }

  /** PHP 7's `strpos($src, $embed_id) !== false`: a null or empty needle never matches. */
  predicate EmbedMatches(src: string, embedId: Option<string>) {
    embedId.Some? && embedId.value != "" && Contains(src, embedId.value)
  }

  /** The index of the first media image whose `embed_id` occurs in `src`. */
  function FirstEmbedMatch(src: string, media: seq<MediaImage>): (r: Option<nat>)
    ensures r.Some? ==> r.value < |media| && EmbedMatches(src, media[r.value].embedId)
    ensures r.Some? ==> forall j :: 0 <= j < r.value ==> !EmbedMatches(src, media[j].embedId)
    ensures r.None? ==> forall j :: 0 <= j < |media| ==> !EmbedMatches(src, media[j].embedId)
  {
    if media == [] then None
    else if EmbedMatches(src, media[0].embedId) then Some(0)
    else match FirstEmbedMatch(src, media[1..])
      case None => None
      case Some(k) => Some(k + 1)
  }

  /** Tier 1 applies: the class names a nonzero id that `get_post` finds. */
  predicate ClassTierHit(cls: string, lib: Library) {
    var id := ExtractPostIdFromClass(cls);
    id.Some? && id.value != 0 && id.value in lib.posts
  }

  /**
   * `fetch_media_library_image`: the post named by the class token when it
   * exists, otherwise the first of the post's media images whose `embed_id`
   * occurs in `src`, otherwise `null`.
   */
  function FetchMediaLibraryImage(cls: string, src: string, lib: Library, media: seq<MediaImage>): (r: Option<MediaImage>)
    ensures ClassTierHit(cls, lib) ==> r.Some? && r.value.id == lib.posts[ExtractPostIdFromClass(cls).value].id
    ensures !ClassTierHit(cls, lib) ==> (r.None? <==> forall j :: 0 <= j < |media| ==> !EmbedMatches(src, media[j].embedId))
    ensures !ClassTierHit(cls, lib) && r.Some? ==> r.value in media && EmbedMatches(src, r.value.embedId)
  {
    var postId := ExtractPostIdFromClass(cls);
    if postId.Some? && postId.value != 0 && postId.value in lib.posts then
      Some(NewMediaImage(lib.posts[postId.value], lib.altMeta))
    else
      match FirstEmbedMatch(src, media)
      case None => None
      case Some(k) => Some(media[k])
  }

  /**
   * The class token wins when it names a post that exists; otherwise the
   * result is the first media image whose `embed_id` occurs in `src`, and
   * `None` exactly when no media image's does.
   */
  lemma FetchMediaLibraryImageTiers(cls: string, src: string, lib: Library, media: seq<MediaImage>)
    ensures ClassTierHit(cls, lib) ==>
      FetchMediaLibraryImage(cls, src, lib, media) == Some(NewMediaImage(lib.posts[ExtractPostIdFromClass(cls).value], lib.altMeta))
    ensures !ClassTierHit(cls, lib) ==>
      (FetchMediaLibraryImage(cls, src, lib, media).None? <==> forall j :: 0 <= j < |media| ==> !EmbedMatches(src, media[j].embedId))
    ensures !ClassTierHit(cls, lib) && FetchMediaLibraryImage(cls, src, lib, media).Some? ==> exists k :: (
      && 0 <= k < |media|
      && FetchMediaLibraryImage(cls, src, lib, media).value == media[k]
      && EmbedMatches(src, media[k].embedId)
      && forall j :: 0 <= j < k ==> !EmbedMatches(src, media[j].embedId))
  {
    if !ClassTierHit(cls, lib) {
      match FirstEmbedMatch(src, media)
      case None =>
      case Some(k) =>
        assert EmbedMatches(src, media[k].embedId);
    }
  }

  /** `new EmbeddedImage($img_node, $post)` for the node at `index`. */
  function NewEmbeddedImage(n: ImgNode, index: nat, post: PostRef, lib: Library, media: seq<MediaImage>): (img: EmbeddedImage)
    ensures img.node == index && img.altText == n.alt && img.src == n.src && img.post == post
    ensures img.mediaImage.Some? ==> ClassTierHit(n.cls, lib) || img.mediaImage.value in media
    ensures img.mediaImage.None? ==> !ClassTierHit(n.cls, lib)
  {
    EmbeddedImage(index, n.alt, n.src, FetchMediaLibraryImage(n.cls, n.src, lib, media), post)
  }

  /** The first truthy candidate, or `None` (PHP's `false`) when there is none. */
  function FirstTruthy(candidates: seq<string>): (r: Option<string>)
    ensures r.Some? ==> exists k :: (
      && 0 <= k < |candidates|
      && r.value == candidates[k]
      && Truthy(candidates[k])
      && forall j :: 0 <= j < k ==> !Truthy(candidates[j]))
    ensures r.None? <==> forall j :: 0 <= j < |candidates| ==> !Truthy(candidates[j])
  {
    if candidates == [] then None
    else if Truthy(candidates[0]) then Some(candidates[0])
    else
      var r := FirstTruthy(candidates[1..]);
      assert forall j :: 1 <= j < |candidates| ==> candidates[j] == candidates[1..][j - 1];
      r
  }

  /**
   * `alt_text_from_media_library`: `false` without a media image, else the
   * first truthy of its alt text, title and file name, else `false`.
   */
  function AltTextFromMediaLibrary(img: EmbeddedImage): (r: Option<string>)
    ensures r.Some? ==> Truthy(r.value) && img.mediaImage.Some?
    ensures r.Some? ==> r.value in [img.mediaImage.value.altText, img.mediaImage.value.title, img.mediaImage.value.fileName]
  {
    match img.mediaImage
    case None => None
    case Some(m) =>
      if Truthy(m.altText) then Some(m.altText)
      else if Truthy(m.title) then Some(m.title)
      else if Truthy(m.fileName) then Some(m.fileName)
      else None
  }

  /** The fallback order: alt text, then title, then file name, the first truthy one winning. */
  lemma AltTextPriority(img: EmbeddedImage)
    ensures AltTextFromMediaLibrary(img) ==
      if img.mediaImage.None? then None
      else FirstTruthy([img.mediaImage.value.altText, img.mediaImage.value.title, img.mediaImage.value.fileName])
  {
    if img.mediaImage.Some? {
      var m := img.mediaImage.value;
      var c := [m.altText, m.title, m.fileName];
      var r := FirstTruthy(c);
      if r.Some? {
        var k :| 0 <= k < |c| && r.value == c[k] && Truthy(c[k]) && forall j :: 0 <= j < k ==> !Truthy(c[j]);
        assert k == 0 || !Truthy(c[0]);
        assert k == 2 ==> !Truthy(c[1]);
      }
    }
  }

  /** `has_external_src`: the `sprintf` has no placeholder, so the marker is the literal "/wp-content/uploads". */
  function HasExternalSrc(src: string): (external: bool)
    ensures external <==> !Contains(src, LocalMarker)
    ensures external <==> forall i: nat :: i <= |src| ==> !OccursAt(src, LocalMarker, i)
  {
    StrPos(src, LocalMarker).None?
  }

  /** Resolution reads only `class` and `src`: rewriting `alt` cannot change what an image resolves to. */
  lemma ResolutionIgnoresAlt(n: ImgNode, alt: string, index: nat, post: PostRef, lib: Library, media: seq<MediaImage>)
    ensures NewEmbeddedImage(n.(alt := alt), index, post, lib, media).mediaImage ==
            NewEmbeddedImage(n, index, post, lib, media).mediaImage
    ensures NewEmbeddedImage(n.(alt := alt), index, post, lib, media).altText == alt
  {
  }
}

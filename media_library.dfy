/**
 * MediaLibraryImage: a media-library attachment as the alt-text fix sees it,
 * with the matching key (`embed_id`) it derives from the attachment's guid.
 */
module MediaLibrary {
  import opened Wrappers
  import opened PhpText

  /**
   * The fields of an attachment post that the script reads. `title` is what
   * `$image_post->title` yields; WP_Post has no such property, so WordPress
   * answers it from the post meta named "title".
   */
  datatype AttachmentPost = AttachmentPost(id: int, guid: string, postName: string, title: string)

  datatype MediaImage = MediaImage(
    id: int,
    altText: string,          // post meta `_wp_attachment_image_alt`, "" when unset
    title: string,
    fileName: string,         // the attachment's `post_name`
    embedId: Option<string>)  // `null` when the guid cannot be decomposed

  const UploadsMarker := "uploads"

  /**
   * The path after the first "uploads" in a guid, up to the next "uploads" or
   * the end: part [1] of `explode('uploads', $guid)`.
   */
  function UploadsPath(guid: string): (path: Option<string>)
    ensures path.None? <==> !Contains(guid, UploadsMarker)
    ensures path.Some? ==>
      var after := guid[StrPos(guid, UploadsMarker).value + |UploadsMarker|..];
      StartsWith(after, path.value) && !Contains(path.value, UploadsMarker) &&
      (|path.value| == |after| || OccursAt(after, UploadsMarker, |path.value|))
  {
    var split := Explode(guid, UploadsMarker);
    ExplodeSplits(guid, UploadsMarker);
    if |split| < 2 then None
    else
      var after := guid[StrPos(guid, UploadsMarker).value + |UploadsMarker|..];
      ExplodeHead(after, UploadsMarker);
      ExplodePartsFree(after, UploadsMarker);
      Some(split[1])
  }

  /**
   * `extract_image_guid_nub`: the uploads path cut at its first '.', i.e. part
   * [0] of `explode('.', $img_path, -1)`; `null` when there is no "uploads" or
   * the path has no '.' (the limited explode then yields an empty array).
   */
  function ExtractImageGuidNub(guid: string): (nub: Option<string>)
    ensures nub.None? <==> UploadsPath(guid).None? || !Contains(UploadsPath(guid).value, ".")
    ensures nub.Some? ==> StartsWith(UploadsPath(guid).value, nub.value + ".") && !Contains(nub.value, ".")
  {
    match UploadsPath(guid)
    case None => None
    case Some(imgPath) =>
      var split := Explode(imgPath, ".");
      ExplodeSplits(imgPath, ".");
      ExplodeHead(imgPath, ".");
      ExplodePartsFree(imgPath, ".");
      if |split| - 1 == 0 then None
      else
        assert imgPath[StrPos(imgPath, ".").value] == '.' by {
          assert OccursAt(imgPath, ".", StrPos(imgPath, ".").value);
        }
        Some(split[0])
  }

  /**
   * Conversely, every guid of the form `prefix` "uploads" `path` "." `rest`
   * yields `path`, when that "uploads" is the only one and `path` has no '.'.
   */
  lemma GuidNubOf(prefix: string, path: string, rest: string)
    requires !Contains(prefix, UploadsMarker)
    requires !Contains(path, ".") && !Contains(path + "." + rest, UploadsMarker)
    ensures ExtractImageGuidNub(prefix + UploadsMarker + path + "." + rest) == Some(path)
  {
    var head := prefix + UploadsMarker;
    var after := path + "." + rest;
    var guid := head + after;
    assert prefix + UploadsMarker + path + "." + rest == guid;
    UniqueHeadSplitsCleanly(prefix, UploadsMarker);
    FirstOccurrenceExtends(head, after, UploadsMarker);
    assert guid[|prefix| + |UploadsMarker|..] == after;
    ExplodeSingle(after, UploadsMarker);
    ExplodeSplits(guid, UploadsMarker);
    assert UploadsPath(guid) == Some(after);
    SingleCharSplitsCleanly(path, ".");
    FirstOccurrenceExtends(path + ".", rest, ".");
    ExplodeSplits(after, ".");
    ExplodeHead(after, ".");
    assert after[..|path|] == path;
  }

  /**
   * The guid of an upload on any site yields its path from the slash after
   * "uploads" to the extension: the nub keeps the leading '/'.
   */
  lemma GuidNubKeepsLeadingSlash(site: string)
    requires !Contains(site + "/wp-content/", UploadsMarker)
    ensures ExtractImageGuidNub(site + "/wp-content/" + "uploads" + "/2017/01/IMG_0319" + "." + "jpg") == Some("/2017/01/IMG_0319")
  {
    var prefix := site + "/wp-content/";
    var path := "/2017/01/IMG_0319";
    assert !Contains(path, ".") by {
      FirstCharAbsent(path, ".");
    }
    assert !Contains(path + "." + "jpg", UploadsMarker) by {
      FirstCharAbsent(path + "." + "jpg", UploadsMarker);
    }
    GuidNubOf(prefix, path, "jpg");
  }

  /** `new MediaLibraryImage($image_post)`, with `get_post_meta` given as a map. */
  function NewMediaImage(post: AttachmentPost, altMeta: map<int, string>): (m: MediaImage)
    ensures m.id == post.id && m.title == post.title && m.fileName == post.postName
    ensures m.altText == if post.id in altMeta then altMeta[post.id] else ""
    ensures m.embedId.None? <==> !Contains(post.guid, UploadsMarker) || !Contains(UploadsPath(post.guid).value, ".")
    ensures m.embedId.Some? ==> StartsWith(UploadsPath(post.guid).value, m.embedId.value + ".") && !Contains(m.embedId.value, ".")
  {
    MediaImage(
      post.id,
      if post.id in altMeta then altMeta[post.id] else "",
      post.title,
      post.postName,
      ExtractImageGuidNub(post.guid))
  }
}

# Image alt-text reconciliation for a WordPress multisite

A Dafny model of the wp-cli scripts that bring the `alt` attributes of the
images in every published post of a WordPress multisite in line with the
media library, together with the small scripts built on the same base class
and post model.

- **MediaLibraryImage** (`MediaLibrary`): an image attachment. Its matching
  key (`embed_id`) is taken from its guid: the text after the first
  "uploads", up to the first `.`. It is `null` when there is no "uploads" or
  no dot. The key keeps its leading `/`.
- **EmbeddedImage** (`EmbeddedImages`): one `<img>` of a post. It reads a
  post id from the first `wp-image-` class token. It then resolves to a media
  image in two tiers: first the attachment with that id, when the id is
  nonzero and the post exists; otherwise the first of the post's media
  images whose `embed_id` occurs in `src`. Its library alt text is the first
  truthy one of the attachment's alt text, title and file name. An image is
  external when its `src` lacks `/wp-content/uploads`.
- **CompliantPost** (`CompliantPosts`, a class):
  - `update_content_img_alt_attributes` walks the images in document order.
  - It rewrites an `alt` when the library text is truthy and differs;
    otherwise it counts the image as skipped, and also as missing when the
    image has no alt of its own.
  - It re-serialises and saves the post only when some `alt` changed. Save
    errors go, in order, to the post's error log.
- **ImgAltTextScript** (`ImgAltText`, a class): the `fix` command, for one
  site or for every site under a post limit. It sums each site's counters,
  collects the images still without alt into CSV rows, and logs each post's
  save errors.
- **WpCliScript** (`WpCli`, a class): the base of the scripts. It handles
  command-line parsing and the error log, and keys the site table by blog
  name.
- **ChapmanPost** (`ChapmanPosts`): the default `get_posts` arguments and the
  argument arrays built from them, the post URL, the marker search, and the
  video query.
- **Report rows** (`PostCsv`): the rows shared by the report writers.
- **Mangled posts** (`MangledPosts`): posts that carry the marker left by the
  alt-text fix are sorted into CSV files per site, or into a shared "other"
  file.
- **Embedded videos** (`EmbeddedVideos`): the environment-to-domain switch,
  the excluded-site filter, the site-by-site scan, and the video report.

The PHP built-ins the scripts depend on are modelled with PHP's own
semantics in `PhpText` and `PhpArray`:

- truthiness of strings, where `""` and `"0"` are falsy;
- `strpos`, `explode`/`implode`, `str_replace`, `trim`, `preg_split('/\s+/')`;
- the `(int)` cast and `basename`;
- ordered arrays in which assigning to an existing key keeps its position,
  and `+` on two lists.

WordPress and the database are parameters of the model. That covers
`get_post`, `get_children`, post meta, `get_posts`, `$wpdb->get_results`,
`get_sites` and `switch_to_blog`. The DOM is the sequence of a post's
`<img>` nodes, and its serialisation is a function parameter.

Points where the code's behaviour is easy to misread:

- **`embed_id`** is the text before the *first* dot of the uploads path. It
  is not the path with only the last extension stripped, so
  `.../uploads/a.b.jpg` gives `/a`.
- **Text sources** count as empty by PHP truthiness, so `"0"` counts as no
  text. This applies to the library text and to the image's own alt.
- **The class token** is any token starting with `wp-image-`, read with
  `(int)`. `wp-image-42px` names 42, and `wp-image-x` names 0, which falls
  through to the second tier.
- **A second pass on the same post object** rewrites and counts the same
  images again, because each image keeps the alt it read at construction.
  Only a fresh object on the saved content updates nothing.

The operations follow the code as written, including its defects:
`ImgAltTextScript.Fix` and `RunGroup` (blog 18 is processed, and site lists
are joined by `+=`), `GenerateMangledPostCsvFiles` (a site with one mangled
post is listed nowhere), the `EmbeddedVideosScript` constructor (every
environment gets the production domain), and `MangledByAltTextFix` (the
status goes to the ignored `status` key). The behaviour the code evidently
intends is modelled beside it, by separately named members, and is used by
no operation:

- `ImgAltText.LoopForm.Intended`, with `GroupSansAltCountsMissing` and the
  `Intended` case of `Blog18ProcessedAsWritten`;
- `MangledPosts.BucketOf` and `BucketRule.Intended`, with
  `EveryMangledPostListed`;
- `EmbeddedVideos.IntendedArms` and `IntendedDomain`, with
  `IntendedSwitchDomains`;
- `ChapmanPosts.StatusQueryArgs` and `SearchQueryArgs`, with `QueryKeys` and
  `PublishQueriesAgree`.

## Model

| member | source | states |
|---|---|---|
| MediaLibrary.UploadsPath | bin/wp/img-alt-text.php:384-389 | `null` exactly when the guid lacks "uploads"; otherwise the text after the first "uploads", up to the next one or the end |
| MediaLibrary.ExtractImageGuidNub | bin/wp/img-alt-text.php:375-396 | `null` exactly when there is no uploads path or it has no '.'; otherwise a dot-free prefix of the uploads path that is followed by '.' (the text before the first dot) |
| MediaLibrary.NewMediaImage | bin/wp/img-alt-text.php:364-370 | id, title and file name are the attachment's; alt text is its `_wp_attachment_image_alt` meta, "" when unset; `embed_id` is `null` exactly when the guid has no uploads path or that path no '.', otherwise a dot-free prefix of the path followed by '.' |
| MediaLibrary.GuidNubOf | bin/wp/img-alt-text.php:375-396 | every guid `prefix` "uploads" `path` "." `rest`, with "uploads" only there and no dot in `path`, yields exactly `path` |
| MediaLibrary.GuidNubKeepsLeadingSlash | bin/wp/img-alt-text.php:379-395 | `<site>/wp-content/uploads/2017/01/IMG_0319.jpg` yields `/2017/01/IMG_0319`, leading slash included, unlike the `2017/01/IMG_0319` the comment gives |
| EmbeddedImages.FirstWithPrefix | bin/wp/img-alt-text.php:348-354 | the index found has the prefix and no earlier token has it; `None` only when no token has it |
| EmbeddedImages.ExtractPostIdFromClass | bin/wp/img-alt-text.php:338-357 | a falsy class gives `null`; an id, when read, is some `wp-image-` token of the class with the prefix removed and cast by `(int)` |
| EmbeddedImages.ExtractPostIdFromClassReadsFirstToken | bin/wp/img-alt-text.php:338-357 | a falsy class gives `null`; otherwise an id is read exactly when some token starts with `wp-image-`, from the first such token, with `wp-image-` removed and cast by `(int)` |
| EmbeddedImages.ClassIdFromFirstToken | bin/wp/img-alt-text.php:346-353 | when the first `wp-image-` token is `wp-image-<n>`, the id is `n`, whatever comes before it without the prefix and whatever follows |
| EmbeddedImages.PrefixedIdReadsBack | bin/wp/img-alt-text.php:351-352 | removing `wp-image-` from `wp-image-<n>` and casting gives back `n` for every integer `n` |
| EmbeddedImages.SingleClassToken | bin/wp/img-alt-text.php:338-357 | the class `wp-image-<n>` alone names post `n` |
| EmbeddedImages.IntToStringHasNoPrefix | bin/wp/img-alt-text.php:351 | the decimal form of an id never contains `wp-image-`, so removing the prefix leaves it whole |
| EmbeddedImages.FirstWithPrefixAt | bin/wp/img-alt-text.php:348-354 | a prefixed token after tokens without the prefix is the one found |
| EmbeddedImages.PrefixedDigitsOneToken | bin/wp/img-alt-text.php:345-346 | `wp-image-<digits>` is one token after `trim` and the whitespace split |
| EmbeddedImages.ClassOfPlainTokens | bin/wp/img-alt-text.php:346 | a class of plain tokens joined by spaces survives `trim` and the split as exactly those tokens |
| EmbeddedImages.ClassIdAmongTokens | bin/wp/img-alt-text.php:338-357 | in a class of plain tokens, the first `wp-image-<n>` token after tokens without the prefix names n, whatever follows |
| EmbeddedImages.FullSizeImageClass | bin/wp/img-alt-text.php:338-357 | the class "alignnone size-full wp-image-42" names post 42 |
| EmbeddedImages.FirstEmbedMatch | bin/wp/img-alt-text.php:326-335 | the media image found has its `embed_id` in `src` and no earlier one has; `None` only when none has |
| EmbeddedImages.FetchMediaLibraryImage | bin/wp/img-alt-text.php:313-336 | a class id that is nonzero and found by `get_post` gives that attachment; otherwise a media image of the post whose `embed_id` occurs in `src`, and `null` exactly when none does |
| EmbeddedImages.FetchMediaLibraryImageTiers | bin/wp/img-alt-text.php:313-336 | a nonzero class id that `get_post` resolves wins over any `src` match; otherwise the result is the first media image whose `embed_id` occurs in `src`, and `null` exactly when none does |
| EmbeddedImages.FirstTruthy | bin/wp/img-alt-text.php:290-300 | the result is a truthy candidate with no truthy candidate before it; `None` exactly when no candidate is truthy |
| EmbeddedImages.AltTextFromMediaLibrary | bin/wp/img-alt-text.php:283-302 | a result is truthy, comes from a media image, and is its alt text, title or file name |
| EmbeddedImages.AltTextPriority | bin/wp/img-alt-text.php:283-302 | `false` without a media image; otherwise the first truthy of alt text, title and file name, and `false` if none is truthy |
| EmbeddedImages.NewEmbeddedImage | bin/wp/img-alt-text.php:270-277 | the image keeps its node's index, `alt` and `src` and its post; its media image is the class's attachment or one of the post's media images, and is missing only when the class tier does not apply |
| EmbeddedImages.HasExternalSrc | bin/wp/img-alt-text.php:304-311 | external exactly when `/wp-content/uploads` occurs nowhere in `src` |
| EmbeddedImages.ResolutionIgnoresAlt | bin/wp/img-alt-text.php:270-278 | what an image resolves to does not depend on its `alt`; the image reads the `alt` of its node |
| CompliantPosts.EmbedAll | bin/wp/img-alt-text.php:232-245 | one embedded image per `<img>` node |
| CompliantPosts.MediaOf | bin/wp/img-alt-text.php:247-263 | one media image per attachment child |
| CompliantPosts.CountMediaSansAlt | bin/wp/img-alt-text.php:196-200 | exactly the number of media images whose alt text is empty |
| CompliantPosts.CountEmbeddedSansAlt | bin/wp/img-alt-text.php:202-205 | exactly the number of embedded images whose alt is empty |
| CompliantPosts.CountSansMedia | bin/wp/img-alt-text.php:207-209 | exactly the number of embedded images without a media image |
| CompliantPosts.CountWhereIndices | bin/wp/img-alt-text.php:196-209 | counting the entries that satisfy a test gives the size of the set of their positions |
| CompliantPosts.FetchAssociatedMediaImages | bin/wp/img-alt-text.php:247-263 | one media image per attachment child, in the order `get_children` returns them |
| CompliantPosts.ExtractEmbeddedImages | bin/wp/img-alt-text.php:232-245 | one embedded image per `<img>` node, in document order; image `i` is node `i`, with the node's alt and src, resolved against the post's media images |
| CompliantPosts.CompliantPost.constructor | bin/wp/img-alt-text.php:69-102 | media images fetched before images are extracted; counters zero, "sans alt" list and errors empty; DOM and content as fetched |
| CompliantPosts.CompliantPost.LogUpdate | bin/wp/img-alt-text.php:178-181 | exactly the named counter grows by one |
| CompliantPosts.CompliantPost.LogError | bin/wp/img-alt-text.php:183-185 | the message is appended; earlier errors are kept |
| CompliantPosts.CompliantPost.SaveContent | bin/wp/img-alt-text.php:143-176 | returns the serialised DOM whether or not the save succeeds; a failed save appends all its messages, in order |
| CompliantPosts.CompliantPost.ReconcileImage | bin/wp/img-alt-text.php:114-133 | rewrites the node's alt exactly when the library text is truthy and differs; each counter and the "sans alt" list grow by that image's decision |
| CompliantPosts.CompliantPost.ReconcileAll | bin/wp/img-alt-text.php:111-134 | the counters grow by the tally of all images, the "sans alt" list by the pass's list, the DOM becomes the rewritten DOM, and the flag is set exactly when some image is rewritten |
| CompliantPosts.CompliantPost.UpdateContentImgAltAttributes | bin/wp/img-alt-text.php:107-141 | as ReconcileAll; the content is re-serialised and saved (errors logged) exactly when some alt was rewritten, otherwise content and errors are unchanged; returns the content |
| CompliantPosts.CompliantPost.Counts | bin/wp/img-alt-text.php:187-218 | the five survey counts: media images and those with an empty alt, embedded images and those with an empty alt or no media image |
| CompliantPosts.CompliantPost.ExternalEmbeddedImages | bin/wp/img-alt-text.php:220-230 | the order-preserving filter of the embedded images on `has_external_src` |
| CompliantPosts.TallyCoversEveryImage | bin/wp/img-alt-text.php:113-134 | from zero, updated + skipped = number of images; missing <= skipped; the "sans alt" list has one entry per missing count |
| CompliantPosts.SansAltMembers | bin/wp/img-alt-text.php:126-133 | an image is on the "sans alt" list exactly when it has no library text and a falsy alt |
| CompliantPosts.SansAltInDocumentOrder | bin/wp/img-alt-text.php:113-133 | the "sans alt" list is strictly increasing in node index |
| CompliantPosts.RewrittenAt | bin/wp/img-alt-text.php:116-121 | after a pass, node `k` differs from before only when image `k` is rewritten, and then only in its alt, which is the library text |
| CompliantPosts.NoRewriteKeepsDom | bin/wp/img-alt-text.php:113-140 | a pass without a rewrite leaves every node as it was |
| CompliantPosts.UpdatedIffRewrite | bin/wp/img-alt-text.php:116-138 | alt-updated grows exactly when some image is rewritten, i.e. exactly when the post is saved |
| CompliantPosts.PassStep | bin/wp/img-alt-text.php:113-134 | one more loop iteration adds that image's decision to the tally and the "sans alt" list, and its rewrite to the nodes |
| CompliantPosts.SansAltAgree | bin/wp/img-alt-text.php:126-133 | two image lists that agree on library text and own alt, image by image, give the same "sans alt" list |
| CompliantPosts.FreshImage | bin/wp/img-alt-text.php:270-278 | re-reading a node after its decision gives an image that is not rewritten, and a "sans alt" image that is still one |
| CompliantPosts.FreshPassImages | bin/wp/img-alt-text.php:113-134 | re-reading the rewritten nodes, no image is rewritten again and every "sans alt" image reads the same |
| CompliantPosts.FreshPassUpdatesNothing | bin/wp/img-alt-text.php:113-140 | a fresh pass over the result counts 0 updated, every image skipped, the same missing count and "sans alt" list, and leaves the nodes as they are |
| CompliantPosts.SecondCallRecounts | bin/wp/img-alt-text.php:113-121 | a second pass on the same object writes the same nodes, yet counts every rewrite again |
| CompliantPosts.UpdateTwice | bin/wp/img-alt-text.php:107-141 | two calls on one object leave the nodes as one call does, and add the pass's tally twice: with a rewrite, alt-updated grows by at least 2 |
| CompliantPosts.ExternalOfMembers | bin/wp/img-alt-text.php:220-230 | an image is listed as external exactly when its src lacks `/wp-content/uploads` |
| CompliantPosts.ExampleDogImage | bin/wp/img-alt-text.php:283-302 | an image with an empty alt and class `wp-image-7`, where attachment 7 has alt text "A dog", is rewritten to "A dog" |
| CompliantPosts.ExampleDogPost | bin/wp/img-alt-text.php:107-134 | `<img src=".../uploads/2021/05/dog.jpg" class="wp-image-7" alt="">` with attachment 7's alt text "A dog" becomes `alt="A dog"` with counters 1, 0, 0 |
| ImgAltText.ImgSansAltToCsv | bin/wp/img-alt-text.php:866-889 | the header row, then one row per image in order: blog id, blog path, post id, post title, src |
| ImgAltText.CsvRowIdsReadBack | bin/wp/img-alt-text.php:876-882 | a row has the header's five columns, and its id columns read back through `(int)` as the image's blog and post ids |
| ImgAltText.RunPost | bin/wp/img-alt-text.php:804-812 | a fresh post's pass yields the pass's "sans alt" list, its tally, and the save errors only when it saves |
| ImgAltText.RunPosts | bin/wp/img-alt-text.php:802-821 | the site's lists merged in post order, the counters summed, one log entry per post that logged errors |
| ImgAltText.RunGroup | bin/wp/img-alt-text.php:525-543 | as written: the report, the `+=`-joined "sans alt" list and the log of every site under the limit, blog 18 included, in site order |
| ImgAltText.ImgAltTextScript.constructor | bin/wp/img-alt-text.php:421-447 | command and subcommand as parsed, one error for a command not in the table, site ids in site-table order |
| ImgAltText.ImgAltTextScript.FixImgAltTextForSite | bin/wp/img-alt-text.php:783-830 | the site's report (name, merged "sans alt" list, summed counters); the script's log grows by the site's post error entries |
| ImgAltText.ImgAltTextScript.Fix | bin/wp/img-alt-text.php:493-558 | a missing subcommand becomes "help"; a site id fixes that site; "all" and "small" run the written group loop under 10000 or 1000 posts, blog 18 included and lists joined by `+=`; "help" returns help; anything else logs one error and returns help |
| ImgAltText.SiteTallyCovers | bin/wp/img-alt-text.php:804-812 | over a site, updated + skipped = number of `<img>` in its posts; missing <= skipped; one "sans alt" entry per missing |
| ImgAltText.SiteErrorLogShape | bin/wp/img-alt-text.php:815-818 | at most one log entry per post, each holding a non-empty list of save errors |
| ImgAltText.QuietPostLogsNothing | bin/wp/img-alt-text.php:815-818 | when every post either rewrites nothing, and so never saves, or saves without error, the site's log is empty |
| ImgAltText.GroupSansAltCountsMissing | bin/wp/img-alt-text.php:525-545 | merged in order, as intended, the group's "sans alt" list has one entry per missing image of the processed sites |
| ImgAltText.GroupSansAltAsWrittenLength | bin/wp/img-alt-text.php:525-545 | as written, the `+=`-joined list is exactly as long as the longest list of a processed site, which is at most the missing images counted |
| ImgAltText.LongestSansAltBounds | bin/wp/img-alt-text.php:535 | every site the written loop processes has a list no longer than the longest |
| ImgAltText.GroupSansAltAsWrittenPositions | bin/wp/img-alt-text.php:535 | as written, position k of the joined list is position k of the first processed site whose list reaches past k |
| ImgAltText.GroupReportKeysAreSites | bin/wp/img-alt-text.php:525-536 | under either reading of the loop, every key of the group report names a site |
| ImgAltText.GroupReportsMembers | bin/wp/img-alt-text.php:525-543 | with distinct names, a site is reported exactly when the loop processes it (under the limit, and as intended not blog 18), under its name with its own counters |
| ImgAltText.GroupReportsStep | bin/wp/img-alt-text.php:525-536 | under either reading, a site added last leaves the report of every other name as it was |
| ImgAltText.GroupReportsLast | bin/wp/img-alt-text.php:525-536 | with distinct names, the last site is reported exactly when the loop processes it, with its own counters |
| ImgAltText.NamesSiteCastsBack | bin/wp/img-alt-text.php:513-515 | a subcommand naming a site casts to a listed site id whose decimal form it is |
| ImgAltText.Blog18ProcessedAsWritten | bin/wp/img-alt-text.php:526-536 | blog 18 under the limit is in the written loop's report with its own counters, and absent from the intended one's |
| ImgAltText.UnionMergeDropsSecondSite | bin/wp/img-alt-text.php:535 | as written, `+=` keeps only the first site's list when the second's is no longer; merged in order, both are kept |
| WpCli.CommandOf | bin/wp/lib/wp_cli_script.php:99-104 | the command is truthy; it is the first argument when that is truthy, otherwise "usage" |
| WpCli.SubcommandOf | bin/wp/lib/wp_cli_script.php:100 | the second argument, `null` exactly when there is none |
| WpCli.SiteIds | bin/wp/lib/wp_cli_script.php:133-135 | one id per site entry, in the entries' order |
| WpCli.CollectSiteIds | bin/wp/lib/wp_cli_script.php:133-135 | the loop yields one id per site entry, in order |
| WpCli.WpCliScript.constructor | bin/wp/lib/wp_cli_script.php:40-47 | arguments parsed against the command table, then the site table and the ids loaded |
| WpCli.WpCliScript.Error | bin/wp/lib/wp_cli_script.php:64-67 | the message goes at the end of the log; nothing else changes |
| WpCli.WpCliScript.ParseCommandLineArgs | bin/wp/lib/wp_cli_script.php:97-111 | command = first argument or "usage", subcommand = second argument; an unknown command is kept and appends exactly one error; a known one leaves the log unchanged |
| WpCli.WpCliScript.LoadSites | bin/wp/lib/wp_cli_script.php:113-138 | sites keyed by blog name, a later blog with the same name replacing the earlier in place; site ids follow the table |
| WpCli.LoadedSitesDistinct | bin/wp/lib/wp_cli_script.php:122-131 | no blog name is a key twice |
| WpCli.LoadedSitesNames | bin/wp/lib/wp_cli_script.php:122-131 | a name is a key exactly when some blog has it |
| WpCli.LastBlogWithNameWins | bin/wp/lib/wp_cli_script.php:130 | the entry under a name is the last blog with that name |
| WpCli.DistinctNamesKeepEveryBlog | bin/wp/lib/wp_cli_script.php:122-135 | with distinct names every blog stays, in order, and the ids are the blogs' ids in order |
| WpCli.SameNameCollapses | bin/wp/lib/wp_cli_script.php:122-135 | two blogs with one name leave one entry, at the first's place, with the second's data and id |
| WpCli.BlogNames | bin/wp/lib/wp_cli_script.php:124-130 | one name per blog, in order |
| WpCli.NewNameAppends | bin/wp/lib/wp_cli_script.php:122-131 | a blog whose name no earlier blog has is appended after the earlier sites |
| WpCli.EntriesOf | bin/wp/lib/wp_cli_script.php:122-131 | one (name, site) entry per blog, in order |
| WpCli.DistinctNamesLoadInOrder | bin/wp/lib/wp_cli_script.php:122-131 | with distinct names, the loaded table is one entry per blog in order |
| ChapmanPosts.DefaultKeys | bin/wp/lib/chapman_post_model.php:11-21 | the defaults have nine distinct keys, in the written order |
| ChapmanPosts.DefaultStatus | bin/wp/lib/chapman_post_model.php:19 | the defaults ask for `post_status` "publish" |
| ChapmanPosts.DefaultLacksStatusAndSearch | bin/wp/lib/chapman_post_model.php:11-21 | the defaults have neither a `status` nor an `s` key |
| ChapmanPosts.WithStatusAndLimit | bin/wp/lib/chapman_post_model.php:58-60 | a copy of the base with the two keys set and every other key as in the base |
| ChapmanPosts.WpPostsByStatusArgs | bin/wp/lib/chapman_post_model.php:65-70 | the defaults with only `status` and `numberposts` overridden; every other key as in the defaults |
| ChapmanPosts.SearchWpPostsArgs | bin/wp/lib/chapman_post_model.php:57-63 | the defaults with only `status`, `numberposts` and `s` overridden; every other key as in the defaults |
| ChapmanPosts.StatusArgumentIgnored | bin/wp/lib/chapman_post_model.php:57-70 | as written, `post_status` stays "publish" whatever status is passed, and `wp_posts_by_status` has no `s` |
| ChapmanPosts.StatusKeyIgnored | bin/wp/lib/chapman_post_model.php:57-70 | over any base asking for "publish" without `s`, writing the status to `status` leaves `post_status` at "publish", with or without a search |
| ChapmanPosts.StatusQueryArgs | bin/wp/lib/chapman_post_model.php:65-70 | the defaults with `post_status` and `numberposts` set, every other key unchanged |
| ChapmanPosts.SearchQueryArgs | bin/wp/lib/chapman_post_model.php:57-63 | the defaults with `post_status`, `numberposts` and `s` set, every other key unchanged |
| ChapmanPosts.QueryKeys | bin/wp/lib/chapman_post_model.php:57-70 | the corrected arrays keep the defaults' keys in order and add only `s`, last |
| ChapmanPosts.QueryKeysFor | bin/wp/lib/chapman_post_model.php:57-70 | over any base with `post_status` and `numberposts` and without `s`, setting those keeps the key order, and a search adds only `s`, last |
| ChapmanPosts.PublishQueriesAgree | bin/wp/lib/chapman_post_model.php:57-63 | for "publish", the corrected and the written search agree on every key but the ignored `status` |
| ChapmanPosts.PublishSearchesAgree | bin/wp/lib/chapman_post_model.php:57-63 | over any base asking for "publish", a search that sets `post_status` to "publish" agrees with the written one on every key but `status` |
| ChapmanPosts.MangledSearchArgs | bin/wp/lib/chapman_post_model.php:44-47 | `search_wp_posts($marker)` as written: `s` is the marker, `status` and `post_status` are "publish", `numberposts` is -1 |
| ChapmanPosts.NewChapmanPost | bin/wp/lib/chapman_post_model.php:101-112 | id and content from the row; slug = basename of the permalink; no URL yet |
| ChapmanPosts.BuildPostUrl | bin/wp/lib/chapman_post_model.php:117-119 | the URL starts with the domain and is exactly as long as domain, blog path and slug together |
| ChapmanPosts.PostUrlFromPermalink | bin/wp/lib/chapman_post_model.php:106-119 | for a permalink `<base>/<name>/` the slug is `name` and the URL is domain + blog path + `name` |
| ChapmanPosts.WrapRows | bin/wp/lib/chapman_post_model.php:49-51 | one post per row, in order |
| ChapmanPosts.MangledByAltTextFix | bin/wp/lib/chapman_post_model.php:40-55 | one post per row of the marker search, in order |
| ChapmanPosts.VideoSearchSql | bin/wp/lib/chapman_post_model.php:79-86 | the query starts with the fixed head and is exactly as long as the head, the terms joined by " OR ", and the tail |
| ChapmanPosts.VideoSqlKeepsTerms | bin/wp/lib/chapman_post_model.php:79 | the WHERE group splits on " OR " back into exactly the terms, in order |
| ChapmanPosts.EmbeddedVideos | bin/wp/lib/chapman_post_model.php:73-96 | `null` exactly when there are no terms; otherwise one post per result row, in order, each with its URL on the domain |
| PostCsv.PostCells | bin/wp/mangled-post-content.php:136-140 | one cell per property, in the map's order, each the property's text |
| PostCsv.PostRow | bin/wp/mangled-post-content.php:136-140 | the inner loop yields exactly the post's cells |
| PostCsv.DataRows | bin/wp/mangled-post-content.php:131-143 | the header row of the map's keys, then one row per post, in input order, in the map's column order |
| PostCsv.DiskHoldsLastWrite | bin/wp/lib/wp_cli_script.php:82-92 | the file on disk at a path is the last one written there |
| PostCsv.DiskOfDistinctWrites | bin/wp/lib/wp_cli_script.php:82-92 | when no two writes share a path, the disk holds each write under its own path, in write order |
| PostCsv.DistinctWritesAllKept | bin/wp/lib/wp_cli_script.php:82-92 | when no two writes share a path, every file written is on disk, in write order |
| PostCsv.DiskSamePathPair | bin/wp/lib/wp_cli_script.php:84 | two writes to one path leave only the second file |
| PostCsv.DiskSamePathThenOther | bin/wp/lib/wp_cli_script.php:84 | two writes to one path, then one elsewhere, leave the second file and the third |
| PostCsv.IdCellsReadBack | bin/wp/lib/wp_cli_script.php:86-88 | the blog id and post id cells read back through `(int)` as the ids |
| MangledPosts.CsvPath | bin/wp/mangled-post-content.php:146 | the path starts with `<output_dir>/<name>` |
| MangledPosts.MangledCsv | bin/wp/mangled-post-content.php:118-150 | path `<output_dir>/<name>.csv`; the header of the seven columns, then one row per post in order |
| MangledPosts.GenerateMangledPostCsvFile | bin/wp/mangled-post-content.php:118-150 | writes the file MangledCsv describes |
| MangledPosts.BucketAsWritten | bin/wp/mangled-post-content.php:85-102 | the written rule: no file exactly at 0 or 1 post; an own file exactly above 10 posts |
| MangledPosts.BucketOf | bin/wp/mangled-post-content.php:85-105 | the intended rule: no file exactly when there are no posts; an own file exactly above 10 posts |
| MangledPosts.SinglePostDroppedAsWritten | bin/wp/mangled-post-content.php:85-102 | the written rule differs from the corrected one exactly at one post, which it lists nowhere |
| MangledPosts.SiteEntry | bin/wp/mangled-post-content.php:83-98 | the entry holds the site's count; no file exactly at 0 posts, or at 1 post under the written rule; "See [other]" for the shared bucket |
| MangledPosts.GenerateMangledPostCsvFiles | bin/wp/mangled-post-content.php:73-116 | as written (`> 10`, then `> 1`): the report is the per-site entries then "other" with the shared count and file; the files are the own files in site order, then "other", always |
| MangledPosts.BucketsPartitionPosts | bin/wp/mangled-post-content.php:85-102 | under either rule, the own files, the shared list and the posts listed nowhere add up to all mangled posts |
| MangledPosts.UnlistedPostsAreSinglePosts | bin/wp/mangled-post-content.php:93-102 | the written rule lists nowhere exactly one post per site with a single one; the intended rule lists every post |
| MangledPosts.ListedPostsSnoc | bin/wp/mangled-post-content.php:105-107 | a file with a header adds its rows but the header |
| MangledPosts.MangledPostsListedAsWritten | bin/wp/mangled-post-content.php:73-116 | as written, the files written, counted write by write, list every mangled post but one per site with a single mangled post |
| MangledPosts.EveryMangledPostListed | bin/wp/mangled-post-content.php:73-116 | under the intended rule, the files written, counted write by write, list every mangled post of every site once |
| MangledPosts.CsvPathInjective | bin/wp/mangled-post-content.php:146 | two names give one path only when they are equal |
| MangledPosts.OwnFilesAtSlugs | bin/wp/mangled-post-content.php:85-88 | the k-th own file is written to `<output_dir>/<slug>.csv` of the k-th site with an own file |
| MangledPosts.MangledFilesDistinctPaths | bin/wp/mangled-post-content.php:85-107 | when the own-file slugs are distinct and none is "other", no two writes go to one path |
| MangledPosts.MangledPostsOnDiskAsWritten | bin/wp/mangled-post-content.php:73-116 | as written and with such slugs, the files left on disk list every mangled post but one per site with a single one |
| MangledPosts.EveryMangledPostOnDisk | bin/wp/mangled-post-content.php:73-116 | under the intended rule and with such slugs, the files left on disk list every mangled post once |
| MangledPosts.OtherSlugOverwritten | bin/wp/mangled-post-content.php:85-107 | a lone site with slug "other" and more than ten posts: its posts are written, but `other.csv` on disk lists none of them |
| MangledPosts.SharedSlugOverwritten | bin/wp/mangled-post-content.php:85-91 | two sites with one slug and more than ten posts each: both are written, but only the second site's posts are on disk |
| MangledPosts.SiteReported | bin/wp/mangled-post-content.php:77-113 | under either rule, with distinct names, each site not named "other" has in the returned report its own count and file |
| MangledPosts.SiteEntryInReport | bin/wp/mangled-post-content.php:77-103 | with distinct names, each site's entry in the per-site part is its own count and file |
| MangledPosts.OwnFileNamedAfterSlug | bin/wp/mangled-post-content.php:85-91 | under either rule, above 10 posts the report names `<slug>.csv` |
| MangledPosts.OtherEntryLast | bin/wp/mangled-post-content.php:105-113 | "other" is in the report, with the shared list's length and `other.csv`, also when empty |
| EmbeddedVideos.DomainAsWritten | bin/wp/embedded-videos.php:31-38 | the switch as written, on the arms without `break`, always ends on the production domain |
| EmbeddedVideos.IntendedDomain | bin/wp/embedded-videos.php:31-38 | development, staging and any other environment each get their own domain |
| EmbeddedVideos.FirstCase | bin/wp/embedded-videos.php:31-38 | the first arm whose case equals the environment; `None` only when no case does |
| EmbeddedVideos.DefaultArm | bin/wp/embedded-videos.php:36-37 | the first arm without a case; `None` only when every arm has one |
| EmbeddedVideos.WrittenSwitchEndsInProduction | bin/wp/embedded-videos.php:31-38 | the written arms, run from any environment, leave the production domain |
| EmbeddedVideos.IntendedSwitchDomains | bin/wp/embedded-videos.php:31-38 | the same arms each ending in `break` give every environment its own domain |
| EmbeddedVideos.FallThroughOverridesEnv | bin/wp/embedded-videos.php:31-38 | the written and the intended switch agree exactly outside "development" and "staging" |
| EmbeddedVideos.LoadSites | bin/wp/embedded-videos.php:46-66 | the sites whose path is not excluded, keyed by name |
| EmbeddedVideos.KeptSitesNotExcluded | bin/wp/embedded-videos.php:50-63 | no kept site has an excluded path, and each is an input site under its own name |
| EmbeddedVideos.UnexcludedSiteKept | bin/wp/embedded-videos.php:50-63 | a site not excluded, whose name no later site takes, is kept as it is |
| EmbeddedVideos.VideoPost | bin/wp/lib/chapman_post_model.php:89-92 | the row's post with its URL set on the domain |
| EmbeddedVideos.SitePosts | bin/wp/embedded-videos.php:79-84 | one post per result row of the site's video query, in order |
| EmbeddedVideos.ScanSite | bin/wp/embedded-videos.php:79-84 | the site's posts; the terms are never empty, so the result is never `null` |
| EmbeddedVideos.ScanAllSites | bin/wp/embedded-videos.php:68-77 | the per-site lists concatenated in site order |
| EmbeddedVideos.ScanConcatenates | bin/wp/embedded-videos.php:68-77 | scanning two runs of sites is scanning the first then the second |
| EmbeddedVideos.ScanStep | bin/wp/embedded-videos.php:70-75 | one more iteration appends that site's posts |
| EmbeddedVideos.ScanOneMore | bin/wp/embedded-videos.php:68-77 | scanning the sites plus one more appends that site's posts |
| EmbeddedVideos.SitePostsNameTheirSite | bin/wp/lib/chapman_post_model.php:77-108 | when `get_current_blog_id()` answers the blog switched to, every post of a site's scan has that site's id, and so does its "Blog ID" cell |
| EmbeddedVideos.ScannedPostsHaveUrls | bin/wp/embedded-videos.php:68-77 | every scanned post has a URL starting with the domain |
| EmbeddedVideos.WritePostsToCsv | bin/wp/embedded-videos.php:86-115 | the dated path; the header of the seven columns, then one row per post in order |
| EmbeddedVideos.UrlColumnHoldsUrl | bin/wp/embedded-videos.php:87-98 | for every scanned post, the fifth column is "Post URL" and holds the post's URL, which starts with the domain |
| EmbeddedVideos.EmbeddedVideosScript.constructor | bin/wp/embedded-videos.php:27-39 | arguments parsed against the table with only "usage"; `site_ids` empty; sites loaded without the excluded paths; the domain the written switch leaves, which is the production domain |
| EmbeddedVideos.EmbeddedVideosScript.Run | bin/wp/embedded-videos.php:41-44 | the dated report file: the header, then one row per scanned post, in scan order |
| PhpText.StrPos | bin/wp/img-alt-text.php:310 | found exactly when the text contains the needle, at its first occurrence |
| PhpText.IndexFrom | bin/wp/img-alt-text.php:310 | the first occurrence at or after the offset; `None` only when there is none |
| PhpText.ExplodeSplits | bin/wp/img-alt-text.php:384-388 | `explode` yields two or more pieces exactly when the separator occurs |
| PhpText.ExplodeHead | bin/wp/img-alt-text.php:392-393 | the first piece of `explode` is the text before the first separator, or all of it |
| PhpText.ExplodePartsFree | bin/wp/img-alt-text.php:392 | no piece of `explode` contains the separator |
| PhpText.ExplodeSingle | bin/wp/img-alt-text.php:384-388 | a text without the separator explodes to itself alone |
| PhpText.SplitWs | bin/wp/img-alt-text.php:346 | `preg_split('/\s+/')` yields at least one piece, none holding whitespace |
| PhpText.SplitWsNoSpace | bin/wp/img-alt-text.php:346 | a text without whitespace splits into itself alone |
| PhpText.SplitWsRun | bin/wp/img-alt-text.php:346 | a whitespace run before text that does not start with whitespace splits off one empty piece |
| PhpText.SplitWsJoin | bin/wp/img-alt-text.php:346 | a whitespace-free text, a whitespace run and the rest split as that text followed by the rest's pieces |
| PhpText.SplitWsImplode | bin/wp/img-alt-text.php:346 | plain tokens joined by single spaces split back into exactly those tokens |
| PhpText.Trim | bin/wp/img-alt-text.php:346 | the input with only trim characters cut from either end, and neither end of the result is one |
| PhpText.TrimNoop | bin/wp/img-alt-text.php:346 | `trim` leaves a text alone that neither starts nor ends with such a character |
| PhpText.LeadingDigits | bin/wp/img-alt-text.php:352 | the longest run of digits the text starts with |
| PhpText.IntCastNoNumber | bin/wp/img-alt-text.php:352 | a text not starting with a digit, sign or space casts to 0 |
| PhpText.AfterLastSlash | bin/wp/lib/chapman_post_model.php:107 | a slash-free suffix of the path, preceded by a `/` unless it is the whole path |
| PhpText.AfterLastSlashOf | bin/wp/lib/chapman_post_model.php:107 | the part after the last slash of `<dir>/<name>` is `name` |
| PhpText.BasenameOfDir | bin/wp/lib/chapman_post_model.php:107 | `basename` of `<dir>/<name>/` is `name`, as for a permalink |
| PhpText.ImplodeExplode | bin/wp/img-alt-text.php:351 | joining the pieces of an explode with the separator gives the text back |
| PhpText.ExplodeImplode | bin/wp/lib/chapman_post_model.php:79 | exploding joined pieces gives them back when each splits off cleanly |
| PhpText.RemoveLeading | bin/wp/img-alt-text.php:351 | removing a leading search text that does not recur leaves the rest |
| PhpText.IntCastRoundTrip | bin/wp/img-alt-text.php:352 | `(int)` of an integer's decimal form is that integer |
| PhpText.BasenameOfFile | bin/wp/mangled-post-content.php:91 | `basename` of `<dir>/<name>` is `name` for a slash-free name |
| PhpArray.Put | bin/wp/lib/wp_cli_script.php:130 | the key now has the new value and every other key keeps its own |
| PhpArray.PutKeys | bin/wp/lib/wp_cli_script.php:130 | an existing key keeps its position; a new key goes last |
| PhpArray.PutTwice | bin/wp/mangled-post-content.php:83-98 | setting a key twice equals setting it once to the second value |
| PhpArray.ListUnion | bin/wp/img-alt-text.php:535 | `+` on lists keeps the left list whole and adds only the right list's elements past its length |

## Left out

- The DOM library is not modelled: parsing, the wrapper `div`, encoding conversion, and the unwrap-and-`saveXML` in `save_content`. A post's `<img>` nodes are a sequence of (alt, src, class) records, and serialisation is a function parameter.
- WordPress and database calls are parameters, not models. That covers `get_posts`, `get_children`, `get_post`, `get_post_meta`, `wp_update_post`, `get_sites`, `get_bloginfo`, `switch_to_blog`, `get_permalink`, `get_the_title`, `wp_count_posts`, `$wpdb->get_results` and `sanitize_title_with_dashes`.
- Console and file output are left out: `println`, `print_r`, `var_dump`, usage texts, `mkdir`, and opening and closing files. A CSV file is its path and its rows; `fputcsv` quoting is not modelled.
- `date('Ymd')` is a `today` parameter.
- `img_sans_alt_to_csv` is modelled by its rows only; its dated file name is not modelled.
- The `run` dispatch of the scripts is not modelled, nor are `list_sites`, `survey_data`, `survey_site` and the sandbox test methods of `ImgAltTextScript`. They print diagnostics and call no code beyond what is modelled.
- `ChapmanPost::published` calls `ChapmanPost::wp_posts`, which is not defined, so it cannot run.
- `CompliantPost::published` and `CompliantPost::wp_posts` fetch a site's posts. Those posts are given, as `Blog.posts`.
- `ImgAltTextScript::load_sites` keys sites by untrimmed name, in the same way as the base class. The script model receives this table as given; `WpCli.LoadedSites` models the base-class version.
- `EmbeddedImages.EmbedMatches` follows PHP 7's `strpos`, where an empty needle never matches. PHP 7 converts a `null` needle to the character `chr(0)`; it fails to match only because attribute text read from the DOM holds no NUL character, and the model treats it as never matching. Under PHP 8 an empty or `null` needle matches at offset 0, so such a media image would match every `src`.
- PhpText.IntCast: reads optional whitespace, a sign and leading decimal digits. It does not model 64-bit saturation, or the exponent and float forms PHP 7.1+ accepts in numeric strings.
- ImgAltText.NamesSite: a subcommand names a site only when it is that id's exact decimal text. PHP's loose `in_array` would also accept forms such as `010`.
- `in_array` over the excluded site paths compares loosely. Paths are never numeric strings, so this is modelled as plain equality.
- PHP converts numeric-string array keys, such as a blog named `123`, to integers. This changes neither lookup nor order, so it is not modelled.
- CompliantPosts.CompliantPost.Counts: returns the whole counts array. `counts($key)` is the field of it that the key names.
- MangledPosts.GenerateMangledPostCsvFiles: a site named "other" keeps its position in the report, but its entry is overwritten by the shared file's entry.
- MangledPosts.MangledPostsListedAsWritten: counts the rows of every write. `write_to_csv` opens its path with mode 'w', so a later write to the same path replaces the earlier file. Two sites with one slug, or a site whose slug is "other", lose posts on disk. `MangledPostsOnDiskAsWritten` states the count of the files left on disk when the slugs are clear, and `OtherSlugOverwritten` and `SharedSlugOverwritten` show the loss.
- MangledPosts.EveryMangledPostListed: counts the rows of every write in the same way. `EveryMangledPostOnDisk` states what is left on disk when the slugs are clear.
- PHP strings are byte strings; the model's strings are sequences of characters. Lengths, offsets and `trim` agree for ASCII text only, and no multi-byte encoding is modelled.
- A site's `slug` comes from a `slugify` function parameter, which stands for `sanitize_title_with_dashes`.

## Findings

| source | as written | input that shows it | evidently intended | confidence | as-written member | corrected member |
|---|---|---|---|---|---|---|
| bin/wp/img-alt-text.php:535 | `$images_sans_alt += $report['images-sans-alt']` is PHP's list union, which keeps the left list's indices | two processed sites, the first with 2 images without alt, the second with 1: the second's image is lost | the lists merged in site order (`array_merge`), as `fix_img_alt_text_for_site` does per post | high, not executed | ImgAltText.GroupSansAltAsWrittenLength | ImgAltText.GroupSansAltCountsMissing |
| bin/wp/img-alt-text.php:526-531 | blog 18 only prints "Skipping" and is then processed like any other site | site id 18 with fewer posts than the limit | blog 18 is left alone | high, not executed | ImgAltText.Blog18ProcessedAsWritten | ImgAltText.GroupReportsMembers |
| bin/wp/embedded-videos.php:31-38 | no `case` ends in `break`, so every environment falls through to `default` | env "development" gives `https://blogs.chapman.edu` | each environment's own domain | high, not executed | EmbeddedVideos.WrittenSwitchEndsInProduction | EmbeddedVideos.IntendedSwitchDomains |
| bin/wp/lib/chapman_post_model.php:57-70 | the status is written to the key `status`, which `get_posts` ignores; `post_status` stays "publish" | `wp_posts_by_status("draft")` still asks for published posts | the status overrides `post_status` | high, not executed | ChapmanPosts.StatusArgumentIgnored | ChapmanPosts.QueryKeys |
| bin/wp/mangled-post-content.php:85-102 | only counts above 1 reach the shared file; a site with exactly one mangled post is listed in no CSV | a site whose marker search returns one post | every site with fewer than 10 (above 0) posts goes to "other", as the comment at line 105 says | medium, not executed | MangledPosts.MangledPostsListedAsWritten | MangledPosts.EveryMangledPostListed |

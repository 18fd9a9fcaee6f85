/**
 * ImgAltTextScript: the `fix` command. For one blog, or for every blog under
 * a published-post limit, it runs one CompliantPost pass per published post,
 * adds up the counters, collects the images that still lack alt text (and
 * writes them as CSV rows), and logs the save errors of each post.
 */
module ImgAltText {
  import opened Wrappers
  import opened PhpText
  import opened PhpArray
  import opened EmbeddedImages
  import opened CompliantPosts
  import opened WpCli

  /** One blog as `switch_to_blog` shows it: `get_bloginfo()`, its path, its published posts and its lookups. */
  datatype Blog = Blog(name: string, path: string, posts: seq<PostRecord>, lib: Library)

  /** The report of `fix_img_alt_text_for_site`. */
  datatype SiteReport = SiteReport(siteId: int, siteName: string, imagesSansAlt: seq<EmbeddedImage>, counts: Counters)

  /** A site's counters in the group report, with the site's name added. */
  datatype NamedCounts = NamedCounts(counts: Counters, name: string)

  /** An entry of the script's error log: a message, or a post's save errors under a heading. */
  datatype LogEntry = Message(text: string) | PostErrors(key: string, messages: seq<string>)

  /** What `fix` returns: one site's counters, the group report, or the help text; with the CSV rows it wrote. */
  datatype FixResult =
    | SiteFixed(counts: Counters, csv: seq<seq<string>>)
    | GroupFixed(reports: Entries<string, NamedCounts>, csv: seq<seq<string>>)
    | Help

  const MaxSmallSitePosts := 1000
  const MaxAllSitePosts := 10000
  /** The blog the product owner asked to leave alone. */
  const SkippedBlogId := 18

  const FixCommands: seq<string> := ["usage", "fix", "sites", "survey", "sandbox"]
  const CsvHeader: seq<string> := ["Blog ID", "Blog Path", "Post ID", "Post Title", "img src"]

  // ---------------------------------------------------------------------------
  // One site
  // ---------------------------------------------------------------------------

  /** The embedded images of a published post as a fresh CompliantPost on blog `blogId` reads them. */
  function PostImages(blogId: int, blog: Blog, p: PostRecord): seq<EmbeddedImage> {
    EmbedAll(p.imgs, PostRef(blogId, blog.path, p.id, p.title), blog.lib, MediaOf(ChildrenOf(blog.lib, p.id), blog.lib.altMeta))
  }

  /** The errors a fresh post logs in one pass: the save's messages, and only when it saves. */
  function PassErrors(p: PostRecord, imgs: seq<EmbeddedImage>): seq<string> {
    if AnyRewrite(imgs) then PersistErrors(p.persist) else []
  }

  function PostErrorKey(postId: int, siteName: string): string {
    "Errors reported for post #" + IntToString(postId) + " in site " + siteName + ":"
  }

  /** The site's counters: the sum of every post's pass. */
  function SiteTally(blogId: int, blog: Blog, posts: seq<PostRecord>): Counters
    decreases |posts|
  {
    if posts == [] then ZeroCounters
    else AddCounters(SiteTally(blogId, blog, posts[..|posts| - 1]), Tally(PostImages(blogId, blog, posts[|posts| - 1])))
  }

  /** `images-sans-alt`: every post's list, merged in post order. */
  function SiteSansAlt(blogId: int, blog: Blog, posts: seq<PostRecord>): seq<EmbeddedImage>
    decreases |posts|
  {
    if posts == [] then []
    else SiteSansAlt(blogId, blog, posts[..|posts| - 1]) + SansAlt(PostImages(blogId, blog, posts[|posts| - 1]))
  }

  /** The log entries of a site: one per post that logged errors, in post order. */
  function SiteErrorLog(blogId: int, blog: Blog, posts: seq<PostRecord>): seq<LogEntry>
    decreases |posts|
  {
    if posts == [] then []
    else
      var p := posts[|posts| - 1];
      var messages := PassErrors(p, PostImages(blogId, blog, p));
      SiteErrorLog(blogId, blog, posts[..|posts| - 1]) +
        (if |messages| > 0 then [PostErrors(PostErrorKey(p.id, blog.name), messages)] else [])
  }

  /** The number of `<img>` nodes in the posts. */
  function ImageCount(posts: seq<PostRecord>): nat
    decreases |posts|
  {
    if posts == [] then 0 else ImageCount(posts[..|posts| - 1]) + |posts[|posts| - 1].imgs|
  }

  function SiteReportOf(siteId: int, blog: Blog): SiteReport {
    SiteReport(siteId, blog.name, SiteSansAlt(siteId, blog, blog.posts), SiteTally(siteId, blog, blog.posts))
  }

  // ---------------------------------------------------------------------------
  // A group of sites
  // ---------------------------------------------------------------------------

  /**
   * The two readings of the group loop. As written, it only announces that it
   * skips blog 18, then processes it like any other site under the limit, and
   * it merges each site's list with `+=`, PHP's union of two lists. As
   * intended, blog 18 is left alone and the lists are merged in site order.
   */
  datatype LoopForm = AsWritten | Intended

  /** The loop processes a site: under the post limit and, as intended, not blog 18. */
  predicate Processed(form: LoopForm, site: Site, maxPosts: nat) {
    site.postsCount < maxPosts && (form == Intended ==> site.id != SkippedBlogId)
  }

  /** A site's list joins the group's: by `+=` as written, by `array_merge` as intended. */
  function MergeSansAlt(form: LoopForm, group: seq<EmbeddedImage>, site: seq<EmbeddedImage>): seq<EmbeddedImage> {
    if form == AsWritten then ListUnion(group, site) else group + site
  }

  /** The group report: each processed site's counters under its name, in site order. */
  function GroupReports(form: LoopForm, sites: Entries<string, Site>, maxPosts: nat, network: int -> Blog): Entries<string, NamedCounts>
    decreases |sites|
  {
    if sites == [] then []
    else
      var before := GroupReports(form, sites[..|sites| - 1], maxPosts, network);
      var (name, site) := sites[|sites| - 1];
      if Processed(form, site, maxPosts) then Put(before, name, NamedCounts(SiteReportOf(site.id, network(site.id)).counts, name))
      else before
  }

  /** The images without alt of the processed sites, merged site after site. */
  function GroupSansAlt(form: LoopForm, sites: Entries<string, Site>, maxPosts: nat, network: int -> Blog): seq<EmbeddedImage>
    decreases |sites|
  {
    if sites == [] then []
    else
      var site := sites[|sites| - 1].1;
      var before := GroupSansAlt(form, sites[..|sites| - 1], maxPosts, network);
      if Processed(form, site, maxPosts) then MergeSansAlt(form, before, SansAltOf(site, network))
      else before
  }

  /** The counters of the processed sites, added up. */
  function GroupTally(form: LoopForm, sites: Entries<string, Site>, maxPosts: nat, network: int -> Blog): Counters
    decreases |sites|
  {
    if sites == [] then ZeroCounters
    else
      var site := sites[|sites| - 1].1;
      var before := GroupTally(form, sites[..|sites| - 1], maxPosts, network);
      if Processed(form, site, maxPosts) then AddCounters(before, SiteReportOf(site.id, network(site.id)).counts) else before
  }

  /** The log entries of the processed sites, site after site. */
  function GroupErrorLog(form: LoopForm, sites: Entries<string, Site>, maxPosts: nat, network: int -> Blog): seq<LogEntry>
    decreases |sites|
  {
    if sites == [] then []
    else
      var site := sites[|sites| - 1].1;
      GroupErrorLog(form, sites[..|sites| - 1], maxPosts, network) +
        (if Processed(form, site, maxPosts) then SiteErrorLog(site.id, network(site.id), network(site.id).posts) else [])
  }

  /** The images without alt of one site's report. */
  function SansAltOf(site: Site, network: int -> Blog): seq<EmbeddedImage> {
    SiteReportOf(site.id, network(site.id)).imagesSansAlt
  }

  /** The length of the longest "sans alt" list among the sites the written loop processes. */
  function LongestSansAlt(sites: Entries<string, Site>, maxPosts: nat, network: int -> Blog): nat
    decreases |sites|
  {
    if sites == [] then 0
    else
      var site := sites[|sites| - 1].1;
      var before := LongestSansAlt(sites[..|sites| - 1], maxPosts, network);
      if Processed(AsWritten, site, maxPosts) && |SansAltOf(site, network)| > before then |SansAltOf(site, network)| else before
  }

  /** The subcommand names a loaded site: it is the decimal id of one of them. */
  predicate NamesSite(sub: string, siteIds: seq<int>) {
    exists k :: 0 <= k < |siteIds| && IntToString(siteIds[k]) == sub
  }

  /** The CSV row of an image without alt. */
  function CsvRow(img: EmbeddedImage): seq<string> {
    [IntToString(img.post.blogId), img.post.blogPath, IntToString(img.post.postId), img.post.title, img.src]
  }

  /** `img_sans_alt_to_csv`: the header, then one row per image, in order. */
  method ImgSansAltToCsv(images: seq<EmbeddedImage>) returns (rows: seq<seq<string>>)
    ensures |rows| == |images| + 1 && rows[0] == CsvHeader
    ensures forall i :: 0 <= i < |images| ==> rows[i + 1] == CsvRow(images[i])
  {
    rows := [CsvHeader];
    for i := 0 to |images|
      invariant |rows| == i + 1 && rows[0] == CsvHeader
      invariant forall j :: 0 <= j < i ==> rows[j + 1] == CsvRow(images[j])
    {
      rows := rows + [CsvRow(images[i])];
    }
  }

  /** One published post of the loop: a fresh CompliantPost, one pass, and what the site report takes from it. */
  method RunPost(siteId: int, blog: Blog, p: PostRecord) returns (sansAlt: seq<EmbeddedImage>, counts: Counters, errors: seq<string>)
    ensures sansAlt == SansAlt(PostImages(siteId, blog, p))
    ensures counts == Tally(PostImages(siteId, blog, p))
    ensures errors == PassErrors(p, PostImages(siteId, blog, p))
  {
    var post := new CompliantPost(p, siteId, blog.path, blog.lib);
    var _ := post.UpdateContentImgAltAttributes();
    sansAlt, counts, errors := post.embeddedImagesSansAlt, post.updatesCounter, post.errors;
  }

  /** The post loop of `fix_img_alt_text_for_site`. */
  method RunPosts(siteId: int, blog: Blog) returns (sansAlt: seq<EmbeddedImage>, counts: Counters, log: seq<LogEntry>)
    ensures sansAlt == SiteSansAlt(siteId, blog, blog.posts)
    ensures counts == SiteTally(siteId, blog, blog.posts)
    ensures log == SiteErrorLog(siteId, blog, blog.posts)
  {
    var posts := blog.posts;
    sansAlt, counts, log := [], ZeroCounters, [];
    for i := 0 to |posts|
      invariant sansAlt == SiteSansAlt(siteId, blog, posts[..i])
      invariant counts == SiteTally(siteId, blog, posts[..i])
      invariant log == SiteErrorLog(siteId, blog, posts[..i])
    {
      assert posts[..i + 1][..i] == posts[..i];
      var postSansAlt, postCounts, postErrors := RunPost(siteId, blog, posts[i]);
      sansAlt := sansAlt + postSansAlt;
      counts := AddCounters(counts, postCounts);
      if |postErrors| > 0 {
        log := log + [PostErrors(PostErrorKey(posts[i].id, blog.name), postErrors)];
      }
    }
    assert posts[..|posts|] == posts;
  }

  /**
   * The site loop of `fix` for "all" and "small", as written: blog 18 is only
   * announced as skipped, every site under the limit is fixed, and its list
   * joins the group's by `+=`.
   */
  method RunGroup(sites: Entries<string, Site>, maxPosts: nat, network: int -> Blog)
    returns (reports: Entries<string, NamedCounts>, sansAlt: seq<EmbeddedImage>, log: seq<LogEntry>)
    ensures reports == GroupReports(AsWritten, sites, maxPosts, network)
    ensures sansAlt == GroupSansAlt(AsWritten, sites, maxPosts, network)
    ensures log == GroupErrorLog(AsWritten, sites, maxPosts, network)
  {
    reports, sansAlt, log := [], [], [];
    for i := 0 to |sites|
      invariant reports == GroupReports(AsWritten, sites[..i], maxPosts, network)
      invariant sansAlt == GroupSansAlt(AsWritten, sites[..i], maxPosts, network)
      invariant log == GroupErrorLog(AsWritten, sites[..i], maxPosts, network)
    {
      assert sites[..i + 1][..i] == sites[..i];
      var (name, site) := sites[i];
      // Blog 18 gets a "Skipping" line, and nothing else sets it apart.
      if site.postsCount < maxPosts {
        var siteSansAlt, siteCounts, siteLog := RunPosts(site.id, network(site.id));
        reports := Put(reports, name, NamedCounts(siteCounts, name));
        sansAlt := ListUnion(sansAlt, siteSansAlt);
        log := log + siteLog;
      }
    }
    assert sites[..|sites|] == sites;
  }

  class ImgAltTextScript {
    const command: string
    var subcommand: Option<string>
    /** Name => site; `site_ids` lists their ids in the same order. */
    const sites: Entries<string, Site>
    const siteIds: seq<int>
    /** What `switch_to_blog($id)` makes current. */
    const network: int -> Blog
    var errors: seq<LogEntry>

    /** `new ImgAltTextScript($args, $wpdb)` on a loaded site table. */
    constructor (args: seq<string>, sites: Entries<string, Site>, network: int -> Blog)
      ensures command == CommandOf(args) && subcommand == SubcommandOf(args)
      ensures errors == if CommandOf(args) in FixCommands then [] else [Message(InvalidCommandMessage(CommandOf(args)))]
      ensures this.sites == sites && siteIds == SiteIds(sites) && this.network == network
    {
      var cmd := CommandOf(args);
      var ids := CollectSiteIds(sites);
      command, subcommand := cmd, SubcommandOf(args);
      errors := if cmd in FixCommands then [] else [Message(InvalidCommandMessage(cmd))];
      this.sites, this.network := sites, network;
      siteIds := ids;
    }

    /**
     * `fix_img_alt_text_for_site`: one pass per published post of the site.
     * The report holds the site's name, every post's images without alt in
     * post order and the summed counters; each post that logged errors adds
     * one entry to the script's log.
     */
    method FixImgAltTextForSite(siteId: int) returns (report: SiteReport)
      modifies this`errors
      ensures report == SiteReportOf(siteId, network(siteId))
      ensures errors == old(errors) + SiteErrorLog(siteId, network(siteId), network(siteId).posts)
    {
      var blog := network(siteId);
      var sansAlt, counts, log := RunPosts(siteId, blog);
      errors := errors + log;
      report := SiteReport(siteId, blog.name, sansAlt, counts);
    }

    /**
     * `fix`: a missing subcommand becomes "help". A site id fixes that site;
     * "all" and "small" run the group loop as written over the sites with
     * fewer than 10000 or 1000 published posts; "help" returns the help;
     * anything else logs one error and returns the help.
     */
    method Fix() returns (result: FixResult)
      modifies this`subcommand, this`errors
      ensures subcommand == Some(if old(subcommand).None? then "help" else old(subcommand).value)
      ensures NamesSite(subcommand.value, siteIds) ==>
        var report := SiteReportOf(IntCast(subcommand.value), network(IntCast(subcommand.value)));
        && result.SiteFixed?
        && result.counts == report.counts
        && |result.csv| == |report.imagesSansAlt| + 1 && result.csv[0] == CsvHeader
        && (forall i :: 0 <= i < |report.imagesSansAlt| ==> result.csv[i + 1] == CsvRow(report.imagesSansAlt[i]))
        && errors == old(errors) + SiteErrorLog(report.siteId, network(report.siteId), network(report.siteId).posts)
      ensures !NamesSite(subcommand.value, siteIds) && subcommand.value in ["all", "small"] ==>
        var maxPosts := if subcommand.value == "all" then MaxAllSitePosts else MaxSmallSitePosts;
        var sansAlt := GroupSansAlt(AsWritten, sites, maxPosts, network);
        && result.GroupFixed?
        && result.reports == GroupReports(AsWritten, sites, maxPosts, network)
        && |result.csv| == |sansAlt| + 1 && result.csv[0] == CsvHeader
        && (forall i :: 0 <= i < |sansAlt| ==> result.csv[i + 1] == CsvRow(sansAlt[i]))
        && errors == old(errors) + GroupErrorLog(AsWritten, sites, maxPosts, network)
      ensures !NamesSite(subcommand.value, siteIds) && subcommand.value == "help" ==>
        result == Help && errors == old(errors)
      ensures !NamesSite(subcommand.value, siteIds) && subcommand.value !in ["all", "small", "help"] ==>
        result == Help && errors == old(errors) + [Message("Invalid subcommand for fix: " + subcommand.value)]
    {
      if subcommand.None? {
        subcommand := Some("help");
      }
      var sub := subcommand.value;
      if NamesSite(sub, siteIds) {
        var report := FixImgAltTextForSite(IntCast(sub));
        var csv := ImgSansAltToCsv(report.imagesSansAlt);
        result := SiteFixed(report.counts, csv);
      } else if sub == "all" || sub == "small" {
        var maxPosts := if sub == "all" then MaxAllSitePosts else MaxSmallSitePosts;
        var reports, sansAlt, log := RunGroup(sites, maxPosts, network);
        errors := errors + log;
        var csv := ImgSansAltToCsv(sansAlt);
        result := GroupFixed(reports, csv);
      } else if sub == "help" {
        result := Help;
      } else {
        errors := errors + [Message("Invalid subcommand for fix: " + sub)];
        result := Help;
      }
    }
  }

  // ---------------------------------------------------------------------------
  // Properties of a run
  // ---------------------------------------------------------------------------

  /**
   * Over a whole site, every `<img>` of every published post is counted
   * once as updated or skipped; missing is a subset of skipped, and the
   * site's "sans alt" list has one entry per missing image.
   */
  lemma {:induction false} SiteTallyCovers(blogId: int, blog: Blog, posts: seq<PostRecord>)
    ensures SiteTally(blogId, blog, posts).updated + SiteTally(blogId, blog, posts).skipped == ImageCount(posts)
    ensures SiteTally(blogId, blog, posts).missing <= SiteTally(blogId, blog, posts).skipped
    ensures |SiteSansAlt(blogId, blog, posts)| == SiteTally(blogId, blog, posts).missing
    decreases |posts|
  {
    if posts != [] {
      SiteTallyCovers(blogId, blog, posts[..|posts| - 1]);
      TallyCoversEveryImage(PostImages(blogId, blog, posts[|posts| - 1]));
    }
  }

  /** The site's log has one entry per post at most, each a post's non-empty list of save errors. */
  lemma {:induction false} SiteErrorLogShape(blogId: int, blog: Blog, posts: seq<PostRecord>)
    ensures |SiteErrorLog(blogId, blog, posts)| <= |posts|
    ensures forall e :: e in SiteErrorLog(blogId, blog, posts) ==> e.PostErrors? && |e.messages| > 0
    decreases |posts|
  {
    if posts != [] {
      SiteErrorLogShape(blogId, blog, posts[..|posts| - 1]);
    }
  }

  /**
   * A post whose pass rewrites nothing, and so never saves, or whose save
   * succeeds, logs nothing; a site of such posts has an empty log.
   */
  lemma QuietPostLogsNothing(blogId: int, blog: Blog, posts: seq<PostRecord>)
    requires forall p :: p in posts ==> p.persist == Persisted || !AnyRewrite(PostImages(blogId, blog, p))
    ensures SiteErrorLog(blogId, blog, posts) == []
    decreases |posts|
  {
    if posts != [] {
      var init := posts[..|posts| - 1];
      assert forall p :: p in init ==> p in posts;
      QuietPostLogsNothing(blogId, blog, init);
    }
  }

  /**
   * Merged in order, the group's "sans alt" list has one entry per missing
   * image of the processed sites.
   */
  lemma {:induction false} GroupSansAltCountsMissing(sites: Entries<string, Site>, maxPosts: nat, network: int -> Blog)
    ensures |GroupSansAlt(Intended, sites, maxPosts, network)| == GroupTally(Intended, sites, maxPosts, network).missing
    decreases |sites|
  {
    if sites != [] {
      GroupSansAltCountsMissing(sites[..|sites| - 1], maxPosts, network);
      var site := sites[|sites| - 1].1;
      SiteTallyCovers(site.id, network(site.id), network(site.id).posts);
    }
  }

  /**
   * Merged with `+=`, the group's list is only as long as the longest list of
   * a processed site, which is at most the number of missing images counted.
   */
  lemma {:induction false} GroupSansAltAsWrittenLength(sites: Entries<string, Site>, maxPosts: nat, network: int -> Blog)
    ensures |GroupSansAlt(AsWritten, sites, maxPosts, network)| == LongestSansAlt(sites, maxPosts, network)
    ensures LongestSansAlt(sites, maxPosts, network) <= GroupTally(AsWritten, sites, maxPosts, network).missing
    decreases |sites|
  {
    if sites != [] {
      GroupSansAltAsWrittenLength(sites[..|sites| - 1], maxPosts, network);
      var site := sites[|sites| - 1].1;
      SiteTallyCovers(site.id, network(site.id), network(site.id).posts);
    }
  }

  /** The longest list bounds the list of every site the written loop processes. */
  lemma {:induction false} LongestSansAltBounds(sites: Entries<string, Site>, maxPosts: nat, network: int -> Blog, j: nat)
    requires j < |sites| && Processed(AsWritten, sites[j].1, maxPosts)
    ensures |SansAltOf(sites[j].1, network)| <= LongestSansAlt(sites, maxPosts, network)
    decreases |sites|
  {
    if j < |sites| - 1 {
      var init := sites[..|sites| - 1];
      assert init[j] == sites[j];
      LongestSansAltBounds(init, maxPosts, network, j);
    }
  }

  /**
   * Site `j` supplies position `k` of the list merged with `+=`: it is
   * processed, its list reaches past `k` and gives the merged list's element
   * there, and no earlier processed site's list reaches that far.
   */
  predicate SuppliesPosition(sites: Entries<string, Site>, maxPosts: nat, network: int -> Blog, k: nat, j: int) {
    && 0 <= j < |sites| && Processed(AsWritten, sites[j].1, maxPosts)
    && k < |SansAltOf(sites[j].1, network)|
    && k < |GroupSansAlt(AsWritten, sites, maxPosts, network)|
    && GroupSansAlt(AsWritten, sites, maxPosts, network)[k] == SansAltOf(sites[j].1, network)[k]
    && (forall i :: 0 <= i < j && Processed(AsWritten, sites[i].1, maxPosts) ==> |SansAltOf(sites[i].1, network)| <= k)
  }

  /**
   * Position `k` of the list merged with `+=` holds position `k` of the first
   * processed site whose list reaches that far: a later site only adds the
   * images past the end of every earlier list.
   */
  lemma {:induction false} GroupSansAltAsWrittenPositions(sites: Entries<string, Site>, maxPosts: nat, network: int -> Blog, k: nat)
    requires k < |GroupSansAlt(AsWritten, sites, maxPosts, network)|
    ensures exists j :: SuppliesPosition(sites, maxPosts, network, k, j)
    decreases |sites|
  {
    var init := sites[..|sites| - 1];
    var last := |sites| - 1;
    var site := sites[last].1;
    var before := GroupSansAlt(AsWritten, init, maxPosts, network);
    var whole := GroupSansAlt(AsWritten, sites, maxPosts, network);
    if k < |before| {
      assert whole[..|before|] == before;
      assert whole[k] == before[k];
      GroupSansAltAsWrittenPositions(init, maxPosts, network, k);
      var j :| SuppliesPosition(init, maxPosts, network, k, j);
      assert sites[j] == init[j];
      forall i | 0 <= i < j && Processed(AsWritten, sites[i].1, maxPosts)
        ensures |SansAltOf(sites[i].1, network)| <= k
      {
        assert init[i] == sites[i];
      }
      assert SuppliesPosition(sites, maxPosts, network, k, j);
    } else {
      assert Processed(AsWritten, site, maxPosts);
      assert whole[k] == SansAltOf(site, network)[k];
      GroupSansAltAsWrittenLength(init, maxPosts, network);
      forall i | 0 <= i < last && Processed(AsWritten, sites[i].1, maxPosts)
        ensures |SansAltOf(sites[i].1, network)| <= k
      {
        assert init[i] == sites[i];
        LongestSansAltBounds(init, maxPosts, network, i);
      }
      assert SuppliesPosition(sites, maxPosts, network, k, last);
    }
  }

  /** The group report only has names of the site table. */
  lemma {:induction false} GroupReportKeysAreSites(form: LoopForm, sites: Entries<string, Site>, maxPosts: nat, network: int -> Blog, name: string)
    requires name in Keys(GroupReports(form, sites, maxPosts, network))
    ensures name in Keys(sites)
    decreases |sites|
  {
    var init := sites[..|sites| - 1];
    var before := GroupReports(form, init, maxPosts, network);
    var (last, site) := sites[|sites| - 1];
    PutKeys(before, last, NamedCounts(SiteReportOf(site.id, network(site.id)).counts, last));
    if name != last {
      assert name in Keys(before);
      GroupReportKeysAreSites(form, init, maxPosts, network, name);
      var k :| 0 <= k < |init| && Keys(init)[k] == name;
      assert Keys(sites)[k] == name;
    } else {
      assert Keys(sites)[|sites| - 1] == name;
    }
  }

  /** Adding a site to the table leaves the report entries of the other names as they were. */
  lemma GroupReportsStep(form: LoopForm, sites: Entries<string, Site>, maxPosts: nat, network: int -> Blog, k: string)
    requires sites != [] && k != sites[|sites| - 1].0
    ensures k in Keys(GroupReports(form, sites, maxPosts, network)) <==> k in Keys(GroupReports(form, sites[..|sites| - 1], maxPosts, network))
    ensures Get(GroupReports(form, sites, maxPosts, network), k) == Get(GroupReports(form, sites[..|sites| - 1], maxPosts, network), k)
  {
    var (name, site) := sites[|sites| - 1];
    PutKeys(GroupReports(form, sites[..|sites| - 1], maxPosts, network), name,
            NamedCounts(SiteReportOf(site.id, network(site.id)).counts, name));
  }

  /** The last site of a table with distinct names is reported exactly when it is processed, with its own counters. */
  lemma GroupReportsLast(form: LoopForm, sites: Entries<string, Site>, maxPosts: nat, network: int -> Blog)
    requires DistinctKeys(sites) && sites != []
    ensures
      var (name, site) := sites[|sites| - 1];
      && (name in Keys(GroupReports(form, sites, maxPosts, network)) <==> Processed(form, site, maxPosts))
      && (Processed(form, site, maxPosts) ==>
            Get(GroupReports(form, sites, maxPosts, network), name) ==
              Some(NamedCounts(SiteReportOf(site.id, network(site.id)).counts, name)))
  {
    var init := sites[..|sites| - 1];
    var (name, site) := sites[|sites| - 1];
    var before := GroupReports(form, init, maxPosts, network);
    DistinctKeysInit(sites);
    PutKeys(before, name, NamedCounts(SiteReportOf(site.id, network(site.id)).counts, name));
    if !Processed(form, site, maxPosts) && name in Keys(before) {
      GroupReportKeysAreSites(form, init, maxPosts, network, name);
      assert false;
    }
  }

  /**
   * For a site table with distinct names, a site is in the group report
   * exactly when the loop processes it, and its entry is its own counters
   * under its name.
   */
  lemma {:induction false} GroupReportsMembers(form: LoopForm, sites: Entries<string, Site>, maxPosts: nat, network: int -> Blog, i: nat)
    requires DistinctKeys(sites) && i < |sites|
    ensures sites[i].0 in Keys(GroupReports(form, sites, maxPosts, network)) <==> Processed(form, sites[i].1, maxPosts)
    ensures Processed(form, sites[i].1, maxPosts) ==>
      Get(GroupReports(form, sites, maxPosts, network), sites[i].0) ==
        Some(NamedCounts(SiteReportOf(sites[i].1.id, network(sites[i].1.id)).counts, sites[i].0))
    decreases |sites|
  {
    if i < |sites| - 1 {
      var init := sites[..|sites| - 1];
      DistinctKeysInit(sites);
      assert init[i] == sites[i];
      GroupReportsMembers(form, init, maxPosts, network, i);
      GroupReportsStep(form, sites, maxPosts, network, sites[i].0);
    } else {
      GroupReportsLast(form, sites, maxPosts, network);
    }
  }

  /**
   * Blog 18 under the limit: the written loop reports it with its own
   * counters, though it says it skips it; the intended loop leaves it out.
   */
  lemma Blog18ProcessedAsWritten(sites: Entries<string, Site>, maxPosts: nat, network: int -> Blog, i: nat)
    requires DistinctKeys(sites) && i < |sites|
    requires sites[i].1.id == SkippedBlogId && sites[i].1.postsCount < maxPosts
    ensures Get(GroupReports(AsWritten, sites, maxPosts, network), sites[i].0) ==
      Some(NamedCounts(SiteReportOf(SkippedBlogId, network(SkippedBlogId)).counts, sites[i].0))
    ensures sites[i].0 !in Keys(GroupReports(Intended, sites, maxPosts, network))
  {
    GroupReportsMembers(AsWritten, sites, maxPosts, network, i);
    GroupReportsMembers(Intended, sites, maxPosts, network, i);
  }

  /**
   * Two processed sites, the second with no more images without alt than the
   * first: merged with `+=`, the list is the first site's alone, and every
   * image of the second is lost; merged in order, both are kept.
   */
  lemma UnionMergeDropsSecondSite(a: Site, b: Site, na: string, nb: string, maxPosts: nat, network: int -> Blog)
    requires a.id != SkippedBlogId && b.id != SkippedBlogId
    requires a.postsCount < maxPosts && b.postsCount < maxPosts
    requires 0 < |SansAltOf(b, network)| <= |SansAltOf(a, network)|
    ensures GroupSansAlt(AsWritten, [(na, a), (nb, b)], maxPosts, network) == SansAltOf(a, network)
    ensures GroupSansAlt(Intended, [(na, a), (nb, b)], maxPosts, network) == SansAltOf(a, network) + SansAltOf(b, network)
  {
    var sites := [(na, a), (nb, b)];
    var sa := SansAltOf(a, network);
    var sb := SansAltOf(b, network);
    assert sites[..1] == [(na, a)];
    assert sites[..1][..0] == [];
    assert GroupSansAlt(AsWritten, sites[..1], maxPosts, network) == ListUnion([], sa);
    assert ListUnion([], sa) == sa by {
      assert sa[0..] == sa;
    }
    assert ListUnion(sa, sb) == sa;
    assert GroupSansAlt(Intended, sites[..1], maxPosts, network) == [] + sa;
  }

  /** The subcommand names a site exactly as that site's decimal id, so casting it back gives a listed id. */
  lemma NamesSiteCastsBack(sub: string, siteIds: seq<int>)
    requires NamesSite(sub, siteIds)
    ensures IntCast(sub) in siteIds && IntToString(IntCast(sub)) == sub
  {
    var k :| 0 <= k < |siteIds| && IntToString(siteIds[k]) == sub;
    IntCastRoundTrip(siteIds[k]);
  }

  /** The blog id and post id columns of a CSV row read back as the image's blog and post. */
  lemma CsvRowIdsReadBack(img: EmbeddedImage)
    ensures |CsvRow(img)| == |CsvHeader|
    ensures IntCast(CsvRow(img)[0]) == img.post.blogId && IntCast(CsvRow(img)[2]) == img.post.postId
    ensures CsvRow(img)[1] == img.post.blogPath && CsvRow(img)[3] == img.post.title && CsvRow(img)[4] == img.src
  {
    IntCastRoundTrip(img.post.blogId);
    IntCastRoundTrip(img.post.postId);
  }
}

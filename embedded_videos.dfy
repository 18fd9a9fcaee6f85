/**
 * EmbeddedVideosScript: lists the published posts of every site, but the
 * excluded ones, whose content embeds a YouTube or Vimeo video, with each
 * post's public URL, in one CSV file.
 */
module EmbeddedVideos {
  import opened Wrappers
  import opened PhpText
  import opened PhpArray
  import opened WpCli
  import opened ChapmanPosts
  import opened PostCsv

  /** The SQL conditions a post's content must meet one of. */
  const SearchTerms: seq<string> := [
    "post_content LIKE '%www.youtube.com/watch?%'",
    "post_content LIKE '%player.vimeo.com%'"]

  /** Sites never scanned. */
  const ExcludedSitePaths: seq<string> := ["/huell-howser-archives/"]

  const DevelopmentDomain := "http://localhost:9999"
  const StagingDomain := "https://dev-blogs.chapman.edu"
  const ProductionDomain := "https://blogs.chapman.edu"

  /** The columns of the video report. */
  const VideoDataMap: Entries<string, PostVar> := [
    ("Blog ID", BlogIdVar),
    ("Blog Path", BlogPathVar),
    ("Post ID", IdVar),
    ("Post Title", TitleVar),
    ("Post URL", PostUrlVar),
    ("Post Date", DateVar),
    ("Post Modified", DateModifiedVar)]

  // ---------------------------------------------------------------------------
  // Domain
  // ---------------------------------------------------------------------------

  /** One arm of a PHP `switch`: its case value (`None` for `default`), the domain it assigns, and whether it ends in `break`. */
  datatype Arm = Arm(caseValue: Option<string>, domain: string, breaks: bool)

  /** The first `case` whose value equals the switched one. */
  function FirstCase(arms: seq<Arm>, env: string): (k: Option<nat>)
    ensures k.Some? ==> k.value < |arms| && arms[k.value].caseValue == Some(env)
    ensures k.Some? ==> forall j :: 0 <= j < k.value ==> arms[j].caseValue != Some(env)
    ensures k.None? ==> forall j :: 0 <= j < |arms| ==> arms[j].caseValue != Some(env)
  {
    if arms == [] then None
    else if arms[0].caseValue == Some(env) then Some(0)
    else match FirstCase(arms[1..], env)
      case None => None
      case Some(k) => Some(k + 1)
  }

  /** The `default` arm. */
  function DefaultArm(arms: seq<Arm>): (k: Option<nat>)
    ensures k.Some? ==> k.value < |arms| && arms[k.value].caseValue.None?
    ensures k.None? ==> forall j :: 0 <= j < |arms| ==> arms[j].caseValue.Some?
  {
    if arms == [] then None
    else if arms[0].caseValue.None? then Some(0)
    else match DefaultArm(arms[1..])
      case None => None
      case Some(k) => Some(k + 1)
  }

  /** From arm `k` on, each arm assigns its domain, until one ends in `break` or the arms run out. */
  function RunArms(arms: seq<Arm>, k: nat, domain: string): string
    decreases |arms| - k
  {
    if k >= |arms| then domain
    else if arms[k].breaks then arms[k].domain
    else RunArms(arms, k + 1, arms[k].domain)
  }

  /**
   * `switch ($env)`: execution enters at the first matching case, or at
   * `default` when none matches, and falls through the arms below it.
   */
  function SwitchDomain(arms: seq<Arm>, env: string, domain: string): string {
    match FirstCase(arms, env)
    case Some(k) => RunArms(arms, k, domain)
    case None =>
      match DefaultArm(arms)
      case Some(k) => RunArms(arms, k, domain)
      case None => domain
  }

  /** The constructor's switch as written: no arm ends in `break`. */
  const WrittenArms: seq<Arm> := [
    Arm(Some("development"), DevelopmentDomain, false),
    Arm(Some("staging"), StagingDomain, false),
    Arm(None, ProductionDomain, false)]

  /** The same switch with a `break` after every assignment. */
  const IntendedArms: seq<Arm> := [
    Arm(Some("development"), DevelopmentDomain, true),
    Arm(Some("staging"), StagingDomain, true),
    Arm(None, ProductionDomain, true)]

  /** As written, every environment falls through to `default`: the domain is always production. */
  lemma WrittenSwitchEndsInProduction(env: string, domain: string)
    ensures SwitchDomain(WrittenArms, env, domain) == ProductionDomain
  {
    assert RunArms(WrittenArms, 2, domain) == ProductionDomain by {
      assert RunArms(WrittenArms, 3, ProductionDomain) == ProductionDomain;
    }
    assert RunArms(WrittenArms, 0, domain) == RunArms(WrittenArms, 1, DevelopmentDomain);
    assert RunArms(WrittenArms, 1, DevelopmentDomain) == RunArms(WrittenArms, 2, StagingDomain);
    assert RunArms(WrittenArms, 1, domain) == RunArms(WrittenArms, 2, StagingDomain);
    assert RunArms(WrittenArms, 2, StagingDomain) == ProductionDomain by {
      assert RunArms(WrittenArms, 3, ProductionDomain) == ProductionDomain;
    }
  }

  /**
   * The `switch ($env)` of the constructor, as written: a matching case runs
   * its own assignment and every one below it, and the last one, `default`,
   * always runs.
   */
  method DomainAsWritten(env: string) returns (domain: string)
    ensures domain == SwitchDomain(WrittenArms, env, "")
    ensures domain == ProductionDomain
  {
    domain := "";
    var matched := false;
    if env == "development" {
      matched := true;
    }
    if matched {
      domain := DevelopmentDomain;
    }
    if matched || env == "staging" {
      matched := true;
      domain := StagingDomain;
    }
    domain := ProductionDomain;
    WrittenSwitchEndsInProduction(env, "");
  }

  /** The domain each environment names. */
  function IntendedDomain(env: string): (domain: string)
    ensures env == "development" ==> domain == DevelopmentDomain
    ensures env == "staging" ==> domain == StagingDomain
    ensures env != "development" && env != "staging" ==> domain == ProductionDomain
  {
    if env == "development" then DevelopmentDomain
    else if env == "staging" then StagingDomain
    else ProductionDomain
  }

  /** With a `break` after every assignment the switch gives each environment its own domain. */
  lemma IntendedSwitchDomains(env: string, domain: string)
    ensures SwitchDomain(IntendedArms, env, domain) == IntendedDomain(env)
  {
    var tail1, tail2 := IntendedArms[1..], IntendedArms[2..];
    assert tail1[1..] == tail2;
    assert tail1[0] == IntendedArms[1] && tail2[0] == IntendedArms[2];
    if env == "development" {
      assert FirstCase(IntendedArms, env) == Some(0);
    } else if env == "staging" {
      assert FirstCase(tail1, env) == Some(0);
    } else {
      assert FirstCase(tail2, env).None? by {
        assert FirstCase(tail2[1..], env).None?;
      }
      assert DefaultArm(tail2) == Some(0);
    }
  }

  /** The written and the intended switch agree exactly outside development and staging. */
  lemma FallThroughOverridesEnv(env: string)
    ensures SwitchDomain(WrittenArms, env, "") == SwitchDomain(IntendedArms, env, "") <==>
            env != "development" && env != "staging"
  {
    WrittenSwitchEndsInProduction(env, "");
    IntendedSwitchDomains(env, "");
  }

  // ---------------------------------------------------------------------------
  // Sites
  // ---------------------------------------------------------------------------

  /** A site as this script's `load_sites` records it: the name is not trimmed and there is no slug. */
  datatype VideoSite = VideoSite(id: int, path: string, name: string, postsCount: nat)

  function VideoSiteOf(r: RawSite): VideoSite {
    VideoSite(r.blogId, r.path, r.blogName, r.publishedCount)
  }

  /** The sites `load_sites` keeps: those whose path is not excluded, keyed by name, a later name replacing an earlier one. */
  function KeptSites(raw: seq<RawSite>, excluded: seq<string>): Entries<string, VideoSite>
    decreases |raw|
  {
    if raw == [] then []
    else
      var last := raw[|raw| - 1];
      var kept := KeptSites(raw[..|raw| - 1], excluded);
      if last.path in excluded then kept else Put(kept, last.blogName, VideoSiteOf(last))
  }

  /** `load_sites`: skips the excluded paths and keeps the other sites keyed by name. */
  method LoadSites(raw: seq<RawSite>, excluded: seq<string>) returns (loaded: Entries<string, VideoSite>)
    ensures loaded == KeptSites(raw, excluded)
  {
    loaded := [];
    for i := 0 to |raw|
      invariant loaded == KeptSites(raw[..i], excluded)
    {
      assert raw[..i + 1][..i] == raw[..i];
      if raw[i].path in excluded {
        continue;
      }
      loaded := Put(loaded, raw[i].blogName, VideoSiteOf(raw[i]));
    }
    assert raw[..|raw|] == raw;
  }

  /** No kept site has an excluded path, and every kept entry is a site of the input. */
  lemma {:induction false} KeptSitesNotExcluded(raw: seq<RawSite>, excluded: seq<string>, name: string)
    ensures Get(KeptSites(raw, excluded), name).Some? ==>
      var s := Get(KeptSites(raw, excluded), name).value;
      s.path !in excluded && exists i :: 0 <= i < |raw| && VideoSiteOf(raw[i]) == s && raw[i].blogName == name
    decreases |raw|
  {
    if raw != [] {
      var init, last := raw[..|raw| - 1], raw[|raw| - 1];
      KeptSitesNotExcluded(init, excluded, name);
      var kept := KeptSites(init, excluded);
      if Get(KeptSites(raw, excluded), name).Some? {
        if last.path !in excluded && name == last.blogName {
          assert VideoSiteOf(raw[|raw| - 1]) == Get(KeptSites(raw, excluded), name).value;
        } else {
          assert Get(KeptSites(raw, excluded), name) == Get(kept, name);
          var i :| 0 <= i < |init| && VideoSiteOf(init[i]) == Get(kept, name).value && init[i].blogName == name;
          assert raw[i] == init[i];
        }
      }
    }
  }

  /** A site whose path is not excluded and whose name no later site takes is kept as it is. */
  lemma {:induction false} UnexcludedSiteKept(raw: seq<RawSite>, excluded: seq<string>, j: nat)
    requires j < |raw| && raw[j].path !in excluded
    requires forall i :: j < i < |raw| ==> raw[i].blogName != raw[j].blogName
    ensures Get(KeptSites(raw, excluded), raw[j].blogName) == Some(VideoSiteOf(raw[j]))
    decreases |raw|
  {
    if j < |raw| - 1 {
      var init := raw[..|raw| - 1];
      assert init[j] == raw[j];
      UnexcludedSiteKept(init, excluded, j);
    }
  }

  // ---------------------------------------------------------------------------
  // Scan
  // ---------------------------------------------------------------------------

  /** One post of the scan: the post of the row with its public URL set. */
  function VideoPost(row: WpPostRow, ctx: BlogContext, domain: string): (p: ChapmanPost)
    ensures p.id == row.id && p.postUrl == Some(BuildPostUrl(NewChapmanPost(row, ctx), domain))
  {
    var post := NewChapmanPost(row, ctx);
    post.(postUrl := Some(BuildPostUrl(post, domain)))
  }

  /**
   * What WordPress answers on each blog: its post context, its posts table,
   * and the rows a query returns.
   */
  datatype Network = Network(ctxOf: int -> BlogContext, postsTableOf: int -> string, getResults: string -> seq<WpPostRow>)

  /** `get_current_blog_id()` right after `switch_to_blog($id)` answers `$id`. */
  ghost predicate SwitchesToBlog(net: Network) {
    forall id :: net.ctxOf(id).blogId == id
  }

  /** The rows the video query returns on one site. */
  function SiteRows(site: VideoSite, net: Network): seq<WpPostRow> {
    net.getResults(VideoSearchSql(net.postsTableOf(site.id), SearchTerms))
  }

  /** The posts `embedded_videos` returns on one site, in the order of the rows. */
  function SitePosts(site: VideoSite, net: Network, domain: string): (posts: seq<ChapmanPost>)
    ensures |posts| == |SiteRows(site, net)|
    ensures forall i :: 0 <= i < |posts| ==> posts[i] == VideoPost(SiteRows(site, net)[i], net.ctxOf(site.id), domain)
  {
    var rows := SiteRows(site, net);
    seq(|rows|, i requires 0 <= i < |rows| => VideoPost(rows[i], net.ctxOf(site.id), domain))
  }

  /** `scan_all_sites` as a value: the posts of every site, site after site. */
  function ScannedPosts(sites: Entries<string, VideoSite>, net: Network, domain: string): seq<ChapmanPost>
    decreases |sites|
  {
    if sites == [] then []
    else ScannedPosts(sites[..|sites| - 1], net, domain) + SitePosts(sites[|sites| - 1].1, net, domain)
  }

  /** `scan_site($site_id)`: the posts `embedded_videos` finds on the site; the search terms are never empty. */
  method ScanSite(site: VideoSite, net: Network, domain: string) returns (posts: seq<ChapmanPost>)
    ensures posts == SitePosts(site, net, domain)
  {
    var found := ChapmanPosts.EmbeddedVideos(SearchTerms, domain, net.postsTableOf(site.id), net.ctxOf(site.id), net.getResults);
    posts := found.value;
  }

  lemma ScanStep(sites: Entries<string, VideoSite>, i: nat, net: Network, domain: string)
    requires i < |sites|
    ensures ScannedPosts(sites[..i + 1], net, domain) == ScannedPosts(sites[..i], net, domain) + SitePosts(sites[i].1, net, domain)
  {
    assert sites[..i + 1][..i] == sites[..i];
  }

  /** On a network that switches blogs, every post a site's scan finds carries that site's id in the "Blog ID" column. */
  lemma SitePostsNameTheirSite(site: VideoSite, net: Network, domain: string)
    requires SwitchesToBlog(net)
    ensures Keys(VideoDataMap)[0] == "Blog ID"
    ensures forall p :: p in SitePosts(site, net, domain) ==>
      p.blogId == site.id && PostCells(p, Values(VideoDataMap))[0] == IntToString(site.id)
  {
    forall p | p in SitePosts(site, net, domain)
      ensures p.blogId == site.id && PostCells(p, Values(VideoDataMap))[0] == IntToString(site.id)
    {
      var rows := SiteRows(site, net);
      var i :| 0 <= i < |rows| && SitePosts(site, net, domain)[i] == p;
      assert p.blogId == net.ctxOf(site.id).blogId;
    }
  }

  /** `scan_all_sites`: the per-site lists merged in site order. */
  method ScanAllSites(sites: Entries<string, VideoSite>, net: Network, domain: string) returns (all: seq<ChapmanPost>)
    ensures all == ScannedPosts(sites, net, domain)
  {
    all := [];
    for i := 0 to |sites|
      invariant all == ScannedPosts(sites[..i], net, domain)
    {
      ScanStep(sites, i, net, domain);
      var sitePosts := ScanSite(sites[i].1, net, domain);
      all := all + sitePosts;
    }
    assert sites[..|sites|] == sites;
  }

  lemma ConcatAssoc<T>(x: seq<T>, y: seq<T>, z: seq<T>)
    ensures (x + y) + z == x + (y + z)
  {
  }

  /** Scanning one more site appends that site's posts. */
  lemma ScanOneMore(sites: Entries<string, VideoSite>, entry: (string, VideoSite), net: Network, domain: string)
    ensures ScannedPosts(sites + [entry], net, domain) == ScannedPosts(sites, net, domain) + SitePosts(entry.1, net, domain)
  {
    assert (sites + [entry])[..|sites|] == sites;
  }

  /** The scan of two runs of sites is the scan of the first followed by the scan of the second. */
  lemma {:induction false} ScanConcatenates(a: Entries<string, VideoSite>, b: Entries<string, VideoSite>, net: Network, domain: string)
    ensures ScannedPosts(a + b, net, domain) == ScannedPosts(a, net, domain) + ScannedPosts(b, net, domain)
    decreases |b|
  {
    if b == [] {
      assert a + b == a;
    } else {
      var initB, last := b[..|b| - 1], b[|b| - 1];
      var p := SitePosts(last.1, net, domain);
      assert a + b == (a + initB) + [last];
      assert initB + [last] == b;
      ScanOneMore(a + initB, last, net, domain);
      ScanOneMore(initB, last, net, domain);
      ScanConcatenates(a, initB, net, domain);
      calc {
        ScannedPosts(a + b, net, domain);
        ScannedPosts(a + initB, net, domain) + p;
        (ScannedPosts(a, net, domain) + ScannedPosts(initB, net, domain)) + p;
        { ConcatAssoc(ScannedPosts(a, net, domain), ScannedPosts(initB, net, domain), p); }
        ScannedPosts(a, net, domain) + (ScannedPosts(initB, net, domain) + p);
        ScannedPosts(a, net, domain) + ScannedPosts(b, net, domain);
      }
    }
  }

  /** Every scanned post carries a public URL on the chosen domain. */
  lemma {:induction false} ScannedPostsHaveUrls(sites: Entries<string, VideoSite>, net: Network, domain: string)
    ensures forall p :: p in ScannedPosts(sites, net, domain) ==> p.postUrl.Some? && StartsWith(p.postUrl.value, domain)
    decreases |sites|
  {
    if sites != [] {
      ScannedPostsHaveUrls(sites[..|sites| - 1], net, domain);
    }
  }

  // ---------------------------------------------------------------------------
  // Report
  // ---------------------------------------------------------------------------

  /** `tmp/posts-with-videos-<Ymd>.csv` */
  function VideoCsvPath(today: string): string {
    "tmp/posts-with-videos-" + today + ".csv"
  }

  /** `write_posts_to_csv($posts)`: the headers, then one row per post, written to the dated file. */
  method WritePostsToCsv(posts: seq<ChapmanPost>, today: string) returns (file: CsvFile)
    ensures file.path == VideoCsvPath(today)
    ensures |file.rows| == |posts| + 1 && file.rows[0] == Keys(VideoDataMap)
    ensures forall i :: 0 <= i < |posts| ==> file.rows[i + 1] == PostCells(posts[i], Values(VideoDataMap))
  {
    var rows := DataRows(VideoDataMap, posts);
    file := CsvFile(VideoCsvPath(today), rows);
  }

  /** In the report, the "Post URL" column of every scanned post's row holds that post's URL, on the domain. */
  lemma UrlColumnHoldsUrl(sites: Entries<string, VideoSite>, net: Network, domain: string, i: nat)
    requires i < |ScannedPosts(sites, net, domain)|
    ensures Keys(VideoDataMap)[4] == "Post URL"
    ensures var p := ScannedPosts(sites, net, domain)[i];
      && p.postUrl.Some?
      && PostCells(p, Values(VideoDataMap))[4] == p.postUrl.value
      && StartsWith(p.postUrl.value, domain)
  {
    ScannedPostsHaveUrls(sites, net, domain);
    assert ScannedPosts(sites, net, domain)[i] in ScannedPosts(sites, net, domain);
  }

  class EmbeddedVideosScript {
    var command: string
    var subcommand: Option<string>
    var errors: seq<string>
    var sites: Entries<string, VideoSite>
    var siteIds: seq<int>
    var domain: string

    /**
     * `new EmbeddedVideosScript($args, $wpdb, $env)`: the base constructor
     * parses the arguments against the inherited command table, which has
     * only "usage"; its call to `load_sites` runs this class's override,
     * whose result it drops, so `site_ids` stays empty; the sites are then
     * loaded again and kept. The environment switch falls through to its
     * `default`, so the domain is production whatever the environment.
     */
    constructor (args: seq<string>, raw: seq<RawSite>, env: string)
      ensures command == CommandOf(args) && subcommand == SubcommandOf(args)
      ensures errors == if CommandOf(args) == UsageCommand then [] else [InvalidCommandMessage(CommandOf(args))]
      ensures sites == KeptSites(raw, ExcludedSitePaths)
      ensures siteIds == []
      ensures domain == SwitchDomain(WrittenArms, env, "")
      ensures domain == ProductionDomain
    {
      var cmd := CommandOf(args);
      command, subcommand := cmd, SubcommandOf(args);
      errors := if cmd == UsageCommand then [] else [InvalidCommandMessage(cmd)];
      var loaded := LoadSites(raw, ExcludedSitePaths);
      var envDomain := DomainAsWritten(env);
      sites := loaded;
      siteIds := [];
      domain := envDomain;
    }

    /** `run()`: scan every site and write the report. */
    method Run(net: Network, today: string) returns (file: CsvFile)
      ensures file.path == VideoCsvPath(today)
      ensures var posts := ScannedPosts(sites, net, domain);
        |file.rows| == |posts| + 1 && file.rows[0] == Keys(VideoDataMap) &&
        forall i :: 0 <= i < |posts| ==> file.rows[i + 1] == PostCells(posts[i], Values(VideoDataMap))
    {
      var posts := ScanAllSites(sites, net, domain);
      file := WritePostsToCsv(posts, today);
    }
  }
}

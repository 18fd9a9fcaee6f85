/**
 * MangledPostsScript: the `scan` command. Every site's posts that carry the
 * marker the alt-text fix left behind are counted; a site with many gets a
 * CSV file of its own, the others share the "other" file, and a report
 * records, per site, the count and where its posts are listed.
 */
module MangledPosts {
  import opened Wrappers
  import opened PhpText
  import opened PhpArray
  import opened WpCli
  import opened ChapmanPosts
  import opened PostCsv

  /** The columns of a mangled-post report. */
  const MangledDataMap: Entries<string, PostVar> := [
    ("Blog ID", BlogIdVar),
    ("Blog Path", BlogPathVar),
    ("Post ID", IdVar),
    ("Post Date", DateVar),
    ("Post Modified", DateModifiedVar),
    ("Post Title", TitleVar),
    ("Post Content", ContentVar)]

  /** The shared file, and the report key that describes it. */
  const OtherName := "other"
  const SeeOther := "See [other]"

  /** A site with more posts than this gets a file of its own. */
  const OwnFileThreshold := 10

  /** `<output_dir>/<name>.csv` */
  function CsvPath(outputDir: string, name: string): (path: string)
    ensures StartsWith(path, outputDir + "/" + name)
  {
    outputDir + "/" + name + ".csv"
  }

  /** The file `generate_mangled_post_csv_file` writes: the headers, then one row per post. */
  function MangledCsv(outputDir: string, name: string, posts: seq<ChapmanPost>): (file: CsvFile)
    ensures file.path == CsvPath(outputDir, name)
    ensures |file.rows| == |posts| + 1 && file.rows[0] == Keys(MangledDataMap)
    ensures forall i :: 0 <= i < |posts| ==> file.rows[i + 1] == PostCells(posts[i], Values(MangledDataMap))
  {
    CsvFile(CsvPath(outputDir, name),
            seq(|posts| + 1, i requires 0 <= i <= |posts| =>
              if i == 0 then Keys(MangledDataMap) else PostCells(posts[i - 1], Values(MangledDataMap))))
  }

  /** `generate_mangled_post_csv_file($name, $mangled_posts)`: writes the rows and returns the path. */
  method GenerateMangledPostCsvFile(outputDir: string, name: string, posts: seq<ChapmanPost>) returns (file: CsvFile)
    ensures file == MangledCsv(outputDir, name, posts)
  {
    var rows := DataRows(MangledDataMap, posts);
    file := CsvFile(CsvPath(outputDir, name), rows);
  }

  /** Where a site's mangled posts are listed. */
  datatype Bucket = OwnFile | SharedFile | NoFile

  /** The rule as written: more than ten posts, a file of their own; two to ten, the shared file; else none. */
  function BucketAsWritten(count: nat): (b: Bucket)
    ensures b == NoFile <==> count <= 1
    ensures b == OwnFile <==> count > OwnFileThreshold
  {
    if count > OwnFileThreshold then OwnFile else if count > 1 then SharedFile else NoFile
  }

  /** The rule as intended: every site with a mangled post has them listed in some file. */
  function BucketOf(count: nat): (b: Bucket)
    ensures b == NoFile <==> count == 0
    ensures b == OwnFile <==> count > OwnFileThreshold
  {
    if count > OwnFileThreshold then OwnFile else if count > 0 then SharedFile else NoFile
  }

  /** The two rules differ exactly for a site with a single mangled post, which the written rule lists nowhere. */
  lemma SinglePostDroppedAsWritten(count: nat)
    ensures BucketAsWritten(count) != BucketOf(count) <==> count == 1
    ensures BucketAsWritten(1) == NoFile && BucketOf(1) == SharedFile
  {
  }

  /** Which of the two rules places a site's posts. */
  datatype BucketRule = AsWritten | Intended

  function BucketFor(rule: BucketRule, count: nat): Bucket {
    if rule == AsWritten then BucketAsWritten(count) else BucketOf(count)
  }

  /** What `report[$name]` holds: the count and the file the posts are in. */
  datatype ReportEntry = ReportEntry(mangledPosts: nat, csvFile: Option<string>)

  /** The report entry of one site with `count` mangled posts. */
  function SiteEntry(rule: BucketRule, site: Site, count: nat, outputDir: string): (e: ReportEntry)
    ensures e.mangledPosts == count
    ensures e.csvFile.None? <==> count == 0 || (rule == AsWritten && count == 1)
    ensures e.csvFile == Some(SeeOther) <== BucketFor(rule, count) == SharedFile
  {
    ReportEntry(count,
      match BucketFor(rule, count)
      case OwnFile => Some(Basename(CsvPath(outputDir, site.slug)))
      case SharedFile => Some(SeeOther)
      case NoFile => None)
  }

  /** The per-site part of the report, keyed by site name in site order. */
  function SiteReport(rule: BucketRule, sites: Entries<string, Site>, scan: int -> seq<ChapmanPost>, outputDir: string): Entries<string, ReportEntry>
    decreases |sites|
  {
    if sites == [] then []
    else
      var last := sites[|sites| - 1];
      Put(SiteReport(rule, sites[..|sites| - 1], scan, outputDir), last.0, SiteEntry(rule, last.1, |scan(last.1.id)|, outputDir))
  }

  /** The posts of the sites in the shared bucket, in site order. */
  function SharedPosts(rule: BucketRule, sites: Entries<string, Site>, scan: int -> seq<ChapmanPost>): seq<ChapmanPost>
    decreases |sites|
  {
    if sites == [] then []
    else
      var posts := scan(sites[|sites| - 1].1.id);
      SharedPosts(rule, sites[..|sites| - 1], scan) + (if BucketFor(rule, |posts|) == SharedFile then posts else [])
  }

  /** The files of the sites in the own-file bucket, in site order. */
  function OwnFiles(rule: BucketRule, sites: Entries<string, Site>, scan: int -> seq<ChapmanPost>, outputDir: string): seq<CsvFile>
    decreases |sites|
  {
    if sites == [] then []
    else
      var site := sites[|sites| - 1].1;
      var posts := scan(site.id);
      OwnFiles(rule, sites[..|sites| - 1], scan, outputDir) +
        (if BucketFor(rule, |posts|) == OwnFile then [MangledCsv(outputDir, site.slug, posts)] else [])
  }

  /** The report the loop returns: the sites' entries, then "other" with the shared count and file. */
  function MangledReport(rule: BucketRule, sites: Entries<string, Site>, scan: int -> seq<ChapmanPost>, outputDir: string): Entries<string, ReportEntry> {
    Put(SiteReport(rule, sites, scan, outputDir), OtherName,
        ReportEntry(|SharedPosts(rule, sites, scan)|, Some(Basename(CsvPath(outputDir, OtherName)))))
  }

  /** The files the loop writes: the own files in site order, then the shared file. */
  function MangledFiles(rule: BucketRule, sites: Entries<string, Site>, scan: int -> seq<ChapmanPost>, outputDir: string): seq<CsvFile> {
    OwnFiles(rule, sites, scan, outputDir) + [MangledCsv(outputDir, OtherName, SharedPosts(rule, sites, scan))]
  }

  /**
   * `generate_mangled_post_csv_files`, as written: for every site, in order,
   * its count goes in the report; more than ten posts go in a file of their
   * own, two to ten in the shared list, and a single post nowhere; then the
   * shared file is written, always, and described under "other". `scan`
   * gives what `mangled_by_alt_text_fix` returns on each blog.
   */
  method GenerateMangledPostCsvFiles(sites: Entries<string, Site>, scan: int -> seq<ChapmanPost>, outputDir: string)
    returns (report: Entries<string, ReportEntry>, files: seq<CsvFile>)
    ensures report == MangledReport(AsWritten, sites, scan, outputDir)
    ensures files == MangledFiles(AsWritten, sites, scan, outputDir)
  {
    report := [];
    var other: seq<ChapmanPost> := [];
    files := [];
    for i := 0 to |sites|
      invariant report == SiteReport(AsWritten, sites[..i], scan, outputDir)
      invariant other == SharedPosts(AsWritten, sites[..i], scan)
      invariant files == OwnFiles(AsWritten, sites[..i], scan, outputDir)
    {
      assert sites[..i + 1][..i] == sites[..i];
      var name, site := sites[i].0, sites[i].1;
      var posts := scan(site.id);
      var count := |posts|;
      var before := report;
      report := Put(report, name, ReportEntry(count, None));
      if count > OwnFileThreshold {
        var file := GenerateMangledPostCsvFile(outputDir, site.slug, posts);
        files := files + [file];
        report := Put(report, name, ReportEntry(count, Some(Basename(file.path))));
        PutTwice(before, name, ReportEntry(count, None), ReportEntry(count, Some(Basename(file.path))));
      } else if count > 1 {
        other := other + posts;
        report := Put(report, name, ReportEntry(count, Some(SeeOther)));
        PutTwice(before, name, ReportEntry(count, None), ReportEntry(count, Some(SeeOther)));
      }
    }
    assert sites[..|sites|] == sites;
    var otherFile := GenerateMangledPostCsvFile(outputDir, OtherName, other);
    report := Put(report, OtherName, ReportEntry(|other|, Some(Basename(otherFile.path))));
    files := files + [otherFile];
  }

  // ---------------------------------------------------------------------------
  // Properties of the report
  // ---------------------------------------------------------------------------

  /** The posts a file lists: every row but the header. */
  function ListedPosts(files: seq<CsvFile>): nat
    decreases |files|
  {
    if files == [] then 0
    else
      var rows := files[|files| - 1].rows;
      ListedPosts(files[..|files| - 1]) + (if |rows| > 0 then |rows| - 1 else 0)
  }

  /** The mangled posts of all sites. */
  function TotalMangled(sites: Entries<string, Site>, scan: int -> seq<ChapmanPost>): nat
    decreases |sites|
  {
    if sites == [] then 0 else TotalMangled(sites[..|sites| - 1], scan) + |scan(sites[|sites| - 1].1.id)|
  }

  /** The mangled posts of the sites whose posts the rule lists in no file. */
  function UnlistedPosts(rule: BucketRule, sites: Entries<string, Site>, scan: int -> seq<ChapmanPost>): nat
    decreases |sites|
  {
    if sites == [] then 0
    else
      var count := |scan(sites[|sites| - 1].1.id)|;
      UnlistedPosts(rule, sites[..|sites| - 1], scan) + (if BucketFor(rule, count) == NoFile then count else 0)
  }

  /** The number of sites with exactly one mangled post. */
  function OnePostSites(sites: Entries<string, Site>, scan: int -> seq<ChapmanPost>): nat
    decreases |sites|
  {
    if sites == [] then 0
    else OnePostSites(sites[..|sites| - 1], scan) + (if |scan(sites[|sites| - 1].1.id)| == 1 then 1 else 0)
  }

  /**
   * Under either rule, the own files, the shared list and the sites listed
   * nowhere together account for every mangled post once.
   */
  lemma {:induction false} BucketsPartitionPosts(rule: BucketRule, sites: Entries<string, Site>, scan: int -> seq<ChapmanPost>, outputDir: string)
    ensures ListedPosts(OwnFiles(rule, sites, scan, outputDir)) + |SharedPosts(rule, sites, scan)| + UnlistedPosts(rule, sites, scan)
            == TotalMangled(sites, scan)
    decreases |sites|
  {
    if sites != [] {
      var init := sites[..|sites| - 1];
      var site := sites[|sites| - 1].1;
      var posts := scan(site.id);
      BucketsPartitionPosts(rule, init, scan, outputDir);
      var own := OwnFiles(rule, init, scan, outputDir);
      if BucketFor(rule, |posts|) == OwnFile {
        var file := MangledCsv(outputDir, site.slug, posts);
        assert (own + [file])[..|own|] == own;
      } else {
        assert own + [] == own;
      }
    }
  }

  /** The written rule leaves out exactly one post per site that has a single one; the intended rule leaves out none. */
  lemma {:induction false} UnlistedPostsAreSinglePosts(sites: Entries<string, Site>, scan: int -> seq<ChapmanPost>)
    ensures UnlistedPosts(AsWritten, sites, scan) == OnePostSites(sites, scan)
    ensures UnlistedPosts(Intended, sites, scan) == 0
    decreases |sites|
  {
    if sites != [] {
      UnlistedPostsAreSinglePosts(sites[..|sites| - 1], scan);
    }
  }

  /** The listed posts of some files followed by one more file. */
  lemma ListedPostsSnoc(files: seq<CsvFile>, file: CsvFile)
    requires |file.rows| > 0
    ensures ListedPosts(files + [file]) == ListedPosts(files) + |file.rows| - 1
  {
    assert (files + [file])[..|files|] == files;
  }

  /**
   * As written, the files list every mangled post except one per site with
   * a single mangled post.
   */
  lemma MangledPostsListedAsWritten(sites: Entries<string, Site>, scan: int -> seq<ChapmanPost>, outputDir: string)
    ensures ListedPosts(MangledFiles(AsWritten, sites, scan, outputDir)) + OnePostSites(sites, scan) == TotalMangled(sites, scan)
  {
    ListedPostsSnoc(OwnFiles(AsWritten, sites, scan, outputDir), MangledCsv(outputDir, OtherName, SharedPosts(AsWritten, sites, scan)));
    BucketsPartitionPosts(AsWritten, sites, scan, outputDir);
    UnlistedPostsAreSinglePosts(sites, scan);
  }

  /** As intended, the files list every mangled post of every site exactly once. */
  lemma EveryMangledPostListed(sites: Entries<string, Site>, scan: int -> seq<ChapmanPost>, outputDir: string)
    ensures ListedPosts(MangledFiles(Intended, sites, scan, outputDir)) == TotalMangled(sites, scan)
  {
    ListedPostsSnoc(OwnFiles(Intended, sites, scan, outputDir), MangledCsv(outputDir, OtherName, SharedPosts(Intended, sites, scan)));
    BucketsPartitionPosts(Intended, sites, scan, outputDir);
    UnlistedPostsAreSinglePosts(sites, scan);
  }

  // ---------------------------------------------------------------------------
  // The files left on disk
  // ---------------------------------------------------------------------------

  /** The slugs of the sites with a file of their own, in site order. */
  function OwnSlugs(rule: BucketRule, sites: Entries<string, Site>, scan: int -> seq<ChapmanPost>): seq<string>
    decreases |sites|
  {
    if sites == [] then []
    else
      var site := sites[|sites| - 1].1;
      OwnSlugs(rule, sites[..|sites| - 1], scan) + (if BucketFor(rule, |scan(site.id)|) == OwnFile then [site.slug] else [])
  }

  /** No two own files share a slug, and none is named "other", so no file overwrites another. */
  predicate OwnSlugsClear(rule: BucketRule, sites: Entries<string, Site>, scan: int -> seq<ChapmanPost>) {
    var slugs := OwnSlugs(rule, sites, scan);
    OtherName !in slugs && forall i, j :: 0 <= i < j < |slugs| ==> slugs[i] != slugs[j]
  }

  /** Two names give the same CSV path only when they are equal. */
  lemma CsvPathInjective(outputDir: string, a: string, b: string)
    requires CsvPath(outputDir, a) == CsvPath(outputDir, b)
    ensures a == b
  {
    var n := |outputDir| + 1;
    assert a == CsvPath(outputDir, a)[n..n + |a|];
    assert b == CsvPath(outputDir, b)[n..n + |b|];
  }

  /** The k-th own file is written to the path of the k-th own slug. */
  lemma {:induction false} OwnFilesAtSlugs(rule: BucketRule, sites: Entries<string, Site>, scan: int -> seq<ChapmanPost>, outputDir: string)
    ensures |OwnFiles(rule, sites, scan, outputDir)| == |OwnSlugs(rule, sites, scan)|
    ensures forall k :: 0 <= k < |OwnSlugs(rule, sites, scan)| ==>
      OwnFiles(rule, sites, scan, outputDir)[k].path == CsvPath(outputDir, OwnSlugs(rule, sites, scan)[k])
    decreases |sites|
  {
    if sites != [] {
      OwnFilesAtSlugs(rule, sites[..|sites| - 1], scan, outputDir);
    }
  }

  /** With clear slugs, every file the loop writes goes to a path of its own. */
  lemma MangledFilesDistinctPaths(rule: BucketRule, sites: Entries<string, Site>, scan: int -> seq<ChapmanPost>, outputDir: string)
    requires OwnSlugsClear(rule, sites, scan)
    ensures DistinctPaths(MangledFiles(rule, sites, scan, outputDir))
  {
    var own, slugs := OwnFiles(rule, sites, scan, outputDir), OwnSlugs(rule, sites, scan);
    var files := MangledFiles(rule, sites, scan, outputDir);
    OwnFilesAtSlugs(rule, sites, scan, outputDir);
    forall i, j | 0 <= i < j < |files| ensures files[i].path != files[j].path {
      assert files[i] == own[i];
      if files[i].path == files[j].path {
        if j < |own| {
          assert files[j] == own[j];
          CsvPathInjective(outputDir, slugs[i], slugs[j]);
        } else {
          CsvPathInjective(outputDir, slugs[i], OtherName);
        }
      }
    }
  }

  /** As written and with clear slugs, the files on disk list every mangled post but one per site with a single one. */
  lemma MangledPostsOnDiskAsWritten(sites: Entries<string, Site>, scan: int -> seq<ChapmanPost>, outputDir: string)
    requires OwnSlugsClear(AsWritten, sites, scan)
    ensures ListedPosts(Values(Disk(MangledFiles(AsWritten, sites, scan, outputDir)))) + OnePostSites(sites, scan) == TotalMangled(sites, scan)
  {
    MangledFilesDistinctPaths(AsWritten, sites, scan, outputDir);
    DistinctWritesAllKept(MangledFiles(AsWritten, sites, scan, outputDir));
    MangledPostsListedAsWritten(sites, scan, outputDir);
  }

  /** As intended and with clear slugs, the files on disk list every mangled post of every site once. */
  lemma EveryMangledPostOnDisk(sites: Entries<string, Site>, scan: int -> seq<ChapmanPost>, outputDir: string)
    requires OwnSlugsClear(Intended, sites, scan)
    ensures ListedPosts(Values(Disk(MangledFiles(Intended, sites, scan, outputDir)))) == TotalMangled(sites, scan)
  {
    MangledFilesDistinctPaths(Intended, sites, scan, outputDir);
    DistinctWritesAllKept(MangledFiles(Intended, sites, scan, outputDir));
    EveryMangledPostListed(sites, scan, outputDir);
  }

  /** The files listed by one file. */
  lemma ListedOne(f: CsvFile)
    ensures ListedPosts([f]) == if |f.rows| > 0 then |f.rows| - 1 else 0
  {
    assert [f][..0] == [];
  }

  /** The files listed by two files with headers. */
  lemma ListedPair(f: CsvFile, g: CsvFile)
    requires |f.rows| > 0 && |g.rows| > 0
    ensures ListedPosts([f, g]) == |f.rows| - 1 + |g.rows| - 1
  {
    assert [f, g][..1] == [f];
    ListedOne(f);
  }

  /** A lone site with its own file: that file, then the empty shared file. */
  lemma OneOwnSite(rule: BucketRule, a: (string, Site), scan: int -> seq<ChapmanPost>, outputDir: string)
    requires |scan(a.1.id)| > OwnFileThreshold
    ensures TotalMangled([a], scan) == |scan(a.1.id)|
    ensures MangledFiles(rule, [a], scan, outputDir) ==
      [MangledCsv(outputDir, a.1.slug, scan(a.1.id)), MangledCsv(outputDir, OtherName, [])]
  {
    assert [a][..0] == [];
    assert OwnFiles(rule, [a], scan, outputDir) == [MangledCsv(outputDir, a.1.slug, scan(a.1.id))];
    assert SharedPosts(rule, [a], scan) == [];
  }

  /** Two sites with their own files: the two files in site order, then the empty shared file. */
  lemma TwoOwnSites(rule: BucketRule, a: (string, Site), b: (string, Site), scan: int -> seq<ChapmanPost>, outputDir: string)
    requires |scan(a.1.id)| > OwnFileThreshold && |scan(b.1.id)| > OwnFileThreshold
    ensures TotalMangled([a, b], scan) == |scan(a.1.id)| + |scan(b.1.id)|
    ensures MangledFiles(rule, [a, b], scan, outputDir) ==
      [MangledCsv(outputDir, a.1.slug, scan(a.1.id)),
       MangledCsv(outputDir, b.1.slug, scan(b.1.id)),
       MangledCsv(outputDir, OtherName, [])]
  {
    OneOwnSite(rule, a, scan, outputDir);
    assert [a, b][..1] == [a];
    assert OwnFiles(rule, [a], scan, outputDir) == [MangledCsv(outputDir, a.1.slug, scan(a.1.id))];
    assert SharedPosts(rule, [a], scan) == [];
  }

  /**
   * A lone site whose slug is "other" (a site named "Other", say) with more
   * than ten mangled posts: its own file `other.csv` is written, then
   * replaced by the empty shared file, so no post is left listed on disk.
   */
  lemma OtherSlugOverwritten(rule: BucketRule, a: (string, Site), scan: int -> seq<ChapmanPost>, outputDir: string)
    requires a.1.slug == OtherName && |scan(a.1.id)| > OwnFileThreshold
    ensures TotalMangled([a], scan) == |scan(a.1.id)|
    ensures ListedPosts(MangledFiles(rule, [a], scan, outputDir)) == TotalMangled([a], scan)
    ensures ListedPosts(Values(Disk(MangledFiles(rule, [a], scan, outputDir)))) == 0
  {
    OneOwnSite(rule, a, scan, outputDir);
    var own, shared := MangledCsv(outputDir, OtherName, scan(a.1.id)), MangledCsv(outputDir, OtherName, []);
    ListedPair(own, shared);
    DiskSamePathPair(own, shared);
    ListedOne(shared);
  }

  /**
   * Two sites with one slug (sites named "News" and "news", say), each with
   * more than ten mangled posts: the second site's file replaces the
   * first's, so the first site's posts are not on disk.
   */
  lemma SharedSlugOverwritten(rule: BucketRule, a: (string, Site), b: (string, Site), scan: int -> seq<ChapmanPost>, outputDir: string)
    requires a.1.slug == b.1.slug != OtherName
    requires |scan(a.1.id)| > OwnFileThreshold && |scan(b.1.id)| > OwnFileThreshold
    ensures ListedPosts(MangledFiles(rule, [a, b], scan, outputDir)) == TotalMangled([a, b], scan)
    ensures ListedPosts(Values(Disk(MangledFiles(rule, [a, b], scan, outputDir)))) == |scan(b.1.id)|
  {
    TwoOwnSites(rule, a, b, scan, outputDir);
    var slug := a.1.slug;
    var f1 := MangledCsv(outputDir, slug, scan(a.1.id));
    var f2 := MangledCsv(outputDir, slug, scan(b.1.id));
    var shared := MangledCsv(outputDir, OtherName, []);
    assert f2.path != shared.path by {
      if f2.path == shared.path {
        CsvPathInjective(outputDir, slug, OtherName);
      }
    }
    ListedPair(f1, f2);
    ListedPostsSnoc([f1, f2], shared);
    assert [f1, f2] + [shared] == [f1, f2, shared];
    DiskSamePathThenOther(f1, f2, shared);
    ListedPair(f2, shared);
  }

  /** The report describes each site, other than one named "other", by its own count and file. */
  lemma {:induction false} SiteReported(rule: BucketRule, sites: Entries<string, Site>, scan: int -> seq<ChapmanPost>, outputDir: string, j: nat)
    requires DistinctKeys(sites) && j < |sites| && sites[j].0 != OtherName
    ensures Get(MangledReport(rule, sites, scan, outputDir), sites[j].0) ==
            Some(SiteEntry(rule, sites[j].1, |scan(sites[j].1.id)|, outputDir))
    decreases |sites|
  {
    SiteEntryInReport(rule, sites, scan, outputDir, j);
  }

  /** Each site's own entry in the per-site part of the report. */
  lemma {:induction false} SiteEntryInReport(rule: BucketRule, sites: Entries<string, Site>, scan: int -> seq<ChapmanPost>, outputDir: string, j: nat)
    requires DistinctKeys(sites) && j < |sites|
    ensures Get(SiteReport(rule, sites, scan, outputDir), sites[j].0) ==
            Some(SiteEntry(rule, sites[j].1, |scan(sites[j].1.id)|, outputDir))
    decreases |sites|
  {
    if j < |sites| - 1 {
      var init := sites[..|sites| - 1];
      assert init[j] == sites[j];
      assert DistinctKeys(init) by {
        forall a, b | 0 <= a < b < |init| ensures init[a].0 != init[b].0 {
          assert init[a] == sites[a] && init[b] == sites[b];
        }
      }
      assert sites[|sites| - 1].0 != sites[j].0;
      SiteEntryInReport(rule, init, scan, outputDir, j);
    }
  }

  /** A site with its own file is reported with that file's name, `<slug>.csv`, under either rule. */
  lemma OwnFileNamedAfterSlug(rule: BucketRule, site: Site, count: nat, outputDir: string)
    requires count > OwnFileThreshold
    requires site.slug != "" && '/' !in site.slug
    ensures SiteEntry(rule, site, count, outputDir).csvFile == Some(site.slug + ".csv")
  {
    assert CsvPath(outputDir, site.slug) == outputDir + "/" + (site.slug + ".csv");
    BasenameOfFile(outputDir, site.slug + ".csv");
  }

  /** The report's "other" entry: the shared count and the file `other.csv`, written even when empty. */
  lemma OtherEntryLast(rule: BucketRule, sites: Entries<string, Site>, scan: int -> seq<ChapmanPost>, outputDir: string)
    ensures Get(MangledReport(rule, sites, scan, outputDir), OtherName) == Some(ReportEntry(|SharedPosts(rule, sites, scan)|, Some("other.csv")))
    ensures OtherName in Keys(MangledReport(rule, sites, scan, outputDir))
  {
    assert CsvPath(outputDir, OtherName) == outputDir + "/" + "other.csv";
    BasenameOfFile(outputDir, "other.csv");
  }
}

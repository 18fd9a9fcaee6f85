/**
 * ChapmanPost: a published post with its slug, blog path and public URL,
 * and the `get_posts` argument arrays the model builds from its defaults.
 */
module ChapmanPosts {
  import opened Wrappers
  import opened PhpText
  import opened PhpArray

  /** A value of a `get_posts` argument array. */
  datatype QueryValue = IntValue(i: int) | StrValue(s: string) | BoolValue(b: bool)

  /** The keys the argument arrays use; `Status` is the key `status`, which `get_posts` does not read. */
  datatype QueryKey =
    | NumberPosts | Offset | Category | OrderBy | Order | MetaValue | PostType | PostStatus | SuppressFilters
    | Status | S

  /** The key as written in the array. */
  function KeyName(k: QueryKey): string {
    match k
    case NumberPosts => "numberposts"
    case Offset => "offset"
    case Category => "category"
    case OrderBy => "orderby"
    case Order => "order"
    case MetaValue => "meta_value"
    case PostType => "post_type"
    case PostStatus => "post_status"
    case SuppressFilters => "suppress_filters"
    case Status => "status"
    case S => "s"
  }

  type QueryArgs = Entries<QueryKey, QueryValue>

  /** `ChapmanPost::$DEFAULT_QUERY_ARGS`: every published post, newest first. */
  function DefaultQueryArgs(): QueryArgs {
    [
    (NumberPosts, IntValue(-1)),
    (Offset, IntValue(0)),
    (Category, IntValue(0)),
    (OrderBy, StrValue("post_date")),
    (Order, StrValue("DESC")),
    (MetaValue, StrValue("")),
    (PostType, StrValue("post")),
    (PostStatus, StrValue("publish")),
    (SuppressFilters, BoolValue(true))]
  }

  /** What the alt-text fix left at the head of every post it saved. */
  const MangledMarker := "<?xml version=\"1.0\" standalone=\"yes\"?>"

  /** A row of the posts table as `get_posts` or `$wpdb->get_results` returns it. */
  datatype WpPostRow = WpPostRow(id: int, content: string, date: string, modified: string)

  /** What WordPress answers about posts of the current blog. */
  datatype BlogContext = BlogContext(titleOf: int -> string, permalinkOf: int -> string, blogId: int, blogPath: string)

  datatype ChapmanPost = ChapmanPost(
    id: int,
    content: string,
    title: string,
    permalink: string,
    slug: string,
    blogId: int,
    blogPath: string,
    date: string,
    dateModified: string,
    postUrl: Option<string>)

  /** The defaults hold nine keys, each once, and none of them is `status` or `s`. */
  lemma DefaultKeys()
    ensures Keys(DefaultQueryArgs()) ==
      [NumberPosts, Offset, Category, OrderBy, Order, MetaValue, PostType, PostStatus, SuppressFilters]
    ensures DistinctKeys(DefaultQueryArgs())
  {
  }

  /** Neither `status` nor `s` is a key of the defaults. */
  lemma DefaultLacksStatusAndSearch()
    ensures Status !in Keys(DefaultQueryArgs()) && S !in Keys(DefaultQueryArgs())
  {
    DefaultKeys();
  }

  /** The defaults ask for published posts. */
  lemma DefaultStatus()
    ensures Get(DefaultQueryArgs(), PostStatus) == Some(StrValue("publish"))
  {
    DefaultKeys();
    GetAt(DefaultQueryArgs(), 7);
  }

  /**
   * `$args[$statusKey] = $status; $args['numberposts'] = $limit;` on a copy of
   * `base`: the two keys get the new values and every other key keeps its own.
   */
  function WithStatusAndLimit(base: QueryArgs, statusKey: QueryKey, status: string, limit: int): (args: QueryArgs)
    requires statusKey != NumberPosts
    ensures Get(args, statusKey) == Some(StrValue(status))
    ensures Get(args, NumberPosts) == Some(IntValue(limit))
    ensures forall k :: k != statusKey && k != NumberPosts ==> Get(args, k) == Get(base, k)
  {
    Put(Put(base, statusKey, StrValue(status)), NumberPosts, IntValue(limit))
  }

  // ---------------------------------------------------------------------------
  // Query arguments as written
  // ---------------------------------------------------------------------------

  /** `wp_posts_by_status($status, $limit)`: the defaults with `status` and `numberposts` set, and no `s`. */
  function WpPostsByStatusArgs(status: string, limit: int): (args: QueryArgs)
    ensures Get(args, Status) == Some(StrValue(status))
    ensures Get(args, NumberPosts) == Some(IntValue(limit))
    ensures forall k :: k != Status && k != NumberPosts ==> Get(args, k) == Get(DefaultQueryArgs(), k)
  {
    WithStatusAndLimit(DefaultQueryArgs(), Status, status, limit)
  }

  /**
   * `search_wp_posts($needle, $status, $limit)`: a copy of the defaults with
   * `status`, `numberposts` and `s` set. `status` is not a key of the
   * defaults, so it is added, and `post_status` keeps "publish".
   */
  function SearchWpPostsArgs(needle: string, status: string, limit: int): (args: QueryArgs)
    ensures Get(args, Status) == Some(StrValue(status))
    ensures Get(args, NumberPosts) == Some(IntValue(limit))
    ensures Get(args, S) == Some(StrValue(needle))
    ensures forall k :: k != Status && k != NumberPosts && k != S ==> Get(args, k) == Get(DefaultQueryArgs(), k)
  {
    Put(WpPostsByStatusArgs(status, limit), S, StrValue(needle))
  }

  /** Over any base that asks for published posts and has no `s`, `status` leaves `post_status` as it is and adds no `s`. */
  lemma StatusKeyIgnored(base: QueryArgs, needle: string, status: string, limit: int)
    requires Get(base, PostStatus) == Some(StrValue("publish")) && S !in Keys(base)
    ensures Get(WithStatusAndLimit(base, Status, status, limit), PostStatus) == Some(StrValue("publish"))
    ensures Get(Put(WithStatusAndLimit(base, Status, status, limit), S, StrValue(needle)), PostStatus) == Some(StrValue("publish"))
    ensures S !in Keys(WithStatusAndLimit(base, Status, status, limit))
  {
    assert Get(WithStatusAndLimit(base, Status, status, limit), S) == Get(base, S);
  }

  /** As written, the status argument never reaches `post_status`: every query asks for published posts. */
  lemma StatusArgumentIgnored(needle: string, status: string, limit: int)
    ensures Get(SearchWpPostsArgs(needle, status, limit), PostStatus) == Some(StrValue("publish"))
    ensures Get(WpPostsByStatusArgs(status, limit), PostStatus) == Some(StrValue("publish"))
    ensures S !in Keys(WpPostsByStatusArgs(status, limit))
  {
    DefaultLacksStatusAndSearch();
    DefaultStatus();
    StatusKeyIgnored(DefaultQueryArgs(), needle, status, limit);
  }

  // ---------------------------------------------------------------------------
  // Query arguments as intended
  // ---------------------------------------------------------------------------

  /** The defaults with `post_status` and `numberposts` set. */
  function StatusQueryArgs(status: string, limit: int): (args: QueryArgs)
    ensures Get(args, PostStatus) == Some(StrValue(status))
    ensures Get(args, NumberPosts) == Some(IntValue(limit))
    ensures forall k :: k != PostStatus && k != NumberPosts ==> Get(args, k) == Get(DefaultQueryArgs(), k)
  {
    WithStatusAndLimit(DefaultQueryArgs(), PostStatus, status, limit)
  }

  /** The status query with the search term `s` set. */
  function SearchQueryArgs(needle: string, status: string, limit: int): (args: QueryArgs)
    ensures Get(args, PostStatus) == Some(StrValue(status))
    ensures Get(args, NumberPosts) == Some(IntValue(limit))
    ensures Get(args, S) == Some(StrValue(needle))
    ensures forall k :: k != PostStatus && k != NumberPosts && k != S ==> Get(args, k) == Get(DefaultQueryArgs(), k)
  {
    Put(StatusQueryArgs(status, limit), S, StrValue(needle))
  }

  /** Over a base that has `post_status` and `numberposts` but no `s`, the intended queries keep its keys and add `s` last. */
  lemma QueryKeysFor(base: QueryArgs, needle: string, status: string, limit: int)
    requires PostStatus in Keys(base) && NumberPosts in Keys(base) && S !in Keys(base)
    ensures Keys(WithStatusAndLimit(base, PostStatus, status, limit)) == Keys(base)
    ensures Keys(Put(WithStatusAndLimit(base, PostStatus, status, limit), S, StrValue(needle))) == Keys(base) + [S]
  {
    var withStatus := Put(base, PostStatus, StrValue(status));
    PutKeys(base, PostStatus, StrValue(status));
    PutKeys(withStatus, NumberPosts, IntValue(limit));
    PutKeys(WithStatusAndLimit(base, PostStatus, status, limit), S, StrValue(needle));
  }

  /** The intended queries add no key but `s`: the keys of the defaults stay in their order, and `s` comes last. */
  lemma QueryKeys(needle: string, status: string, limit: int)
    ensures Keys(StatusQueryArgs(status, limit)) == Keys(DefaultQueryArgs())
    ensures Keys(SearchQueryArgs(needle, status, limit)) == Keys(DefaultQueryArgs()) + [S]
  {
    DefaultLacksStatusAndSearch();
    DefaultKeys();
    QueryKeysFor(DefaultQueryArgs(), needle, status, limit);
  }

  /** Over a base that asks for published posts, setting `post_status` to "publish" or writing `status` differ only in `status`. */
  lemma PublishSearchesAgree(base: QueryArgs, needle: string, limit: int, k: QueryKey)
    requires Get(base, PostStatus) == Some(StrValue("publish"))
    requires k != Status
    ensures Get(Put(WithStatusAndLimit(base, PostStatus, "publish", limit), S, StrValue(needle)), k) ==
            Get(Put(WithStatusAndLimit(base, Status, "publish", limit), S, StrValue(needle)), k)
  {
  }

  /** For the published posts every caller asks for, the intended query selects what the written one does. */
  lemma PublishQueriesAgree(needle: string, limit: int)
    ensures forall k :: k != Status ==>
      Get(SearchQueryArgs(needle, "publish", limit), k) == Get(SearchWpPostsArgs(needle, "publish", limit), k)
  {
    DefaultStatus();
    forall k | k != Status
      ensures Get(SearchQueryArgs(needle, "publish", limit), k) == Get(SearchWpPostsArgs(needle, "publish", limit), k)
    {
      PublishSearchesAgree(DefaultQueryArgs(), needle, limit, k);
    }
  }

  /**
   * The query `mangled_by_alt_text_fix` sends, `search_wp_posts($marker)`
   * with its default status and limit: it carries the extra `status` key,
   * and asks for published posts whose text holds the marker, without limit.
   */
  function MangledSearchArgs(): (args: QueryArgs)
    ensures Get(args, S) == Some(StrValue(MangledMarker))
    ensures Get(args, Status) == Some(StrValue("publish"))
    ensures Get(args, PostStatus) == Some(StrValue("publish"))
    ensures Get(args, NumberPosts) == Some(IntValue(-1))
  {
    StatusArgumentIgnored(MangledMarker, "publish", -1);
    SearchWpPostsArgs(MangledMarker, "publish", -1)
  }

  // ---------------------------------------------------------------------------
  // Posts
  // ---------------------------------------------------------------------------

  /** `new ChapmanPost($wp_post)`: the slug is the basename of the permalink. */
  function NewChapmanPost(row: WpPostRow, ctx: BlogContext): (p: ChapmanPost)
    ensures p.id == row.id && p.content == row.content && p.postUrl.None?
    ensures p.slug == Basename(ctx.permalinkOf(row.id))
  {
    var permalink := ctx.permalinkOf(row.id);
    ChapmanPost(row.id, row.content, ctx.titleOf(row.id), permalink, Basename(permalink),
                ctx.blogId, ctx.blogPath, row.date, row.modified, None)
  }

  /** `build_post_url($domain)`: the domain, the blog path and the slug, concatenated. */
  function BuildPostUrl(p: ChapmanPost, domain: string): (url: string)
    ensures StartsWith(url, domain)
    ensures |url| == |domain| + |p.blogPath| + |p.slug|
  {
    domain + p.blogPath + p.slug
  }

  /**
   * For a pretty permalink `<base>/<name>/` the slug is `<name>`, so the
   * public URL is the domain, the blog path and that name.
   */
  lemma PostUrlFromPermalink(row: WpPostRow, ctx: BlogContext, base: string, name: string, domain: string)
    requires name != "" && '/' !in name
    requires ctx.permalinkOf(row.id) == base + "/" + name + "/"
    ensures NewChapmanPost(row, ctx).slug == name
    ensures BuildPostUrl(NewChapmanPost(row, ctx), domain) == domain + ctx.blogPath + name
  {
    BasenameOfDir(base, name);
  }

  /** The loop of `mangled_by_alt_text_fix`: one post per row, in order. */
  method WrapRows(rows: seq<WpPostRow>, ctx: BlogContext) returns (posts: seq<ChapmanPost>)
    ensures |posts| == |rows|
    ensures forall i :: 0 <= i < |rows| ==> posts[i] == NewChapmanPost(rows[i], ctx)
  {
    posts := [];
    for i := 0 to |rows|
      invariant |posts| == i
      invariant forall j :: 0 <= j < i ==> posts[j] == NewChapmanPost(rows[j], ctx)
    {
      var post := NewChapmanPost(rows[i], ctx);
      posts := posts + [post];
    }
  }

  /** `mangled_by_alt_text_fix`: every post the marker search returns, in order. */
  method MangledByAltTextFix(ctx: BlogContext, getPosts: QueryArgs -> seq<WpPostRow>) returns (posts: seq<ChapmanPost>)
    ensures |posts| == |getPosts(MangledSearchArgs())|
    ensures forall i :: 0 <= i < |posts| ==> posts[i] == NewChapmanPost(getPosts(MangledSearchArgs())[i], ctx)
  {
    var rows := getPosts(MangledSearchArgs());
    posts := WrapRows(rows, ctx);
  }

  // ---------------------------------------------------------------------------
  // Embedded videos
  // ---------------------------------------------------------------------------

  const VideoSqlTail := ")\n                ORDER BY post_date DESC;\n        "
  const TermGlue := " OR "

  function VideoSqlHead(postsTable: string): string {
    "\n            SELECT * FROM " + postsTable +
    "\n                WHERE post_status = 'publish'" +
    "\n                AND post_type IN ('post', 'announcement', 'page', 'feature')" +
    "\n                AND ("
  }

  /** The query of `embedded_videos`: published content whose text matches any of the terms. */
  function VideoSearchSql(postsTable: string, terms: seq<string>): (sql: string)
    ensures |sql| == |VideoSqlHead(postsTable)| + |Implode(terms, TermGlue)| + |VideoSqlTail|
    ensures StartsWith(sql, VideoSqlHead(postsTable))
  {
    VideoSqlHead(postsTable) + Implode(terms, TermGlue) + VideoSqlTail
  }

  /**
   * The terms can be read back from the query: the text between the head and
   * the tail splits on " OR " into exactly the terms, in order, when no term
   * holds the glue or ends in a way that would run into it.
   */
  lemma VideoSqlKeepsTerms(postsTable: string, terms: seq<string>)
    requires |terms| >= 1
    requires forall i :: 0 <= i < |terms| - 1 ==> SplitsCleanly(terms[i], TermGlue)
    requires !Contains(terms[|terms| - 1], TermGlue)
    ensures
      var sql := VideoSearchSql(postsTable, terms);
      var head := |VideoSqlHead(postsTable)|;
      Explode(sql[head..|sql| - |VideoSqlTail|], TermGlue) == terms
  {
    var sql := VideoSearchSql(postsTable, terms);
    var head := VideoSqlHead(postsTable);
    assert sql[|head|..|sql| - |VideoSqlTail|] == Implode(terms, TermGlue);
    ExplodeImplode(terms, TermGlue);
  }

  /**
   * `embedded_videos($site_id, $search_terms, $domain)`: `null` without
   * terms; otherwise every post the query returns, in order, with its public
   * URL set.
   */
  method EmbeddedVideos(terms: seq<string>, domain: string, postsTable: string, ctx: BlogContext,
                        getResults: string -> seq<WpPostRow>)
    returns (r: Option<seq<ChapmanPost>>)
    ensures r.None? <==> terms == []
    ensures r.Some? ==>
      var rows := getResults(VideoSearchSql(postsTable, terms));
      && |r.value| == |rows|
      && forall i :: 0 <= i < |rows| ==>
           r.value[i] == NewChapmanPost(rows[i], ctx).(postUrl := Some(BuildPostUrl(NewChapmanPost(rows[i], ctx), domain)))
  {
    if terms == [] {
      return None;
    }
    var rows := getResults(VideoSearchSql(postsTable, terms));
    var posts: seq<ChapmanPost> := [];
    for i := 0 to |rows|
      invariant |posts| == i
      invariant forall j :: 0 <= j < i ==>
        posts[j] == NewChapmanPost(rows[j], ctx).(postUrl := Some(BuildPostUrl(NewChapmanPost(rows[j], ctx), domain)))
    {
      var post := NewChapmanPost(rows[i], ctx);
      post := post.(postUrl := Some(BuildPostUrl(post, domain)));
      posts := posts + [post];
    }
    r := Some(posts);
  }
}

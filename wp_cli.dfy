/**
 * WpCliScript: the base of the wp-cli scripts. It parses `<command>
 * [<subcommand>]` from the command line, keeps an error log, and loads the
 * network's blogs keyed by blog name.
 */
module WpCli {
  import opened Wrappers
  import opened PhpText
  import opened PhpArray

  /** A `get_sites()` entry as `load_sites` decorates it. */
  datatype Site = Site(id: int, path: string, name: string, slug: string, postsCount: nat)

  /**
   * What WordPress reports about one blog: its id and path from `get_sites()`,
   * and, after `switch_to_blog`, `get_bloginfo()` and the published count of
   * `wp_count_posts()`.
   */
  datatype RawSite = RawSite(blogId: int, path: string, blogName: string, publishedCount: nat)

  /** The command a script runs when none is given. */
  const UsageCommand := "usage"

  function InvalidCommandMessage(command: string): string {
    "Invalid command: " + command + ". See usage."
  }

  /** The command `parse_command_line_args` settles on: the first argument, or "usage" when it is missing or falsy. */
  function CommandOf(args: seq<string>): (command: string)
    ensures Truthy(command)
    ensures command == UsageCommand || (|args| >= 1 && command == args[0])
    ensures |args| >= 1 && Truthy(args[0]) ==> command == args[0]
  {
    if |args| >= 1 && Truthy(args[0]) then args[0] else UsageCommand
  }

  /** The second argument, or `null` when there is none. */
  function SubcommandOf(args: seq<string>): (subcommand: Option<string>)
    ensures subcommand.Some? <==> |args| >= 2
    ensures subcommand.Some? ==> subcommand.value == args[1]
  {
    if |args| >= 2 then Some(args[1]) else None
  }

  /** A site as `load_sites` records it: the name trimmed and slugged, the id and the published count copied. */
  function Decorate(r: RawSite, slugify: string -> string): Site {
    Site(r.blogId, r.path, Trim(r.blogName), slugify(Trim(r.blogName)), r.publishedCount)
  }

  /** `$this->sites` after `load_sites`: keyed by the untrimmed blog name; a later blog with the same name replaces the earlier one. */
  function LoadedSites(raw: seq<RawSite>, slugify: string -> string): Entries<string, Site>
    decreases |raw|
  {
    if raw == [] then []
    else
      var last := raw[|raw| - 1];
      Put(LoadedSites(raw[..|raw| - 1], slugify), last.blogName, Decorate(last, slugify))
  }

  /** `$this->site_ids`: one id per entry of `sites`, in order. */
  function SiteIds(sites: Entries<string, Site>): (ids: seq<int>)
    ensures |ids| == |sites|
    ensures forall i :: 0 <= i < |sites| ==> ids[i] == sites[i].1.id
  {
    seq(|sites|, i requires 0 <= i < |sites| => sites[i].1.id)
  }

  /** The loop of `load_sites` that lists one id per site entry. */
  method CollectSiteIds(sites: Entries<string, Site>) returns (ids: seq<int>)
    ensures ids == SiteIds(sites)
  {
    ids := [];
    for i := 0 to |sites|
      invariant ids == SiteIds(sites[..i])
    {
      assert SiteIds(sites[..i + 1]) == SiteIds(sites[..i]) + [sites[i].1.id];
      ids := ids + [sites[i].1.id];
    }
    assert sites[..|sites|] == sites;
  }

  class WpCliScript {
    /** Command => description; the subclass's own table. */
    const commands: Entries<string, string>

    var command: string
    var subcommand: Option<string>
    var sites: Entries<string, Site>
    var siteIds: seq<int>
    var errors: seq<string>

    /** `new WpCliScript($args, $wpdb)`: parse the arguments, then load the sites. */
    constructor (commands: Entries<string, string>, args: seq<string>, raw: seq<RawSite>, slugify: string -> string)
      ensures this.commands == commands
      ensures command == CommandOf(args) && subcommand == SubcommandOf(args)
      ensures errors == if CommandOf(args) in Keys(commands) then [] else [InvalidCommandMessage(CommandOf(args))]
      ensures sites == LoadedSites(raw, slugify) && siteIds == SiteIds(sites)
    {
      this.commands := commands;
      command, subcommand, errors := "", Some(""), [];
      sites, siteIds := [], [];
      new;
      ParseCommandLineArgs(args);
      LoadSites(raw, slugify);
    }

    /** `error($message)`: the message goes at the end of the log. */
    method Error(message: string)
      modifies this`errors
      ensures errors == old(errors) + [message]
    {
      errors := errors + [message];
    }

    /**
     * `parse_command_line_args`: the command is the first argument ("usage"
     * when it is missing or falsy), the subcommand the second; a command that
     * is not a key of `commands` is kept as given and logs one error.
     */
    method ParseCommandLineArgs(args: seq<string>)
      modifies this`command, this`subcommand, this`errors
      ensures command == CommandOf(args) && subcommand == SubcommandOf(args)
      ensures command in Keys(commands) ==> errors == old(errors)
      ensures command !in Keys(commands) ==> errors == old(errors) + [InvalidCommandMessage(command)]
    {
      command := if |args| >= 1 then args[0] else "";
      subcommand := if |args| >= 2 then Some(args[1]) else None;
      if !Truthy(command) {
        command := UsageCommand;
      }
      if command !in Keys(commands) {
        Error(InvalidCommandMessage(command));
      }
    }

    /** `load_sites`: every blog keyed by its name, then one id per remaining entry. */
    method LoadSites(raw: seq<RawSite>, slugify: string -> string)
      modifies this`sites, this`siteIds
      ensures sites == LoadedSites(raw, slugify)
      ensures siteIds == SiteIds(sites)
    {
      var loaded := [];
      for i := 0 to |raw|
        invariant loaded == LoadedSites(raw[..i], slugify)
      {
        assert raw[..i + 1][..i] == raw[..i];
        loaded := Put(loaded, raw[i].blogName, Decorate(raw[i], slugify));
      }
      assert raw[..|raw|] == raw;
      var ids := CollectSiteIds(loaded);
      sites, siteIds := loaded, ids;
    }
  }

  // ---------------------------------------------------------------------------
  // Properties of the site table
  // ---------------------------------------------------------------------------

  /** The sites are keyed by blog name: no name occurs twice. */
  lemma {:induction false} LoadedSitesDistinct(raw: seq<RawSite>, slugify: string -> string)
    ensures DistinctKeys(LoadedSites(raw, slugify))
    decreases |raw|
  {
    if raw != [] {
      var init := raw[..|raw| - 1];
      LoadedSitesDistinct(init, slugify);
      PutKeepsDistinct(LoadedSites(init, slugify), raw[|raw| - 1].blogName, Decorate(raw[|raw| - 1], slugify));
    }
  }

  /** The blog names as `get_bloginfo()` gives them, in blog order. */
  function BlogNames(raw: seq<RawSite>): (names: seq<string>)
    ensures |names| == |raw| && forall i :: 0 <= i < |raw| ==> names[i] == raw[i].blogName
    decreases |raw|
  {
    if raw == [] then [] else BlogNames(raw[..|raw| - 1]) + [raw[|raw| - 1].blogName]
  }

  /** A name is a key of the sites exactly when some blog has it. */
  lemma {:induction false} LoadedSitesNames(raw: seq<RawSite>, slugify: string -> string, name: string)
    ensures name in Keys(LoadedSites(raw, slugify)) <==> name in BlogNames(raw)
    decreases |raw|
  {
    if raw != [] {
      var init, last := raw[..|raw| - 1], raw[|raw| - 1];
      LoadedSitesNames(init, slugify, name);
      PutKeys(LoadedSites(init, slugify), last.blogName, Decorate(last, slugify));
      assert BlogNames(raw) == BlogNames(init) + [last.blogName];
    }
  }

  /** The entry under a blog's name is the last blog with that name. */
  lemma {:induction false} LastBlogWithNameWins(raw: seq<RawSite>, slugify: string -> string, j: nat)
    requires j < |raw|
    requires forall i :: j < i < |raw| ==> raw[i].blogName != raw[j].blogName
    ensures Get(LoadedSites(raw, slugify), raw[j].blogName) == Some(Decorate(raw[j], slugify))
    decreases |raw|
  {
    if j < |raw| - 1 {
      var init := raw[..|raw| - 1];
      assert init[j] == raw[j];
      LastBlogWithNameWins(init, slugify, j);
    }
  }

  /** A blog whose name no earlier blog has is appended after the earlier ones. */
  lemma NewNameAppends(raw: seq<RawSite>, slugify: string -> string)
    requires raw != []
    requires forall i :: 0 <= i < |raw| - 1 ==> raw[i].blogName != raw[|raw| - 1].blogName
    ensures LoadedSites(raw, slugify) ==
      LoadedSites(raw[..|raw| - 1], slugify) + [(raw[|raw| - 1].blogName, Decorate(raw[|raw| - 1], slugify))]
  {
    var init, last := raw[..|raw| - 1], raw[|raw| - 1];
    assert last.blogName !in BlogNames(init) by {
      forall k | 0 <= k < |init| ensures BlogNames(init)[k] != last.blogName {
        assert init[k] == raw[k];
      }
    }
    LoadedSitesNames(init, slugify, last.blogName);
    PutAppends(LoadedSites(init, slugify), last.blogName, Decorate(last, slugify));
  }

  /** One entry per blog, in blog order, each under the blog's own name. */
  function EntriesOf(raw: seq<RawSite>, slugify: string -> string): (m: Entries<string, Site>)
    ensures |m| == |raw|
    ensures forall i :: 0 <= i < |raw| ==> m[i] == (raw[i].blogName, Decorate(raw[i], slugify))
  {
    seq(|raw|, i requires 0 <= i < |raw| => (raw[i].blogName, Decorate(raw[i], slugify)))
  }

  lemma EntriesOfSnoc(raw: seq<RawSite>, slugify: string -> string)
    requires raw != []
    ensures EntriesOf(raw, slugify) ==
      EntriesOf(raw[..|raw| - 1], slugify) + [(raw[|raw| - 1].blogName, Decorate(raw[|raw| - 1], slugify))]
  {
    var init := raw[..|raw| - 1];
    var whole := EntriesOf(raw, slugify);
    var parts := EntriesOf(init, slugify) + [(raw[|raw| - 1].blogName, Decorate(raw[|raw| - 1], slugify))];
    assert |whole| == |parts|;
    forall i | 0 <= i < |whole| ensures whole[i] == parts[i] {
      if i < |init| {
        assert init[i] == raw[i];
      }
    }
  }

  /** Blogs with distinct names all stay, in the order they came. */
  lemma {:induction false} DistinctNamesLoadInOrder(raw: seq<RawSite>, slugify: string -> string)
    requires forall i, j :: 0 <= i < j < |raw| ==> raw[i].blogName != raw[j].blogName
    ensures LoadedSites(raw, slugify) == EntriesOf(raw, slugify)
    decreases |raw|
  {
    if raw != [] {
      var init := raw[..|raw| - 1];
      assert forall i, j :: 0 <= i < j < |init| ==> init[i].blogName != init[j].blogName;
      DistinctNamesLoadInOrder(init, slugify);
      NewNameAppends(raw, slugify);
      EntriesOfSnoc(raw, slugify);
    }
  }

  /** Blogs with distinct names all stay, in the order they came, and the ids follow them. */
  lemma DistinctNamesKeepEveryBlog(raw: seq<RawSite>, slugify: string -> string)
    requires forall i, j :: 0 <= i < j < |raw| ==> raw[i].blogName != raw[j].blogName
    ensures |LoadedSites(raw, slugify)| == |raw|
    ensures forall i :: 0 <= i < |raw| ==> LoadedSites(raw, slugify)[i] == (raw[i].blogName, Decorate(raw[i], slugify))
    ensures forall i :: 0 <= i < |raw| ==> SiteIds(LoadedSites(raw, slugify))[i] == raw[i].blogId
  {
    DistinctNamesLoadInOrder(raw, slugify);
  }

  /** Two blogs that share a name leave one entry; the later blog's id is the one listed. */
  lemma SameNameCollapses(a: RawSite, b: RawSite, slugify: string -> string)
    requires a.blogName == b.blogName
    ensures LoadedSites([a, b], slugify) == [(a.blogName, Decorate(b, slugify))]
    ensures SiteIds(LoadedSites([a, b], slugify)) == [b.blogId]
  {
    assert [a, b][..1] == [a];
    assert [a][..0] == [];
    assert LoadedSites([a], slugify) == [(a.blogName, Decorate(a, slugify))];
  }
}

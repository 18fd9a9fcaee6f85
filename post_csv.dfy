/**
 * The CSV reports of the post scripts: a `data_map` of column header =>
 * post property, a header row of the map's keys, then one row per post with
 * the properties in the map's order.
 */
module PostCsv {
  import opened Wrappers
  import opened PhpText
  import opened PhpArray
  import opened ChapmanPosts

  /** The `ChapmanPost` properties a report column can name. */
  datatype PostVar = BlogIdVar | BlogPathVar | IdVar | TitleVar | PostUrlVar | DateVar | DateModifiedVar | ContentVar

  /**
   * `$post->$var` as `fputcsv` writes it: integers in decimal, a missing
   * `post_url` (null) as the empty field.
   */
  function FieldText(p: ChapmanPost, v: PostVar): string {
    match v
    case BlogIdVar => IntToString(p.blogId)
    case BlogPathVar => p.blogPath
    case IdVar => IntToString(p.id)
    case TitleVar => p.title
    case PostUrlVar => if p.postUrl.Some? then p.postUrl.value else ""
    case DateVar => p.date
    case DateModifiedVar => p.dateModified
    case ContentVar => p.content
  }

  /** A file `write_to_csv` writes: its path and its rows. */
  datatype CsvFile = CsvFile(path: string, rows: seq<seq<string>>)

  /**
   * The files on disk after a sequence of writes, keyed by path.
   * `write_to_csv` opens its path with mode 'w', so a later write to a path
   * replaces the file an earlier write left there.
   */
  function Disk(writes: seq<CsvFile>): Entries<string, CsvFile>
    decreases |writes|
  {
    if writes == [] then []
    else
      var last := writes[|writes| - 1];
      Put(Disk(writes[..|writes| - 1]), last.path, last)
  }

  /** No two writes go to the same path. */
  predicate DistinctPaths(writes: seq<CsvFile>) {
    forall i, j :: 0 <= i < j < |writes| ==> writes[i].path != writes[j].path
  }

  /** Each write keyed by its own path, in order. */
  function ByPath(writes: seq<CsvFile>): (m: Entries<string, CsvFile>)
    ensures |m| == |writes| && forall i :: 0 <= i < |writes| ==> m[i] == (writes[i].path, writes[i])
  {
    seq(|writes|, i requires 0 <= i < |writes| => (writes[i].path, writes[i]))
  }

  /** The file at a path is the one the last write to that path left. */
  lemma {:induction false} DiskHoldsLastWrite(writes: seq<CsvFile>, j: nat)
    requires j < |writes|
    requires forall k :: j < k < |writes| ==> writes[k].path != writes[j].path
    ensures Get(Disk(writes), writes[j].path) == Some(writes[j])
    decreases |writes|
  {
    if j < |writes| - 1 {
      var init := writes[..|writes| - 1];
      assert init[j] == writes[j];
      DiskHoldsLastWrite(init, j);
    }
  }

  /** Dropping the last write keeps the paths distinct, and the last path is not yet a key of the others. */
  lemma DistinctPathsInit(writes: seq<CsvFile>)
    requires DistinctPaths(writes) && writes != []
    ensures DistinctPaths(writes[..|writes| - 1])
    ensures writes[|writes| - 1].path !in Keys(ByPath(writes[..|writes| - 1]))
  {
    var init := writes[..|writes| - 1];
    forall i | 0 <= i < |init| ensures Keys(ByPath(init))[i] != writes[|writes| - 1].path {
      assert init[i] == writes[i];
    }
  }

  lemma ByPathSnoc(writes: seq<CsvFile>)
    requires writes != []
    ensures ByPath(writes) == ByPath(writes[..|writes| - 1]) + [(writes[|writes| - 1].path, writes[|writes| - 1])]
  {
  }

  /** When no two writes share a path, the disk holds each write under its own path, in write order. */
  lemma {:induction false} DiskOfDistinctWrites(writes: seq<CsvFile>)
    requires DistinctPaths(writes)
    ensures Disk(writes) == ByPath(writes)
    decreases |writes|
  {
    if writes != [] {
      var init, last := writes[..|writes| - 1], writes[|writes| - 1];
      DistinctPathsInit(writes);
      DiskOfDistinctWrites(init);
      PutAppends(ByPath(init), last.path, last);
      ByPathSnoc(writes);
      assert Disk(writes) == Put(Disk(init), last.path, last);
    }
  }

  /** When no two writes share a path, every file written is on disk, in the order written. */
  lemma DistinctWritesAllKept(writes: seq<CsvFile>)
    requires DistinctPaths(writes)
    ensures Values(Disk(writes)) == writes
  {
    DiskOfDistinctWrites(writes);
    assert Values(ByPath(writes)) == writes;
  }

  /** Two writes to one path leave only the second file. */
  lemma DiskSamePathPair(f: CsvFile, g: CsvFile)
    requires f.path == g.path
    ensures Values(Disk([f, g])) == [g]
  {
    assert [f, g][..1] == [f];
    assert [f][..0] == [];
    assert Disk([f]) == [(f.path, f)];
    assert Disk([f, g]) == [(g.path, g)];
  }

  /** Two writes to one path, then a write elsewhere, leave the second file and the third. */
  lemma DiskSamePathThenOther(f: CsvFile, g: CsvFile, h: CsvFile)
    requires f.path == g.path != h.path
    ensures Values(Disk([f, g, h])) == [g, h]
  {
    assert [f, g, h][..2] == [f, g];
    DiskSamePathPair(f, g);
    assert Disk([f, g]) == [(g.path, g)];
    PutAppends([(g.path, g)], h.path, h);
    assert Disk([f, g, h]) == [(g.path, g), (h.path, h)];
  }

  /** The cells of one post, one per property named, in order. */
  function PostCells(p: ChapmanPost, vars: seq<PostVar>): (cells: seq<string>)
    ensures |cells| == |vars|
    ensures forall i :: 0 <= i < |vars| ==> cells[i] == FieldText(p, vars[i])
  {
    seq(|vars|, i requires 0 <= i < |vars| => FieldText(p, vars[i]))
  }

  /** The inner loop of the report writers: `$data[] = $post->$var` for every property, in order. */
  method PostRow(p: ChapmanPost, vars: seq<PostVar>) returns (data: seq<string>)
    ensures data == PostCells(p, vars)
  {
    data := [];
    for i := 0 to |vars|
      invariant data == PostCells(p, vars[..i])
    {
      assert PostCells(p, vars[..i + 1]) == PostCells(p, vars[..i]) + [FieldText(p, vars[i])];
      data := data + [FieldText(p, vars[i])];
    }
    assert vars[..|vars|] == vars;
  }

  /**
   * The rows of a report: the headers of `dataMap`, then one row per post,
   * in order, with the cells in the order of the map's properties.
   */
  method DataRows(dataMap: Entries<string, PostVar>, posts: seq<ChapmanPost>) returns (rows: seq<seq<string>>)
    ensures |rows| == |posts| + 1
    ensures rows[0] == Keys(dataMap)
    ensures forall i :: 0 <= i < |posts| ==> rows[i + 1] == PostCells(posts[i], Values(dataMap))
  {
    rows := [Keys(dataMap)];
    var vars := Values(dataMap);
    for i := 0 to |posts|
      invariant |rows| == i + 1
      invariant rows[0] == Keys(dataMap)
      invariant forall j :: 0 <= j < i ==> rows[j + 1] == PostCells(posts[j], vars)
    {
      var data := PostRow(posts[i], vars);
      rows := rows + [data];
    }
  }

  /** The integer columns read back, through `(int)`, as the ids they were written from. */
  lemma IdCellsReadBack(p: ChapmanPost)
    ensures IntCast(FieldText(p, BlogIdVar)) == p.blogId
    ensures IntCast(FieldText(p, IdVar)) == p.id
  {
    IntCastRoundTrip(p.blogId);
    IntCastRoundTrip(p.id);
  }
}

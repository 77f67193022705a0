/** The working CSV of scraped posts (`src/csv_handler.py`): loading,
    saving with preservation of existing summaries and last-wins
    de-duplication, upsert by link, and the queries over it.

    A row is a map from column name to cell text. A key missing from a row
    stands for an empty cell (pandas reads it as NaN); writing a table turns
    every empty string into such a missing cell, as a CSV round trip does.
    The records `load_posts` returns still carry such a cell as a key with a
    NaN value, so every column of the table survives into the next
    `DataFrame`; the model keeps those keys as a set beside the rows.
    The file itself is `File`; whether writing succeeds is the `writable`
    flag. */
module CsvHandler {
  import opened Basics
  import opened Text

  type Row = map<string, string>

  /** A table: its column names and its rows. */
  datatype Frame = Frame(columns: set<string>, rows: seq<Row>)

  /** The CSV path: missing, a directory, a file pandas cannot parse, or a
      parsed table. */
  datatype File = Absent | Directory | Unreadable | Stored(frame: Frame)

  /** The outcome of `save_posts`: its boolean result and the file after. */
  datatype Saved = Saved(ok: bool, file: File)

  const LinkColumn: string := "link"
  const Resumo: string := "resumo"
  const DataResumo: string := "data_resumo"
  const PostTypeColumn: string := "post_type"
  const UnknownType: string := "Unknown"

  /** The columns `validate_csv_structure` requires. */
  const RequiredColumns: seq<string> := ["post_type", "title", "cover_image", "link"]

  lemma AnnotationColumnsDiffer()
    ensures Resumo != DataResumo
  {
    assert |Resumo| != |DataResumo|;
  }

  /** `row.get(col)`, with an empty cell read as absent. */
  function Get(row: Row, col: string): Option<string> {
    if col in row then Some(row[col]) else None
  }

  /** A cell after `fillna('')`. */
  function GetOrEmpty(row: Row, col: string): string {
    Get(row, col).GetOr([])
  }

  /** The key rows are matched and de-duplicated on; an empty link is `None`,
      and pandas treats two empty links as equal. */
  function LinkKey(row: Row): Option<string> {
    Get(row, LinkColumn)
  }

  /** The columns of `pd.DataFrame(rows)`: every key of every row. */
  function Columns(rows: seq<Row>): (cs: set<string>)
    ensures forall i, k :: 0 <= i < |rows| && k in rows[i] ==> k in cs
    ensures forall k :: k in cs ==> exists i :: 0 <= i < |rows| && k in rows[i]
  {
    if rows == [] then {}
    else
      var rest := Columns(rows[1..]);
      assert forall i :: 1 <= i < |rows| ==> rows[i] == rows[1..][i - 1];
      rows[0].Keys + rest
  }

  // ---------------------------------------------------------------------------
  // load_posts
  // ---------------------------------------------------------------------------

  /** A loaded row: both annotation cells present, empty when missing. */
  function FillAnnotations(row: Row): (r: Row)
    ensures Resumo in r && DataResumo in r
    ensures r[Resumo] == GetOrEmpty(row, Resumo) && r[DataResumo] == GetOrEmpty(row, DataResumo)
    ensures forall k :: k != Resumo && k != DataResumo ==> Get(r, k) == Get(row, k)
  {
    AnnotationColumnsDiffer();
    row[Resumo := GetOrEmpty(row, Resumo)][DataResumo := GetOrEmpty(row, DataResumo)]
  }

  /** `CSVHandler.load_posts`: the rows of the file, in order, each with
      `resumo` and `data_resumo` filled; nothing when the path is missing, is
      a directory or cannot be parsed. */
  function LoadPosts(file: File): (posts: seq<Row>)
    ensures !file.Stored? ==> posts == []
    ensures file.Stored? ==> |posts| == |file.frame.rows|
    ensures file.Stored? ==> forall i :: 0 <= i < |posts| ==> posts[i] == FillAnnotations(file.frame.rows[i])
  {
    match file
    case Stored(frame) => seq(|frame.rows|, i requires 0 <= i < |frame.rows| => FillAnnotations(frame.rows[i]))
    case _ => []
  }

  /** The keys every record of `load_posts` carries: `to_dict('records')`
      gives each record every column of the table, a NaN value for an empty
      cell, and the two annotation columns exist by then. Without rows there
      are no records, and so no keys. */
  function LoadedKeys(file: File): (ks: set<string>)
    ensures LoadPosts(file) == [] ==> ks == {}
    ensures LoadPosts(file) != [] ==> ks == file.frame.columns + {Resumo, DataResumo}
  {
    if file.Stored? && file.frame.rows != [] then file.frame.columns + {Resumo, DataResumo} else {}
  }

  // ---------------------------------------------------------------------------
  // save_posts
  // ---------------------------------------------------------------------------

  /** `df[col] = ''` when `col` is not yet a column. */
  function AddEmptyColumn(df: Frame, col: string): (r: Frame)
    ensures r.columns == df.columns + {col}
    ensures |r.rows| == |df.rows|
    ensures col !in df.columns ==> forall i :: 0 <= i < |r.rows| ==> r.rows[i] == df.rows[i][col := []]
    ensures col in df.columns ==> r == df
  {
    if col in df.columns then df
    else Frame(df.columns + {col}, seq(|df.rows|, i requires 0 <= i < |df.rows| => df.rows[i][col := []]))
  }

  /** An annotation after the merge: the incoming value when it is not blank,
      else the value of the matching prior row, else empty. */
  function Annotation(incoming: Row, prior: Option<Row>, col: string): string {
    var v := GetOrEmpty(incoming, col);
    if !IsBlank(v) then v
    else match prior
      case Some(row) => GetOrEmpty(row, col)
      case None => []
  }

  /** One row of the left merge with the prior annotations. */
  function MergeRow(incoming: Row, prior: Option<Row>): (r: Row)
    ensures Resumo in r && DataResumo in r
    ensures r[Resumo] == Annotation(incoming, prior, Resumo)
    ensures r[DataResumo] == Annotation(incoming, prior, DataResumo)
    ensures forall k :: k != Resumo && k != DataResumo ==> Get(r, k) == Get(incoming, k)
  {
    AnnotationColumnsDiffer();
    var resumo := Annotation(incoming, prior, Resumo);
    var dataResumo := Annotation(incoming, prior, DataResumo);
    incoming[Resumo := resumo][DataResumo := dataResumo]
  }

  /** The row of `subset` whose link matches `key`, if any. */
  function Lookup(subset: seq<Row>, key: Option<string>): Option<Row> {
    FirstWithKey(subset, LinkKey, key)
  }

  /** `df.merge(existing_subset, on='link', how='left')` followed by the
      per-column choice between incoming and prior annotation. */
  function MergeRows(rows: seq<Row>, subset: seq<Row>): (r: seq<Row>)
    ensures |r| == |rows|
    ensures forall i :: 0 <= i < |rows| ==> r[i] == MergeRow(rows[i], Lookup(subset, LinkKey(rows[i])))
  {
    seq(|rows|, i requires 0 <= i < |rows| => MergeRow(rows[i], Lookup(subset, LinkKey(rows[i]))))
  }

  /** The incoming table after the attempt to preserve prior summaries. The
      merge runs only when the file is a parsed table and both tables have a
      `link` column; the missing annotation columns are added to the incoming
      table first, and if the prior table lacks either annotation column the
      selection of `existing_df[['link', 'resumo', 'data_resumo']]` fails and
      the table is kept as it stands with the added columns. */
  function Preserve(file: File, df: Frame): (r: Frame)
    ensures |r.rows| == |df.rows|
    ensures df.columns <= r.columns
  {
    if file.Stored? && LinkColumn in df.columns && LinkColumn in file.frame.columns then
      var withCols := AddEmptyColumn(AddEmptyColumn(df, Resumo), DataResumo);
      var prior := file.frame;
      if Resumo in prior.columns && DataResumo in prior.columns then
        var subset := DedupFirst(prior.rows, LinkKey, {});
        Frame(withCols.columns, MergeRows(withCols.rows, subset))
      else withCols
    else df
  }

  /** The columns of `pd.DataFrame(posts)`, where `nanKeys` are the keys the
      records carry with a NaN value. */
  function FrameOf(posts: seq<Row>, nanKeys: set<string>): (df: Frame)
    ensures df.rows == posts
    ensures forall k :: k in df.columns <==> k in nanKeys || exists i :: 0 <= i < |posts| && k in posts[i]
  {
    Frame(Columns(posts) + nanKeys, posts)
  }

  /** The table `save_posts` writes, before the CSV round trip. */
  function SavedFrame(file: File, posts: seq<Row>, nanKeys: set<string>, removeDuplicates: bool): (r: Frame)
    ensures Columns(posts) + nanKeys <= r.columns
  {
    var df := Preserve(file, FrameOf(posts, nanKeys));
    if removeDuplicates && LinkColumn in df.columns then Frame(df.columns, DedupLast(df.rows, LinkKey))
    else df
  }

  /** A row as it reads back from CSV: empty cells become missing. */
  function PersistRow(row: Row): (r: Row)
    ensures forall k :: k in r <==> k in row && row[k] != []
    ensures forall k :: k in r ==> r[k] == row[k]
  {
    map k | k in row && row[k] != [] :: row[k]
  }

  function Persist(frame: Frame): (r: Frame)
    ensures r.columns == frame.columns && |r.rows| == |frame.rows|
    ensures forall i :: 0 <= i < |r.rows| ==> r.rows[i] == PersistRow(frame.rows[i])
  {
    Frame(frame.columns, seq(|frame.rows|, i requires 0 <= i < |frame.rows| => PersistRow(frame.rows[i])))
  }

  /** `CSVHandler.save_posts`: refuses an empty list without touching the
      file, fails without touching it when the path is a directory or cannot
      be written, and otherwise replaces it with `SavedFrame`. Freshly built
      posts carry no NaN keys (`nanKeys == {}`). */
  function SavePosts(file: File, posts: seq<Row>, nanKeys: set<string>, removeDuplicates: bool, writable: bool): (r: Saved)
    ensures r.ok <==> posts != [] && writable && !file.Directory?
    ensures !r.ok ==> r.file == file
    ensures r.ok ==> r.file == Stored(Persist(SavedFrame(file, posts, nanKeys, removeDuplicates)))
  {
    if posts == [] then Saved(false, file)
    else if file.Directory? || !writable then Saved(false, file)
    else Saved(true, Stored(Persist(SavedFrame(file, posts, nanKeys, removeDuplicates))))
  }

  /** A table every row of which has its keys among the columns, as in every
      `DataFrame`. */
  ghost predicate WellFormed(df: Frame) {
    forall i, k :: 0 <= i < |df.rows| && k in df.rows[i] ==> k in df.columns
  }

  /** Adding an empty column changes no cell as `fillna('')` reads it. */
  lemma AddEmptyColumnKeepsCells(df: Frame, col: string, i: nat, k: string)
    requires WellFormed(df) && i < |df.rows|
    ensures GetOrEmpty(AddEmptyColumn(df, col).rows[i], k) == GetOrEmpty(df.rows[i], k)
    ensures k != col ==> Get(AddEmptyColumn(df, col).rows[i], k) == Get(df.rows[i], k)
  {
  }

  /** Whether `save_posts` merges the prior annotations into the new table. */
  predicate Merges(file: File, df: Frame) {
    file.Stored? && LinkColumn in df.columns && LinkColumn in file.frame.columns &&
    Resumo in file.frame.columns && DataResumo in file.frame.columns
  }

  /** Re-scraping keeps the summaries already on disk: after the merge, each
      annotation of row `i` is the incoming one when it is not blank, and
      otherwise the one of the FIRST prior row with the same link, if any. */
  lemma PreserveAnnotations(file: File, df: Frame, i: nat)
    requires WellFormed(df) && Merges(file, df) && i < |df.rows|
    ensures var prior := FirstWithKey(file.frame.rows, LinkKey, LinkKey(df.rows[i]));
            var r := Preserve(file, df).rows[i];
            Get(r, Resumo) == Some(Annotation(df.rows[i], prior, Resumo)) &&
            Get(r, DataResumo) == Some(Annotation(df.rows[i], prior, DataResumo))
  {
    var withCols := AddEmptyColumn(AddEmptyColumn(df, Resumo), DataResumo);
    var subset := DedupFirst(file.frame.rows, LinkKey, {});
    var row := withCols.rows[i];
    assert LinkKey(row) == LinkKey(df.rows[i]) by {
      AddEmptyColumnKeepsCells(df, Resumo, i, LinkColumn);
      AddEmptyColumnKeepsCells(AddEmptyColumn(df, Resumo), DataResumo, i, LinkColumn);
    }
    DedupFirstKeepsFirstWithKey(file.frame.rows, LinkKey, {}, LinkKey(row));
    AddEmptyColumnKeepsCells(df, Resumo, i, Resumo);
    AddEmptyColumnKeepsCells(AddEmptyColumn(df, Resumo), DataResumo, i, Resumo);
    AddEmptyColumnKeepsCells(df, Resumo, i, DataResumo);
    AddEmptyColumnKeepsCells(AddEmptyColumn(df, Resumo), DataResumo, i, DataResumo);
  }

  /** Preserving summaries touches no column other than the two annotations,
      and keeps every row in its place. */
  lemma PreserveKeepsOtherCells(file: File, df: Frame, i: nat, k: string)
    requires WellFormed(df) && i < |df.rows| && k != Resumo && k != DataResumo
    ensures Get(Preserve(file, df).rows[i], k) == Get(df.rows[i], k)
  {
    if file.Stored? && LinkColumn in df.columns && LinkColumn in file.frame.columns {
      AddEmptyColumnKeepsCells(df, Resumo, i, k);
      AddEmptyColumnKeepsCells(AddEmptyColumn(df, Resumo), DataResumo, i, k);
    }
  }

  /** Without a parsed prior table with a link column, or without a link
      column in the new table, the new table is written as it is. */
  lemma PreserveWithoutPriorIsIdentity(file: File, df: Frame)
    requires !file.Stored? || LinkColumn !in df.columns || LinkColumn !in file.frame.columns
    ensures Preserve(file, df) == df
  {
  }

  /** With `remove_duplicates` and a link column, the saved table holds one
      row per link, each the last one carrying that link, and every link of
      the incoming posts is still there. */
  lemma SavedFrameDeduplicated(file: File, posts: seq<Row>, nanKeys: set<string>, n: nat)
    requires LinkColumn in Columns(posts)
    requires n < |SavedFrame(file, posts, nanKeys, true).rows|
    ensures var rows := SavedFrame(file, posts, nanKeys, true).rows;
            DistinctKeys(rows, LinkKey) &&
            exists i :: (0 <= i < |Preserve(file, FrameOf(posts, nanKeys)).rows| &&
              Preserve(file, FrameOf(posts, nanKeys)).rows[i] == rows[n] &&
              forall j :: i < j < |posts| ==> LinkKey(Preserve(file, FrameOf(posts, nanKeys)).rows[j]) != LinkKey(rows[n]))
  {
    var df := Preserve(file, FrameOf(posts, nanKeys));
    DedupLastKeepsLast(df.rows, LinkKey, n);
  }

  /** Every link among the posts given to `save_posts` survives de-duplication. */
  lemma SavedFrameKeepsEveryLink(file: File, posts: seq<Row>, nanKeys: set<string>, i: nat)
    requires i < |posts|
    ensures HasKey(SavedFrame(file, posts, nanKeys, true).rows, LinkKey, LinkKey(posts[i]))
  {
    var df := Preserve(file, FrameOf(posts, nanKeys));
    PreserveKeepsOtherCells(file, FrameOf(posts, nanKeys), i, LinkColumn);
    assert LinkKey(df.rows[i]) == LinkKey(posts[i]);
    if LinkColumn in df.columns {
      DedupLastCovers(df.rows, LinkKey, LinkKey(posts[i]));
    }
  }

  /** What `load_posts` reads back after a successful `save_posts`: the saved
      rows in order, a non-annotation cell surviving exactly when it was not
      empty. */
  lemma SaveThenLoad(file: File, posts: seq<Row>, nanKeys: set<string>, removeDuplicates: bool, writable: bool, i: nat, k: string)
    requires SavePosts(file, posts, nanKeys, removeDuplicates, writable).ok
    requires k != Resumo && k != DataResumo
    requires i < |SavedFrame(file, posts, nanKeys, removeDuplicates).rows|
    ensures var loaded := LoadPosts(SavePosts(file, posts, nanKeys, removeDuplicates, writable).file);
            var saved := SavedFrame(file, posts, nanKeys, removeDuplicates).rows[i];
            |loaded| == |SavedFrame(file, posts, nanKeys, removeDuplicates).rows| &&
            Get(loaded[i], k) == (if k in saved && saved[k] != [] then Some(saved[k]) else None)
  {
  }

  /** A table whose first post carries the four required columns passes
      `validate_csv_structure` once saved. */
  lemma SavedTableValidates(file: File, posts: seq<Row>, nanKeys: set<string>, removeDuplicates: bool, writable: bool)
    requires SavePosts(file, posts, nanKeys, removeDuplicates, writable).ok
    requires forall c :: c in RequiredColumns ==> c in posts[0] || c in nanKeys
    ensures ValidateCsvStructure(SavePosts(file, posts, nanKeys, removeDuplicates, writable).file)
  {
  }

  // ---------------------------------------------------------------------------
  // append_post
  // ---------------------------------------------------------------------------

  /** `CSVHandler.append_post`: the loaded records plus the new one, saved
      with de-duplication; it fails only when the path cannot be written. */
  function AppendPost(file: File, post: Row, writable: bool): (r: Saved)
    ensures r.ok <==> writable && !file.Directory?
    ensures r.ok ==> r.file == Stored(Persist(SavedFrame(file, LoadPosts(file) + [post], LoadedKeys(file), true)))
    ensures !r.ok ==> r.file == file
  {
    SavePosts(file, LoadPosts(file) + [post], LoadedKeys(file), true, writable)
  }

  /** The appended post's link is in the file after a successful append. */
  lemma AppendPostKeepsLink(file: File, post: Row, writable: bool)
    requires AppendPost(file, post, writable).ok
    ensures HasKey(SavedFrame(file, LoadPosts(file) + [post], LoadedKeys(file), true).rows, LinkKey, LinkKey(post))
  {
    var posts := LoadPosts(file) + [post];
    SavedFrameKeepsEveryLink(file, posts, LoadedKeys(file), |posts| - 1);
  }

  /** Appending to a table with at least one row keeps every column of it,
      even one that is empty in every row, so a file that passes
      `validate_csv_structure` still passes it. (A table with a header and
      no rows yields no records, and then only the new post's keys and the
      annotation columns are written.) */
  lemma AppendPostKeepsColumns(file: File, post: Row, writable: bool)
    requires writable && file.Stored? && file.frame.rows != []
    ensures AppendPost(file, post, writable).ok
    ensures file.frame.columns <= AppendPost(file, post, writable).file.frame.columns
    ensures ValidateCsvStructure(file) ==> ValidateCsvStructure(AppendPost(file, post, writable).file)
  {
  }

  // ---------------------------------------------------------------------------
  // update_posts
  // ---------------------------------------------------------------------------

  /** The links of `{post.get('link'): idx for idx, post in enumerate(rows)}`:
      each link maps to the index of the LAST row carrying it. A row whose
      link cell is empty is left out: pandas gives it NaN, which no incoming
      link equals. */
  function LastIndexOfLink(rows: seq<Row>): (m: map<string, nat>)
    ensures forall i :: 0 <= i < |rows| && LinkKey(rows[i]).Some? ==> LinkKey(rows[i]).value in m
    ensures forall l :: l in m ==> (m[l] < |rows| && LinkKey(rows[m[l]]) == Some(l) &&
              forall j :: m[l] < j < |rows| ==> LinkKey(rows[j]) != Some(l))
    decreases |rows|
  {
    if rows == [] then map[]
    else
      var n := |rows| - 1;
      var prefix := rows[..n];
      var m := LastIndexOfLink(prefix);
      assert forall j :: 0 <= j < n ==> prefix[j] == rows[j];
      match LinkKey(rows[n])
      case Some(l) => m[l := n]
      case None => m
  }

  /** `link_map` of `update_posts`: the index of each link, and the index the
      key `None` maps to, if any. */
  datatype LinkMap = LinkMap(links: map<string, nat>, none: Option<nat>)

  /** `link_map` over the loaded records. Without a `link` column every
      record gives `post.get('link') == None`, so `None` maps to the last
      row and no link is indexed; with one, no record gives `None`. */
  function LinkIndex(rows: seq<Row>, hasLinkColumn: bool): (m: LinkMap)
    ensures hasLinkColumn ==> m.none.None? && forall i :: 0 <= i < |rows| && LinkKey(rows[i]).Some? ==> LinkKey(rows[i]).value in m.links
    ensures forall l :: l in m.links ==> (m.links[l] < |rows| && LinkKey(rows[m.links[l]]) == Some(l) &&
              forall j :: m.links[l] < j < |rows| ==> LinkKey(rows[j]) != Some(l))
    ensures !hasLinkColumn ==> m.links == map[] && (m.none.Some? <==> rows != []) &&
                               (rows != [] ==> m.none.value == |rows| - 1)
  {
    if hasLinkColumn then LinkMap(LastIndexOfLink(rows), None)
    else LinkMap(map[], if rows == [] then None else Some(|rows| - 1))
  }

  /** Every index of `index` is a position in a table of `n` rows. */
  predicate InRange(index: LinkMap, n: nat) {
    (forall l :: l in index.links ==> index.links[l] < n) &&
    (index.none.Some? ==> index.none.value < n)
  }

  /** `link_map[post.get('link')]` when the key is present: the row an
      incoming post updates, if any. */
  function MatchOf(index: LinkMap, p: Row): Option<nat> {
    match LinkKey(p)
    case Some(l) => if l in index.links then Some(index.links[l]) else None
    case None => index.none
  }

  predicate WithLink(p: Row) {
    LinkKey(p).Some?
  }

  predicate WithoutLink(p: Row) {
    LinkKey(p).None?
  }

  /** The incoming post `p` updates the existing row `i`. */
  function Targets(index: LinkMap, i: nat): Row -> bool {
    (p: Row) => MatchOf(index, p) == Some(i)
  }

  /** The incoming post `p` matches no existing row and is appended. */
  function Unmatched(index: LinkMap): Row -> bool {
    (p: Row) => MatchOf(index, p).None?
  }

  /** `row.update(p)` for each `p` in turn: later values win. */
  function Overlay(row: Row, ps: seq<Row>): (r: Row)
    ensures forall k :: k in r <==> k in row || exists j :: 0 <= j < |ps| && k in ps[j]
    decreases |ps|
  {
    if ps == [] then row
    else
      var r := Overlay(row + ps[0], ps[1..]);
      assert forall j :: 1 <= j < |ps| ==> ps[j] == ps[1..][j - 1];
      r
  }

  /** The loop of `update_posts`: an incoming post whose link is in `index`
      updates that row in place, any other is appended (and does not enter
      the index). */
  function ApplyUpdates(rows: seq<Row>, index: LinkMap, posts: seq<Row>): (r: seq<Row>)
    requires InRange(index, |rows|)
    ensures |r| == |rows| + |Filter(posts, Unmatched(index))|
    decreases |posts|
  {
    if posts == [] then rows
    else
      var p := posts[0];
      assert posts == [p] + posts[1..];
      if MatchOf(index, p).Some? then
        var i := MatchOf(index, p).value;
        ApplyUpdates(rows[i := rows[i] + p], index, posts[1..])
      else ApplyUpdates(rows + [p], index, posts[1..])
  }

  /** In `update_posts`, every existing row stays in place, updated by the
      incoming posts that target it, in their order. */
  lemma {:induction false} ApplyUpdatesUpdatesInPlace(rows: seq<Row>, index: LinkMap, posts: seq<Row>, i: nat)
    requires InRange(index, |rows|)
    requires i < |rows|
    ensures ApplyUpdates(rows, index, posts)[i] == Overlay(rows[i], Filter(posts, Targets(index, i)))
    decreases |posts|
  {
    if posts != [] {
      var p := posts[0];
      var rest := posts[1..];
      assert posts == [p] + rest;
      if MatchOf(index, p).Some? {
        var t := MatchOf(index, p).value;
        ApplyUpdatesUpdatesInPlace(rows[t := rows[t] + p], index, rest, i);
        if i == t {
          assert Targets(index, i)(p);
        } else {
          assert !Targets(index, i)(p);
        }
      } else {
        ApplyUpdatesUpdatesInPlace(rows + [p], index, rest, i);
        assert !Targets(index, i)(p);
      }
    }
  }

  /** In `update_posts`, the posts matching no existing row are appended after
      the existing rows, in their order. */
  lemma {:induction false} ApplyUpdatesAppendsUnmatched(rows: seq<Row>, index: LinkMap, posts: seq<Row>)
    requires InRange(index, |rows|)
    ensures ApplyUpdates(rows, index, posts)[|rows|..] == Filter(posts, Unmatched(index))
    decreases |posts|
  {
    if posts != [] {
      var p := posts[0];
      var rest := posts[1..];
      if MatchOf(index, p).Some? {
        var t := MatchOf(index, p).value;
        ApplyUpdatesMatchedUnfold(rows, index, posts);
        ApplyUpdatesAppendsUnmatched(rows[t := rows[t] + p], index, rest);
        MatchedStep(rows, index, posts);
      } else {
        ApplyUpdatesUnmatchedUnfold(rows, index, posts);
        ApplyUpdatesAppendsUnmatched(rows + [p], index, rest);
        UnmatchedStep(rows, index, posts);
      }
    }
  }

  /** A row no link of the index points at is never updated. */
  lemma {:induction false} ApplyUpdatesKeepsUntargeted(rows: seq<Row>, index: LinkMap, posts: seq<Row>, j: nat)
    requires InRange(index, |rows|)
    requires j < |rows| && (forall l :: l in index.links ==> index.links[l] != j) && index.none != Some(j)
    ensures ApplyUpdates(rows, index, posts)[j] == rows[j]
    decreases |posts|
  {
    if posts != [] {
      var p := posts[0];
      if MatchOf(index, p).Some? {
        var t := MatchOf(index, p).value;
        ApplyUpdatesKeepsUntargeted(rows[t := rows[t] + p], index, posts[1..], j);
      } else {
        ApplyUpdatesKeepsUntargeted(rows + [p], index, posts[1..], j);
      }
    }
  }

  /** One matched iteration of the loop, as an equation. */
  lemma ApplyUpdatesMatchedUnfold(rows: seq<Row>, index: LinkMap, posts: seq<Row>)
    requires InRange(index, |rows|)
    requires posts != [] && MatchOf(index, posts[0]).Some?
    ensures var t := MatchOf(index, posts[0]).value;
            t < |rows| && InRange(index, |rows[t := rows[t] + posts[0]]|) &&
            ApplyUpdates(rows, index, posts) == ApplyUpdates(rows[t := rows[t] + posts[0]], index, posts[1..])
  {
  }

  /** One unmatched iteration of the loop, as an equation. */
  lemma ApplyUpdatesUnmatchedUnfold(rows: seq<Row>, index: LinkMap, posts: seq<Row>)
    requires InRange(index, |rows|)
    requires posts != [] && MatchOf(index, posts[0]).None?
    ensures InRange(index, |rows| + 1) &&
            ApplyUpdates(rows, index, posts) == ApplyUpdates(rows + [posts[0]], index, posts[1..])
  {
  }

  lemma MatchedStep(rows: seq<Row>, index: LinkMap, posts: seq<Row>)
    requires InRange(index, |rows|)
    requires posts != [] && MatchOf(index, posts[0]).Some?
    requires var t := MatchOf(index, posts[0]).value;
             ApplyUpdates(rows[t := rows[t] + posts[0]], index, posts[1..])[|rows|..] ==
             Filter(posts[1..], Unmatched(index))
    ensures ApplyUpdates(rows, index, posts)[|rows|..] == Filter(posts, Unmatched(index))
  {
    FilterStep(posts, Unmatched(index));
    assert !Unmatched(index)(posts[0]);
  }

  lemma UnmatchedStep(rows: seq<Row>, index: LinkMap, posts: seq<Row>)
    requires InRange(index, |rows|)
    requires posts != [] && MatchOf(index, posts[0]).None?
    requires ApplyUpdates(rows + [posts[0]], index, posts[1..])[|rows| + 1..] ==
             Filter(posts[1..], Unmatched(index))
    ensures ApplyUpdates(rows, index, posts)[|rows|..] == Filter(posts, Unmatched(index))
  {
    var p := posts[0];
    var rest := posts[1..];
    var grown := rows + [p];
    ApplyUpdatesUnmatchedUnfold(rows, index, posts);
    var r' := ApplyUpdates(grown, index, rest);
    assert r'[|rows|] == p by {
      ApplyUpdatesKeepsUntargeted(grown, index, rest, |rows|);
    }
    SuffixStep(r', |rows|);
    assert Filter(posts, Unmatched(index)) == [p] + Filter(rest, Unmatched(index)) by {
      FilterStep(posts, Unmatched(index));
    }
  }

  /** Whether the loaded table has a `link` column. */
  predicate HasLinkColumn(file: File) {
    file.Stored? && LinkColumn in file.frame.columns
  }

  /** `link_map` as `update_posts` builds it from `load_posts`. */
  function IndexOf(file: File): LinkMap {
    LinkIndex(LoadPosts(file), HasLinkColumn(file))
  }

  /** The rows `update_posts` hands to `save_posts`. */
  function Upserted(file: File, posts: seq<Row>): (r: seq<Row>)
    ensures |r| >= |LoadPosts(file)|
    ensures LoadPosts(file) == [] ==> r == posts
  {
    var existing := LoadPosts(file);
    var r := ApplyUpdates(existing, IndexOf(file), posts);
    if existing == [] then
      ApplyUpdatesAppendsUnmatched(existing, IndexOf(file), posts);
      FilterKeepsAll(posts, Unmatched(IndexOf(file)));
      r
    else r
  }

  /** Upsert by link: each loaded row stays in place, updated (later values
      winning) by the incoming posts whose link is that of the row, where a
      link shared by several loaded rows designates the last of them. */
  lemma UpsertedUpdatesInPlace(file: File, posts: seq<Row>, i: nat)
    requires i < |LoadPosts(file)|
    ensures var index := IndexOf(file);
            Upserted(file, posts)[i] == Overlay(LoadPosts(file)[i], Filter(posts, Targets(index, i)))
  {
    var existing := LoadPosts(file);
    ApplyUpdatesUpdatesInPlace(existing, IndexOf(file), posts, i);
  }

  /** Without a `link` column, the incoming posts without a link all update
      the last loaded row, in their order, and those with a link are
      appended. */
  lemma UpsertedWithoutLinkColumn(file: File, posts: seq<Row>)
    requires file.Stored? && LinkColumn !in file.frame.columns && file.frame.rows != []
    ensures var n := |LoadPosts(file)|;
            var r := Upserted(file, posts);
            r[n - 1] == Overlay(LoadPosts(file)[n - 1], Filter(posts, WithoutLink)) &&
            r[n..] == Filter(posts, WithLink) &&
            forall i :: 0 <= i < n - 1 ==> r[i] == LoadPosts(file)[i]
  {
    var existing := LoadPosts(file);
    var index := IndexOf(file);
    var n := |existing|;
    assert forall i :: 0 <= i < |posts| ==> Targets(index, n - 1)(posts[i]) == WithoutLink(posts[i]);
    assert forall i :: 0 <= i < |posts| ==> Unmatched(index)(posts[i]) == WithLink(posts[i]);
    FilterCongruent(posts, Targets(index, n - 1), WithoutLink);
    FilterCongruent(posts, Unmatched(index), WithLink);
    ApplyUpdatesUpdatesInPlace(existing, index, posts, n - 1);
    ApplyUpdatesAppendsUnmatched(existing, index, posts);
    forall i | 0 <= i < n - 1
      ensures Upserted(file, posts)[i] == existing[i]
    {
      ApplyUpdatesKeepsUntargeted(existing, index, posts, i);
    }
  }

  /** Upsert by link: the incoming posts whose link no loaded row carries
      follow the loaded rows, in their order, duplicates included. */
  lemma UpsertedAppendsUnmatched(file: File, posts: seq<Row>)
    ensures var index := IndexOf(file);
            Upserted(file, posts)[|LoadPosts(file)|..] == Filter(posts, Unmatched(index))
  {
    var existing := LoadPosts(file);
    ApplyUpdatesAppendsUnmatched(existing, IndexOf(file), posts);
  }

  /** `CSVHandler.update_posts`: upsert by link, then save with
      de-duplication; it fails when there is nothing at all to write or the
      path cannot be written. */
  function UpdatePosts(file: File, posts: seq<Row>, writable: bool): (r: Saved)
    ensures r.ok <==> writable && !file.Directory? && (LoadPosts(file) != [] || posts != [])
    ensures !r.ok ==> r.file == file
    ensures r.ok ==> r.file == Stored(Persist(SavedFrame(file, Upserted(file, posts), LoadedKeys(file), true)))
  {
    SavePosts(file, Upserted(file, posts), LoadedKeys(file), true, writable)
  }

  /** Updating a table with at least one row keeps every column of it, even
      one that is empty in every row, so a file that passes
      `validate_csv_structure` still passes it. */
  lemma UpdatePostsKeepsColumns(file: File, posts: seq<Row>, writable: bool)
    requires writable && file.Stored? && file.frame.rows != []
    ensures UpdatePosts(file, posts, writable).ok
    ensures file.frame.columns <= UpdatePosts(file, posts, writable).file.frame.columns
    ensures ValidateCsvStructure(file) ==> ValidateCsvStructure(UpdatePosts(file, posts, writable).file)
  {
  }

  // ---------------------------------------------------------------------------
  // Queries
  // ---------------------------------------------------------------------------

  /** `not post.get('resumo') or post.get('resumo').strip() == ''`. */
  predicate LacksSummary(post: Row) {
    IsBlank(GetOrEmpty(post, Resumo))
  }

  /** `CSVHandler.get_posts_without_summaries`. */
  function GetPostsWithoutSummaries(file: File): (r: seq<Row>)
    ensures IsSubsequence(r, LoadPosts(file))
    ensures forall p :: p in r <==> p in LoadPosts(file) && LacksSummary(p)
    ensures forall p :: multiset(r)[p] == if LacksSummary(p) then multiset(LoadPosts(file))[p] else 0
  {
    Filter(LoadPosts(file), LacksSummary)
  }

  /** `CSVHandler.validate_csv_structure`: a parsed table holding the four
      required columns; a missing, unreadable or directory path fails. */
  function ValidateCsvStructure(file: File): (ok: bool)
    ensures ok ==> file.Stored?
    ensures file.Stored? ==> (ok <==> forall c :: c in RequiredColumns ==> c in file.frame.columns)
  {
    file.Stored? && forall c :: c in RequiredColumns ==> c in file.frame.columns
  }

  /** The dictionary `get_statistics` returns. */
  datatype Statistics = Statistics(
    totalPosts: nat,
    postsWithSummary: nat,
    postsWithoutSummary: nat,
    postTypes: map<string, nat>)

  /** `if p.get('resumo')`: a non-empty summary, whitespace included. */
  predicate HasSummary(post: Row) {
    GetOrEmpty(post, Resumo) != []
  }

  predicate EmptySummary(post: Row) {
    GetOrEmpty(post, Resumo) == []
  }

  /** `post.get('post_type', 'Unknown')`. */
  function TypeOf(post: Row): string {
    Get(post, PostTypeColumn).GetOr(UnknownType)
  }

  function IsOfType(t: string): Row -> bool {
    (p: Row) => TypeOf(p) == t
  }

  /** The per-type tally of `get_statistics`. */
  function TypeCounts(posts: seq<Row>): (m: map<string, nat>)
    ensures forall t :: t in m <==> exists i :: 0 <= i < |posts| && TypeOf(posts[i]) == t
    decreases |posts|
  {
    if posts == [] then map[]
    else
      var m := TypeCounts(posts[1..]);
      assert forall i :: 1 <= i < |posts| ==> posts[i] == posts[1..][i - 1];
      var t := TypeOf(posts[0]);
      m[t := (if t in m then m[t] else 0) + 1]
  }

  /** Each tallied type counts exactly the posts of that type. */
  lemma {:induction false} TypeCountsAreCounts(posts: seq<Row>, t: string)
    requires t in TypeCounts(posts)
    ensures TypeCounts(posts)[t] == Count(posts, IsOfType(t)) > 0
    decreases |posts|
  {
    var rest := posts[1..];
    if t in TypeCounts(rest) {
      TypeCountsAreCounts(rest, t);
    } else {
      assert TypeOf(posts[0]) == t;
      CountAbsent(rest, IsOfType(t));
    }
  }

  /** The type of each post, in order. */
  function TypesOf(posts: seq<Row>): (ts: seq<string>)
    ensures |ts| == |posts| && forall i :: 0 <= i < |posts| ==> ts[i] == TypeOf(posts[i])
    decreases |posts|
  {
    if posts == [] then [] else [TypeOf(posts[0])] + TypesOf(posts[1..])
  }

  /** The tally is the multiset of the posts' types: a type is tallied
      exactly as often as it occurs, so the counts add up to the number of
      posts. */
  lemma {:induction false} TypeCountsSumToTotal(posts: seq<Row>)
    ensures |multiset(TypesOf(posts))| == |posts|
    ensures forall t :: t in TypeCounts(posts) ==> TypeCounts(posts)[t] == multiset(TypesOf(posts))[t]
    ensures forall t :: t !in TypeCounts(posts) ==> multiset(TypesOf(posts))[t] == 0
    decreases |posts|
  {
    if posts != [] {
      var rest := posts[1..];
      TypeCountsSumToTotal(rest);
      var t0 := TypeOf(posts[0]);
      assert TypesOf(posts) == [t0] + TypesOf(rest);
      assert multiset(TypesOf(posts)) == multiset{t0} + multiset(TypesOf(rest));
    }
  }

  /** `CSVHandler.get_statistics`. */
  function GetStatistics(file: File): (r: Statistics)
    ensures r.totalPosts == |LoadPosts(file)|
    ensures r.postsWithSummary + r.postsWithoutSummary == r.totalPosts
    ensures r.postsWithSummary == Count(LoadPosts(file), HasSummary)
    ensures r.postTypes == TypeCounts(LoadPosts(file))
    ensures |multiset(TypesOf(LoadPosts(file)))| == r.totalPosts
    ensures forall t :: t in r.postTypes ==> r.postTypes[t] == multiset(TypesOf(LoadPosts(file)))[t]
    ensures forall t :: t !in r.postTypes ==> multiset(TypesOf(LoadPosts(file)))[t] == 0
  {
    var posts := LoadPosts(file);
    TypeCountsSumToTotal(posts);
    var with := Count(posts, HasSummary);
    Statistics(|posts|, with, |posts| - with, TypeCounts(posts))
  }

  /** The statistics count a whitespace-only summary as present, while
      `get_posts_without_summaries` lists that post: the second never reports
      fewer posts than the first counts as lacking one. */
  lemma StatisticsUndercountMissing(file: File)
    ensures GetStatistics(file).postsWithoutSummary <= |GetPostsWithoutSummaries(file)|
  {
    var posts := LoadPosts(file);
    assert |posts| - Count(posts, HasSummary) == Count(posts, EmptySummary) by {
      CountComplement(posts, HasSummary, EmptySummary);
    }
    assert Count(posts, EmptySummary) <= Count(posts, LacksSummary) by {
      CountMonotone(posts, EmptySummary, LacksSummary);
    }
    CountIsFilterLength(posts, LacksSummary);
  }
}

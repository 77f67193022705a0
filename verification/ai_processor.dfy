/** The summary step (`src/ai_processor.py`): validation of a generated
    summary, the JSON store of summaries, and `process_posts`, which walks the
    posts once, skipping those already in the ledger and annotating the others
    whose summary is valid.

    The language-model call (`SummaryGenerator.generate_summary`) is the
    oracle `generate` from link to optional text; the clock is `clock`, giving
    the `%d/%m/%Y %H:%M` stamp for the post at a given position; the day the
    ledger records is `today`. Whether the ledger database can be opened and
    whether the JSON file can be written are flags of the environment. */
module AiProcessor {
  import opened Basics
  import opened Text
  import opened CsvHandler
  import opened Database

  /** `SummaryStorage.SEPARATOR`: a newline, fifty dashes, a newline. */
  const Separator: string := "\n" + Repeat('-', 50) + "\n"

  /** `SummaryGenerator.validate_summary`: a summary that is present, not
      blank and at most `maxChars` characters long, whitespace included. */
  function ValidateSummary(summary: Option<string>, maxChars: int): (ok: bool)
    ensures summary.None? ==> !ok
    ensures summary.Some? && IsBlank(summary.value) ==> !ok
    ensures summary.Some? && |summary.value| > maxChars ==> !ok
    ensures summary.Some? && !IsBlank(summary.value) && |summary.value| <= maxChars ==> ok
  {
    match summary
    case None => false
    case Some(s) => s != [] && !IsBlank(s) && |s| <= maxChars
  }

  // ---------------------------------------------------------------------------
  // SummaryStorage
  // ---------------------------------------------------------------------------

  /** One stored summary: `titulo`, `link`, `data`, `conteudo`. */
  datatype Record = Record(titulo: string, link: string, data: string, conteudo: string)

  /** The JSON file of summaries: a list of records, or a file that does not
      decode. */
  datatype SummaryFile = Records(items: seq<Record>) | Corrupt

  /** `SummaryStorage.load_summaries`: a file that does not decode reads as
      no records. */
  function LoadSummaries(file: SummaryFile): (rs: seq<Record>)
    ensures file.Records? ==> rs == file.items
    ensures file.Corrupt? ==> rs == []
  {
    match file
    case Records(items) => items
    case Corrupt => []
  }

  datatype SaveResult = SaveResult(ok: bool, file: SummaryFile)

  /** `SummaryStorage.save_summary`: the loaded records plus one, written back
      when the file can be written. A file that did not decode is replaced by
      the single new record. */
  function SaveSummary(file: SummaryFile, rec: Record, writable: bool): (r: SaveResult)
    ensures r.ok <==> writable
    ensures r.ok ==> r.file == Records(LoadSummaries(file) + [rec])
    ensures !r.ok ==> r.file == file
  {
    if writable then SaveResult(true, Records(LoadSummaries(file) + [rec])) else SaveResult(false, file)
  }

  /** `SummaryStorage.get_processed_links`: the non-empty links of the stored
      records. */
  function GetProcessedLinks(file: SummaryFile): (ls: set<string>)
    ensures forall l :: l in ls <==> l != [] && exists i :: 0 <= i < |LoadSummaries(file)| && LoadSummaries(file)[i].link == l
  {
    var rs := LoadSummaries(file);
    assert forall r :: r in rs <==> exists i :: 0 <= i < |rs| && rs[i] == r;
    set r | r in rs && r.link != [] :: r.link
  }

  /** Saving a record adds exactly its link (when not empty) to the
      processed links of a readable store. */
  lemma SaveSummaryAddsLink(items: seq<Record>, rec: Record)
    ensures GetProcessedLinks(SaveSummary(Records(items), rec, true).file) ==
            GetProcessedLinks(Records(items)) + (if rec.link != [] then {rec.link} else {})
  {
    var after := items + [rec];
    assert after[|items|] == rec;
    forall l | l in GetProcessedLinks(Records(after))
      ensures l in GetProcessedLinks(Records(items)) + (if rec.link != [] then {rec.link} else {})
    {
      var i :| 0 <= i < |after| && after[i].link == l;
      if i < |items| {
        assert items[i] == after[i];
      }
    }
    forall l | l in GetProcessedLinks(Records(items)) ensures l in GetProcessedLinks(Records(after)) {
      var i :| 0 <= i < |items| && items[i].link == l;
      assert after[i] == items[i];
    }
  }

  // ---------------------------------------------------------------------------
  // AIPostProcessor.process_posts
  // ---------------------------------------------------------------------------

  /** The outside world of `process_posts`. */
  datatype Env = Env(
    generate: string -> Option<string>,
    maxChars: int,
    clock: nat -> string,
    today: int,
    dbReachable: bool,
    storageWritable: bool)

  /** The persistent state `process_posts` reads and writes. */
  datatype State = State(db: Ledger, storage: SummaryFile)

  /** What happened to one post. */
  datatype Outcome = Skipped | Rejected | Annotated(summary: string)

  predicate IsAnnotated(o: Outcome) {
    o.Annotated?
  }

  /** `post.get("link", "")`. */
  function LinkOf(post: Row): string {
    GetOrEmpty(post, LinkColumn)
  }

  /** The post with its summary: `resumo` is the separator followed by the
      summary, `data_resumo` the stamp, every other column as it was. */
  function Annotate(post: Row, summary: string, stamp: string): (r: Row)
    ensures Get(r, Resumo) == Some(Separator + summary)
    ensures Get(r, DataResumo) == Some(stamp)
    ensures forall k :: k != Resumo && k != DataResumo ==> Get(r, k) == Get(post, k)
  {
    AnnotationColumnsDiffer();
    post[Resumo := Separator + summary][DataResumo := stamp]
  }

  /** One post after one iteration of the loop. */
  datatype Stepped = Stepped(post: Row, outcome: Outcome, state: State)

  /** One iteration of the loop of `process_posts`, for the post at
      position `idx`. */
  function Step(post: Row, st: State, env: Env, idx: nat): (r: Stepped)
    ensures IsProcessed(st.db, LinkOf(post), env.dbReachable) ==> r == Stepped(post, Skipped, st)
    ensures r.outcome.Rejected? <==>
              !IsProcessed(st.db, LinkOf(post), env.dbReachable) && !ValidateSummary(env.generate(LinkOf(post)), env.maxChars)
    ensures !r.outcome.Annotated? ==> r.post == post && r.state == st
    ensures r.outcome.Annotated? ==>
              !IsProcessed(st.db, LinkOf(post), env.dbReachable) &&
              env.generate(LinkOf(post)) == Some(r.outcome.summary) &&
              ValidateSummary(Some(r.outcome.summary), env.maxChars) &&
              r.post == Annotate(post, r.outcome.summary, env.clock(idx))
  {
    var link := LinkOf(post);
    if IsProcessed(st.db, link, env.dbReachable) then Stepped(post, Skipped, st)
    else
      var summary := env.generate(link);
      if !ValidateSummary(summary, env.maxChars) then Stepped(post, Rejected, st)
      else
        var stamp := env.clock(idx);
        var rec := Record(GetOrEmpty(post, "title"), link, stamp, summary.value);
        var storage := SaveSummary(st.storage, rec, env.storageWritable).file;
        var db := MarkAsProcessed(st.db, link, env.today, env.dbReachable).db;
        Stepped(Annotate(post, summary.value, stamp), Annotated(summary.value), State(db, storage))
  }

  /** An annotating step records the link in the ledger (when reachable) and
      one record in the store (when writable); the ledger only grows. */
  lemma StepRecords(post: Row, st: State, env: Env, idx: nat)
    ensures var r := Step(post, st, env, idx);
            Links(r.state.db) == Links(st.db) + (if r.outcome.Annotated? && env.dbReachable then {LinkOf(post)} else {})
    ensures var r := Step(post, st, env, idx);
            r.outcome.Annotated? && env.storageWritable ==>
              r.state.storage == Records(LoadSummaries(st.storage) +
                [Record(GetOrEmpty(post, "title"), LinkOf(post), env.clock(idx), r.outcome.summary)])
  {
    var r := Step(post, st, env, idx);
    if r.outcome.Annotated? {
      MarkGrowsLinks(st.db, LinkOf(post), env.today, env.dbReachable);
    }
  }

  /** The posts, their outcomes and the final state of a run. */
  datatype Run = Run(posts: seq<Row>, outcomes: seq<Outcome>, state: State)

  /** The loop of `process_posts` from position `from` on. */
  function ProcessFrom(posts: seq<Row>, st: State, env: Env, from: nat): (r: Run)
    ensures |r.posts| == |posts| && |r.outcomes| == |posts|
    decreases |posts|
  {
    if posts == [] then Run([], [], st)
    else
      var s := Step(posts[0], st, env, from);
      var rest := ProcessFrom(posts[1..], s.state, env, from + 1);
      Run([s.post] + rest.posts, [s.outcome] + rest.outcomes, rest.state)
  }

  /** The first step of a run, and the run of the remaining posts from the
      state it leaves. */
  lemma ProcessFromUnfold(posts: seq<Row>, st: State, env: Env, from: nat)
    requires posts != []
    ensures var s := Step(posts[0], st, env, from);
            var r := ProcessFrom(posts, st, env, from);
            var rest := ProcessFrom(posts[1..], s.state, env, from + 1);
            r.outcomes[0] == s.outcome && r.outcomes[1..] == rest.outcomes && r.state == rest.state &&
            r.posts[0] == s.post && r.posts[1..] == rest.posts
  {
    var r := ProcessFrom(posts, st, env, from);
    var s := Step(posts[0], st, env, from);
    var rest := ProcessFrom(posts[1..], s.state, env, from + 1);
    assert r.outcomes == [s.outcome] + rest.outcomes;
    assert r.posts == [s.post] + rest.posts;
  }

  /** Each post of a run is the input post, annotated exactly when its
      outcome says so, with the summary the model produced for its link and
      the stamp of its position. */
  lemma {:induction false} RunPostAt(posts: seq<Row>, st: State, env: Env, from: nat, i: nat)
    requires i < |posts|
    ensures var r := ProcessFrom(posts, st, env, from);
            (!r.outcomes[i].Annotated? ==> r.posts[i] == posts[i]) &&
            (r.outcomes[i].Annotated? ==>
               r.posts[i] == Annotate(posts[i], r.outcomes[i].summary, env.clock(from + i)) &&
               env.generate(LinkOf(posts[i])) == Some(r.outcomes[i].summary) &&
               ValidateSummary(Some(r.outcomes[i].summary), env.maxChars))
    decreases |posts|
  {
    var s := Step(posts[0], st, env, from);
    ProcessFromUnfold(posts, st, env, from);
    if i > 0 {
      var r := ProcessFrom(posts, st, env, from);
      assert posts[i] == posts[1..][i - 1];
      assert r.outcomes[i] == r.outcomes[1..][i - 1];
      assert r.posts[i] == r.posts[1..][i - 1];
      RunPostAt(posts[1..], s.state, env, from + 1, i - 1);
    }
  }

  /** The ledger only grows over a run. */
  lemma {:induction false} RunGrowsLedger(posts: seq<Row>, st: State, env: Env, from: nat)
    ensures Links(st.db) <= Links(ProcessFrom(posts, st, env, from).state.db)
    decreases |posts|
  {
    if posts != [] {
      var s := Step(posts[0], st, env, from);
      StepRecords(posts[0], st, env, from);
      RunGrowsLedger(posts[1..], s.state, env, from + 1);
      ProcessFromUnfold(posts, st, env, from);
    }
  }

  /** A post whose link the ledger held at the start is skipped, and a post
      is rejected only for an invalid summary. */
  lemma {:induction false} RunSkipsAndRejects(posts: seq<Row>, st: State, env: Env, from: nat, i: nat)
    requires i < |posts|
    ensures var r := ProcessFrom(posts, st, env, from);
            (IsProcessed(st.db, LinkOf(posts[i]), env.dbReachable) ==> r.outcomes[i] == Skipped) &&
            (r.outcomes[i].Rejected? ==> !ValidateSummary(env.generate(LinkOf(posts[i])), env.maxChars))
    decreases |posts|
  {
    var s := Step(posts[0], st, env, from);
    ProcessFromUnfold(posts, st, env, from);
    if i > 0 {
      StepRecords(posts[0], st, env, from);
      assert posts[i] == posts[1..][i - 1];
      RunSkipsAndRejects(posts[1..], s.state, env, from + 1, i - 1);
      var r := ProcessFrom(posts, st, env, from);
      assert r.outcomes[i] == r.outcomes[1..][i - 1];
    }
  }

  /** `AIPostProcessor.process_posts`: the posts in the same order, some
      annotated, and the state after. */
  function ProcessPosts(posts: seq<Row>, st: State, env: Env): (r: Run)
    ensures posts == [] ==> r.posts == [] && r.state == st
    ensures |r.posts| == |posts|
  {
    if posts == [] then Run([], [], st) else ProcessFrom(posts, st, env, 0)
  }

  /** With the ledger reachable, an annotated post's link was not in the
      ledger at the start and is in it at the end. */
  lemma {:induction false} AnnotatedLinksRecorded(posts: seq<Row>, st: State, env: Env, from: nat, i: nat)
    requires env.dbReachable && i < |posts|
    requires ProcessFrom(posts, st, env, from).outcomes[i].Annotated?
    ensures LinkOf(posts[i]) !in Links(st.db)
    ensures LinkOf(posts[i]) in Links(ProcessFrom(posts, st, env, from).state.db)
    decreases |posts|
  {
    var s := Step(posts[0], st, env, from);
    var r := ProcessFrom(posts, st, env, from);
    StepRecords(posts[0], st, env, from);
    ProcessFromUnfold(posts, st, env, from);
    RunGrowsLedger(posts[1..], s.state, env, from + 1);
    if i > 0 {
      assert posts[i] == posts[1..][i - 1];
      assert r.outcomes[i] == r.outcomes[1..][i - 1];
      AnnotatedLinksRecorded(posts[1..], s.state, env, from + 1, i - 1);
    }
  }

  /** With the ledger reachable, a link repeated in the input is annotated at
      most once per run. */
  lemma {:induction false} AnnotatesEachLinkOnce(posts: seq<Row>, st: State, env: Env, from: nat, i: nat, j: nat)
    requires env.dbReachable && i < j < |posts|
    requires ProcessFrom(posts, st, env, from).outcomes[i].Annotated?
    requires ProcessFrom(posts, st, env, from).outcomes[j].Annotated?
    ensures LinkOf(posts[i]) != LinkOf(posts[j])
    decreases |posts|
  {
    var next := Step(posts[0], st, env, from).state;
    OutcomeOfTail(posts, st, env, from, j);
    if i == 0 {
      HeadAnnotatedRecorded(posts, st, env, from);
      AnnotatedLinksRecorded(posts[1..], next, env, from + 1, j - 1);
    } else {
      OutcomeOfTail(posts, st, env, from, i);
      AnnotatesEachLinkOnce(posts[1..], next, env, from + 1, i - 1, j - 1);
    }
  }

  /** Position `j > 0` of a run is position `j - 1` of the run of the tail. */
  lemma OutcomeOfTail(posts: seq<Row>, st: State, env: Env, from: nat, j: nat)
    requires 0 < j < |posts|
    ensures posts[j] == posts[1..][j - 1]
    ensures ProcessFrom(posts, st, env, from).outcomes[j] ==
            ProcessFrom(posts[1..], Step(posts[0], st, env, from).state, env, from + 1).outcomes[j - 1]
  {
    ProcessFromUnfold(posts, st, env, from);
    var r := ProcessFrom(posts, st, env, from);
    assert r.outcomes[j] == r.outcomes[1..][j - 1];
  }

  /** An annotated first post has its link in the ledger after its step. */
  lemma HeadAnnotatedRecorded(posts: seq<Row>, st: State, env: Env, from: nat)
    requires env.dbReachable && posts != []
    requires ProcessFrom(posts, st, env, from).outcomes[0].Annotated?
    ensures LinkOf(posts[0]) in Links(Step(posts[0], st, env, from).state.db)
  {
    ProcessFromUnfold(posts, st, env, from);
    StepRecords(posts[0], st, env, from);
  }

  /** With a readable store that can be written, the run appends exactly one
      record per annotated post. */
  lemma {:induction false} StoreGrowsByAnnotated(posts: seq<Row>, st: State, env: Env, from: nat)
    requires st.storage.Records? && env.storageWritable
    ensures var r := ProcessFrom(posts, st, env, from);
            r.state.storage.Records? &&
            |r.state.storage.items| == |st.storage.items| + Count(r.outcomes, IsAnnotated)
    decreases |posts|
  {
    if posts != [] {
      var s := Step(posts[0], st, env, from);
      StepRecords(posts[0], st, env, from);
      StoreGrowsByAnnotated(posts[1..], s.state, env, from + 1);
      ProcessFromUnfold(posts, st, env, from);
    }
  }
}

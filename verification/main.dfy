/** The orchestration of `src/main.py`: the three stages of the pipeline,
    each built from the modelled operations, their short-circuit sequencing,
    and the process exit code.

    The browser session, the language model and the webhook are outside the
    model: the browser yields the rendered listing page (or raises), the
    summary step runs in its own environment, and the n8n connection test and
    delivery are given as a flag and a predicate over the posts sent. */
module Pipeline {
  import opened Basics
  import opened Text
  import opened Dom
  import Scraper
  import opened CsvHandler
  import AiProcessor

  /** `dict(post)` of a scraped post, with the four columns of the CSV. */
  function ToRow(p: Scraper.Post): (r: Row)
    ensures forall c :: c in RequiredColumns ==> c in r
    ensures LinkKey(r) == Some(p.link)
  {
    map["post_type" := p.postType, "title" := p.title, "cover_image" := p.coverImage, "link" := p.link]
  }

  function ToRows(ps: seq<Scraper.Post>): (rs: seq<Row>)
    ensures |rs| == |ps| && forall i :: 0 <= i < |ps| ==> rs[i] == ToRow(ps[i])
  {
    seq(|ps|, i requires 0 <= i < |ps| => ToRow(ps[i]))
  }

  // ---------------------------------------------------------------------------
  // run_scraping
  // ---------------------------------------------------------------------------

  /** How the scraping attempt went: the scraper could not be built, it was
      built but `scrape_posts` raised, or it rendered the listing page. */
  datatype ScrapeRun = NoScraper | ScrapeRaised | Rendered(page: Node)

  /** The outcome of `run_scraping`: its result, the CSV after it, and
      whether the scraper's `cleanup` ran. */
  datatype Scraping = Scraping(ok: bool, file: File, cleanedUp: bool)

  /** `Application.run_scraping`, with the configured `target_post_type` as
      the filter. */
  function RunScraping(run: ScrapeRun, targetType: string, scraperEnv: Scraper.Env, file: File, writable: bool): (r: Scraping)
    ensures r.cleanedUp <==> !run.NoScraper?
    ensures !run.Rendered? ==> !r.ok && r.file == file
    ensures run.Rendered? && Scraper.ScrapePosts(run.page, "", targetType, scraperEnv) == [] ==> !r.ok && r.file == file
    ensures run.Rendered? && Scraper.ScrapePosts(run.page, "", targetType, scraperEnv) != [] ==>
              var saved := SavePosts(file, ToRows(Scraper.ScrapePosts(run.page, "", targetType, scraperEnv)), {}, true, writable);
              r.ok == saved.ok && r.file == saved.file
  {
    match run
    case NoScraper => Scraping(false, file, false)
    case ScrapeRaised => Scraping(false, file, true)
    case Rendered(page) =>
      var posts := Scraper.ScrapePosts(page, "", targetType, scraperEnv);
      if posts == [] then Scraping(false, file, true)
      else
        var saved := SavePosts(file, ToRows(posts), {}, true, writable);
        Scraping(saved.ok, saved.file, true)
  }

  /** A successful scraping stage leaves a CSV that passes
      `validate_csv_structure`. */
  lemma ScrapingLeavesValidCsv(run: ScrapeRun, targetType: string, scraperEnv: Scraper.Env, file: File, writable: bool)
    requires RunScraping(run, targetType, scraperEnv, file, writable).ok
    ensures ValidateCsvStructure(RunScraping(run, targetType, scraperEnv, file, writable).file)
  {
    var posts := ToRows(Scraper.ScrapePosts(run.page, "", targetType, scraperEnv));
    SavedTableValidates(file, posts, {}, true, writable);
  }

  // ---------------------------------------------------------------------------
  // run_ai_processing
  // ---------------------------------------------------------------------------

  /** The outcome of `run_ai_processing`. */
  datatype Processing = Processing(ok: bool, file: File, state: AiProcessor.State)

  /** `Application.run_ai_processing`: load, summarise, upsert. */
  function RunAiProcessing(file: File, writable: bool, st: AiProcessor.State, env: AiProcessor.Env): (r: Processing)
    ensures LoadPosts(file) == [] ==> !r.ok && r.file == file && r.state == st
    ensures LoadPosts(file) != [] ==>
              var run := AiProcessor.ProcessPosts(LoadPosts(file), st, env);
              var updated := UpdatePosts(file, run.posts, writable);
              r.ok == updated.ok && r.file == updated.file && r.state == run.state
  {
    var posts := LoadPosts(file);
    if posts == [] then Processing(false, file, st)
    else
      var run := AiProcessor.ProcessPosts(posts, st, env);
      var updated := UpdatePosts(file, run.posts, writable);
      Processing(updated.ok, updated.file, run.state)
  }

  /** The AI stage succeeds exactly when the CSV has rows and can be
      written. */
  lemma AiProcessingSucceeds(file: File, writable: bool, st: AiProcessor.State, env: AiProcessor.Env)
    ensures RunAiProcessing(file, writable, st, env).ok <==> LoadPosts(file) != [] && writable && !file.Directory?
  {
  }

  /** On a writable CSV with rows the AI stage succeeds, and it leaves a CSV
      that passes `validate_csv_structure` whenever the one it read did: columns left empty in every row, such as
      `cover_image` when no post had an image, are written back. */
  lemma AiProcessingKeepsValidCsv(file: File, writable: bool, st: AiProcessor.State, env: AiProcessor.Env)
    requires writable && file.Stored? && file.frame.rows != []
    ensures RunAiProcessing(file, writable, st, env).ok
    ensures ValidateCsvStructure(file) ==> ValidateCsvStructure(RunAiProcessing(file, writable, st, env).file)
  {
    UpdatePostsKeepsColumns(file, AiProcessor.ProcessPosts(LoadPosts(file), st, env).posts, writable);
  }

  // ---------------------------------------------------------------------------
  // run_n8n_integration
  // ---------------------------------------------------------------------------

  /** `post.get('resumo') and post.get('resumo').strip()`. */
  predicate HasNonBlankSummary(post: Row) {
    !LacksSummary(post)
  }

  /** The outcome of `run_n8n_integration`: its result and the posts handed
      to `send_posts`, if it was called. */
  datatype Delivery = Delivery(ok: bool, sent: Option<seq<Row>>)

  /** `Application.run_n8n_integration`. */
  function RunN8nIntegration(file: File, connected: bool, send: seq<Row> -> bool): (r: Delivery)
    ensures !connected ==> r == Delivery(false, None)
    ensures r.sent.Some? ==> (connected && r.sent.value != [] &&
              r.sent.value == Filter(LoadPosts(file), HasNonBlankSummary))
    ensures r.sent.None? ==> !r.ok
    ensures r.sent.Some? ==> r.ok == send(r.sent.value)
    ensures connected && Filter(LoadPosts(file), HasNonBlankSummary) != [] ==> r.sent.Some?
  {
    if !connected then Delivery(false, None)
    else
      var posts := LoadPosts(file);
      if posts == [] then Delivery(false, None)
      else
        var withSummary := Filter(posts, HasNonBlankSummary);
        if withSummary == [] then Delivery(false, None)
        else Delivery(send(withSummary), Some(withSummary))
  }

  /** The posts sent are exactly the stored posts whose summary is not
      blank, in file order: the complement of
      `get_posts_without_summaries`. */
  lemma DeliverySendsSummarised(file: File, connected: bool, send: seq<Row> -> bool)
    requires RunN8nIntegration(file, connected, send).sent.Some?
    ensures var sent := RunN8nIntegration(file, connected, send).sent.value;
            forall p :: p in sent <==> p in LoadPosts(file) && p !in GetPostsWithoutSummaries(file)
  {
  }

  // ---------------------------------------------------------------------------
  // run_full_pipeline and main
  // ---------------------------------------------------------------------------

  /** Everything the pipeline reads: the CSV, the summary state and the
      outcomes of the outside calls. */
  datatype World = World(
    file: File,
    writable: bool,
    scrape: ScrapeRun,
    targetType: string,
    scraperEnv: Scraper.Env,
    ai: AiProcessor.State,
    aiEnv: AiProcessor.Env,
    connected: bool,
    send: seq<Row> -> bool)

  datatype Stage = ScrapingStage | AiStage | DeliveryStage

  /** The outcome of `run_full_pipeline`: its result, the stages that ran, in
      order, and the state left behind. */
  datatype Outcome = Outcome(ok: bool, ran: seq<Stage>, file: File, ai: AiProcessor.State)

  /** The stages that run when scraping and the AI stage end as given. */
  function Ran(scrapingOk: bool, processingOk: bool): (ran: seq<Stage>)
    ensures 1 <= |ran| <= 3 && ran[0] == ScrapingStage
    ensures AiStage in ran <==> scrapingOk
    ensures DeliveryStage in ran <==> scrapingOk && processingOk
  {
    if !scrapingOk then [ScrapingStage]
    else if !processingOk then [ScrapingStage, AiStage]
    else [ScrapingStage, AiStage, DeliveryStage]
  }

  /** `Application.run_full_pipeline`: each stage runs only if the one before
      succeeded, on the CSV the one before left. */
  function RunFullPipeline(w: World): Outcome {
    var s := RunScraping(w.scrape, w.targetType, w.scraperEnv, w.file, w.writable);
    if !s.ok then Outcome(false, Ran(false, false), s.file, w.ai)
    else
      var p := RunAiProcessing(s.file, w.writable, w.ai, w.aiEnv);
      if !p.ok then Outcome(false, Ran(true, false), p.file, p.state)
      else
        var d := RunN8nIntegration(p.file, w.connected, w.send);
        Outcome(d.ok, Ran(true, true), p.file, p.state)
  }

  /** The pipeline succeeds exactly when all three stages succeed, each on
      the state the previous one left, and a stage runs exactly when every
      earlier one succeeded. */
  lemma PipelineShortCircuits(w: World)
    ensures var s := RunScraping(w.scrape, w.targetType, w.scraperEnv, w.file, w.writable);
            var p := RunAiProcessing(s.file, w.writable, w.ai, w.aiEnv);
            var d := RunN8nIntegration(p.file, w.connected, w.send);
            var r := RunFullPipeline(w);
            (r.ok <==> s.ok && p.ok && d.ok) &&
            (AiStage in r.ran <==> s.ok) &&
            (DeliveryStage in r.ran <==> s.ok && p.ok)
  {
  }

  /** How `main` ended: `run_full_pipeline` (and the statistics after it)
      returned a result, the user interrupted, or an exception escaped. */
  datatype Termination = Returned(success: bool) | Interrupted | Crashed

  /** `main`'s exit status. */
  function ExitCode(t: Termination): (code: int)
    ensures code == 0 <==> t == Returned(true)
    ensures code == 130 <==> t.Interrupted?
    ensures code == 0 || code == 1 || code == 130
  {
    match t
    case Returned(success) => if success then 0 else 1
    case Interrupted => 130
    case Crashed => 1
  }
}

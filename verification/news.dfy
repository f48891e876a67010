/** The news detail service: every news item is enriched with its comment
    count, like count and last update time, awaited in that order, each
    under its own hard-coded 500 ms timer. */
module NewsService {
  import opened Wrappers
  import opened Clock
  import Aggregate
  import SelectTiming

  /** A news row. */
  datatype News = News(id: nat, title: string, description: string, content: string, author: string,
                       category: string, image: string, createdAt: Instant, updatedAt: Instant)

  /** Go's zero value of `news.News`. */
  const ZeroNews := News(0, "", "", "", "", "", "", ZeroTime, ZeroTime)

  /** The news table and whether the database answers. */
  datatype NewsRepo = NewsRepo(rows: seq<News>, online: bool)

  /** The news repository's error: the database returned one. */
  datatype RepoError = Unavailable

  /** `NewsWithDetails`. */
  datatype NewsWithDetails = NewsWithDetails(news: News, commentsCount: int, likesCount: int, lastUpdated: Instant)

  /** Go's zero value of `NewsWithDetails`: what a failed item's slot keeps. */
  const ZeroDetails := NewsWithDetails(ZeroNews, 0, 0, ZeroTime)

  /** The timer of each of the three `select`s (`500 * time.Millisecond`). */
  const DetailTimeout: Duration := 500 * Millisecond

  /** With the fixed 500 ms timers, one item settles within 1.5 s of its
      goroutine's start, whatever its fields and the context do. */
  lemma ItemSettlesWithinThreeTimers<A, B, C>(r: SelectTiming.Readiness<A, B, C>, done: Option<Instant>,
                                             e1: SelectTiming.Ending<A>, e2: SelectTiming.Ending<B>, e3: SelectTiming.Ending<C>)
    requires SelectTiming.MayRun(r, DetailTimeout, done, e1, e2, e3)
    ensures 0 <= SelectTiming.Finish(e1, e2, e3) <= 1500 * Millisecond
  {
    SelectTiming.RunBounded(r, DetailTimeout, done, e1, e2, e3);
  }

  /** How one item's three `select`s ended. The update-time channel carries
      the item's own `UpdatedAt`, so its stage records only whether it arrived. */
  datatype NewsStages = NewsStages(
    comments: Aggregate.Outcome<int>, likes: Aggregate.Awaited<int>, update: Aggregate.Awaited<()>)

  const NewsLabels := Aggregate.Labels("comments", "likes", "update time", "news")

  /** The update-time stage with the value its channel carries. */
  function UpdateStage(n: News, arrived: Aggregate.Awaited<()>): (o: Aggregate.Awaited<Instant>)
    ensures o.Arrived? <==> arrived.Arrived?
    ensures o.Arrived? ==> o.value == n.updatedAt
  {
    if arrived.Arrived? then Aggregate.Arrived(n.updatedAt) else Aggregate.TimedOut
  }

  /** One item's goroutine. */
  function NewsSlot(n: News, st: NewsStages, ctxErr: Aggregate.ContextError): Aggregate.Slot<NewsWithDetails>
  {
    Aggregate.Settle(NewsLabels, n.id, ctxErr, (a, b, c) => NewsWithDetails(n, a, b, c),
                     st.comments, st.likes, UpdateStage(n, st.update))
  }

  /** Whether all three stages of an item delivered. */
  predicate AllArrived(st: NewsStages)
  {
    st.comments.Arrived? && st.likes.Arrived? && st.update.Arrived?
  }

  /** `GetAllNewsWithDetails`: list the news, run one join per item and collect. */
  function GetAllNewsWithDetails(repo: NewsRepo, stages: nat -> NewsStages, ctxErr: Aggregate.ContextError): (b: Aggregate.Batch<NewsWithDetails, RepoError>)
    ensures !repo.online <==> b == Aggregate.ListFailed(Unavailable)
    ensures b.Collected? ==> |b.results| == |repo.rows|
    ensures b.Collected? ==> forall i :: 0 <= i < |repo.rows| ==>
      b.results[i] == if AllArrived(stages(i))
        then NewsWithDetails(repo.rows[i], stages(i).comments.value, stages(i).likes.value, repo.rows[i].updatedAt)
        else ZeroDetails
    ensures b.Collected? ==> (b.failure.Some? <==> exists i :: 0 <= i < |repo.rows| && !AllArrived(stages(i)))
  {
    if !repo.online then Aggregate.ListFailed(Unavailable)
    else
      var items := repo.rows;
      var slots := seq(|items|, i requires 0 <= i < |items| => NewsSlot(items[i], stages(i), ctxErr));
      Aggregate.Collect("news", slots, ZeroDetails)
  }

  /** In the batch, a failed item is reported exactly by the first stage
      that timed out, or by the context error if the first wait was cancelled. */
  lemma DetailErrorsNameFirstMissingField(repo: NewsRepo, stages: nat -> NewsStages, ctxErr: Aggregate.ContextError, i: nat)
    requires repo.online && i < |repo.rows|
    ensures var b := GetAllNewsWithDetails(repo, stages, ctxErr);
      var st := stages(i);
      var id := repo.rows[i].id;
      && (st.comments.TimedOut? ==> Aggregate.StageTimeout("comments", "news", id) in b.failure.value.errors)
      && (st.comments.Arrived? && st.likes.TimedOut? ==> Aggregate.StageTimeout("likes", "news", id) in b.failure.value.errors)
      && (st.comments.Arrived? && st.likes.Arrived? && st.update.TimedOut? ==> Aggregate.StageTimeout("update time", "news", id) in b.failure.value.errors)
      && (st.comments.Cancelled? ==> Aggregate.ContextErr(ctxErr) in b.failure.value.errors)
  {
    var items := repo.rows;
    var slots := seq(|items|, j requires 0 <= j < |items| => NewsSlot(items[j], stages(j), ctxErr));
    assert slots[i] == NewsSlot(items[i], stages(i), ctxErr);
    if slots[i].Failed? {
      assert slots[i].error in Aggregate.Errors(slots);
    }
  }
}

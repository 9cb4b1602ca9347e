/** The article router: every article request passes the authentication gate first,
    and only a request the gate lets through reaches its handler. */
module Routes {
  import opened Http
  import opened Schema
  import opened Crypto
  import opened Gate
  import Articles

  /** The routes the article router mounts, with their path and body parameters */
  datatype ArticleRequest =
    | ListAll                                          // GET /
    | ReadOne(id: ArticleId)                           // GET /:id
    | Create(title: string, content: string)           // POST /
    | Update(id: ArticleId, newTitle: Option<string>, newContent: Option<string>)  // PATCH /:id
    | Delete(id: ArticleId)                            // DELETE /:id
    | Summary(id: ArticleId)                           // GET /:id/summary
    | History(id: ArticleId)                           // GET /:id/history

  /** The body of a 200 reply, whichever handler produced it */
  datatype Payload =
    | Listing(list: Articles.ArticleList)
    | Shown(sanitized: Articles.SanitizedArticle)
    | Saved(article: Article)
    | Message(text: string)
    | SummaryText(summary: string)
    | Revisions(history: seq<Revision>)

  /** A request's reply, the store after it, and how often the summarizer ran */
  datatype Outcome = Outcome(reply: Response<Payload>, store: Store, summarizerCalls: nat)

  function Lift<T>(r: Response<T>, wrap: T -> Payload): Response<Payload> {
    match r
    case Ok(b) => Ok(wrap(b))
    case Fail(code, text) => Fail(code, text)
  }

  /** Runs the handler for `req` on behalf of the user the gate attached */
  function Dispatch(s: Store, caller: UserId, req: ArticleRequest, summarize: Articles.Summarizer): Outcome {
    match req
    case ListAll => Outcome(Lift(Articles.GetAllArticles(s), l => Listing(l)), s, 0)
    case ReadOne(id) => Outcome(Lift(Articles.GetArticle(s, id), a => Shown(a)), s, 0)
    case Create(title, content) =>
      var (r, s') := Articles.CreateArticle(s, caller, title, content);
      Outcome(Lift(r, a => Saved(a)), s', 0)
    case Update(id, title, content) =>
      var (r, s') := Articles.UpdateArticle(s, caller, id, title, content);
      Outcome(Lift(r, a => Saved(a)), s', 0)
    case Delete(id) =>
      var (r, s') := Articles.DeleteArticle(s, caller, id);
      Outcome(Lift(r, m => Message(m)), s', 0)
    case Summary(id) =>
      var o := Articles.GetSummary(s, id, summarize);
      Outcome(Lift(o.reply, t => SummaryText(t)), o.store, o.summarizerCalls)
    case History(id) => Outcome(Lift(Articles.GetHistory(s, caller, id), h => Revisions(h)), s, 0)
  }

  /** `router.use(authenticate)` followed by the route's handler */
  function Handle(s: Store, cookie: Option<Token>, now: nat, verify: Verifier,
                  summarize: Articles.Summarizer, req: ArticleRequest): (o: Outcome)
    ensures Authenticate(s, cookie, now, verify).Reject? ==>
      && o.reply.Status() == Unauthorized
      && o.reply.message == Authenticate(s, cookie, now, verify).message
      && o.store == s
      && o.summarizerCalls == 0
    ensures o.store != s || o.summarizerCalls != 0 ==> Authenticate(s, cookie, now, verify).Next?
  {
    match Authenticate(s, cookie, now, verify)
    case Reject(code, text) => Outcome(Fail(code, text), s, 0)
    case Next(user) => Dispatch(s, user.id, req, summarize)
  }

  /** Article `k`'s title or content differs in `s'`, or it is gone */
  ghost predicate Altered(s: Store, s': Store, k: ArticleId)
    requires k in s.articles
  {
    k !in s'.articles
    || s'.articles[k].title != s.articles[k].title
    || s'.articles[k].content != s.articles[k].content
  }

  /** Going from `s` to `s'`, revisions were only appended, and only articles owned by
      `caller` had their title or content changed, were deleted, or got a revision */
  ghost predicate OwnerOnly(s: Store, s': Store, caller: UserId) {
    && |s.revisions| <= |s'.revisions|
    && s'.revisions[..|s.revisions|] == s.revisions
    && (forall k :: k in s.articles && Altered(s, s', k) ==> s.articles[k].createdBy == caller)
    && (forall i :: |s.revisions| <= i < |s'.revisions| ==>
          && s'.revisions[i].articleId in s.articles
          && s.articles[s'.revisions[i].articleId].createdBy == caller)
  }

  /** A request that keeps the revisions and every article's title and content alters
      no title, content, existence or revision of anyone's article */
  lemma UntouchedIsOwnerOnly(s: Store, s': Store, caller: UserId)
    requires s'.revisions == s.revisions
    requires forall k :: k in s.articles ==> k in s'.articles && s'.articles[k].title == s.articles[k].title
                                             && s'.articles[k].content == s.articles[k].content
    ensures OwnerOnly(s, s', caller)
  {
    assert s.revisions[..|s.revisions|] == s.revisions;
  }

  lemma CreateIsOwnerOnly(s: Store, caller: UserId, title: string, content: string)
    requires Valid(s)
    ensures OwnerOnly(s, Articles.CreateArticle(s, caller, title, content).1, caller)
  {
    UntouchedIsOwnerOnly(s, Articles.CreateArticle(s, caller, title, content).1, caller);
  }

  lemma UpdateIsOwnerOnly(s: Store, caller: UserId, id: ArticleId, title: Option<string>, content: Option<string>)
    ensures OwnerOnly(s, Articles.UpdateArticle(s, caller, id, title, content).1, caller)
  {
    var s' := Articles.UpdateArticle(s, caller, id, title, content).1;
    assert s.revisions[..|s.revisions|] == s.revisions;
    if id in s.articles && s.articles[id].createdBy == caller {
      assert s'.revisions[..|s.revisions|] == s.revisions;
    }
  }

  lemma DeleteIsOwnerOnly(s: Store, caller: UserId, id: ArticleId)
    ensures OwnerOnly(s, Articles.DeleteArticle(s, caller, id).1, caller)
  {
    assert s.revisions[..|s.revisions|] == s.revisions;
  }

  lemma SummaryIsOwnerOnly(s: Store, caller: UserId, id: ArticleId, summarize: Articles.Summarizer)
    ensures OwnerOnly(s, Articles.GetSummary(s, id, summarize).store, caller)
  {
    UntouchedIsOwnerOnly(s, Articles.GetSummary(s, id, summarize).store, caller);
  }

  /** Every handler, run for `caller`, changes the title, content, existence or revisions
      only of articles `caller` owns; a summary request may cache the summary of any article */
  lemma DispatchIsOwnerOnly(s: Store, caller: UserId, req: ArticleRequest, summarize: Articles.Summarizer)
    requires Valid(s)
    ensures OwnerOnly(s, Dispatch(s, caller, req, summarize).store, caller)
  {
    match req
    case Create(title, content) => CreateIsOwnerOnly(s, caller, title, content);
    case Update(id, title, content) => UpdateIsOwnerOnly(s, caller, id, title, content);
    case Delete(id) => DeleteIsOwnerOnly(s, caller, id);
    case Summary(id) => SummaryIsOwnerOnly(s, caller, id, summarize);
    case _ => UntouchedIsOwnerOnly(s, s, caller);
  }

  /** Whatever the request, a refused one changes nothing. An admitted one changes the
      title, content, existence or revisions only of articles the authenticated user
      owns: only an article's owner can change its title or content or delete it, and
      revisions are only ever appended, for articles the caller owns. A summary request
      has no ownership check and may cache the summary of any article. */
  lemma OnlyOwnerMutates(s: Store, cookie: Option<Token>, now: nat, verify: Verifier,
                         summarize: Articles.Summarizer, req: ArticleRequest)
    requires Valid(s)
    ensures
      var g := Authenticate(s, cookie, now, verify);
      var s' := Handle(s, cookie, now, verify, summarize, req).store;
      && (g.Reject? ==> s' == s)
      && (g.Next? ==> OwnerOnly(s, s', g.user.id))
  {
    var g := Authenticate(s, cookie, now, verify);
    if g.Next? {
      DispatchIsOwnerOnly(s, g.user.id, req, summarize);
    }
  }

  /** Every request keeps the store consistent */
  lemma HandlePreservesValid(s: Store, cookie: Option<Token>, now: nat, verify: Verifier,
                             summarize: Articles.Summarizer, req: ArticleRequest)
    requires Valid(s)
    ensures Valid(Handle(s, cookie, now, verify, summarize, req).store)
  {
    var g := Authenticate(s, cookie, now, verify);
    if g.Next? {
      var caller := g.user.id;
      match req
      case Create(title, content) => Articles.CreatePreservesValid(s, caller, title, content);
      case Update(id, title, content) => Articles.UpdatePreservesValid(s, caller, id, title, content);
      case Delete(id) => Articles.DeletePreservesValid(s, caller, id);
      case Summary(id) => Articles.SummaryPreservesValid(s, id, summarize);
      case _ =>
    }
  }

  /** Article `k` was created already, and if it still exists its summary is the
      non-empty text `v` */
  ghost predicate SummaryFixed(s: Store, k: ArticleId, v: string) {
    && v != ""
    && k < s.nextArticleId
    && (k in s.articles ==> s.articles[k].summary == Some(v))
  }

  /** Once article `k` has a cached summary, no request changes it, and a summary
      request for `k` is served without calling the summarizer */
  lemma CachedSummaryStable(s: Store, cookie: Option<Token>, now: nat, verify: Verifier,
                            summarize: Articles.Summarizer, req: ArticleRequest, k: ArticleId, v: string)
    requires Valid(s) && SummaryFixed(s, k, v)
    ensures
      var o := Handle(s, cookie, now, verify, summarize, req);
      && SummaryFixed(o.store, k, v)
      && (req == Summary(k) ==> o.summarizerCalls == 0)
  {
  }

  /** One request of a client session: the cookie it carries, the time, the route */
  datatype Step = Step(cookie: Option<Token>, now: nat, req: ArticleRequest)

  /** The store after serving `steps` in order */
  function Run(s: Store, steps: seq<Step>, verify: Verifier, summarize: Articles.Summarizer): Store
    decreases |steps|
  {
    if |steps| == 0 then s
    else Run(Handle(s, steps[0].cookie, steps[0].now, verify, summarize, steps[0].req).store, steps[1..], verify, summarize)
  }

  /** How often serving `steps` in order calls the summarizer for a summary of article `k` */
  function SummarizerCallsFor(s: Store, steps: seq<Step>, verify: Verifier, summarize: Articles.Summarizer, k: ArticleId): nat
    decreases |steps|
  {
    if |steps| == 0 then 0
    else
      var o := Handle(s, steps[0].cookie, steps[0].now, verify, summarize, steps[0].req);
      (if steps[0].req == Summary(k) then o.summarizerCalls else 0)
        + SummarizerCallsFor(o.store, steps[1..], verify, summarize, k)
  }

  /** The summary cache is write-once: once article `k` holds a non-empty summary, no
      sequence of requests changes it, and none of them calls the summarizer for `k` */
  lemma {:induction false} SummaryComputedOncePerArticle(s: Store, steps: seq<Step>, verify: Verifier,
                                                         summarize: Articles.Summarizer, k: ArticleId)
    requires Valid(s) && k in s.articles && Truthy(s.articles[k].summary)
    ensures
      var s' := Run(s, steps, verify, summarize);
      && (k in s'.articles ==> s'.articles[k].summary == s.articles[k].summary)
      && SummarizerCallsFor(s, steps, verify, summarize, k) == 0
  {
    CachedRunStable(s, steps, verify, summarize, k, s.articles[k].summary.value);
  }

  lemma {:induction false} CachedRunStable(s: Store, steps: seq<Step>, verify: Verifier,
                                           summarize: Articles.Summarizer, k: ArticleId, v: string)
    requires Valid(s) && SummaryFixed(s, k, v)
    ensures SummaryFixed(Run(s, steps, verify, summarize), k, v)
    ensures SummarizerCallsFor(s, steps, verify, summarize, k) == 0
    decreases |steps|
  {
    if |steps| > 0 {
      var st := steps[0];
      var o := Handle(s, st.cookie, st.now, verify, summarize, st.req);
      CachedSummaryStable(s, st.cookie, st.now, verify, summarize, st.req, k, v);
      HandlePreservesValid(s, st.cookie, st.now, verify, summarize, st.req);
      CachedRunStable(o.store, steps[1..], verify, summarize, k, v);
    }
  }

  /** A worked example: U1 writes "Draft"/"v1" and revises it to "Final"/"v2".
      U1's history then holds one revision with the old content, shown under the
      current title; U2 can read the article but neither see its history nor update it. */
  lemma DraftFinalScenario(summarize: Articles.Summarizer)
    ensures
      var u1 := User(0, "U1", "u1@example.com", "h1");
      var u2 := User(1, "U2", "u2@example.com", "h2");
      var s0 := Store(map[0 := u1, 1 := u2], map[], [], 0, 2, 0);
      var created := Dispatch(s0, 0, Create("Draft", "v1"), summarize);
      var updated := Dispatch(created.store, 0, Update(0, Some("Final"), Some("v2")), summarize);
      var s := updated.store;
      && Dispatch(s, 0, History(0), summarize).reply == Ok(Revisions([Revision(0, "Final", "v1", 1)]))
      && Dispatch(s, 1, History(0), summarize).reply.Status() == Forbidden
      && Dispatch(s, 1, Update(0, Some("Hijack"), Some("v3")), summarize).reply.Status() == Forbidden
      && Dispatch(s, 1, Update(0, Some("Hijack"), Some("v3")), summarize).store == s
      && Dispatch(s, 1, ReadOne(0), summarize).reply.Ok?
      && Dispatch(s, 1, ReadOne(0), summarize).reply.body.sanitized.content == "v2"
  {
    var u1 := User(0, "U1", "u1@example.com", "h1");
    var u2 := User(1, "U2", "u2@example.com", "h2");
    var s0 := Store(map[0 := u1, 1 := u2], map[], [], 0, 2, 0);
    var s := Dispatch(Dispatch(s0, 0, Create("Draft", "v1"), summarize).store, 0, Update(0, Some("Final"), Some("v2")), summarize).store;
    assert s.revisions == [Revision(0, "Draft", "v1", 1)];
    assert Articles.HistoryUpTo(s.revisions, 0, "Final", 1) == [Revision(0, "Final", "v1", 1)];
  }
}

/** The article handlers. Every one of them runs behind the authentication gate,
    so each receives the id of the user the gate attached to the request. */
module Articles {
  import opened Http
  import opened Schema

  /** `generateSummary(content)`: the external summarizer, kept abstract */
  type Summarizer = string -> string

  /** An article joined with its author, the password hash removed from the author.
      `author == None` is the empty object `{}` the handlers substitute for a missing author. */
  datatype SanitizedArticle = SanitizedArticle(
    id: ArticleId,
    title: string,
    content: string,
    summary: Option<string>,
    createdBy: UserId,
    createdAt: nat,
    author: Option<PublicUser>)

  /** The body of the article listing */
  datatype ArticleList = ArticleList(count: nat, data: seq<SanitizedArticle>)

  /** The result of the summary handler, with the number of summarizer invocations it made */
  datatype SummaryOutcome = SummaryOutcome(reply: Response<string>, store: Store, summarizerCalls: nat)

  /** Load-and-authorize: the article is missing, belongs to someone else, or to the caller */
  datatype Access = Missing | Foreign(article: Article) | Owned(article: Article)

  function Sanitize(s: Store, a: Article): SanitizedArticle {
    SanitizedArticle(a.id, a.title, a.content, a.summary, a.createdBy, a.createdAt,
      if a.createdBy in s.users then Some(Public(s.users[a.createdBy])) else None)
  }

  /** The stored article ids below `n`, largest first */
  function KeysBelow(articles: map<ArticleId, Article>, n: nat): (r: seq<ArticleId>)
    ensures forall i :: 0 <= i < |r| ==> r[i] in articles && r[i] < n
    ensures forall i, j :: 0 <= i < j < |r| ==> r[i] > r[j]
    ensures forall k :: k in articles && k < n ==> k in r
    decreases n
  {
    if n == 0 then []
    else if n - 1 in articles then [n - 1] + KeysBelow(articles, n - 1)
    else KeysBelow(articles, n - 1)
  }

  /** The sanitized articles stored under `keys`, in the same order */
  function SanitizeAll(s: Store, keys: seq<ArticleId>): (r: seq<SanitizedArticle>)
    requires forall i :: 0 <= i < |keys| ==> keys[i] in s.articles
    ensures |r| == |keys|
    ensures forall i :: 0 <= i < |r| ==> r[i] == Sanitize(s, s.articles[keys[i]])
  {
    if |keys| == 0 then [] else [Sanitize(s, s.articles[keys[0]])] + SanitizeAll(s, keys[1..])
  }

  /** `getAllArticles`: every article with its sanitized author, newest first, and their number */
  function GetAllArticles(s: Store): (r: Response<ArticleList>)
    ensures r.Ok? && r.body.count == |r.body.data|
    ensures forall i :: 0 <= i < |r.body.data| ==>
      exists k :: k in s.articles && r.body.data[i] == Sanitize(s, s.articles[k])
  {
    var keys := KeysBelow(s.articles, s.nextArticleId);
    var data := SanitizeAll(s, keys);
    assert forall i :: 0 <= i < |data| ==> data[i] == Sanitize(s, s.articles[keys[i]]) && keys[i] in s.articles;
    Ok(ArticleList(|data|, data))
  }

  /** In a consistent store the listing holds every article exactly once, newest first,
      each with its author's public fields */
  lemma ListingCompleteNewestFirst(s: Store)
    requires Valid(s)
    ensures
      var data := GetAllArticles(s).body.data;
      && (forall k :: k in s.articles ==> Sanitize(s, s.articles[k]) in data)
      && (forall i, j :: 0 <= i < j < |data| ==> data[i].createdAt > data[j].createdAt)
      && (forall i :: 0 <= i < |data| ==> data[i].author == Some(Public(s.users[data[i].createdBy])))
  {
    var keys := KeysBelow(s.articles, s.nextArticleId);
    var data := GetAllArticles(s).body.data;
    assert data == SanitizeAll(s, keys);
    forall k | k in s.articles ensures Sanitize(s, s.articles[k]) in data {
      var i :| 0 <= i < |keys| && keys[i] == k;
      assert data[i] == Sanitize(s, s.articles[k]);
    }
    forall i, j | 0 <= i < j < |data| ensures data[i].createdAt > data[j].createdAt {
      assert keys[i] > keys[j];
      assert data[i].createdAt == s.articles[keys[i]].createdAt;
      assert data[j].createdAt == s.articles[keys[j]].createdAt;
    }
  }

  /** `getArticleById` as written: an unknown id makes the handler read `author` of
      `null`, which throws, and the catch-all replies 500 instead of 404 */
  function GetArticleById(s: Store, id: ArticleId): (r: Response<SanitizedArticle>)
    ensures id in s.articles ==> r == Ok(Sanitize(s, s.articles[id]))
    ensures id !in s.articles ==> r == Fail(InternalError, "Failed to fetch article")
  {
    if id in s.articles then Ok(Sanitize(s, s.articles[id]))
    else Fail(InternalError, "Failed to fetch article")
  }

  /** The discrepancy: asking for an id that does not exist is a server error */
  lemma UnknownArticleIs500(s: Store, id: ArticleId)
    requires id !in s.articles
    ensures GetArticleById(s, id).Status() == InternalError
    ensures GetArticleById(s, id).Status() != NotFound
  {
  }

  /** `getArticleById` with the missing-article check the other handlers make */
  function GetArticle(s: Store, id: ArticleId): (r: Response<SanitizedArticle>)
    ensures r.Ok? <==> id in s.articles
    ensures r.Ok? ==> r.body == Sanitize(s, s.articles[id])
    ensures r.Fail? ==> r == Fail(NotFound, "Article not found")
    ensures id in s.articles ==> r == GetArticleById(s, id)
  {
    if id in s.articles then Ok(Sanitize(s, s.articles[id]))
    else Fail(NotFound, "Article not found")
  }

  /** `createArticle`: a new article owned by the caller, with no summary */
  function CreateArticle(s: Store, caller: UserId, title: string, content: string): (r: (Response<Article>, Store))
    ensures r.0.Ok?
    ensures
      var a := r.0.body;
      && a.title == title && a.content == content && a.createdBy == caller && a.summary == None
      && a.id in r.1.articles && r.1.articles[a.id] == a
      && r.1.articles.Keys == s.articles.Keys + {a.id}
      && (forall k :: k in s.articles && k != a.id ==> r.1.articles[k] == s.articles[k])
      && (Valid(s) ==> a.id !in s.articles)
    ensures r.1.users == s.users && r.1.revisions == s.revisions
  {
    var a := Article(s.nextArticleId, title, content, None, caller, s.clock);
    (Ok(a), s.(articles := s.articles[a.id := a], clock := s.clock + 1, nextArticleId := s.nextArticleId + 1))
  }

  /** The ownership check update, delete and history share */
  function Load(s: Store, caller: UserId, id: ArticleId): (a: Access)
    ensures a.Missing? <==> id !in s.articles
    ensures !a.Missing? ==> a.article == s.articles[id]
    ensures a.Owned? <==> id in s.articles && s.articles[id].createdBy == caller
  {
    if id !in s.articles then Missing
    else if s.articles[id].createdBy != caller then Foreign(s.articles[id])
    else Owned(s.articles[id])
  }

  /** A field of a PATCH body: an absent (`undefined`) field leaves the stored value alone */
  function Patched(field: Option<string>, stored: string): string {
    if field.Some? then field.value else stored
  }

  /** `updateArticle`: load, authorize, snapshot the current version, then overwrite the
      fields the request carries; a field missing from the body keeps its stored value */
  function UpdateArticle(s: Store, caller: UserId, id: ArticleId, title: Option<string>, content: Option<string>): (r: (Response<Article>, Store))
    ensures id !in s.articles ==> r == (Fail(NotFound, "Article not found"), s)
    ensures id in s.articles && s.articles[id].createdBy != caller ==> r == (Fail(Forbidden, "Unauthorized"), s)
    ensures id in s.articles && s.articles[id].createdBy == caller ==>
      var prior := s.articles[id];
      && r.1.revisions == s.revisions + [Revision(id, prior.title, prior.content, s.clock)]
      && r.1.articles.Keys == s.articles.Keys
      && (title.Some? ==> r.1.articles[id].title == title.value)
      && (title.None? ==> r.1.articles[id].title == prior.title)
      && (content.Some? ==> r.1.articles[id].content == content.value)
      && (content.None? ==> r.1.articles[id].content == prior.content)
      && r.1.articles[id].id == prior.id
      && r.1.articles[id].createdBy == prior.createdBy
      && r.1.articles[id].summary == prior.summary
      && r.1.articles[id].createdAt == prior.createdAt
      && (forall k :: k in s.articles && k != id ==> r.1.articles[k] == s.articles[k])
      && r.0 == Ok(r.1.articles[id])
      && r.1.users == s.users
  {
    match Load(s, caller, id)
    case Missing => (Fail(NotFound, "Article not found"), s)
    case Foreign(_) => (Fail(Forbidden, "Unauthorized"), s)
    case Owned(prior) =>
      var snapshot := Revision(id, prior.title, prior.content, s.clock);
      var updated := prior.(title := Patched(title, prior.title), content := Patched(content, prior.content));
      (Ok(updated), s.(articles := s.articles[id := updated], revisions := s.revisions + [snapshot], clock := s.clock + 1))
  }

  /** `deleteArticle`: load, authorize, remove; the article's revisions are left in place */
  function DeleteArticle(s: Store, caller: UserId, id: ArticleId): (r: (Response<string>, Store))
    ensures id !in s.articles ==> r == (Fail(NotFound, "Article not found"), s)
    ensures id in s.articles && s.articles[id].createdBy != caller ==>
      r == (Fail(Forbidden, "your are not Unauthorized"), s)
    ensures id in s.articles && s.articles[id].createdBy == caller ==>
      && r.0 == Ok("Deleted successfully")
      && r.1.articles.Keys == s.articles.Keys - {id}
      && (forall k :: k in r.1.articles ==> r.1.articles[k] == s.articles[k])
      && r.1.revisions == s.revisions
      && r.1.users == s.users
  {
    match Load(s, caller, id)
    case Missing => (Fail(NotFound, "Article not found"), s)
    case Foreign(_) => (Fail(Forbidden, "your are not Unauthorized"), s)
    case Owned(_) => (Ok("Deleted successfully"), s.(articles := s.articles - {id}))
  }

  /** `getSummary`: a truthy cached summary is returned as is; otherwise the summarizer
      runs once on the content and its text becomes the cached summary */
  function GetSummary(s: Store, id: ArticleId, summarize: Summarizer): (r: SummaryOutcome)
    ensures r.summarizerCalls <= 1
    ensures r.summarizerCalls == 0 ==> r.store == s
    ensures id !in s.articles ==> r == SummaryOutcome(Fail(NotFound, "Article not found"), s, 0)
    ensures id in s.articles && Truthy(s.articles[id].summary) ==>
      r == SummaryOutcome(Ok(s.articles[id].summary.value), s, 0)
    ensures id in s.articles && !Truthy(s.articles[id].summary) ==>
      var text := summarize(s.articles[id].content);
      && r.summarizerCalls == 1
      && r.reply == Ok(text)
      && r.store.articles == s.articles[id := s.articles[id].(summary := Some(text))]
      && r.store.users == s.users && r.store.revisions == s.revisions
  {
    if id !in s.articles then SummaryOutcome(Fail(NotFound, "Article not found"), s, 0)
    else
      var a := s.articles[id];
      if Truthy(a.summary) then SummaryOutcome(Ok(a.summary.value), s, 0)
      else
        var text := summarize(a.content);
        SummaryOutcome(Ok(text), s.(articles := s.articles[id := a.(summary := Some(text))]), 1)
  }

  /** A revision as the history shows it: under the article's current title */
  function Retitled(rev: Revision, title: string): Revision {
    rev.(title := title)
  }

  /** `e` is how the history shows one of the first `n` revisions of article `id` */
  ghost predicate ShownFrom(e: Revision, revs: seq<Revision>, id: ArticleId, title: string, n: nat)
    requires n <= |revs|
  {
    exists i :: 0 <= i < n && revs[i].articleId == id && e == Retitled(revs[i], title)
  }

  /** The revisions of article `id` among the first `n`, newest first, each shown under `title` */
  function HistoryUpTo(revs: seq<Revision>, id: ArticleId, title: string, n: nat): (r: seq<Revision>)
    requires n <= |revs|
    ensures forall j :: 0 <= j < |r| ==> ShownFrom(r[j], revs, id, title, n)
    ensures forall i :: 0 <= i < n && revs[i].articleId == id ==> Retitled(revs[i], title) in r
    decreases n
  {
    if n == 0 then []
    else
      var older := HistoryUpTo(revs, id, title, n - 1);
      assert forall j :: 0 <= j < |older| ==> ShownFrom(older[j], revs, id, title, n) by {
        forall j | 0 <= j < |older| ensures ShownFrom(older[j], revs, id, title, n) {
          assert ShownFrom(older[j], revs, id, title, n - 1);
          var i :| 0 <= i < n - 1 && revs[i].articleId == id && older[j] == Retitled(revs[i], title);
        }
      }
      if revs[n - 1].articleId == id then [Retitled(revs[n - 1], title)] + older else older
  }

  /** Strictly decreasing creation times */
  ghost predicate NewestFirst(h: seq<Revision>) {
    forall i, j :: 0 <= i < j < |h| ==> h[i].createdAt > h[j].createdAt
  }

  /** Every entry of the history of the first `n` revisions predates revision `n` */
  lemma HistoryPredates(revs: seq<Revision>, id: ArticleId, title: string, n: nat)
    requires n < |revs|
    requires forall i, j :: 0 <= i < j < |revs| ==> revs[i].createdAt < revs[j].createdAt
    ensures forall j :: 0 <= j < |HistoryUpTo(revs, id, title, n)| ==>
      HistoryUpTo(revs, id, title, n)[j].createdAt < revs[n].createdAt
  {
    var h := HistoryUpTo(revs, id, title, n);
    forall j | 0 <= j < |h| ensures h[j].createdAt < revs[n].createdAt {
      assert ShownFrom(h[j], revs, id, title, n);
      var i :| 0 <= i < n && revs[i].articleId == id && h[j] == Retitled(revs[i], title);
    }
  }

  /** Putting an entry newer than all others in front keeps a history newest first */
  lemma NewestFirstCons(e: Revision, older: seq<Revision>)
    requires NewestFirst(older)
    requires forall j :: 0 <= j < |older| ==> older[j].createdAt < e.createdAt
    ensures NewestFirst([e] + older)
  {
    var r := [e] + older;
    forall i, j | 0 <= i < j < |r| ensures r[i].createdAt > r[j].createdAt {
      assert r[j] == older[j - 1];
      if i > 0 {
        assert r[i] == older[i - 1];
      }
    }
  }

  /** Revisions stored in creation order come out of the history newest first */
  lemma {:induction false} HistoryNewestFirst(revs: seq<Revision>, id: ArticleId, title: string, n: nat)
    requires n <= |revs|
    requires forall i, j :: 0 <= i < j < |revs| ==> revs[i].createdAt < revs[j].createdAt
    ensures NewestFirst(HistoryUpTo(revs, id, title, n))
    decreases n
  {
    if n > 0 {
      HistoryNewestFirst(revs, id, title, n - 1);
      if revs[n - 1].articleId == id {
        HistoryPredates(revs, id, title, n - 1);
        NewestFirstCons(Retitled(revs[n - 1], title), HistoryUpTo(revs, id, title, n - 1));
      }
    }
  }

  /** `getHistory`: owner only; the article's revisions newest first, each under the
      article's current title */
  function GetHistory(s: Store, caller: UserId, id: ArticleId): (r: Response<seq<Revision>>)
    ensures id !in s.articles ==> r == Fail(NotFound, "Article not found")
    ensures id in s.articles && s.articles[id].createdBy != caller ==> r == Fail(Forbidden, "Unauthorized")
    ensures id in s.articles && s.articles[id].createdBy == caller ==>
      var title := s.articles[id].title;
      && r.Ok?
      && (forall j :: 0 <= j < |r.body| ==> ShownFrom(r.body[j], s.revisions, id, title, |s.revisions|))
      && (forall i :: 0 <= i < |s.revisions| && s.revisions[i].articleId == id ==>
            Retitled(s.revisions[i], title) in r.body)
  {
    match Load(s, caller, id)
    case Missing => Fail(NotFound, "Article not found")
    case Foreign(_) => Fail(Forbidden, "Unauthorized")
    case Owned(a) => Ok(HistoryUpTo(s.revisions, id, a.title, |s.revisions|))
  }

  /** In a consistent store the history an owner sees is ordered newest first */
  lemma HistoryOrderedNewestFirst(s: Store, caller: UserId, id: ArticleId)
    requires Valid(s)
    requires GetHistory(s, caller, id).Ok?
    ensures NewestFirst(GetHistory(s, caller, id).body)
  {
    assert GetHistory(s, caller, id).body == HistoryUpTo(s.revisions, id, s.articles[id].title, |s.revisions|);
    HistoryNewestFirst(s.revisions, id, s.articles[id].title, |s.revisions|);
  }

  /** A new article by a registered user keeps the store consistent */
  lemma CreatePreservesValid(s: Store, caller: UserId, title: string, content: string)
    requires Valid(s) && caller in s.users
    ensures Valid(CreateArticle(s, caller, title, content).1)
  {
  }

  /** An update keeps the store consistent: the snapshot is the newest revision */
  lemma UpdatePreservesValid(s: Store, caller: UserId, id: ArticleId, title: Option<string>, content: Option<string>)
    requires Valid(s)
    ensures Valid(UpdateArticle(s, caller, id, title, content).1)
  {
    match Load(s, caller, id)
    case Owned(prior) =>
      var s' := UpdateArticle(s, caller, id, title, content).1;
      assert s'.revisions == s.revisions + [Revision(id, prior.title, prior.content, s.clock)];
      assert forall i :: 0 <= i < |s.revisions| ==> s.revisions[i].createdAt < s'.revisions[|s.revisions|].createdAt;
      assert RevisionsValid(s');
      assert ArticlesValid(s');
    case _ =>
  }

  /** A delete keeps the store consistent */
  lemma DeletePreservesValid(s: Store, caller: UserId, id: ArticleId)
    requires Valid(s)
    ensures Valid(DeleteArticle(s, caller, id).1)
  {
  }

  /** Caching a summary keeps the store consistent */
  lemma SummaryPreservesValid(s: Store, id: ArticleId, summarize: Summarizer)
    requires Valid(s)
    ensures Valid(GetSummary(s, id, summarize).store)
  {
  }

  /** A created article can be read back, with its author attached */
  lemma CreateThenGet(s: Store, caller: UserId, title: string, content: string)
    requires caller in s.users
    ensures
      var (reply, s') := CreateArticle(s, caller, title, content);
      var r := GetArticle(s', reply.body.id);
      && r.Ok?
      && r.body.title == title && r.body.content == content && r.body.createdBy == caller
      && r.body.author == Some(Public(s.users[caller]))
  {
  }

  /** After an owner deletes an article, reading it is a 404 and updating it too */
  lemma DeleteThenGet(s: Store, caller: UserId, id: ArticleId, title: Option<string>, content: Option<string>)
    requires id in s.articles && s.articles[id].createdBy == caller
    ensures
      var s' := DeleteArticle(s, caller, id).1;
      && GetArticle(s', id).Status() == NotFound
      && UpdateArticle(s', caller, id, title, content).0.Status() == NotFound
  {
  }

  /** After an owner update the history starts with the snapshot of the previous
      version (shown under the article's title after the update), followed by the
      earlier history */
  lemma UpdateThenHistory(s: Store, caller: UserId, id: ArticleId, title: Option<string>, content: Option<string>)
    requires id in s.articles && s.articles[id].createdBy == caller
    ensures
      var prior := s.articles[id];
      var current := Patched(title, prior.title);
      var s' := UpdateArticle(s, caller, id, title, content).1;
      GetHistory(s', caller, id) ==
        Ok([Revision(id, current, prior.content, s.clock)] + HistoryUpTo(s.revisions, id, current, |s.revisions|))
  {
    var prior := s.articles[id];
    var s' := UpdateArticle(s, caller, id, title, content).1;
    HistoryUpToPrefix(s.revisions, s'.revisions, id, s'.articles[id].title, |s.revisions|);
  }

  /** The history of a prefix depends only on that prefix */
  lemma {:induction false} HistoryUpToPrefix(revs: seq<Revision>, more: seq<Revision>, id: ArticleId, title: string, n: nat)
    requires n <= |revs| <= |more| && revs == more[..|revs|]
    ensures HistoryUpTo(more, id, title, n) == HistoryUpTo(revs, id, title, n)
    decreases n
  {
    if n > 0 {
      assert more[n - 1] == revs[n - 1];
      HistoryUpToPrefix(revs, more, id, title, n - 1);
    }
  }

  /** Once a summary has been produced, asking again returns the same text from the
      cache without calling the summarizer; this needs the text to be non-empty, since
      an empty string is falsy and does not count as cached */
  lemma SummaryComputedAtMostOnce(s: Store, id: ArticleId, summarize: Summarizer)
    requires id in s.articles
    requires Truthy(s.articles[id].summary) || summarize(s.articles[id].content) != ""
    ensures
      var first := GetSummary(s, id, summarize);
      var second := GetSummary(first.store, id, summarize);
      && second.reply == first.reply
      && second.store == first.store
      && second.summarizerCalls == 0
  {
  }

  /** An empty summary is stored but not treated as cached: the next request calls
      the summarizer again */
  lemma EmptySummaryIsRecomputed(s: Store, id: ArticleId, summarize: Summarizer)
    requires id in s.articles
    requires !Truthy(s.articles[id].summary) && summarize(s.articles[id].content) == ""
    ensures
      var first := GetSummary(s, id, summarize);
      first.summarizerCalls == 1 && GetSummary(first.store, id, summarize).summarizerCalls == 1
  {
  }
}

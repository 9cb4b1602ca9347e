# shareWise backend: a Dafny model of authentication, ownership and revisions

This project models the request-level logic of the shareWise article backend, an
Express/Prisma service. Users sign up and log in with a password. Login gives a
JSON Web Token that is delivered in a `token` cookie. An authentication
middleware guards every article route. Articles can be created, listed and read
by any authenticated user. Only the owner may update, delete or see the history
of an article. Before each update, a revision of the old title and content is
saved. An article's summary comes from an external summarizer and is cached.

The database is an immutable `Schema.Store` with these parts:
- `users: map<UserId, User>`
- `articles: map<ArticleId, Article>`
- `revisions: seq<Revision>` (in insertion order)
- a logical clock, which stands in for `createdAt`
- id counters, which stand in for generated ids

Each handler is a pure function. It takes the store and returns its reply and, if
it writes, the new store. A reply is `Http.Response`: `Ok(body)` for status 200,
or `Fail(status, message)` holding the source's status code and error text.
`Schema.Valid` states the consistency the database keeps between requests:
- each user is stored under its own id;
- emails are unique;
- every article's owner exists;
- creation times grow with ids;
- revisions are stored in creation order.

Each writing handler has a lemma proving it preserves `Valid`.

Library code is abstract. Each library function is passed to the handlers as a
function-typed parameter:
- bcrypt: `Crypto.Hasher` and `Crypto.Comparer`;
- `jsonwebtoken`: `Crypto.Signer` and `Crypto.Verifier`;
- the summarizer: `Articles.Summarizer`.

The lemmas assume only what they need, stated as predicates:
- `Crypto.HashSound`: a password matches its own hash.
- `Crypto.JwtSound`: a signed token is non-empty, verifies to its user id until
  it expires, and fails with `TokenExpired` afterwards.

The clock for token expiry is a parameter `now`, in seconds.

JavaScript truthiness is modelled where the handlers rely on it. An empty `token`
cookie counts as no cookie. An empty cached summary counts as no summary, so a
summarizer that returns `""` is called again on the next request
(`Articles.EmptySummaryIsRecomputed`).

The token lifetime (`expiresIn: "10d"`) and the cookie lifetime (`maxAge`, 24 hours)
are two separate constants: `Crypto.TokenLifetimeSeconds` and
`Crypto.CookieMaxAgeMillis`. They are not reconciled: a token outlives the cookie
that delivers it.

History entries show the article's current title, not the title the revision
recorded. In `Routes.DraftFinalScenario`, U1 writes "Draft"/"v1" and updates it to
"Final"/"v2"; the revision of "Draft"/"v1" is then shown as "Final"/"v1".

`getArticleById` replies 500 for an unknown id (see Findings).

An update is a PATCH. A field the request body leaves out keeps its stored value.
A revision is still written (`Articles.UpdateArticle`).

`getMe` and the middleware refuse the same requests with different statuses.
With no cookie, `getMe` replies 400 and the middleware 401. For a verified token
whose user is gone, `getMe` replies 404 and the middleware 401
(`Gate.GateAgreesWithGetMe`).

Replies never contain a password hash. The types enforce this: the author in a
listed or read article is a `Schema.PublicUser`, and so is the user in a signup,
login or `getMe` reply. `PublicUser` has only id, name and email.

Logout only clears the cookie. Tokens are stateless and nothing revokes them.
Signup and login also return the token in the reply body. A client that kept that
token is still let through by the middleware until the token expires
(`Gate.LogoutRevokesNothing`).

The summary cache is write-once. Once an article holds a non-empty summary, no
sequence of requests changes it or calls the summarizer for it again
(`Routes.SummaryComputedOncePerArticle`).

Deleting an article leaves its revisions in the store. The database schema is not
part of this model, and it decides what really happens:
- the revisions might cascade-delete;
- they might be kept;
- under a restricting foreign key, deleting an article that has revisions fails
  with a 500.

## Model

| member | source | states |
|---|---|---|
| Schema.FindUserByEmail | controllers/authController.js:11 | the user found has the requested email and is stored; in a consistent store "not found" means no stored user has that email |
| Schema.FindUserByEmailExact | controllers/authController.js:43 | in a consistent store, looking up a stored user's email yields exactly that user (emails are unique) |
| Auth.Signup | controllers/authController.js:8-33 | a registered email gets 400 "User already exists" and the store is unchanged; otherwise exactly one user is added under an id not used before (in a consistent store), with the bcrypt hash of the password (10 rounds). The reply exposes only id, name and email, carries a token for the new id valid for 10 days, and sets it in a 24-hour cookie; articles and revisions are untouched |
| Auth.SignupPreservesValid | controllers/authController.js:11-18 | signup keeps ids and emails unique |
| Auth.DuplicateSignupCreatesNoUser | controllers/authController.js:11-13 | signing up with the email of any stored user is a 400 that leaves the store as it was |
| Auth.SignupThenLogin | controllers/authController.js:15-18 | credentials that signed up successfully log in, as the same user, if a password matches its own hash |
| Auth.Login | controllers/authController.js:43-62 | login succeeds exactly when the email is registered and the password matches that user's hash. Every failure is the same reply, 400 "Invalid credentials". Success exposes that user's id, name and email and a token for that user's id, set in a 24-hour cookie |
| Auth.LoginFailuresIndistinguishable | controllers/authController.js:43-47 | an unknown email and a known email with a wrong password give identical replies |
| Auth.GetMe | controllers/authController.js:70-81 | status 400 exactly when there is no cookie; 401 exactly when the token fails verification; 404 exactly when the verified id has no user; it succeeds exactly when a truthy cookie's token verifies to the id of a stored user, and a success carries only the id, name and email of that user |
| Auth.SignupThenGetMe | controllers/authController.js:20-33 | the token handed out at signup identifies the new user to getMe at any time before it expires |
| Auth.Logout | controllers/authController.js:84-87 | replies 200 and leaves the client with no token cookie |
| Auth.LogoutThenGetMe | controllers/authController.js:84-87 | a request carrying the cleared cookie gets 400 from getMe |
| Gate.Authenticate | middlewares/authMiddleware.js:7-33 | every refusal is a 401: a missing cookie, a failed verification ("Invalid or expired token") and a verified id without a user each have their own message. The request proceeds exactly for a truthy cookie whose token verifies to the id of a stored user, with that stored user attached |
| Gate.AttachedUserHasTokenId | middlewares/authMiddleware.js:19-27 | in a consistent store the attached user's id is the id the token names |
| Gate.GateAgreesWithGetMe | middlewares/authMiddleware.js:10-31 | the middleware lets a request through exactly when getMe succeeds for the same cookie, with the same user; no cookie is 401 here but 400 there, and a missing user is 401 here but 404 there |
| Gate.LoginThenGate | middlewares/authMiddleware.js:17-28 | a login token opens the gate for the logged-in user until it expires |
| Gate.LogoutThenGate | middlewares/authMiddleware.js:8-14 | a request carrying the cleared cookie is refused by the middleware |
| Gate.LogoutRevokesNothing | controllers/authController.js:84-87 | logout revokes nothing: the login token, also returned in the reply body, still opens the middleware for the same user until it expires |
| Articles.KeysBelow | controllers/articleController.js:7-10 | yields each stored article id below the bound exactly once, in strictly decreasing order |
| Articles.GetAllArticles | controllers/articleController.js:7-23 | never fails; `count` equals the number of entries, and each entry is a stored article joined with its author minus the password |
| Articles.ListingCompleteNewestFirst | controllers/articleController.js:7-18 | in a consistent store the listing contains every article, strictly newest first, each with its author's public fields |
| Articles.GetArticleById | controllers/articleController.js:32-46 | a stored id yields the sanitized article; an unknown id yields 500 "Failed to fetch article" |
| Articles.UnknownArticleIs500 | controllers/articleController.js:32-46 | an unknown id is a 500, not a 404 |
| Articles.GetArticle | controllers/articleController.js:32-43 | a read succeeds exactly for stored ids, giving the sanitized article, and is otherwise 404 "Article not found"; on stored ids it agrees with the handler as written |
| Articles.CreateArticle | controllers/articleController.js:52-60 | the new article has the request's title and content, is owned by the caller, has no summary, and has an id not used before in a consistent store. No other article, user or revision changes |
| Articles.CreatePreservesValid | controllers/articleController.js:53-59 | creating an article for an existing user keeps the store consistent |
| Articles.CreateThenGet | controllers/articleController.js:53-59 | a created article reads back with its title, content, owner and author |
| Articles.Load | controllers/articleController.js:72-76 | the article is missing exactly when the id is unknown, and owned exactly when its `createdBy` is the caller |
| Articles.UpdateArticle | controllers/articleController.js:69-91 | an unknown id is 404 and a non-owner gets 403; both leave the store unchanged. An owner update appends exactly one revision holding the previous title and content. Each field present in the request replaces the stored one; a missing field keeps its stored value. Id, owner, summary, creation time, the other articles and the users are unchanged |
| Articles.UpdatePreservesValid | controllers/articleController.js:78-89 | the snapshot becomes the newest revision, so revisions stay in creation order |
| Articles.UpdateThenHistory | controllers/articleController.js:78-89 | after an owner update, history starts with the snapshot of the previous content, shown under the title after the update, followed by the earlier history |
| Articles.DeleteArticle | controllers/articleController.js:101-112 | an unknown id is 404 and a non-owner gets 403; in both the article is still present and the store is unchanged. An owner delete removes only that id and leaves revisions and users untouched |
| Articles.DeletePreservesValid | controllers/articleController.js:111 | deleting keeps the store consistent |
| Articles.DeleteThenGet | controllers/articleController.js:101-111 | after an owner delete, reading or updating that id is a 404 |
| Articles.GetSummary | controllers/articleController.js:122-135 | an unknown id is 404. A truthy cached summary is returned without calling the summarizer. Otherwise the summarizer runs exactly once on the content, and its text is returned and becomes the cached summary; nothing else changes |
| Articles.SummaryPreservesValid | controllers/articleController.js:130-133 | caching a summary keeps the store consistent |
| Articles.SummaryComputedAtMostOnce | controllers/articleController.js:126-135 | once a non-empty summary is produced, a second request returns the same text without calling the summarizer and changes nothing |
| Articles.EmptySummaryIsRecomputed | controllers/articleController.js:126-128 | an empty summary is not treated as cached, so the summarizer runs again |
| Articles.HistoryUpTo | controllers/articleController.js:152-160 | each entry is a revision of the requested article under the given title, and every such revision has its entry |
| Articles.HistoryPredates | controllers/articleController.js:152-155 | each entry of the history of the first n revisions was created before revision n |
| Articles.NewestFirstCons | controllers/articleController.js:152-155 | putting an entry newer than all others in front keeps a history newest first |
| Articles.HistoryNewestFirst | controllers/articleController.js:152-155 | revisions stored in creation order come out strictly newest first |
| Articles.HistoryUpToPrefix | controllers/articleController.js:152-155 | appending revisions does not change the history computed from the earlier ones |
| Articles.GetHistory | controllers/articleController.js:145-162 | an unknown id is 404 and a non-owner gets 403. The owner gets exactly the revisions of that article, each under the article's current title |
| Articles.HistoryOrderedNewestFirst | controllers/articleController.js:152-155 | in a consistent store the owner's history is strictly newest first |
| Routes.Handle | routes/articleRoute.js:14-22 | a request the middleware refuses gets its 401, leaves the store unchanged and never reaches the summarizer; only a request it admits can change anything |
| Routes.OnlyOwnerMutates | routes/articleRoute.js:14-22 | a request the middleware refuses changes nothing; an admitted one changes the title, content, existence or revisions only of articles the authenticated user owns; a summary request may cache the summary of any article |
| Routes.UntouchedIsOwnerOnly | routes/articleRoute.js:16-17 | a request that keeps the revisions and every article's title and content alters no title, content, existence or revision of anyone's article (the summary is not covered) |
| Routes.CreateIsOwnerOnly | controllers/articleController.js:53-59 | creating an article changes no existing article and adds no revision |
| Routes.UpdateIsOwnerOnly | controllers/articleController.js:72-89 | an update changes, and records a revision for, only an article the caller owns; earlier revisions stay as they were |
| Routes.DeleteIsOwnerOnly | controllers/articleController.js:101-111 | a delete removes only an article the caller owns and keeps the revisions |
| Routes.SummaryIsOwnerOnly | controllers/articleController.js:124-133 | a summary request changes no title, content or revision, so any user may make it |
| Routes.DispatchIsOwnerOnly | routes/articleRoute.js:16-22 | every article handler, run for a caller, changes the title, content, existence or revisions only of articles that caller owns; a summary request may cache the summary of any article |
| Routes.HandlePreservesValid | routes/articleRoute.js:14-22 | every gated request keeps the store consistent |
| Routes.CachedSummaryStable | controllers/articleController.js:124-126 | once an article holds a non-empty summary, no request changes it, and a summary request for it calls no summarizer |
| Routes.CachedRunStable | controllers/articleController.js:124-135 | a cached non-empty summary survives any sequence of requests, and none of them calls the summarizer for that article |
| Routes.SummaryComputedOncePerArticle | controllers/articleController.js:124-135 | once an article holds a non-empty summary, no sequence of requests changes it or calls the summarizer for it again |
| Routes.DraftFinalScenario | controllers/articleController.js:67-167 | U1 writes "Draft"/"v1" and updates it to "Final"/"v2". U1's history is then one revision with content "v1", shown as "Final". U2 reads content "v2", but U2's history request and update get 403, and the update changes nothing |

## Left out

- Prisma persistence, `async`/`await` and the catch-all 500 branches for database or library failures. The exception is `getArticleById`, whose 500 on an unknown id is part of the model.
- The lost-update race between two concurrent updates of one article: each handler is one atomic transition.
- bcrypt salting and cost, JWT signing, HMAC and expiry arithmetic. These are abstract parameters, constrained only by `Crypto.HashSound` and `Crypto.JwtSound` where a lemma needs them.
- The summarizer call to the Gemini API (`utils/openAI.js`): an abstract function from content to text. Its failures (the 500 branch) are not modelled.
- Generated ids and `createdAt` timestamps: replaced by counters and a logical clock, so creation times never tie. Revisions carry no id of their own.
- Cookie attributes (`httpOnly`, `secure`, `sameSite`), the browser dropping the cookie after its `maxAge`, and console logging.
- `app.js`: CORS, body and cookie parsers, static files, logging and route mounting. The auth routes' wiring is not part of this model.
- `createArticle` with a title or content missing from the body: whether the database accepts it depends on the schema, which is not part of this model.
- Routes.Dispatch serves `GET /:id` with the corrected `Articles.GetArticle` (404 for an unknown id), not the 500 the handler gives as written.

## Findings

| source | as written | input that shows it | evidently intended | confidence | as-written member | corrected member |
|---|---|---|---|---|---|---|
| controllers/articleController.js:32-46 | the handler reads `article.author` without checking the lookup result; for an unknown id that is `null.author`, which throws and lands in the catch-all | `GET /articles/:id` with an id that has no article | 404 "Article not found", as update, delete, summary and history reply | not executed; high that the reply is 500, medium that 404 was intended | Articles.UnknownArticleIs500 | Articles.GetArticle |

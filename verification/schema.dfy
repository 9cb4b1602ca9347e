/** The persistent state: users, articles and revisions, as the database holds them.
    Identifiers are handed out from counters and a logical clock stands in for
    the `createdAt` timestamps the database fills in. */
module Schema {
  import opened Http

  type UserId = nat
  type ArticleId = nat

  /** A stored account; `password` holds the bcrypt hash, never the plaintext */
  datatype User = User(id: UserId, name: string, email: string, password: string)

  /** The identity fields that replies expose: a user without its password hash */
  datatype PublicUser = PublicUser(id: UserId, name: string, email: string)

  datatype Article = Article(
    id: ArticleId,
    title: string,
    content: string,
    summary: Option<string>,
    createdBy: UserId,
    createdAt: nat)

  /** A snapshot of an article's title and content taken before an update */
  datatype Revision = Revision(articleId: ArticleId, title: string, content: string, createdAt: nat)

  datatype Store = Store(
    users: map<UserId, User>,
    articles: map<ArticleId, Article>,
    revisions: seq<Revision>,
    clock: nat,
    nextUserId: nat,
    nextArticleId: nat)

  function Public(u: User): PublicUser {
    PublicUser(u.id, u.name, u.email)
  }

  /** Every user is stored under its own id, below the id counter, and emails are unique */
  ghost predicate UsersValid(s: Store) {
    && (forall k :: k in s.users ==> s.users[k].id == k && k < s.nextUserId)
    && (forall k, k' :: k in s.users && k' in s.users && k != k' ==> s.users[k].email != s.users[k'].email)
  }

  /** Every article is stored under its own id, was created before the clock's current
      value by an existing user, and a larger id means a later creation time */
  ghost predicate ArticlesValid(s: Store) {
    && (forall k :: k in s.articles ==>
          && s.articles[k].id == k
          && k < s.nextArticleId
          && s.articles[k].createdAt < s.clock
          && s.articles[k].createdBy in s.users)
    && (forall k, k' :: k in s.articles && k' in s.articles && k < k' ==>
          s.articles[k].createdAt < s.articles[k'].createdAt)
  }

  /** Revisions are kept in creation order, all created before the clock's current value */
  ghost predicate RevisionsValid(s: Store) {
    && (forall i :: 0 <= i < |s.revisions| ==> s.revisions[i].createdAt < s.clock)
    && (forall i, j :: 0 <= i < j < |s.revisions| ==> s.revisions[i].createdAt < s.revisions[j].createdAt)
  }

  /** The consistency the database maintains between requests */
  ghost predicate Valid(s: Store) {
    UsersValid(s) && ArticlesValid(s) && RevisionsValid(s)
  }

  /** The store before any request */
  function Empty(): (s: Store)
    ensures Valid(s)
    ensures s.users == map[] && s.articles == map[] && s.revisions == []
  {
    Store(map[], map[], [], 0, 0, 0)
  }

  /** Searches the ids below `n` for a user with the given email */
  function FindByEmailBelow(users: map<UserId, User>, email: string, n: nat): (r: Option<UserId>)
    ensures r.Some? ==> r.value < n && r.value in users && users[r.value].email == email
    ensures r.None? ==> forall k :: k < n && k in users ==> users[k].email != email
    decreases n
  {
    if n == 0 then None
    else if n - 1 in users && users[n - 1].email == email then Some(n - 1)
    else FindByEmailBelow(users, email, n - 1)
  }

  /** `prisma.user.findUnique({ where: { email } })` */
  function FindUserByEmail(s: Store, email: string): (r: Option<User>)
    ensures r.Some? ==> r.value.email == email && r.value in s.users.Values
    ensures Valid(s) && r.None? ==> forall k :: k in s.users ==> s.users[k].email != email
  {
    match FindByEmailBelow(s.users, email, s.nextUserId)
    case None => None
    case Some(k) => Some(s.users[k])
  }

  /** In a consistent store the lookup by email finds exactly the user holding that email */
  lemma FindUserByEmailExact(s: Store, u: User)
    requires Valid(s)
    requires u.id in s.users && s.users[u.id] == u
    ensures FindUserByEmail(s, u.email) == Some(u)
  {
    var r := FindByEmailBelow(s.users, u.email, s.nextUserId);
    assert u.id < s.nextUserId;
    assert r.Some?;
    assert s.users[r.value].email == u.email;
    assert r.value == u.id;
  }
}

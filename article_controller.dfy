/** `controllers/ArticleController.js`: creating, listing, finding and deleting articles. */
module ArticleController {
  import opened Wrappers
  import opened Text
  import opened Json
  import opened ArticleModel
  import opened Response

  /** The fields `createArticle` reads from `req.body`; any of them may be missing. */
  datatype ArticleRequest = ArticleRequest(
    title: Option<string>,
    author: Option<ObjectId>,
    description: Option<string>,
    body: Option<string>,
    tags: Option<seq<string>>)

  /** The view of an article every handler here sends; an unset author is left out. */
  function Projection(a: Article): (j: Json)
    ensures Get(j, "likesCount") == Some(JNum(|a.likes|))
    ensures Get(j, "likes") == Some(JArr(Ids(a.likes)))
    ensures Get(j, "slug") == Some(JStr(a.slug)) && Get(j, "id") == Some(JId(a.id))
    ensures Get(j, "author") == (if a.author.Some? then Some(JId(a.author.value)) else None)
  {
    var fields := map[
      "id" := JId(a.id), "title" := JStr(a.title), "description" := JStr(a.description),
      "body" := JStr(a.body), "tags" := JArr(Strings(a.tags)), "slug" := JStr(a.slug),
      "likes" := JArr(Ids(a.likes)), "likesCount" := JNum(|a.likes|), "createdAt" := JDate(a.createdAt)];
    JObj(if a.author.Some? then fields["author" := JId(a.author.value)] else fields)
  }

  /** The record a successful create stores. */
  function Created(store: ArticleStore, req: ArticleRequest): Article
    requires ArticleStorable(req.title, req.description, req.body)
    reads store
  {
    Article(store.nextId, SlugFor(store.slugify, req.title.value), req.title.value, req.author,
            req.description.value, req.body.value, req.tags.GetOr([]), [], store.createdAtDefault, [], [])
  }

  /**
   * `createArticle`: no field validation, and the author is whatever the body says. A title
   * already stored is 400 `Article exists!`; a save refused for a missing field or a slug clash is
   * 400 `an error occured`; either way nothing is stored. Otherwise exactly one article is
   * appended and the reply is 201 with its projection.
   */
  method CreateArticle(store: ArticleStore, req: ArticleRequest) returns (reply: Reply)
    requires store.Valid()
    modifies store
    ensures store.Valid()
    ensures FindByTitle(old(store.articles), req.title).Some? ==>
              reply == Refusal(400, "Article exists!")
              && store.articles == old(store.articles) && store.nextId == old(store.nextId)
    ensures FindByTitle(old(store.articles), req.title).None? && !ArticleStorable(req.title, req.description, req.body) ==>
              reply == Refusal(400, "an error occured")
              && store.articles == old(store.articles) && store.nextId == old(store.nextId)
    ensures FindByTitle(old(store.articles), req.title).None? && ArticleStorable(req.title, req.description, req.body) ==>
              var a := old(Created(store, req));
              && ((exists b :: b in old(store.articles) && b.slug == a.slug) ==>
                    reply == Refusal(400, "an error occured")
                    && store.articles == old(store.articles) && store.nextId == old(store.nextId))
              && (!(exists b :: b in old(store.articles) && b.slug == a.slug) ==>
                    reply == Found(201, Projection(a))
                    && store.articles == old(store.articles) + [a] && store.nextId == old(store.nextId) + 1)
  {
    var doc := new ArticleDocument(req.title, req.author, req.description, req.body, req.tags, store.createdAtDefault);
    var existing := FindByTitle(store.articles, req.title);
    if existing.Some? {
      return Refusal(400, "Article exists!");
    }
    var saved := store.Save(doc);
    if saved.Failure? {
      return Refusal(400, "an error occured");
    }
    reply := Found(201, Projection(saved.value));
  }

  function Projections(articles: seq<Article>): (r: seq<Json>)
    ensures |r| == |articles| && forall k :: 0 <= k < |articles| ==> r[k] == Projection(articles[k])
  {
    seq(|articles|, k requires 0 <= k < |articles| => Projection(articles[k]))
  }

  /** `getAllArticles`: one projection per stored article, in store order, with no filter or paging. */
  function GetAllArticles(articles: seq<Article>): (r: Reply)
    ensures r.status == 200 && Get(r.body, "data").Some? && Get(r.body, "data").value.JArr?
    ensures var items := Get(r.body, "data").value.items;
      && |items| == |articles|
      && forall k :: 0 <= k < |articles| ==>
           items[k] == Projection(articles[k]) && Get(items[k], "likesCount") == Some(JNum(|articles[k].likes|))
  {
    Found(200, JArr(Projections(articles)))
  }

  /**
   * `getArticleBySlug`: the slug parameter goes through the `lowercase` setter. With no match the
   * code dereferences `null`, so the catch answers 400 rather than 404.
   */
  function GetArticleBySlug(articles: seq<Article>, slug: string): (r: Reply)
    ensures (forall a :: a in articles ==> a.slug != Lower(slug)) ==> r == Refusal(400, "an error occured")
    ensures (exists a :: a in articles && a.slug == Lower(slug)) ==>
              r.status == 200 && exists a :: a in articles && a.slug == Lower(slug) && Get(r.body, "data") == Some(Projection(a))
  {
    match FindBySlug(articles, slug)
    case None => Refusal(400, "an error occured")
    case Some(a) => Found(200, Projection(a))
  }

  /** Under the unique slug index, a stored article is found by its slug in any letter case. */
  lemma SlugLookupFindsStored(store: ArticleStore, a: Article, slug: string)
    requires store.Valid() && a in store.articles && Lower(slug) == a.slug
    ensures GetArticleBySlug(store.articles, slug) == Found(200, Projection(a))
  {
    var r := FindBySlug(store.articles, slug);
    assert r.Some? && r.value.slug == a.slug;
  }

  /** The ids of the articles `Article.find({ author })` returns. */
  function AuthoredBy(articles: seq<Article>, author: ObjectId): (r: seq<Json>)
    ensures |r| <= |articles|
    ensures forall x :: x in r <==> exists a :: a in articles && a.author == Some(author) && x == JId(a.id)
  {
    if articles == [] then []
    else
      var rest := AuthoredBy(articles[1..], author);
      assert forall a :: a in articles <==> a == articles[0] || a in articles[1..];
      if articles[0].author == Some(author) then [JId(articles[0].id)] + rest else rest
  }

  /**
   * The guard `if (!checkAuthor)` in `deleteArticle` tests an array, and every array is truthy,
   * so the 401 answer is never sent: the guard holds for every caller and every store.
   */
  lemma DeleteGuardNeverFires(articles: seq<Article>, author: ObjectId)
    ensures Truthy(JArr(AuthoredBy(articles, author)))
  {
  }

  const Deleted := Reply(204, JObj(map["status" := JStr("success"), "message" := JStr("Successfully deleted article")]))

  /**
   * `deleteArticle`: whoever the caller is, the article with the given id is removed and the
   * reply is 204, also when no article had that id.
   */
  method DeleteArticle(store: ArticleStore, id: ObjectId, actor: ObjectId) returns (reply: Reply)
    requires store.Valid()
    modifies store
    ensures store.Valid()
    ensures reply == Deleted
    ensures store.articles == RemoveId(old(store.articles), id) && store.nextId == old(store.nextId)
  {
    var checkAuthor := JArr(AuthoredBy(store.articles, actor));
    DeleteGuardNeverFires(store.articles, actor);
    assert Truthy(checkAuthor);
    store.Delete(id);
    reply := Deleted;
  }

  /** An article just created is found again by its slug, and listed last by `getAllArticles`. */
  lemma CreatedIsFoundBySlug(articles: seq<Article>, nextId: ObjectId, slugify: string -> string,
                             createdAtDefault: nat, a: Article)
    requires ArticlesInv(articles + [a], nextId, slugify, createdAtDefault)
    ensures GetArticleBySlug(articles + [a], a.slug) == Found(200, Projection(a))
    ensures Get(GetAllArticles(articles + [a]).body, "data").value.items[|articles|] == Projection(a)
  {
    FindBySlugIsTheOne(articles + [a], nextId, slugify, createdAtDefault, a);
  }
}

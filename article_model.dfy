/**
 * `models/Article.js`: the Article record, the `articles` collection with its unique indexes,
 * and a document being saved (the `createdAt` default and the pre-save slug hook).
 */
module ArticleModel {
  import opened Wrappers
  import opened Text
  import opened Json
  import opened MongoOps

  /** A stored article. `favourites` and `comments` are the arrays the feed reads. */
  datatype Article = Article(
    id: ObjectId,
    slug: string,
    title: string,
    author: Option<ObjectId>,
    description: string,
    body: string,
    tags: seq<string>,
    likes: seq<ObjectId>,
    createdAt: nat,
    favourites: seq<ObjectId>,
    comments: seq<ObjectId>)

  /** The slug the hook stores for a title: the library's slug, then the `lowercase` setter. */
  function SlugFor(slugify: string -> string, title: string): (r: string)
    ensures IsLower(r) && |r| == |slugify(title)|
  {
    Lower(slugify(title))
  }

  /** The index of the first article, in natural order, that `p` holds of. */
  function FindFirst(articles: seq<Article>, p: Article -> bool): (r: Option<nat>)
    ensures r.Some? ==> r.value < |articles| && p(articles[r.value])
    ensures r.Some? ==> forall j :: 0 <= j < r.value ==> !p(articles[j])
    ensures r.None? <==> forall j :: 0 <= j < |articles| ==> !p(articles[j])
  {
    if articles == [] then None
    else if p(articles[0]) then Some(0)
    else
      match FindFirst(articles[1..], p)
      case None => None
      case Some(i) => Some(i + 1)
  }

  /** `Article.findOne({ title })`: titles are compared as given, the field has no setter. */
  function FindByTitle(articles: seq<Article>, title: Option<string>): (r: Option<Article>)
    ensures r.Some? ==> r.value in articles && title == Some(r.value.title)
    ensures r.None? <==> (title.None? || forall a :: a in articles ==> a.title != title.value)
  {
    if title.None? then None
    else
      match FindFirst(articles, (a: Article) => a.title == title.value)
      case None => None
      case Some(i) => Some(articles[i])
  }

  /** `Article.findOne({ slug })`: the filter goes through the field's `lowercase` setter. */
  function FindBySlug(articles: seq<Article>, slug: string): (r: Option<Article>)
    ensures r.Some? ==> r.value in articles && r.value.slug == Lower(slug)
    ensures r.None? <==> forall a :: a in articles ==> a.slug != Lower(slug)
  {
    match FindFirst(articles, (a: Article) => a.slug == Lower(slug))
    case None => None
    case Some(i) => Some(articles[i])
  }

  predicate IdsDistinct(articles: seq<Article>) {
    forall i, j :: 0 <= i < j < |articles| ==> articles[i].id != articles[j].id
  }

  /** `Article.findByIdAndDelete(id)`: the article with that id goes, the rest stay in order. */
  function RemoveId(articles: seq<Article>, id: ObjectId): (r: seq<Article>)
    ensures forall a :: a in r <==> a in articles && a.id != id
    ensures |r| <= |articles|
    ensures (forall a :: a in articles ==> a.id != id) ==> r == articles
  {
    if articles == [] then []
    else
      var rest := RemoveId(articles[1..], id);
      if articles[0].id == id then rest else [articles[0]] + rest
  }

  lemma TailDistinct(s: seq<Article>)
    requires IdsDistinct(s) && s != []
    ensures IdsDistinct(s[1..]) && forall b :: b in s[1..] ==> b.id != s[0].id
  {
    forall i, j | 0 <= i < j < |s| - 1 ensures s[1..][i].id != s[1..][j].id {
      assert s[1..][i] == s[i + 1] && s[1..][j] == s[j + 1];
    }
  }

  lemma ConsDistinct(x: Article, rest: seq<Article>)
    requires IdsDistinct(rest) && forall b :: b in rest ==> b.id != x.id
    ensures IdsDistinct([x] + rest)
  {
    var s := [x] + rest;
    forall i, j | 0 <= i < j < |s| ensures s[i].id != s[j].id {
      assert s[j] == rest[j - 1];
      if i > 0 {
        assert s[i] == rest[i - 1];
      }
    }
  }

  /** Deleting by id keeps the ids distinct. */
  lemma {:induction false} RemoveIdKeepsDistinct(s: seq<Article>, id: ObjectId)
    requires IdsDistinct(s)
    ensures IdsDistinct(RemoveId(s, id))
  {
    if s != [] {
      TailDistinct(s);
      RemoveIdKeepsDistinct(s[1..], id);
      if s[0].id != id {
        ConsDistinct(s[0], RemoveId(s[1..], id));
      }
    }
  }

  /**
   * What the collection keeps: distinct ids already handed out, the unique `title` and `slug`
   * indexes, each slug derived from its title, the required fields non-empty, and the one
   * `createdAt` default shared by every article.
   */
  ghost predicate ArticlesInv(articles: seq<Article>, nextId: ObjectId, slugify: string -> string, createdAtDefault: nat) {
    && IdsDistinct(articles)
    && (forall a :: a in articles ==> a.id < nextId)
    && (forall a, b :: a in articles && b in articles && a.title == b.title ==> a == b)
    && (forall a, b :: a in articles && b in articles && a.slug == b.slug ==> a == b)
    && (forall a :: a in articles ==> a.slug == SlugFor(slugify, a.title))
    && (forall a :: a in articles ==> a.title != "" && a.description != "" && a.body != "")
    && (forall a :: a in articles ==> a.createdAt == createdAtDefault)
  }

  /** The `required` validators on title, description and body. */
  predicate ArticleStorable(title: Option<string>, description: Option<string>, body: Option<string>) {
    && title.Some? && title.value != ""
    && description.Some? && description.value != ""
    && body.Some? && body.value != ""
  }

  /** A `new Article({ title, author, description, body, tags })` document. */
  class ArticleDocument {
    var title: Option<string>
    var author: Option<ObjectId>
    var description: Option<string>
    var body: Option<string>
    var tags: seq<string>
    var likes: seq<ObjectId>
    var createdAt: nat
    var slug: Option<string>

    /**
     * Fields left `undefined` stay unset; the arrays default to empty and `createdAt` to the
     * schema's default, which was fixed when the schema was built.
     */
    constructor (title: Option<string>, author: Option<ObjectId>, description: Option<string>,
                 body: Option<string>, tags: Option<seq<string>>, createdAtDefault: nat)
      ensures this.title == title && this.author == author
      ensures this.description == description && this.body == body
      ensures this.tags == tags.GetOr([]) && likes == [] && createdAt == createdAtDefault
      ensures slug == None
    {
      this.title := title;
      this.author := author;
      this.description := description;
      this.body := body;
      this.tags := tags.GetOr([]);
      likes := [];
      createdAt := createdAtDefault;
      slug := None;
    }

    /** `ArticleSchema.pre('save')`: the slug is recomputed from the current title. */
    method PreSave(slugify: string -> string)
      requires title.Some?
      modifies this
      ensures title == old(title)
      ensures slug == Some(SlugFor(slugify, title.value))
      ensures author == old(author) && description == old(description)
      ensures body == old(body) && tags == old(tags) && likes == old(likes) && createdAt == old(createdAt)
    {
      slug := Some(SlugFor(slugify, title.value));
    }
  }

  /** The `articles` collection, in natural (insertion) order. */
  class ArticleStore {
    var articles: seq<Article>
    var nextId: ObjectId
    /** The `slug` package, with the `lower` option. */
    const slugify: string -> string
    /** The one timestamp `Date.now()` gave when the schema was defined. */
    const createdAtDefault: nat

    ghost predicate Valid()
      reads this
    {
      ArticlesInv(articles, nextId, slugify, createdAtDefault)
    }

    constructor (slugify: string -> string, createdAtDefault: nat)
      ensures Valid() && articles == [] && nextId == 0
      ensures this.slugify == slugify && this.createdAtDefault == createdAtDefault
    {
      articles := [];
      nextId := 0;
      this.slugify := slugify;
      this.createdAtDefault := createdAtDefault;
    }

    /**
     * `article.save()` of a new document: validation, then the slug hook, then the insert, which
     * the unique indexes refuse when the title or the slug is taken.
     */
    method Save(doc: ArticleDocument) returns (r: Result<Article, SaveError>)
      requires Valid() && doc.createdAt == createdAtDefault
      modifies this, doc
      ensures Valid()
      ensures doc.title == old(doc.title) && doc.description == old(doc.description) && doc.body == old(doc.body)
      ensures !ArticleStorable(doc.title, doc.description, doc.body) ==>
                r == Failure(ValidationFailed) && articles == old(articles) && nextId == old(nextId)
      ensures ArticleStorable(doc.title, doc.description, doc.body) ==>
                doc.slug == Some(SlugFor(slugify, doc.title.value))
      ensures ArticleStorable(doc.title, doc.description, doc.body)
              && (exists a :: a in old(articles) && (a.title == doc.title.value || a.slug == doc.slug.value)) ==>
                r == Failure(DuplicateKey) && articles == old(articles) && nextId == old(nextId)
      ensures ArticleStorable(doc.title, doc.description, doc.body)
              && !(exists a :: a in old(articles) && (a.title == doc.title.value || a.slug == doc.slug.value)) ==>
                && r == Success(Article(old(nextId), doc.slug.value, doc.title.value, old(doc.author),
                                        doc.description.value, doc.body.value, old(doc.tags), old(doc.likes),
                                        createdAtDefault, [], []))
                && articles == old(articles) + [r.value] && nextId == old(nextId) + 1
    {
      if !ArticleStorable(doc.title, doc.description, doc.body) {
        return Failure(ValidationFailed);
      }
      doc.PreSave(slugify);
      var title, slug := doc.title.value, doc.slug.value;
      if exists a :: a in articles && (a.title == title || a.slug == slug) {
        return Failure(DuplicateKey);
      }
      var art := Article(nextId, slug, title, doc.author, doc.description.value, doc.body.value,
                         doc.tags, doc.likes, doc.createdAt, [], []);
      AppendKeepsInv(articles, nextId, slugify, createdAtDefault, art);
      articles := articles + [art];
      nextId := nextId + 1;
      r := Success(art);
    }

    /** `Article.findByIdAndDelete(id)`. */
    method Delete(id: ObjectId)
      requires Valid()
      modifies this
      ensures Valid()
      ensures articles == RemoveId(old(articles), id) && nextId == old(nextId)
    {
      RemoveKeepsInv(articles, nextId, slugify, createdAtDefault, id);
      articles := RemoveId(articles, id);
    }
  }

  /** Appending a fresh, non-clashing, well-formed article keeps the invariant. */
  lemma AppendKeepsInv(articles: seq<Article>, nextId: ObjectId, slugify: string -> string,
                       createdAtDefault: nat, art: Article)
    requires ArticlesInv(articles, nextId, slugify, createdAtDefault)
    requires art.id == nextId && art.slug == SlugFor(slugify, art.title) && art.createdAt == createdAtDefault
    requires art.title != "" && art.description != "" && art.body != ""
    requires forall a :: a in articles ==> a.title != art.title && a.slug != art.slug
    ensures ArticlesInv(articles + [art], nextId + 1, slugify, createdAtDefault)
  {
    var s := articles + [art];
    forall i, j | 0 <= i < j < |s| ensures s[i].id != s[j].id {
      if j == |articles| {
        assert s[i] in articles;
      } else {
        assert s[i] == articles[i] && s[j] == articles[j];
      }
    }
  }

  /** Removing by id keeps the invariant. */
  lemma RemoveKeepsInv(articles: seq<Article>, nextId: ObjectId, slugify: string -> string,
                       createdAtDefault: nat, id: ObjectId)
    requires ArticlesInv(articles, nextId, slugify, createdAtDefault)
    ensures ArticlesInv(RemoveId(articles, id), nextId, slugify, createdAtDefault)
  {
    RemoveIdKeepsDistinct(articles, id);
  }

  /**
   * `createdAt: { default: Date.now() }` calls `Date.now()` once: all stored articles carry the
   * same timestamp, so newest-first order can never tell two of them apart.
   */
  lemma AllShareCreatedAt(articles: seq<Article>, nextId: ObjectId, slugify: string -> string,
                          createdAtDefault: nat, a: Article, b: Article)
    requires ArticlesInv(articles, nextId, slugify, createdAtDefault)
    requires a in articles && b in articles
    ensures a.createdAt == b.createdAt == createdAtDefault
  {
  }

  /** With unique slugs, a slug lookup finds the one article with that slug. */
  lemma FindBySlugIsTheOne(articles: seq<Article>, nextId: ObjectId, slugify: string -> string,
                           createdAtDefault: nat, a: Article)
    requires ArticlesInv(articles, nextId, slugify, createdAtDefault) && a in articles
    ensures FindBySlug(articles, a.slug) == Some(a)
  {
    assert Lower(a.slug) == a.slug;
  }
}

/** `validations/article.js`: the Joi schemas of an article and of a comment. */
module ArticleValidation {
  import opened Wrappers
  import opened Joi

  const ArticleSchema: seq<KeySchema> := [
    Key("title", true, [Min(5), Max(70)]),
    Key("description", true, [Min(5), Max(150)]),
    Key("body", true, [Min(5), Max(500)])
  ]

  const CommentSchema: seq<KeySchema> := [
    Key("text", true, [Min(3), Max(70)])
  ]

  /** `validateArticle`: the first failing detail, or `None` when the body is accepted. */
  function ValidateArticle(body: Body, isEmail: string -> bool): (r: Option<Detail>)
    ensures r.None? ==> "title" in body && "description" in body && "body" in body
  {
    MissingRequiredRejected(ArticleSchema, body, isEmail, 0);
    MissingRequiredRejected(ArticleSchema, body, isEmail, 1);
    MissingRequiredRejected(ArticleSchema, body, isEmail, 2);
    Validate(ArticleSchema, body, isEmail)
  }

  /** `validateComment`: the first failing detail, or `None` when the body is accepted. */
  function ValidateComment(body: Body, isEmail: string -> bool): (r: Option<Detail>)
    ensures r.None? ==> "text" in body
  {
    MissingRequiredRejected(CommentSchema, body, isEmail, 0);
    Validate(CommentSchema, body, isEmail)
  }

  predicate ArticleOk(body: Body) {
    && body.Keys <= {"title", "description", "body"}
    && "title" in body && 5 <= |body["title"]| <= 70
    && "description" in body && 5 <= |body["description"]| <= 150
    && "body" in body && 5 <= |body["body"]| <= 500
  }

  predicate CommentOk(body: Body) {
    body.Keys <= {"text"} && "text" in body && 3 <= |body["text"]| <= 70
  }

  /** `validateArticle` accepts exactly the bodies with all three fields within their inclusive bounds. */
  lemma ArticleAcceptsExactly(body: Body, isEmail: string -> bool)
    ensures ValidateArticle(body, isEmail).None? <==> ArticleOk(body)
  {
    KeysChain(ArticleSchema, body, isEmail);
    assert Names(ArticleSchema) == {"title", "description", "body"};
    if "title" in body {
      SatisfiesChain(body["title"], ArticleSchema[0].rules, isEmail);
    }
    if "description" in body {
      SatisfiesChain(body["description"], ArticleSchema[1].rules, isEmail);
    }
    if "body" in body {
      SatisfiesChain(body["body"], ArticleSchema[2].rules, isEmail);
    }
    assert KeyAccepts(ArticleSchema[0], body, isEmail) <==> ("title" in body && 5 <= |body["title"]| <= 70);
    assert KeyAccepts(ArticleSchema[1], body, isEmail) <==>
      ("description" in body && 5 <= |body["description"]| <= 150);
    assert KeyAccepts(ArticleSchema[2], body, isEmail) <==> ("body" in body && 5 <= |body["body"]| <= 500);
  }

  /** `validateComment` accepts exactly a body whose only field `text` has length 3 to 70. */
  lemma CommentAcceptsExactly(body: Body, isEmail: string -> bool)
    ensures ValidateComment(body, isEmail).None? <==> CommentOk(body)
  {
    KeysChain(CommentSchema, body, isEmail);
    forall v: string
      ensures SatisfiesAll(v, CommentSchema[0].rules, isEmail) <==> 3 <= |v| <= 70
    {
      SatisfiesChain(v, CommentSchema[0].rules, isEmail);
    }
  }

  /** The title bounds are inclusive: in an otherwise valid article, the title length decides. */
  lemma TitleBoundsInclusive(body: Body, isEmail: string -> bool, title: string)
    requires ArticleOk(body)
    ensures ValidateArticle(body["title" := title], isEmail).None? <==> 5 <= |title| <= 70
  {
    ArticleAcceptsExactly(body["title" := title], isEmail);
  }
}

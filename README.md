# blog-api, modelled in Dafny

This project models the decision logic of a small Express/Mongoose blog API:
- user registration and login, in the current controller and in an older one;
- user profiles and profile edits;
- a follow graph between users, and a feed of articles by followed authors;
- creating, listing, finding and deleting articles;
- the Joi request validators;
- the bearer-token guard;
- the two reply envelopes.

The database is modelled as values held by two store classes:
- `UserModel.UserStore` keeps a map from id to `User` and a counter for fresh ids;
- `ArticleModel.ArticleStore` keeps a sequence of `Article` in natural order.

Each handler that writes is a method on these stores that returns a `Reply`, a status with a JSON body. Each read-only handler is a function. Bcrypt, jsonwebtoken, the `slug` package, Joi's `email()` check and the text of Joi's messages are fields of a `Primitives.Lib`, a value of total functions. So every property holds whatever those functions are. Where a property needs bcrypt or JWT to behave, it says so as a condition (`BcryptSound`, `JwtSound`), in a lemma's `requires` or on the left of an implication.

Mongoose behaviour the model relies on:
- The `trim`/`lowercase` schema setters run when a document is built, when a `$set` update is cast, and when a query filter is cast. So lookups by username, email or slug compare normal forms (`Text.Normalize`, `Text.Lower`).
- A save runs the `required` validators first, then the pre-save hooks, then the insert.
- The unique indexes refuse an insert or update that repeats a username, email, title or slug.

Joi is a small schema engine (`Joi.Validate`):
- keys are checked in schema order;
- a missing required key, an empty string, and each rule in chain order give the first detail;
- unknown keys are reported only after all known keys pass.

The invariants kept by every store operation are:
- `UserModel.UsersInv`:
  - ids are keyed and fresh;
  - usernames and emails are unique and normalised;
  - `following`/`followers` have no duplicates;
  - every follow edge appears in both arrays;
  - nobody follows themselves.
- `ArticleModel.ArticlesInv`:
  - ids are distinct;
  - titles and slugs are unique;
  - every slug is derived from its title;
  - required fields are non-empty;
  - all articles share one `createdAt` (the store is one run of the server, starting from an empty collection).

## Model

| member | source | states |
|---|---|---|
| Response.Error | server/util/Response.js:12-19 | status is the code; body has exactly `status` and `errors`, and `errors.message` is the message |
| Response.Success | server/util/Response.js:30-36 | body has exactly `status`, `message`, `data`; `data` is passed through unchanged; no `errors` |
| Response.SuccessDefaultMessage | server/util/Response.js:30 | an omitted message is `'success'` |
| Response.Refusal | server/controllers/ArticleController.js:28 | the hand-written refusal: the status is the code, the body has `status: 'error'` and the message, and no `data` |
| Response.Found | server/controllers/ArticleController.js:94-108 | the hand-written result: the status is the code, the body has `status: 'success'` and the data |
| Response.EnvelopesDisjoint | server/util/Response.js:12-36 | an error body has no `data` and no top-level `message`, a success body has no `errors`, so the two never coincide |
| Joi.FirstViolated | server/validations/auth.js:6-10 | the index of the first rule of a chain the value fails, and every earlier rule holds |
| Joi.CheckKeys | server/validations/auth.js:22 | no detail exactly when every key accepts; otherwise the detail is from the first key that fails |
| Joi.Validate | server/validations/auth.js:22 | accepts exactly when every schema key accepts and no other key is present; an unknown-key detail comes only after every schema key has accepted, and holds keys the schema does not name |
| Joi.MissingRequiredRejected | server/validations/auth.js:10 | a missing required key is always rejected, whatever else the body holds |
| AuthValidation.ValidateSignup | server/validations/auth.js:4-23 | an accepted body has username, email and password |
| AuthValidation.ValidateLogin | server/validations/auth.js:25-39 | an accepted body has username and password |
| AuthValidation.SignupAcceptsExactly | server/validations/auth.js:4-23 | accepted iff only these keys, all present: alphanumeric username of length 3-30, email of length 5-30 in email form, alphanumeric password of length 5-30 |
| AuthValidation.LoginAcceptsExactly | server/validations/auth.js:25-39 | accepted iff only username and password, with the signup rules |
| AuthValidation.SignupUsernameBoundsInclusive | server/validations/auth.js:8-9 | for an alphanumeric username, acceptance is exactly length 3 to 30 inclusive |
| AuthValidation.SignupPasswordBoundsInclusive | server/validations/auth.js:18-19 | for an alphanumeric password, acceptance is exactly length 5 to 30 inclusive |
| AuthValidation.AcceptedUsernameHasNoSpace | server/validations/auth.js:6-7 | a username accepted by either validator has no white space, so stripping it is the identity |
| AuthValidation.SignupMissingFieldRejected | server/validations/auth.js:10-20 | a body missing username, email or password fails signup |
| AuthValidation.LoginRefusesEmail | server/validations/auth.js:25-39 | login takes no email: a body carrying one fails |
| AuthValidation.SignupCredentialsPassLogin | server/validations/auth.js:4-39 | the username and password accepted at signup pass login validation |
| UserValidation.ValidateUserProfile | server/validations/user.js:3-15 | an accepted body names no key but username, email and bio |
| UserValidation.ProfileAcceptsExactly | server/validations/user.js:3-15 | accepted iff only username/email/bio, each optional: username length 3-30, email length 5-30 in email form, bio length 5-255 |
| UserValidation.EmptyProfileAccepted | server/validations/user.js:3-15 | the empty body is accepted |
| UserValidation.ProfileUsernameMayHoldSpace | server/validations/user.js:5-7 | no alphanumeric rule here: `'a b'` is accepted |
| UserValidation.BioBoundsInclusive | server/validations/user.js:12-14 | a lone bio is accepted exactly at length 5 to 255 inclusive |
| ArticleValidation.ValidateArticle | server/validations/article.js:3-19 | an accepted body has title, description and body |
| ArticleValidation.ValidateComment | server/validations/article.js:21-29 | an accepted body has text |
| ArticleValidation.ArticleAcceptsExactly | server/validations/article.js:3-19 | accepted iff only title (5-70), description (5-150) and body (5-500), all required |
| ArticleValidation.CommentAcceptsExactly | server/validations/article.js:21-29 | accepted iff only text, of length 3-70 |
| ArticleValidation.TitleBoundsInclusive | server/validations/article.js:5-8 | with the other fields valid, a title is accepted exactly at length 5 to 70 inclusive |
| Text.Trim | server/models/User.js:15 | the result is an infix of the input with only white space before and after it, and has no white space at either end; a trimmed input is unchanged |
| Text.TrimOfPadded | server/models/User.js:15 | white space around a value without white space at its ends is exactly what is removed |
| Text.Normalize | server/models/User.js:15-17 | the stored form is the lower-cased infix left once the white space at both ends is cut off; it is trimmed and lower-case, and a value already in that form is unchanged |
| Text.NormalizeOfPadded | server/models/User.js:15-17 | a padded value is stored as its lower-cased core |
| Text.StripSpace | server/controllers/AuthController.js:27 | no white space is left, and a value without any is unchanged |
| Text.StripSpaceChar | server/controllers/AuthController.js:27 | one character is dropped exactly when it is white space |
| Text.StripSpaceAppend | server/controllers/AuthController.js:27 | stripping a concatenation strips each piece, so the other characters are kept in order |
| Text.ReplaceFirst | server/middleware/auth.js:10 | with no occurrence nothing changes; otherwise only the first occurrence, wherever it is, is replaced |
| MongoOps.AddToSet | server/controllers/UserController.js:97-103 | members are the old ones plus `x`; no duplicates are created; absent `x` is appended, present `x` changes nothing |
| MongoOps.Pull | server/controllers/UserController.js:134-140 | members are the old ones minus `x`; never longer; no duplicates are created |
| MongoOps.PullUndoesAddToSet | server/controllers/UserController.js:97-140 | pulling a value just added to a set where it was absent gives back the set |
| UserModel.UserDocument.constructor | server/models/User.js:12-34 | username and email are stored trimmed and lower-cased, the password trimmed |
| UserModel.UserDocument.PreSave | server/models/User.js:58-61 | the password field becomes the hash of what it held; nothing else changes |
| UserModel.UserStore.FindByUsername | server/controllers/UserController.js:86 | the lookup is the user holding that normal-form username |
| UserModel.UserStore.FindByEmail | server/controllers/AuthController.js:32 | the lookup is the user holding that normal-form email |
| UserModel.UserStore.Save | server/models/User.js:11-61 | an empty required field is refused with nothing hashed or stored; otherwise the password is hashed, and a taken username or email is refused with the store unchanged; otherwise exactly one user with a fresh id and empty arrays is added; the invariant is kept |
| UserModel.InsertKeepsInv | server/models/User.js:12-29 | inserting a fresh, normalised, non-clashing user keeps the whole user invariant |
| UserModel.ByUsernameIsTheOne | server/models/User.js:12-20 | under the unique index the lookup returns the one user with that name |
| UserModel.ComparePassword | server/models/User.js:67-69 | with a sound bcrypt, and passwords within bcrypt's 72 bytes, a password matches exactly when it is the one that was hashed |
| UserModel.GenerateToken | server/models/User.js:63-65 | with a sound JWT, the token verifies to the user's id and has no white space at its ends |
| UserModel.ApplyProfile | server/controllers/UserController.js:57 | a username or email in the body is stored as its trimmed, lower-cased form and a bio in the body replaces the bio; fields absent from the body and all other fields are unchanged; normal form is kept |
| UserModel.ApplyProfileKeepsInv | server/controllers/UserController.js:57-58 | an update with no clash on another user keeps the user invariant |
| UserModel.PublicFields | server/controllers/UserController.js:61-66 | the view carries id, username, email, and the bio when it is set, and never the password |
| UserModel.ValidateUser | server/models/User.js:73-90 | an accepted body has username, email and password |
| UserModel.ValidateUserAcceptsExactly | server/models/User.js:73-90 | accepted iff only username (3-50), email (5-255, email form) and password (5-255), all present |
| ArticleModel.SlugFor | server/models/Article.js:6-41 | the stored slug is lower-case and as long as the library's slug |
| ArticleModel.FindFirst | server/controllers/ArticleController.js:27 | the first article, in natural order, that satisfies the filter; none when no article does |
| ArticleModel.FindByTitle | server/controllers/ArticleController.js:27 | finds an article with exactly that title, and none only when no article has it |
| ArticleModel.FindBySlug | server/controllers/ArticleController.js:93 | finds an article whose slug is the lower-cased parameter, and none only when there is none |
| ArticleModel.RemoveId | server/controllers/ArticleController.js:130 | exactly the articles with other ids remain; a missing id changes nothing |
| ArticleModel.RemoveIdKeepsDistinct | server/controllers/ArticleController.js:130 | deleting keeps ids distinct |
| ArticleModel.ArticleDocument.constructor | server/models/Article.js:28-36 | tags default to empty, likes to empty, `createdAt` to the schema default |
| ArticleModel.ArticleDocument.PreSave | server/models/Article.js:39-41 | the slug is recomputed from the current title; nothing else changes |
| ArticleModel.ArticleStore.Delete | server/controllers/ArticleController.js:130 | `findByIdAndDelete`: the store becomes RemoveId of the old one and keeps the invariant |
| ArticleModel.ArticleStore.Save | server/models/Article.js:5-41 | a missing required field is refused with the store unchanged; otherwise the slug is set; a taken title or slug is refused with the store unchanged; otherwise exactly one article is appended; the invariant is kept |
| ArticleModel.AppendKeepsInv | server/models/Article.js:5-41 | appending a fresh well-formed non-clashing article keeps the article invariant |
| ArticleModel.AllShareCreatedAt | server/models/Article.js:33-36 | every stored article carries the one default timestamp |
| ArticleModel.FindBySlugIsTheOne | server/models/Article.js:6-10 | under the unique slug index, a stored article is found by its own slug |
| AuthMiddleware.ExtractToken | server/middleware/auth.js:10 | the token has no white space at its ends and is no longer than the header |
| AuthMiddleware.BearerRoundTrip | server/middleware/auth.js:10 | `'Bearer ' + t` yields `t` back for a trimmed `t` |
| AuthMiddleware.Authenticate | server/middleware/auth.js:8-24 | missing header or failed verify: one 401 `{error: 'Please authenticate!'}`, no `next`, request untouched; verified with user: token and user set, `next` once; verified without user: 400 sent, user set to null, `next` still once |
| AuthMiddleware.IssuedTokenResolves | server/middleware/auth.js:10-11 | with a sound JWT, the header built from a generated token verifies to that user's id |
| UserController.ProfileData | server/controllers/UserController.js:27-33 | the data carries id, username, email, my_articles, the bio exactly when it is set, and never the password |
| UserController.Profile | server/controllers/UserController.js:20-34 | 200 exactly when some user holds the normalised route username; otherwise 404 `'User with given username not found!'` |
| UserController.ProfileFindsUser | server/controllers/UserController.js:22-34 | a stored user is served with 200 under any spelling that normalises to its name |
| UserController.ProfileUnknownUser | server/controllers/UserController.js:24 | an unknown name is 404 `'User with given username not found!'` |
| UserController.FollowEdge | server/controllers/UserController.js:97-103 | the follow writes keep the set of users |
| UserController.UnfollowEdge | server/controllers/UserController.js:134-140 | the unfollow writes keep the set of users |
| UserController.FollowEffect | server/controllers/UserController.js:97-103 | a new follow appends the target to the actor's following and the actor to the target's followers; no other field or user changes |
| UserController.UnfollowEffect | server/controllers/UserController.js:134-140 | an unfollow removes exactly that one edge from both arrays, each array one shorter; no other field or user changes |
| UserController.FollowKeepsInv | server/controllers/UserController.js:97-103 | a follow between two distinct, unlinked users keeps the invariant, the mirror and set semantics included |
| UserController.UnfollowKeepsInv | server/controllers/UserController.js:134-140 | an unfollow of an existing edge keeps the invariant |
| UserController.FollowUnfollowRoundTrip | server/controllers/UserController.js:97-140 | follow then unfollow of the same pair restores the store exactly |
| UserController.FollowingDecidesFollowers | server/controllers/UserController.js:95 | under the mirror invariant, the actor's following decides the edge exactly as the target's followers would |
| UserController.WriteFollow | server/controllers/UserController.js:97-103 | the two `$addToSet` writes, one after the other, give the store FollowEdge describes and keep the invariant |
| UserController.Follow | server/controllers/UserController.js:81-109 | 404 unknown target, 403 self, 400 missing actor, 403 already following (from the actor's following alone), each with the store unchanged; else both writes and 200 |
| UserController.WriteUnfollow | server/controllers/UserController.js:134-140 | the two `$pull` writes, one after the other, give the store UnfollowEdge describes and keep the invariant |
| UserController.Unfollow | server/controllers/UserController.js:118-146 | the same ladder, 403 when not following; else both pulls and 200 |
| UserController.FollowReplyShape | server/controllers/UserController.js:105 | the follow reply is 200 with message `'success'` and data the string `'You just followed this user!'` |
| UserController.EditProfile | server/controllers/UserController.js:47-72 | 400 first detail, then 401 when the route username is not the actor's, then 404, then 400 on a clash, all with the store unchanged; else only the actor's record changes, to the body's username, email and bio in normal form, and 201 `'Profile updated!'` |
| UserController.Matching | server/controllers/UserController.js:161 | exactly the articles whose author is followed, each as many times as it is stored; none when nobody is followed |
| UserController.Insert | server/controllers/UserController.js:162 | inserting keeps the elements (as a multiset) and keeps newest-first order |
| UserController.SortNewestFirst | server/controllers/UserController.js:162 | a permutation, newest first |
| UserController.SortKeepsOrderOnTies | server/controllers/UserController.js:162 | with one shared timestamp the order is natural order |
| UserController.Page | server/controllers/UserController.js:163-164 | exactly those at offset 10·(page−1): 10 items while enough remain past the skip, all that remain otherwise, none past the end |
| UserController.FeedPageProperties | server/controllers/UserController.js:158-165 | a page has at most 10 stored articles by followed authors, newest first, and is the whole slice at offset 10·(page−1) of the sorted matches, 10 long whenever that many remain |
| UserController.FeedItem | server/controllers/UserController.js:166-179 | `tagsCount` and `favouritesCount` are the array lengths |
| UserController.Feed | server/controllers/UserController.js:155-190 | a page below 1 is 400; otherwise 200 with the page number, `count` equal to the number of items, and the items |
| UserController.FeedDefaultsToFirstPage | server/controllers/UserController.js:158 | no page means page 1 |
| UserController.FeedEmptyFollowingReply | server/controllers/UserController.js:161-186 | following nobody gives count 0 and empty data |
| AuthController.Signup | server/controllers/AuthController.js:18-49 | 400 first detail; username stripped, which is the identity on valid input; 403 email taken, then 403 username taken, then 400 on a failed save, all with the store unchanged; else exactly one user added and 201 `'Account created!'` with its token, username and email |
| AuthController.Login | server/controllers/AuthController.js:58-76 | read-only; the reply is 200, 400, 403 or 404, and 200 only for a valid body naming a stored user whose hash the password matches |
| AuthController.LoginLadder | server/controllers/AuthController.js:58-80 | 400 validation, then 404 unknown, then 403 wrong password, else 200 with `{token, user_id}` and `'welcome ' + username` |
| AuthController.AlnumIsTrimmed | server/validations/auth.js:17 | an alphanumeric password is unchanged by the trim setter |
| AuthController.SignupThenLogin | server/controllers/AuthController.js:38-76 | with sound bcrypt and JWT, a signed-up user logs in with the same credentials and gets a token verifying to its id |
| AuthController.LoginWrongPassword | server/controllers/AuthController.js:67-70 | with a sound bcrypt, any password other than the signup-valid one hashed is 403 |
| ArticleController.Projection | server/controllers/ArticleController.js:33-44 | `likesCount` is the length of `likes`; slug, id and author as stored |
| ArticleController.CreateArticle | server/controllers/ArticleController.js:17-50 | no validation, author from the body; a stored title is 400 `'Article exists!'`; a failed save is 400 `'an error occured'`; both leave the store unchanged; else exactly one article appended with the derived slug and 201 with its projection |
| ArticleController.GetAllArticles | server/controllers/ArticleController.js:59-81 | 200 with one projection per stored article, in order, each with `likesCount` the length of `likes` |
| ArticleController.GetArticleBySlug | server/controllers/ArticleController.js:90-112 | a match is 200 with its projection; no match is 400 `'an error occured'`, not 404 |
| ArticleController.SlugLookupFindsStored | server/controllers/ArticleController.js:93 | a stored article is found by its slug in any letter case |
| ArticleController.AuthoredBy | server/controllers/ArticleController.js:126 | the ids of exactly the articles whose author is the caller |
| ArticleController.DeleteGuardNeverFires | server/controllers/ArticleController.js:126-129 | the find result is an array and hence truthy, so the 401 guard never fires |
| ArticleController.DeleteArticle | server/controllers/ArticleController.js:121-135 | for every caller the article with that id is removed, and the reply is 204 even when no article had that id |
| ArticleController.CreatedIsFoundBySlug | server/controllers/ArticleController.js:30-93 | a created article is found again by its slug and is listed last |
| LegacyUserController.Signup | server/controllers/user.js:5-37 | 400 first detail; 400 `'User already registered.'` for a taken email or username, with no stripping; 400 on a failed save; store unchanged in each; else one user added and 201 with token, username and email |
| LegacyUserController.Login | server/controllers/user.js:39-56 | read-only; the reply is 200, 400 or 422, and 200 only when neither field is blank and a stored user with that name matches the password |
| LegacyUserController.LoginLadder | server/controllers/user.js:39-60 | 422 for a blank field before any lookup, 400 unknown user, 422 wrong password, else 200 with the greeting and the token |
| LegacyUserController.PaddedPasswordRefusedAtLogin | server/controllers/user.js:47-49 | with a sound bcrypt, a password of at most 72 bytes with white space at its ends, stored trimmed, is refused when sent again as at signup |
| LegacyUserController.PaddedPasswordPassesValidation | server/models/User.js:84-87 | such a password passes `validateUser` |
| LegacyUserController.Profile | server/controllers/user.js:62-78 | 200 exactly when some user holds the normalised name; otherwise 400 `'an error occured'` |
| LegacyUserController.ProfileLookup | server/controllers/user.js:62-79 | a stored user is 200 with its fields; an unknown name is 400, not 404 |
| LegacyUserController.EditProfile | server/controllers/user.js:81-105 | no validation or ownership check; 404 missing id; 400 clash; else only that user's record changes, to the body's username, email and bio in normal form, and 200 |

## Left out

- The internals of bcrypt, jsonwebtoken, `slug`, Joi's `email()` and Joi's message text are left out: they are cryptographic or library code, and the model treats them as abstract functions.
- Time-limited token expiry: left out because it depends on the wall clock, and so are the `SECRET`/`SECRET_KEY` environment variables.
- `Primitives.JwtSound`: one key signs and verifies, so the lemmas that rely on it (`UserModel.GenerateToken`, `AuthMiddleware.IssuedTokenResolves`, `AuthController.SignupThenLogin`) hold only where `SECRET` and `SECRET_KEY` hold the same value. The source signs with `SECRET_KEY` and verifies with `SECRET`.
- `Primitives.BcryptSound`: nothing is assumed about passwords longer than the 72 bytes bcrypt reads. Two such passwords that share their first 72 bytes match the same hash, and the model does not state this.
- What the model calls an `ObjectId` is a natural:
  - Casting of route and query parameters to ObjectIds is not modelled. A malformed id, which would make a query throw, is not modelled.
  - `AuthMiddleware.Authenticate`: a token whose payload is not a valid id counts as failing verification.
- Populate hooks are not modelled, so `my_articles` is the array of ids.
- Strict-mode stripping of unknown update keys is not modelled.
- Database failures are not modelled, so the `catch` branches that only such failures reach are not modelled.
- The records carry fields their schemas lack but the controllers read:
  - `following` and `followers` on users;
  - `favourites` and `comments` on articles.

  The run-time failure that the missing fields would cause is not modelled. The same goes for the default-import mismatch in `models/User.js`.
- The article store models one run of the server starting from an empty collection. `Date.now()` in the `createdAt` default is evaluated again each time the module loads, so articles saved by earlier runs carry older timestamps; a store holding those is not modelled, and `ArticleModel.AllShareCreatedAt` speaks of this one run only.
- The user schema's `image` field is not modelled, because no handler reads it.
- The two writes of follow and unfollow are modelled as sequential steps. Atomicity and concurrency are not modelled.
- `server/app.js`, the `routes/*.js` files and `server/models/Comment.js` are not part of this model: they are wiring and a schema with no behaviour.
- Joi.Validate: the unknown-key detail carries the set of all extra keys, while Joi's first detail names only the first extra key in body order. A map keeps no key order, so which key that is is not modelled.
- Request bodies are maps from names to strings. Non-string JSON values are not modelled; neither is Joi's type conversion.
- String lengths count code points rather than UTF-16 units.
- Lower-casing covers ASCII letters only.
- White space is the `\s` class.
- UserController.Feed: the page is echoed as a number, while the source echoes the query-string text unchanged.
- UserController.Feed: a non-numeric page is not modelled.
- UserController.SortNewestFirst: breaks ties in natural order. The database does not promise any order among equal timestamps, and since every article saved in one run has the same `createdAt` this tie-break decides the order among them.
- ArticleModel.FindByTitle: a request without a title matches no article. What the driver does with an `undefined` filter value is not modelled.
- ArticleModel.ArticleDocument.PreSave: assumes a title is present. The hook only runs after the `required` check has passed.
- ArticleController.DeleteArticle: the 204 reply is modelled with the body the code passes, although HTTP sends none. A caller whose `req.user` is null is not modelled.
- LegacyUserController.EditProfile: fields absent from the body are left unchanged. The source's update would write `null` into them through the `undefined` values. The filter is the route id taken as the target id; the source passes it where a filter object belongs.
- AuthMiddleware.Authenticate: the later failure to send a second response, after the 400 for a missing user, is not modelled. `req.user` being null in the handlers that follow is not modelled either.
- Handlers receive the authenticated user (`actor`) directly. Request parsing and `res` plumbing are left out.

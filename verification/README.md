# blog_app in Dafny

A model of the decision logic of a Next.js blog. It covers:

- **The authentication gate** (`lib/auth.ts`). It issues tokens, extracts the token from the `Authorization` header, resolves it to a stored user, and implements the `requireAuth` / `requireRole` wrappers.
- **The posts API** (`GET` and `POST /api/posts`) and the post schema.
- **The profile API** (`GET` and `PUT /api/users/profile`).
- **The two test endpoints**: bulk registration and admin creation.
- **The pure helpers of two client pages**: the create-post form and the feed page.

Every handler is a pure function of the collection it reads (a `map` from ObjectId to user, or a sequence of posts). The handlers that write (`CreatePost`, `UpdateProfile`, `RegisterUsers`, `CreateAdmin`) return the collection after the request together with their answer; the read-only ones (`GetPosts`, `GetProfile`) return only the answer. An answer is an HTTP response, a status plus either an error message or a data body, except for bulk registration, which answers 200 once connected to the database and is modelled by its `results` object alone. A data body holds the fields the handler sends, not the JSON nesting: `GetProfile`'s `{ user }` wrapper, for example, is left implicit.

Behaviour the model cannot see is passed in as a parameter:

- `jwt.sign` and `jwt.verify`;
- the full-text `$text` match;
- `comparePassword`;
- the ObjectId a new document receives;
- the time of a save.

JavaScript and Mongoose semantics are written out where the handlers depend on them:

- `trim` removes the ECMAScript whitespace set;
- a string is truthy when it is non-empty;
- `replace('Bearer ', '')` removes only the first occurrence, wherever it is;
- `Math.ceil(total / limit)` is computed on naturals;
- an ObjectId prints as 24 lower-case hex digits and casts back from 24 hex digits of either case; a failed cast is the exception path;
- a post's `save()` validates the post schema (trim, then required and maxlength), and every `save()` fails on a duplicate `_id`. In the posts and admin routes such a failure reaches the handler's catch block and becomes a 500. In bulk registration it becomes a `failed` entry carrying the error's message.

Modules, one per source file plus shared definitions:

- Shared definitions: `Wrappers`, `JsString`, `ObjectId`, `Http`, `UserModel`.
- Source-file modules: `PostModel`, `Auth`, `PostsRoute`, `ProfileRoute`, `RegisterUsersRoute`, `CreateAdminRoute`, `CreatePostPage` (the component in `app/profile/page.tsx` is the create-post form), `HomePage`.

## Model

| member | source | states |
|---|---|---|
| JsString.Trim | app/profile/page.tsx:29-35 | `trim` never lengthens a string, and a non-empty result starts and ends with a non-whitespace character |
| JsString.TrimIsInfix | models/Post.ts:16 | the trimmed value is an infix of the input with only whitespace before and after it |
| JsString.TrimEmptyIff | app/api/posts/route.ts:66 | a string trims to empty exactly when it consists of whitespace, the case the handler's `!title` check misses |
| JsString.TrimIdempotent | app/profile/page.tsx:61-62 | trimming an already trimmed value changes nothing, so the schema's trim keeps what the client sent |
| JsString.RemoveFirst | lib/auth.ts:33 | `replace` with a string pattern removes the first occurrence only, wherever it is, and returns the header whole when there is none |
| JsString.RemoveFirstOfPrefixed | lib/auth.ts:33 | `"Bearer " + token` becomes exactly `token` |
| ObjectId.CastToString | lib/auth.ts:15 | the cast of `_id.toString()` gives back the same id |
| ObjectId.ToStringInjective | lib/auth.ts:15 | different users get different `userId` claims |
| Auth.GenerateToken | lib/auth.ts:13-21 | a token is the signature of claims whose `userId` casts back to the user's id and whose email and role are the user's |
| Auth.TokenPayloadNamesUser | lib/auth.ts:13-18 | a token's claims are the user's id as a string, email and role |
| Auth.VerifyToken | lib/auth.ts:23-29 | `verifyToken` returns null exactly when verification throws, and the verified claims otherwise |
| Auth.ExtractToken | lib/auth.ts:33-37 | a missing header gives no token; otherwise the token is the header with its first `"Bearer "` removed, wherever it occurs, and an empty remainder gives none; a header without `"Bearer "` is passed on whole |
| Auth.GetCurrentUser | lib/auth.ts:31-49 | a user is found exactly when there is a token, it verifies, its `userId` casts and that id is stored; the result is that stored record without its password |
| Auth.RequireAuth | lib/auth.ts:51-63 | 401 `Authentication required` without a user; otherwise exactly the handler's response for the resolved user |
| Auth.MissingHeaderRejected | lib/auth.ts:33-37 | a request without an `Authorization` header gets 401 |
| Auth.BareBearerRejected | lib/auth.ts:33-37 | a header value of exactly `"Bearer "` leaves no token and gets 401 |
| Auth.RequireRole | lib/auth.ts:66-79 | 401 without a user; with a user, the handler's response when the user has the role or is an admin, and 403 `Insufficient permissions` otherwise |
| Auth.RequireRoleAuthenticatesFirst | lib/auth.ts:66-68 | without a user, `requireRole` answers 401, never 403 |
| Auth.RequireRoleDecision | lib/auth.ts:69-76 | with a user, the handler runs when the user has the role or is an admin; otherwise the answer is 403 `Insufficient permissions` |
| Auth.RolesAdmitted | lib/auth.ts:69 | `requireRole('user')` admits every user, and `requireRole('admin')` admits only admins |
| Auth.IssuedTokenAuthenticates | lib/auth.ts:13-49 | a token issued for a stored user, sent as `Bearer <token>`, resolves to that user |
| Auth.StaleClaimsIgnored | lib/auth.ts:44 | the user comes from the store by `userId`; the email and role in the claims play no part |
| Auth.DeletedUserRejected | lib/auth.ts:44-60 | a valid token for a user no longer stored gets 401 |
| PostModel.Validate | models/Post.ts:13-23 | no violation exactly when the trimmed title is non-empty and at most 200 characters and the trimmed content is non-empty; the two title errors exclude each other |
| PostModel.ValidateTrimmed | models/Post.ts:13-23 | validation gives the same result whether or not the values were trimmed first |
| PostModel.NewPost | models/Post.ts:11-33 | building the document and validating it succeeds exactly when validation passes (the duplicate `_id` failure of `save()` is the handler's); the built document has the trimmed fields, the given author, both timestamps set, and satisfies the schema |
| PostsRoute.PageCount | app/api/posts/route.ts:46 | `pages * limit >= total`, `(pages - 1) * limit < total` when `total > 0`, and no pages when there are no posts |
| PostsRoute.SortNewestFirst | app/api/posts/route.ts:33 | the result is ordered by `createdAt` descending and is a permutation of the input |
| PostsRoute.Find | app/api/posts/route.ts:20-31 | a post is returned exactly when it is in the collection and matches the search and the author, and each matching post as often as it is stored, so `total` counts the matches |
| PostsRoute.Window | app/api/posts/route.ts:34-35 | `skip`/`limit` return the posts from position `skip`: `limit` of them on a full page, the rest on the last page, none beyond |
| PostsRoute.FeedPage | app/api/posts/route.ts:17-47 | the page holds the sorted matches from `(page - 1) * limit` on, at most `limit` of them; `total` counts all matches and `pages` is its ceiling |
| PostsRoute.AuthorFilter | app/api/posts/route.ts:26-31 | no author given means no author filter; a given author filters on its ObjectId cast, and one that does not cast is the failure path |
| PostsRoute.GetPosts | app/api/posts/route.ts:7-56 | page and limit default to 1 and 10; a page below 1 or an author that is not an ObjectId gives 500; otherwise the page of the query's matches, each in the collection and matching |
| PostsRoute.EveryMatchOnItsPage | app/api/posts/route.ts:17-46 | paging covers the feed: match `i` is entry `i % limit` of page `i / limit + 1`, and that page is within `pages` |
| PostsRoute.CreatePost | app/api/posts/route.ts:59-106 | a falsy title or content gives 400, an untrimmed title over 200 gives 400, a save that fails, because the schema rejects the trimmed values or the `_id` is in use, gives 500, and no post is stored on any of these; a created post has the user as author and the trimmed fields, and the answer is 201 |
| PostsRoute.CreatePostAccepts | app/api/posts/route.ts:66-98 | a request that passes the handler's checks and the schema's, with a free id, is answered 201 |
| PostsRoute.WhitespaceTitleIsServerError | app/api/posts/route.ts:66-105 | a title of one space is answered 500 and nothing is stored |
| PostsRoute.CreatePostChecked | models/Post.ts:14-22 | with the required check made on trimmed values, a missing or blank title or content gives 400 `Title and content are required`, an over-long title 400, a free id 201, and 500 happens exactly for an id collision |
| PostsRoute.CheckedAgreesOtherwise | app/api/posts/route.ts:66-98 | the corrected handler differs from the original only on blank titles and contents |
| ProfileRoute.GetProfile | app/api/users/profile/route.ts:8-22 | the profile is sent exactly when the requester resolves, and it is the resolved record without the password; otherwise 401 |
| ProfileRoute.ProfileIsStoredRecord | app/api/users/profile/route.ts:13-20 | the profile read with a user's token has that user's id, name, email, role and timestamps |
| ProfileRoute.UpdateProfile | app/api/users/profile/route.ts:33-105 | an unknown user gives 404 and an email held by another user gives 400; any error leaves the store unchanged; a request that passes the email check and, when it sets a password, gives the correct current one and a new one of at least 6 characters is saved with 200; on success only the requester's record changes, keeping its id, role and timestamps, with name, email and password replaced exactly when truthy values are given |
| ProfileRoute.PasswordChecksInOrder | app/api/users/profile/route.ts:63-85 | a missing current password is reported first, then a wrong one, then a short new one |
| ProfileRoute.OwnEmailIsNoConflict | app/api/users/profile/route.ts:50-58 | sending one's own email is not an email conflict |
| ProfileRoute.UpdateKeepsEmailsUnique | app/api/users/profile/route.ts:50-90 | an update keeps every user under its own id and no two users share an email |
| UserModel.AddUserKeepsEmailsUnique | app/api/test/create-admin/route.ts:28-44 | inserting a user with an unused id and an unused email keeps the store well formed and emails unique |
| RegisterUsersRoute.RegisterOne | app/api/test/register-users/route.ts:19-61 | an existing email fails with `User already exists`; a new email with an `_id` in use fails with the duplicate key error; a new email with a free `_id` succeeds; failures leave the store unchanged, and a success stores a user built from the input alone |
| RegisterUsersRoute.RegisterAll | app/api/test/register-users/route.ts:18-62 | one entry per input, and existing users are never changed |
| RegisterUsersRoute.EntryAt | app/api/test/register-users/route.ts:18-62 | the entry of input `i` is one iteration on the store the earlier inputs left |
| RegisterUsersRoute.ExistingEmailFails | app/api/test/register-users/route.ts:21-28 | an input whose email was stored before the batch fails with `User already exists` |
| RegisterUsersRoute.NoEmailFromNowhere | app/api/test/register-users/route.ts:18-62 | after a batch, every stored email was stored before it or is the email of an input |
| RegisterUsersRoute.NewInputSucceeds | app/api/test/register-users/route.ts:18-54 | an input whose email is new to the store and to every earlier input, with a free `_id`, is registered |
| RegisterUsersRoute.SuccessIsNewUser | app/api/test/register-users/route.ts:30-54 | a successful input had a new email, its user is built from name, email and password only, and it is stored |
| RegisterUsersRoute.EmailSucceedsOnce | app/api/test/register-users/route.ts:18-37 | within one batch, any later input with an email that already succeeded fails |
| RegisterUsersRoute.RegisterKeepsEmailsUnique | app/api/test/register-users/route.ts:18-62 | registration keeps the store well formed and emails unique |
| RegisterUsersRoute.EveryEntryCounted | app/api/test/register-users/route.ts:11-15 | every entry is counted in exactly one of `successful` and `failed` |
| RegisterUsersRoute.SuccessPositions | app/api/test/register-users/route.ts:51-54 | `successful` lists the successful entries at strictly increasing input positions |
| RegisterUsersRoute.RegisterUsers | app/api/test/register-users/route.ts:7-67 | the answer reports the per-input loop: the store it leaves, its successful and its failed entries in input order; `total` is the number of inputs and equals `successful` plus `failed`; existing users are kept; every success had a new email |
| RegisterUsersRoute.ListTestUsers | app/api/test/register-users/route.ts:79-88 | `count` is the number of test users, and each entry has exactly that user's name and email |
| CreateAdminRoute.CreateAdmin | app/api/test/create-admin/route.ts:6-73 | missing fields, then a short password, then an existing email each give 400 in that order, leaving the store unchanged; a valid body with an unused email is created with 201 when its `_id` is free and answered 500 otherwise; a success stores an admin built from the body and answers 201 without the password |
| CreateAdminRoute.CreateAdminKeepsEmailsUnique | app/api/test/create-admin/route.ts:28-44 | admin creation keeps the store well formed and emails unique |
| CreateAdminRoute.CreatedAdminPassesRoleChecks | app/api/test/create-admin/route.ts:36-47 | the created admin's token passes `requireRole` for both roles |
| CreatePostPage.ValidateForm | app/profile/page.tsx:26-41 | the title gets an error exactly when its trim is empty or over 200 characters, with `Title is required` taking precedence; the content gets one exactly when its trim is empty |
| CreatePostPage.FormValidIff | app/profile/page.tsx:40 | the form is valid exactly when the schema's validation would pass |
| CreatePostPage.Submit | app/profile/page.tsx:43-63 | an invalid form sends nothing; a valid one sends the trimmed title and content |
| CreatePostPage.SubmittedFormIsAccepted | app/profile/page.tsx:60-63 | what the form sends passes the server's checks and, with a free id, creates a post with exactly the trimmed title and content |
| HomePage.TruncateContent | app/page.tsx:76-79 | content of at most `maxLength` characters is unchanged; longer content is cut to `maxLength` characters followed by `...` |
| HomePage.TruncateKeepsPrefix | app/page.tsx:76-79 | a preview starts with the first `min(length, maxLength)` characters of the content and is at most `maxLength + 3` long |
| HomePage.PageButtons | app/page.tsx:186 | the buttons are exactly `1..pages` in increasing order |
| HomePage.ShowNav | app/page.tsx:175 | the pagination bar is shown exactly when the server reports more posts than fit on one page |
| HomePage.MoreThanOnePage | app/api/posts/route.ts:46 | `Math.ceil(total / limit)` exceeds 1 exactly when `total` exceeds `limit` |
| HomePage.PreviousDisabled | app/page.tsx:178-180 | Previous is disabled exactly on page 1, so from a page within range it never leads below 1 |
| HomePage.NextDisabled | app/page.tsx:200-202 | Next is disabled exactly on the last page, so from a page within range it never leads beyond `pages` |
| HomePage.NavigationStaysInRange | app/page.tsx:175-206 | from a page in `1..pages`, every enabled control leads to a page in `1..pages` |
| HomePage.FetchQuery | app/page.tsx:36-48 | a fetch asks for the given page, ten posts per page, the search term and no author |
| HomePage.FetchedFeed | app/page.tsx:36-53 | a fetch receives the page of the search term's matches from every author, ten per page, and 500 for a page below 1 |
| HomePage.ChangePage | app/page.tsx:72-74 | a page change sets the current page and keeps the search term |
| HomePage.SubmitSearch | app/page.tsx:66-70 | a search resets the page to 1 and fetches page 1 with the same term |
| HomePage.SearchFetchesFirstPage | app/page.tsx:36-70 | a submitted search shows the newest ten matches of the term, newest first, as page 1 with the total number of matches |

## Left out

- Signing and verifying JWTs, including the secret and the 7-day expiry, are the `sign` and `verify` parameters. `IssuedTokenAuthenticates` assumes that `verify` accepts what `sign` produced.
- Password hashing and `comparePassword` are left out because the user model is not part of this model. The comparison is a parameter. Nothing is claimed about the default role a new user receives: it is a parameter of the bulk registration.
- `$text` search semantics are the `textMatch` parameter. `populate` and `dbConnect` are left out as database plumbing.
- The race between the `findOne` email check and `save` is a concurrency effect. Handlers are modelled one request at a time.
- Save timestamps are left out. `createdAt` and `updatedAt` are set to one `now` per save. A profile update keeps the stored timestamps as they were, and the time Mongoose would write on that save is not modelled.
- `RegisterUsers` gives all users of one batch the same `now`.
- The `message` string of bulk registration is not modelled. It only repeats the two counts.
- `PostsRoute.GetPosts` requires `limit >= 1`. A `limit` of 0, a negative limit and `NaN` from `parseInt` are not modelled: `.limit(0)` means no limit and `Math.ceil(total / 0)` is not a number, neither of which has a counterpart over naturals. A page below 1 is modelled.
- Non-numeric `page` values are not modelled. `parseInt` is applied before the model: the query holds `Some(n)` for a parsed value and `None` for a missing or empty parameter.
- Ties in `createdAt` are left open. The sort fixes no order among posts created at the same moment, and the model fixes one (insertion order) without claiming it.
- The 12-byte string form of ObjectId casts is not modelled. Only 24-hex-digit strings cast.
- String lengths count characters, not UTF-16 code units.
- A malformed JSON body is not modelled. Absent body fields are `None`. Body fields that are present but not strings (a number, an array or an object as `title`, say) are not representable: every present field is a string.
- React state, effects, `fetch` and rendering are left out. From the client pages the model keeps only the pure helpers and the requests they send.
- ProfileRoute.UpdateProfile does not model a save that the user schema rejects, because the user schema is not part of this model. Such a save would reach the catch block and be answered 500; the model never answers 500.
- RegisterUsersRoute.RegisterOne models only a duplicate `_id` as a failed save. A save that the user schema rejects would give a `failed` entry with the error's message (or `Registration failed` for an empty one); the user schema is not part of this model.
- CreateAdminRoute.CreateAdmin models only a duplicate `_id` as a failed save answered 500. A save that the user schema rejects is not modelled, for the same reason.
- RegisterUsersRoute.RegisterOne reports a duplicate `_id` with the constant `DuplicateKey`, the start of MongoDB's E11000 error text. The real `error.message` goes on to name the collection, the index and the key, which the model does not know.
- Header parsing is left out. `Request.authorization` is the value `req.headers.get('authorization')` returns, already stripped of surrounding whitespace by the Fetch `Headers` class, so a sent `"Bearer "` arrives as `"Bearer"` and is rejected by verification rather than by the empty-token branch.
- The test-register page and the single-post page and route are outside this model.
- HomePage.NextDisabled states the button rule as written (`currentPage === pages`). The page is not reset when the search term changes, so a current page beyond `pages` leaves Next enabled. Only navigation from a page within range is proved.

## Findings

| source | as written | input that shows it | evidently intended | confidence | as-written member | corrected member |
|---|---|---|---|---|---|---|
| app/api/posts/route.ts:66-71 with models/Post.ts:14-22 | The required check tests the untrimmed `title` and `content`. The schema then trims them, `required` rejects the empty result, and the thrown `ValidationError` is answered 500 `Internal server error`. | `{ "title": " ", "content": "text" }` | 400 `Title and content are required`, as for an empty title | medium, not executed | PostsRoute.WhitespaceTitleIsServerError | PostsRoute.CreatePostChecked |

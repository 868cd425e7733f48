# Conduit blog: route actions and loaders in Dafny

This project models the server side of a "Conduit" blogging platform. Users
register, sign in and out, edit their settings and publish articles. They
comment on articles, favourite posts and follow other users. Each route of
the application has an `action` (a form submission that may change the
store or the session) and a `loader` (a read for rendering). This model
states and proves the rules these handlers follow.

- **Store** (`store.dfy`): the relational database as a class `Db`. Each
  table is a `seq` field: users, posts, comments, Favourite rows and Follow
  rows. Users, posts and comments get ids from one counter per table.
  Emails and slugs are unique columns, so an insert that would repeat one
  fails. The join tables are compared as multisets of rows.
- **Session** (`sessions.dfy`): the cookie session as a class over a
  `map<string, int>`, with `get`, `set` and `unset`.
- **JavaScript semantics** (`js_string.dfy`, `js_number.dfy`): `trim`,
  `toUpperCase` on method names, `startsWith` and `join`. Also
  `parseInt` without a radix, as in ECMA-262 section 19.2.5 (leading
  white space, optional sign, `0x` prefix, longest digit run, NaN). NaN is
  `None`.
- **Toggle actions** (`favourites.dfy`, `following.dfy`): the guards run in
  the handler's own order. Then `exists` decides between `deleteMany` and
  `create` (`Store.Toggled`).
- **Feed** (`global_feed.dfy`): the `page`/`pageSize` normalisation, the
  newest-first skip/take page, the total, and the per-viewer favourite flag.
- **Feed layout** (`articles_layout.dfy`): the popular-tags query as a
  count over every post's tags, sorted by count and cut after ten rows.
  Also the feed tabs.
- **Comments and article page** (`comments.dfy`, `article_layout.dfy`):
  comment creation and deletion, the two opposite comment orders, and the
  page's meta description, title and keywords.
- **Profile page** (`profile_layout.dfy`): the id parsing, the 404s, the
  `following` and `ownProfile` flags and the tabs.
- **Accounts** (`register.dfy`, `login.dfy`, `logout.dfy`, `settings.dfy`,
  `editor.dfy`): the validators, the email-uniqueness gate, the credential
  match, the omit-empty partial update and the post insert.
- **Header** (`layout.dfy`, `links.dfy`): which navigation links are shown
  and which is active.

Actions are methods on the `Db` and `Session` objects. Their `modifies`
clauses name exactly the tables and the session they may change. Loaders
are pure functions of the tables: a `$transaction` read is one snapshot.
Foreign code is a parameter of type `Common.Foreign`, a record of
uninterpreted functions: zod's `email()` and `url()` checks, bcrypt's
`hash` and `compare`, and `slugify`. The clock reading the store puts in
`createdAt` is a parameter `now`.

When the ORM throws, the result is `Reply.Thrown`. This covers `delete` of
a missing comment, `update` of a missing user, a unique-constraint
violation and zod's `.parse` rejecting a missing field. Session user
checks follow each handler: some use `== null`, others the truthiness
test `session.data.user ? …`, under which user id 0 counts as absent
(`Forms.Truthy`).

## Model

| member | source | states |
|---|---|---|
| `FavouritesRoute.Check` | app/routes/Favourites.tsx:9-21 | A missing or non-numeric `id` gives 400, and so does a missing session user. Both input checks run before the method check, so a valid non-POST request gives 404. The request proceeds iff all three pass, with the row (post id, session user) |
| `FavouritesRoute.Action` | app/routes/Favourites.tsx:6-46 | A rejected request answers as `Check` says and leaves the Favourite table unchanged. An accepted request toggles exactly that row, and nothing else in the store changes |
| `FavouritesRoute.ToggleFlips` | app/routes/Favourites.tsx:23-45 | After the toggle the pair is favourited iff it was not before. Every other (post, user) pair keeps its number of rows |
| `Store.Toggled` | app/routes/Favourites.tsx:28-45 | If a matching row exists, none remains afterwards. Otherwise exactly one exists afterwards. The count of every other row is unchanged |
| `Store.ToggleTwiceRestores` | app/routes/Favourites.tsx:28-45 | Starting from at most one matching row, two toggles give back the original table |
| `Store.ToggleKeepsRowsUnique` | app/routes/Following.tsx:28-42 | A join table without duplicate rows keeps none after a toggle |
| `Store.RemoveAll` | app/routes/Following.tsx:29-34 | `deleteMany` leaves no row matching the key |
| `Store.RemoveAllCount` | app/routes/Favourites.tsx:29-34 | `deleteMany` keeps every non-matching row as often as it was there |
| `FollowingRoute.Check` | app/routes/Following.tsx:9-21 | A missing session user is checked first and gives 400. A missing or non-numeric target id then gives 400, and a non-POST request 404. Otherwise the request proceeds with the row (session user, target) |
| `FollowingRoute.Action` | app/routes/Following.tsx:6-43 | A rejected request leaves the Follow table unchanged. An accepted request toggles exactly that ordered pair |
| `FollowingRoute.SelfFollowAccepted` | app/routes/Following.tsx:18-42 | A POST that names the session user's own id goes through to the toggle of the row (u, u): self-follow is not rejected |
| `FollowingRoute.LowerCasePostAccepted` | app/routes/Following.tsx:21 | The method is compared case-insensitively, so `post` is accepted |
| `Forms.ParseIdFieldOfId` | app/routes/Favourites.tsx:10-16 | A decimal id, as the hidden form input writes it, is read back as that id |
| `JsNumber.ParseInt` | app/routes/Articles/GlobalFeed.tsx:18 | White space alone, or a first character that is neither a digit nor a sign, gives NaN |
| `JsNumber.ParseIntIff` | app/routes/Articles/GlobalFeed.tsx:18 | The result is a number iff, after leading white space and an optional sign, a decimal digit follows (and a `0x` prefix is followed by a hexadecimal digit); otherwise NaN. The number is at most 0 after `-` and at least 0 otherwise |
| `JsNumber.ParseIntOfIntToString` | app/routes/Articles/GlobalFeed.tsx:18 | `parseInt` reads back the decimal rendering of any integer, whatever non-digit text follows |
| `JsNumber.ParseIntOfDigits` | app/routes/Articles/GlobalFeed.tsx:18 | Any run of decimal digits, leading zeros included, reads as its value, whatever non-digit text follows |
| `JsNumber.ParseIntOfSignedDigits` | app/routes/Articles/GlobalFeed.tsx:18 | The same run after `+` reads as its value, and after `-` as its negation |
| `JsNumber.ParseIntLeadingZero` | app/routes/Articles/GlobalFeed.tsx:18 | A leading zero changes nothing: `"007"` reads as `"7"` does |
| `JsNumber.ParseIntSkipsSpace` | app/routes/Articles/GlobalFeed.tsx:18 | Leading white space never changes the result of `parseInt` |
| `JsNumber.IntToStringInjective` | app/routes/Layout.tsx:73-74 | Distinct ids give distinct path segments |
| `GlobalFeed.QueryNumber` | app/routes/Articles/GlobalFeed.tsx:13-28 | The result is always at least 1 and has no upper bound. A parameter that is absent, empty, NaN or below 1 gives the fallback. Otherwise the result is `parseInt` of the string |
| `GlobalFeed.PageOfNumber` | app/routes/Articles/GlobalFeed.tsx:13-28 | Any page or page size of 1 or more, written in decimal, is taken as is |
| `GlobalFeed.NonPositiveFallsBack` | app/routes/Articles/GlobalFeed.tsx:16-27 | Zero and negative numbers give page 1 and page size 5 |
| `GlobalFeed.Newest` | app/routes/Articles/GlobalFeed.tsx:77-79 | The result is a permutation of all posts, ordered by `createdAt` descending |
| `GlobalFeed.FavouritersOf` | app/routes/Articles/GlobalFeed.tsx:71-75 | A user is listed iff a Favourite row links them to the post |
| `GlobalFeed.Paginate` | app/routes/Articles/GlobalFeed.tsx:77-81 | The page is the newest-first list from `skip = pageSize*(page-1)`, with at most `take = pageSize` posts. Its length is `min(pageSize, max(0, total - skip))`. It is newest first and holds only stored posts |
| `GlobalFeed.Loader` | app/routes/Articles/GlobalFeed.tsx:31-95 | The returned page and page size are the normalised values, both at least 1. `total` counts every post, whatever the page. The posts are that page. The viewer is looked up whenever the session holds a user |
| `GlobalFeed.DefaultPage` | app/routes/Articles/GlobalFeed.tsx:13-82 | Without query parameters the page is the first `min(5, total)` posts, newest first |
| `GlobalFeed.DisabledIffNoViewer` | app/routes/Articles/GlobalFeed.tsx:129 | The favourite button is disabled iff there is no viewer, meaning no session user or no row for them |
| `GlobalFeed.FavouritedIff` | app/routes/Articles/GlobalFeed.tsx:133-135 | A post shows as favourited iff there is a viewer and a Favourite row (post, viewer) exists |
| `GlobalFeed.ToggleFlipsHeart` | app/routes/Articles/GlobalFeed.tsx:133-135 | The favourite action flips the viewer's heart on that post and no other viewer's heart on any post |
| `GlobalFeed.FavouriteAddsOne` | app/routes/Articles/GlobalFeed.tsx:66-70 | Favouriting a post not yet favourited by the viewer raises its favourite count by exactly one |
| `ArticlesLayout.OccurrencesConcat` | app/routes/Articles/Layout.tsx:19-24 | A tag's count over two lists of posts is the sum of its counts over each |
| `ArticlesLayout.UnnestKeepsRepeats` | app/routes/Articles/Layout.tsx:19-24 | For the posts `[a,b]`, `[a]`, `[c,c]` the counts are a:2, b:1 and c:2. `UNNEST` does not de-duplicate within a post |
| `ArticlesLayout.GroupsPermutation` | app/routes/Articles/Layout.tsx:19-24 | Any order of the groups has one row per occurring tag, and each row holds that tag's true count |
| `ArticlesLayout.PrefixIsTopTags` | app/routes/Articles/Layout.tsx:25-26 | The first ten rows of the groups, sorted by count descending, are a valid answer to the query |
| `ArticlesLayout.TopTags` | app/routes/Articles/Layout.tsx:13-27 | The result has at most 10 rows with distinct tags. Each count is that tag's number of occurrences and at least 1. Counts do not increase down the list. No omitted tag has a higher count than a listed one, and with fewer than 10 rows no tag is omitted |
| `ArticlesLayout.TopTagsListOnlyUsedTags` | app/routes/Articles/Layout.tsx:19-26 | Every tag in a valid answer occurs in some post |
| `ArticlesLayout.Loader` | app/routes/Articles/Layout.tsx:10-43 | The tags are a valid answer to the tag query. The viewer is looked up as in the root layout |
| `ArticlesLayout.ShownTabs` | app/routes/Articles/Layout.tsx:54-94 | The tabs shown, in order: Global Feed, then Your Feed with a viewer or the sign-in invitation without one, then the tag's tab on a tag route |
| `ArticlesLayout.TabVisibility` | app/routes/Articles/Layout.tsx:61-77 | 'Your Feed' is shown iff there is a viewer, and 'Sign in to see Your Feed' iff there is none. A third tab is shown iff `params.tag` is non-empty |
| `Links.VisibleMember` | app/routes/Layout.tsx:88-90 | Exactly the links that are not hidden are rendered |
| `Links.VisibleCount` | app/routes/Layout.tsx:88-90 | A shown link is rendered as often as it is listed, and a hidden one never |
| `Links.VisibleConcat` | app/routes/Layout.tsx:88-90 | Filtering keeps the order: the shown links of a first part come before those of a second |
| `RootLayout.Loader` | app/routes/Layout.tsx:10-24 | The viewer `{id, name}` is present iff the session user is truthy and has a row |
| `RootLayout.SignedOutLinks` | app/routes/Layout.tsx:37-90 | Without a viewer the header shows Home, Sign In and Sign Up, in that order |
| `RootLayout.SignedInLinks` | app/routes/Layout.tsx:37-90 | With a viewer the header shows Home, New Post, Settings and the viewer's profile link under their name, in that order. Home is active on `/`, on `/your-feed` and on `/` followed by the tag. The profile link is active when the pathname starts with the profile path, as written |
| `RootLayout.ProfileActiveAsWrittenOvermatches` | app/routes/Layout.tsx:74 | Under the `startsWith` rule, `/profile/12` activates user 1's profile link in the header. The intended rule does not |
| `RootLayout.ProfileActiveExact` | app/routes/Layout.tsx:73-74 | Under the intended rule, the profile page of user b, or any page below it, activates user a's link iff a = b |
| `ArticleComments.Action` | app/routes/Article/Comments.tsx:23-67 | Without a session user the answer is 401, with no change. A POST with invalid input gives 400 and creates nothing. A valid POST adds exactly one comment, by the session user, with the trimmed content. A DELETE without an id throws. A DELETE with a non-numeric id gives `{error: 'Invalid input'}` and deletes nothing. A DELETE with a numeric id removes that comment whoever wrote it, and throws if there is none. Any other method gives 404. The store stays consistent |
| `ArticleComments.DeleteIgnoresAuthor` | app/routes/Article/Comments.tsx:61 | Deleting by id removes a comment written by someone else and keeps every comment with another id |
| `ArticleComments.DeleteOwn` | app/routes/Article/Comments.tsx:200 | The deletion the delete control implies happens iff the requester wrote a comment with that id |
| `ArticleComments.DeleteOwnSparesOthers` | app/routes/Article/Comments.tsx:200 | Under `DeleteOwn` nobody can remove a comment written by someone else |
| `ArticleComments.NewestFirst` | app/routes/Article/Comments.tsx:90-92 | The result is a permutation of the comments, ordered by `createdAt` descending |
| `ArticleComments.Loader` | app/routes/Article/Comments.tsx:69-114 | A missing slug gives 404. Otherwise the result is the post's comments, newest first, and the viewer for a truthy session user |
| `ArticleComments.DeleteControlOwnOnly` | app/routes/Article/Comments.tsx:200 | The delete control shows on a comment iff the viewer exists and wrote that comment |
| `ArticleLayout.OldestFirst` | app/routes/Article/Layout.tsx:38-40 | The result is a permutation of the comments, ordered by `createdAt` ascending |
| `ArticleLayout.OppositeOrders` | app/routes/Article/Layout.tsx:38-40 | The article page and the comment thread show the same comments. When no two comments share a timestamp, the two orders are exact reverses |
| `ArticleLayout.Loader` | app/routes/Article/Layout.tsx:7-49 | A missing slug gives 404. Otherwise the result is the post, its author, and its comments oldest first |
| `ArticleLayout.MetaDescription` | app/routes/Article/Layout.tsx:52-54 | The result never exceeds 160 characters. A description of at most 157 characters is its trimmed self. One of at most 160 characters is its trimmed text cut to 157 characters, with no `...`. One of more than 160 characters is cut to its first 157 trimmed characters followed by `...` |
| `ArticleLayout.MetaDescriptionDropsSilently` | app/routes/Article/Layout.tsx:52-54 | Every description of at most 160 characters whose trimmed text is longer than 157 is shortened with no ellipsis |
| `ArticleLayout.DropsSilentlyOn159` | app/routes/Article/Layout.tsx:52-54 | A 159-character description loses two characters and gets no ellipsis |
| `ArticleLayout.MetaDescriptionIntended` | app/routes/Article/Layout.tsx:52-54 | At most 160 characters. The trimmed text is emitted whole iff it fits; otherwise its first 157 characters and `...` |
| `ArticleLayout.IntendedNeverCutsSilently` | app/routes/Article/Layout.tsx:52-54 | A shortened intended description always ends in `...` after exactly the first 157 characters |
| `ArticleLayout.Title` | app/routes/Article/Layout.tsx:57 | The title is the post title followed by ` \| Blog` |
| `ArticleLayout.Keywords` | app/routes/Article/Layout.tsx:66 | With no empty tag, the keywords are all the tags, in order, joined by `, ` |
| `ArticleLayout.KeywordsSkipEmpty` | app/routes/Article/Layout.tsx:66 | An empty tag anywhere leaves no trace in the keywords |
| `ProfileLayout.FollowersOf` | app/routes/Profile/Layout.tsx:29-33 | A user is listed iff a Follow row points from them to the given user |
| `ProfileLayout.Loader` | app/routes/Profile/Layout.tsx:10-58 | A non-numeric id gives 404 whatever the store holds. A missing profile gives 404. Otherwise the result is that user's profile with its followers, and the viewer only for a truthy session user with a row |
| `ProfileLayout.ProfileControl` | app/routes/Profile/Layout.tsx:63-115 | The settings link shows iff the viewer's id equals the profile's id. Otherwise the follow form targets the profile. The label is 'Unfollow' iff `following` as written holds, meaning the viewer's own followers include the viewer |
| `ProfileLayout.ProfileControlIntended` | app/routes/Profile/Layout.tsx:95-115 | The same control with the intended flag: the label is 'Unfollow' iff the profile's followers include the viewer |
| `ProfileLayout.SignedOutSeesFollow` | app/routes/Profile/Layout.tsx:63-64 | Without a viewer every profile offers a 'Follow' button |
| `ProfileLayout.FollowingIff` | app/routes/Profile/Layout.tsx:63 | The intended `following` holds iff there is a viewer and the Follow row (viewer, profile) exists |
| `ProfileLayout.FollowingAsWrittenIgnoresProfile` | app/routes/Profile/Layout.tsx:63 | The flag as written is the same on every profile the same viewer visits |
| `ProfileLayout.FollowingAsWrittenMissesFollow` | app/routes/Profile/Layout.tsx:63 | User 1 follows user 2, yet on user 2's profile the flag as written is false and the button reads Follow. The intended flag is true and the intended button reads Unfollow |
| `ProfileLayout.FollowFormTargetsProfile` | app/routes/Profile/Layout.tsx:103-105 | The follow form's id is read back by the follow action as the target, giving the row (viewer, profile) |
| `ProfileLayout.ToggleFlipsFollowing` | app/routes/Profile/Layout.tsx:63 | Toggling the row (viewer, profile) flips the intended flag on the reloaded page |
| `ProfileLayout.TabsActive` | app/routes/Profile/Layout.tsx:66-81 | Both tabs are shown. A tab is active iff the pathname equals its path exactly, so at most one is active |
| `EditorRoute.NewPost` | app/routes/Editor.tsx:58-76 | The inserted row holds the session user, the trimmed title, description and content (each within its bounds), the tags as given, and the slug of the trimmed title |
| `EditorRoute.Action` | app/routes/Editor.tsx:46-79 | A non-POST request gives 404, checked before auth. No truthy session user gives `{error: 'Not authenticated'}`. Invalid input gives 400. In each of these cases no post is created. Otherwise exactly one post is inserted and the request redirects to `/article/` followed by the slug. A slug already taken makes the insert throw |
| `RegisterRoute.NewUser` | app/routes/Register.tsx:38-47 | The new row stores the trimmed name, the email, and the hash of the trimmed password |
| `RegisterRoute.Action` | app/routes/Register.tsx:22-56 | A non-POST request gives 404 and invalid input 400. A taken email gives `{error: 'Email is already taken'}`, with no user created and the session unchanged. Otherwise exactly one user is created, the session user becomes the new id, and emails stay unique |
| `Store.AppendKeepsUsersValid` | app/routes/Register.tsx:31-47 | Appending a user with the next id and an unused email keeps ids and emails unique |
| `LoginRoute.Authenticate` | app/routes/Login.tsx:32-42 | A match names an account with that email whose password hash `compare` accepts |
| `LoginRoute.AuthenticateIff` | app/routes/Login.tsx:32-54 | Sign-in succeeds as `id` iff some account has that email and id and a matching hash. An unknown email and a wrong password fail alike |
| `LoginRoute.Action` | app/routes/Login.tsx:22-55 | A non-POST request gives 404 and invalid input 400, with the session unchanged. On a match the session user is set to the account's id and the request redirects to `/`. Otherwise the answer is `{error: 'Account not found'}` with the session unchanged |
| `LogoutRoute.Action` | app/routes/Logout.tsx:6-17 | A DELETE, in any letter case, removes the `user` key, even when it is absent, keeps every other key, and redirects to `/`. Any other method gives 404 with the session unchanged |
| `SettingsRoute.Decode` | app/routes/Settings.tsx:16-29 | The bio, name and password are the trimmed inputs, and the email and image are as given. Each is empty or within its bound: bio 4..100, name 2..50, email at most 200, image at most 500, password 8..150 |
| `SettingsRoute.TrimmedOrEmptyBounds` | app/routes/Settings.tsx:18-27 | An accepted trimmed field is empty or within its bounds |
| `SettingsRoute.ApplyFields` | app/routes/Settings.tsx:37-44 | An empty field keeps the stored value. A non-empty field overwrites it. The password changes only when given, and then to its hash |
| `SettingsRoute.ApplyNothing` | app/routes/Settings.tsx:37-44 | A form with every field empty changes nothing |
| `SettingsRoute.ApplyTwice` | app/routes/Settings.tsx:37-44 | Without a password, applying the same form twice is applying it once |
| `SettingsRoute.UpdateWhereId` | app/routes/Settings.tsx:39-48 | Only the row with the session user's id changes |
| `SettingsRoute.UpdateKeepsUsersValid` | app/routes/Settings.tsx:39-48 | The update keeps ids and emails unique when the new email is not another account's |
| `SettingsRoute.HasUserIff` | app/routes/Settings.tsx:39-48 | The row search succeeds iff some row has the id |
| `SettingsRoute.Update` | app/routes/Settings.tsx:39-48 | The update fails iff there is no session user, no row with its id, or the new email is another account's |
| `SettingsRoute.Action` | app/routes/Settings.tsx:31-51 | Invalid input gives 400 with no change. There is no method or auth guard: the update either throws with no change or rewrites the user row and answers `{ok: true}` |
| `Store.FindUser` | app/routes/Layout.tsx:14-20 | `findUnique` by id returns a row with that id, or nothing when no row has it |
| `Store.FindUserByEmail` | app/routes/Login.tsx:32-40 | `findUnique` by email returns a row with that email, or nothing when no row has it |
| `Store.FindPostBySlug` | app/routes/Article/Layout.tsx:8-11 | `findUnique` by slug returns a post with that slug, or nothing when no post has it |
| `Store.SameEmailSameUser` | app/routes/Login.tsx:32-34 | Under the unique email column, two rows with one email are the same row |
| `Store.OfPost` | app/routes/Article/Comments.tsx:77-92 | A post's `comments` relation holds exactly the comment rows with that post id, each as often as in the table |
| `Store.HasCommentWithId` | app/routes/Article/Comments.tsx:61 | The lookup the delete performs is true iff a comment has the id |
| `Store.AppendKeepsPostsValid` | app/routes/Editor.tsx:64-76 | Appending a post with the next id and an unused slug keeps ids and slugs unique |
| `Store.AppendKeepsCommentsValid` | app/routes/Article/Comments.tsx:35-44 | Appending a comment with the next id keeps comment ids unique |
| `Store.SubTableKeepsCommentsValid` | app/routes/Article/Comments.tsx:61 | Removing comment rows keeps comment ids unique and below the counter |
| `Store.Db.SetUsers` | app/routes/Settings.tsx:39-48 | The User table becomes the updated rows, and the store stays consistent |
| `SettingsRoute.Apply` | app/routes/Settings.tsx:37-44 | The updated row keeps its id |
| `SettingsRoute.HeldByOtherIff` | app/routes/Settings.tsx:39-48 | The unique-email clash test holds iff another account has the email |
| `Sessions.Session.Get` | app/routes/Favourites.tsx:9 | `get` gives the stored value iff the key is set |
| `Store.Db.CreateComment` | app/routes/Article/Comments.tsx:35-44 | Appends one comment under the next id |
| `Store.Db.DeleteComment` | app/routes/Article/Comments.tsx:61 | Removes the comment with the id iff one exists, and otherwise fails with no change |
| `Store.DropComment` | app/routes/Article/Comments.tsx:61 | Exactly the comments with another id remain |
| `Store.Db.CreatePost` | app/routes/Editor.tsx:64-76 | Appends one post under the next id, unless the slug is taken |
| `Store.Db.CreateUser` | app/routes/Register.tsx:38-47 | Appends one user under the next id, unless the email is taken |
| `Sessions.Session.Set` | app/routes/Login.tsx:45 | `set` binds the key and leaves the other keys alone |
| `Sessions.Session.Unset` | app/routes/Logout.tsx:8 | `unset` removes only the key |
| `JsString.TrimOfPadded` | app/routes/Editor.tsx:33-39 | Trimming returns the core of a string, whatever white space surrounds it |
| `JsString.TrimIdempotent` | app/routes/Article/Comments.tsx:19 | Trimming twice is trimming once |

## Left out

- Rendering, markup and styling. This includes the page-number list of the pagination component and the date formatting.
- Cookie parsing and serialisation. The session is a map, and committing it is not modelled.
- The decoding of forms and query strings into fields. A field arrives as an `Option`, absent when the form lacks it.
- bcrypt, `slugify`, and zod's `email()` and `url()`: their code is not available, so they are uninterpreted functions.
- Concurrency between requests and `$transaction` isolation. Each action is one atomic step, and each loader reads one snapshot.
- The database schema is not part of this model. The `followers` relation is taken to be the Follow rows whose `followingId` is the user. Unique email and slug columns are assumed. Foreign keys and cascades are not modelled.
- The feed loaders for your-feed, tag and profile articles or favourites are not part of this model, and neither are the Settings and Editor page loaders.
- `JsString.IsMethod`: only ASCII letters are upper-cased. JavaScript's `toUpperCase` is full Unicode (`ſ` becomes `S`), which no HTTP method token exercises.
- JavaScript's `.length` counts UTF-16 code units. Strings here are sequences of characters.
- `JsNumber.ParseInt` returns the exact integer. JavaScript rounds values beyond 2^53, and `pageSize * (page - 1)` is a floating-point product.
- `GlobalFeed.Loader` does not model the author's `{id, name, image}` selection. Items carry the post row and the ids of the users who favourited it.
- `ArticleComments.Loader` does not model the `{id, name, image}` selection of each comment's author. Comments carry their `userId`.
- `ArticleLayout.Loader` does not model the `{id, name, image}` selection of the author and of each comment's author. The page carries the author's full row, and comments carry their `userId`.
- `ArticleLayout.Loader` leaves out the canonical URL. The `og:*`, `twitter:card` and publication-time meta entries are left out as well.
- `ArticlesLayout.TopTags` picks one order for rows with equal counts: order of first occurrence, since the sort is stable (`Seqs.SortByTies`). The query promises none, so `IsTopTags` admits every order.
- `GlobalFeed.Newest` keeps posts with equal `createdAt` values in table order, since the sort is stable (`Seqs.SortByTies`). The database promises no order for ties, so the contract states only the descending order and the permutation.
- `ArticleLayout.Keywords` states the join only when no tag is empty. `ArticleLayout.KeywordsSkipEmpty` covers empty tags.
- Uncaught store failures other than those listed under `Reply.Thrown` (lost connections, timeouts) are not modelled.

## Findings

| source | as written | input that shows it | evidently intended | confidence | as-written member | corrected member |
|---|---|---|---|---|---|---|
| app/routes/Profile/Layout.tsx:63 | `following` tests whether the viewer's own followers include the viewer | user 1 follows user 2 and opens user 2's profile: the button says Follow | test the profile's followers for the viewer | high, not executed | `ProfileLayout.FollowingAsWrittenMissesFollow` | `ProfileLayout.ToggleFlipsFollowing` |
| app/routes/Layout.tsx:74 | the profile link is active when the pathname starts with `/profile/` and the id | user 1 on `/profile/12` sees their own profile link active | the profile page itself or a page below it | high, not executed | `RootLayout.ProfileActiveAsWrittenOvermatches` | `RootLayout.ProfileActiveExact` |
| app/routes/Article/Layout.tsx:52-54 | 157 trimmed characters, with `...` only when the untrimmed length exceeds 160 | a 159-character description loses two characters with no ellipsis | the whole trimmed text when it fits in 160, else 157 characters and `...` | high, not executed | `ArticleLayout.MetaDescriptionDropsSilently` | `ArticleLayout.IntendedNeverCutsSilently` |
| app/routes/Article/Comments.tsx:61 | DELETE removes any comment by id, with no ownership check | user 2 deletes user 1's comment by posting its id | delete only one's own comment, as the delete control at line 200 suggests | medium, not executed | `ArticleComments.DeleteIgnoresAuthor` | `ArticleComments.DeleteOwnSparesOthers` |

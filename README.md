# LiReddit core, modelled in Dafny

This project models the parts of the LiReddit discussion-board backend that hold logic rather than
wiring, and proves properties of them:

- **Voting** (`vote` in `src/resolvers/post.ts`). The `updoot` table is a map from its composite primary
  key (userId, postId) to the vote's value. The `post` table is a map from id to post, and each post
  carries its `points`. A vote normalises its input to ±1. It then inserts the ledger entry and adds the
  value to the post's points, in one transaction. A repeated (userId, postId) violates the primary key.
  A missing post violates the foreign key. Either failure rolls the whole transaction back. The class
  `PostStore` keeps, as its invariant, that every post's points equal the sum of the ledger values
  recorded for it (`VoteLedger.Score`). A store is built over existing post and vote tables that
  already agree in this way, since creating posts is not part of this model.
- **Feed** (`posts`, `excerpt`). Pure functions over the rows of the post table. Optionally keep the
  rows older than the cursor, sort them newest first, fetch `min(50, limit) + 1` of them, return the first
  `min(50, limit)` and report `hasMore`.
- **`updatePost`**. A title update on the post table. It returns the record read *before* the update,
  so the returned post still has the old title.
- **Loaders** (`createUserLoader`, `createUpdootLoader`). The batch functions only: a loop fills a
  dictionary from the fetched rows, then every requested key is answered in request order. The updoot
  loader keys its dictionary by the string `userId|postId`. The model proves that this encoding is
  injective, and the loop's proof relies on that.
- **Registration validation** (`validateRegister`). An ordered chain of four guards. The first guard
  that fails alone decides the one field error.
- **Account flows** (`changePassword`, `forgotPassword`, `me`, `register`, `login` in
  `src/resolvers/user.ts`). The class `AccountStore` holds the user table, the password-reset token
  store and the session's user id.

Behaviour of the code that the model keeps, quirks included:

- `vote` treats every value other than -1 as an upvote. There is no branch for an existing vote: a
  second vote on the same post fails. It is neither a no-op nor a flip.
- `posts` with `limit = -1` asks the database for `LIMIT 0`. It returns no posts and `hasMore = true`.
  With `limit < -1` the database refuses the negative `LIMIT` and the query fails.
- `me` treats a session user id of 0 as "not logged in", because 0 is falsy in JavaScript.
- `changePassword` returns the user row read before the password update.
- `register` writes `err.code = ERROR_CODE.USER_EXIST`, an assignment and not a comparison. So every
  insert failure is reported as "This username has already been taken.", including a duplicate email.

External functions are parameters: the password hash, `argon2.verify`, `isValidEmail`, the reset token
(a UUID) and the id the database assigns to a new user. The prefix `FORGET_PASSWORD_PREFIX` is a
constructor parameter of `AccountStore`, because the constants file is not part of this model.

Files: `wrappers.dfy` (Option, Result, dictionary lookup), `entities.dfy` (records), `keyed_rows.dfy` (the dictionary a `forEach` fills), `vote_ledger.dfy`,
`post_resolver.dfy`, `validate_register.dfy`, `user_loader.dfy`, `updoot_loader.dfy`, `user_resolver.dfy`.

## Model

| member | source | states |
|---|---|---|
| `VoteLedger.ScoreRemove` | src/entities/Updoot.ts:18-32 | A post's score, the sum of the ledger values for it, is the chosen entry's contribution plus the score of the rest, whichever entry is chosen. |
| `VoteLedger.ScoreInsert` | src/resolvers/post.ts:65-70 | Adding a fresh entry (u, p) with value v raises the score of post p by v and leaves every other post's score unchanged. |
| `PostResolver.NormalizeVote` | src/resolvers/post.ts:52-53 | The recorded value is always +1 or -1, and it is -1 exactly when the input is -1 (so 0 and 5 count as upvotes). |
| `PostResolver.VotePreservesConsistency` | src/resolvers/post.ts:62-73 | If every post's points equal its ledger sum before a vote, inserting a fresh ±1 entry and adding it to that post's points keeps this true for every post. |
| `PostResolver.PostStore.Vote` | src/resolvers/post.ts:47-76 | Succeeds iff the (userId, postId) key is new and the post exists. On success the ledger gains exactly that entry and only that post's points change, by the normalised value (`AddPoints`, the `set points = points + …` update). On failure neither table changes. The points/ledger-sum invariant holds after every call. |
| `PostResolver.RepeatedVoteFails` | src/resolvers/post.ts:62-73 | After a successful vote, a second vote by the same user on the same post fails, whatever its value. The entry keeps the first value and the post's points grew by that value only. |
| `PostResolver.PostStore.UpdatePost` | src/resolvers/post.ts:152-163 | A missing id gives null and changes nothing. Otherwise it returns the record as it was before the update, and only that post's title changes, when a title is given. The ledger never changes. |
| `PostResolver.SliceTo` | src/resolvers/post.ts:129 | JavaScript `slice(0, end)`: the result is a prefix of the input, its length is clamped to the input's length, and a negative end counts from the back. |
| `PostResolver.Excerpt` | src/resolvers/post.ts:41-43 | The excerpt is the prefix of the text of length min(175, length), and it is the whole text when the text has at most 175 characters. |
| `PostResolver.RealLimit` | src/resolvers/post.ts:86 | The page size is at most 50 and at most the requested limit, and equals one of the two. |
| `PostResolver.Eligible` | src/resolvers/post.ts:104 | A row is eligible iff it is in the table and, when a cursor is given, strictly older than the cursor (`OlderThan`, the `where p."createdAt" < $2` filter). |
| `PostResolver.EligibleMultiplicity` | src/resolvers/post.ts:104 | The filter keeps each eligible row exactly as often as the table holds it and drops every other row, so the eligible count is the number of eligible table rows. |
| `PostResolver.InsertByDate` | src/resolvers/post.ts:105 | Inserting into a newest-first sequence keeps it newest first and adds exactly the one row. |
| `PostResolver.OrderByNewest` | src/resolvers/post.ts:105 | The sorted rows are ordered by `createdAt` descending and are a permutation of the input. |
| `PostResolver.Fetch` | src/resolvers/post.ts:93-107 | The query returns min(n, eligible count) rows. They are the first rows of the sorted eligible rows, newest first, and each is a table row older than the cursor. |
| `PostResolver.Posts` | src/resolvers/post.ts:79-132 | Fails iff limit < -1. With limit -1 it returns no posts and hasMore = true. Any page is newest first, has at most 50 posts, and holds only table rows older than the cursor. |
| `PostResolver.PostsPage` | src/resolvers/post.ts:86-130 | For limit >= 0 the page holds the newest min(min(50, limit), eligible count) eligible rows, and hasMore is true iff more than min(50, limit) rows are eligible. |
| `RegisterValidation.ReturnErrors` | src/utils/validateRegister.ts:4 | A one-element error list carrying the given field and message. |
| `RegisterValidation.ValidateRegister` | src/utils/validateRegister.ts:6-25 | Null iff the email is valid, the username has at least 3 characters and no '@', and the password has at least 6. Any error is a single-element list whose field is 'email', 'username' or 'password'. |
| `RegisterValidation.FirstFailure` | src/utils/validateRegister.ts:7-22 | The result is null iff every check passes. Otherwise it is the error of a failing check before which every check passes. |
| `RegisterValidation.ValidateRegisterReportsFirstFailure` | src/utils/validateRegister.ts:7-24 | `validateRegister` returns exactly the error of the first failing check in the order email, username length, '@', password length. |
| `RegisterValidation.ShortUsernameReportedBeforeAt` | src/utils/validateRegister.ts:9-16 | With a valid email, a username shorter than 3 characters that contains '@' gets the length message, not the '@' message. |
| `Wrappers.Get` | src/utils/createUserLoader.ts:19 | A dictionary read gives the stored value, or "missing" exactly when the key is absent. |
| `KeyedRows.LastWithKey` | src/utils/createUserLoader.ts:17 | What a dictionary filled by `forEach` holds under a key: missing iff no row has the key, otherwise a row with that key after which no row has it (the later row wins). Both batch functions are specified with it. |
| `UserLoader.BatchLoadUsers` | src/utils/createUserLoader.ts:14-20 | The result has one entry per requested id, in request order. Entry i is the last fetched user whose id is userIds[i] (`LastWithKey` on `UserId`), or missing. |
| `UpdootLoader.NatToString` | src/utils/createUpdootLoader.ts:17 | The decimal form of a natural number is non-empty, made of digits, and has at least two digits from 10 on. |
| `UpdootLoader.IntToString` | src/utils/createUpdootLoader.ts:17 | The decimal form of an integer is non-empty, starts with '-' iff the integer is negative, and never contains the separator bar. |
| `UpdootLoader.NatToStringInjective` | src/utils/createUpdootLoader.ts:17 | Distinct natural numbers have distinct decimal forms. |
| `UpdootLoader.IntToStringInjective` | src/utils/createUpdootLoader.ts:17 | Distinct integers have distinct decimal forms. |
| `UpdootLoader.BarEndsFirstPart` | src/utils/createUpdootLoader.ts:17 | In s, bar, t where s has no bar, the first bar stands right after s. |
| `UpdootLoader.KeyStringInjective` | src/utils/createUpdootLoader.ts:17-20 | Equal userId-bar-postId strings (`KeyString`, the template string) come from equal (userId, postId) pairs, so distinct pairs never collide in the dictionary. |
| `UpdootLoader.KeyOfInjective` | src/utils/createUpdootLoader.ts:20 | Distinct vote keys have distinct dictionary keys (`KeyOf`, the key written at line 17 and read at line 20). |
| `UpdootLoader.BatchLoadUpdoots` | src/utils/createUpdootLoader.ts:12-21 | The result has one entry per requested key, in request order. Entry i is the last fetched vote whose (userId, postId) equals keys[i] (`LastWithKey` on `VoteKeyOf`), or "no vote". |
| `UserResolver.FindOne` | src/resolvers/user.ts:169-173 | `findOne` gives a row that matches the condition, or null exactly when no row matches. |
| `UserResolver.FindByIdIsUnique` | src/resolvers/user.ts:50 | With unique ids, looking a user up by id finds the one row with that id. |
| `UserResolver.SetPassword` | src/resolvers/user.ts:56-61 | The update keeps every row's id, username and email. Exactly the rows with the given id get the new password, and every other row keeps its password. |
| `UserResolver.LoginWhere` | src/resolvers/user.ts:169-173 | An identifier containing '@' is looked up as an email, any other as a username. |
| `UserResolver.AccountStore.ChangePassword` | src/resolvers/user.ts:33-69 | A new password under 6 characters gives a `newPassword` error. A missing token key gives 'Token expired'. A vanished user gives 'User no longer exists'. Each error changes nothing. Otherwise only that user's password becomes hash(newPassword), the session holds that user, the token key is deleted, and the row read before the update is returned. |
| `UserResolver.ResetTokenIsSingleUse` | src/resolvers/user.ts:42-66 | Replaying a token after a successful password change gives 'Token expired', and the user table stays as the first change left it. |
| `UserResolver.AccountStore.ForgotPassword` | src/resolvers/user.ts:72-96 | Always true. An unknown email leaves the token store unchanged. A known email adds exactly prefix + token → that user's id. Users and session never change. |
| `UserResolver.AccountStore.Me` | src/resolvers/user.ts:99-106 | Returns a user exactly when the session holds a non-zero id of an existing user, and then that user. |
| `UserResolver.AccountStore.Register` | src/resolvers/user.ts:109-161 | Validation errors are returned before any insert and change nothing. Any conflicting insert (`InsertConflicts`: a clash on the id, the username or the email) is reported as a taken username and changes nothing. Otherwise the row with the hashed password is appended and the session holds its id. |
| `UserResolver.AccountStore.Login` | src/resolvers/user.ts:164-199 | An unknown user gives a `usernameOrEmail` error and a failed password check gives a `password` error. Only success sets the session, to the user found. The tables never change. |

## Left out

- Server bootstrap, GraphQL schema wiring, the context type and the ORM entity mapping: wiring only.
- `sendEmail`: SMTP I/O. `forgotPassword` is modelled without the email it sends.
- The DataLoader library's batching, deduplication and per-request cache: the library's source is not part of this model. Only the two batch functions are modelled.
- Transactions are single atomic steps. Concurrent votes and isolation levels are not modelled.
- Hashing (`argon2.hash`, `argon2.verify`), `isValidEmail` (its pattern is not part of this model) and UUID generation are parameters.
- Redis expiry of reset tokens (three days) is not modelled. The un-awaited `redis.del` is modelled as done before the response.
- Parsing is not modelled: `parseInt` of the cursor and of the stored user id, and `Date` conversion. Integers are taken directly. An empty cursor string, which JavaScript treats as "no cursor", is a `None` cursor here.
- The author join of the feed query is not modelled. Every post is assumed to have an existing author, as the `authorId` foreign key ensures.
- `deletePost`, `createPost`, `post`, `logout` and `session.destroy`: plain CRUD and session plumbing.
- Column widths are not modelled: `points` and the ids are unbounded integers, not 32-bit database integers.
- The foreign key from `updoot.userId` to the user table is not modelled. The voter comes from an authenticated session, and the vote model does not hold the user table.
- `register`: insert failures other than a primary-key or unique-column conflict (lost connections and the like) are not modelled. The source would report them as a taken username too.
- The record files `User.ts`, `Post.ts` and `UsernamePasswordInput.ts` are not part of this model. Their fields are taken from how the resolvers use them.
- PostResolver.OrderByNewest: the database leaves the order of rows with equal timestamps open. The model fixes one admissible order, which keeps table order among equal timestamps.
- UpdootLoader.IntToString: JavaScript prints integers of magnitude 10^21 and above in exponent notation, and this is not modelled.
- PostResolver.Excerpt, RegisterValidation.ValidateRegister, UserResolver.AccountStore.ChangePassword: string lengths and `slice` count Dafny characters, not UTF-16 code units. A text of 100 emoji is cut to 87 emoji and a lone surrogate by JavaScript, but kept whole here.

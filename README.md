# Identity lifecycle and comment listing — a Dafny model

This project models the two parts of the blog platform API that carry real logic.

- **The identity lifecycle of `AuthRepository`** (`src/auth/auth.repository.ts`). A user record holds
  login, email, password hash and salt, a confirmation code and an `isConfirmed` flag. The operations are:
  - credential check (`verifyUser`);
  - registration, which also sends a confirmation mail;
  - email confirmation, a one-way false→true switch;
  - the confirmation check;
  - password recovery and confirmation resend, which both replace the code;
  - password reset, which replaces the hash and salt;
  - the profile read (`getMe`).
- **The paginated listing of `CommentsRepository.getAll`** (`src/comments/comments.repository.ts`). It
  defaults the parameters, turns the sort direction into ±1, computes `skip` and `pagesCount`, and returns
  the page window of the collection in sort order. It also covers the `createComment` / `deleteComment`
  store updates.

Layout:

- `options.dfy` — `Option`, standing for `null`/`undefined`.
- `search.dfy` — module `Search`: `FirstIndex`, the first element of a sequence satisfying a predicate.
  The user finders and the comment deletion both pick their record with it.
- `users.dfy` — module `Users`: the stored user record, and the UsersRepository finders as `Find`. `Find`
  returns the first record in storage order that matches, which is what `findOne` does.
- `identity.dfy` — module `Identity`: one pure function per AuthRepository operation. Each maps the store
  before the call to an `Outcome`: the return value, the store after the call, and the mail handed to the
  mail sender. The module also holds the lemmas about these functions. They cover single calls, call
  pairs and any sequence of calls.
- `auth.dfy` — module `Auth`: class `AuthRepository`, with the user store `users` and the mails sent so far
  `outbox` as fields. Its methods look a record up and assign its fields in place. Each method's
  postcondition ties the result and the new state to the `Identity` function of the same name.
- `ordering.dfy` — module `Ordering`: the order a one-field sort uses. Strings compare lexicographically,
  and a missing field comes first.
- `comment_types.dfy` — module `CommentTypes`: the records of `src/types/comments.ts`.
- `comments.dfy` — module `Comments`: the listing as functions with lemmas, and class
  `CommentsRepository` over the stored collection.

Collaborators the code calls but does not define become parameters:

- `HashService.comparePassword` is the `comparePassword` function the repository is built with.
- The pair `HashService.generateHash` returns is the `hashed` / `generated` argument.
- The value `uuid.v4()` returns is the `code` argument. Lemmas that depend on it being new say
  `FreshCode`: non-empty and held by nobody.
- The mail sender's answer is the `mailResult` argument.
- A comment's `id` and `createdAt` (`setId`, `setDateOfCreatedAt`) are arguments.
- Whether the store's `countDocuments` and `find` succeeded is the `storageOk` argument.

On these points the model follows the code:

- Defaults apply only to absent parameters. Nothing checks that a value is valid.
- An empty `sortBy` or `sortDirection` (a falsy string, line 25) leaves the sort record empty. The
  collection then comes back in storage order.
- `newPassword` never invalidates the recovery code. `NewPasswordCodeReusable` shows that the same code
  works again.
- `deleteOne` removes at most one comment: the first one with that id.
- The `catch` at lines 49-51 returns `[]`. The model returns the distinct `StorageFailure` there, so a
  failure can never be mistaken for an empty page.

## Model

| member | source | states |
|---|---|---|
| `Search.FirstIndex` | src/auth/auth.repository.ts:20 | None iff no element satisfies the predicate; otherwise the index of a satisfying element with none before it (the record findOne and deleteOne pick) |
| `Users.Find` | src/auth/auth.repository.ts:20 | the result is None iff no user matches; otherwise it is the index of a matching user with no match before it |
| `Identity.VerifyUser` | src/auth/auth.repository.ts:19-36 | null when nobody matches the login or email, null when the password comparison fails; otherwise exactly the user found first, which matches and whose hash accepts the password |
| `Identity.Register` | src/auth/auth.repository.ts:38-47 | exactly one user is appended, unconfirmed, with the given login, email, id, creation time, generated hash and salt, and the fresh code; a confirmation mail goes to that email with that code; earlier users are untouched |
| `Identity.ConfirmEmail` | src/auth/auth.repository.ts:49-64 | true iff some user holds the code and it is not yet confirmed; on false nothing changes; on true exactly the first record holding the code (in storage order) changes, and only its isConfirmed (to true); afterwards checkIsConfirmedEmail holds iff the code was known |
| `Identity.CheckIsConfirmedEmail` | src/auth/auth.repository.ts:66-78 | false for an unknown code; true iff the first user in storage order holding the code is confirmed (when several users share the code, that first holder decides); with distinct codes, true iff the holder of the code is confirmed |
| `Identity.RecoveryPassword` | src/auth/auth.repository.ts:80-94 | false, store unchanged and no mail for an unknown email; otherwise exactly the first user with that email (in storage order) has its code replaced by the fresh one, a recovery mail goes to the email with the new code, and the mailer's answer is returned |
| `Identity.NewPassword` | src/auth/auth.repository.ts:96-114 | true iff some user holds the code; on false the store is unchanged; on true exactly the first holder of the code (in storage order) gets the generated hash and salt and nothing else changes |
| `Identity.GetMe` | src/auth/auth.repository.ts:116-128 | null iff no user has the id; otherwise exactly {userId, email, login} of the first user with that id |
| `Identity.ResendConfirmationEmail` | src/auth/auth.repository.ts:130-148 | null, store unchanged and no mail for an unknown email or an already-confirmed user; otherwise the first user with that email, being unconfirmed, has its code replaced, a confirmation mail goes out with the new code, and the mailer's answer is returned |
| `Identity.ConfirmEmailTwice` | src/auth/auth.repository.ts:49-63 | a second confirmEmail with the same code always returns false |
| `Identity.RegisterThenConfirm` | src/auth/auth.repository.ts:38-78 | after registering with a fresh code, checkIsConfirmedEmail is false, confirmEmail with that code returns true, and the check is then true |
| `Identity.SignUpThenLogIn` | src/auth/auth.repository.ts:19-63 | register, then confirm with the mailed code, then log in: the right password yields the new user (now confirmed), a wrong one yields null |
| `Identity.NewPasswordCodeReusable` | src/auth/auth.repository.ts:96-114 | a code that opened newPassword opens it again, because newPassword leaves the code in place |
| `Identity.RecoveryThenNewPassword` | src/auth/auth.repository.ts:80-114 | the code mailed by recoveryPassword opens newPassword for exactly the user found by email; that user then holds the new code, hash and salt, and everyone else is unchanged |
| `Identity.NewPasswordThenLogIn` | src/auth/auth.repository.ts:96-114 | after newPassword with a hash that accepts the password, the first holder of the code (when its login finds it) logs in with that password and gets its updated record |
| `Identity.RecoveryRevokesOldCode` | src/auth/auth.repository.ts:80-93 | with distinct codes, after recoveryPassword the user's previous code opens neither newPassword nor confirmEmail |
| `Identity.StepEvolves` | src/auth/auth.repository.ts:38-148 | a single state-changing call removes no user, never changes id, login, email or createdAt, and never sets isConfirmed back to false |
| `Identity.RunEvolves` | src/auth/auth.repository.ts:38-148 | the same holds over any sequence of state-changing calls |
| `Identity.StepKeepsUniqueCodes` | src/auth/auth.repository.ts:38-148 | if no two users share a confirmation code and the call hands out a fresh code (register, recoveryPassword, resendConfirmationEmail via `v4()`), no two users share a code afterwards |
| `Identity.RunKeepsUniqueCodes` | src/auth/auth.repository.ts:38-148 | the same holds over any sequence of state-changing calls whose every handed-out code is fresh when it is handed out |
| `Identity.OnlyConfirmEmailConfirms` | src/auth/auth.repository.ts:80-148 | register, recoveryPassword, newPassword and resendConfirmationEmail leave every existing user's isConfirmed as it was; register adds an unconfirmed user |
| `Auth.AuthRepository.constructor` | src/auth/auth.repository.ts:13-17 | the repository starts over the given store with the given comparePassword and an empty outbox |
| `Auth.AuthRepository.VerifyUser` | src/auth/auth.repository.ts:19-36 | returns what Identity.VerifyUser gives for the current store and changes nothing |
| `Auth.AuthRepository.Register` | src/auth/auth.repository.ts:38-47 | the store becomes Identity.Register's store, and its confirmation mail is appended to the outbox |
| `Auth.AuthRepository.ConfirmEmail` | src/auth/auth.repository.ts:49-64 | the result and new store are Identity.ConfirmEmail's; no mail is sent |
| `Auth.AuthRepository.CheckIsConfirmedEmail` | src/auth/auth.repository.ts:66-78 | returns Identity.CheckIsConfirmedEmail of the current store and changes nothing |
| `Auth.AuthRepository.RecoveryPassword` | src/auth/auth.repository.ts:80-94 | the result and new store are Identity.RecoveryPassword's; the recovery mail, if any, is appended to the outbox |
| `Auth.AuthRepository.NewPassword` | src/auth/auth.repository.ts:96-114 | the result and new store are Identity.NewPassword's; no mail is sent |
| `Auth.AuthRepository.GetMe` | src/auth/auth.repository.ts:116-128 | returns Identity.GetMe of the current store and changes nothing |
| `Auth.AuthRepository.ResendConfirmationEmail` | src/auth/auth.repository.ts:130-148 | the result and new store are Identity.ResendConfirmationEmail's; the confirmation mail, if any, is appended to the outbox |
| `Auth.ConfirmTwice` | src/auth/auth.repository.ts:49-63 | a caller calling confirmEmail twice on the class gets false the second time; the first answer is true iff the code was known and unconfirmed |
| `Comments.Normalize` | src/comments/comments.repository.ts:15-20 | each absent parameter takes its default (sortBy createdAt, sortDirection desc, pageNumber 1, pageSize 10); a present one is kept |
| `Comments.Direction` | src/comments/comments.repository.ts:26 | the order value is 1 iff the direction is "asc", and -1 otherwise |
| `Comments.SortSpec` | src/comments/comments.repository.ts:22-27 | there is a sort record iff sortBy and sortDirection are both non-empty; it sorts on sortBy with Direction(sortDirection) |
| `Comments.Skip` | src/comments/comments.repository.ts:29-31 | skip is (pageNumber - 1) * pageSize |
| `Comments.PagesCount` | src/comments/comments.repository.ts:32-33 | pagesCount is the ceiling of count / pageSize: pagesCount pages hold count records, and one fewer would not |
| `Comments.InsertSorted` | src/comments/comments.repository.ts:39 | inserting a record into a sequence in sort order keeps it in sort order |
| `Comments.SortBy` | src/comments/comments.repository.ts:39 | the sorted collection is a permutation of the collection, and it is in the order the sort key asks for |
| `Comments.FieldValue` | src/comments/comments.repository.ts:26 | a sort path has a value exactly when it is one of the stored document's paths; `authorInfo.userLogin` reads the author's login and `createdAt` the creation time |
| `Comments.SortByMissingField` | src/comments/comments.repository.ts:26 | a sort on a path no stored comment has leaves the collection in storage order |
| `Comments.ApiAuthorPathIsNotStored` | src/comments/comments.repository.ts:26 | sorting by the response name `commentatorInfo.userLogin` does not reorder the collection |
| `Comments.Arrange` | src/comments/comments.repository.ts:35-40 | the store's order is a permutation of the collection: storage order under an empty sort record, otherwise ordered by the key |
| `Comments.Window` | src/comments/comments.repository.ts:37-38 | skip/limit yields min(limit, max(0, size - skip)) records, the k-th being record skip + k, each taken from the input |
| `Comments.Listing` | src/comments/comments.repository.ts:13-52 | a failure of count or fetch gives StorageFailure and otherwise never; a page echoes pageNumber and pageSize, has totalCount equal to the whole collection's size (the filter is empty) and pagesCount = ceil(totalCount / pageSize) |
| `Comments.ListingWindow` | src/comments/comments.repository.ts:29-47 | the items are min(pageSize, max(0, totalCount - skip)) records, the k-th being record skip + k of the collection in sort order |
| `Comments.ListingItemsOrdered` | src/comments/comments.repository.ts:25-40 | under a sort record, a page's items are in that record's order |
| `Comments.ListingItemsAreStored` | src/comments/comments.repository.ts:35-40 | every listed item is a stored comment (as a multiset, the items are contained in the collection) |
| `Comments.PageOfRecord` | src/comments/comments.repository.ts:29-33 | record i is at offset i % pageSize of page i / pageSize + 1, and that page is no later than pagesCount |
| `Comments.NonEmptyPageBound` | src/comments/comments.repository.ts:31-33 | a page whose skip is below totalCount is no later than pagesCount |
| `Comments.RecordOnPage` | src/comments/comments.repository.ts:29-40 | record (page - 1) * pageSize + offset of the sorted collection is item offset of that page, and the page is no later than pagesCount |
| `Comments.PositionUnique` | src/comments/comments.repository.ts:31 | two (page, offset) pairs with offset below pageSize never name the same record, so each record is on exactly one page |
| `Comments.ItemAtOffset` | src/comments/comments.repository.ts:31-40 | item m of a page is record skip + m of the sorted collection, whenever that record exists |
| `Comments.PagePastLastEmpty` | src/comments/comments.repository.ts:31-40 | a page number beyond pagesCount yields no items |
| `Comments.DefaultListing` | src/comments/comments.repository.ts:15-40 | with no parameters: page 1, page size 10, and the first min(10, count) comments by createdAt, newest first |
| `Comments.TwentyFiveRecordsThirdPage` | src/comments/comments.repository.ts:29-40 | with 25 comments and page size 10: pagesCount 3, and page 3 holds the last 5 comments in sort order |
| `Comments.FailureIsNotAnEmptyPage` | src/comments/comments.repository.ts:49-51 | a storage failure gives StorageFailure, never a page; a successful call never gives StorageFailure |
| `Comments.IndexOfId` | src/comments/comments.repository.ts:66-67 | None iff no comment has the id; otherwise the first comment with the id |
| `Comments.DeleteOne` | src/comments/comments.repository.ts:66-67 | with no comment having the id, nothing changes; otherwise exactly the first comment with the id is removed and the others stay in order |
| `Comments.DeleteWithUniqueIds` | src/comments/comments.repository.ts:66-67 | when ids are unique, no comment with the id remains, every other comment remains, and the size drops by one exactly when the id was present |
| `Comments.CreateKeepsUniqueIds` | src/comments/comments.repository.ts:58-64 | appending a comment whose id no stored comment has keeps all ids distinct |
| `Comments.CommentsRepository.constructor` | src/comments/comments.repository.ts:11 | the repository starts over the given collection |
| `Comments.CommentsRepository.GetAll` | src/comments/comments.repository.ts:13-52 | returns Listing of the current collection and changes nothing |
| `Comments.CommentsRepository.CreateComment` | src/comments/comments.repository.ts:58-64 | exactly one comment is appended; it carries the given content, author info and source id, and the assigned id and creation time |
| `Comments.CommentsRepository.DeleteComment` | src/comments/comments.repository.ts:66-68 | the collection becomes DeleteOne of the old one; deletedCount is 1 if a comment had the id, else 0 |

## Left out

- UsersRepository is not part of this model: `createUser`, `getById`, `getUserByLoginOrEmail`,
  `getUserByEmail` and `getUserByVerificationCode`. Each finder is modelled as the first match in storage
  order. `createUser` is modelled as appending the record that registration describes.
- HashService (bcrypt), `uuid.v4` and the EmailsRepository mail transport are foreign calls. They become
  parameters, as listed above. The outbox records which mails the code asks for, not whether they arrive.
- `Identity.NewPassword`, `Auth.AuthRepository.NewPassword`: the plaintext new password is not a
  parameter. The generated hash pair stands for it; `Identity.NewPasswordThenLogIn` requires
  `comparePassword(password, hash)` to link the two.
- Collaborator failures in AuthRepository are not modelled. The source has no `try`/`catch` there: a
  rejected `createUser` (line 39) or user lookup (lines 20, 50, 67, 81, 101, 117, 131), `comparePassword` (line 26),
  `generateHash` (lines 102-103, awaited in `newPassword` even when no user holds the code) or awaited mail send
  (lines 90 and 144) makes the method reject instead of returning its result. The model assumes every
  such call succeeds.
- The unawaited `user.save()` and mail promises are modelled as immediate updates. Concurrency is not
  modelled: the check-then-set race of two simultaneous `confirmEmail` calls, and interleaved requests.
- `AuthRepository.save` and `CommentsRepository.save` only forward to the store (lines 150-152 and
  70-72), so they are not modelled separately.
- `CommentsRepository.getCommentById` (lines 54-56) looks up by the store's internal `_id`, which the
  model does not carry.
- `Number(...)` coercion, NaN, and zero or negative page numbers and sizes are not modelled.
  `pageNumber` and `pageSize` have type `Pos` (at least 1).
- Ties in a sort are modelled as keeping storage order. The store does not promise any order for ties.
  Strings compare by character, with no collation.
- Only string-valued comment fields are sort keys. A missing field sorts as the lowest value: first in
  ascending order, last in descending order.
- The likes summary of a comment (`likesInfo`) and its computation come from repositories that are not
  part of this model.
- The `[]` the `catch` returns is modelled as the distinct result `StorageFailure`, not as an empty list.
- The stored comment keeps the creation input's `authorInfo` under that name, which is what the posts
  controller reads back from it; sort paths in `getAll` are the stored ones (`authorInfo.userLogin`), and
  the response name `commentatorInfo` matches no stored field. The comment schema is not part of this model.
- Controllers, module wiring, DTO validation, configuration and the bulk `clearDB` are out of scope.
- `getAll` is modelled with its declared signature, `getAll(params)`, not with the three-argument call that
  the posts controller makes.

# Admin identity and dashboard helpers of the portfolio site, in Dafny

This project models the part of the portfolio site that controls who may administer it, plus
the list and text helpers of the admin dashboard.

- **Registration keys.** The `SecureKey` collection holds one-time registration keys. Each key
  goes one way, from unused to used. `generateSecureKeys` seeds the collection with ten
  distinct `DKADMIN-XXXXXXXX-XXXXXXXX-XXXXXXXX-XXXX` codes.
- **Admin resolvers.** The GraphQL mutations `registerAdmin`, `loginAdmin`,
  `updateAdminProfile`, `changeAdminPassword` and `deleteAdmin` are guarded steps over the
  store of admins and keys. Each ends in a reply record. The `verifyToken` helper is the guard
  the content mutations use.
- **Token helpers.** `adminAuth.js` builds and checks admin tokens (JSON Web Tokens whose
  `exp` claim is section 4.1.4 of RFC 7519) and guards resolvers with `requireAdmin` and
  `requireSuperAdmin`.
- **Registration form.** The client-side chain of checks on the admin registration form.
- **Dashboard helpers.** The blog dialog's slug, read-time, auto-slug and tag logic. Drag
  reordering, durations and filters in the experience and skills lists, with the skill
  statistics and badge colours. The settings panel's keyword and custom-link edits. The
  education dialog's form rules and submitted payload.

The form of each part follows the form of its source:

- **Pure code** is datatypes, functions and lemmas. This covers the token helpers, the
  validators, the slug and duration arithmetic, the filters and the payload shaping.
- **Code that changes a store or component state** is a class whose `seq` fields the methods
  reassign:
  - `SecureKeys.KeyStore` for the key collection;
  - `AdminResolvers.AdminDirectory` for the admin store;
  - `BlogModal.BlogEditor`, `ExperienceManager.ExperienceList`, `SkillsManager.SkillList`,
    `SettingsPanel.Panel` and `EducationModal.EducationEditor` for the React components.
- **How a method is checked.** Each method is proved against a specification function. Its
  `ensures` ties the new state to that function. The properties are then proved about the
  function.

Parameters stand for everything outside the code:

- the clock (`now` in milliseconds);
- the signing secret;
- the token library, as an encode/decode pair;
- the random bytes, as a stream of draws;
- the Admin model's own behaviour (password hashing and comparison, the lockout rules, the
  schema defaults), which is not part of this model;
- the failures of a database write, as a fault parameter.

Module layout:

- `wrappers.dfy`: `Option` and `Result`.
- `js_text.dfy`: the JavaScript string and number built-ins the code relies on: `trim`,
  ASCII `toLowerCase`, `includes`/`indexOf`/`replace`, `String(n)`, `parseInt`, `Math.ceil` of
  a quotient, and the truncating `%`.
- `lists.dfy`: remove-by-index, splice-based moves, `filter` and counting.
- `text_lists.dfy`: the "append the trimmed input" edits shared by the dialogs.
- `dashboard.dfy`: the search and portfolio filters shared by the list pages.
- One module per source file for the rest.

Two behaviours of the code are modelled as written, though a reader might expect otherwise:

- `loginAdmin` checks the lock before the active flag (`backend/graphql/resolvers.js:394-413`).
  A locked, deactivated account therefore gets the lock message.
- `deleteAdmin` only demands `requireAdmin`, not `requireSuperAdmin`
  (`backend/graphql/resolvers.js:518-533`). Any admin may delete any other admin.

## Model

| member | source | states |
|---|---|---|
| SecureKeys.FindUnused | backend/models/SecureKey.js:48 | The position found holds the code and is unused, and no earlier position is an unused holder of the code. `None` means every document with the code is used. |
| SecureKeys.ValidateKey | backend/models/SecureKey.js:47-60 | There are three outcomes. Unknown and already-used codes share one message, and exactly those get it. 'Secure key has expired' needs an unused holder whose expiry is strictly before now. A valid result hands back that unused, unexpired document and its position. |
| SecureKeys.ValidateKeyUnique | backend/models/SecureKey.js:3-9 | Under the unique index on `key`, a code validates iff its one document is unused and not expired. It is refused as expired iff it is unused and expired. An expiry equal to now is still valid. |
| SecureKeys.MarkedAsUsed | backend/models/SecureKey.js:39-44 | `markAsUsed` sets `isUsed`, `usedBy = adminId` and `usedAt = now`. It keeps the code, the expiry and the description. |
| SecureKeys.RemainingKeysCount | backend/models/SecureKey.js:63-65 | The count of unused documents, expired ones included. It is at most the table size, and 0 iff every key is used. |
| SecureKeys.MarkingConsumesOneKey | backend/models/SecureKey.js:39-44 | Marking an unused key lowers the remaining count by exactly one. |
| SecureKeys.MarkedKeyIsRefused | backend/models/SecureKey.js:39-52 | After its document is marked, the code gets 'Invalid or already used secure key' at any later time. |
| SecureKeys.MarkingPreservesWellFormed | backend/models/SecureKey.js:3-44 | Marking keeps codes unique, and keeps `usedBy`/`usedAt` set exactly on used keys. |
| SecureKeys.ExpiredKeysStillCount | backend/models/SecureKey.js:55-65 | An unused, expired key is refused as expired, yet still counts as remaining. |
| SecureKeys.KeyStore.Insert | backend/models/SecureKey.js:4-9 | A save succeeds iff no document holds the code. It then appends the record; a refused save leaves the table as it was. |
| SecureKeys.KeyStore.MarkAsUsed | backend/models/SecureKey.js:39-44 | The document at the index is replaced by its marked copy. Nothing else changes. |
| SecureKeys.KeyStore.constructor | backend/models/SecureKey.js:67 | The collection holds exactly the given documents. |
| KeyGenerator.Hex | backend/generateSecureKeys.js:11-14 | `toString('hex').toUpperCase()` gives two upper-case hex digits per byte. |
| KeyGenerator.HexInjective | backend/generateSecureKeys.js:11-14 | Different byte strings of one length never print the same hex text. |
| KeyGenerator.GenerateSecureKey | backend/generateSecureKeys.js:9-17 | The result is 39 characters: `DKADMIN`, then groups of 8, 8, 8 and 4 upper-case hex digits, each group after a `-`. |
| KeyGenerator.CodeGroups | backend/generateSecureKeys.js:11-16 | Each group of the code prints its own slice of the random bytes. |
| KeyGenerator.GenerateSecureKeyInjective | backend/generateSecureKeys.js:9-17 | Different random draws always give different codes. |
| KeyGenerator.Codes | backend/generateSecureKeys.js:57 | One code per random draw, in order. |
| KeyGenerator.BatchProperties | backend/generateSecureKeys.js:50-70 | The batch kept by the retry loop has no repeated code and at most ten codes. It is full when the stream offers ten distinct codes; otherwise it holds every distinct code offered. |
| KeyGenerator.FullBatch | backend/generateSecureKeys.js:53-58 | Ten or more different draws always yield exactly ten keys. |
| KeyGenerator.BatchRecords | backend/generateSecureKeys.js:62-66 | The saved documents are unused, one per code, with description 'Admin registration key #i' for i from 1. |
| KeyGenerator.BatchRecordsWellFormed | backend/generateSecureKeys.js:62-68 | Saving distinct codes gives a well-formed key collection in which every key remains. |
| KeyGenerator.GeneratedBatchWellFormed | backend/generateSecureKeys.js:50-70 | Whatever the draws, the saved batch is well formed, unused, at most ten keys, and every code has the code format. |
| KeyGenerator.BatchCodesWellFormed | backend/generateSecureKeys.js:56-60 | Every code of a batch has the code format. |
| KeyGenerator.BatchFromCodes | backend/generateSecureKeys.js:56-69 | A batch holds only codes drawn from the stream. |
| KeyGenerator.DrawFresh | backend/generateSecureKeys.js:56-58 | The do/while retry consumes draws until a code outside the batch comes up. Skipped draws do not change the batch the loop will keep. Running out of draws ends the batch as it stands. |
| KeyGenerator.GenerateSecureKeys | backend/generateSecureKeys.js:26-70 | A non-empty collection is reported and left untouched. Otherwise the keys are exactly the batch the draws give, and the collection becomes exactly their records. Ten keys are reported as generated; fewer only when the draws run out. |
| AdminAuth.JwtVerify | backend/utils/adminAuth.js:23 | `jwt.verify` accepts iff the token decodes, was signed with this secret, and the current second is before `exp`. It then returns exactly the signed payload; otherwise it returns one of the library's error messages. |
| AdminAuth.AdminClaims | backend/utils/adminAuth.js:5-11 | The payload carries exactly id, username, email, role and type 'admin'. |
| AdminAuth.GenerateAdminToken | backend/utils/adminAuth.js:4-18 | Signing succeeds iff the secret is set. The token then decodes to the admin claims, issued now, expiring seven days later, signed with the secret. |
| AdminAuth.VerifyAdminToken | backend/utils/adminAuth.js:21-34 | Valid iff `jwt.verify` accepts and the type claim is 'admin'; the decoded payload is then returned. Otherwise the library's message, or 'Invalid token type', is returned; it never throws. |
| AdminAuth.GetAdminFromToken | backend/utils/adminAuth.js:37-52 | Null for an empty header. Otherwise the first `Bearer ` is removed, and the claims come back iff `verifyAdminToken` is valid. Any non-null result passes `requireAdmin`. |
| AdminAuth.RequireAdmin | backend/utils/adminAuth.js:55-65 | Passes iff claims are present and of type 'admin'. Otherwise it fails with the two messages, in the source's order. |
| AdminAuth.RequireSuperAdmin | backend/utils/adminAuth.js:68-76 | `requireAdmin`'s failures win. Otherwise it passes iff the role is 'superadmin', else it fails with 'Super admin privileges required.'. |
| AdminAuth.ReplaceLeavesSpacelessText | backend/utils/adminAuth.js:43 | A token without a space is not changed by the `Bearer ` replacement. |
| AdminAuth.AdminTokenRoundTrip | backend/utils/adminAuth.js:4-34 | A fresh admin token, checked with the same secret before it expires, verifies to exactly the signed claims. |
| AdminAuth.AdminFromBearerHeader | backend/utils/adminAuth.js:37-52 | The same token, sent bare or as `Bearer <token>`, yields the admin's claims. |
| AdminAuth.AdminTokenExpires | backend/utils/adminAuth.js:13-15 | Seven days after issue, to the second, the token is refused with 'jwt expired'. |
| AdminAuth.AdminTokenNeedsSameSecret | backend/utils/adminAuth.js:21-23 | A token signed with another secret is refused with 'invalid signature'. |
| AdminAuth.OtherTokenTypesGiveNoAdmin | backend/utils/adminAuth.js:25-28 | A valid token whose type is not 'admin' is rejected as 'Invalid token type' and yields no admin. |
| AdminResolvers.CaughtMessage | backend/graphql/resolvers.js:369-376 | `error.message \|\| fallback`: the thrown message, or the fallback when it is empty. |
| AdminResolvers.FindOne | backend/graphql/resolvers.js:326 | `findOne` returns the first document matching the field (and the excluded id, when one is given). `None` means no document matches. |
| AdminResolvers.NewAdmin | backend/graphql/resolvers.js:348-353 | The new document carries the given id, username, email and the key code it used. |
| AdminResolvers.Register | backend/graphql/resolvers.js:310-377 | Every failure has no token and no admin. Success iff the three checks pass, both writes succeed and a secret is set. The store changes only when the checks passed and the save did not throw; the number of keys never changes. |
| AdminResolvers.RegisterCheckOrder | backend/graphql/resolvers.js:314-345 | The key, then the username, then the email is checked. The first failure gives the reply, and nothing is written. |
| AdminResolvers.RegisterSuccess | backend/graphql/resolvers.js:347-368 | On success the new admin is appended and records the code. Exactly that key is marked used by the new id now, and the remaining count drops by one. The returned token verifies to the new admin's claims. |
| AdminResolvers.KeyIsSingleUse | backend/graphql/resolvers.js:315-323 | After a successful registration, every registration with the same code is refused at the key check, and the store is unchanged. |
| AdminResolvers.MarkFailureLeavesKeyUnused | backend/graphql/resolvers.js:355-376 | When `markAsUsed` throws after the save, the account stays and the key stays unused. The code still validates, and the reply carries the caught message. |
| AdminResolvers.RegisterPreservesConsistent | backend/graphql/resolvers.js:325-358 | Given a fresh id, registration keeps ids, usernames, emails and key codes unique. |
| AdminResolvers.RegisterPreservesKeysAccountedFor | backend/graphql/resolvers.js:352-358 | Every used key names an admin whose `usedSecureKey` is that code, before and after registration. |
| AdminResolvers.LockedMinutes | backend/graphql/resolvers.js:395-403 | While locked, the message shows `ceil((lockUntil - now) / 60000)` minutes. That is at least 1 and brackets the time left. |
| AdminResolvers.Login | backend/graphql/resolvers.js:379-448 | An unknown username is refused with 'Invalid username or password' and no change. Every failure has no token and no admin. Keys never change, and only the found admin's lockout fields may. The locked and deactivated cases are stated by `LockedAccountRefused` and `InactiveAccountRefused`. |
| AdminResolvers.LoginFound | backend/graphql/resolvers.js:394-439 | Once the admin is found, only that admin's lockout fields may change, and a failure carries no token or admin. |
| AdminResolvers.WrongPasswordLooksLikeUnknownUser | backend/graphql/resolvers.js:384-392 | A wrong password gets the same reply as an unknown username. Exactly one `incLoginAttempts` is recorded on that admin. |
| AdminResolvers.LockedAccountRefused | backend/graphql/resolvers.js:394-403 | A locked account is refused with the minutes message, active or not. The store is unchanged: no comparison, no attempt recorded. |
| AdminResolvers.InactiveAccountRefused | backend/graphql/resolvers.js:405-413 | An unlocked, deactivated account is refused with 'Account has been deactivated. Contact super admin.'. The store is unchanged: no comparison, no attempt recorded. |
| AdminResolvers.LoginSuccess | backend/graphql/resolvers.js:405-439 | Success iff the admin is found, unlocked and active, the password compares, and a secret is set. The lockout is then reset, and the token verifies to that admin's claims. |
| AdminResolvers.LockoutChangesPreserveInvariants | backend/graphql/resolvers.js:419-429 | Rewriting lockout fields in place keeps the store consistent and every used key accounted for. |
| AdminResolvers.LoginPreservesInvariants | backend/graphql/resolvers.js:379-448 | Login, whatever its outcome, keeps both store invariants. |
| AdminResolvers.ApplyProfile | backend/graphql/resolvers.js:462-478 | A given (non-empty) username or email replaces the stored one. Every other field stays. |
| AdminResolvers.UpdateProfile | backend/graphql/resolvers.js:459-491 | A failed `requireAdmin` throws its message, and a thrown error leaves the store as it was. For an admin, the reply is 'Username already taken' iff another admin holds the given username. It is 'Email already registered' iff the username is free and another admin holds the given email. A document or null is returned iff both are free, and null iff the requester's own document is gone, which leaves the store unchanged. A returned document is the requester's own with the given fields applied, and it replaces that document in place. |
| AdminResolvers.UpdateProfilePreservesConsistent | backend/graphql/resolvers.js:466-482 | The taken-username and taken-email checks keep usernames and emails unique. |
| AdminResolvers.ChangePassword | backend/graphql/resolvers.js:493-516 | A failed `requireAdmin` throws its message. A missing requester document throws 'Admin not found', and a failed comparison throws 'Current password is incorrect'. Returns iff the requester is an admin, their document exists and the current password compares. Exactly that document's hash is then replaced by the new password's hash; a thrown error changes nothing. |
| AdminResolvers.RemoveById | backend/graphql/resolvers.js:527 | `findByIdAndDelete` removes the first document with the id, or leaves the list when there is none. |
| AdminResolvers.DeleteAdmin | backend/graphql/resolvers.js:518-533 | Throws iff the requester is not an admin or targets their own id, and then changes nothing. A failed `requireAdmin` throws its message, and a self-deletion throws 'Cannot delete your own account'. Otherwise it reports success with the document removed. |
| AdminResolvers.DeleteMissingAdminSucceeds | backend/graphql/resolvers.js:527-532 | Deleting an id no admin has reports success and changes nothing. |
| AdminResolvers.RemovalKeepsUnique | backend/graphql/resolvers.js:527 | Removing one document keeps a field unique. |
| AdminResolvers.DeletePreservesConsistent | backend/graphql/resolvers.js:518-533 | Deletion keeps the store consistent. |
| AdminResolvers.VerifyToken | backend/graphql/resolvers.js:19-30 | A missing token gives 'Authentication required'. Otherwise it succeeds iff `jwt.verify` accepts, with its payload, and any refusal gives 'Invalid or expired token'. |
| AdminResolvers.VerifyTokenIgnoresType | backend/graphql/resolvers.js:19-30 | A valid token of another type passes `verifyToken` while the admin guard refuses it. |
| AdminResolvers.AdminDirectory.RegisterAdmin | backend/graphql/resolvers.js:310-377 | The reply and the new store are exactly those of `Register`. The steps are checks, save, then markAsUsed. |
| AdminResolvers.AdminDirectory.LoginAdmin | backend/graphql/resolvers.js:379-448 | The reply and the new store are exactly those of `Login`. |
| AdminResolvers.AdminDirectory.UpdateAdminProfile | backend/graphql/resolvers.js:459-491 | The reply and the new store are exactly those of `UpdateProfile`. |
| AdminResolvers.AdminDirectory.ChangeAdminPassword | backend/graphql/resolvers.js:493-516 | The reply and the new store are exactly those of `ChangePassword`. |
| AdminResolvers.AdminDirectory.Delete | backend/graphql/resolvers.js:518-533 | The reply and the new store are exactly those of `DeleteAdmin`. |
| AdminResolvers.AdminDirectory.constructor | backend/graphql/resolvers.js:326 | The store holds exactly the given admins and key collection. |
| AdminRegister.EmailTestMatchesPattern | frontend/src/pages/admin/AdminRegister.js:63-64 | The string test accepts exactly the language of `/^[^\s@]+@[^\s@]+\.[^\s@]+$/`: three non-empty runs without white space or '@', cut by '@' and then '.'. |
| AdminRegister.EmailTestSound | frontend/src/pages/admin/AdminRegister.js:63-64 | Every accepted email splits into the pattern's three runs. |
| AdminRegister.EmailTestComplete | frontend/src/pages/admin/AdminRegister.js:63-64 | Every string of the pattern's language is accepted. |
| AdminRegister.ValidateRegistration | frontend/src/pages/admin/AdminRegister.js:31-79 | `register` is called, with the four fields, iff all checks pass. Each message is shown iff every earlier check passes and its own check fails: fill, username length, password length, mismatch, email, in that order. |
| AdminRegister.SubmittedFormIsComplete | frontend/src/pages/admin/AdminRegister.js:38-70 | A form that reaches `register` has a key, a password of at least 6, and an email with '@' and no white space. |
| BlogModal.StripSymbols | frontend/src/components/admin/BlogModal.js:47 | `replace(/[^\w\s-]/g, '')` keeps exactly the word characters, white space and '-' of the input, in their order: one kept character per passing input character, each at the position given by the passing characters before it. |
| BlogModal.SpacesToDash | frontend/src/components/admin/BlogModal.js:48 | `replace(/\s+/g, '-')` leaves only '-' and non-space characters of the input. Text without white space is unchanged, and a non-empty run of white space becomes one '-'. |
| BlogModal.CollapseDashes | frontend/src/components/admin/BlogModal.js:49 | `replace(/-+/g, '-')` gives a result with no two '-' in a row. It has only the input's characters, the same first character, and is empty iff the input is. Text without doubled '-' is unchanged, and a non-empty run of '-' becomes one '-'. |
| BlogModal.SpacesToDashAppend | frontend/src/components/admin/BlogModal.js:48 | Where no white-space run crosses the cut, replacing runs of white space works piece by piece: the result for `a + b` is the result for `a` followed by the result for `b`. With the one-run case, this fixes the output to one '-' per maximal run. |
| BlogModal.CollapseDashesAppend | frontend/src/components/admin/BlogModal.js:49 | Where no run of '-' crosses the cut, collapsing works piece by piece: the result for `a + b` is the result for `a` followed by the result for `b`. |
| BlogModal.SlugIsFixedPoint | frontend/src/components/admin/BlogModal.js:43-50 | Text made only of a-z, 0-9, '_' and '-', with no two '-' in a row, is its own slug. |
| BlogModal.GenerateSlug | frontend/src/components/admin/BlogModal.js:43-50 | A slug has only a-z, 0-9, '_' and '-', never two '-' in a row. |
| BlogModal.SlugHasNoSpace | frontend/src/components/admin/BlogModal.js:47-49 | A slug contains no white space. |
| BlogModal.GenerateSlugIdempotent | frontend/src/components/admin/BlogModal.js:43-50 | Generating a slug from a slug returns it unchanged. |
| BlogModal.WordsAndSpaceRuns | frontend/src/components/admin/BlogModal.js:54 | In text that starts with a word, words and white-space runs alternate. So `split(/\s+/)` of trimmed text yields one piece per word. |
| BlogModal.ReadTime | frontend/src/components/admin/BlogModal.js:52-56 | The read time is never below one minute. |
| BlogModal.ReadTimeCountsWords | frontend/src/components/admin/BlogModal.js:52-56 | The read time is `ceil(words / 200)` over the words of the trimmed text. Blank text gives 1. |
| BlogModal.ReadTimeBoundary | frontend/src/components/admin/BlogModal.js:53-55 | Up to 200 words take one minute; 201 take two. |
| BlogModal.LoadedForm | frontend/src/components/admin/BlogModal.js:24-38 | Opening a stored blog keeps each non-empty text field, and an absent or empty one becomes ''. The read time becomes '0' when absent or empty. Absent tags become the empty list. `published` and `showInAllPortfolios` are set iff the stored flag is true. |
| BlogModal.HandleChangeSpec | frontend/src/components/admin/BlogModal.js:58-79 | With auto-slug on, a title edit also sets the slug to the title's slug. A slug edit turns auto-slug off. Any other edit leaves title, slug and auto-slug alone, and no edit touches the tags, content or read time. |
| BlogModal.AutoSlugFollowsTitle | frontend/src/components/admin/BlogModal.js:61-66 | While auto-slug stays on, the slug is always the slug of the current title. |
| BlogModal.AutoSlugStaysOff | frontend/src/components/admin/BlogModal.js:67-68 | Once off, auto-slug stays off whatever is edited. |
| BlogModal.BlogEditor.constructor | frontend/src/components/admin/BlogModal.js:6-22 | A new dialog has the empty form, an empty tag input and error, and auto-slug on. |
| BlogModal.BlogEditor.Load | frontend/src/components/admin/BlogModal.js:24-41 | Opening a blog fills the form and turns auto-slug off. |
| BlogModal.BlogEditor.HandleChange | frontend/src/components/admin/BlogModal.js:58-79 | The new form and auto-slug flag are exactly those of `HandleChangeSpec`. |
| BlogModal.BlogEditor.HandleContentChange | frontend/src/components/admin/BlogModal.js:81-88 | Sets the content, and the read time as the printed minutes. |
| BlogModal.BlogEditor.AddTag | frontend/src/components/admin/BlogModal.js:90-98 | The tags become `AddUnique` of the old tags and input. The input is cleared iff the trimmed tag was taken. |
| BlogModal.BlogEditor.RemoveTag | frontend/src/components/admin/BlogModal.js:100-105 | Exactly the tag at the index goes; the others keep their order. |
| BlogModal.BlogEditor.SetTagInput | frontend/src/components/admin/BlogModal.js:308 | The tag input takes the typed value; the form, auto-slug flag and error stay. |
| BlogModal.BlogEditor.Submit | frontend/src/components/admin/BlogModal.js:107-116 | The form is sent iff title and content are non-empty. Otherwise the error is 'Title and content are required!'. |
| TextLists.AddUnique | frontend/src/components/admin/BlogModal.js:90-98 | The trimmed input is appended iff it is non-empty and absent; else the list is returned as it was. The old list is a prefix, and a duplicate-free list stays duplicate-free. |
| TextLists.RemoveUndoesAddUnique | frontend/src/components/admin/BlogModal.js:90-105 | Removing the entry just added gives the old list back. |
| TextLists.AddNonBlank | frontend/src/pages/admin/dashboard/EducationModal.js:61-69 | The list changes iff the input is not blank. The old list is then a prefix, followed by the non-empty trimmed input. |
| TextLists.RemoveUndoesAddNonBlank | frontend/src/pages/admin/dashboard/EducationModal.js:61-76 | Removing the entry just added gives the old list back. |
| Lists.RemoveIndex | frontend/src/components/admin/BlogModal.js:103 | `filter((_, i) => i !== index)` drops exactly that position, or nothing when the index is outside the list. |
| Lists.RemoveIndexKeepsNoDuplicates | frontend/src/pages/admin/dashboard/SettingsPanel.js:288-293 | Removing a position keeps a list duplicate-free, and adds no element. |
| Lists.Move | frontend/src/pages/admin/dashboard/ExperienceManager.js:120-122 | The two splices keep the length and put the dragged element at the destination. |
| Lists.MoveIsPermutation | frontend/src/pages/admin/dashboard/ExperienceManager.js:120-122 | A move keeps exactly the same elements, each as often as before. |
| Lists.MoveKeepsOthersInOrder | frontend/src/pages/admin/dashboard/ExperienceManager.js:120-122 | The elements not dragged keep their relative order. |
| Lists.MoveInPlace | frontend/src/pages/admin/dashboard/ExperienceManager.js:120-122 | Dropping an element on its own position changes nothing. |
| Lists.Filter | frontend/src/pages/admin/dashboard/ExperienceManager.js:241 | `filter(p)` keeps only elements satisfying `p` and every element that does, no more often than before. Their order is stated by `Lists.FilterKeepsOrder`. |
| Lists.FilterKeepsOrder | frontend/src/pages/admin/dashboard/ExperienceManager.js:241 | There are as many kept elements as passing ones, and a passing element lands at the position given by the number of passing elements before it. So the kept elements are the passing ones in their original order. |
| Lists.FilterAppend | frontend/src/pages/admin/dashboard/ExperienceManager.js:241 | Filtering a concatenation filters each part and concatenates the results. |
| Lists.FilterKeepsAll | frontend/src/pages/admin/dashboard/ExperienceManager.js:241-248 | Filtering with a predicate all elements satisfy returns the list itself. |
| Lists.Count | frontend/src/pages/admin/dashboard/SkillsManager.js:78 | `filter(p).length` is at most the length. It equals the length iff all elements satisfy `p`, and is 0 iff none does. |
| Lists.CountIsFilterLength | frontend/src/pages/admin/dashboard/SkillsManager.js:78 | The count is the length of the filtered list. |
| Dashboard.MatchesText | frontend/src/pages/admin/dashboard/ExperienceManager.js:242-243 | A field matches a term iff the lower-cased term occurs at some position of the lower-cased field. |
| Dashboard.EmptyTermMatches | frontend/src/pages/admin/dashboard/ExperienceManager.js:242-243 | The empty search term matches every field. |
| Dashboard.SearchIgnoresCase | frontend/src/pages/admin/dashboard/ExperienceManager.js:242-243 | A term and its lower-case form match the same fields. |
| ExperienceManager.DurationSplitsMonths | frontend/src/pages/admin/dashboard/ExperienceManager.js:219-221 | For a span that does not run backwards, years·12 + rest = months with 0 ≤ rest < 12. |
| ExperienceManager.MonthsBetween | frontend/src/pages/admin/dashboard/ExperienceManager.js:219 | The month difference added to the start's month index reaches the end's month index. |
| ExperienceManager.DurationText | frontend/src/pages/admin/dashboard/ExperienceManager.js:220-229 | For months = Y·12 + R with R < 12, the text is 'Yy Rm' when both are positive, else 'Y year(s)' or 'R month(s)', singular exactly at 1. A negative span shows the truncated remainder in months. |
| ExperienceManager.CalculateDuration | frontend/src/pages/admin/dashboard/ExperienceManager.js:216-229 | When the end (today, for a current position) lies Y years and R < 12 months after the start, the text is the one `DurationText` gives for Y and R. |
| ExperienceManager.CurrentIgnoresEnd | frontend/src/pages/admin/dashboard/ExperienceManager.js:216-219 | A current position is measured up to today, whatever its stored end. |
| ExperienceManager.BackwardsSpanShowsMonths | frontend/src/pages/admin/dashboard/ExperienceManager.js:219-228 | An end before the start shows a zero or negative count of months, because `%` truncates. |
| ExperienceManager.FilteredExperiences | frontend/src/pages/admin/dashboard/ExperienceManager.js:241-248 | An experience is listed iff it is stored and passes the search, portfolio and employment filters. 'all' items pass any portfolio filter. |
| ExperienceManager.NoFiltersShowAll | frontend/src/pages/admin/dashboard/ExperienceManager.js:33-35 | With the initial filters the whole list shows, in order. |
| ExperienceManager.SearchIgnoresCaseForExperience | frontend/src/pages/admin/dashboard/ExperienceManager.js:242-243 | The experience search ignores the case of the term. |
| ExperienceManager.ExperienceList.HandleDragEnd | frontend/src/pages/admin/dashboard/ExperienceManager.js:117-124 | No destination leaves the list. Otherwise the stored list becomes `Move` of itself at the drag indices; the filters stay. |
| ExperienceManager.ExperienceList.constructor | frontend/src/pages/admin/dashboard/ExperienceManager.js:21-35 | The page starts with no experiences and the filters empty, 'all' and 'all'. |
| ExperienceManager.DragIsPermutation | frontend/src/pages/admin/dashboard/ExperienceManager.js:120-122 | A drag keeps the length and the same experiences, with the dragged one at the destination. |
| ExperienceManager.FilteredDragMovesHiddenItem | frontend/src/pages/admin/dashboard/ExperienceManager.js:117-124 | Visible indices are applied to the stored list. With a hidden first experience, dragging the first card below the second moves the hidden one, and the visible order stays. |
| ExperienceManager.ExampleVisibility | frontend/src/pages/admin/dashboard/ExperienceManager.js:244-245 | A concrete list with an employment filter meets that premise. |
| SkillsManager.Insert | frontend/src/pages/admin/dashboard/SkillsManager.js:64 | Inserting one skill adds exactly that skill to the list. |
| SkillsManager.InsertKeepsSorted | frontend/src/pages/admin/dashboard/SkillsManager.js:64 | Inserting into a list sorted by order keeps it sorted. |
| SkillsManager.SortByOrder | frontend/src/pages/admin/dashboard/SkillsManager.js:64 | The same skills, each as often as before, ascending by `order`. |
| SkillsManager.SortSortedIsIdentity | frontend/src/pages/admin/dashboard/SkillsManager.js:64 | A list already sorted by order is left as it is. |
| SkillsManager.SortIdempotent | frontend/src/pages/admin/dashboard/SkillsManager.js:64 | Sorting twice sorts once. |
| SkillsManager.CountBy | frontend/src/pages/admin/dashboard/SkillsManager.js:78-90 | A count is the length of the skills filtered on that value. |
| SkillsManager.Stats | frontend/src/pages/admin/dashboard/SkillsManager.js:75-92 | `totalSkills` is the length. There is one entry per category and per portfolio, each the number of skills with that value. |
| SkillsManager.TallyCountsMembers | frontend/src/pages/admin/dashboard/SkillsManager.js:77-91 | Over distinct values, the summed counts count the skills carrying any one of them. |
| SkillsManager.CategoryCountsCoverList | frontend/src/pages/admin/dashboard/SkillsManager.js:77-86 | The category counts sum to at most the total. They reach it iff every skill has one of the eight categories. |
| SkillsManager.PortfolioCountsCoverList | frontend/src/pages/admin/dashboard/SkillsManager.js:87-91 | The portfolio counts sum to at most the total. They reach it iff no skill is for 'all' or another portfolio. |
| SkillsManager.FilteredSkills | frontend/src/pages/admin/dashboard/SkillsManager.js:190-195 | A skill is listed iff it is stored and passes the name search, category filter and portfolio filter. 'all' skills pass any portfolio filter. |
| SkillsManager.NoFiltersShowAll | frontend/src/pages/admin/dashboard/SkillsManager.js:190-195 | With the initial filters every skill shows, in order. |
| SkillsManager.HiddenSkillShortensList | frontend/src/pages/admin/dashboard/SkillsManager.js:190-195 | A hidden skill makes the filtered list strictly shorter. |
| SkillsManager.Renumbered | frontend/src/pages/admin/dashboard/SkillsManager.js:147-150 | Each skill's `order` becomes its index, and nothing else changes. |
| SkillsManager.RenumberedIsSorted | frontend/src/pages/admin/dashboard/SkillsManager.js:147-150 | A renumbered list is sorted, and sorting leaves it as it is. |
| SkillsManager.Reordered | frontend/src/pages/admin/dashboard/SkillsManager.js:142-150 | The dragged skill lands at the destination with that order, and every order equals its index. |
| SkillsManager.ReorderedKeepsOnlyVisible | frontend/src/pages/admin/dashboard/SkillsManager.js:142-151 | After a drag, every skill is a visible one renumbered, so hidden skills are dropped. |
| SkillsManager.BadgeColor | frontend/src/pages/admin/dashboard/SkillsManager.js:197-209 | The eight categories get their colours and anything else '#00d4ff'. Every result is a `#rrggbb` colour. The default shows iff the category is 'frontend' or unknown. |
| SkillsManager.SkillList.SetFetched | frontend/src/pages/admin/dashboard/SkillsManager.js:63-65 | The stored skills are the fetched ones sorted by order. |
| SkillsManager.SkillList.HandleDragEnd | frontend/src/pages/admin/dashboard/SkillsManager.js:139-151 | No destination leaves the list. Otherwise the list becomes the reordered, renumbered visible skills. |
| SkillsManager.SkillList.constructor | frontend/src/pages/admin/dashboard/SkillsManager.js:8-12 | The page starts with no skills and the filters empty, 'all' and 'all'. |
| SettingsPanel.Panel.constructor | frontend/src/pages/admin/dashboard/SettingsPanel.js:33-99 | The panel starts with the initial social links, site settings and empty inputs. |
| SettingsPanel.Panel.AddKeyword | frontend/src/pages/admin/dashboard/SettingsPanel.js:278-286 | The keywords become `AddUnique` of the old keywords and input, and the input is cleared iff it was taken. Nothing else changes, and duplicate-free keywords stay so. |
| SettingsPanel.Panel.RemoveKeyword | frontend/src/pages/admin/dashboard/SettingsPanel.js:288-293 | Exactly the keyword at the index goes. Every other setting stays, and duplicate-free keywords stay so. |
| SettingsPanel.Panel.AddCustomLink | frontend/src/pages/admin/dashboard/SettingsPanel.js:295-303 | A link with a name and a url is appended and the input reset to empty fields. Otherwise nothing changes. |
| SettingsPanel.Panel.RemoveCustomLink | frontend/src/pages/admin/dashboard/SettingsPanel.js:305-310 | Exactly the link at the index goes; the profile fields stay. |
| SettingsPanel.LinkEditsKeepLinksComplete | frontend/src/pages/admin/dashboard/SettingsPanel.js:295-310 | If every stored link has a name and a url, both edits keep it so. |
| EducationModal.YearText | frontend/src/pages/admin/dashboard/EducationModal.js:34-35 | `year \|\| ''` is empty iff the year is absent or 0. |
| EducationModal.LoadedForm | frontend/src/pages/admin/dashboard/EducationModal.js:27-45 | Opening a record keeps each non-empty text field, and an absent or empty one becomes ''. The portfolio defaults to 'all'. The years become their text, or '' when absent or 0. `current` is set iff the stored flag is true. `isVisible` defaults to true only when undefined; null stays null. Lists default to empty. |
| EducationModal.OrNull | frontend/src/pages/admin/dashboard/EducationModal.js:112 | `value \|\| null` is null iff the text is empty. |
| EducationModal.ShapeInput | frontend/src/pages/admin/dashboard/EducationModal.js:109-124 | `endYear` is null iff current or empty, and otherwise parsed; the start year is parsed. The five optional texts are null iff empty, and the rest passes through. |
| EducationModal.HandleSubmit | frontend/src/pages/admin/dashboard/EducationModal.js:98-124 | The alert shows iff institution, degree or start year is empty. Otherwise the shaped input is sent. |
| EducationModal.LoadedYearsRoundTrip | frontend/src/pages/admin/dashboard/EducationModal.js:109-124 | A stored record submitted unchanged sends its own start year, and its end year unless current. |
| EducationModal.LoadedTextsRoundTrip | frontend/src/pages/admin/dashboard/EducationModal.js:112-117 | Optional texts come back unchanged, with empty ones as null. |
| EducationModal.CheckingCurrentDropsEndYear | frontend/src/pages/admin/dashboard/EducationModal.js:115 | Once `current` is checked, the submitted end year is null. |
| EducationModal.EducationEditor.HandleChange | frontend/src/pages/admin/dashboard/EducationModal.js:48-59 | A text edit sets that field and a checkbox sets its flag. Checking `current` also clears `endYear`, and unchecking keeps it. |
| EducationModal.EducationEditor.constructor | frontend/src/pages/admin/dashboard/EducationModal.js:6-24 | A new dialog has the empty form, with portfolio 'all' and visible, and empty achievement and course inputs. |
| EducationModal.EducationEditor.Load | frontend/src/pages/admin/dashboard/EducationModal.js:27-46 | Opening a record fills the form from it. |
| EducationModal.EducationEditor.AddAchievement | frontend/src/pages/admin/dashboard/EducationModal.js:61-69 | The achievements become `AddNonBlank` of the old list and input. The input is cleared unless it was blank. |
| EducationModal.EducationEditor.RemoveAchievement | frontend/src/pages/admin/dashboard/EducationModal.js:71-76 | Exactly the achievement at the index goes. |
| EducationModal.EducationEditor.AddCourse | frontend/src/pages/admin/dashboard/EducationModal.js:78-86 | The coursework becomes `AddNonBlank` of the old list and input. The input is cleared unless it was blank. |
| EducationModal.EducationEditor.RemoveCourse | frontend/src/pages/admin/dashboard/EducationModal.js:88-93 | Exactly the course at the index goes. |
| EducationModal.EducationEditor.SetNewAchievement | frontend/src/pages/admin/dashboard/EducationModal.js:319 | The achievement input takes the typed value; the form and the course input stay. |
| EducationModal.EducationEditor.SetNewCourse | frontend/src/pages/admin/dashboard/EducationModal.js:348 | The course input takes the typed value; the form and the achievement input stay. |
| JsText.Trim | frontend/src/components/admin/BlogModal.js:91 | `trim()` returns the slice of the input left after removing blank text at both ends, with no white space at either end. It is empty iff the input is blank. |
| JsText.ReplaceFirst | backend/utils/adminAuth.js:43 | A string-pattern `replace` substitutes the first occurrence of the pattern, keeping the text before and after it. With no occurrence it returns the input. |
| JsText.IndexOf | backend/utils/adminAuth.js:43 | `indexOf` returns a position where the pattern occurs and before which it does not; `None` (-1) means it occurs nowhere. |
| JsText.FirstOccurrence | backend/utils/adminAuth.js:43 | `indexOf` returns exactly the least position where the pattern occurs. |
| JsText.ToLower | frontend/src/pages/admin/dashboard/ExperienceManager.js:242-243 | `toLowerCase()` keeps the length and lower-cases each character on its own. |
| JsText.Contains | frontend/src/pages/admin/dashboard/ExperienceManager.js:242-243 | `includes(sub)` holds iff `sub` occurs at some position of the text. |
| JsText.OrString | frontend/src/components/admin/BlogModal.js:24-38 | `value \|\| fallback` is the value when it is present and non-empty, else the fallback. |
| JsText.ParseIntOfDigits | frontend/src/pages/admin/dashboard/EducationModal.js:114-115 | `parseInt` of a string of decimal digits is the number they spell. |
| JsText.ParseIntOfIntToString | frontend/src/pages/admin/dashboard/EducationModal.js:114-115 | `parseInt(String(n))` is n for every integer. |
| JsText.CeilDiv | frontend/src/components/admin/BlogModal.js:55 | `Math.ceil(a / b)` is the least r with a ≤ r·b. |
| JsText.JsRemainder | frontend/src/pages/admin/dashboard/ExperienceManager.js:221 | `%` keeps the dividend's sign: the remainder is in (-b, 0] for a negative dividend, [0, b) otherwise, and pairs with the truncated quotient. |

## Left out

- Concurrency. `registerAdmin` checks the key (`backend/graphql/resolvers.js:315`) and consumes it (`:358`) in separate steps. Two registrations racing on one code can both pass the check. The model is sequential; it records the order of the two steps and the failure between them, but not interleavings.
- The Admin model's behaviour is not part of this model: password hashing and `comparePassword`, `isLocked`, `incLoginAttempts`, `resetLoginAttempts`, and the schema defaults. These enter as the `AdminModel` parameter of `Env`. No lockout threshold or duration is assumed.
- Cryptography. `jwt.sign`/`jwt.verify` are an encode/decode pair passed in as `JwtLibrary`. `AdminAuth.Faithful` names the library behaviour the round-trip lemmas rely on. `crypto.randomBytes` is a stream of 14-byte draws given as a parameter.
- KeyGenerator.GenerateSecureKeys: each key is saved inside the loop (`backend/generateSecureKeys.js:68`). A save that throws there would leave the keys saved so far in the collection. The model takes every save of the batch to succeed.
- Read failures. `validateKey`, `findOne` and `find` can throw, and the resolvers catch that into their failure replies. The model's reads always answer.
- AdminResolvers.LoginFound: returns the admin document as it was read, before `resetLoginAttempts` (`backend/graphql/resolvers.js:419-439`). Whether that call also updates the in-memory document depends on the Admin model, which is not part of this model.
- AdminResolvers.LockedMessage: prints 'NaN' minutes when there is no lock time. In JavaScript an undefined `lockUntil` gives `NaN`, but a null one gives a negative number. The model does not tell null from undefined here.
- KeyGenerator.GenerateSecureKeys: a finite stream of draws can run out before ten distinct codes come up. The real generator would keep drawing; the model reports a short batch in that case.
- Database write failures are modelled for the `registerAdmin` writes (save, markAsUsed) and the `loginAdmin` lockout writes. The profile, password and delete writes are taken to succeed.
- Mongoose itself: schema validators and the `trim` setter on `key`, `runValidators`, the `timestamps` fields, and `ObjectId` formats. Admin and key ids are plain strings.
- Tokens are taken to carry an `exp` claim. A foreign token without `exp` is outside the model.
- JavaScript strings are sequences of `char`. The model does not capture UTF-16 code-unit lengths, and lower-cases ASCII letters only.
- Dates: `new Date(...)` parsing and locale formatting. `calculateDuration` takes year/month pairs and today's month as parameters. An experience with no end date arrives with a null `endDate` (`backend/graphql/schema.js:457`); `new Date(null)` is January 1970, so a non-current experience without an end date shows a backwards span. The model reaches that case only as an end month at January 1970, which `ExperienceManager.BackwardsSpanShowsMonths` covers; the null itself is not modelled.
- SkillsManager.BadgeColor: a category naming an `Object.prototype` property (such as `constructor`) would hit an inherited value in the colour lookup. The model treats every unknown name as unknown.
- SkillsManager.SortByOrder: is proved sorted and a permutation, but its stability is not proved. The order among skills of equal `order` is not stated.
- ExperienceManager.ExperienceList.HandleDragEnd: requires drag indices within the visible list, as the drag-and-drop library supplies them. SkillsManager.SkillList.HandleDragEnd does the same.
- EducationModal.LoadedForm: stored years are numbers in the source and become their decimal text in the form.
- BlogModal.BlogEditor.HandleContentChange: stores the read time as `String(readTime)`. That it parses back to the minutes is stated for all integers by `JsText.ParseIntOfIntToString`, not by the method's `ensures`.
- Network and persistence of the dashboard: `fetch`/GraphQL requests, `localStorage`, the saves after a drag, success alerts, loading flags and every rendered view.
- The server wiring (Express/Apollo), the Mongo connection and console output of the key generator, e-mail, uploads and rate limiting.
- `EducationManager.js` and `About.js` repeat the reorder, filter and duration helpers covered here. The legacy hard-coded login page and the feature-flag filters are trivial.

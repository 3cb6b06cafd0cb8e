# NotesApp decision logic in Dafny

This project models the decision logic of a small notes web application. Users register or log in, with a password or with Google. They then create, list, update and delete their own notes, each with an uploaded image. The model covers the parts that can be stated exactly:

- **Note store** (`Notes`). The note handlers are transitions over an immutable map from note id to `Note{title, content, image, user, createdAt}`. Each handler returns its reply and the store after the request. The bearer-header parser `GetTokenFromHeader` is modelled on JavaScript's `split(" ")[1]`, which the `Text` module models together with its inverse `Join`. One ownership rule, `Owns`, gives 403 to update and delete alike.
- **Credential store** (`Users`). Register, login, Google login and Google signup are transitions over the user collection. The collection is held in natural (insertion) order, so `findOne` is "first match" (`Lookup.First`). Issued tokens are represented by their claims and their `expiresIn` tag.
- **Public URL derivation** (`Storage`). `getPublicUrl` strips an anchored `media_resources/` prefix and joins the rest to the base URL.
- **Client decisions**:
  - `Search`: the dashboard's case-insensitive title filter.
  - `Guard`: the token/path redirect and the protected route table.
  - `NoteForm`: edit-mode prefill, image choice, submit validation and dispatch, and the handling of the result.
  - `Cache`: the cached note shape that `Search` and `NoteForm` share.

Several things are parameters:

- **JWT verification** is an oracle `verify: string -> Option<UserId>`. `None` stands for a verify that throws, which every note handler that verifies a token answers with 500 "Server Error", not 401.
- **Password hashing, password comparison and Google ID-token verification** are oracles passed to the user handlers.
- **The upload** is a success flag.
- **Fresh values**: the note or user id, the random file-name identifier, the creation time and Google signup's random password.
- **The validator's verdict** is a boolean. The route table in `server/route/User.js` attaches no validation chains, so as wired this verdict is always "valid".

A save that would reuse an existing id fails in the database and is caught by the handler. The model gives 500 in `createNote` and `register`. In `googleSignup` the catch answers 401 "Invalid Google token".

Three behaviours of the handlers are worth stating on their own:

- `updateNote` never reads the uploaded file, so an update keeps the note's image even when a file is sent.
- `createNote` checks title, content and file before it looks at the token.
- The order of notes with equal `createdAt` is left open, because the database sort is not stable.

Observations the lemmas make precise:

- Login looks up the lower-cased email, but register stores the email exactly as given. So an account registered as `Ann@x.com` cannot log in (`Users.MixedCaseRegisterCannotLogin`) unless the user schema lowercases emails. That schema is not part of this model.
- The header `"Bearer "` yields the empty token, which the handlers treat as missing (401).
- `getPublicUrl` maps `media_resources/x` and `x` to the same URL. It is injective only on generated keys.

## Model

| member | source | states |
|---|---|---|
| Text.Split | server/controller/Notes.js:10 | `split(" ")` yields separator-free pieces, at least one, whose join with the separator is the input |
| Text.SplitJoin | server/controller/Notes.js:10 | splitting the join of separator-free pieces gives the pieces back (the other direction of the round trip) |
| Text.SplitFirstPiece | server/controller/Notes.js:10 | the first piece of a split is the separator-free prefix that ends at a separator or at the end |
| Storage.StripMediaPrefix | server/uploadToR2.js:31 | the anchored prefix is removed once (prefix + result = path); a path without it is returned unchanged |
| Storage.PublicUrl | server/uploadToR2.js:29-33 | the URL is the base, a slash, then the key relative to the prefix |
| Storage.PublicUrlOfObjectKey | server/uploadToR2.js:29-33 | for `media_resources/<uuid>-<name>` the URL is `base/<uuid>-<name>` |
| Storage.StripsOnlyOnce | server/uploadToR2.js:31 | a doubled prefix loses only its first copy |
| Storage.UnanchoredPrefixKept | server/uploadToR2.js:31 | a copy of the prefix after position 0 is kept with everything after it, because the regex is anchored, even when the path also starts with the prefix |
| Storage.UnanchoredExample | server/uploadToR2.js:31 | `x/media_resources/a.png` is left as it is |
| Storage.PublicUrlInjectiveOnKeys | server/uploadToR2.js:29-33 | two prefixed keys with the same URL are the same key |
| Storage.PrefixedAndBareCollide | server/uploadToR2.js:31 | a prefixed key and its bare remainder give the same URL |
| Lookup.First | server/controller/User.js:17 | `findOne` and `find` return the first match in order, or nothing when no element matches |
| Users.Register | server/controller/User.js:10-39 | validation failure gives 400 first; an exactly matching stored email gives 400 "User already exists" and no change; success appends exactly one user with `hash(password)` and returns 201 with a `7d` token for it; 201 happens exactly when the email and the id are free; a free email with a taken id makes the save throw, answered 500 "Server Error" with no change |
| Users.Login | server/controller/User.js:40-64 | the store never changes; 200 exactly when the first user with the lower-cased email accepts the password; every 401 is the identical "Invalid credentials"; the token has the claims of that first user and `1h` |
| Users.GoogleLogin | server/controller/User.js:68-92 | never adds a user; a failed verification gives 401 "Invalid Google token"; an unknown email gives 401 "User not found. Please sign up first."; 200 exactly when the verified email is stored, with a `7d` token for the first user with that email |
| Users.GoogleSignup | server/controller/User.js:94-124 | a failed verification gives 401; an existing email gives 400 with no change; a free email with a taken id makes the save throw, answered 401 "Invalid Google token" with no change; every 401 is "Invalid Google token"; 201 exactly when the verified email and the new id are free, and then exactly one user with the hashed random password is appended and a `7d` token issued |
| Users.RegisterKeepsEmailsUnique | server/controller/User.js:17-20 | register preserves "no two accounts share an email" |
| Users.GoogleSignupKeepsEmailsUnique | server/controller/User.js:105-108 | Google signup preserves "no two accounts share an email" |
| Users.RegisterTwiceFails | server/controller/User.js:17-20 | a second register of the same email gets 400 "User already exists", whatever the password |
| Users.RegisterThenLogin | server/controller/User.js:10-64 | after registering a lower-case email, login with the same password succeeds with the new account's claims and `1h` |
| Users.MixedCaseRegisterCannotLogin | server/controller/User.js:17-47 | after registering an email with upper-case letters, login with it gets "Invalid credentials" unless the lower-case form is stored |
| Users.GoogleSignupThenLogin | server/controller/User.js:79-119 | after Google signup, Google login with the same ID token finds the new account |
| Notes.GetTokenFromHeader | server/controller/Notes.js:7-11 | the result is absent exactly when the header is missing or does not start with "Bearer "; otherwise it is the space-free text after "Bearer ", up to the next space or the end |
| Notes.TokenOfBearerHeader | server/controller/Notes.js:7-11 | "Bearer " + a space-free token + (nothing or a space and more) yields that token |
| Notes.HeaderExamples | server/controller/Notes.js:7-11 | "bearer abc" gives none; "Bearer " gives the falsy empty token; "Bearer a b" gives "a" |
| Notes.CreateNote | server/controller/Notes.js:14-51 | missing fields give 400 even without a token; then a missing token gives 401; once fields and token are present, every other failure (verify, upload, save) is 500 "Server Error"; failures leave the store unchanged; 201 adds exactly the new note, owned by the decoded user with image `base/<uuid>-<name>`, and keeps every other note |
| Notes.GetNotes | server/controller/Notes.js:54-70 | a missing token gives 401; a failed verify gives 500; otherwise 200 with a listing of exactly the caller's notes, each once, as stored, newest first |
| Notes.ListOwned | server/controller/Notes.js:62 | the collected list is an owned listing (the query with its descending sort) |
| Notes.InsertNewestFirst | server/controller/Notes.js:62 | insertion keeps the list newest first with distinct ids and adds exactly one id |
| Notes.InsertedAt | server/controller/Notes.js:62 | inserting at the first strictly older position keeps order and distinctness |
| Notes.DistinctIdsCount | server/controller/Notes.js:62 | a listing with distinct ids is as long as its id set |
| Notes.ListingLength | server/controller/Notes.js:62 | a listing has exactly one entry per owned note |
| Notes.EmptyListing | server/controller/Notes.js:62-64 | a user with no notes gets the empty list |
| Notes.CreateVisibleOnlyToOwner | server/controller/Notes.js:37 | a created note joins its owner's notes, and every other user's notes and listings are unchanged |
| Notes.AddedNoteOwnership | server/controller/Notes.js:33-40 | adding a note under a fresh id changes only its owner's set of notes |
| Notes.DeleteNote | server/controller/Notes.js:72-92 | 401 without a token; 500 on a failed verify; a missing and a foreign note both give the same 403 and no change; success removes exactly that id and keeps every other note |
| Notes.DeleteUndoesCreate | server/controller/Notes.js:14-92 | deleting the just-created note as its creator restores the store |
| Notes.DeleteTwiceForbidden | server/controller/Notes.js:80-84 | a second delete of the same id gets the same 403 as a foreign note |
| Notes.UpdateNote | server/controller/Notes.js:94-118 | the same 401/500/403 rule; success changes only the provided title and content; image, owner, createdAt and every other note are kept |
| Notes.UpdateIgnoresFileAndIsIdempotent | server/controller/Notes.js:103-113 | the reply and store do not depend on the uploaded file; repeating an update changes nothing further |
| Notes.GetAllNotes | server/controller/Notes.js:122-129 | 200 with every note of every user, with no filter and no token check; the owner is populated exactly when a user has that id, with that user's id, name and email |
| Notes.AllNotesContainListing | server/controller/Notes.js:120-123 | the unfiltered list contains every entry of a user's owned listing unchanged, and every note in it owned by that user is in the listing |
| Notes.PopulateOwner | server/controller/Notes.js:124 | the populated owner exists exactly when some user has the note's user id, and it is the id, name and email of the first user with that id |
| Search.FilterByTitle | client/src/pages/Home.jsx:25-31 | the result is an order-preserving subsequence of the notes; every kept note matches; every matching note is kept |
| Search.FilterCounts | client/src/pages/Home.jsx:25-31 | each note occurs in the filtered list exactly as often as in the notes when it matches, and never otherwise |
| Search.FilterIgnoresCase | client/src/pages/Home.jsx:28 | queries equal up to case give the same result |
| Search.FilterLowerQuery | client/src/pages/Home.jsx:28 | searching for the lower-cased query is the same search |
| Search.EmptySearchKeepsTitled | client/src/pages/Home.jsx:28 | the empty search keeps exactly the notes whose title is defined, empty titles included |
| Search.SearchExamples | client/src/pages/Home.jsx:28 | a missing title never matches; an empty title matches ""; "NoTe" finds "My note" |
| Guard.Check | client/src/App.jsx:14-30 | authenticated exactly when a token is present; go to "/" exactly with a token on /login or /register; go to "/login" exactly without a token on any other path; otherwise stay |
| Guard.RedirectSettles | client/src/App.jsx:19-29 | after one redirect the guard stays put |
| Guard.Route | client/src/App.jsx:40-46 | "/", "/create" and "/edit-note/:id" show the login form when not authenticated; when authenticated "/" shows the dashboard and "/create" and "/edit-note/:id" the editor; "/login" and "/register" always show their forms; unknown paths match nothing |
| Guard.ProtectedPagesNeedToken | client/src/App.jsx:14-46 | after the guard, the dashboard or the editor is shown only when a token is stored |
| Guard.GuardExamples | client/src/App.jsx:19-29 | the four guard cases on concrete paths, including the empty stored token |
| NoteForm.PrefillFromCache | client/src/pages/CreateNotes.jsx:20-37 | a cached route id fills title and content from the first note with that id and clears the image; an uncached id gives "Note not found" and navigation to "/" |
| NoteForm.ChooseFile | client/src/pages/CreateNotes.jsx:39-47 | a chosen file becomes the image; title and content are unchanged |
| NoteForm.ChosenFileIsSent | client/src/pages/CreateNotes.jsx:39-61 | a chosen file is sent as the third form part on the next submit; choosing nothing leaves the submit unchanged |
| NoteForm.FormOf | client/src/pages/CreateNotes.jsx:58-61 | the form always carries title then content, plus the image only when one was chosen |
| NoteForm.Submit | client/src/pages/CreateNotes.jsx:49-65 | an empty title or content only warns; otherwise it sends `updateNote(id, form)` with a route id and `addNote(form)` without one, and marks loading |
| NoteForm.EnabledSubmitSends | client/src/pages/CreateNotes.jsx:148 | an enabled button always sends; a warning only comes from a disabled button; sending disables it |
| NoteForm.PrefilledEditSubmitsUpdate | client/src/pages/CreateNotes.jsx:20-65 | a pre-filled edit form submits an update of that note with its cached title and content and no image |
| NoteForm.Finish | client/src/pages/CreateNotes.jsx:63-78 | loading ends; success gives the add or update toast and "/"; a failed reply with a message shows that message; anything else shows "Something went wrong." |

## Left out

- JWT signing and verification, bcrypt and Google `verifyIdToken` are foreign libraries. They are oracles, and expiry is kept only as the `expiresIn` tag. Clocks and cryptography are not modelled.
- The S3/R2 upload is network I/O. Only its success or failure is a parameter, and the file bytes and MIME type are not used.
- UUID generation, ObjectId generation, `Math.random` and timestamps are parameters. `updatedAt` is not modelled.
- The Mongoose schemas (`server/models/*`), `authMiddleware` and `uploadMemory` are not part of this model. Schema validation on save, email normalisation in the schema, and what the middleware rejects are therefore not modelled.
- A malformed note id makes `findById` throw, which is answered 500. The model treats ids as plain keys, so this path is not modelled.
- Other thrown errors are not modelled: an undefined email in `login` (`toLowerCase` throws, answered 500) and database failures other than a duplicate id.
- Notes.UpdateNote: a title or content sent as JSON `null` is assigned by the source (`typeof null` is not "undefined"). The model's fields are only absent or strings.
- Guard.Route: React Router's trailing-slash and case-insensitive matching is not modelled; paths match exactly.
- The image preview state in the note form (`FileReader` data URLs and the cached `imageUrl`) is display-only and is left out.
- `client/src/store/store.js` is fetch and localStorage plumbing and is not modelled. `Login.jsx`, `Register.jsx`, `NoteItem.jsx`, the route wiring, `server.js` and `main.jsx` are UI or glue.
- Case mapping is ASCII-only `toLowerCase`. Unicode case mapping is not modelled.
- Concurrent requests, such as racing deletes, are out of scope. Each handler is one sequential transition.

# InterCamp backend helpers, modelled in Dafny

This project models the logic in `src/firebase/firebas.utils.js`, the file through which the
quiz application talks to its Firebase backend. Most of that file sets up the library.
Three pieces of it make decisions of their own, and those are modelled:

- `convertCollectionsSnapshotToMap` (module `QuizCollections`, file `quiz_collections.dfy`).
  It maps each quiz document `(id, title, questions)` to a record
  `{routeName, id, title, questions}`, with `routeName = encodeURI(title.toLowerCase())`.
  It then folds the records into a dictionary keyed by the lower-cased title, where a later
  record overwrites an earlier one with the same key. The `map` step is the function
  `Transform`. The `reduce` step is the method `ConvertCollectionsSnapshotToMap`: a loop that
  writes into an accumulator map, proved equal to the left fold `Reduce`. `toLowerCase` and
  `encodeURI` (ECMA-262, section 19.2.6.3) are the parameters `lower` and `encodeURI`. Nothing is
  assumed about them beyond being applied consistently and returning a string for every title.
- `createUserProfileDocument` (module `UserProfiles`, file `user_profiles.dfy`). The `users`
  collection is the field `profiles` of class `UserStore`, a map from user id to the stored
  profile. The backend's answers are inputs of the method: `readOk` for `get` and `writeOk`
  for `set`. The value of `new Date()` is the input `createdAt`. Ghost counters
  `readCalls` and `writeCalls` count issued `get` and `set` calls, so that "no store access"
  and "one write at most" can be stated.
- `getProviderById` and the decision in `handleDuplicateAccounts` (module `AuthProviders`,
  file `auth_providers.dfy`). The three provider objects become the tags of `Provider`. The
  handler becomes a pure function from the error code and the list of sign-in methods to a
  `Reaction`: either `Ignored`, or `PopupSignIn(provider)` with the provider looked up for
  `methods[0]`.

`wrappers.dfy` holds the `Option` type, which stands for JavaScript's `undefined`.

Two behaviours of the code are kept as they are:

- The code builds a plain object. The model uses a Dafny `map`, and the object's key order
  is not modelled.
- `handleDuplicateAccounts` has no guard on the provider lookup. For an unknown or missing
  first method it still calls `signInWithPopup` with `undefined`. The model keeps this
  behaviour as `PopupSignIn(None)`.

## Model

| member | source | states |
|---|---|---|
| QuizCollections.ToCollection | src/firebase/firebas.utils.js:43-51 | the record built for one document copies its `id`, `title` and `questions` and has `routeName == encodeURI(lower(title))` |
| QuizCollections.Transform | src/firebase/firebas.utils.js:43-51 | the map step keeps the length and order of the documents, copies `id`, `title` and `questions` unchanged, and sets `routeName` to `encodeURI(lower(title))` |
| QuizCollections.Reduce | src/firebase/firebas.utils.js:53-56 | the fold's keys are exactly the lower-cased titles of the records folded |
| QuizCollections.ReduceSize | src/firebase/firebas.utils.js:53-56 | the fold has no more entries than records |
| QuizCollections.ReduceLastWins | src/firebase/firebas.utils.js:53-55 | a record that no later record shares a key with is the value stored under its key |
| QuizCollections.ReduceSource | src/firebase/firebas.utils.js:53-55 | every entry of the fold is the last record whose lower-cased title is that key |
| QuizCollections.SnapshotToMap | src/firebase/firebas.utils.js:42-57 | the value the conversion returns; its key set is exactly the set of `lower(d.title)` over the documents |
| QuizCollections.SnapshotToMapSize | src/firebase/firebas.utils.js:53-56 | the result has at most as many entries as there are documents, and no documents give the empty map |
| QuizCollections.EntriesKeyedByTitle | src/firebase/firebas.utils.js:46-54 | every entry `k -> v` has `k == lower(v.title)` and `v.routeName == encodeURI(k)` |
| QuizCollections.LastWriteWins | src/firebase/firebas.utils.js:53-55 | the record of the last document with a given lower-cased title is the one stored under that title |
| QuizCollections.EntryFromLastDoc | src/firebase/firebas.utils.js:43-55 | every entry is the record built from the last document whose lower-cased title is its key |
| QuizCollections.CaseCollisionKeepsSecond | src/firebase/firebas.utils.js:53-55 | two documents whose titles collide after lower-casing give one entry, holding the second document's record |
| QuizCollections.ConvertCollectionsSnapshotToMap | src/firebase/firebas.utils.js:42-57 | the map-then-reduce loop returns the fold of the transformed documents, whose keys are the lower-cased titles and whose entries are keyed by their own title and routed by their key |
| UserProfiles.UserDocRef | src/firebase/firebas.utils.js:9 | the reference is `users/` followed by the user id, which can be read back from it |
| UserProfiles.NewProfile | src/firebase/firebas.utils.js:13-22 | the written record has the fields `displayName`, `email`, `createdAt` plus those of `additionalData`; `additionalData` wins for every field it has, and the user's values and the timestamp fill the rest |
| UserProfiles.UserStore.CreateUserProfileDocument | src/firebase/firebas.utils.js:7-28 | no user: `undefined`, no `get` or `set` issued; with a user exactly one `get`; a failed read rejects before any write; otherwise the reference is returned; an existing profile is left as it is with no write; a missing one gets exactly one write, which stores `NewProfile` when it succeeds and changes nothing when it fails; stored profiles are never changed |
| UserProfiles.UserStore.CreateUserProfileDocumentTwice | src/firebase/firebas.utils.js:12-27 | when both reads succeed and the first write succeeds, two calls in a row for one user both return the reference and issue at most one write between them (after a swallowed failed write the next call writes again) |
| AuthProviders.ProviderId | src/firebase/firebas.utils.js:75-79 | each provider is registered under one of the three keys of the provider table |
| AuthProviders.GetProviderById | src/firebase/firebas.utils.js:74-81 | the provider registered under `id` is returned exactly when `id` is its provider id, and `undefined` for every id other than `google.com`, `github.com` and `facebook.com` |
| AuthProviders.ProviderIdsDistinct | src/firebase/firebas.utils.js:75-79 | the three providers have three distinct ids |
| AuthProviders.HandleDuplicateAccounts | src/firebase/firebas.utils.js:83-96 | the handler acts only on code `auth/account-exists-with-different-credential`; it then attempts a popup sign-in whose provider, when there is one, is the one registered under `methods[0]`, and there is one exactly when the list is non-empty and `methods[0]` is a known id |
| AuthProviders.OnlyFirstMethodMatters | src/firebase/firebas.utils.js:88 | the reaction depends on the first sign-in method only, not on the rest of the list |

## Left out

- Firebase initialisation and the exported `auth` and `firestore` handles (lines 59-62): configuration of a library that is not part of this model.
- Provider construction and `setCustomParameters` (lines 64-72): library configuration; each provider is a tag here.
- The redirect sign-in triggers `signInWithGoogle`, `signInWithFacebook` and `signInWithGitHub` (lines 99-103), and in the handler the `fetchSignInMethodsForEmail` call, the popup sign-in and the credential linking (lines 85-95): network and authentication I/O with unobserved promise rejections. Only the handler's choice is modelled, with the resolved method list as an input.
- `addQuizzesAndDocuments` (lines 30-39): it only stages writes in a batch that it never commits, so nothing observable remains to model beyond library calls.
- `new Date()` and `console.log` (lines 15, 24): the timestamp is the input `createdAt`; logging has no effect on the state.
- Unicode case mapping and percent-encoding: `lower` and `encodeURI` are opaque parameters.
- A document whose `title` is not a string makes `toLowerCase` throw a TypeError (line 46). Here `title` is a string by type.
- `encodeURI` throws a URIError on a title holding an unpaired surrogate (line 46), so the conversion throws. The model returns a map for every title, since a Dafny string holds no surrogates; Firestore stores strings as UTF-8, so such titles hardly reach this code.
- JavaScript object-key quirks: a `__proto__` title in the reduce accumulator, and inherited keys such as `constructor` in the provider table, which the code would return as non-provider values.
- Field values that Firestore refuses (for example an `undefined` `displayName`) make `set` fail; the model covers them through `writeOk`, without saying which values fail.
- Malformed user ids that do not form a valid document path: `firestore.doc` would throw there, which is not modelled.
- The race between concurrent `createUserProfileDocument` calls for one user, between the existence check and the write: the calls are modelled one after another.

/**
 Model of `createUserProfileDocument` over an abstract `users` collection.
 The document store is a map from user id to the stored profile, a profile
 being a map from field name to value. What the backend decides, whether
 `userRef.get()` and `userRef.set(...)` succeed, and the `new Date()` timestamp
 are inputs of the operation.
 */
module UserProfiles {
  import opened Wrappers

  /** The fields of the signed-in user that the operation reads. */
  datatype AuthUser<V> = AuthUser(uid: string, displayName: V, email: V)

  /** A document reference, identified by its path. */
  datatype DocRef = DocRef(path: string)

  /** The reference `users/${uid}`; the user id can be read back from it. */
  function UserDocRef(uid: string): (r: DocRef)
    ensures |r.path| == 6 + |uid| && r.path[..6] == "users/" && r.path[6..] == uid
  {
    DocRef("users/" + uid)
  }

  /** The record written for a new user: `displayName`, `email` and
      `createdAt`, with every field of `additionalData` spread over them. An
      `additionalData` of `undefined` spreads nothing, like the empty map. */
  function NewProfile<V>(user: AuthUser<V>, createdAt: V, additionalData: map<string, V>): (p: map<string, V>)
    ensures p.Keys == {"displayName", "email", "createdAt"} + additionalData.Keys
    ensures forall k :: k in additionalData ==> p[k] == additionalData[k]
    ensures "displayName" !in additionalData ==> p["displayName"] == user.displayName
    ensures "email" !in additionalData ==> p["email"] == user.email
    ensures "createdAt" !in additionalData ==> p["createdAt"] == createdAt
  {
    map["displayName" := user.displayName, "email" := user.email, "createdAt" := createdAt] + additionalData
  }

  /** How the returned promise settles: with `undefined` when there is no
      user, with the reference, or rejected because the read failed (that
      rejection is not caught). */
  datatype Outcome = Undefined | Resolved(ref: DocRef) | ReadRejected

  class UserStore<V> {
    /** The `users` collection: user id to stored profile. */
    var profiles: map<string, map<string, V>>
    /** How many `get` calls have been issued, whether or not they succeeded. */
    ghost var readCalls: nat
    /** How many `set` calls have been issued, whether or not they succeeded. */
    ghost var writeCalls: nat

    constructor (initial: map<string, map<string, V>>)
      ensures profiles == initial && readCalls == 0 && writeCalls == 0
    {
      profiles := initial;
      readCalls := 0;
      writeCalls := 0;
    }

    /** `createUserProfileDocument(userAuth, additionalData)`. `readOk` and
        `writeOk` say whether the backend resolves `get` and `set`;
        `createdAt` is the value of `new Date()`. */
    method CreateUserProfileDocument(userAuth: Option<AuthUser<V>>, additionalData: map<string, V>,
                                     createdAt: V, readOk: bool, writeOk: bool)
      returns (result: Outcome)
      modifies this
      // the store is read once when there is a user, and not at all otherwise
      ensures readCalls == old(readCalls) + (if userAuth.Some? then 1 else 0)
      // no user: nothing is read or written
      ensures userAuth.None? ==>
                result == Undefined && profiles == old(profiles) && writeCalls == old(writeCalls)
      // a failed read rejects before any write
      ensures userAuth.Some? && !readOk ==>
                result == ReadRejected && profiles == old(profiles) && writeCalls == old(writeCalls)
      // otherwise the reference is returned, whatever happened to the write
      ensures userAuth.Some? && readOk ==> result == Resolved(UserDocRef(userAuth.value.uid))
      // an existing profile is not written again
      ensures userAuth.Some? && readOk && userAuth.value.uid in old(profiles) ==>
                profiles == old(profiles) && writeCalls == old(writeCalls)
      // a missing profile is written once; a failed write is swallowed and changes nothing
      ensures userAuth.Some? && readOk && userAuth.value.uid !in old(profiles) ==>
                && writeCalls == old(writeCalls) + 1
                && profiles == if writeOk
                               then old(profiles)[userAuth.value.uid := NewProfile(userAuth.value, createdAt, additionalData)]
                               else old(profiles)
      // stored profiles are never changed or removed
      ensures forall u :: u in old(profiles) ==> u in profiles && profiles[u] == old(profiles)[u]
    {
      if userAuth.None? {
        return Undefined;
      }
      var user := userAuth.value;
      var userRef := UserDocRef(user.uid);
      readCalls := readCalls + 1;
      if !readOk {
        return ReadRejected;
      }
      var snapshotExists := user.uid in profiles;
      if !snapshotExists {
        writeCalls := writeCalls + 1;
        if writeOk {
          profiles := profiles[user.uid := NewProfile(user, createdAt, additionalData)];
        }
      }
      return Resolved(userRef);
    }

    /** Two calls in sequence for the same user, with both reads and the
        first write succeeding: at most one write, and the second call leaves
        the store as the first call left it. (A swallowed failure of the
        first write would let the second call write again.) */
    method CreateUserProfileDocumentTwice(user: AuthUser<V>, additionalData: map<string, V>,
                                          createdAt1: V, createdAt2: V)
      returns (first: Outcome, second: Outcome)
      modifies this
      ensures first == second == Resolved(UserDocRef(user.uid))
      ensures readCalls == old(readCalls) + 2
      ensures writeCalls == old(writeCalls) + (if user.uid in old(profiles) then 0 else 1)
      ensures profiles == if user.uid in old(profiles) then old(profiles)
                          else old(profiles)[user.uid := NewProfile(user, createdAt1, additionalData)]
    {
      first := CreateUserProfileDocument(Some(user), additionalData, createdAt1, true, true);
      second := CreateUserProfileDocument(Some(user), additionalData, createdAt2, true, true);
    }
  }
}

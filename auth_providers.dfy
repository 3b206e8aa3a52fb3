/**
 Model of the identity-provider lookup and of the decision made by the
 duplicate-account error handler. The provider objects themselves (their
 construction and custom parameters) are configuration of the backend
 library; here each is a tag.
 */
module AuthProviders {
  import opened Wrappers

  /** The three pre-configured providers. */
  datatype Provider = GoogleProvider | GitHubProvider | FacebookProvider

  /** The keys of the provider table. */
  const KnownProviderIds: set<string> := {"google.com", "github.com", "facebook.com"}

  /** The provider id each provider is registered under (its `providerId`). */
  function ProviderId(p: Provider): (id: string)
    ensures id in KnownProviderIds
  {
    match p
    case GoogleProvider => "google.com"
    case GitHubProvider => "github.com"
    case FacebookProvider => "facebook.com"
  }

  /** `getProviderById`: the provider registered under `id`, or `undefined`
      (None) when there is none. */
  function GetProviderById(id: string): (r: Option<Provider>)
    ensures forall p :: r == Some(p) <==> ProviderId(p) == id
    ensures r.None? <==> id !in KnownProviderIds
  {
    if id == "google.com" then Some(GoogleProvider)
    else if id == "github.com" then Some(GitHubProvider)
    else if id == "facebook.com" then Some(FacebookProvider)
    else None
  }

  /** The three providers are registered under three distinct ids. */
  lemma ProviderIdsDistinct(p: Provider, q: Provider)
    ensures ProviderId(p) == ProviderId(q) <==> p == q
  {
  }

  /** The error code the handler reacts to. */
  const AccountExistsWithDifferentCredential: string := "auth/account-exists-with-different-credential"

  /** What `handleDuplicateAccounts` does with a sign-in error: nothing, or a
      popup sign-in with the provider looked up for the first sign-in method
      registered for the e-mail address. The lookup is not guarded: an
      unknown or missing first method leads to a popup sign-in with an
      undefined provider (`PopupSignIn(None)`). */
  datatype Reaction = Ignored | PopupSignIn(provider: Option<Provider>)

  /** `handleDuplicateAccounts`, given the error's code and the list that
      `fetchSignInMethodsForEmail` resolves with. `methods[0]` of an empty
      list is `undefined`, which names no provider. */
  function HandleDuplicateAccounts(code: string, methods: seq<string>): (r: Reaction)
    ensures r.Ignored? <==> code != AccountExistsWithDifferentCredential
    ensures r.PopupSignIn? && r.provider.Some? ==> |methods| > 0 && ProviderId(r.provider.value) == methods[0]
    ensures r.PopupSignIn? ==>
              (r.provider.Some? <==> |methods| > 0 && methods[0] in KnownProviderIds)
  {
    if code == AccountExistsWithDifferentCredential then
      PopupSignIn(if |methods| == 0 then None else GetProviderById(methods[0]))
    else
      Ignored
  }

  /** Only the first registered method matters: the rest of the list is never
      consulted. */
  lemma OnlyFirstMethodMatters(code: string, m: string, rest1: seq<string>, rest2: seq<string>)
    ensures HandleDuplicateAccounts(code, [m] + rest1) == HandleDuplicateAccounts(code, [m] + rest2)
  {
  }
}

/**
 * The authentication client: the browser key-value store that holds the
 * session (`access_token`, `refresh_token`, and the `email` handed from
 * registration to OTP verification), the request decorator that adds the
 * bearer header, and the three credential calls that store the returned
 * tokens. A remote call is an input: the response it returned, or its error.
 */
module AuthService {
  import opened Wrappers

  const AccessTokenKey := "access_token"
  const RefreshTokenKey := "refresh_token"
  const EmailKey := "email"
  const AuthorizationHeader := "Authorization"
  const DefaultBaseUrl := "http://127.0.0.1:8000"

  datatype User = User(id: string, email: string, username: Option<string>)

  /** The body of a successful `/login/`, `/register/` or `/verify-otp/` response. */
  datatype AuthResponse = AuthResponse(accessToken: string, refreshToken: Option<string>, user: User)

  /** The error body of a rejected call; `message` is absent on transport errors. */
  datatype ApiError = ApiError(message: Option<string>, status: Option<int>)

  /** What a remote call came back with. */
  datatype Outcome = Succeeded(response: AuthResponse) | Failed(error: ApiError)

  datatype LoginCredentials = LoginCredentials(email: string, password: string)
  datatype RegisterCredentials = RegisterCredentials(email: string, password: string, username: Option<string>)
  datatype VerifyOtpRequest = VerifyOtpRequest(otp: string, email: string)

  /**
   * The text a form shows for a failed call: the server's message when it
   * sent a non-empty one (`error.response?.data.message || fallback`).
   */
  function ErrorText(error: ApiError, fallback: string): (text: string)
    ensures error.message.Some? && error.message.value != "" ==> text == error.message.value
    ensures error.message.None? || error.message.value == "" ==> text == fallback
    ensures fallback != "" ==> text != ""
  {
    match error.message
    case Some(m) => if m != "" then m else fallback
    case None => fallback
  }

  /** The configured base URL, or the local development server when it is unset or empty. */
  function BaseUrl(configured: Option<string>): (url: string)
    ensures url != ""
    ensures configured.Some? && configured.value != "" ==> url == configured.value
    ensures configured.None? || configured.value == "" ==> url == DefaultBaseUrl
  {
    if configured.Some? && configured.value != "" then configured.value else DefaultBaseUrl
  }

  /** `localStorage.getItem(key)`. */
  function GetItem(storage: map<string, string>, key: string): Option<string> {
    if key in storage then Some(storage[key]) else None
  }

  /** A non-empty access token is stored (`!!localStorage.getItem("access_token")`). */
  predicate HasAccessToken(storage: map<string, string>) {
    AccessTokenKey in storage && storage[AccessTokenKey] != ""
  }

  /**
   * `setAuthTokens`: each token is written only when the response carries a
   * non-empty one; a missing token leaves the stored one in place.
   */
  function WithTokens(storage: map<string, string>, response: AuthResponse): map<string, string> {
    var withAccess :=
      if response.accessToken != "" then storage[AccessTokenKey := response.accessToken] else storage;
    match response.refreshToken
    case Some(token) => if token != "" then withAccess[RefreshTokenKey := token] else withAccess
    case None => withAccess
  }

  /** `logout`: both token keys removed. */
  function WithoutTokens(storage: map<string, string>): map<string, string> {
    storage - {AccessTokenKey, RefreshTokenKey}
  }

  /** What a credential call leaves in storage: tokens only after a success. */
  function AfterCall(storage: map<string, string>, outcome: Outcome): map<string, string> {
    match outcome
    case Succeeded(response) => WithTokens(storage, response)
    case Failed(_) => storage
  }

  /** The request interceptor: the headers a request is sent with. */
  function Authorize(storage: map<string, string>, headers: map<string, string>): map<string, string> {
    if HasAccessToken(storage) then headers[AuthorizationHeader := "Bearer " + storage[AccessTokenKey]]
    else headers
  }

  lemma AuthorizeAddsBearer(storage: map<string, string>, headers: map<string, string>)
    ensures HasAccessToken(storage) ==>
      Authorize(storage, headers)[AuthorizationHeader] == "Bearer " + storage[AccessTokenKey]
    ensures !HasAccessToken(storage) ==> Authorize(storage, headers) == headers
    ensures forall h | h != AuthorizationHeader ::
      (h in Authorize(storage, headers) <==> h in headers) &&
      (h in headers ==> Authorize(storage, headers)[h] == headers[h])
  {
  }

  /** After storing a response the session is authenticated iff the response or the old storage held an access token. */
  lemma TokensAuthenticate(storage: map<string, string>, response: AuthResponse)
    ensures HasAccessToken(WithTokens(storage, response)) <==>
      response.accessToken != "" || HasAccessToken(storage)
    ensures response.accessToken != "" ==>
      WithTokens(storage, response)[AccessTokenKey] == response.accessToken
  {
  }

  /**
   * Storing is not an atomic replacement of the session: a response without a
   * refresh token keeps whatever refresh token was stored before.
   */
  lemma StaleRefreshTokenSurvives(storage: map<string, string>, response: AuthResponse)
    requires response.refreshToken.None? && RefreshTokenKey in storage
    ensures RefreshTokenKey in WithTokens(storage, response)
    ensures WithTokens(storage, response)[RefreshTokenKey] == storage[RefreshTokenKey]
  {
  }

  /**
   * What `setAuthTokens` leaves under each token key: a non-empty token from
   * the response is written, and an empty or missing one keeps what was stored.
   */
  lemma TokensWritten(storage: map<string, string>, response: AuthResponse)
    ensures response.accessToken != "" ==>
      GetItem(WithTokens(storage, response), AccessTokenKey) == Some(response.accessToken)
    ensures response.accessToken == "" ==>
      GetItem(WithTokens(storage, response), AccessTokenKey) == GetItem(storage, AccessTokenKey)
    ensures response.refreshToken.Some? && response.refreshToken.value != "" ==>
      GetItem(WithTokens(storage, response), RefreshTokenKey) == response.refreshToken
    ensures response.refreshToken.None? || response.refreshToken.value == "" ==>
      GetItem(WithTokens(storage, response), RefreshTokenKey) == GetItem(storage, RefreshTokenKey)
  {
  }

  /** Storing tokens touches no other key. */
  lemma TokensKeepOtherKeys(storage: map<string, string>, response: AuthResponse, key: string)
    requires key != AccessTokenKey && key != RefreshTokenKey
    ensures GetItem(WithTokens(storage, response), key) == GetItem(storage, key)
  {
  }

  /** `logout` removes exactly the two token keys and ends the session. */
  lemma LogoutClearsSession(storage: map<string, string>)
    ensures !HasAccessToken(WithoutTokens(storage))
    ensures WithoutTokens(storage).Keys == storage.Keys - {AccessTokenKey, RefreshTokenKey}
    ensures forall k | k in WithoutTokens(storage) :: WithoutTokens(storage)[k] == storage[k]
    ensures GetItem(WithoutTokens(storage), EmailKey) == GetItem(storage, EmailKey)
  {
  }

  /** A failed call leaves storage as it was; a successful one stores its tokens. */
  lemma CallStoresOnlyOnSuccess(storage: map<string, string>, outcome: Outcome)
    ensures outcome.Failed? ==> AfterCall(storage, outcome) == storage
    ensures outcome.Succeeded? ==> AfterCall(storage, outcome) == WithTokens(storage, outcome.response)
    ensures outcome.Succeeded? && outcome.response.accessToken != "" ==>
      HasAccessToken(AfterCall(storage, outcome))
  {
    if outcome.Succeeded? {
      TokensAuthenticate(storage, outcome.response);
    }
  }

  /** The browser's localStorage as this client uses it. */
  class TokenStore {
    var items: map<string, string>

    constructor (initial: map<string, string>)
      ensures items == initial
    {
      items := initial;
    }

    /** `isAuthenticated()`. */
    function IsAuthenticated(): (r: bool)
      reads this
      ensures r <==> GetItem(items, AccessTokenKey).Some? && GetItem(items, AccessTokenKey).value != ""
    {
      HasAccessToken(items)
    }

    /** The `enabled` flag of the current-user query: it runs only for an authenticated session. */
    function CurrentUserEnabled(): (r: bool)
      reads this
      ensures r == IsAuthenticated()
    {
      GetItem(items, AccessTokenKey).Some? && GetItem(items, AccessTokenKey).value != ""
    }

    /** The headers an outgoing request carries. */
    function RequestHeaders(headers: map<string, string>): (r: map<string, string>)
      reads this
      ensures IsAuthenticated() ==> AuthorizationHeader in r && r[AuthorizationHeader] == "Bearer " + items[AccessTokenKey]
      ensures !IsAuthenticated() ==> r == headers
      ensures forall h | h != AuthorizationHeader :: (h in r <==> h in headers) && (h in r ==> r[h] == headers[h])
    {
      Authorize(items, headers)
    }

    /** `localStorage.setItem(key, value)`. */
    method SetItem(key: string, value: string)
      modifies this
      ensures items == old(items)[key := value]
    {
      items := items[key := value];
    }

    method SetAuthTokens(response: AuthResponse)
      modifies this
      ensures items == WithTokens(old(items), response)
    {
      if response.accessToken != "" {
        items := items[AccessTokenKey := response.accessToken];
      }
      if response.refreshToken.Some? && response.refreshToken.value != "" {
        items := items[RefreshTokenKey := response.refreshToken.value];
      }
    }

    /** The body shared by the three mutations: post, then store the tokens of a success. */
    method Post(outcome: Outcome) returns (result: Outcome)
      modifies this
      ensures result == outcome
      ensures items == AfterCall(old(items), outcome)
    {
      if outcome.Succeeded? {
        SetAuthTokens(outcome.response);
      }
      result := outcome;
    }

    /** `POST /login/`. */
    method Login(credentials: LoginCredentials, outcome: Outcome) returns (result: Outcome)
      modifies this
      ensures result == outcome
      ensures items == AfterCall(old(items), outcome)
    {
      result := Post(outcome);
    }

    /** `POST /register/`. */
    method Register(credentials: RegisterCredentials, outcome: Outcome) returns (result: Outcome)
      modifies this
      ensures result == outcome
      ensures items == AfterCall(old(items), outcome)
    {
      result := Post(outcome);
    }

    /** `POST /verify-otp/`. */
    method VerifyOtp(request: VerifyOtpRequest, outcome: Outcome) returns (result: Outcome)
      modifies this
      ensures result == outcome
      ensures items == AfterCall(old(items), outcome)
    {
      result := Post(outcome);
    }

    method Logout()
      modifies this
      ensures items == WithoutTokens(old(items))
      ensures !IsAuthenticated()
    {
      items := items - {AccessTokenKey};
      items := items - {RefreshTokenKey};
      assert items == WithoutTokens(old(items));
    }
  }
}

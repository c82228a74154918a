/** The login state of a `Client` (tissue.go, `NewClient` and `httpClient`): the first call that
    needs a session posts the login form, and a `200` answer marks the client as logged in for
    every later call. */
module Login {
  import opened Wrappers

  /** The site used when `ClientOption.BaseURL` is left empty. */
  const DefaultBaseURL := "https://shikorism.net"

  /** What the login `POST` came back with: a transport error, or an HTTP status code. */
  datatype LoginResponse = TransportError | Answered(statusCode: int)

  /** Why `httpClient` returned no client. */
  datatype LoginError = RequestFailed | Unauthorized

  /** The error `httpClient` returns, given whether the client was already logged in and, when it
      was not, how the login request went. */
  function LoginOutcome(wasLoggedIn: bool, response: LoginResponse): (err: Option<LoginError>)
    ensures wasLoggedIn ==> err == None
    ensures !wasLoggedIn ==> (err == None <==> response == Answered(200))
    ensures !wasLoggedIn && response == TransportError ==> err == Some(RequestFailed)
    ensures !wasLoggedIn && response.Answered? && response.statusCode != 200 ==> err == Some(Unauthorized)
  {
    if wasLoggedIn then None
    else match response
      case TransportError => Some(RequestFailed)
      case Answered(status) => if status != 200 then Some(Unauthorized) else None
  }

  /** The flag after one `httpClient` call. */
  function LoggedInAfter(wasLoggedIn: bool, response: LoginResponse): bool
  {
    LoginOutcome(wasLoggedIn, response) == None
  }

  /** The flag after a series of `httpClient` calls, the `i`-th of which gets `responses[i]` when
      it posts the form. */
  function LoggedInAfterAll(start: bool, responses: seq<LoginResponse>): bool
  {
    if responses == [] then start
    else LoggedInAfter(LoggedInAfterAll(start, responses[..|responses| - 1]), responses[|responses| - 1])
  }

  /** Logging in is sticky: after a series of calls the client is logged in exactly when it
      started so or one of the calls was answered with `200`. */
  lemma {:induction false} LoggedInAfterAllIff(start: bool, responses: seq<LoginResponse>)
    ensures LoggedInAfterAll(start, responses) <==>
              start || exists i :: 0 <= i < |responses| && responses[i] == Answered(200)
  {
    if responses != [] {
      var init := responses[..|responses| - 1];
      var last := responses[|responses| - 1];
      LoggedInAfterAllIff(start, init);
      if exists i :: 0 <= i < |init| && init[i] == Answered(200) {
        var i :| 0 <= i < |init| && init[i] == Answered(200);
        assert responses[i] == Answered(200);
      }
      if exists i :: 0 <= i < |responses| && responses[i] == Answered(200) {
        var i :| 0 <= i < |responses| && responses[i] == Answered(200);
        if i < |init| {
          assert init[i] == Answered(200);
        }
      }
    }
  }

  /** `ClientOption`: the caller's settings, which the client keeps by reference. */
  class ClientOption {
    var baseURL: string
    var email: string
    var password: string

    constructor (baseURL: string, email: string, password: string)
      ensures this.baseURL == baseURL && this.email == email && this.password == password
    {
      this.baseURL := baseURL;
      this.email := email;
      this.password := password;
    }
  }

  class Client {
    const option: ClientOption
    var loggedIn: bool

    /** `NewClient`: fills in the default site in the caller's own options when none is given,
        keeps those options by reference, and is not yet logged in. */
    constructor (option: ClientOption)
      modifies option`baseURL
      ensures option.baseURL == (if old(option.baseURL) == [] then DefaultBaseURL else old(option.baseURL))
      ensures this.option == option
      ensures !loggedIn
    {
      if option.baseURL == [] {
        option.baseURL := DefaultBaseURL;
      }
      this.option := option;
      loggedIn := false;
    }

    /** `httpClient`: returns at once when logged in; otherwise posts the login form and sets the
        flag on a `200`. The token fetched for the form is not consulted: its error is dropped
        before the `POST`. */
    method HttpClient(response: LoginResponse) returns (err: Option<LoginError>)
      modifies this`loggedIn
      ensures err == LoginOutcome(old(loggedIn), response)
      ensures loggedIn == LoggedInAfter(old(loggedIn), response)
    {
      if loggedIn {
        return None;
      }
      match response {
        case TransportError =>
          return Some(RequestFailed);
        case Answered(status) =>
          if status != 200 {
            return Some(Unauthorized);
          }
      }
      loggedIn := true;
      err := None;
    }
  }
}

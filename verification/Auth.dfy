/** Enhanced authentication of MQTT v5.0 (src/state/auth.rs). */
module Authentication {
  import opened Prelude

  datatype AuthState = Idle | InitialAuthenticating | Authenticated | Reauthenticating

  datatype AuthAction = NowAuthenticated | Continue | Failed | MethodMismatch

  datatype AuthError = NotAuthenticated | V5OnlyOperation

  datatype AuthMethodError = Missing | Mismatch | Unexpected

  const SUCCESS: u8 := 0x00
  const CONTINUE_AUTHENTICATION: u8 := 0x18

  datatype Auth = Auth(state: AuthState, authMethod: Option<string>)
  {
    static function Initial(): Auth {
      Auth(Idle, None)
    }

    /** A method is known exactly while an exchange is under way or has succeeded. */
    predicate Valid() {
      state.Idle? <==> authMethod.None?
    }

    static function ConnectWithAuth(m: string): Auth {
      Auth(InitialAuthenticating, Some(m))
    }

    /** The AUTH packets that keep an exchange alive. */
    predicate Accepts(reason: u8, m: Option<string>) {
      match state
      case InitialAuthenticating => reason == CONTINUE_AUTHENTICATION && m == authMethod
      case Reauthenticating =>
        || (reason == CONTINUE_AUTHENTICATION && m == authMethod)
        || (reason == SUCCESS && (m == authMethod || m.None?))
      case _ => false
    }

    /** An AUTH packet that is in place by state and reason code, whatever its method. */
    predicate IsLegal(reason: u8) {
      || ((state.InitialAuthenticating? || state.Reauthenticating?) && reason == CONTINUE_AUTHENTICATION)
      || (state.Reauthenticating? && reason == SUCCESS)
    }

    function AuthReceived(reason: u8, m: Option<string>): (Auth, AuthAction) {
      if Accepts(reason, m) then
        if reason == SUCCESS then (this.(state := Authenticated), NowAuthenticated) else (this, Continue)
      else (Initial(), if IsLegal(reason) then MethodMismatch else Failed)
    }

    function ConnackError(m: Option<string>): Option<AuthMethodError> {
      if state.InitialAuthenticating? then
        if m.None? then Some(Missing) else if m != authMethod then Some(Mismatch) else None
      else if m.Some? then Some(Unexpected)
      else None
    }

    function ConnackAccepted(): Auth {
      if state.InitialAuthenticating? then this.(state := Authenticated) else this
    }

    function ReauthenticateSent(): Auth {
      if state.Authenticated? then this.(state := Reauthenticating) else this
    }
  }

  class AuthStateMachine {
    var state: AuthState
    var authMethod: Option<string>

    ghost function State(): Auth
      reads this
    {
      Auth(state, authMethod)
    }

    constructor ()
      ensures State() == Auth.Initial()
    {
      state, authMethod := Idle, None;
    }

    method ConnectWithAuth(m: string)
      modifies this
      ensures State() == Auth.ConnectWithAuth(m) && State().Valid()
    {
      authMethod := Some(m);
      state := InitialAuthenticating;
    }

    /** Two stages: legality of state and reason code, then the method. The method is known in the second. */
    method AuthReceived(reason: u8, m: Option<string>) returns (action: AuthAction)
      requires State().Valid()
      modifies this
      ensures (State(), action) == old(State()).AuthReceived(reason, m) && State().Valid()
    {
      var isLegal := match (state, reason)
        case (InitialAuthenticating, 0x18) => true
        case (Reauthenticating, 0x18) => true
        case (Reauthenticating, 0x00) => true
        case _ => false;
      if !isLegal {
        state, authMethod := Idle, None;
        return Failed;
      }
      var expected := authMethod.value;
      var isReauthSuccess := state.Reauthenticating? && reason == 0x00;
      if !((m.Some? && m.value == expected) || (m.None? && isReauthSuccess)) {
        state, authMethod := Idle, None;
        return MethodMismatch;
      }
      if reason == 0x18 {
        return Continue;
      }
      state := Authenticated;
      return NowAuthenticated;
    }

    method ConnackReceived(m: Option<string>) returns (r: Result<(), AuthMethodError>)
      requires State().Valid()
      modifies this
      ensures State().Valid()
      ensures match old(State()).ConnackError(m)
              case Some(e) => r == Err(e) && State() == old(State())
              case None => r.Ok? && State() == old(State()).ConnackAccepted()
    {
      if state.InitialAuthenticating? {
        var expected := authMethod.value;
        match m {
          case None => return Err(Missing);
          case Some(received) =>
            if received != expected {
              return Err(Mismatch);
            }
            state := Authenticated;
            return Ok(());
        }
      }
      return if m.Some? then Err(Unexpected) else Ok(());
    }

    method ReauthenticateSent() returns (r: Result<(), AuthError>)
      requires State().Valid()
      modifies this
      ensures State() == old(State()).ReauthenticateSent() && State().Valid()
      ensures r == if old(state).Authenticated? then Ok(()) else Err(NotAuthenticated)
    {
      if !state.Authenticated? {
        return Err(NotAuthenticated);
      }
      state := Reauthenticating;
      return Ok(());
    }

    method Reset()
      modifies this
      ensures State() == Auth.Initial()
    {
      state, authMethod := Idle, None;
    }
  }
}

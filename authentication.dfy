/// The command-line client's authentication machine
/// (`wayk_cli_client/src/authentication.rs`): it checks that the configured
/// method is offered by the server, sends the PFP negotiate token when the
/// method is PFP, and reads the server's verdict.
module CliAuthentication {
  import opened Wire
  import opened Errors
  import States
  import Text
  import Authenticate
  import Pfp
  import Messages
  import Config
  import Sm

  /// `AuthState`
  datatype AuthState = AuthInitial | Ongoing | PostAuth | AuthTerminated

  /// The `{:?}` rendering of a state.
  function StateName(s: AuthState): string
  {
    match s
    case AuthInitial => "Initial"
    case Ongoing => "Ongoing"
    case PostAuth => "PostAuth"
    case AuthTerminated => "Terminated"
  }

  /// The `{:?}` rendering of an authentication method.
  function AuthTypeName(t: Authenticate.AuthType): string
  {
    match t
    case AuthNone => "None"
    case Pfp => "PFP"
    case Srp => "SRP"
    case Ignored1 => "IGNORED1"
    case Ntlm => "NTLM"
    case Spnego => "SPNEGO"
    case Kerberos => "Kerberos"
    case CredSsp => "CredSSP"
    case Srd => "SRD"
  }

  /// Position of a state in the exchange.
  function Rank(s: AuthState): nat
  {
    match s
    case AuthInitial => 0
    case Ongoing => 1
    case PostAuth => 2
    case AuthTerminated => 3
  }

  /// Every error of the machine itself: a connection-sequence error of the
  /// authenticate stage with a description.
  function Failed(d: Desc): (r: Sm.ConnectionSMResult)
    ensures r.Err? && r.error.kind == ConnectionSequence(States.Authenticate)
    ensures r.error.description == Some(d) && r.error.source.None?
  {
    Err(ProtoError(ConnectionSequence(States.Authenticate), Some(d), None))
  }

  const SharedMissing := Plain("AuthenticateSM: shared data are missing")
  const ProcessFailed := Plain("authenticate process failed.")

  /// The negotiate token message of the PFP method, or the error of a name
  /// or text too long for its string type (corrected: a 256-byte text is an
  /// error, where the source panics).
  function PfpToken(name: string, text: string): (r: Sm.ConnectionSMResult)
    ensures r.Ok? <==> |Text.EncodeUtf8(name)| <= 64 && |Text.EncodeUtf8(text)| <= 255
    ensures r.Ok? ==> r.value.Some? && r.value.value.AuthenticateMsg?
  {
    Text.EncodeUtf8WellFormed(name);
    Text.EncodeUtf8WellFormed(text);
    match Pfp.NewOwnedNegotiateToken(Text.EncodeUtf8(name), Text.EncodeUtf8(text))
    case Ok(t) => Ok(Some(Messages.AuthenticateMsg(t)))
    case Err(e) => Err(e)
  }

  /// The token is an owned PFP token whose data reads back as the negotiate
  /// message carrying the name and the text.
  lemma PfpTokenCarriesNegotiate(name: string, text: string)
    requires PfpToken(name, text).Ok?
    ensures PfpToken(name, text).value.value.authenticate.OwnedToken?
    ensures PfpToken(name, text).value.value.authenticate.owned.authType == Authenticate.Pfp
    ensures Pfp.Decode(PfpToken(name, text).value.value.authenticate.owned.tokenData)
            == Ok(Step(Pfp.NegotiateToken(Pfp.NewNegotiate(Text.EncodeUtf8(name), Text.EncodeUtf8(text))), []))
  {
    Text.EncodeUtf8WellFormed(name);
    Text.EncodeUtf8WellFormed(text);
  }

  /// `update_without_message` from state `s`, with the server's methods
  /// when the shared data has been set.
  function WithoutMessage(s: AuthState, available: Option<seq<Authenticate.AuthType>>, config: Config.AuthConfig)
    : (r: (AuthState, Sm.ConnectionSMResult))
    ensures available.None? ==> r.0 == s && r.1.Err?
    ensures available.Some? && s == AuthInitial ==>
      && (r.1.Ok? <==> Config.AuthTypeOf(config) in available.value)
      && (r.1.Ok? ==> r.0 == Ongoing && r.1.value.None?)
      && (r.1.Err? ==> r.0 == s)
    ensures available.Some? && s == Ongoing ==>
      && r.0 == PostAuth
      && (config.NoAuth? ==> r.1 == Ok(None))
      && (config.PfpConfig? ==> r.1 == PfpToken(config.friendlyName, config.friendlyText))
    ensures s in {PostAuth, AuthTerminated} ==> r.0 == s && r.1.Err?
    ensures r.0 != s ==> Rank(r.0) == Rank(s) + 1
    ensures r.1.Err? && !(s == Ongoing && available.Some?) ==> r.1.error.kind == ConnectionSequence(States.Authenticate)
  {
    if available.None? then
      (s, Failed(SharedMissing))
    else
      match s
      case AuthInitial =>
        if Config.AuthTypeOf(config) in available.value then (Ongoing, Ok(None))
        else (s, Failed(MethodUnavailable(AuthTypeName(Config.AuthTypeOf(config)))))
      case Ongoing =>
        (PostAuth,
         match config
         case PfpConfig(name, text) => PfpToken(name, text)
         case NoAuth => Ok(None))
      case _ =>
        (s, Failed(UnexpectedCallIn("AuthenticateSM::update_without_message", StateName(s))))
  }

  /// `update_with_message` from state `s`.
  function WithMessage(s: AuthState, m: Messages.NowMessage): (r: (AuthState, Sm.ConnectionSMResult))
    ensures s == PostAuth ==> r.0 == AuthTerminated
    ensures s == PostAuth ==> (r.1.Ok? <==> m.AuthenticateMsg? && m.authenticate.Success?)
    ensures s != PostAuth ==> r.0 == s && r.1.Err?
    ensures r.1.Ok? ==> r.1.value.None?
    ensures r.1.Err? ==> r.1.error.kind == ConnectionSequence(States.Authenticate)
  {
    if s == PostAuth then
      if m.AuthenticateMsg? && m.authenticate.Success? then (AuthTerminated, Ok(None))
      else if m.AuthenticateMsg? && m.authenticate.Failure? then (AuthTerminated, Failed(ProcessFailed))
      else (AuthTerminated, Failed(UnexpectedReceived))
    else
      (s, Failed(UnexpectedCallIn("AuthenticateSM::update_with_message", StateName(s))))
  }

  /// The whole exchange with the "none" method: offered, then nothing to
  /// send, then the server's success ends the machine without error.
  lemma NoAuthExchange(available: seq<Authenticate.AuthType>, m: Messages.NowMessage)
    requires Authenticate.AuthNone in available
    requires m.AuthenticateMsg? && m.authenticate.Success?
    ensures WithoutMessage(AuthInitial, Some(available), Config.NoAuth) == (Ongoing, Ok(None))
    ensures WithoutMessage(Ongoing, Some(available), Config.NoAuth) == (PostAuth, Ok(None))
    ensures WithMessage(PostAuth, m) == (AuthTerminated, Ok(None))
  {
  }

  /// Any message at all ends the machine once it waits for the verdict; no
  /// other state can reach `Terminated`.
  lemma OnlyVerdictTerminates(s: AuthState, available: Option<seq<Authenticate.AuthType>>, config: Config.AuthConfig,
                              m: Messages.NowMessage)
    ensures WithoutMessage(s, available, config).0 != AuthTerminated || s == AuthTerminated
    ensures WithMessage(s, m).0 == AuthTerminated <==> s in {PostAuth, AuthTerminated}
  {
  }

  /// `AuthenticateSM`
  class AuthenticateSM {
    var state: AuthState
    var shared: Option<Sm.SharedData>
    const config: Config.AuthConfig

    /// `AuthenticateSM::new`
    constructor (config: Config.AuthConfig)
      ensures state == AuthInitial && shared.None? && this.config == config
    {
      state := AuthInitial;
      shared := None;
      this.config := config;
    }

    function IsTerminated(): (r: bool)
      reads this
      ensures r <==> state == AuthTerminated
    {
      state == AuthTerminated
    }

    function WaitingForPacket(): (r: bool)
      reads this
      ensures r <==> state == PostAuth
    {
      state == PostAuth
    }

    method SetSharedData(d: Sm.SharedData)
      modifies this
      ensures shared == Some(d) && state == old(state)
    {
      shared := Some(d);
    }

    /// The server's methods, as the shared data holds them.
    function Available(): Option<seq<Authenticate.AuthType>>
      reads this, if shared.Some? then {shared.value} else {}
    {
      if shared.Some? then Some(shared.value.availableAuthTypes) else None
    }

    method UpdateWithoutMessage() returns (r: Sm.ConnectionSMResult)
      modifies this
      ensures (state, r) == WithoutMessage(old(state), old(Available()), config)
      ensures shared == old(shared)
    {
      if shared.None? {
        return Failed(SharedMissing);
      }
      match state {
        case AuthInitial =>
          if Config.AuthTypeOf(config) in shared.value.availableAuthTypes {
            state := Ongoing;
            r := Ok(None);
          } else {
            r := Failed(MethodUnavailable(AuthTypeName(Config.AuthTypeOf(config))));
          }
        case Ongoing =>
          state := PostAuth;
          match config {
            case PfpConfig(name, text) =>
              r := PfpToken(name, text);
            case NoAuth =>
              r := Ok(None);
          }
        case _ =>
          r := Failed(UnexpectedCallIn("AuthenticateSM::update_without_message", StateName(state)));
      }
    }

    method UpdateWithMessage(m: Messages.NowMessage) returns (r: Sm.ConnectionSMResult)
      modifies this
      ensures (state, r) == WithMessage(old(state), m)
      ensures shared == old(shared)
    {
      if state == PostAuth {
        state := AuthTerminated;
        if m.AuthenticateMsg? && m.authenticate.Success? {
          r := Ok(None);
        } else if m.AuthenticateMsg? && m.authenticate.Failure? {
          r := Failed(ProcessFailed);
        } else {
          r := Failed(UnexpectedReceived);
        }
      } else {
        r := Failed(UnexpectedCallIn("AuthenticateSM::update_with_message", StateName(state)));
      }
    }
  }
}

/**
 Google sign-in: single-use state and handoff codes, and the accounts they lead to, as tables that
 seven kinds of request change. Random codes are arguments; a code that is already stored is refused
 by the table's uniqueness constraint. Times are in seconds; a user's id is its position.
 */
module GoogleOAuth {
  import opened Wrappers
  import opened Text

  const STATE_TTL := 10 * 60
  const HANDOFF_TTL := 2 * 60

  datatype StateRow = StateRow(nonce: string, expiresAt: int, usedAt: Option<int>)

  datatype HandoffRow = HandoffRow(userId: nat, expiresAt: int, usedAt: Option<int>)

  /**
   `password` is what `hashed_password` accepts: None for the hash of a value nobody knows.
   `disabled` is the account status an administrator sets.
   */
  datatype User = User(email: string, googleSub: Option<string>, passwordSet: bool, password: Option<string>, disabled: bool)

  datatype Tables = Tables(states: map<string, StateRow>, handoffs: map<string, HandoffRow>, users: seq<User>)

  /** The claims of a token whose signature, issuer, audience and expiry are in order; "" is a missing claim. */
  datatype Claims = Claims(nonce: string, emailVerified: bool, email: string, sub: string)

  datatype Identity = Identity(sub: string, email: string)

  datatype Error = CookieMismatch | StateRefused | TokenRejected | AccountDisabled | CodeTaken

  // ---------------------------------------------------------------- codes and claims

  predicate Consumable(states: map<string, StateRow>, state: string, cookie: Option<string>, now: int) {
    && cookie.Some? && cookie.value != "" && cookie.value == state
    && state in states && states[state].usedAt.None? && states[state].expiresAt > now
  }

  predicate Redeemable(handoffs: map<string, HandoffRow>, code: string, now: int) {
    code in handoffs && handoffs[code].usedAt.None? && handoffs[code].expiresAt > now
  }

  /** What the claims prove to whoever expects this nonce; None stands for every rejection. */
  function Verify(claims: Option<Claims>, nonce: string): Option<Identity> {
    if claims.None? || claims.value.nonce != nonce || !claims.value.emailVerified
       || claims.value.email == "" || claims.value.sub == "" then None
    else Some(Identity(claims.value.sub, Lower(Strip(claims.value.email))))
  }

  /** Only a callback carries a state, a cookie and claims. */
  datatype Callback = Callback(state: string, cookie: Option<string>, claims: Option<Claims>, handoff: string, now: int)

  /** Who a callback turns out to be. */
  function Identified(states: map<string, StateRow>, c: Callback): Option<Identity> {
    if Consumable(states, c.state, c.cookie, c.now) then Verify(c.claims, states[c.state].nonce) else None
  }

  // ---------------------------------------------------------------- accounts

  function BySub(users: seq<User>, sub: string): (found: Option<nat>)
    ensures found.Some? ==> found.value < |users| && users[found.value].googleSub == Some(sub)
    ensures found.None? ==> forall i :: 0 <= i < |users| ==> users[i].googleSub != Some(sub)
  {
    if users == [] then None
    else if users[|users| - 1].googleSub == Some(sub) then Some(|users| - 1)
    else BySub(users[..|users| - 1], sub)
  }

  function ByEmail(users: seq<User>, email: string): (found: Option<nat>)
    ensures found.Some? ==> found.value < |users| && users[found.value].email == email
    ensures found.None? ==> forall i :: 0 <= i < |users| ==> users[i].email != email
  {
    if users == [] then None
    else if users[|users| - 1].email == email then Some(|users| - 1)
    else ByEmail(users[..|users| - 1], email)
  }

  /** The user an identity resolves to: linked already, linked now by email, or new. */
  function Resolved(users: seq<User>, id: Identity): nat {
    if BySub(users, id.sub).Some? then BySub(users, id.sub).value
    else if ByEmail(users, id.email).Some? then ByEmail(users, id.email).value
    else |users|
  }

  /** The users once the identity has been resolved. */
  function Linked(users: seq<User>, id: Identity): (r: seq<User>)
    ensures |users| <= |r| && Resolved(users, id) < |r|
    ensures r[Resolved(users, id)].googleSub == Some(id.sub)
  {
    if BySub(users, id.sub).Some? then users
    else if ByEmail(users, id.email).Some? then
      var at := ByEmail(users, id.email).value;
      users[at := users[at].(googleSub := Some(id.sub))]
    else users + [User(id.email, Some(id.sub), false, None, false)]
  }

  predicate ResolvedIsDisabled(users: seq<User>, id: Identity) {
    Linked(users, id)[Resolved(users, id)].disabled
  }

  /** The email a registration form is accepted with. */
  function RegistrationEmail(raw: string): Option<string> {
    var email := Lower(Strip(raw));
    if '@' !in email || email[0] == '@' || email[|email| - 1] == '@' then None else Some(email)
  }

  // ---------------------------------------------------------------- steps and runs

  /** `admitted`: maintenance mode, the registration switch and the password policy let it pass. */
  datatype Step =
    | Begin(state: string, nonce: string, now: int)
    | GoogleCallback(callback: Callback)
    | Exchange(code: string, now: int)
    | Register(email: string, password: string, admitted: bool)
    | ResetPassword(user: nat, password: string)
    | Disconnect(user: nat)
    | SetStatus(user: nat, disabled: bool)

  function NextStates(states: map<string, StateRow>, step: Step): map<string, StateRow> {
    match step
    case Begin(state, nonce, now) =>
      if state in states then states else states[state := StateRow(nonce, now + STATE_TTL, None)]
    case GoogleCallback(c) =>
      if Consumable(states, c.state, c.cookie, c.now) then states[c.state := states[c.state].(usedAt := Some(c.now))] else states
    case Exchange(_, _) => states
    case Register(_, _, _) => states
    case ResetPassword(_, _) => states
    case Disconnect(_) => states
    case SetStatus(_, _) => states
  }

  function NextHandoffs(t: Tables, step: Step): map<string, HandoffRow> {
    match step
    case Begin(_, _, _) => t.handoffs
    case GoogleCallback(c) =>
      var id := Identified(t.states, c);
      if id.None? || ResolvedIsDisabled(t.users, id.value) || c.handoff in t.handoffs then t.handoffs
      else t.handoffs[c.handoff := HandoffRow(Resolved(t.users, id.value), c.now + HANDOFF_TTL, None)]
    case Exchange(code, now) =>
      if Redeemable(t.handoffs, code, now) then t.handoffs[code := t.handoffs[code].(usedAt := Some(now))] else t.handoffs
    case Register(_, _, _) => t.handoffs
    case ResetPassword(_, _) => t.handoffs
    case Disconnect(_) => t.handoffs
    case SetStatus(_, _) => t.handoffs
  }

  /** Disabled users are turned away from every authenticated route. */
  predicate MayDisconnect(users: seq<User>, user: nat) {
    user < |users| && !users[user].disabled && users[user].googleSub.Some? && users[user].passwordSet
  }

  function Registered(users: seq<User>, email: Option<string>, password: string): seq<User> {
    if email.None? || ByEmail(users, email.value).Some? then users
    else users + [User(email.value, None, true, Some(password), false)]
  }

  function NextUsers(t: Tables, step: Step): seq<User> {
    match step
    case Begin(_, _, _) => t.users
    case GoogleCallback(c) =>
      var id := Identified(t.states, c);
      if id.None? then t.users else Linked(t.users, id.value)
    case Exchange(_, _) => t.users
    case Register(raw, password, admitted) => if admitted then Registered(t.users, RegistrationEmail(raw), password) else t.users
    case ResetPassword(user, password) =>
      if user < |t.users| then t.users[user := t.users[user].(password := Some(password))] else t.users
    case Disconnect(user) =>
      if MayDisconnect(t.users, user) then t.users[user := t.users[user].(googleSub := None)] else t.users
    case SetStatus(user, disabled) =>
      if user < |t.users| then t.users[user := t.users[user].(disabled := disabled)] else t.users
  }

  function Next(t: Tables, step: Step): Tables {
    Tables(NextStates(t.states, step), NextHandoffs(t, step), NextUsers(t, step))
  }

  /** The tables after the first n steps. */
  function After(t: Tables, steps: seq<Step>, n: nat): Tables
    requires n <= |steps|
  {
    if n == 0 then t else Next(After(t, steps, n - 1), steps[n - 1])
  }

  const Empty := Tables(map[], map[], [])

  /** The code is good and its user is there and not disabled. */
  predicate MayEnter(t: Tables, code: string, now: int) {
    Redeemable(t.handoffs, code, now) && var user := t.handoffs[code].userId; user < |t.users| && !t.users[user].disabled
  }

  // ---------------------------------------------------------------- the stored tables

  class Database {
    var states: map<string, StateRow>
    var handoffs: map<string, HandoffRow>
    var users: seq<User>

    function Contents(): Tables
      reads this
    {
      Tables(states, handoffs, users)
    }

    constructor ()
      ensures Contents() == Empty
    {
      states, handoffs, users := map[], map[], [];
    }

    method BeginAuthorization(state: string, nonce: string, now: int) returns (issued: bool)
      modifies this
      ensures Contents() == Next(old(Contents()), Begin(state, nonce, now))
      ensures issued <==> state !in old(states)
    {
      issued := state !in states;
      if issued {
        states := states[state := StateRow(nonce, now + STATE_TTL, None)];
      }
    }

    /** Every refusal leaves the row as it was; success marks it used before anything else happens. */
    method ConsumeState(state: string, cookie: Option<string>, now: int) returns (record: Result<StateRow, Error>)
      modifies this`states
      ensures record.Ok? <==> Consumable(old(states), state, cookie, now)
      ensures record.Ok? ==> record.value.nonce == old(states)[state].nonce
      ensures record.Err? ==> record.error == if cookie != Some(state) || state == "" then CookieMismatch else StateRefused
      ensures states == if record.Ok? then old(states)[state := old(states)[state].(usedAt := Some(now))] else old(states)
    {
      if cookie.None? || cookie.value == "" || cookie.value != state {
        return Err(CookieMismatch);
      }
      if state !in states || states[state].usedAt.Some? || states[state].expiresAt <= now {
        return Err(StateRefused);
      }
      var row := states[state].(usedAt := Some(now));
      states := states[state := row];
      return Ok(row);
    }

    method FindOrLinkUser(id: Identity) returns (user: nat)
      modifies this`users
      ensures user == Resolved(old(users), id) && users == Linked(old(users), id)
    {
      var linked := BySub(users, id.sub);
      if linked.Some? {
        return linked.value;
      }
      var known := ByEmail(users, id.email);
      if known.Some? {
        user := known.value;
        users := users[user := users[user].(googleSub := Some(id.sub))];
        return;
      }
      user := |users|;
      users := users + [User(id.email, Some(id.sub), false, None, false)];
    }

    /** A state is spent even when the token behind it turns out to be worthless. */
    method CompleteGoogleSignIn(c: Callback) returns (user: Result<nat, Error>)
      modifies this
      ensures states == NextStates(old(states), GoogleCallback(c))
      ensures handoffs == old(handoffs)
      ensures users == NextUsers(old(Contents()), GoogleCallback(c))
      ensures var id := Identified(old(states), c);
              if id.None? then user.Err? && user.error != AccountDisabled else user == Ok(Resolved(old(users), id.value))
    {
      var record := ConsumeState(c.state, c.cookie, c.now);
      if record.Err? {
        return Err(record.error);
      }
      var id := Verify(c.claims, record.value.nonce);
      if id.None? {
        return Err(TokenRejected);
      }
      var found := FindOrLinkUser(id.value);
      return Ok(found);
    }

    /** A disabled user is linked like any other, but is handed no code. */
    method HandleCallback(c: Callback) returns (code: Result<string, Error>)
      modifies this
      ensures Contents() == Next(old(Contents()), GoogleCallback(c))
      ensures code.Ok? <==> c.handoff !in old(handoffs) && c.handoff in handoffs
      ensures var id := Identified(old(states), c);
              code == Err(AccountDisabled) <==> id.Some? && ResolvedIsDisabled(old(users), id.value)
    {
      var user := CompleteGoogleSignIn(c);
      if user.Err? {
        return Err(user.error);
      }
      if users[user.value].disabled {
        return Err(AccountDisabled);
      }
      if c.handoff in handoffs {
        return Err(CodeTaken);
      }
      handoffs := handoffs[c.handoff := HandoffRow(user.value, c.now + HANDOFF_TTL, None)];
      return Ok(c.handoff);
    }

    method ConsumeHandoff(code: string, now: int) returns (user: Option<nat>)
      modifies this
      ensures Contents() == Next(old(Contents()), Exchange(code, now))
      ensures user == if Redeemable(old(handoffs), code, now) then Some(old(handoffs)[code].userId) else None
    {
      if code !in handoffs || handoffs[code].usedAt.Some? || handoffs[code].expiresAt <= now {
        return None;
      }
      handoffs := handoffs[code := handoffs[code].(usedAt := Some(now))];
      return Some(handoffs[code].userId);
    }

    /** The exchange of a code for a session: the code is spent even when the user turns out to be disabled. */
    method ExchangeHandoff(code: string, now: int) returns (session: Option<nat>)
      modifies this
      ensures Contents() == Next(old(Contents()), Exchange(code, now))
      ensures session == if MayEnter(old(Contents()), code, now) then Some(old(handoffs)[code].userId) else None
    {
      session := ConsumeHandoff(code, now);
      if session.Some? && (session.value >= |users| || users[session.value].disabled) {
        session := None;
      }
    }

    method RegisterUser(raw: string, password: string, admitted: bool) returns (created: bool)
      modifies this
      ensures Contents() == Next(old(Contents()), Register(raw, password, admitted))
      ensures created <==> |users| > |old(users)|
    {
      var email := RegistrationEmail(raw);
      if !admitted || email.None? {
        return false;
      }
      var existing := ByEmail(users, email.value);
      if existing.Some? {
        return false;
      }
      users := users + [User(email.value, None, true, Some(password), false)];
      return true;
    }

    method SetPassword(user: nat, password: string)
      requires user < |users|
      modifies this
      ensures Contents() == Next(old(Contents()), ResetPassword(user, password))
    {
      users := users[user := users[user].(password := Some(password))];
    }

    method SetUserStatus(user: nat, disabled: bool)
      requires user < |users|
      modifies this
      ensures Contents() == Next(old(Contents()), SetStatus(user, disabled))
    {
      users := users[user := users[user].(disabled := disabled)];
    }

    method DisconnectGoogle(user: nat) returns (done: bool)
      requires user < |users|
      modifies this
      ensures Contents() == Next(old(Contents()), Disconnect(user))
      ensures done <==> MayDisconnect(old(users), user)
    {
      if users[user].disabled || users[user].googleSub.None? || !users[user].passwordSet {
        return false;
      }
      users := users[user := users[user].(googleSub := None)];
      return true;
    }
  }
}

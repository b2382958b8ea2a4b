/** What every run of Google sign-in requests keeps, and what each success must have been preceded by. */
module GoogleOAuthRuns {
  import opened Wrappers
  import opened Text
  import opened GoogleOAuth

  // ---------------------------------------------------------------- what a success is

  /** The step spends the state; the sign-in may still fail on its token. */
  predicate Consumes(t: Tables, step: Step, state: string) {
    step.GoogleCallback? && step.callback.state == state
    && Consumable(t.states, state, step.callback.cookie, step.callback.now)
  }

  predicate SignsIn(t: Tables, step: Step, user: nat) {
    step.GoogleCallback? && Identified(t.states, step.callback).Some?
    && user == Resolved(t.users, Identified(t.states, step.callback).value)
  }

  /** The step opens a session. */
  predicate Grants(t: Tables, step: Step, code: string, user: nat) {
    step.Exchange? && step.code == code && MayEnter(t, code, step.now) && t.handoffs[code].userId == user
  }

  // ---------------------------------------------------------------- codes are single-use

  lemma {:induction false} UsedStateStaysUsed(t: Tables, steps: seq<Step>, i: nat, j: nat, state: string)
    requires i <= j <= |steps|
    requires var rows := After(t, steps, i).states; state in rows && rows[state].usedAt.Some?
    ensures var rows := After(t, steps, j).states; state in rows && rows[state].usedAt.Some?
  {
    if i < j {
      UsedStateStaysUsed(t, steps, i, j - 1, state);
    }
  }

  /** A state is spent at most once in any run, whatever came of the first attempt. */
  lemma {:induction false} StateSpentOnce(t: Tables, steps: seq<Step>, i: nat, j: nat, state: string)
    requires i < j < |steps|
    requires Consumes(After(t, steps, i), steps[i], state)
    ensures !Consumes(After(t, steps, j), steps[j], state)
  {
    UsedStateStaysUsed(t, steps, i + 1, j, state);
  }

  lemma {:induction false} UsedHandoffStaysUsed(t: Tables, steps: seq<Step>, i: nat, j: nat, code: string)
    requires i <= j <= |steps|
    requires var rows := After(t, steps, i).handoffs; code in rows && rows[code].usedAt.Some?
    ensures var rows := After(t, steps, j).handoffs; code in rows && rows[code].usedAt.Some?
  {
    if i < j {
      UsedHandoffStaysUsed(t, steps, i, j - 1, code);
    }
  }

  /** A handoff code opens at most one session in any run. */
  lemma {:induction false} HandoffGrantedOnce(t: Tables, steps: seq<Step>, i: nat, j: nat, code: string, u: nat, v: nat)
    requires i < j < |steps|
    requires Grants(After(t, steps, i), steps[i], code, u)
    ensures !Grants(After(t, steps, j), steps[j], code, v)
  {
    UsedHandoffStaysUsed(t, steps, i + 1, j, code);
  }

  // ---------------------------------------------------------------- codes are backed

  predicate Began(step: Step, state: string, row: StateRow) {
    step.Begin? && step.state == state && step.nonce == row.nonce && row.expiresAt == step.now + STATE_TTL
  }

  lemma {:induction false} StateRowHasABeginning(steps: seq<Step>, n: nat, state: string) returns (i: nat)
    requires n <= |steps| && state in After(Empty, steps, n).states
    ensures i < n && Began(steps[i], state, After(Empty, steps, n).states[state])
  {
    if state in After(Empty, steps, n - 1).states {
      i := StateRowHasABeginning(steps, n - 1, state);
    } else {
      i := n - 1;
    }
  }

  /** The request that opened the flow a callback completes. */
  predicate OpenedBy(begin: Step, c: Callback) {
    && begin.Begin? && begin.state == c.state && c.cookie == Some(c.state) && c.now < begin.now + STATE_TTL
    && c.claims.Some? && c.claims.value.nonce == begin.nonce && c.claims.value.emailVerified
  }

  /**
   Nobody signs in without an earlier request, less than ten minutes old, whose state comes back both in
   the address and in the cookie, and whose nonce the verified token carries.
   */
  lemma {:induction false} SignInIsBacked(steps: seq<Step>, j: nat, user: nat) returns (i: nat)
    requires j < |steps| && SignsIn(After(Empty, steps, j), steps[j], user)
    ensures i < j && OpenedBy(steps[i], steps[j].callback)
  {
    i := StateRowHasABeginning(steps, j, steps[j].callback.state);
  }

  /** The callback that wrote a handoff row. */
  predicate HandedOff(t: Tables, step: Step, code: string, row: HandoffRow) {
    && SignsIn(t, step, row.userId) && step.callback.handoff == code && row.expiresAt == step.callback.now + HANDOFF_TTL
    && row.userId < |NextUsers(t, step)| && !NextUsers(t, step)[row.userId].disabled
  }

  lemma {:induction false} HandoffStep(t: Tables, step: Step, code: string)
    requires code in NextHandoffs(t, step)
    ensures var row := NextHandoffs(t, step)[code];
            if code in t.handoffs then row.userId == t.handoffs[code].userId && row.expiresAt == t.handoffs[code].expiresAt
            else HandedOff(t, step, code, row)
  {
  }

  lemma {:induction false} HandoffRowHasASignIn(steps: seq<Step>, n: nat, code: string) returns (i: nat)
    requires n <= |steps| && code in After(Empty, steps, n).handoffs
    ensures i < n && HandedOff(After(Empty, steps, i), steps[i], code, After(Empty, steps, n).handoffs[code])
  {
    HandoffStep(After(Empty, steps, n - 1), steps[n - 1], code);
    if code in After(Empty, steps, n - 1).handoffs {
      i := HandoffRowHasASignIn(steps, n - 1, code);
    } else {
      i := n - 1;
    }
  }

  /**
   From end to end: a session opens only for a user, not disabled then or now, whom some callback signed in
   less than two minutes before; and that callback brought back, in address and cookie, the state of a
   flow begun less than ten minutes before.
   */
  lemma {:induction false} SessionIsBacked(steps: seq<Step>, j: nat, code: string, user: nat) returns (h: nat, i: nat)
    requires j < |steps| && Grants(After(Empty, steps, j), steps[j], code, user)
    ensures h < i < j
    ensures SignsIn(After(Empty, steps, i), steps[i], user) && steps[i].callback.handoff == code
    ensures var earlier, later := After(Empty, steps, i + 1).users, After(Empty, steps, j).users;
            user < |earlier| && !earlier[user].disabled && user < |later| && !later[user].disabled
    ensures steps[j].now < steps[i].callback.now + HANDOFF_TTL
    ensures OpenedBy(steps[h], steps[i].callback)
  {
    i := HandoffRowHasASignIn(steps, j, code);
    h := SignInIsBacked(steps, i, user);
  }

  // ---------------------------------------------------------------- and a good code is honoured

  /** The state was brought back in time, in address and cookie, strictly between two steps. */
  ghost predicate StateSpentBetween(steps: seq<Step>, state: string, expiry: int, i: nat, j: nat) {
    exists k :: i < k < j <= |steps| && SpendsState(steps[k], state, expiry)
  }

  predicate SpendsState(step: Step, state: string, expiry: int) {
    && step.GoogleCallback? && step.callback.state == state && state != ""
    && step.callback.cookie == Some(state) && step.callback.now < expiry
  }

  lemma {:induction false} SpendingStep(states: map<string, StateRow>, step: Step, state: string)
    requires state in states
    ensures state in NextStates(states, step)
    ensures var row, next := states[state], NextStates(states, step)[state];
            && next.nonce == row.nonce && next.expiresAt == row.expiresAt
            && (next.usedAt.None? <==> row.usedAt.None? && !SpendsState(step, state, row.expiresAt))
  {
  }

  /** From its beginning on, a state's row keeps nonce and expiry, and is unused until somebody spends it in time. */
  lemma {:induction false} StateRowThroughout(t: Tables, steps: seq<Step>, i: nat, j: nat)
    requires i < j <= |steps| && steps[i].Begin? && steps[i].state !in After(t, steps, i).states
    ensures var rows, state, expiry := After(t, steps, j).states, steps[i].state, steps[i].now + 600;
            && state in rows && rows[state].nonce == steps[i].nonce && rows[state].expiresAt == expiry
            && (rows[state].usedAt.None? <==> !StateSpentBetween(steps, state, expiry, i, j))
  {
    if i + 1 < j {
      StateRowThroughout(t, steps, i, j - 1);
      SpendingStep(After(t, steps, j - 1).states, steps[j - 1], steps[i].state);
      OneMoreSpending(steps, steps[i].state, steps[i].now + 600, i, j);
    }
  }

  lemma {:induction false} OneMoreSpending(steps: seq<Step>, state: string, expiry: int, i: nat, j: nat)
    requires i + 1 < j <= |steps|
    ensures StateSpentBetween(steps, state, expiry, i, j)
       <==> StateSpentBetween(steps, state, expiry, i, j - 1) || SpendsState(steps[j - 1], state, expiry)
  {
  }

  /** The claims prove a verified identity to whoever expects this nonce. */
  predicate Proves(claims: Option<Claims>, nonce: string) {
    && claims.Some? && claims.value.nonce == nonce && claims.value.emailVerified
    && claims.value.email != "" && claims.value.sub != ""
  }

  /**
   When a callback signs in: exactly when the state of a flow begun less than ten minutes before comes
   back in address and cookie, nobody brought it back in time before, and the token carries that flow's
   nonce and a verified identity. That identity then counts, with its email trimmed and in lower case.
   */
  lemma {:induction false} CallbackAcceptedIff(t: Tables, steps: seq<Step>, i: nat, j: nat)
    requires i < j < |steps| && steps[i].Begin? && steps[i].state !in After(t, steps, i).states
    requires steps[j].GoogleCallback? && steps[j].callback.state == steps[i].state
    ensures var begin, c := steps[i], steps[j].callback;
            Identified(After(t, steps, j).states, c)
            == if c.cookie == Some(c.state) && c.state != "" && c.now < begin.now + 600 && Proves(c.claims, begin.nonce)
                  && !StateSpentBetween(steps, c.state, begin.now + 600, i, j)
               then Some(Identity(c.claims.value.sub, Lower(Strip(c.claims.value.email))))
               else None
  {
    StateRowThroughout(t, steps, i, j);
  }

  /** The code was exchanged before its expiry, strictly between two steps. */
  ghost predicate CodeSpentBetween(steps: seq<Step>, code: string, expiry: int, i: nat, j: nat) {
    exists k :: i < k < j <= |steps| && SpendsCode(steps[k], code, expiry)
  }

  predicate SpendsCode(step: Step, code: string, expiry: int) {
    step.Exchange? && step.code == code && step.now < expiry
  }

  lemma {:induction false} CodeSpendingStep(t: Tables, step: Step, code: string)
    requires code in t.handoffs
    ensures code in NextHandoffs(t, step)
    ensures var row, next := t.handoffs[code], NextHandoffs(t, step)[code];
            && next.userId == row.userId && next.expiresAt == row.expiresAt
            && (next.usedAt.None? <==> row.usedAt.None? && !SpendsCode(step, code, row.expiresAt))
  {
  }

  lemma {:induction false} OneMoreCodeSpending(steps: seq<Step>, code: string, expiry: int, i: nat, j: nat)
    requires i + 1 < j <= |steps|
    ensures CodeSpentBetween(steps, code, expiry, i, j)
       <==> CodeSpentBetween(steps, code, expiry, i, j - 1) || SpendsCode(steps[j - 1], code, expiry)
  {
  }

  /** The step is a callback that signs a user in, not disabled then, and hands over a new code. */
  predicate HandsOver(before: Tables, after: seq<User>, step: Step, user: nat) {
    && SignsIn(before, step, user) && step.callback.handoff !in before.handoffs
    && user < |after| && !after[user].disabled
  }

  lemma {:induction false} CodeIsStored(t: Tables, step: Step, user: nat)
    requires HandsOver(t, NextUsers(t, step), step, user)
    ensures var code := step.callback.handoff;
            code in NextHandoffs(t, step) && NextHandoffs(t, step)[code] == HandoffRow(user, step.callback.now + 120, None)
  {
  }

  /** From the callback on, a code's row keeps its user and expiry, and is unused until exchanged in time. */
  lemma {:induction false} CodeRowThroughout(t: Tables, steps: seq<Step>, i: nat, j: nat, user: nat)
    requires i < j <= |steps| && HandsOver(After(t, steps, i), After(t, steps, i + 1).users, steps[i], user)
    ensures var rows, code, expiry := After(t, steps, j).handoffs, steps[i].callback.handoff, steps[i].callback.now + 120;
            && code in rows && rows[code].userId == user && rows[code].expiresAt == expiry
            && (rows[code].usedAt.None? <==> !CodeSpentBetween(steps, code, expiry, i, j))
  {
    if i + 1 < j {
      CodeRowThroughout(t, steps, i, j - 1, user);
      CodeSpendingStep(After(t, steps, j - 1), steps[j - 1], steps[i].callback.handoff);
      OneMoreCodeSpending(steps, steps[i].callback.handoff, steps[i].callback.now + 120, i, j);
    } else {
      CodeIsStored(After(t, steps, i), steps[i], user);
    }
  }

  /**
   When a code opens a session: exactly when it is exchanged less than two minutes after the callback that
   handed it over, the user is not disabled by then, and nobody exchanged it in that time before.
   */
  lemma {:induction false} ExchangeOpensIff(t: Tables, steps: seq<Step>, i: nat, j: nat, user: nat)
    requires i < j < |steps| && HandsOver(After(t, steps, i), After(t, steps, i + 1).users, steps[i], user)
    requires steps[j].Exchange? && steps[j].code == steps[i].callback.handoff
    ensures var code, expiry := steps[j].code, steps[i].callback.now + 120;
            && (MayEnter(After(t, steps, j), code, steps[j].now) <==> Grants(After(t, steps, j), steps[j], code, user))
            && (Grants(After(t, steps, j), steps[j], code, user)
                <==> && steps[j].now < expiry
                     && user < |After(t, steps, j).users| && !After(t, steps, j).users[user].disabled
                     && !CodeSpentBetween(steps, code, expiry, i, j))
  {
    CodeRowThroughout(t, steps, i, j, user);
  }

  /**
   A whole flow that keeps its times opens a session, whatever other requests come between: begun, brought
   back once with a good token, and exchanged once, it leads to the user its account resolves to.
   */
  lemma {:induction false} WholeFlowOpensSession(t: Tables, steps: seq<Step>, h: nat, i: nat, j: nat, user: nat)
    requires h < i < j < |steps|
    requires steps[h].Begin? && steps[h].state !in After(t, steps, h).states && steps[h].state != ""
    requires steps[i].GoogleCallback? && steps[i].callback.state == steps[h].state
    requires var c := steps[i].callback;
             && c.cookie == Some(c.state) && c.now < steps[h].now + 600 && Proves(c.claims, steps[h].nonce)
             && c.handoff !in After(t, steps, i).handoffs
             && user == Resolved(After(t, steps, i).users, Identity(c.claims.value.sub, Lower(Strip(c.claims.value.email))))
    requires !StateSpentBetween(steps, steps[h].state, steps[h].now + 600, h, i)
    requires steps[j].Exchange? && steps[j].code == steps[i].callback.handoff && steps[j].now < steps[i].callback.now + 120
    requires !CodeSpentBetween(steps, steps[j].code, steps[i].callback.now + 120, i, j)
    requires user < |After(t, steps, i + 1).users| && !After(t, steps, i + 1).users[user].disabled
    requires user < |After(t, steps, j).users| && !After(t, steps, j).users[user].disabled
    ensures Grants(After(t, steps, j), steps[j], steps[j].code, user)
  {
    CallbackAcceptedIff(t, steps, h, i);
    ExchangeOpensIff(t, steps, i, j, user);
  }

  // ---------------------------------------------------------------- what each step does to the users

  /** Registering adds one user, with a password of their own, exactly if the email is well formed and free. */
  lemma {:induction false} RegistersIff(t: Tables, raw: string, password: string, admitted: bool)
    ensures var email := Lower(Strip(raw));
            NextUsers(t, Register(raw, password, admitted))
            == if admitted && '@' in email && email[0] != '@' && email[|email| - 1] != '@'
                  && forall i :: 0 <= i < |t.users| ==> t.users[i].email != email
               then t.users + [User(email, None, true, Some(password), false)]
               else t.users
  {
  }

  /** What a sign-in leaves: nothing new for a linked account, a link for a known email, and else a new user. */
  lemma {:induction false} LinkingIs(users: seq<User>, id: Identity)
    requires Distinct(users)
    ensures (exists i :: 0 <= i < |users| && users[i].googleSub == Some(id.sub)) ==> Linked(users, id) == users
    ensures (forall i :: 0 <= i < |users| ==> users[i].googleSub != Some(id.sub)) ==>
              && (forall i :: 0 <= i < |users| ==>
                    Linked(users, id)[i] == if users[i].email == id.email then users[i].(googleSub := Some(id.sub)) else users[i])
              && Linked(users, id)[|users|..]
                 == if forall i :: 0 <= i < |users| ==> users[i].email != id.email
                    then [User(id.email, Some(id.sub), false, None, false)] else []
  {
  }

  /** What the other steps change of a user, and nothing else. */
  lemma {:induction false} StepOnUser(t: Tables, step: Step, user: nat)
    requires user < |t.users|
    ensures user < |NextUsers(t, step)|
    ensures var u, v := t.users[user], NextUsers(t, step)[user];
            && v.email == u.email && v.passwordSet == u.passwordSet
            && v.disabled == (if step.SetStatus? && step.user == user then step.disabled else u.disabled)
            && v.password == (if step.ResetPassword? && step.user == user then Some(step.password) else u.password)
    ensures !step.GoogleCallback? ==>
              NextUsers(t, step)[user].googleSub
              == if step.Disconnect? && step.user == user && t.users[user].passwordSet && !t.users[user].disabled then None
                 else t.users[user].googleSub
  {
  }

  // ---------------------------------------------------------------- accounts stay apart

  ghost predicate Distinct(users: seq<User>) {
    && (forall i, j :: 0 <= i < j < |users| ==> users[i].email != users[j].email)
    && (forall i, j :: 0 <= i < j < |users| && users[i].googleSub.Some? ==> users[i].googleSub != users[j].googleSub)
  }

  /** Every stored email is of a certain form. */
  ghost predicate AllEmails(users: seq<User>, form: string -> bool) {
    forall i :: 0 <= i < |users| ==> form(users[i].email)
  }

  /** No capitals and no outer blanks. */
  predicate InNormalForm(email: string) {
    Lower(Strip(email)) == email
  }

  lemma {:induction false} LinkedStaysDistinct(users: seq<User>, id: Identity)
    requires Distinct(users)
    ensures Distinct(Linked(users, id))
  {
  }

  lemma {:induction false} RegisteredStaysDistinct(users: seq<User>, email: Option<string>, password: string)
    requires Distinct(users)
    ensures Distinct(Registered(users, email, password))
  {
  }

  lemma {:induction false} StepKeepsDistinct(t: Tables, step: Step)
    requires Distinct(t.users)
    ensures Distinct(NextUsers(t, step))
  {
    match step {
      case GoogleCallback(c) =>
        var id := Identified(t.states, c);
        if id.Some? {
          LinkedStaysDistinct(t.users, id.value);
        }
      case Register(raw, password, _) => RegisteredStaysDistinct(t.users, RegistrationEmail(raw), password);
      case Begin(_, _, _) =>
      case Exchange(_, _) =>
      case ResetPassword(_, _) =>
      case Disconnect(_) =>
      case SetStatus(_, _) =>
    }
  }

  /** No run ever lets two users share an email or a Google account. */
  lemma {:induction false} RunKeepsDistinct(t: Tables, steps: seq<Step>, n: nat)
    requires Distinct(t.users) && n <= |steps|
    ensures Distinct(After(t, steps, n).users)
  {
    if n > 0 {
      RunKeepsDistinct(t, steps, n - 1);
      StepKeepsDistinct(After(t, steps, n - 1), steps[n - 1]);
    }
  }

  lemma {:induction false} NormalFormIsNormal(s: string)
    ensures InNormalForm(Lower(Strip(s)))
  {
    LowerStripTwice(s);
  }

  /** The email a callback or a registration brings in, if it gets that far. */
  function Incoming(t: Tables, step: Step): Option<string> {
    match step
    case GoogleCallback(c) =>
      if Identified(t.states, c).Some? then Some(Identified(t.states, c).value.email) else None
    case Register(raw, _, _) => RegistrationEmail(raw)
    case Begin(_, _, _) => None
    case Exchange(_, _) => None
    case ResetPassword(_, _) => None
    case Disconnect(_) => None
    case SetStatus(_, _) => None
  }

  lemma {:induction false} VerifiedEmailIsNormal(claims: Option<Claims>, nonce: string)
    ensures Verify(claims, nonce).Some? ==> InNormalForm(Verify(claims, nonce).value.email)
  {
    if claims.Some? {
      NormalFormIsNormal(claims.value.email);
    }
  }

  lemma {:induction false} RegistrationEmailIsNormal(raw: string)
    ensures RegistrationEmail(raw).Some? ==> InNormalForm(RegistrationEmail(raw).value)
  {
    NormalFormIsNormal(raw);
  }

  lemma {:induction false} IdentifiedEmailIsNormal(t: Tables, c: Callback)
    ensures Identified(t.states, c).Some? ==> InNormalForm(Identified(t.states, c).value.email)
  {
    if Identified(t.states, c).Some? {
      VerifiedEmailIsNormal(c.claims, t.states[c.state].nonce);
    }
  }

  lemma {:induction false} IncomingIsNormal(t: Tables, step: Step)
    ensures Incoming(t, step).Some? ==> InNormalForm(Incoming(t, step).value)
  {
    if step.GoogleCallback? {
      IdentifiedEmailIsNormal(t, step.callback);
    } else if step.Register? {
      RegistrationEmailIsNormal(step.email);
    }
  }

  /** A user's email is one that was there before, or the one the step brings in. */
  lemma {:induction false} StepEmails(t: Tables, step: Step, i: nat)
    requires i < |NextUsers(t, step)|
    ensures var email := NextUsers(t, step)[i].email;
            if i < |t.users| then email == t.users[i].email else Incoming(t, step) == Some(email)
  {
  }

  lemma {:induction false} StepKeepsEmailForm(t: Tables, step: Step, next: seq<User>, form: string -> bool)
    requires AllEmails(t.users, form) && |t.users| <= |next|
    requires forall i :: 0 <= i < |t.users| ==> next[i].email == t.users[i].email
    requires forall i :: |t.users| <= i < |next| ==> form(next[i].email)
    ensures AllEmails(next, form)
  {
    forall i | 0 <= i < |next|
      ensures form(next[i].email)
    {
      assert i < |t.users| ==> form(t.users[i].email);
    }
  }

  lemma {:induction false} RunKeepsEmailForm(t: Tables, steps: seq<Step>, n: nat, form: string -> bool)
    requires AllEmails(t.users, form) && n <= |steps|
    requires forall s, k :: 0 <= k < |steps| && Incoming(s, steps[k]).Some? ==> form(Incoming(s, steps[k]).value)
    ensures AllEmails(After(t, steps, n).users, form)
  {
    if n > 0 {
      RunKeepsEmailForm(t, steps, n - 1, form);
      var before, step := After(t, steps, n - 1), steps[n - 1];
      forall i | 0 <= i < |NextUsers(before, step)|
        ensures if i < |before.users| then NextUsers(before, step)[i].email == before.users[i].email
                else form(NextUsers(before, step)[i].email)
      {
        StepEmails(before, step, i);
      }
      StepKeepsUsers(before, step);
      StepKeepsEmailForm(before, step, NextUsers(before, step), form);
    }
  }

  lemma {:induction false} StepKeepsUsers(t: Tables, step: Step)
    ensures |t.users| <= |NextUsers(t, step)|
  {
  }

  /** Starting from no users, emails never even agree up to case and outer blanks. */
  lemma {:induction false} EmailsNeverAgree(steps: seq<Step>, n: nat, i: nat, j: nat)
    requires n <= |steps| && i < j < |After(Empty, steps, n).users|
    ensures var users := After(Empty, steps, n).users; Lower(Strip(users[i].email)) != Lower(Strip(users[j].email))
  {
    RunKeepsDistinct(Empty, steps, n);
    forall s, k | 0 <= k < |steps| && Incoming(s, steps[k]).Some?
      ensures InNormalForm(Incoming(s, steps[k]).value)
    {
      IncomingIsNormal(s, steps[k]);
    }
    RunKeepsEmailForm(Empty, steps, n, InNormalForm);
    var users := After(Empty, steps, n).users;
    assert InNormalForm(users[i].email) && InNormalForm(users[j].email);
  }

  // ---------------------------------------------------------------- nobody is locked out

  /** A chosen password is really there, and some way to sign in remains. */
  predicate CanGetIn(user: User) {
    (user.passwordSet ==> user.password.Some?) && (user.googleSub.Some? || user.password.Some?)
  }

  ghost predicate AllCanGetIn(users: seq<User>) {
    forall i :: 0 <= i < |users| ==> CanGetIn(users[i])
  }

  lemma {:induction false} StepKeepsEntry(t: Tables, step: Step)
    requires AllCanGetIn(t.users)
    ensures AllCanGetIn(NextUsers(t, step))
  {
    forall i | 0 <= i < |NextUsers(t, step)|
      ensures CanGetIn(NextUsers(t, step)[i])
    {
      StepKeepsOneEntry(t, step, i);
    }
  }

  lemma {:induction false} LinkedKeepsEntry(users: seq<User>, id: Identity, i: nat)
    requires i < |Linked(users, id)| && (i < |users| ==> CanGetIn(users[i]))
    ensures CanGetIn(Linked(users, id)[i])
  {
  }

  lemma {:induction false} RegisteredKeepsEntry(users: seq<User>, email: Option<string>, password: string, i: nat)
    requires i < |Registered(users, email, password)| && (i < |users| ==> CanGetIn(users[i]))
    ensures CanGetIn(Registered(users, email, password)[i])
  {
  }

  lemma {:induction false} StepKeepsOneEntry(t: Tables, step: Step, i: nat)
    requires i < |NextUsers(t, step)| && (i < |t.users| ==> CanGetIn(t.users[i]))
    ensures CanGetIn(NextUsers(t, step)[i])
  {
    match step {
      case GoogleCallback(c) =>
        var id := Identified(t.states, c);
        if id.Some? {
          LinkedKeepsEntry(t.users, id.value, i);
        }
      case Register(raw, password, _) => RegisteredKeepsEntry(t.users, RegistrationEmail(raw), password, i);
      case Begin(_, _, _) =>
      case Exchange(_, _) =>
      case ResetPassword(_, _) =>
      case Disconnect(_) =>
      case SetStatus(_, _) =>
    }
  }

  /** In every run each user keeps a password of their own or a Google account. */
  lemma {:induction false} NobodyIsLockedOut(t: Tables, steps: seq<Step>, n: nat)
    requires AllCanGetIn(t.users) && n <= |steps|
    ensures AllCanGetIn(After(t, steps, n).users)
  {
    if n > 0 {
      NobodyIsLockedOut(t, steps, n - 1);
      StepKeepsEntry(After(t, steps, n - 1), steps[n - 1]);
    }
  }

  lemma {:induction false} StepKeepsUser(t: Tables, step: Step, user: nat)
    requires user < |t.users|
    ensures user < |NextUsers(t, step)|
    ensures NextUsers(t, step)[user].email == t.users[user].email
    ensures NextUsers(t, step)[user].passwordSet == t.users[user].passwordSet
  {
  }

  /** Users are never removed, and neither their email nor `passwordSet` ever changes. */
  lemma {:induction false} UserIsPermanent(t: Tables, steps: seq<Step>, i: nat, j: nat, user: nat)
    requires i <= j <= |steps| && user < |After(t, steps, i).users|
    ensures user < |After(t, steps, j).users|
    ensures After(t, steps, j).users[user].email == After(t, steps, i).users[user].email
    ensures After(t, steps, j).users[user].passwordSet == After(t, steps, i).users[user].passwordSet
  {
    if i < j {
      UserIsPermanent(t, steps, i, j - 1, user);
      StepKeepsUser(After(t, steps, j - 1), steps[j - 1], user);
    }
  }

  /** A step adds at most one user, and decides then and there whether a password was chosen. */
  lemma {:induction false} StepAddsOne(t: Tables, step: Step)
    ensures |t.users| <= |NextUsers(t, step)| <= |t.users| + 1
    ensures |NextUsers(t, step)| > |t.users| ==> (NextUsers(t, step)[|t.users|].passwordSet <==> step.Register?)
  {
  }

  /** The step that created a user, and with it the flag they carry from then on. */
  lemma {:induction false} CreatedBy(t: Tables, steps: seq<Step>, n: nat, user: nat) returns (i: nat)
    requires n <= |steps| && |t.users| <= user < |After(t, steps, n).users|
    ensures i < n && |After(t, steps, i).users| == user < |After(t, steps, i + 1).users|
    ensures After(t, steps, n).users[user].passwordSet <==> steps[i].Register?
  {
    var before, step := After(t, steps, n - 1), steps[n - 1];
    StepAddsOne(before, step);
    if user < |before.users| {
      i := CreatedBy(t, steps, n - 1, user);
      StepKeepsUser(before, step, user);
    } else {
      i := n - 1;
    }
  }

  /**
   At any point of a run a user may disconnect Google exactly when they are linked and not disabled then,
   and the step that created them was a registration. Nothing in between counts: who was created by
   signing in with Google is told to set a password first, but no password reset lets them disconnect.
   */
  lemma {:induction false} DisconnectIff(t: Tables, steps: seq<Step>, n: nat, user: nat) returns (i: nat)
    requires n <= |steps| && |t.users| <= user < |After(t, steps, n).users|
    ensures i < n && |After(t, steps, i).users| == user < |After(t, steps, i + 1).users|
    ensures var u := After(t, steps, n).users[user];
            MayDisconnect(After(t, steps, n).users, user) <==> u.googleSub.Some? && !u.disabled && steps[i].Register?
  {
    i := CreatedBy(t, steps, n, user);
  }

  // ---------------------------------------------------------------- the same account again

  /** With distinct users the search by Google account has one possible answer. */
  lemma {:induction false} BySubIff(users: seq<User>, sub: string, user: nat)
    requires Distinct(users) && user < |users|
    ensures BySub(users, sub) == Some(user) <==> users[user].googleSub == Some(sub)
  {
  }

  /** Signing in again at once returns the same user and changes nothing, whatever email it reports. */
  lemma {:induction false} ResolvingAgain(users: seq<User>, id: Identity, email: string)
    requires Distinct(users)
    ensures var again := Identity(id.sub, email);
            Linked(Linked(users, id), again) == Linked(users, id) && Resolved(Linked(users, id), again) == Resolved(users, id)
  {
    LinkedStaysDistinct(users, id);
    BySubIff(Linked(users, id), id.sub, Resolved(users, id));
  }

  /** The steps that take a Google account away from a user: disconnecting, or another one with the user's email. */
  predicate Unlinks(t: Tables, step: Step, user: nat) {
    || (step.Disconnect? && step.user == user && MayDisconnect(t.users, user))
    || (step.GoogleCallback? && Identified(t.states, step.callback).Some?
        && var id := Identified(t.states, step.callback).value;
           BySub(t.users, id.sub).None? && ByEmail(t.users, id.email) == Some(user))
  }

  lemma {:induction false} LinkingKeepsLinkIff(users: seq<User>, id: Identity, user: nat, sub: string)
    requires Distinct(users) && user < |users| && users[user].googleSub == Some(sub)
    ensures Linked(users, id)[user].googleSub == Some(sub)
       <==> !(BySub(users, id.sub).None? && ByEmail(users, id.email) == Some(user))
  {
  }

  lemma {:induction false} StepKeepsLinkIff(t: Tables, step: Step, user: nat, sub: string)
    requires Distinct(t.users) && user < |t.users| && t.users[user].googleSub == Some(sub)
    ensures user < |NextUsers(t, step)|
    ensures NextUsers(t, step)[user].googleSub == Some(sub) <==> !Unlinks(t, step, user)
  {
    if step.GoogleCallback? && Identified(t.states, step.callback).Some? {
      LinkingKeepsLinkIff(t.users, Identified(t.states, step.callback).value, user, sub);
    }
  }

  predicate NeverUnlinks(t: Tables, steps: seq<Step>, n: nat, user: nat)
    requires n <= |steps|
  {
    n > 0 ==> NeverUnlinks(t, steps, n - 1, user) && !Unlinks(After(t, steps, n - 1), steps[n - 1], user)
  }

  predicate LinkedThroughout(t: Tables, steps: seq<Step>, n: nat, user: nat, sub: string)
    requires n <= |steps|
  {
    && user < |After(t, steps, n).users| && After(t, steps, n).users[user].googleSub == Some(sub)
    && (n > 0 ==> LinkedThroughout(t, steps, n - 1, user, sub))
  }

  /** `Unlinks` misses nothing: a user stays linked through a run exactly when no step of it unlinks them. */
  lemma {:induction false} LinkedThroughoutIff(t: Tables, steps: seq<Step>, n: nat, user: nat, sub: string)
    requires n <= |steps| && Distinct(t.users) && user < |t.users| && t.users[user].googleSub == Some(sub)
    ensures LinkedThroughout(t, steps, n, user, sub) <==> NeverUnlinks(t, steps, n, user)
  {
    if n > 0 {
      LinkedThroughoutIff(t, steps, n - 1, user, sub);
      if LinkedThroughout(t, steps, n - 1, user, sub) {
        RunKeepsDistinct(t, steps, n - 1);
        StepKeepsLinkIff(After(t, steps, n - 1), steps[n - 1], user, sub);
      }
    }
  }

  lemma {:induction false} LinkedIsResolved(users: seq<User>, user: nat, id: Identity)
    requires Distinct(users) && user < |users| && users[user].googleSub == Some(id.sub)
    ensures Resolved(users, id) == user && Linked(users, id) == users
  {
    BySubIff(users, id.sub, user);
  }

  /**
   For as long as no step unlinks it, a Google account keeps signing in to the same user, even after
   its email has changed, and even when that email belongs to somebody else.
   */
  lemma {:induction false} SameAccountUntilUnlinked(t: Tables, steps: seq<Step>, n: nat, user: nat, id: Identity)
    requires n <= |steps| && Distinct(t.users) && user < |t.users| && t.users[user].googleSub == Some(id.sub)
    requires NeverUnlinks(t, steps, n, user)
    ensures var users := After(t, steps, n).users; Resolved(users, id) == user && Linked(users, id) == users
  {
    LinkedThroughoutIff(t, steps, n, user, id.sub);
    RunKeepsDistinct(t, steps, n);
    LinkedIsResolved(After(t, steps, n).users, user, id);
  }

  /** Where a sign-in leads, as long as no two users share an email or a Google account. */
  lemma {:induction false} ResolvedIff(users: seq<User>, id: Identity, user: nat)
    requires Distinct(users) && user < |users|
    ensures Resolved(users, id) == user
       <==> || users[user].googleSub == Some(id.sub)
            || ((forall i :: 0 <= i < |users| ==> users[i].googleSub != Some(id.sub)) && users[user].email == id.email)
  {
    BySubIff(users, id.sub, user);
  }

  /**
   At any point of any run a Google account leads to a user exactly when it is linked to them then, or
   to nobody and reports the email that user was created with, whatever happened in between.
   */
  lemma {:induction false} AccountLeadsToIff(t: Tables, steps: seq<Step>, i: nat, j: nat, user: nat, id: Identity)
    requires Distinct(t.users) && i <= j <= |steps| && user < |After(t, steps, i).users|
    ensures user < |After(t, steps, j).users|
    ensures var users := After(t, steps, j).users;
            Resolved(users, id) == user
            <==> || users[user].googleSub == Some(id.sub)
                 || ((forall k :: 0 <= k < |users| ==> users[k].googleSub != Some(id.sub))
                     && After(t, steps, i).users[user].email == id.email)
  {
    RunKeepsDistinct(t, steps, j);
    UserIsPermanent(t, steps, i, j, user);
    ResolvedIff(After(t, steps, j).users, id, user);
  }

  /**
   A second Google account with a linked user's email replaces the first one. At the very next sign-in
   the first leads back to that user exactly when it still reports the user's email, and is linked again
   then; reporting another email it leads elsewhere, so one person can come to own two accounts.
   */
  lemma {:induction false} ReplacedAccountComesBackIff(users: seq<User>, user: nat, first: string, second: Identity, email: string)
    requires Distinct(users) && user < |users| && users[user].googleSub == Some(first)
    requires BySub(users, second.sub).None? && second.email == users[user].email
    ensures Resolved(users, second) == user
    ensures Resolved(Linked(users, second), Identity(first, email)) == user <==> email == users[user].email
  {
    var linked := Linked(users, second);
    LinkedStaysDistinct(users, second);
    assert forall i :: 0 <= i < |linked| ==> linked[i].googleSub != Some(first);
  }

  // ---------------------------------------------------------------- runs in which the promises fail

  const Ana := User("ana@a.uy", Some("1"), false, None, false)
  const SecondOfAna := Identity("2", "ana@a.uy")

  /** One person, two accounts: Ana's first Google account comes back with a new email after her second one. */
  lemma {:induction false} TwoAccountsExample()
    ensures Resolved([Ana], SecondOfAna) == 0
    ensures var replaced := Linked([Ana], SecondOfAna);
            Resolved(replaced, Identity("1", "new@a.uy")) == 1 && |Linked(replaced, Identity("1", "new@a.uy"))| == 2
  {
    assert Linked([Ana], SecondOfAna) == [Ana.(googleSub := Some("2"))];
  }

  /** Had it come back once with the old email, it would have kept her account with the new one too. */
  lemma {:induction false} RelinkedExample()
    ensures var relinked := Linked(Linked([Ana], SecondOfAna), Identity("1", "ana@a.uy"));
            relinked == [Ana] && Resolved(relinked, Identity("1", "new@a.uy")) == 0
  {
    assert Linked([Ana], SecondOfAna) == [Ana.(googleSub := Some("2"))];
  }

  const ReturnOfAna := Callback("state", Some("state"), Some(Claims("nonce", true, "ana@a.uy", "1")), "handoff", 1)

  /** Signs in with Google, and then resets the password. */
  const SignsInAndResets: seq<Step> := [Begin("state", "nonce", 0), GoogleCallback(ReturnOfAna), ResetPassword(0, "secret")]

  /** The user has a password and a Google account, and still may not disconnect. */
  lemma {:induction false} DisconnectExample()
    ensures var users := After(Empty, SignsInAndResets, 3).users;
            users == [Ana.(password := Some("secret"))] && !MayDisconnect(users, 0)
  {
    var steps := SignsInAndResets;
    OneStep(Empty, steps, 0);
    OneStep(Empty, steps, 1);
    OneStep(Empty, steps, 2);
    FlowOfAna(steps[0], Next(Empty, steps[0]));
  }

  lemma {:induction false} OneStep(t: Tables, steps: seq<Step>, n: nat)
    requires n < |steps|
    ensures After(t, steps, 0) == t && After(t, steps, n + 1) == Next(After(t, steps, n), steps[n])
  {
  }

  lemma {:induction false} FlowOfAna(begin: Step, begun: Tables)
    requires begin == Begin("state", "nonce", 0) && begun == Next(Empty, begin)
    ensures NextUsers(begun, GoogleCallback(ReturnOfAna)) == [Ana]
  {
    EmailOfAna("ana@a.uy");
    assert begun.states["state"] == StateRow("nonce", STATE_TTL, None);
    assert Identified(begun.states, ReturnOfAna) == Some(Identity("1", "ana@a.uy"));
  }

  lemma {:induction false} EmailOfAna(email: string)
    requires email == "ana@a.uy"
    ensures Lower(Strip(email)) == email
  {
    StripTrimmed(email);
  }
}

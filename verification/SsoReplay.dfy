/**
 * One-time login links over runs: decrypt, mark as used, mint a pending session, bound its
 * life, flag it as pending, finalize it once. Times are nanoseconds; a token's expiry is in
 * whole seconds, and the two comparisons the code makes disagree for up to a second.
 */
module SsoReplay {
  import opened Options
  import SessionStore

  type Token = string
  type Sid = nat
  type LoginId = nat
  type Time = int

  const SECOND: Time := 1_000_000_000
  const PENDING_LIFE: Time := 300 * SECOND

  // -------------------------------------------------------------- used set

  function Marked(used: map<Token, Time>, token: Token, expiry: Time, now: Time): (map<Token, Time>, bool) {
    if token in used && now <= used[token] then (used, false) else (used[token := expiry], true)
  }

  function Swept(used: map<Token, Time>, now: Time): map<Token, Time> {
    map t | t in used && now <= used[t] :: used[t]
  }

  class UsedSet {
    var tokens: map<Token, Time>

    constructor ()
      ensures tokens == map[]
    {
      tokens := map[];
    }

    /** True for exactly one of any two callers presenting the same unexpired token. */
    method MarkIfUnused(token: Token, expiry: Time, now: Time) returns (won: bool)
      modifies this
      ensures (tokens, won) == Marked(old(tokens), token, expiry, now)
    {
      if token in tokens && !(now > tokens[token]) {
        return false;
      }
      tokens := tokens[token := expiry];
      won := true;
    }

    method CleanupExpired(now: Time)
      modifies this
      ensures tokens == Swept(old(tokens), now)
      ensures forall t :: t in tokens <==> t in old(tokens) && !(old(tokens)[t] < now)
    {
      var todo := tokens.Keys;
      while todo != {}
        invariant todo <= tokens.Keys
        invariant tokens == map t | t in old(tokens) && (t in todo || now <= old(tokens)[t]) :: old(tokens)[t]
        decreases todo
      {
        var t :| t in todo;
        todo := todo - {t};
        if now > tokens[t] {
          tokens := tokens - {t};
        }
      }
    }
  }

  // ------------------------------------------------------------------ state

  /** A pending session object; it outlives its removal from the store in whoever still holds it. */
  datatype Pending = Pending(login: LoginId, token: Token, expiresAt: Time, hardExpiry: Option<Time>, flagged: bool)

  /** A login request's progress. `early` records whether it marked the token before its expiry. */
  datatype Login =
    | Checked(token: Token)
    | Won(token: Token, early: bool)
    | Minted(token: Token, early: bool, sid: Sid)
    | Bounded(token: Token, early: bool, sid: Sid)
    | Over

  datatype Finalizing = Began | Connected

  /**
   * `handed` are pending sessions some request was handed while they were retrievable;
   * `locks` their transfer locks; `connections` the pending session each finalized login
   * came from. `first` remembers, per token, the login that marked it before its expiry.
   */
  datatype State = State(
    now: Time, used: map<Token, Time>, logins: seq<Login>,
    objects: seq<Pending>, stored: set<Sid>, handed: set<Sid>,
    locks: map<Sid, Finalizing>, connections: seq<Sid>, first: map<Token, LoginId>)

  datatype Action =
    | Tick(later: Time)
    | Decrypt(token: Token)
    | Mark(l: LoginId)
    | Mint(l: LoginId)
    | Bound(l: LoginId)
    | Flag(l: LoginId)
    | Sweep
    | Touch(sid: Sid)
    | Remove(sid: Sid)
    | Open(sid: Sid)
    | Begin(sid: Sid)
    | GiveUp(sid: Sid)
    | Connect(sid: Sid)
    | Done(sid: Sid)

  /** `exp` is the expiry second a token decrypts to: fixed by its text. */
  datatype World = World(exp: Token -> int, ttl: Time)

  function Seconds(t: Time): int {
    t / SECOND
  }

  function Expiry(w: World, token: Token): Time {
    w.exp(token) * SECOND
  }

  /** What a request carrying the pending cookie can be handed. */
  predicate Retrievable(s: State, sid: Sid) {
    sid in s.stored && sid < |s.objects| && s.objects[sid].flagged && s.now <= s.objects[sid].expiresAt
  }

  predicate Enabled(w: World, s: State, a: Action) {
    match a
    case Tick(later) => later >= s.now
    case Decrypt(token) => Seconds(s.now) <= w.exp(token)
    case Mark(l) => l < |s.logins| && s.logins[l].Checked?
    case Mint(l) => l < |s.logins| && s.logins[l].Won?
    case Bound(l) => l < |s.logins| && s.logins[l].Minted? && s.logins[l].sid < |s.objects|
    case Flag(l) => l < |s.logins| && s.logins[l].Bounded? && s.logins[l].sid < |s.objects|
    case Sweep => true
    case Touch(sid) => true
    case Remove(sid) => true
    case Open(sid) => Retrievable(s, sid)
    case Begin(sid) =>
      sid in s.handed && sid < |s.objects| && sid !in s.locks
      && s.objects[sid].flagged && Seconds(s.now) < w.exp(s.objects[sid].token)
    case GiveUp(sid) => sid in s.locks && s.locks[sid].Began?
    case Connect(sid) => sid in s.locks && s.locks[sid].Began?
    case Done(sid) => sid in s.locks && s.locks[sid].Connected? && sid < |s.objects|
  }

  /** Extends a stored session that is still alive, capped by its hard expiry. */
  function Touched(p: Pending, now: Time, ttl: Time): Pending {
    p.(expiresAt := SessionStore.Extended(p.expiresAt, p.hardExpiry, now, ttl))
  }

  function PendingExpiry(w: World, token: Token, now: Time): Time {
    if Expiry(w, token) < now + PENDING_LIFE then Expiry(w, token) else now + PENDING_LIFE
  }

  function Apply(w: World, s: State, a: Action): State
    requires Enabled(w, s, a)
  {
    match a
    case Tick(later) => s.(now := later)
    case Decrypt(token) => s.(logins := s.logins + [Checked(token)])
    case Mark(l) =>
      var token := s.logins[l].token;
      var (used, won) := Marked(s.used, token, Expiry(w, token), s.now);
      var early := s.now <= Expiry(w, token);
      if won then s.(used := used, logins := s.logins[l := Won(token, early)],
                     first := if early then s.first[token := l] else s.first)
      else s.(logins := s.logins[l := Over])
    case Mint(l) =>
      var login := s.logins[l];
      s.(objects := s.objects + [Pending(l, login.token, s.now + w.ttl, None, false)],
          stored := s.stored + {|s.objects|},
         logins := s.logins[l := Minted(login.token, login.early, |s.objects|)])
    case Bound(l) =>
      var login := s.logins[l];
      var expiry := PendingExpiry(w, login.token, s.now);
      var p := s.objects[login.sid];
      s.(logins := s.logins[l := Bounded(login.token, login.early, login.sid)],
         objects := if login.sid in s.stored
             then s.objects[login.sid := p.(expiresAt := expiry, hardExpiry := Some(expiry))] else s.objects)
    case Flag(l) =>
      var sid := s.logins[l].sid;
      s.(logins := s.logins[l := Over], objects := s.objects[sid := s.objects[sid].(flagged := true)])
    case Sweep => s.(used := Swept(s.used, s.now))
    case Touch(sid) =>
      if sid in s.stored && sid < |s.objects|
          then s.(objects := s.objects[sid := Touched(s.objects[sid], s.now, w.ttl)]) else s
    case Remove(sid) => s.(stored := s.stored - {sid})
    case Open(sid) => s.(handed := s.handed + {sid})
    case Begin(sid) => s.(locks := s.locks[sid := Began])
    case GiveUp(sid) => s.(locks := s.locks - {sid})
    case Connect(sid) => s.(locks := s.locks[sid := Connected], connections := s.connections + [sid])
    case Done(sid) =>
      s.(objects := s.objects[sid := s.objects[sid].(flagged := false)], stored := s.stored - {sid},
          locks := s.locks - {sid})
  }

  // -------------------------------------------------------------- invariant

  /** Once marked early, a token stays in the used set for as long as it has not expired. */
  ghost predicate UsedOk(w: World, s: State) {
    forall t :: t in s.first ==>
        s.first[t] < |s.logins| && (s.now <= Expiry(w, t) ==> t in s.used && s.used[t] == Expiry(w, t))
  }

  ghost predicate LoginOk(w: World, s: State, l: LoginId)
    requires l < |s.logins|
  {
    match s.logins[l]
    case Checked(token) => token in s.first ==> s.first[token] != l
    case Over => true
    case Won(token, early) =>
      EarlyOrLate(w, s, token, early, l) && forall sid :: 0 <= sid < |s.objects| ==> s.objects[sid].login != l
    case Minted(token, early, sid) => EarlyOrLate(w, s, token, early, l) && Owns(s, l, token, sid) && sid !in s.handed
    case Bounded(token, early, sid) =>
      && EarlyOrLate(w, s, token, early, l) && Owns(s, l, token, sid) && sid !in s.handed
      && (!early && sid in s.stored ==> Dead(w, s, s.objects[sid]))
  }

  ghost predicate EarlyOrLate(w: World, s: State, token: Token, early: bool, l: LoginId) {
    if early then token in s.first && s.first[token] == l else s.now > Expiry(w, token)
  }

  ghost predicate Owns(s: State, l: LoginId, token: Token, sid: Sid) {
    sid < |s.objects| && s.objects[sid].login == l && s.objects[sid].token == token && !s.objects[sid].flagged
  }

  /** Past its hard expiry, which no touch can move. */
  ghost predicate Dead(w: World, s: State, p: Pending) {
    p.expiresAt < s.now
  }

  ghost predicate ObjectOk(w: World, s: State, sid: Sid)
    requires sid < |s.objects|
  {
    var p := s.objects[sid];
    && p.login < |s.logins|
    && (s.logins[p.login].Minted? || s.logins[p.login].Bounded? ==> s.logins[p.login].sid == sid)
    && !s.logins[p.login].Checked? && !s.logins[p.login].Won?
    && (p.flagged ==> s.logins[p.login].Over?)
    && (s.logins[p.login].Over? && sid in s.stored ==> ByWinner(s, p) || Dead(w, s, p))
    && (sid in s.handed ==> ByWinner(s, p))
  }

  /** Minted by the one login that marked its token in time. */
  ghost predicate ByWinner(s: State, p: Pending) {
    p.token in s.first && s.first[p.token] == p.login
  }

  /** A login mints one session; a pending session finalizes at most once. */
  ghost predicate OnceOk(s: State) {
    && (forall i, j :: 0 <= i < j < |s.objects| ==> s.objects[i].login != s.objects[j].login)
    && (forall sid :: sid in s.handed ==> sid < |s.objects|)
    && (forall sid :: sid in s.locks ==> sid in s.handed)
    && (forall i :: 0 <= i < |s.connections| ==>
          s.connections[i] in s.handed
          && (s.objects[s.connections[i]].flagged ==>
              s.connections[i] in s.locks && s.locks[s.connections[i]].Connected?))
    && (forall i, j :: 0 <= i < j < |s.connections| ==> s.connections[i] != s.connections[j])
    && (forall sid :: sid in s.locks && s.locks[sid].Began? ==> s.objects[sid].flagged && sid !in s.connections)
  }

  ghost predicate Inv(w: World, s: State) {
    && UsedOk(w, s)
    && (forall l :: 0 <= l < |s.logins| ==> LoginOk(w, s, l))
    && (forall sid :: 0 <= sid < |s.objects| ==> ObjectOk(w, s, sid))
    && OnceOk(s)
  }

  lemma DecryptKeeps(w: World, s: State, token: Token)
    requires Inv(w, s) && Enabled(w, s, Decrypt(token))
    ensures Inv(w, Apply(w, s, Decrypt(token)))
  {
    var after := Apply(w, s, Decrypt(token));
    forall l | 0 <= l < |after.logins| ensures LoginOk(w, after, l) {
      if l < |s.logins| {
        assert LoginOk(w, s, l) && after.logins[l] == s.logins[l];
      }
    }
    forall sid | 0 <= sid < |after.objects| ensures ObjectOk(w, after, sid) {
      assert ObjectOk(w, s, sid);
      assert after.logins[s.objects[sid].login] == s.logins[s.objects[sid].login];
    }
  }

  /** A token that was marked in time and has not expired cannot be won again. */
  lemma FirstIsKept(w: World, s: State, l: LoginId)
    requires UsedOk(w, s) && Enabled(w, s, Mark(l))
    ensures forall t :: t in s.first ==> t in Apply(w, s, Mark(l)).first && Apply(w, s, Mark(l)).first[t] == s.first[t]
    ensures UsedOk(w, Apply(w, s, Mark(l)))
  {
  }

  lemma MarkKeepsLogin(w: World, s: State, l: LoginId, k: LoginId)
    requires UsedOk(w, s) && Enabled(w, s, Mark(l)) && k < |s.logins| && LoginOk(w, s, k)
    requires forall sid :: 0 <= sid < |s.objects| ==> s.objects[sid].login != l
    ensures LoginOk(w, Apply(w, s, Mark(l)), k)
  {
    FirstIsKept(w, s, l);
    var after := Apply(w, s, Mark(l));
    assert k != l ==> after.logins[k] == s.logins[k];
    assert after.objects == s.objects && after.now == s.now;
  }

  lemma MarkKeeps(w: World, s: State, l: LoginId)
    requires Inv(w, s) && Enabled(w, s, Mark(l))
    ensures Inv(w, Apply(w, s, Mark(l)))
  {
    var after := Apply(w, s, Mark(l));
    FirstIsKept(w, s, l);
    forall sid | 0 <= sid < |s.objects| ensures s.objects[sid].login != l && ObjectOk(w, after, sid) {
      assert ObjectOk(w, s, sid);
      assert after.logins[s.objects[sid].login] == s.logins[s.objects[sid].login];
    }
    forall k | 0 <= k < |after.logins| ensures LoginOk(w, after, k) {
      MarkKeepsLogin(w, s, l, k);
    }
  }

  lemma MintKeeps(w: World, s: State, l: LoginId)
    requires Inv(w, s) && Enabled(w, s, Mint(l))
    ensures Inv(w, Apply(w, s, Mint(l)))
  {
    var after := Apply(w, s, Mint(l));
    assert LoginOk(w, s, l);
    forall sid | 0 <= sid < |after.objects| ensures ObjectOk(w, after, sid) {
      if sid < |s.objects| {
        assert ObjectOk(w, s, sid);
        assert after.logins[s.objects[sid].login] == s.logins[s.objects[sid].login];
      }
    }
    forall k | 0 <= k < |after.logins| ensures LoginOk(w, after, k) {
      assert LoginOk(w, s, k);
      assert k != l ==> after.logins[k] == s.logins[k];
    }
  }

  lemma BoundKeepsObject(w: World, s: State, l: LoginId, sid: Sid)
    requires Enabled(w, s, Bound(l)) && LoginOk(w, s, l) && sid < |s.objects| && ObjectOk(w, s, sid)
    ensures ObjectOk(w, Apply(w, s, Bound(l)), sid)
  {
    var after := Apply(w, s, Bound(l));
    assert after.objects[sid].login == s.objects[sid].login;
    assert s.objects[sid].login != l ==> after.logins[s.objects[sid].login] == s.logins[s.objects[sid].login];
  }

  lemma BoundKeepsLogin(w: World, s: State, l: LoginId, k: LoginId)
    requires Enabled(w, s, Bound(l)) && LoginOk(w, s, l) && k < |s.logins| && LoginOk(w, s, k)
    ensures LoginOk(w, Apply(w, s, Bound(l)), k)
  {
    var after := Apply(w, s, Bound(l));
    assert k != l ==> after.logins[k] == s.logins[k];
  }

  lemma BoundKeeps(w: World, s: State, l: LoginId)
    requires Inv(w, s) && Enabled(w, s, Bound(l))
    ensures Inv(w, Apply(w, s, Bound(l)))
  {
    var after := Apply(w, s, Bound(l));
    forall sid | 0 <= sid < |after.objects| ensures ObjectOk(w, after, sid) {
      BoundKeepsObject(w, s, l, sid);
    }
    forall k | 0 <= k < |after.logins| ensures LoginOk(w, after, k) {
      BoundKeepsLogin(w, s, l, k);
    }
  }

  lemma FlagKeeps(w: World, s: State, l: LoginId)
    requires Inv(w, s) && Enabled(w, s, Flag(l))
    ensures Inv(w, Apply(w, s, Flag(l)))
  {
    var after := Apply(w, s, Flag(l));
    assert LoginOk(w, s, l);
    forall sid | 0 <= sid < |after.objects| ensures ObjectOk(w, after, sid) {
      assert ObjectOk(w, s, sid);
      assert after.objects[sid].login == s.objects[sid].login;
      assert s.objects[sid].login != l ==> after.logins[s.objects[sid].login] == s.logins[s.objects[sid].login];
    }
    forall k | 0 <= k < |after.logins| ensures LoginOk(w, after, k) {
      assert LoginOk(w, s, k);
      assert k != l ==> after.logins[k] == s.logins[k];
    }
  }

  /** Sessions may leave the store or have a live expiry moved; who minted them stays. */
  ghost predicate Similar(s: State, after: State) {
    && after.logins == s.logins && after.first == s.first && after.now == s.now
    && after.handed == s.handed && after.stored <= s.stored
    && |after.objects| == |s.objects|
    && forall sid :: 0 <= sid < |s.objects| ==> Akin(s.now, s.objects[sid], after.objects[sid])
  }

  predicate Akin(now: Time, p: Pending, q: Pending) {
    q.login == p.login && q.token == p.token && q.flagged == p.flagged && (p.expiresAt < now ==> q.expiresAt < now)
  }

  lemma SimilarSessions(w: World, s: State, after: State)
    requires Similar(s, after)
    requires forall l :: 0 <= l < |s.logins| ==> LoginOk(w, s, l)
    requires forall sid :: 0 <= sid < |s.objects| ==> ObjectOk(w, s, sid)
    ensures forall l :: 0 <= l < |s.logins| ==> LoginOk(w, after, l)
    ensures forall sid :: 0 <= sid < |s.objects| ==> ObjectOk(w, after, sid)
  {
    forall l | 0 <= l < |s.logins| ensures LoginOk(w, after, l) {
      assert LoginOk(w, s, l);
      assert forall sid :: 0 <= sid < |s.objects| ==> Akin(s.now, s.objects[sid], after.objects[sid]);
    }
    forall sid | 0 <= sid < |s.objects| ensures ObjectOk(w, after, sid) {
      assert ObjectOk(w, s, sid) && Akin(s.now, s.objects[sid], after.objects[sid]);
    }
  }

  /** A session past its expiry is not extended. */
  lemma TouchKeeps(w: World, s: State, sid: Sid)
    requires Inv(w, s)
    ensures Inv(w, Apply(w, s, Touch(sid)))
  {
    var after := Apply(w, s, Touch(sid));
    assert Similar(s, after);
    SimilarSessions(w, s, after);
  }

  lemma OpenKeeps(w: World, s: State, sid: Sid)
    requires Inv(w, s) && Enabled(w, s, Open(sid))
    ensures Inv(w, Apply(w, s, Open(sid)))
  {
    var after := Apply(w, s, Open(sid));
    forall k | 0 <= k < |after.objects| ensures ObjectOk(w, after, k) {
      assert ObjectOk(w, s, k);
    }
    forall l | 0 <= l < |after.logins| ensures LoginOk(w, after, l) {
      assert LoginOk(w, s, l);
      assert ObjectOk(w, s, sid);
    }
  }

  lemma DoneKeeps(w: World, s: State, sid: Sid)
    requires Inv(w, s) && Enabled(w, s, Done(sid))
    ensures Inv(w, Apply(w, s, Done(sid)))
  {
    var after := Apply(w, s, Done(sid));
    forall k | 0 <= k < |after.objects| ensures ObjectOk(w, after, k) {
      assert ObjectOk(w, s, k);
      assert after.objects[k].(flagged := false) == s.objects[k].(flagged := false);
    }
    forall l | 0 <= l < |after.logins| ensures LoginOk(w, after, l) {
      assert LoginOk(w, s, l);
    }
  }

  lemma TickKeeps(w: World, s: State, later: Time)
    requires Inv(w, s) && Enabled(w, s, Tick(later))
    ensures Inv(w, Apply(w, s, Tick(later)))
  {
    var after := Apply(w, s, Tick(later));
    forall k | 0 <= k < |after.objects| ensures ObjectOk(w, after, k) {
      assert ObjectOk(w, s, k);
    }
    forall l | 0 <= l < |after.logins| ensures LoginOk(w, after, l) {
      assert LoginOk(w, s, l);
    }
  }

  lemma SweepKeeps(w: World, s: State)
    requires Inv(w, s)
    ensures Inv(w, Apply(w, s, Sweep))
  {
    SimilarSessions(w, s, Apply(w, s, Sweep));
  }

  lemma RemoveKeeps(w: World, s: State, sid: Sid)
    requires Inv(w, s)
    ensures Inv(w, Apply(w, s, Remove(sid)))
  {
    SimilarSessions(w, s, Apply(w, s, Remove(sid)));
  }

  lemma LockKeeps(w: World, s: State, a: Action)
    requires Inv(w, s) && Enabled(w, s, a) && (a.Begin? || a.GiveUp? || a.Connect?)
    ensures Inv(w, Apply(w, s, a))
  {
    SimilarSessions(w, s, Apply(w, s, a));
  }

  lemma StepKeeps(w: World, s: State, a: Action)
    requires Inv(w, s) && Enabled(w, s, a)
    ensures Inv(w, Apply(w, s, a))
  {
    match a
    case Tick(later) => TickKeeps(w, s, later);
    case Decrypt(token) => DecryptKeeps(w, s, token);
    case Mark(l) => MarkKeeps(w, s, l);
    case Mint(l) => MintKeeps(w, s, l);
    case Bound(l) => BoundKeeps(w, s, l);
    case Flag(l) => FlagKeeps(w, s, l);
    case Sweep => SweepKeeps(w, s);
    case Touch(sid) => TouchKeeps(w, s, sid);
    case Remove(sid) => RemoveKeeps(w, s, sid);
    case Open(sid) => OpenKeeps(w, s, sid);
    case Begin(_) => LockKeeps(w, s, a);
    case GiveUp(_) => LockKeeps(w, s, a);
    case Connect(_) => LockKeeps(w, s, a);
    case Done(sid) => DoneKeeps(w, s, sid);
  }

  // ------------------------------------------------------------------- runs

  function Initial(now: Time): State {
    State(now, map[], [], [], {}, {}, map[], [], map[])
  }

  ghost predicate Run(w: World, states: seq<State>, actions: seq<Action>) {
    && |states| == |actions| + 1
    && states[0] == Initial(states[0].now)
    && forall i :: 0 <= i < |actions| ==>
        Enabled(w, states[i], actions[i]) && states[i + 1] == Apply(w, states[i], actions[i])
  }

  lemma {:induction false} RunKeeps(w: World, states: seq<State>, actions: seq<Action>, i: nat)
    requires Run(w, states, actions) && i < |states|
    ensures Inv(w, states[i])
  {
    if i > 0 {
      RunKeeps(w, states, actions, i - 1);
      StepKeeps(w, states[i - 1], actions[i - 1]);
    }
  }

  /** Who marked a token in time never changes, nor do the origins of a session. */
  ghost predicate Remembers(before: State, after: State) {
    && (forall t :: t in before.first ==> t in after.first && after.first[t] == before.first[t])
    && |before.objects| <= |after.objects|
    && forall sid :: 0 <= sid < |before.objects| ==>
         after.objects[sid].login == before.objects[sid].login && after.objects[sid].token == before.objects[sid].token
  }

  lemma StepRemembers(w: World, s: State, a: Action)
    requires UsedOk(w, s) && Enabled(w, s, a)
    ensures Remembers(s, Apply(w, s, a))
  {
    if a.Mark? {
      FirstIsKept(w, s, a.l);
    }
  }

  lemma RemembersOn(a: State, b: State, c: State)
    requires Remembers(a, b) && Remembers(b, c)
    ensures Remembers(a, c)
  {
  }

  lemma {:induction false} ChainRemembers(states: seq<State>, i: nat, j: nat)
    requires i <= j < |states|
    requires forall k :: i <= k < j ==> Remembers(states[k], states[k + 1])
    ensures Remembers(states[i], states[j])
    decreases j
  {
    if i < j {
      ChainRemembers(states, i, j - 1);
      assert Remembers(states[j - 1], states[j - 1 + 1]);
      RemembersOn(states[i], states[j - 1], states[j]);
    }
  }

  lemma RunRemembers(w: World, states: seq<State>, actions: seq<Action>, i: nat, j: nat)
    requires Run(w, states, actions) && i <= j < |states|
    ensures Remembers(states[i], states[j])
  {
    forall k | i <= k < j ensures Remembers(states[k], states[k + 1]) {
      RunKeeps(w, states, actions, k);
      StepRemembers(w, states[k], actions[k]);
    }
    ChainRemembers(states, i, j);
  }

  /**
   * One token, one retrievable pending session: any two sessions minted from the same token
   * text that a request could be handed, at whatever two moments of a run, are the same one.
   */
  lemma OneSessionPerToken(w: World, states: seq<State>, actions: seq<Action>, i: nat, a: Sid, j: nat, b: Sid)
    requires Run(w, states, actions) && i <= j < |states|
    requires Retrievable(states[i], a) && Retrievable(states[j], b)
    requires states[i].objects[a].token == states[j].objects[b].token
    ensures a == b
  {
    RunKeeps(w, states, actions, i);
    RunKeeps(w, states, actions, j);
    RunRemembers(w, states, actions, i, j);
    assert ObjectOk(w, states[i], a) && ObjectOk(w, states[j], b);
    assert states[j].objects[a].login == states[j].objects[b].login;
  }

  /** Every connection, also the only or the last one of a run, comes from a token marked before its expiry. */
  lemma ConnectionsAreInTime(w: World, states: seq<State>, actions: seq<Action>, i: nat)
    requires Run(w, states, actions) && i < |states[|actions|].connections|
    ensures (var s := states[|actions|];
      s.connections[i] < |s.objects| && ByWinner(s, s.objects[s.connections[i]]))
  {
    RunKeeps(w, states, actions, |actions|);
    var s := states[|actions|];
    assert s.connections[i] in s.handed;
    assert ObjectOk(w, s, s.connections[i]);
  }

  /** No token opens two connections. */
  lemma OneConnectionPerToken(w: World, states: seq<State>, actions: seq<Action>, i: nat, j: nat)
    requires Run(w, states, actions)
    requires i < j < |states[|actions|].connections|
    ensures (var s := states[|actions|];
      && s.connections[i] < |s.objects| && s.connections[j] < |s.objects|
      && s.objects[s.connections[i]].token != s.objects[s.connections[j]].token)
  {
    ConnectionsAreInTime(w, states, actions, i);
    ConnectionsAreInTime(w, states, actions, j);
    RunKeeps(w, states, actions, |actions|);
  }

  /** Login `l` marked the token while it had not expired, at step `j`. */
  ghost predicate MarkedAt(w: World, states: seq<State>, actions: seq<Action>, j: nat, l: LoginId, token: Token)
    requires Run(w, states, actions) && j < |actions|
  {
    && actions[j] == Mark(l) && states[j].logins[l].token == token
    && states[j].now <= w.exp(token) * 1_000_000_000
  }

  /** The session was taken up before the second its token expires in, at step `j`. */
  ghost predicate BegunAt(w: World, states: seq<State>, actions: seq<Action>, j: nat, sid: Sid)
    requires Run(w, states, actions) && j < |actions|
  {
    && actions[j] == Begin(sid) && states[j].now < w.exp(states[j].objects[sid].token) * 1_000_000_000
  }

  ghost predicate MarkedBefore(w: World, states: seq<State>, actions: seq<Action>, n: nat, l: LoginId, token: Token)
    requires Run(w, states, actions) && n <= |actions|
  {
    exists j :: 0 <= j < n && MarkedAt(w, states, actions, j, l, token)
  }

  ghost predicate BegunBefore(w: World, states: seq<State>, actions: seq<Action>, n: nat, sid: Sid)
    requires Run(w, states, actions) && n <= |actions|
  {
    exists j :: 0 <= j < n && BegunAt(w, states, actions, j, sid)
  }

  /** Only a mark in time enters the record of marks. */
  lemma StepMarks(w: World, s: State, a: Action, token: Token)
    requires Enabled(w, s, a) && token in Apply(w, s, a).first
    ensures (token in s.first && s.first[token] == Apply(w, s, a).first[token])
            || (var l := Apply(w, s, a).first[token];
                a == Mark(l) && s.logins[l].token == token && s.now <= w.exp(token) * 1_000_000_000)
  {
  }

  /** Only taking a session up locks it, and only a locked one connects. */
  lemma StepBegins(w: World, s: State, a: Action, sid: Sid)
    requires Enabled(w, s, a) && (sid in Apply(w, s, a).locks || sid in Apply(w, s, a).connections)
    ensures sid in s.locks || sid in s.connections
            || (a == Begin(sid) && s.now < w.exp(s.objects[sid].token) * 1_000_000_000)
  {
  }

  lemma {:induction false} MarksHaveACause(w: World, states: seq<State>, actions: seq<Action>, n: nat, token: Token)
    requires Run(w, states, actions) && n < |states| && token in states[n].first
    ensures MarkedBefore(w, states, actions, n, states[n].first[token], token)
  {
    if n > 0 {
      var s, l := states[n - 1], states[n].first[token];
      StepMarks(w, s, actions[n - 1], token);
      if token in s.first && s.first[token] == l {
        MarksHaveACause(w, states, actions, n - 1, token);
        var j :| 0 <= j < n - 1 && MarkedAt(w, states, actions, j, l, token);
        assert 0 <= j < n;
      } else {
        assert MarkedAt(w, states, actions, n - 1, l, token);
      }
    }
  }

  lemma {:induction false} LocksHaveACause(w: World, states: seq<State>, actions: seq<Action>, n: nat, sid: Sid)
    requires Run(w, states, actions) && n < |states| && (sid in states[n].locks || sid in states[n].connections)
    ensures BegunBefore(w, states, actions, n, sid)
  {
    if n > 0 {
      var s := states[n - 1];
      StepBegins(w, s, actions[n - 1], sid);
      if sid in s.locks || sid in s.connections {
        LocksHaveACause(w, states, actions, n - 1, sid);
        var j :| 0 <= j < n - 1 && BegunAt(w, states, actions, j, sid);
        assert 0 <= j < n;
      } else {
        assert BegunAt(w, states, actions, n - 1, sid);
      }
    }
  }

  /**
   * Where a connection comes from: a login that marked its token while it had not expired, and
   * a session taken up before the second it expires in.
   */
  lemma ConnectionsHaveACause(w: World, states: seq<State>, actions: seq<Action>, i: nat)
    requires Run(w, states, actions) && i < |states[|actions|].connections|
    ensures (var s := states[|actions|]; var sid := s.connections[i];
      && sid < |s.objects|
      && MarkedBefore(w, states, actions, |actions|, s.objects[sid].login, s.objects[sid].token)
      && BegunBefore(w, states, actions, |actions|, sid))
  {
    var s := states[|actions|];
    var sid := s.connections[i];
    ConnectionsAreInTime(w, states, actions, i);
    assert s.objects[sid].token in s.first && s.first[s.objects[sid].token] == s.objects[sid].login;
    MarksHaveACause(w, states, actions, |actions|, s.objects[sid].token);
    LocksHaveACause(w, states, actions, |actions|, sid);
  }

  // ------------------------------------------------------ how long a session lives

  /** A session whose end is fixed: no longer stored, or bounded by `end` for good. */
  ghost predicate EndsBy(s: State, sid: Sid, end: Time) {
    sid < |s.objects| && s.logins != [] && s.objects[sid].login < |s.logins|
    && !s.logins[s.objects[sid].login].Minted? && !s.logins[s.objects[sid].login].Won?
    && (sid in s.stored ==>
          s.objects[sid].hardExpiry.Some? && s.objects[sid].hardExpiry.value <= end && s.objects[sid].expiresAt <= end)
  }

  lemma StepEndsBy(w: World, s: State, a: Action, sid: Sid, end: Time)
    requires Inv(w, s) && Enabled(w, s, a) && EndsBy(s, sid, end)
    ensures EndsBy(Apply(w, s, a), sid, end)
  {
    assert ObjectOk(w, s, sid);
    if a.Bound? {
      assert LoginOk(w, s, a.l);
    }
  }

  lemma {:induction false} RunEndsBy(w: World, states: seq<State>, actions: seq<Action>, i: nat, j: nat, sid: Sid,
                                     end: Time)
    requires Run(w, states, actions) && i <= j < |states| && EndsBy(states[i], sid, end)
    ensures EndsBy(states[j], sid, end)
    decreases j
  {
    if i < j {
      RunEndsBy(w, states, actions, i, j - 1, sid, end);
      RunKeeps(w, states, actions, j - 1);
      StepEndsBy(w, states[j - 1], actions[j - 1], sid, end);
    }
  }

  /** Bounding a stored session ends it five minutes later or with its token, whichever is first. */
  lemma BoundIsTheEarlier(w: World, states: seq<State>, actions: seq<Action>, i: nat, l: LoginId)
    requires Run(w, states, actions) && i < |actions| && actions[i] == Bound(l)
    ensures (var s, after := states[i], states[i + 1];
      var sid, token := s.logins[l].sid, s.logins[l].token;
      && sid < |after.objects|
      && (sid in after.stored ==>
            && after.objects[sid].expiresAt <= s.now + 300_000_000_000
            && after.objects[sid].expiresAt <= w.exp(token) * 1_000_000_000
            && after.objects[sid].expiresAt in {s.now + 300_000_000_000, w.exp(token) * 1_000_000_000}
            && after.objects[sid].hardExpiry == Some(after.objects[sid].expiresAt)))
  {
    assert Enabled(w, states[i], actions[i]) && states[i + 1] == Apply(w, states[i], actions[i]);
  }

  /**
   * From then on, whatever is done to it and for as long as the run goes on, the session can
   * be retrieved no later than five minutes after it was bounded, nor after its token's expiry.
   */
  lemma PendingLife(w: World, states: seq<State>, actions: seq<Action>, i: nat, l: LoginId, j: nat)
    requires Run(w, states, actions) && i < |actions| && actions[i] == Bound(l) && i < j < |states|
    ensures (var sid, token := states[i].logins[l].sid, states[i].logins[l].token;
      Retrievable(states[j], sid) ==>
        states[j].now <= states[i].now + 300_000_000_000 && states[j].now <= w.exp(token) * 1_000_000_000)
  {
    var s, after := states[i], states[i + 1];
    assert Enabled(w, s, actions[i]) && after == Apply(w, s, actions[i]);
    var sid, token := s.logins[l].sid, s.logins[l].token;
    RunKeeps(w, states, actions, i);
    assert LoginOk(w, s, l) && ObjectOk(w, s, sid);
    BoundIsTheEarlier(w, states, actions, i, l);
    RunEndsBy(w, states, actions, i + 1, j, sid, s.now + 300_000_000_000);
    RunEndsBy(w, states, actions, i + 1, j, sid, w.exp(token) * 1_000_000_000);
  }

  // ---------------------------------------------------- what the used set gives

  /** The used set remembers each token with its own expiry. */
  ghost predicate OwnExpiry(w: World, s: State) {
    forall t :: t in s.used ==> s.used[t] == Expiry(w, t)
  }

  lemma {:induction false} RunOwnExpiry(w: World, states: seq<State>, actions: seq<Action>, i: nat)
    requires Run(w, states, actions) && i < |states|
    ensures OwnExpiry(w, states[i])
  {
    if i > 0 {
      RunOwnExpiry(w, states, actions, i - 1);
      StepOwnExpiry(w, states[i - 1], actions[i - 1]);
    }
  }

  lemma StepOwnExpiry(w: World, s: State, a: Action)
    requires OwnExpiry(w, s) && Enabled(w, s, a)
    ensures OwnExpiry(w, Apply(w, s, a))
  {
  }

  /**
   * In every reachable state a login wins the mark if and only if its token is not in the
   * used set or past its expiry; so a token marked in time is won again exactly after it.
   */
  lemma MarkWinsIff(w: World, states: seq<State>, actions: seq<Action>, i: nat, l: LoginId)
    requires Run(w, states, actions) && i < |states| && Enabled(w, states[i], Mark(l))
    ensures (var s := states[i]; var token := s.logins[l].token; var won := Apply(w, s, Mark(l)).logins[l].Won?;
      && (won <==> token !in s.used || s.now > Expiry(w, token))
      && (token in s.first ==> (won <==> s.now > Expiry(w, token))))
  {
    RunOwnExpiry(w, states, actions, i);
    assert UsedOk(w, states[i]) by { RunKeeps(w, states, actions, i); }
  }

  /**
   * So the used set alone does not make a link one-time: two logins that both decrypted a
   * token in time can both win the mark, the second at any moment after the expiry.
   */
  lemma MarkedTwice(w: World, token: Token, later: Time)
    returns (states: seq<State>, actions: seq<Action>)
    requires later > Expiry(w, token)
    ensures Run(w, states, actions)
    ensures states[|actions|].now == later && states[|actions|].logins == [Won(token, true), Won(token, false)]
  {
    var now := Expiry(w, token);
    states, actions := Extend(w, [Initial(now)], [], Decrypt(token));
    states, actions := Extend(w, states, actions, Decrypt(token));
    states, actions := Extend(w, states, actions, Mark(0));
    assert states[|actions|].logins == [Won(token, true), Checked(token)];
    states, actions := Extend(w, states, actions, Tick(later));
    states, actions := Extend(w, states, actions, Mark(1));
  }

  lemma Extend(w: World, states: seq<State>, actions: seq<Action>, a: Action)
    returns (longer: seq<State>, more: seq<Action>)
    requires Run(w, states, actions) && Enabled(w, states[|actions|], a)
    ensures Run(w, longer, more) && |more| == |actions| + 1
    ensures longer[|more|] == Apply(w, states[|actions|], a) && longer[0] == states[0]
  {
    longer, more := states + [Apply(w, states[|actions|], a)], actions + [a];
    forall i | 0 <= i < |more| ensures Enabled(w, longer[i], more[i]) && longer[i + 1] == Apply(w, longer[i], more[i]) {
      assert i < |actions| ==> Enabled(w, states[i], actions[i]) && states[i + 1] == Apply(w, states[i], actions[i]);
    }
  }

  /** The login request on its own: a retrievable session, bounded by the token's expiry. */
  lemma LinkMints(w: World, token: Token, now: Time)
    returns (states: seq<State>, actions: seq<Action>)
    requires Seconds(now) < w.exp(token)
    ensures Run(w, states, actions) && states[0] == Initial(now)
    ensures (var s := states[|actions|];
      && s.now == now && |s.objects| == 1 && s.stored == {0} && s.handed == {} && s.locks == map[]
      && s.connections == []
      && s.objects[0].flagged && s.objects[0].token == token && now <= s.objects[0].expiresAt <= Expiry(w, token))
  {
    states, actions := Extend(w, [Initial(now)], [], Decrypt(token));
    assert states[|actions|].logins == [Checked(token)];
    states, actions := Extend(w, states, actions, Mark(0));
    assert states[|actions|].logins == [Won(token, true)];
    states, actions := Extend(w, states, actions, Mint(0));
    assert states[|actions|].logins == [Minted(token, true, 0)];
    states, actions := Extend(w, states, actions, Bound(0));
    assert states[|actions|].logins == [Bounded(token, true, 0)];
    states, actions := Extend(w, states, actions, Flag(0));
  }

  /** A link followed before its expiry second does lead to a connection. */
  lemma LinkWorks(w: World, token: Token, now: Time)
    returns (states: seq<State>, actions: seq<Action>)
    requires Seconds(now) < w.exp(token)
    ensures Run(w, states, actions) && states[0] == Initial(now)
    ensures states[|actions|].connections == [0]
    ensures |states[|actions|].objects| == 1 && states[|actions|].objects[0].token == token
  {
    states, actions := LinkMints(w, token, now);
    states, actions := Extend(w, states, actions, Open(0));
    states, actions := Extend(w, states, actions, Begin(0));
    states, actions := Extend(w, states, actions, Connect(0));
  }
}

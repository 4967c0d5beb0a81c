/**
 * Session capacity over whole runs of logins and one-time-link finalizations. A flight is
 * a reservation not yet freed. A finalization holds the transfer lock of the pending
 * session it will replace; `finalizing` maps that session to the requesting address.
 */
module Admission {
  import opened FiniteSets
  import opened MapSums
  import opened Options
  import opened SessionStore

  type FlightId = nat

  /** `minted` is the session this flight has created; `labelled` that its client address is set. */
  datatype Flight = Flight(ip: Ip, credit: Option<Sid>, minted: Option<Sid>, labelled: bool)

  datatype State = State(
    sessions: map<Sid, Session>, connecting: map<Ip, nat>,
    flights: map<FlightId, Flight>, finalizing: map<Sid, Ip>)

  datatype Action =
    | Reserve(f: FlightId, ip: Ip, credit: Option<Sid>)
    | Mint(f: FlightId, id: Sid, session: Session)
    | Label(f: FlightId)
    | Refresh(id: Sid, session: Session)
    | Drop(id: Sid)
    | Free(f: FlightId)

  ghost predicate Enabled(l: Limits, s: State, a: Action) {
    match a
    case Reserve(f, ip, credit) =>
      f !in s.flights && (credit.Some? ==> credit.value !in s.finalizing)
      && Admits(s.sessions, s.connecting, ip, l, credit)
    case Mint(f, id, session) =>
      f in s.flights && s.flights[f].minted.None? && id !in s.sessions && id !in s.finalizing && session.clientIP.None?
    case Label(f) => f in s.flights && s.flights[f].minted.Some? && !s.flights[f].labelled
    case Refresh(id, session) => id in s.sessions && session.clientIP == s.sessions[id].clientIP
    case Drop(id) => true
    case Free(f) => f in s.flights && (s.flights[f].minted.Some? ==> Completed(s, s.flights[f]))
  }

  /** Past minting there is no failure left: the flight ends labelled and with the pending session gone. */
  predicate Completed(s: State, flight: Flight) {
    flight.labelled && (flight.credit.Some? ==> flight.credit.value !in s.sessions)
  }

  ghost function Apply(l: Limits, s: State, a: Action): State
    requires Enabled(l, s, a)
  {
    match a
    case Reserve(f, ip, credit) =>
      s.(connecting := s.connecting[ip := Waiting(s.connecting, ip) + 1],
         flights := s.flights[f := Flight(ip, credit, None, false)],
         finalizing := if credit.Some? then s.finalizing[credit.value := ip] else s.finalizing)
    case Mint(f, id, session) =>
      s.(sessions := s.sessions[id := session], flights := s.flights[f := s.flights[f].(minted := Some(id))])
    case Label(f) =>
      var id := s.flights[f].minted.value;
      s.(sessions :=
           if id in s.sessions then s.sessions[id := s.sessions[id].(clientIP := Some(s.flights[f].ip))]
           else s.sessions,
         flights := s.flights[f := s.flights[f].(labelled := true)])
    case Refresh(id, session) => s.(sessions := s.sessions[id := session])
    case Drop(id) => s.(sessions := s.sessions - {id})
    case Free(f) =>
      var flight := s.flights[f];
      var n := Waiting(s.connecting, flight.ip);
      s.(connecting := if n <= 1 then s.connecting - {flight.ip} else s.connecting[flight.ip := n - 1],
         flights := s.flights - {f},
         finalizing := if flight.credit.Some? then s.finalizing - {flight.credit.value} else s.finalizing)
  }

  // ---------------------------------------------------------------- invariant

  ghost function Unminted(flights: map<FlightId, Flight>): set<FlightId> {
    set f | f in flights && flights[f].minted.None?
  }

  ghost function Unlabelled(flights: map<FlightId, Flight>, ip: Ip): set<FlightId> {
    set f | f in flights && flights[f].ip == ip && !flights[f].labelled
  }

  ghost function From(flights: map<FlightId, Flight>, ip: Ip): set<FlightId> {
    set f | f in flights && flights[f].ip == ip
  }

  /** Stored sessions nobody is about to replace. */
  ghost function Standing(s: State): set<Sid> {
    s.sessions.Keys - s.finalizing.Keys
  }

  /** Those labelled `ip`, except the ones being finalized from `ip` itself. */
  ghost function StandingOf(s: State, ip: Ip): set<Sid> {
    set id | id in s.sessions && s.sessions[id].clientIP == Some(ip) && !(id in s.finalizing && s.finalizing[id] == ip)
  }

  /** The waiting counters are the flights, in all and per address. */
  ghost predicate Counts(s: State) {
    Sum(s.connecting) == |s.flights| && forall ip :: Waiting(s.connecting, ip) == |From(s.flights, ip)|
  }

  ghost predicate Answered(flights: map<FlightId, Flight>, id: Sid) {
    exists f :: f in flights && flights[f].credit == Some(id)
  }

  /** Whatever a finalization is credited with is locked for its address, by it alone. */
  ghost predicate Credited(flights: map<FlightId, Flight>, finalizing: map<Sid, Ip>) {
    && (forall f :: f in flights && flights[f].credit.Some? ==>
          flights[f].credit.value in finalizing && finalizing[flights[f].credit.value] == flights[f].ip)
    && (forall f, g :: f in flights && g in flights && f != g ==>
          flights[f].credit.None? || flights[f].credit != flights[g].credit)
  }

  /** Every finalization answers for its own pending session. */
  ghost predicate Locks(s: State) {
    && Credited(s.flights, s.finalizing)
    && (forall id :: id in s.finalizing ==> Answered(s.flights, id))
    && (forall f :: f in s.flights && s.flights[f].labelled ==> s.flights[f].minted.Some?)
  }

  ghost predicate Capacity(l: Limits, s: State) {
    && |Standing(s)| + |Unminted(s.flights)| <= l.sessions
    && |s.sessions| + |Unminted(s.flights)| <= l.sessions + 1
  }

  ghost predicate CapacityOf(l: Limits, s: State, ip: Ip) {
    |StandingOf(s, ip)| + |Unlabelled(s.flights, ip)| <= l.perIp
  }

  ghost predicate Inv(l: Limits, s: State) {
    Counts(s) && Locks(s) && Capacity(l, s) && forall ip :: CapacityOf(l, s, ip)
  }

  // ------------------------------------------------------------- small facts

  lemma SmallerBut<T>(a: set<T>, b: set<T>, x: T)
    requires a <= b + {x}
    ensures |a| <= |b| + 1
  {
    Smaller(a, b + {x});
  }

  lemma FlightAdded(flights: map<FlightId, Flight>, f: FlightId, flight: Flight, ip: Ip)
    requires f !in flights
    ensures |Unminted(flights[f := flight])| == |Unminted(flights)| + (if flight.minted.None? then 1 else 0)
    ensures |Unlabelled(flights[f := flight], ip)| == |Unlabelled(flights, ip)|
            + (if flight.ip == ip && !flight.labelled then 1 else 0)
    ensures |From(flights[f := flight], ip)| == |From(flights, ip)| + (if flight.ip == ip then 1 else 0)
  {
    var after := flights[f := flight];
    OneMore(Unminted(flights), Unminted(after), f, flight.minted.None?);
    OneMore(Unlabelled(flights, ip), Unlabelled(after, ip), f, flight.ip == ip && !flight.labelled);
    OneMore(From(flights, ip), From(after, ip), f, flight.ip == ip);
  }

  lemma FlightChanged(flights: map<FlightId, Flight>, f: FlightId, flight: Flight, ip: Ip)
    requires f in flights && flight.ip == flights[f].ip
    ensures |Unminted(flights[f := flight])| - |Unminted(flights)|
              == (if flight.minted.None? then 1 else 0) - (if flights[f].minted.None? then 1 else 0)
    ensures |Unlabelled(flights[f := flight], ip)| - |Unlabelled(flights, ip)|
              == if flight.ip != ip then 0
                  else (if flight.labelled then 0 else 1) - (if flights[f].labelled then 0 else 1)
    ensures |From(flights[f := flight], ip)| == |From(flights, ip)|
  {
    var rest := flights - {f};
    assert rest[f := flights[f]] == flights && rest[f := flight] == flights[f := flight];
    FlightAdded(rest, f, flights[f], ip);
    FlightAdded(rest, f, flight, ip);
  }

  lemma FlightGone(flights: map<FlightId, Flight>, f: FlightId, ip: Ip)
    requires f in flights
    ensures |Unminted(flights - {f})| == |Unminted(flights)| - (if flights[f].minted.None? then 1 else 0)
    ensures |Unlabelled(flights - {f}, ip)|
            == |Unlabelled(flights, ip)| - (if flights[f].ip == ip && !flights[f].labelled then 1 else 0)
    ensures |From(flights - {f}, ip)| == |From(flights, ip)| - (if flights[f].ip == ip then 1 else 0)
  {
    assert (flights - {f})[f := flights[f]] == flights;
    FlightAdded(flights - {f}, f, flights[f], ip);
  }

  // ----------------------------------------------------- counters and locks

  lemma SumUp(connecting: map<Ip, nat>, ip: Ip)
    ensures Sum(connecting[ip := Waiting(connecting, ip) + 1]) == Sum(connecting) + 1
  {
    if ip in connecting {
      SumReplace(connecting, ip, connecting[ip] + 1);
    } else {
      SumInsert(connecting, ip, 1);
    }
  }

  lemma SumDown(connecting: map<Ip, nat>, ip: Ip)
    requires Waiting(connecting, ip) > 0
    ensures Sum(connecting[ip := Waiting(connecting, ip) - 1]) == Sum(connecting) - 1
    ensures Waiting(connecting, ip) == 1 ==> Sum(connecting - {ip}) == Sum(connecting) - 1
  {
    SumPick(connecting, ip);
    SumReplace(connecting, ip, connecting[ip] - 1);
  }

  lemma SumStep(l: Limits, s: State, a: Action)
    requires Sum(s.connecting) == |s.flights| && Enabled(l, s, a)
    requires a.Free? ==> Waiting(s.connecting, s.flights[a.f].ip) > 0
    ensures Sum(Apply(l, s, a).connecting) == |Apply(l, s, a).flights|
  {
    if a.Reserve? {
      SumUp(s.connecting, a.ip);
    } else if a.Free? {
      SumDown(s.connecting, s.flights[a.f].ip);
    }
  }

  lemma CountsStep(l: Limits, s: State, a: Action)
    requires Counts(s) && Enabled(l, s, a)
    ensures Counts(Apply(l, s, a))
  {
    if a.Free? {
      assert a.f in From(s.flights, s.flights[a.f].ip);
    }
    SumStep(l, s, a);
    forall ip ensures Waiting(Apply(l, s, a).connecting, ip) == |From(Apply(l, s, a).flights, ip)| {
      WaitingStep(l, s, a, ip);
    }
  }

  lemma WaitingStep(l: Limits, s: State, a: Action, ip: Ip)
    requires Enabled(l, s, a)
    requires Waiting(s.connecting, ip) == |From(s.flights, ip)|
    ensures Waiting(Apply(l, s, a).connecting, ip) == |From(Apply(l, s, a).flights, ip)|
  {
    match a
    case Reserve(f, ip', credit) => FlightAdded(s.flights, f, Flight(ip', credit, None, false), ip);
    case Mint(f, id, _) => FlightChanged(s.flights, f, s.flights[f].(minted := Some(id)), ip);
    case Label(f) => FlightChanged(s.flights, f, s.flights[f].(labelled := true), ip);
    case Free(f) => FlightGone(s.flights, f, ip);
    case _ =>
  }

  lemma LocksOnReserve(s: State, f: FlightId, ip: Ip, credit: Option<Sid>, after: State)
    requires Locks(s) && f !in s.flights && (credit.Some? ==> credit.value !in s.finalizing)
    requires after.flights == s.flights[f := Flight(ip, credit, None, false)]
    requires after.finalizing == if credit.Some? then s.finalizing[credit.value := ip] else s.finalizing
    ensures Locks(after)
  {
    forall id | id in after.finalizing ensures Answered(after.flights, id) {
      if id in s.finalizing {
        assert Answered(s.flights, id);
        var g :| g in s.flights && s.flights[g].credit == Some(id);
        assert after.flights[g].credit == Some(id);
      } else {
        assert after.flights[f].credit == Some(id);
      }
    }
  }

  lemma LocksOnFree(l: Limits, s: State, f: FlightId)
    requires Locks(s) && Enabled(l, s, Free(f))
    ensures Locks(Apply(l, s, Free(f)))
  {
    var s' := Apply(l, s, Free(f));
    forall id | id in s'.finalizing ensures Answered(s'.flights, id) {
      assert Answered(s.flights, id);
      var g :| g in s.flights && s.flights[g].credit == Some(id);
      assert g != f;
      assert s'.flights[g].credit == Some(id);
    }
  }

  /** Minting and labelling leave what a flight is credited with alone. */
  lemma SameCredits(a: map<FlightId, Flight>, b: map<FlightId, Flight>, finalizing: map<Sid, Ip>)
    requires Credited(a, finalizing) && a.Keys == b.Keys
    requires forall f :: f in a ==> b[f].credit == a[f].credit && b[f].ip == a[f].ip
    ensures Credited(b, finalizing)
    ensures forall id :: Answered(a, id) ==> Answered(b, id)
  {
    forall id | Answered(a, id) ensures Answered(b, id) {
      var g :| g in a && a[g].credit == Some(id);
      assert b[g].credit == Some(id);
    }
  }

  lemma LocksOnFlight(s: State, f: FlightId, flight: Flight, sessions: map<Sid, Session>)
    requires Locks(s) && f in s.flights && flight.credit == s.flights[f].credit && flight.ip == s.flights[f].ip
    requires flight.labelled ==> flight.minted.Some?
    ensures Locks(s.(sessions := sessions, flights := s.flights[f := flight]))
  {
    SameCredits(s.flights, s.flights[f := flight], s.finalizing);
  }

  lemma LocksStep(l: Limits, s: State, a: Action)
    requires Locks(s) && Enabled(l, s, a)
    ensures Locks(Apply(l, s, a))
  {
    if a.Reserve? {
      LocksOnReserve(s, a.f, a.ip, a.credit, Apply(l, s, a));
    } else if a.Free? {
      LocksOnFree(l, s, a.f);
    } else if a.Mint? || a.Label? {
      LocksOnFlight(s, a.f, Apply(l, s, a).flights[a.f], Apply(l, s, a).sessions);
    }
  }

  // ---------------------------------------------------------------- capacity

  lemma ReserveCapacity(l: Limits, s: State, f: FlightId, ip: Ip, credit: Option<Sid>)
    requires Sum(s.connecting) == |s.flights| && Enabled(l, s, Reserve(f, ip, credit))
    ensures Capacity(l, Apply(l, s, Reserve(f, ip, credit)))
  {
    var s' := Apply(l, s, Reserve(f, ip, credit));
    FlightAdded(s.flights, f, Flight(ip, credit, None, false), ip);
    Smaller(Unminted(s.flights), s.flights.Keys);
    Smaller(Standing(s'), Counted(s.sessions, credit));
    if credit.Some? {
      SmallerBut(s.sessions.Keys, Counted(s.sessions, credit), credit.value);
    } else {
      Smaller(s.sessions.Keys, Counted(s.sessions, credit));
    }
  }

  lemma FreeCapacity(l: Limits, s: State, f: FlightId)
    requires Capacity(l, s) && f in s.flights && (s.flights[f].minted.Some? ==> Completed(s, s.flights[f]))
    ensures Capacity(l, Apply(l, s, Free(f)))
  {
    var s' := Apply(l, s, Free(f));
    FlightGone(s.flights, f, s.flights[f].ip);
    if s.flights[f].credit.Some? && s.flights[f].minted.None? {
      SmallerBut(Standing(s'), Standing(s), s.flights[f].credit.value);
    } else {
      Smaller(Standing(s'), Standing(s));
    }
  }

  lemma MintCapacity(l: Limits, s: State, f: FlightId, id: Sid, session: Session, flight: Flight)
    requires Capacity(l, s) && f in s.flights && s.flights[f].minted.None? && id !in s.sessions && id !in s.finalizing
    requires flight == s.flights[f].(minted := Some(id))
    ensures Capacity(l, s.(sessions := s.sessions[id := session], flights := s.flights[f := flight]))
  {
    var s' := s.(sessions := s.sessions[id := session], flights := s.flights[f := flight]);
    FlightChanged(s.flights, f, flight, flight.ip);
    assert s'.sessions.Keys == s.sessions.Keys + {id};
    assert Standing(s') == Standing(s) + {id};
  }

  lemma LabelCapacity(l: Limits, s: State, f: FlightId, flight: Flight, sessions: map<Sid, Session>)
    requires Capacity(l, s) && f in s.flights && flight == s.flights[f].(labelled := true)
             && sessions.Keys == s.sessions.Keys
    ensures Capacity(l, s.(sessions := sessions, flights := s.flights[f := flight]))
  {
    FlightChanged(s.flights, f, flight, flight.ip);
    assert |sessions| == |sessions.Keys| == |s.sessions|;
  }

  lemma DropCapacity(l: Limits, s: State, id: Sid)
    requires Capacity(l, s)
    ensures Capacity(l, s.(sessions := s.sessions - {id}))
  {
    var s' := s.(sessions := s.sessions - {id});
    Smaller(s'.sessions.Keys, s.sessions.Keys);
    assert |s'.sessions| == |s'.sessions.Keys| && |s.sessions| == |s.sessions.Keys|;
    Smaller(Standing(s'), Standing(s));
  }

  lemma RefreshCapacity(l: Limits, s: State, sessions: map<Sid, Session>)
    requires Capacity(l, s) && sessions.Keys == s.sessions.Keys
    ensures Capacity(l, s.(sessions := sessions))
  {
    assert |sessions| == |sessions.Keys| == |s.sessions|;
  }

  lemma CapacityStep(l: Limits, s: State, a: Action)
    requires Capacity(l, s) && Sum(s.connecting) == |s.flights| && Enabled(l, s, a)
    ensures Capacity(l, Apply(l, s, a))
  {
    if a.Reserve? {
      ReserveCapacity(l, s, a.f, a.ip, a.credit);
    } else if a.Free? {
      FreeCapacity(l, s, a.f);
    } else if a.Drop? {
      DropCapacity(l, s, a.id);
    } else if a.Refresh? {
      assert s.sessions[a.id := a.session].Keys == s.sessions.Keys;
      RefreshCapacity(l, s, s.sessions[a.id := a.session]);
    } else if a.Mint? {
      MintCapacity(l, s, a.f, a.id, a.session, s.flights[a.f].(minted := Some(a.id)));
    } else {
      var s' := Apply(l, s, a);
      assert s'.sessions.Keys == s.sessions.Keys;
      LabelCapacity(l, s, a.f, s'.flights[a.f], s'.sessions);
    }
  }

  lemma ReserveOf(l: Limits, s: State, f: FlightId, ip': Ip, credit: Option<Sid>, ip: Ip)
    requires CapacityOf(l, s, ip) && Waiting(s.connecting, ip) == |From(s.flights, ip)|
             && Enabled(l, s, Reserve(f, ip', credit))
    ensures CapacityOf(l, Apply(l, s, Reserve(f, ip', credit)), ip)
  {
    var s' := Apply(l, s, Reserve(f, ip', credit));
    FlightAdded(s.flights, f, Flight(ip', credit, None, false), ip);
    if ip == ip' {
      Smaller(Unlabelled(s.flights, ip), From(s.flights, ip));
      Smaller(StandingOf(s', ip), SessionsOf(s.sessions, ip, credit));
    } else {
      Smaller(StandingOf(s', ip), StandingOf(s, ip));
    }
  }

  lemma FreeOf(l: Limits, s: State, f: FlightId, ip: Ip)
    requires CapacityOf(l, s, ip) && Locks(s) && f in s.flights
             && (s.flights[f].minted.Some? ==> Completed(s, s.flights[f]))
    ensures CapacityOf(l, Apply(l, s, Free(f)), ip)
  {
    var s' := Apply(l, s, Free(f));
    FlightGone(s.flights, f, ip);
    if s.flights[f].credit.Some? && s.flights[f].ip == ip && s.flights[f].minted.None? {
      SmallerBut(StandingOf(s', ip), StandingOf(s, ip), s.flights[f].credit.value);
    } else {
      Smaller(StandingOf(s', ip), StandingOf(s, ip));
    }
  }

  lemma LabelOf(l: Limits, s: State, f: FlightId, ip: Ip)
    requires CapacityOf(l, s, ip) && f in s.flights && s.flights[f].minted.Some? && !s.flights[f].labelled
    ensures CapacityOf(l, Apply(l, s, Label(f)), ip)
  {
    var s' := Apply(l, s, Label(f));
    FlightChanged(s.flights, f, s.flights[f].(labelled := true), ip);
    if ip == s.flights[f].ip {
      SmallerBut(StandingOf(s', ip), StandingOf(s, ip), s.flights[f].minted.value);
    } else {
      Smaller(StandingOf(s', ip), StandingOf(s, ip));
    }
  }

  lemma CapacityOfStep(l: Limits, s: State, a: Action, ip: Ip)
    requires CapacityOf(l, s, ip) && Locks(s) && Waiting(s.connecting, ip) == |From(s.flights, ip)| && Enabled(l, s, a)
    ensures CapacityOf(l, Apply(l, s, a), ip)
  {
    if a.Reserve? {
      ReserveOf(l, s, a.f, a.ip, a.credit, ip);
    } else if a.Free? {
      FreeOf(l, s, a.f, ip);
    } else if a.Label? {
      LabelOf(l, s, a.f, ip);
    } else {
      var s' := Apply(l, s, a);
      if a.Mint? {
        FlightChanged(s.flights, a.f, s'.flights[a.f], ip);
      }
      Smaller(StandingOf(s', ip), StandingOf(s, ip));
    }
  }

  lemma StepKeeps(l: Limits, s: State, a: Action)
    requires Inv(l, s) && Enabled(l, s, a)
    ensures Inv(l, Apply(l, s, a))
  {
    CountsStep(l, s, a);
    LocksStep(l, s, a);
    CapacityStep(l, s, a);
    forall ip ensures CapacityOf(l, Apply(l, s, a), ip) {
      CapacityOfStep(l, s, a, ip);
    }
  }

  ghost predicate Reaches(l: Limits, s: State, run: seq<Action>, s': State)
    decreases |run|
  {
    if run == [] then s' == s
    else Enabled(l, s, run[0]) && Reaches(l, Apply(l, s, run[0]), run[1..], s')
  }

  lemma {:induction false} RunKeeps(l: Limits, s: State, run: seq<Action>, s': State)
    requires Inv(l, s) && Reaches(l, s, run, s')
    ensures Inv(l, s')
    decreases |run|
  {
    if run != [] {
      StepKeeps(l, s, run[0]);
      RunKeeps(l, Apply(l, s, run[0]), run[1..], s');
    }
  }

  lemma StartIsSound(l: Limits, s: State)
    requires s.sessions == map[] && s.connecting == map[] && s.flights == map[] && s.finalizing == map[]
    requires l.sessions >= 0 && l.perIp >= 0
    ensures Inv(l, s)
  {
    assert Standing(s) == {} && Unminted(s.flights) == {};
    assert forall ip :: StandingOf(s, ip) == {} && Unlabelled(s.flights, ip) == {} && From(s.flights, ip) == {};
  }

  /**
   * When a reservation is admitted, by the sessions and the reservations still held: each of
   * the four limits has room for one more, the session it is credited with not counted.
   */
  lemma AdmittedIff(l: Limits, s: State, ip: Ip, credit: Option<Sid>)
    requires Counts(s)
    ensures Admits(s.sessions, s.connecting, ip, l, credit) <==>
              && |set id | id in s.sessions && Some(id) != credit| + |s.flights| < l.sessions
              && |set id | id in s.sessions && Some(id) != credit && s.sessions[id].clientIP == Some(ip)|
                 + |set f | f in s.flights && s.flights[f].ip == ip| < l.perIp
              && |s.flights| < l.connecting
              && |set f | f in s.flights && s.flights[f].ip == ip| < l.connectingPerIp
  {
    assert Waiting(s.connecting, ip) == |From(s.flights, ip)|;
    assert (set id | id in s.sessions && Some(id) != credit) == Counted(s.sessions, credit);
    assert (set id | id in s.sessions && Some(id) != credit && s.sessions[id].clientIP == Some(ip))
        == SessionsOf(s.sessions, ip, credit);
    assert (set f | f in s.flights && s.flights[f].ip == ip) == From(s.flights, ip);
  }

  lemma {:induction false} RunWaitsWithinLimits(l: Limits, s: State, run: seq<Action>, s': State, ip: Ip)
    requires Inv(l, s) && Reaches(l, s, run, s')
    requires |s.flights| <= l.connecting && |From(s.flights, ip)| <= l.connectingPerIp
    ensures |s'.flights| <= l.connecting && |From(s'.flights, ip)| <= l.connectingPerIp
    decreases |run|
  {
    if run != [] {
      StepKeeps(l, s, run[0]);
      StepWaits(l, s, run[0], ip);
      RunWaitsWithinLimits(l, Apply(l, s, run[0]), run[1..], s', ip);
    }
  }

  /** Over every run, the reservations still held never exceed their limit, in all and per address. */
  lemma EveryRunWaitsWithinLimits(l: Limits, s: State, run: seq<Action>, s': State, ip: Ip)
    requires s.sessions == map[] && s.connecting == map[] && s.flights == map[] && s.finalizing == map[]
    requires l.sessions >= 0 && l.perIp >= 0 && l.connecting >= 0 && l.connectingPerIp >= 0
    requires Reaches(l, s, run, s')
    ensures |s'.flights| <= l.connecting && |set f | f in s'.flights && s'.flights[f].ip == ip| <= l.connectingPerIp
  {
    StartIsSound(l, s);
    assert From(s.flights, ip) == {};
    RunWaitsWithinLimits(l, s, run, s', ip);
    assert (set f | f in s'.flights && s'.flights[f].ip == ip) == From(s'.flights, ip);
  }

  lemma StepWaits(l: Limits, s: State, a: Action, ip: Ip)
    requires Inv(l, s) && Enabled(l, s, a) && |s.flights| <= l.connecting && |From(s.flights, ip)| <= l.connectingPerIp
    ensures |Apply(l, s, a).flights| <= l.connecting && |From(Apply(l, s, a).flights, ip)| <= l.connectingPerIp
  {
    assert Waiting(s.connecting, ip) == |From(s.flights, ip)|;
    match a
    case Reserve(f, at, credit) => FlightAdded(s.flights, f, Flight(at, credit, None, false), ip);
    case Mint(f, id, session) => FlightChanged(s.flights, f, Apply(l, s, a).flights[f], ip);
    case Label(f) => FlightChanged(s.flights, f, Apply(l, s, a).flights[f], ip);
    case Free(f) => FlightGone(s.flights, f, ip);
    case _ =>
  }

  /**
   * From an empty store, over every run: stored sessions that no finalization is about to
   * replace, plus reservations still to mint one, never exceed the limit, in all and per
   * address; the store never holds more than one session above it; and within the limit
   * whenever no finalization is in flight.
   */
  lemma EveryRunIsWithinCapacity(l: Limits, s: State, run: seq<Action>, s': State, ip: Ip)
    requires s.sessions == map[] && s.connecting == map[] && s.flights == map[] && s.finalizing == map[]
    requires l.sessions >= 0 && l.perIp >= 0 && Reaches(l, s, run, s')
    ensures |s'.sessions.Keys - s'.finalizing.Keys| + |Unminted(s'.flights)| <= l.sessions
    ensures |StandingOf(s', ip)| + |Unlabelled(s'.flights, ip)| <= l.perIp
    ensures |s'.sessions| <= l.sessions + 1
    ensures (forall f :: f in s'.flights ==> s'.flights[f].credit.None?) ==>
              |s'.sessions| <= l.sessions && |SessionsOf(s'.sessions, ip, None)| <= l.perIp
  {
    StartIsSound(l, s);
    RunKeeps(l, s, run, s');
    assert CapacityOf(l, s', ip);
    if forall f :: f in s'.flights ==> s'.flights[f].credit.None? {
      assert s'.finalizing.Keys == {};
      assert Standing(s') == s'.sessions.Keys;
      assert StandingOf(s', ip) == SessionsOf(s'.sessions, ip, None);
    }
  }

  lemma Then(l: Limits, s: State, a: Action, run: seq<Action>, s': State)
    requires Enabled(l, s, a) && Reaches(l, Apply(l, s, a), run, s')
    ensures Reaches(l, s, [a] + run, s')
  {
    assert ([a] + run)[0] == a && ([a] + run)[1..] == run;
  }

  /** A session is minted for a reservation, and labelled. */
  lemma MintedAndLabelled(l: Limits, s: State, f: FlightId, id: Sid, session: Session) returns (s': State)
    requires f in s.flights && s.flights[f].minted.None? && !s.flights[f].labelled
    requires id !in s.sessions && id !in s.finalizing && session.clientIP.None?
    ensures Reaches(l, s, [Mint(f, id, session)] + ([Label(f)] + []), s')
    ensures s'.sessions == s.sessions[id := session.(clientIP := Some(s.flights[f].ip))]
    ensures s'.flights == s.flights[f := s.flights[f].(minted := Some(id), labelled := true)]
    ensures s'.connecting == s.connecting && s'.finalizing == s.finalizing
  {
    var minted := Apply(l, s, Mint(f, id, session));
    s' := Apply(l, minted, Label(f));
    Then(l, minted, Label(f), [], s');
    Then(l, s, Mint(f, id, session), [Label(f)] + [], s');
  }

  /** The pending session it replaces is dropped, and the reservation given back. */
  lemma DroppedAndFreed(l: Limits, s: State, f: FlightId) returns (run: seq<Action>, s': State)
    requires f in s.flights && s.flights[f].minted.Some? && s.flights[f].labelled
    ensures Reaches(l, s, run, s') && s'.flights == s.flights - {f}
    ensures s'.sessions == if s.flights[f].credit.Some? then s.sessions - {s.flights[f].credit.value} else s.sessions
  {
    var credit := s.flights[f].credit;
    var ready := if credit.Some? then Apply(l, s, Drop(credit.value)) else s;
    s' := Apply(l, ready, Free(f));
    run := [Free(f)] + [];
    Then(l, ready, Free(f), [], s');
    if credit.Some? {
      Then(l, s, Drop(credit.value), run, s');
      run := [Drop(credit.value)] + run;
    }
  }

  lemma {:induction false} Onward(l: Limits, s: State, a: seq<Action>, mid: State, b: seq<Action>, s': State)
    requires Reaches(l, s, a, mid) && Reaches(l, mid, b, s')
    ensures Reaches(l, s, a + b, s')
    decreases |a|
  {
    if a == [] {
      assert a + b == b;
    } else {
      Onward(l, Apply(l, s, a[0]), a[1..], mid, b, s');
      assert (a + b)[1..] == a[1..] + b;
    }
  }

  /**
   * Wherever a run has come to, an admitted login can end with its session stored and its
   * reservation given back; one that is credited with a pending session ends with that one gone.
   */
  lemma AdmittedCanFinish(l: Limits, s: State, f: FlightId, ip: Ip, credit: Option<Sid>, id: Sid, session: Session)
    returns (run: seq<Action>, s': State)
    requires f !in s.flights && Admits(s.sessions, s.connecting, ip, l, credit)
    requires credit.Some? ==> credit.value !in s.finalizing && credit.value != id
    requires id !in s.sessions && id !in s.finalizing && session.clientIP.None?
    ensures Reaches(l, s, run, s') && s'.flights == s.flights
    ensures (var all := s.sessions[id := session.(clientIP := Some(ip))];
      s'.sessions == if credit.Some? then all - {credit.value} else all)
  {
    var reserved := Apply(l, s, Reserve(f, ip, credit));
    var labelled := MintedAndLabelled(l, reserved, f, id, session);
    run, s' := DroppedAndFreed(l, labelled, f);
    Onward(l, reserved, [Mint(f, id, session)] + ([Label(f)] + []), labelled, run, s');
    run := [Mint(f, id, session)] + ([Label(f)] + []) + run;
    Then(l, s, Reserve(f, ip, credit), run, s');
    run := [Reserve(f, ip, credit)] + run;
  }
}

/**
 * The in-memory session store: expiry, the download-key index, and admission by
 * reservation, where replacing a pending session earns a credit for the place it frees.
 */
module SessionStore {
  import opened FiniteSets
  import opened MapSums
  import opened Options

  type Sid = string
  type Ip = string
  type Time = int

  datatype Session = Session(downloadKey: string, expiresAt: Time, hardExpiry: Option<Time>, clientIP: Option<Ip>)

  datatype Limits = Limits(sessions: int, perIp: int, connecting: int, connectingPerIp: int)

  function Waiting(connecting: map<Ip, nat>, ip: Ip): nat {
    if ip in connecting then connecting[ip] else 0
  }

  /** Stored sessions of `ip`, the credited one not counted. */
  ghost function SessionsOf(sessions: map<Sid, Session>, ip: Ip, credit: Option<Sid>): set<Sid> {
    set id | id in sessions && Some(id) != credit && sessions[id].clientIP == Some(ip)
  }

  ghost function Counted(sessions: map<Sid, Session>, credit: Option<Sid>): set<Sid> {
    set id | id in sessions && Some(id) != credit
  }

  ghost predicate Admits(sessions: map<Sid, Session>, connecting: map<Ip, nat>, ip: Ip, limits: Limits,
                         credit: Option<Sid>)
  {
    && |Counted(sessions, credit)| + Sum(connecting) < limits.sessions
    && |SessionsOf(sessions, ip, credit)| + Waiting(connecting, ip) < limits.perIp
    && Sum(connecting) < limits.connecting
    && Waiting(connecting, ip) < limits.connectingPerIp
  }

  /** Visiting one more session moves each count by what the loop adds. */
  lemma CountStep(sessions: map<Sid, Session>, todo: set<Sid>, id: Sid, ip: Ip, credit: Option<Sid>)
    requires todo <= sessions.Keys && id in todo
    ensures var (before, after) := (sessions - todo, sessions - (todo - {id}));
            && |SessionsOf(after, ip, credit)| == |SessionsOf(before, ip, credit)|
                 + (if Some(id) != credit && sessions[id].clientIP == Some(ip) then 1 else 0)
            && |Counted(after, credit)| == |Counted(before, credit)| + (if Some(id) != credit then 1 else 0)
  {
    var before, after := sessions - todo, sessions - (todo - {id});
    assert after.Keys == before.Keys + {id} && id !in before;
    OneMore(Counted(before, credit), Counted(after, credit), id, Some(id) != credit);
    OneMore(SessionsOf(before, ip, credit), SessionsOf(after, ip, credit), id,
      Some(id) != credit && sessions[id].clientIP == Some(ip));
  }

  class Reservation {
    const ip: Ip
    var done: bool

    constructor (ip: Ip)
      ensures this.ip == ip && !done
    {
      this.ip, this.done := ip, false;
    }
  }

  class Store {
    const ttl: Time
    var sessions: map<Sid, Session>
    var byDownloadKey: map<string, Sid>
    var connecting: map<Ip, nat>

    constructor (ttl: Time)
      ensures this.ttl == ttl && sessions == map[] && connecting == map[] && Valid()
    {
      this.ttl := ttl;
      sessions, byDownloadKey, connecting := map[], map[], map[];
    }

    /** The two indexes hold the same sessions. */
    ghost predicate Valid()
      reads this
    {
      && (forall id :: id in sessions ==>
          sessions[id].downloadKey in byDownloadKey && byDownloadKey[sessions[id].downloadKey] == id)
      && (forall k :: k in byDownloadKey ==>
          byDownloadKey[k] in sessions && sessions[byDownloadKey[k]].downloadKey == k)
    }

    /** Identifiers are random; what is assumed of them is that they are new. */
    method New(id: Sid, downloadKey: string, now: Time)
      requires Valid() && id !in sessions && downloadKey !in byDownloadKey
      modifies this`sessions, this`byDownloadKey
      ensures Valid() && sessions == old(sessions)[id := Session(downloadKey, now + ttl, None, None)]
    {
      sessions := sessions[id := Session(downloadKey, now + ttl, None, None)];
      byDownloadKey := byDownloadKey[downloadKey := id];
    }

    method Get(id: Sid, now: Time) returns (r: Option<Session>)
      ensures r == if id in sessions && now <= sessions[id].expiresAt then Some(sessions[id]) else None
    {
      if id !in sessions || now > sessions[id].expiresAt {
        return None;
      }
      return Some(sessions[id]);
    }

    /** A download key reaches a session exactly when that session's own id would. */
    method GetByDownloadKey(key: string, now: Time) returns (r: Option<Sid>)
      requires Valid()
      ensures r.Some? ==>
                r.value in sessions && sessions[r.value].downloadKey == key && now <= sessions[r.value].expiresAt
      ensures r.None? ==>
                forall id :: id in sessions && sessions[id].downloadKey == key ==> now > sessions[id].expiresAt
    {
      if key !in byDownloadKey || now > sessions[byDownloadKey[key]].expiresAt {
        return None;
      }
      return Some(byDownloadKey[key]);
    }

    /** Extends a session that is still alive, never past its hard expiry. */
    method Touch(id: Sid, now: Time)
      requires Valid()
      modifies this`sessions
      ensures Valid() && sessions == Touched(old(sessions), id, now, ttl)
    {
      if id in sessions && now <= sessions[id].expiresAt {
        var expiry := now + ttl;
        if sessions[id].hardExpiry.Some? && sessions[id].hardExpiry.value < expiry {
          expiry := sessions[id].hardExpiry.value;
        }
        sessions := sessions[id := sessions[id].(expiresAt := expiry)];
      }
    }

    method SetExpiry(id: Sid, expiry: Time)
      requires Valid()
      modifies this`sessions
      ensures Valid()
      ensures sessions == if id in old(sessions)
                          then old(sessions)[id := old(sessions)[id].(expiresAt := expiry, hardExpiry := Some(expiry))]
                          else old(sessions)
    {
      if id in sessions {
        sessions := sessions[id := sessions[id].(expiresAt := expiry, hardExpiry := Some(expiry))];
      }
    }

    method Delete(id: Sid)
      requires Valid()
      modifies this`sessions, this`byDownloadKey
      ensures Valid() && sessions == old(sessions) - {id}
    {
      if id in sessions {
        byDownloadKey := byDownloadKey - {sessions[id].downloadKey};
      }
      sessions := sessions - {id};
    }

    /**
     * The expiry sweep or, with `all`, the shutdown sweep. An expiry sweep drops exactly the
     * expired sessions whose transfer lock is free; a shutdown may run out of time.
     */
    method Evict(all: bool, now: Time, busy: set<Sid>) returns (evicted: set<Sid>)
      requires Valid()
      modifies this`sessions, this`byDownloadKey
      ensures Valid() && sessions == old(sessions) - evicted
      ensures evicted <= old(sessions).Keys
      ensures !all ==> forall id :: id in evicted <==>
                id in old(sessions) && now > old(sessions)[id].expiresAt && id !in busy
    {
      var victims := set id | id in sessions && (all || now > sessions[id].expiresAt);
      evicted := {};
      var todo := victims;
      while todo != {}
        invariant todo <= victims && Valid() && sessions == old(sessions) - evicted
        invariant forall id :: id in evicted <==> id in victims && id !in todo && (all || id !in busy)
        decreases todo
      {
        var late: bool := *;
        if all && late {
          return;
        }
        var id :| id in todo;
        todo := todo - {id};
        if all || id !in busy {
          Delete(id);
          evicted := evicted + {id};
        }
      }
    }

    method Counts(ip: Ip, credit: Option<Sid>) returns (count: nat, total: int)
      ensures count == |SessionsOf(sessions, ip, credit)| && total == |Counted(sessions, credit)|
    {
      count, total := 0, |sessions|;
      var todo := sessions.Keys;
      while todo != {}
        invariant todo <= sessions.Keys
        invariant count == |SessionsOf(sessions - todo, ip, credit)|
        invariant total == |todo| + |Counted(sessions - todo, credit)|
        decreases todo
      {
        var id :| id in todo;
        CountStep(sessions, todo, id, ip, credit);
        todo := todo - {id};
        if Some(id) == credit {
          total := total - 1;
        } else if sessions[id].clientIP == Some(ip) {
          count := count + 1;
        }
      }
      assert sessions - todo == sessions;
    }

    method Active() returns (active: nat)
      ensures active == Sum(connecting)
    {
      active := 0;
      var todo := connecting.Keys;
      ghost var done: map<Ip, nat> := map[];
      while todo != {}
        invariant todo <= connecting.Keys && done == connecting - todo && active == Sum(done)
        decreases todo
      {
        var ip :| ip in todo;
        assert connecting - (todo - {ip}) == done[ip := connecting[ip]];
        SumInsert(done, ip, connecting[ip]);
        active := active + connecting[ip];
        todo, done := todo - {ip}, done[ip := connecting[ip]];
      }
      assert done == connecting;
    }

    /** Admission: granted exactly when every limit has room, the credited session not counted. */
    method Reserve(ip: Ip, limits: Limits, credit: Option<Sid>) returns (r: Reservation?)
      modifies this`connecting
      ensures (r != null) == Admits(sessions, old(connecting), ip, limits, credit)
      ensures r != null ==> fresh(r) && !r.done && r.ip == ip
                            && connecting == old(connecting)[ip := Waiting(old(connecting), ip) + 1]
      ensures r == null ==> connecting == old(connecting)
    {
      r := null;
      var count, total := Counts(ip, credit);
      var active := Active();
      var waiting := if ip in connecting then connecting[ip] else 0;
      if total + active >= limits.sessions || count + waiting >= limits.perIp
         || active >= limits.connecting || waiting >= limits.connectingPerIp {
        return;
      }
      connecting := connecting[ip := waiting + 1];
      r := new Reservation(ip);
    }

    /** Runs once; the last reservation of an address takes its entry with it. */
    method Free(r: Reservation)
      requires !r.done ==> Waiting(connecting, r.ip) > 0
      modifies this`connecting, r
      ensures r.done
      ensures forall ip :: Waiting(connecting, ip) ==
                Waiting(old(connecting), ip) - (if ip == r.ip && !old(r.done) then 1 else 0)
      ensures !old(r.done) ==> Sum(connecting) == Sum(old(connecting)) - 1
      ensures !old(r.done) && Waiting(connecting, r.ip) == 0 ==> r.ip !in connecting
      ensures old(r.done) ==> connecting == old(connecting)
    {
      if !r.done {
        r.done := true;
        ghost var before := connecting;
        connecting := connecting[r.ip := connecting[r.ip] - 1];
        SumReplace(before, r.ip, before[r.ip] - 1);
        if connecting[r.ip] == 0 {
          SumPick(connecting, r.ip);
          connecting := connecting - {r.ip};
        }
      }
    }
  }

  /** The new expiry of a session that is still alive: a full term, but not past its hard expiry. */
  function Extended(expiresAt: Time, hard: Option<Time>, now: Time, ttl: Time): Time {
    if now > expiresAt then expiresAt
    else if hard.Some? && hard.value < now + ttl then hard.value
    else now + ttl
  }

  /** A touched session is alive just as long: a term from now, within its hard expiry; a dead one stays so. */
  lemma ExtendedLasts(expiresAt: Time, hard: Option<Time>, now: Time, ttl: Time, t: Time)
    ensures now <= expiresAt ==>
              (t <= Extended(expiresAt, hard, now, ttl) <==> t - now <= ttl && (hard.Some? ==> t <= hard.value))
    ensures now > expiresAt ==> (t <= Extended(expiresAt, hard, now, ttl) <==> t <= expiresAt)
  {
  }

  function Touched(sessions: map<Sid, Session>, id: Sid, now: Time, ttl: Time): map<Sid, Session> {
    if id in sessions then
      sessions[id := sessions[id].(expiresAt := Extended(sessions[id].expiresAt, sessions[id].hardExpiry, now, ttl))]
    else sessions
  }
}

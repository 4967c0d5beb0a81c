/**
 * The login throttle: attempts are reserved before dialing and settled afterwards.
 * Account keys carry failed attempts and attempts in flight, IP keys carry every accepted
 * attempt. Times are whole nanoseconds; the zero time is 0 and the clock is past it.
 */
module Throttle {
  import opened FiniteSets

  type Key = string
  type Time = int
  type SettleId = nat

  const MAX_ENTRIES: nat := 10_000

  datatype Entry = Entry(attempts: int, inFlight: int, expiresAt: Time)
  type Table = map<Key, Entry>

  /** Every caller prefixes client addresses this way and nothing else. */
  predicate IsIp(k: Key) {
    "ip:" <= k
  }

  predicate Droppable(e: Entry, now: Time) {
    now > e.expiresAt && e.inFlight == 0
  }

  // ---------------------------------------------------------- specification

  function Dropped(t: Table, keys: set<Key>, now: Time): Table {
    map k | k in t && !(k in keys && Droppable(t[k], now)) :: t[k]
  }

  /** An expired account whose attempts are still in flight starts a new count. */
  function Forgiven(t: Table, account: Key, now: Time): Table {
    if account in t && now > t[account].expiresAt then t[account := t[account].(attempts := 0)] else t
  }

  function Missing(t: Table, k: Key): int {
    if k in t then 0 else 1
  }

  predicate Admits(t: Table, account: Key, ip: Key, max: int) {
    && max >= 1
    && |t| + Missing(t, account) + Missing(t, ip) <= MAX_ENTRIES
    && (account in t ==> t[account].attempts + t[account].inFlight < max)
    && (ip in t ==> t[ip].attempts < max * 4)
  }

  function EntryOf(t: Table, k: Key): Entry {
    if k in t then t[k] else Entry(0, 0, 0)
  }

  function InFlight(e: Entry, cooldown: Time, now: Time): Entry {
    Entry(e.attempts, e.inFlight + 1, if e.expiresAt == 0 || now > e.expiresAt then now + cooldown else e.expiresAt)
  }

  function Attempted(e: Entry, cooldown: Time, now: Time): Entry {
    Entry(e.attempts + 1, e.inFlight, now + cooldown)
  }

  function Charged(t: Table, account: Key, ip: Key, cooldown: Time, now: Time): Table {
    t[account := InFlight(EntryOf(t, account), cooldown, now)][ip := Attempted(EntryOf(t, ip), cooldown, now)]
  }

  function Reserved(t: Table, account: Key, ip: Key, max: int, cooldown: Time, now: Time): (Table, bool) {
    var t' := Forgiven(Dropped(t, {account, ip}, now), account, now);
    if Admits(t', account, ip, max) then (Charged(t', account, ip, cooldown, now), true) else (t', false)
  }

  function Settled(t: Table, account: Key, failed: bool, cooldown: Time, now: Time): Table {
    if account !in t then t
    else
      var e := t[account];
      t[account := if failed then Entry(e.attempts + 1, e.inFlight - 1, now + cooldown)
          else e.(inFlight := e.inFlight - 1)]
  }

  // ------------------------------------------------------------------- class

  /** The settle closure returned by a reservation. */
  class Settlement {
    const account: Key
    const cooldown: Time
    var done: bool

    constructor (account: Key, cooldown: Time)
      ensures this.account == account && this.cooldown == cooldown && !done
    {
      this.account, this.cooldown, this.done := account, cooldown, false;
    }
  }

  class LoginThrottle {
    var entries: Table

    constructor ()
      ensures entries == map[]
    {
      entries := map[];
    }

    method DropExpired(account: Key, ip: Key, now: Time)
      modifies this
      ensures entries == Dropped(old(entries), {account, ip}, now)
    {
      var keys := [account, ip];
      for j := 0 to 2
        invariant entries == Dropped(old(entries), (set k | k in keys[..j]), now)
      {
        if keys[j] in entries && Droppable(entries[keys[j]], now) {
          entries := entries - {keys[j]};
        }
        assert keys[..j + 1] == keys[..j] + [keys[j]];
      }
      assert keys[..2] == [account, ip] && (set k | k in keys[..2]) == {account, ip};
    }

    method ChargeAccount(account: Key, cooldown: Time, now: Time)
      modifies this
      ensures entries == old(entries)[account := InFlight(EntryOf(old(entries), account), cooldown, now)]
    {
      if account !in entries {
        entries := entries[account := Entry(0, 0, 0)];
      }
      var a := entries[account];
      entries := entries[account := a.(inFlight := a.inFlight + 1)];
      if a.expiresAt == 0 || now > a.expiresAt {
        entries := entries[account := entries[account].(expiresAt := now + cooldown)];
      }
    }

    method ChargeIp(ip: Key, cooldown: Time, now: Time)
      modifies this
      ensures entries == old(entries)[ip := Attempted(EntryOf(old(entries), ip), cooldown, now)]
    {
      if ip !in entries {
        entries := entries[ip := Entry(0, 0, 0)];
      }
      var i := entries[ip];
      entries := entries[ip := i.(attempts := i.attempts + 1, expiresAt := now + cooldown)];
    }

    method Reserve(account: Key, ip: Key, max: int, cooldown: Time, now: Time) returns (settle: Settlement?)
      requires account != ip
      modifies this
      ensures (entries, settle != null) == Reserved(old(entries), account, ip, max, cooldown, now)
      ensures settle != null ==>
                fresh(settle) && !settle.done && settle.account == account && settle.cooldown == cooldown
    {
      settle := null;
      DropExpired(account, ip, now);
      if account in entries && now > entries[account].expiresAt {
        entries := entries[account := entries[account].(attempts := 0)];
      }
      var missing := (if account in entries then 0 else 1) + (if ip in entries then 0 else 1);
      if max < 1 || |entries| + missing > MAX_ENTRIES
         || (account in entries && entries[account].attempts + entries[account].inFlight >= max)
         || (ip in entries && entries[ip].attempts >= max * 4) {
        return;
      }
      ChargeAccount(account, cooldown, now);
      ChargeIp(ip, cooldown, now);
      settle := new Settlement(account, cooldown);
    }

    /** A second call finds the latch down and changes nothing. */
    method Settle(s: Settlement, failed: bool, now: Time)
      modifies this, s
      ensures s.done
      ensures entries == if old(s.done) then old(entries) else Settled(old(entries), s.account, failed, s.cooldown, now)
    {
      if !s.done {
        s.done := true;
        if s.account in entries {
          var e := entries[s.account];
          e := e.(inFlight := e.inFlight - 1);
          if failed {
            e := e.(attempts := e.attempts + 1, expiresAt := now + s.cooldown);
          }
          entries := entries[s.account := e];
        }
      }
    }

    /** The background sweep. */
    method Sweep(now: Time)
      modifies this
      ensures entries == Dropped(old(entries), old(entries).Keys, now)
    {
      var todo := entries.Keys;
      while todo != {}
        invariant todo <= entries.Keys
        invariant entries == Dropped(old(entries), old(entries).Keys - todo, now)
        decreases todo
      {
        var k :| k in todo;
        todo := todo - {k};
        if Droppable(entries[k], now) {
          entries := entries - {k};
        }
      }
    }
  }

  // -------------------------------------------------------------------- runs

  /**
   * `open` are the settlements not yet run. The rest is a history the table is held against:
   * until when each key's window runs, the failed settlements of each account and the
   * accepted attempts of each address since its count was last cleared.
   */
  datatype State = State(
    now: Time, table: Table, open: map<SettleId, Key>,
    until: map<Key, Time>, failed: map<Key, int>, accepted: map<Key, int>)

  datatype Config = Config(max: int, cooldown: Time)

  datatype Action =
    | Tick(later: Time)
    | Try(account: Key, ip: Key, id: SettleId)
    | Finish(id: SettleId, failed: bool)
    | SweepAll

  predicate Enabled(s: State, a: Action) {
    match a
    case Tick(later) => later >= s.now
    case Try(account, ip, id) => !IsIp(account) && IsIp(ip) && id !in s.open
    case Finish(id, failed) => true
    case SweepAll => true
  }

  function Until(s: State, k: Key): Time {
    if k in s.until then s.until[k] else 0
  }

  /** The key's window has run out, or none was ever opened. */
  predicate Lapsed(s: State, k: Key) {
    s.now > Until(s, k)
  }

  function Failures(s: State, account: Key): int {
    if account in s.failed then s.failed[account] else 0
  }

  function Count(s: State, ip: Key): int {
    if ip in s.accepted then s.accepted[ip] else 0
  }

  ghost function OpenFor(open: map<SettleId, Key>, k: Key): set<SettleId> {
    set id | id in open && open[id] == k
  }

  /** A login attempt clears the counts of its account and its address whose windows have run out. */
  function Cleared(s: State, account: Key, ip: Key): State {
    s.(failed := if Lapsed(s, account) then s.failed - {account} else s.failed,
       accepted := if Lapsed(s, ip) then s.accepted - {ip} else s.accepted)
  }

  /** An accepted one opens the account's window unless it is running, and the address's anew. */
  function Opened(c: Config, s: State, account: Key, ip: Key): map<Key, Time> {
    s.until[account := if Lapsed(s, account) then s.now + c.cooldown else Until(s, account)][ip := s.now + c.cooldown]
  }

  /** The table when a login is judged: expired entries gone, an expired count forgiven. */
  function Judged(s: State, account: Key, ip: Key): State {
    Cleared(s, account, ip).(table := Forgiven(Dropped(s.table, {account, ip}, s.now), account, s.now))
  }

  function Accept(c: Config, s: State, account: Key, ip: Key, id: SettleId): State {
    s.(table := Charged(s.table, account, ip, c.cooldown, s.now), open := s.open[id := account],
       until := Opened(c, s, account, ip), accepted := s.accepted[ip := Count(s, ip) + 1])
  }

  ghost function Apply(c: Config, s: State, a: Action): State
    requires Enabled(s, a)
  {
    match a
    case Tick(later) => s.(now := later)
    case Try(account, ip, id) =>
      var s' := Judged(s, account, ip);
      if Admits(s'.table, account, ip, c.max) then Accept(c, s', account, ip, id) else s'
    case Finish(id, failed) =>
      if id !in s.open then s
      else
        var account := s.open[id];
        var s' := s.(table := Settled(s.table, account, failed, c.cooldown, s.now), open := s.open - {id});
        if failed then s'.(failed := s.failed[account := Failures(s, account) + 1],
                           until := s.until[account := s.now + c.cooldown])
        else s'
    case SweepAll =>
      s.(table := Dropped(s.table, s.table.Keys, s.now),
         failed := map k | k in s.failed && !(Lapsed(s, k) && OpenFor(s.open, k) == {}) :: s.failed[k],
         accepted := map k | k in s.accepted && !(Lapsed(s, k) && OpenFor(s.open, k) == {}) :: s.accepted[k])
  }

  /** The table's entry for a key is what the history says of it. */
  ghost predicate EntryOk(c: Config, s: State, k: Key) {
    var e := EntryOf(s.table, k);
    && e.inFlight == |OpenFor(s.open, k)|
    && (if IsIp(k) then 0 <= e.attempts <= 4 * c.max && e.attempts == Count(s, k)
        else e.attempts >= 0 && e.attempts == Failures(s, k) && (k in s.table ==> e.attempts + e.inFlight <= c.max))
    && (if k in s.table then e.expiresAt == Until(s, k) else Lapsed(s, k))
  }

  ghost predicate Inv(c: Config, s: State) {
    && |s.table| <= 10_000 && s.now > 0
    && (forall k :: EntryOk(c, s, k))
    && (forall id :: id in s.open ==> !IsIp(s.open[id]) && s.open[id] in s.table)
  }

  lemma OpenGrows(open: map<SettleId, Key>, id: SettleId, account: Key, k: Key)
    requires id !in open
    ensures |OpenFor(open[id := account], k)| == |OpenFor(open, k)| + (if k == account then 1 else 0)
  {
    if k == account {
      assert OpenFor(open[id := account], k) == OpenFor(open, k) + {id};
    } else {
      assert OpenFor(open[id := account], k) == OpenFor(open, k);
    }
  }

  /** An address has nothing in flight, and what is in flight is in the table. */
  lemma InFlightIsOpen(c: Config, s: State, k: Key)
    requires Inv(c, s)
    ensures IsIp(k) ==> OpenFor(s.open, k) == {}
    ensures OpenFor(s.open, k) != {} ==> k in s.table
    ensures k in s.table ==> (Droppable(s.table[k], s.now) <==> Lapsed(s, k) && OpenFor(s.open, k) == {})
  {
    assert EntryOk(c, s, k);
    if id :| id in OpenFor(s.open, k) {
      assert s.open[id] == k;
    }
  }

  lemma JudgedEntry(c: Config, s: State, account: Key, ip: Key, k: Key)
    requires Inv(c, s) && !IsIp(account) && IsIp(ip)
    ensures EntryOk(c, Judged(s, account, ip), k)
    ensures k in Judged(s, account, ip).table <==>
              k in s.table && !(k in {account, ip} && Lapsed(s, k) && OpenFor(s.open, k) == {})
  {
    assert EntryOk(c, s, k);
    InFlightIsOpen(c, s, k);
  }

  lemma JudgedKeys(c: Config, s: State, account: Key, ip: Key)
    requires Inv(c, s) && !IsIp(account) && IsIp(ip)
    ensures (var keys := Judged(s, account, ip).table.Keys;
      && keys <= s.table.Keys && keys + {account, ip} == s.table.Keys + {account, ip}
      && forall k :: OpenFor(s.open, k) != {} ==> k in keys)
  {
    var keys := Judged(s, account, ip).table.Keys;
    forall k ensures (k in keys ==> k in s.table) && (k in s.table && k !in {account, ip} ==> k in keys)
      ensures OpenFor(s.open, k) != {} ==> k in keys
    {
      JudgedKey(c, s, account, ip, k);
    }
    SameBut(keys, s.table.Keys, {account, ip});
  }

  lemma SameBut(some: set<Key>, all: set<Key>, but: set<Key>)
    requires some <= all && forall k :: k in all && k !in but ==> k in some
    ensures some + but == all + but
  {
  }

  lemma JudgedKey(c: Config, s: State, account: Key, ip: Key, k: Key)
    requires Inv(c, s) && !IsIp(account) && IsIp(ip)
    ensures k in Judged(s, account, ip).table
            <==> k in s.table && !(k in {account, ip} && Lapsed(s, k) && OpenFor(s.open, k) == {})
    ensures OpenFor(s.open, k) != {} ==> k in s.table
  {
    JudgedEntry(c, s, account, ip, k);
    InFlightIsOpen(c, s, k);
  }

  lemma JudgedKeeps(c: Config, s: State, account: Key, ip: Key)
    requires Inv(c, s) && !IsIp(account) && IsIp(ip)
    ensures Inv(c, Judged(s, account, ip))
  {
    var s' := Judged(s, account, ip);
    JudgedKeys(c, s, account, ip);
    Smaller(s'.table.Keys, s.table.Keys);
    forall k ensures EntryOk(c, s', k) {
      JudgedEntry(c, s, account, ip, k);
    }
    forall id | id in s.open ensures s.open[id] in s'.table {
      assert id in OpenFor(s.open, s.open[id]);
    }
  }

  lemma ChargedEntry(c: Config, s: State, account: Key, ip: Key, id: SettleId, k: Key)
    requires EntryOk(c, s, k) && !IsIp(account) && IsIp(ip) && id !in s.open && s.now > 0
    requires Lapsed(s, account) ==> Failures(s, account) == 0
    requires Failures(s, account) + |OpenFor(s.open, account)| < c.max
    requires Count(s, ip) < c.max * 4
    ensures EntryOk(c, Accept(c, s, account, ip, id), k)
  {
    OpenGrows(s.open, id, account, k);
    var s' := Accept(c, s, account, ip, id);
    if k != account && k != ip {
      assert EntryOf(s'.table, k) == EntryOf(s.table, k) && Until(s', k) == Until(s, k);
    }
  }

  lemma ChargedKeeps(c: Config, s: State, account: Key, ip: Key, id: SettleId)
    requires Inv(c, s) && !IsIp(account) && IsIp(ip) && id !in s.open
    requires Lapsed(s, account) ==> Failures(s, account) == 0
    requires Admits(s.table, account, ip, c.max)
    ensures Inv(c, Accept(c, s, account, ip, id))
  {
    var s' := Accept(c, s, account, ip, id);
    AdmitsIff(c, s, account, ip);
    assert s'.table.Keys == s.table.Keys + {account} + {ip};
    forall k ensures EntryOk(c, s', k) {
      assert EntryOk(c, s, k);
      ChargedEntry(c, s, account, ip, id, k);
    }
  }

  /** A table that holds the two keys, or has room for them. */
  lemma RoomIsUnion(t: Table, account: Key, ip: Key)
    requires account != ip
    ensures |t| + Missing(t, account) + Missing(t, ip) == |t.Keys + {account, ip}|
  {
    WithKey(t.Keys, account);
    WithKey(t.Keys + {account}, ip);
    assert t.Keys + {account, ip} == t.Keys + {account} + {ip};
  }

  lemma WithKey(keys: set<Key>, k: Key)
    ensures |keys + {k}| == |keys| + if k in keys then 0 else 1
  {
    if k in keys {
      assert keys + {k} == keys;
    }
  }

  /**
   * A login attempt is let through exactly when there is room for its two keys, its account's
   * failures in the running window and its attempts still open are fewer than the limit, and
   * its address has had fewer than four times as many accepted in its own running window.
   */
  lemma AdmittedIff(c: Config, s: State, account: Key, ip: Key, id: SettleId)
    requires Inv(c, s) && Enabled(s, Try(account, ip, id))
    ensures id in Apply(c, s, Try(account, ip, id)).open <==>
              && c.max >= 1 && |s.table.Keys + {account, ip}| <= 10_000
              && (if s.now > Until(s, account) then 0 else Failures(s, account)) + |OpenFor(s.open, account)| < c.max
              && (if s.now > Until(s, ip) then 0 else Count(s, ip)) < 4 * c.max
  {
    var s' := Judged(s, account, ip);
    JudgedKeeps(c, s, account, ip);
    JudgedKeys(c, s, account, ip);
    RoomIsUnion(s'.table, account, ip);
    AdmitsIff(c, s', account, ip);
  }

  lemma AdmitsIff(c: Config, s: State, account: Key, ip: Key)
    requires Inv(c, s) && !IsIp(account) && IsIp(ip)
    ensures Admits(s.table, account, ip, c.max) <==>
              && c.max >= 1 && |s.table| + Missing(s.table, account) + Missing(s.table, ip) <= 10_000
              && Failures(s, account) + |OpenFor(s.open, account)| < c.max && Count(s, ip) < 4 * c.max
  {
    assert EntryOk(c, s, account) && EntryOk(c, s, ip);
  }

  /** The step is what the reservation does to the table, and whether it hands out a settlement. */
  lemma TryReserves(c: Config, s: State, account: Key, ip: Key, id: SettleId)
    requires Enabled(s, Try(account, ip, id))
    ensures (var after := Apply(c, s, Try(account, ip, id));
      (after.table, id in after.open) == Reserved(s.table, account, ip, c.max, c.cooldown, s.now))
  {
  }

  lemma TryKeeps(c: Config, s: State, account: Key, ip: Key, id: SettleId)
    requires Inv(c, s) && Enabled(s, Try(account, ip, id))
    ensures Inv(c, Apply(c, s, Try(account, ip, id)))
  {
    var s' := Judged(s, account, ip);
    JudgedKeeps(c, s, account, ip);
    if Admits(s'.table, account, ip, c.max) {
      ChargedKeeps(c, s', account, ip, id);
    }
  }

  lemma SettleKeeps(c: Config, s: State, id: SettleId, failed: bool)
    requires Inv(c, s) && id in s.open
    ensures Inv(c, Apply(c, s, Finish(id, failed)))
  {
    var s' := Apply(c, s, Finish(id, failed));
    var account := s.open[id];
    assert s'.table.Keys == s.table.Keys;
    assert s'.open[id := account] == s.open;
    forall k ensures EntryOk(c, s', k) {
      assert EntryOk(c, s, k);
      OpenGrows(s'.open, id, account, k);
    }
  }

  lemma SweepKeeps(c: Config, s: State)
    requires Inv(c, s)
    ensures Inv(c, Apply(c, s, SweepAll))
  {
    var s' := Apply(c, s, SweepAll);
    assert s'.table.Keys <= s.table.Keys;
    Smaller(s'.table.Keys, s.table.Keys);
    forall k ensures EntryOk(c, s', k) && (OpenFor(s.open, k) != {} ==> k in s'.table) {
      assert EntryOk(c, s, k);
      InFlightIsOpen(c, s, k);
    }
    forall id | id in s.open ensures s.open[id] in s'.table {
      assert id in OpenFor(s.open, s.open[id]);
    }
  }

  /** The sweep forgets exactly the keys whose window has run out and that have nothing in flight. */
  lemma SweptIff(c: Config, s: State, k: Key)
    requires Inv(c, s)
    ensures k in Apply(c, s, SweepAll).table <==>
              k in s.table && (s.now <= Until(s, k) || OpenFor(s.open, k) != {})
  {
    assert EntryOk(c, s, k);
    InFlightIsOpen(c, s, k);
  }

  lemma StepKeeps(c: Config, s: State, a: Action)
    requires Inv(c, s) && Enabled(s, a)
    ensures Inv(c, Apply(c, s, a))
  {
    match a
    case Tick(later) =>
      assert forall k :: EntryOk(c, s, k) ==> EntryOk(c, s.(now := later), k);
    case Try(account, ip, id) =>
      TryKeeps(c, s, account, ip, id);
    case Finish(id, failed) =>
      if id in s.open {
        SettleKeeps(c, s, id, failed);
      }
    case SweepAll =>
      SweepKeeps(c, s);
  }

  ghost predicate Reaches(c: Config, s: State, run: seq<Action>, s': State)
    decreases |run|
  {
    if run == [] then s' == s
    else Enabled(s, run[0]) && Reaches(c, Apply(c, s, run[0]), run[1..], s')
  }

  lemma {:induction false} RunKeeps(c: Config, s: State, run: seq<Action>, s': State)
    requires Inv(c, s) && Reaches(c, s, run, s')
    ensures Inv(c, s')
    decreases |run|
  {
    if run != [] {
      StepKeeps(c, s, run[0]);
      RunKeeps(c, Apply(c, s, run[0]), run[1..], s');
    }
  }

  /**
   * Over every run: an account's count is the failures since it was last cleared, and with its
   * unsettled reservations stays within the limit; an address's count is the attempts accepted
   * since then, at most four times the limit; nothing in flight is ever dropped; the table
   * stays bounded.
   */
  lemma EveryRunIsThrottled(c: Config, s: State, run: seq<Action>, s': State, k: Key)
    requires Inv(c, s) && Reaches(c, s, run, s')
    ensures |s'.table| <= 10_000
    ensures EntryOf(s'.table, k).inFlight == |OpenFor(s'.open, k)|
    ensures !IsIp(k) ==> EntryOf(s'.table, k).attempts == Failures(s', k)
    ensures k in s'.table && !IsIp(k) ==> Failures(s', k) + |OpenFor(s'.open, k)| <= c.max
    ensures IsIp(k) ==> EntryOf(s'.table, k).attempts == Count(s', k) && (k in s'.table ==> Count(s', k) <= 4 * c.max)
    ensures k in s'.table ==> s'.table[k].expiresAt == Until(s', k)
    ensures OpenFor(s'.open, k) != {} ==> k in s'.table
  {
    RunKeeps(c, s, run, s');
    assert EntryOk(c, s', k);
    InFlightIsOpen(c, s', k);
  }

  /** The runs start empty. */
  lemma StartIsSound(c: Config, s: State)
    requires s.table == map[] && s.open == map[] && s.accepted == map[] && s.failed == map[] && s.until == map[]
    requires c.max >= 0 && s.now > 0
    ensures Inv(c, s)
  {
    forall k ensures EntryOk(c, s, k) {
      assert OpenFor(s.open, k) == {};
    }
  }

  /** A count is forgotten only after its window has run out, so it cannot be reset early. */
  lemma WindowsHold(c: Config, s: State, a: Action, k: Key)
    requires Inv(c, s) && Enabled(s, a) && s.now <= Until(s, k)
    ensures k in Apply(c, s, a).table
    ensures Count(Apply(c, s, a), k) >= Count(s, k) && Failures(Apply(c, s, a), k) >= Failures(s, k)
  {
    assert EntryOk(c, s, k);
    if a.Try? {
      JudgedEntry(c, s, a.account, a.ip, k);
    }
  }
}

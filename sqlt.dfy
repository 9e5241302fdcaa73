/** The DB wrapper: a master and its replicas opened from one source string,
    the bookkeeping of which of them are counted active, and the state
    machine of the heartbeat flag. Driver handles are not modelled: handle
    i is known by its index, and what it answers comes from an oracle. */
module Sqlt {
  import opened Health
  import opened Routing
  import opened Text

  /** The group name a DB gets when none is given. */
  const DefaultGroupName := "sqlt_open"

  /** The error GetStatus returns for a DB with no connection at all. */
  const ErrNoConnectionDetected := "No connection detected"

  /** The error openContextConnection returns when the source string
      splits into no source at all, which strings.Split never does. */
  const ErrNoSources := "No sources found"

  /** The status name of connection i: "master" for the first source,
      "slave-<i>" for the others. */
  function Name(i: nat): (name: string)
    ensures (name == "master") == (i == 0)
  {
    if i == 0 then "master" else "slave-" + Itoa(i)
  }

  /** Distinct connections get distinct names. */
  lemma NameInjective(i: nat, j: nat)
    requires Name(i) == Name(j)
    ensures i == j
  {
    if i != 0 && j != 0 {
      assert Itoa(i) == Name(i)[6..];
      assert Itoa(j) == Name(j)[6..];
      AtoiItoa(i);
      AtoiItoa(j);
    }
  }

  /** The group name a DB ends up with: the given one, or the default when
      none is given; never empty. */
  function GroupName(name: string): (group: string)
    ensures group != []
    ensures name != [] ==> group == name
    ensures name == [] ==> group == DefaultGroupName
  {
    if name == "" then DefaultGroupName else name
  }

  /** Whether StopBeat found a heartbeat to stop. Sending on the stop
      channel when no goroutine receives blocks the caller forever. */
  datatype StopOutcome = NotBeating | Stopped | BlocksForever

  /** What the context variant of Ping does, as written, when given a
      bounded number of nested calls to make: a call either returns an
      error and a new state, or is still recursing when the bound runs
      out. */
  datatype PingOutcome = Returned(err: Option<string>, pool: Pool) | StillRecursing

  /** PingContext as written, with `depth` nested calls allowed: without a
      heartbeat it calls itself with the same arguments and nothing else. */
  function PingContextAsWritten(heartBeat: bool, p: Pool, ping: Oracle, depth: nat): PingOutcome
    requires InRange(p)
    decreases depth
  {
    if !heartBeat then
      if depth == 0 then StillRecursing else PingContextAsWritten(heartBeat, p, ping, depth - 1)
    else
      var r := HealthPass(p, ping);
      Returned(r.err, r.pool)
  }

  /** Without a heartbeat, PingContext as written never returns, however
      deep the stack may grow; with one it returns what Ping returns. */
  lemma {:induction false} PingContextWithoutHeartbeatNeverReturns(p: Pool, ping: Oracle, depth: nat)
    requires InRange(p)
    ensures PingContextAsWritten(false, p, ping, depth) == StillRecursing
    ensures PingContextAsWritten(true, p, ping, depth) == Returned(HealthPass(p, ping).err, HealthPass(p, ping).pool)
    decreases depth
  {
    if depth > 0 {
      PingContextWithoutHeartbeatNeverReturns(p, ping, depth - 1);
    }
  }

  /** slave() on values: the handle a read goes to and the counter after
      it. With at most one connection counted active the read goes to
      handle 0 and the counter stays; otherwise the counter advances and
      picks a position 1 .. length-1 of the active list. */
  function SlavePick(p: Pool, count: nat): (pick: (nat, nat))
    requires count < Wrap
    requires p.length <= |p.active|
    ensures pick.1 < Wrap
    ensures p.length <= 1 ==> pick == (0, count)
    ensures p.length > 1 ==> pick.1 == NextCount(count) && pick.0 in p.active[1..p.length]
  {
    if p.length <= 1 then (0, count)
    else
      var c := NextCount(count);
      (p.active[SlavePosition(c, p.length)], c)
  }

  /** With two or more connections counted active, reads never go to the
      first entry of the active list (handle 0 until a pass demotes it). */
  lemma SlaveSkipsFirstActive(p: Pool, n: nat, count: nat)
    requires Consistent(p, n) && count < Wrap && p.length > 1
    ensures SlavePick(p, count).0 != p.active[0]
    ensures SlavePick(p, count).0 in p.active
  {
    PartitionFacts(p.active, p.inactive, n);
    NoDupParts(p.active, p.inactive);
    var pos := SlavePosition(NextCount(count), p.length);
    var a := p.active;
    assert a == [a[0]] + a[1..];
    NoDupCons(a[0], a[1..]);
    assert a[pos] == a[1..][pos - 1];
  }

  /** With a single connection counted active, reads still go to handle 0,
      even when a pass has moved handle 0 to the inactive list. */
  lemma SlaveReadsDemotedMaster(st: seq<DbStatus>, count: nat)
    requires |st| == 2 && count < Wrap
    ensures var p := Pool([1], [0], 1, st);
      Consistent(p, 2) && SlavePick(p, count).0 == 0 && 0 in p.inactive
  {
    var p := Pool([1], [0], 1, st);
    assert Iota(2) == [0, 1];
    assert p.active + p.inactive == [1, 0];
    assert multiset([1, 0]) == multiset([0, 1]);
  }

  /** The read made with the counter at c + j goes to the active entry at
      position j of Turns(c + 1, length): consecutive reads follow Turns. */
  lemma ReadsFollowTurns(p: Pool, c: nat, j: nat)
    requires 2 <= p.length <= |p.active| && j < p.length - 1 && c + j + 1 < Wrap
    ensures SlavePick(p, c + j).0 == p.active[Turns(c + 1, p.length)[j]]
  {
    assert NextCount(c + j) == c + 1 + j;
    assert Turns(c + 1, p.length)[j] == SlavePosition(c + 1 + j, p.length);
  }

  /** The read that reaches the active entry at position k, among the
      length-1 reads made from counter value c on. */
  lemma ReadReaching(p: Pool, c: nat, k: nat) returns (d: nat)
    requires 2 <= p.length <= |p.active| && c + p.length - 1 < Wrap && 1 <= k < p.length
    ensures c <= d < c + p.length - 1 && SlavePick(p, d).0 == p.active[k]
  {
    var t := Turns(c + 1, p.length);
    RoundRobin(c + 1, p.length);
    assert k in t;
    var j :| 0 <= j < |t| && t[j] == k;
    ReadsFollowTurns(p, c, j);
    d := c + j;
  }

  /** One of the length-1 reads made from counter value c on goes to the
      active entry at position k. */
  ghost predicate SomeReadReaches(p: Pool, c: nat, k: nat)
    requires p.length <= |p.active| && c + p.length - 1 < Wrap && k < |p.active|
  {
    exists d :: c <= d < c + p.length - 1 && SlavePick(p, d).0 == p.active[k]
  }

  /** Round robin over reads: while the counter does not wrap around, the
      length-1 reads made from counter value c on reach every active entry
      at positions 1 .. length-1. */
  lemma ReadsReachEveryReplica(p: Pool, c: nat)
    requires 2 <= p.length <= |p.active| && c + p.length - 1 < Wrap
    ensures forall k :: 1 <= k < p.length ==> SomeReadReaches(p, c, k)
  {
    forall k | 1 <= k < p.length
      ensures SomeReadReaches(p, c, k)
    {
      var d := ReadReaching(p, c, k);
    }
  }

  /** ... and, when the active list holds no duplicate, no two of those
      reads reach the same connection. */
  lemma ReadsNeverRepeat(p: Pool, c: nat, d1: nat, d2: nat)
    requires 2 <= p.length <= |p.active| && NoDup(p.active)
    requires c <= d1 < d2 < c + p.length - 1 && c + p.length - 1 < Wrap
    ensures SlavePick(p, d1).0 != SlavePick(p, d2).0
  {
    var t := Turns(c + 1, p.length);
    RoundRobin(c + 1, p.length);
    ReadsFollowTurns(p, c, d1 - c);
    ReadsFollowTurns(p, c, d2 - c);
    var pos1, pos2 := t[d1 - c], t[d2 - c];
    assert pos1 != pos2;
    if pos1 < pos2 {
      NoDupAt(p.active, pos1, pos2);
    } else {
      NoDupAt(p.active, pos2, pos1);
    }
  }

  /** The DB handle: `stats` has one status per source, fixed at creation;
      `activedb`, `inactivedb` and `length` are the replica-set bookkeeping
      a heartbeat pass updates; `count` is the read counter; `heartBeat` is
      the flag DoHeartBeat sets and `beating` says whether a heartbeat
      goroutine is running. */
  class DB {
    var activedb: seq<nat>
    var inactivedb: seq<nat>
    var driverName: string
    var groupName: string
    var length: int
    var count: nat
    const stats: array<DbStatus>
    var heartBeat: bool
    var beating: bool

    /** The bookkeeping, as the value a heartbeat pass works on. */
    ghost function Model(): Pool
      reads this, stats
    {
      Pool(activedb, inactivedb, length, stats[..])
    }

    ghost predicate Valid()
      reads this, stats
    {
      Consistent(Model(), stats.Length) && count < Wrap
    }

    /** A DB with `n` zero statuses and all other fields at their zero
        value, as the struct literal of the constructors makes it. */
    constructor (n: nat)
      ensures stats.Length == n && fresh(stats)
      ensures forall i :: 0 <= i < n ==> stats[i] == ZeroStatus
      ensures activedb == [] && inactivedb == [] && length == 0 && count == 0
      ensures driverName == "" && groupName == "" && !heartBeat && !beating
    {
      activedb, inactivedb := [], [];
      driverName, groupName := "", "";
      length, count := 0, 0;
      heartBeat, beating := false, false;
      stats := new DbStatus[n](_ => ZeroStatus);
    }

    /** Ping without a heartbeat: pings every handle in index order and
        returns the first error; nothing is recorded. */
    method PingAll(ping: Oracle) returns (err: Option<string>)
      ensures err == FirstError(InOrder(ping, stats.Length))
    {
      ghost var os := InOrder(ping, stats.Length);
      var j := 0;
      while j < stats.Length
        invariant 0 <= j <= stats.Length
        invariant FirstError(os[j..]) == FirstError(os)
      {
        assert os[j..][1..] == os[j + 1..];
        match ping(j, j)
        case Down(msg) =>
          return Some(msg);
        case Up(_) =>
          j := j + 1;
      }
      assert os[j..] == [];
      return None;
    }

    /** A failed ping of the connection at position `i` of the active
        list, with more than one counted active: it is marked failing,
        removed in place, appended to the inactive list and counted out. */
    method DropActive(i: nat, msg: string)
      requires InRange(Model()) && i < |activedb|
      modifies this`activedb, this`inactivedb, this`length, stats
      ensures Model() == Fail(Deactivate(old(Model()), i), old(activedb[i]), msg)
    {
      var v := activedb[i];
      var name := stats[v].name;
      stats[v] := stats[v].(connected := false);
      activedb := activedb[..i] + activedb[i + 1..];
      inactivedb := inactivedb + [v];
      stats[v] := stats[v].(error := Some(name + ": " + msg));
      length := length - 1;
    }

    /** A successful ping of the connection at position `i` of the
        inactive list: it is marked healthy, removed in place, appended to
        the active list and counted in. */
    method RaiseInactive(i: nat, at: Stamp)
      requires InRange(Model()) && i < |inactivedb|
      modifies this`activedb, this`inactivedb, this`length, stats
      ensures Model() == Heal(Activate(old(Model()), i), old(inactivedb[i]), at)
    {
      var v := inactivedb[i];
      stats[v] := stats[v].(connected := true);
      inactivedb := inactivedb[..i] + inactivedb[i + 1..];
      activedb := activedb + [v];
      stats[v] := stats[v].(lastActive := at, error := None);
      length := length + 1;
    }

    /** The walk over the active list in a heartbeat pass: a connection
        that answers is marked healthy; one that fails is marked failing,
        removed in place (the index steps back) and appended to the
        inactive list, unless it is the only one counted active, when the
        error is returned at once. Ends in the state Demote describes;
        `calls` counts the pings made. */
    method DemoteActive(ping: Oracle) returns (err: Option<string>, halted: bool, calls: nat, ghost trace: seq<nat>)
      requires InRange(Model())
      modifies this`activedb, this`inactivedb, this`length, stats
      ensures var r := Demote(Probe(old(Model()), [], None, false), 0, ping);
        Model() == r.pool && err == r.err && halted == r.halted && trace == r.trace && calls == |trace|
    {
      ghost var init := Model();
      trace := [];
      calls := 0;
      err := None;
      var i := 0;
      while i < |activedb|
        invariant 0 <= i <= |activedb|
        invariant InRange(Model()) && calls == |trace|
        invariant Demote(Probe(Model(), trace, err, false), i, ping) == Demote(Probe(init, [], None, false), 0, ping)
        decreases |activedb| - i
      {
        ghost var s := Probe(Model(), trace, err, false);
        var v := activedb[i];
        var o := ping(calls, v);
        calls := calls + 1;
        match o {
          case Down(msg) =>
            if length <= 1 {
              trace := trace + [v];
              return Some(msg), true, calls, trace;
            }
            DropActive(i, msg);
            i := i - 1;
            err := Some(msg);
            trace := trace + [v];
          case Up(at) =>
            stats[v] := stats[v].(connected := true, lastActive := at, error := None);
            err := None;
            trace := trace + [v];
            assert Model() == Answered(s, v, at).pool;
        }
        i := i + 1;
      }
      halted := false;
    }

    /** The walk over the inactive list in a heartbeat pass: a connection
        that still fails is marked failing; one that answers is marked
        healthy, removed in place (the index steps back) and appended to
        the active list. Ends in the state Promote describes. */
    method PromoteInactive(ping: Oracle, calls0: nat, err0: Option<string>, ghost trace0: seq<nat>)
      returns (err: Option<string>)
      requires InRange(Model()) && calls0 == |trace0|
      modifies this`activedb, this`inactivedb, this`length, stats
      ensures var r := Promote(Probe(old(Model()), trace0, err0, false), 0, ping);
        Model() == r.pool && err == r.err
    {
      ghost var init := Model();
      ghost var trace := trace0;
      var calls := calls0;
      err := err0;
      var i := 0;
      while i < |inactivedb|
        invariant 0 <= i <= |inactivedb|
        invariant InRange(Model()) && calls == |trace|
        invariant Promote(Probe(Model(), trace, err, false), i, ping) == Promote(Probe(init, trace0, err0, false), 0, ping)
        decreases |inactivedb| - i
      {
        ghost var s := Probe(Model(), trace, err, false);
        var v := inactivedb[i];
        var o := ping(calls, v);
        calls := calls + 1;
        match o {
          case Down(msg) =>
            var name := stats[v].name;
            stats[v] := stats[v].(connected := false, error := Some(name + ": " + msg));
            err := Some(msg);
            trace := trace + [v];
            assert Model() == Refused(s, v, msg).pool;
          case Up(at) =>
            RaiseInactive(i, at);
            i := i - 1;
            err := None;
            trace := trace + [v];
        }
        i := i + 1;
      }
    }

    /** Ping with a heartbeat: the walk over the active list, then, unless
        it returned early, the walk over the inactive list. Ends in exactly
        the state HealthPass describes, keeps the bookkeeping consistent,
        and returns the outcome of the last ping. */
    method HeartbeatPass(ping: Oracle) returns (err: Option<string>)
      requires Valid()
      modifies this`activedb, this`inactivedb, this`length, stats
      ensures Valid()
      ensures Model() == HealthPass(old(Model()), ping).pool
      ensures err == HealthPass(old(Model()), ping).err
    {
      PassKeepsConsistent(Model(), stats.Length, ping);
      var halted, calls;
      ghost var trace;
      err, halted, calls, trace := DemoteActive(ping);
      if halted {
        return;
      }
      err := PromoteInactive(ping, calls, err, trace);
    }

    /** Ping: without a heartbeat, pings every handle and returns the first
        error, changing nothing; with one, runs a heartbeat pass. */
    method Ping(ping: Oracle) returns (err: Option<string>)
      requires Valid()
      modifies this`activedb, this`inactivedb, this`length, stats
      ensures Valid()
      ensures !heartBeat ==> Model() == old(Model()) && err == FirstError(InOrder(ping, stats.Length))
      ensures heartBeat ==> Model() == HealthPass(old(Model()), ping).pool && err == HealthPass(old(Model()), ping).err
    {
      if !heartBeat {
        err := PingAll(ping);
        return;
      }
      err := HeartbeatPass(ping);
    }

    /** The context variant of Ping as evidently intended: the same two
        branches as Ping, the non-heartbeat one pinging every handle. */
    method PingContext(ping: Oracle) returns (err: Option<string>)
      requires Valid()
      modifies this`activedb, this`inactivedb, this`length, stats
      ensures Valid()
      ensures !heartBeat ==> Model() == old(Model()) && err == FirstError(InOrder(ping, stats.Length))
      ensures heartBeat ==> Model() == HealthPass(old(Model()), ping).pool && err == HealthPass(old(Model()), ping).err
    {
      err := Ping(ping);
    }

    /** slave(): the handle a read goes to. */
    method Slave() returns (handle: nat)
      requires Valid() && stats.Length >= 1
      modifies this`count
      ensures Valid()
      ensures (handle, count) == SlavePick(old(Model()), old(count))
      ensures handle < stats.Length
    {
      if length <= 1 {
        return 0;
      }
      count := NextCount(count);
      var slave := SlavePosition(count, length);
      handle := activedb[slave];
      PartitionFacts(activedb, inactivedb, stats.Length);
    }

    /** The handle a call is sent to: calls that read pick a replica with
        slave(), all others use handle 0 and leave the counter alone. */
    method Route(c: Call) returns (handle: nat)
      requires Valid() && stats.Length >= 1
      modifies this`count
      ensures Valid()
      ensures UsesSlave(c) ==> (handle, count) == SlavePick(old(Model()), old(count))
      ensures !UsesSlave(c) ==> handle == 0 && count == old(count)
    {
      if UsesSlave(c) {
        handle := Slave();
      } else {
        handle := 0;
      }
    }

    /** GetStatus: the statuses, with an error exactly when there is no
        connection at all; without a heartbeat it pings first, which
        changes nothing. */
    method GetStatus(ping: Oracle) returns (statuses: seq<DbStatus>, err: Option<string>)
      ensures statuses == stats[..]
      ensures err == if stats.Length == 0 then Some(ErrNoConnectionDetected) else None
    {
      if stats.Length == 0 {
        return stats[..], Some(ErrNoConnectionDetected);
      }
      if !heartBeat {
        var _ := PingAll(ping);
      }
      return stats[..], None;
    }

    /** DoHeartBeat: starts a heartbeat goroutine unless the flag is
        already set, then sets the flag. */
    method DoHeartBeat() returns (spawned: bool)
      modifies this`heartBeat, this`beating
      ensures spawned == !old(heartBeat)
      ensures heartBeat && beating == (old(beating) || spawned)
    {
      spawned := !heartBeat;
      if spawned {
        beating := true;
      }
      heartBeat := true;
    }

    /** StopBeat as written: with the flag set it sends on the stop
        channel, which ends the goroutine if one runs and blocks forever if
        none does; the flag is never cleared. */
    method StopBeatAsWritten() returns (r: StopOutcome)
      modifies this`beating
      ensures heartBeat == old(heartBeat)
      ensures !heartBeat ==> r == NotBeating && beating == old(beating)
      ensures heartBeat && old(beating) ==> r == Stopped && !beating
      ensures heartBeat && !old(beating) ==> r == BlocksForever && !beating
    {
      if !heartBeat {
        return NotBeating;
      }
      if beating {
        beating := false;
        return Stopped;
      }
      return BlocksForever;
    }

    /** StopBeat as evidently intended: stops the goroutine and clears the
        flag, so the flag keeps saying whether a goroutine runs. */
    method StopBeat() returns (r: StopOutcome)
      requires heartBeat == beating
      modifies this`heartBeat, this`beating
      ensures !heartBeat && !beating
      ensures r == if old(heartBeat) then Stopped else NotBeating
    {
      if !heartBeat {
        return NotBeating;
      }
      beating := false;
      heartBeat := false;
      return Stopped;
    }
  }

  /** As written, a second StopBeat after a DoHeartBeat blocks forever, and
      a DoHeartBeat after a StopBeat starts no goroutine although none runs. */
  method StopTwiceAsWritten() returns (first: StopOutcome, second: StopOutcome, restarted: bool, running: bool)
    ensures first == Stopped && second == BlocksForever
    ensures !restarted && !running
  {
    var db := new DB(1);
    var _ := db.DoHeartBeat();
    first := db.StopBeatAsWritten();
    restarted := db.DoHeartBeat();
    running := db.beating;
    second := db.StopBeatAsWritten();
  }

  /** With the flag cleared, stopping twice is harmless and a heartbeat can
      be started again after a stop. */
  method StopTwice() returns (first: StopOutcome, second: StopOutcome, restarted: bool, running: bool)
    ensures first == Stopped && second == NotBeating
    ensures restarted && running
  {
    var db := new DB(1);
    var _ := db.DoHeartBeat();
    first := db.StopBeat();
    second := db.StopBeat();
    restarted := db.DoHeartBeat();
    running := db.beating;
  }

  /** The driver and group names InitMocking gives its DB. */
  const MockDriverName := "postgres"
  const MockGroupName := "sqlt-open"

  /** The loop of InitMocking over a new DB: every connection is named,
      connected, stamped with the clock's read-out and counted active, in
      index order. */
  method MockEach(db: DB, clock: nat -> Stamp)
    requires db.activedb == [] && db.inactivedb == []
    modifies db`activedb, db.stats
    ensures db.activedb == Iota(db.stats.Length)
    ensures forall i :: 0 <= i < db.stats.Length ==> db.stats[i] == DbStatus(Name(i), true, clock(i), None)
  {
    var i := 0;
    while i < db.stats.Length
      invariant 0 <= i <= db.stats.Length
      invariant db.activedb == Iota(i)
      invariant forall k :: 0 <= k < i ==> db.stats[k] == DbStatus(Name(k), true, clock(k), None)
    {
      var name := "slave-" + Itoa(i);
      if i == 0 {
        name := "master";
      }
      assert name == Name(i);
      db.stats[i] := DbStatus(name, true, clock(i), None);
      db.activedb := db.activedb + [i];
      i := i + 1;
    }
  }

  /** InitMocking: slaveAmount+1 connections over one shared mock, all
      counted active in index order, each named and connected, with the
      read-out of the clock as last-active time. */
  method InitMocking(slaveAmount: int, clock: nat -> Stamp) returns (db: DB)
    requires slaveAmount >= -1
    ensures fresh(db) && fresh(db.stats) && db.Valid()
    ensures db.stats.Length == slaveAmount + 1
    ensures forall i :: 0 <= i < db.stats.Length ==> db.stats[i] == DbStatus(Name(i), true, clock(i), None)
    ensures db.activedb == Iota(slaveAmount + 1) && db.inactivedb == []
    ensures db.length == slaveAmount + 1 && db.count == 0
    ensures db.driverName == MockDriverName && db.groupName == MockGroupName
    ensures !db.heartBeat && !db.beating
  {
    var n := slaveAmount + 1;
    db := new DB(n);
    MockEach(db, clock);
    db.driverName := MockDriverName;
    db.groupName := MockGroupName;
    db.length := n;
    AllActiveConsistent(db.Model(), n);
  }

  /** What opening each source returns, in order. */
  function Opened(open: (nat, string) -> Outcome, conns: seq<string>): seq<Outcome>
  {
    seq(|conns|, i requires 0 <= i < |conns| => open(i, conns[i]))
  }

  /** The first `i` statuses are those of sources that opened: named,
      connected, seen at the time the open returned, no error. */
  ghost predicate OpenedAs(st: seq<DbStatus>, os: seq<Outcome>, i: nat)
    requires i <= |st| && i <= |os|
  {
    forall k :: 0 <= k < i ==> os[k].Up? && st[k] == DbStatus(Name(k), true, os[k].at, None)
  }

  /** The loop of openContextConnection over the sources of a new DB:
      opens each in order and stops at the first failure, recording the
      index as inactive; otherwise names each connection, marks it
      connected and counts it active. `opens` is the number of sources it
      tried to open: after a failure, the later ones are never tried. */
  method OpenEach(d: DB, conns: seq<string>, open: (nat, string) -> Outcome)
    returns (opens: nat, err: Option<string>)
    requires d.stats.Length == |conns| && d.activedb == [] && d.inactivedb == []
    modifies d`activedb, d`inactivedb, d.stats
    ensures opens <= |conns|
    ensures err == FirstError(Opened(open, conns))
    ensures err.Some? ==>
      && 1 <= opens && Opened(open, conns)[opens - 1] == Down(err.value)
      && (forall k :: 0 <= k < opens - 1 ==> Opened(open, conns)[k].Up?)
      && d.inactivedb == [opens - 1] && d.activedb == Iota(opens - 1)
    ensures err.None? ==>
      && opens == |conns| && d.activedb == Iota(|conns|) && d.inactivedb == []
      && OpenedAs(d.stats[..], Opened(open, conns), |conns|)
  {
    ghost var os := Opened(open, conns);
    var i := 0;
    while i < |conns|
      invariant 0 <= i <= |conns|
      invariant FirstError(os[i..]) == FirstError(os)
      invariant d.activedb == Iota(i) && d.inactivedb == []
      invariant OpenedAs(d.stats[..], os, i)
    {
      assert os[i..][1..] == os[i + 1..];
      match open(i, conns[i]) {
        case Down(msg) =>
          d.inactivedb := d.inactivedb + [i];
          return i + 1, Some(msg);
        case Up(at) =>
          var constatus := true;
          var name := "";
          if i == 0 {
            name := "master";
          } else {
            name := "slave-" + Itoa(i);
          }
          assert name == Name(i);
          ghost var before := d.stats[..];
          d.stats[i] := DbStatus(name, constatus, at, None);
          assert d.stats[..] == before[i := DbStatus(Name(i), true, at, None)];
          d.activedb := d.activedb + [i];
      }
      i := i + 1;
    }
    assert os[i..] == [];
    return i, None;
  }

  /** The DB openContextConnection builds from the sources `conns` when
      every one of them opens: one status per source as OpenedAs says,
      all of them counted active in index order, the given driver and
      group names, no heartbeat and the read counter at zero. */
  ghost predicate Assembled(d: DB, conns: seq<string>, open: (nat, string) -> Outcome, driverName: string, group: string)
    reads d, d.stats
  {
    && d.stats.Length == |conns|
    && OpenedAs(d.stats[..], Opened(open, conns), |conns|)
    && d.activedb == Iota(|conns|) && d.inactivedb == [] && d.length == |conns|
    && d.driverName == driverName && d.groupName == group
    && !d.heartBeat && d.count == 0
  }

  /** openContextConnection up to the ping: a new DB with one status per
      source, the given driver name and every source counted, the loop
      over the sources and, when none failed, the group name. On a
      failure the DB is dropped. */
  method Assemble(driverName: string, conns: seq<string>, groupName: string, open: (nat, string) -> Outcome)
    returns (d: DB?, err: Option<string>)
    ensures err == FirstError(Opened(open, conns))
    ensures err.Some? ==> d == null
    ensures err.None? ==>
      && d != null && fresh(d) && fresh(d.stats) && d.Valid()
      && Assembled(d, conns, open, driverName, GroupName(groupName))
  {
    var connsLength := |conns|;
    d := new DB(connsLength);
    d.length := connsLength;
    d.driverName := driverName;
    var opens;
    opens, err := OpenEach(d, conns, open);
    if err.Some? {
      return null, err;
    }
    d.groupName := GroupName(groupName);
    assert Assembled(d, conns, open, driverName, GroupName(groupName));
    AllActiveConsistent(d.Model(), connsLength);
  }

  /** openContextConnection, with the context variant of Ping as evidently
      intended: splits the sources on ';', opens each in order and stops at
      the first failure; otherwise names the connections, counts them all
      active, sets the group name and returns the DB with the outcome of
      a ping. `open(i, source)` is the driver's answer to opening source i;
      a success carries the time read right after it. */
  method OpenContextConnection(driverName: string, sources: string, groupName: string,
                               open: (nat, string) -> Outcome, ping: Oracle)
    returns (db: DB?, err: Option<string>)
    ensures var conns := Split(sources, ';');
      FirstError(Opened(open, conns)).Some? ==> db == null && err == FirstError(Opened(open, conns))
    ensures var conns := Split(sources, ';');
      FirstError(Opened(open, conns)).None? ==>
        && db != null && fresh(db) && fresh(db.stats) && db.Valid()
        && Assembled(db, conns, open, driverName, GroupName(groupName))
        && err == FirstError(InOrder(ping, |conns|))
  {
    var conns := Split(sources, ';');
    if |conns| < 1 {
      return null, Some(ErrNoSources);
    }
    var d;
    d, err := Assemble(driverName, conns, groupName, open);
    if err.Some? {
      return null, err;
    }
    err := d.PingContext(ping);
    db := d;
  }
}

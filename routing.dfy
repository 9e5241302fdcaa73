/** How a DB chooses the handle for a call: reads go to a replica picked
    round robin over the active list by a 64-bit counter, writes and the
    explicitly "Master" calls go to handle 0. */
module Routing {

  /** The counter is a uint64: it wraps around at 2^64. */
  const Wrap: nat := 0x1_0000_0000_0000_0000

  /** atomic.AddUint64(&count, 1): the counter after one more read. */
  function NextCount(count: nat): (c: nat)
    requires count < Wrap
    ensures c < Wrap
    ensures c == 0 <==> count == Wrap - 1
  {
    (count + 1) % Wrap
  }

  /** The position in the active list a read goes to when `length` (at
      least two) connections are counted active and the counter, already
      advanced, reads `count`: never position 0, always below `length`. */
  function SlavePosition(count: nat, length: int): (pos: nat)
    requires length >= 2
    ensures 1 <= pos < length
  {
    1 + count % (length - 1)
  }

  lemma {:induction false} MulAtLeast(k: int, m: int)
    requires k >= 1 && m > 0
    ensures k * m >= m
    decreases k
  {
    if k > 1 {
      MulAtLeast(k - 1, m);
      assert k * m == (k - 1) * m + m;
    }
  }

  /** Euclidean division has one answer: a quotient and a remainder in
      range that rebuild `a` are a / m and a % m. */
  lemma ModUnique(a: int, m: int, q: int, r: int)
    requires m > 0 && 0 <= r < m && a == q * m + r
    ensures a % m == r && a / m == q
  {
    var q', r' := a / m, a % m;
    assert a == q' * m + r';
    assert (q - q') * m == r' - r by {
      assert q * m - q' * m == (q - q') * m;
    }
    if q > q' {
      MulAtLeast(q - q', m);
    } else if q < q' {
      MulAtLeast(q' - q, m);
    }
  }

  /** Moving the counter by `j` moves the position by `j`, cyclically over
      the replica positions 1 .. length-1. */
  lemma SlaveShift(c: nat, j: nat, length: int)
    requires length >= 2
    ensures SlavePosition(c + j, length) == 1 + (c % (length - 1) + j) % (length - 1)
  {
    var m := length - 1;
    var t := c % m + j;
    assert c == (c / m) * m + c % m;
    assert t == (t / m) * m + t % m;
    assert c + j == (c / m + t / m) * m + t % m;
    ModUnique(c + j, m, c / m + t / m, t % m);
  }

  /** The positions the next `length - 1` reads go to, starting from the
      counter value `c`, when no wrap-around happens in between. */
  function Turns(c: nat, length: int): seq<int>
    requires length >= 2
  {
    seq(length - 1, j requires 0 <= j => SlavePosition(c + j, length))
  }

  /** Round robin: while the counter does not wrap around, any length-1
      consecutive reads go to length-1 different positions, so each replica
      position 1 .. length-1 gets exactly one of them. */
  lemma RoundRobin(c: nat, length: int)
    requires length >= 2
    ensures var t := Turns(c, length);
      forall j1, j2 :: 0 <= j1 < j2 < |t| ==> t[j1] != t[j2]
    ensures forall p :: 1 <= p < length ==> p in Turns(c, length)
  {
    var t := Turns(c, length);
    var m := length - 1;
    var r := c % m;
    assert |t| == m;
    forall j1, j2 | 0 <= j1 < j2 < |t|
      ensures t[j1] != t[j2]
    {
      assert t[j1] == SlavePosition(c + j1, length) && t[j2] == SlavePosition(c + j2, length);
      SlaveShift(c, j1, length);
      SlaveShift(c, j2, length);
      var q1, q2 := (r + j1) / m, (r + j2) / m;
      if (r + j1) % m == (r + j2) % m {
        assert r + j1 == q1 * m + (r + j1) % m;
        assert r + j2 == q2 * m + (r + j2) % m;
        assert (q2 - q1) * m == j2 - j1 by {
          assert q2 * m - q1 * m == (q2 - q1) * m;
        }
        if q2 - q1 >= 1 {
          MulAtLeast(q2 - q1, m);
        } else if q2 - q1 <= -1 {
          MulAtLeast(q1 - q2, m);
        }
      }
    }
    forall p | 1 <= p < length
      ensures p in t
    {
      var j := if p - 1 >= r then p - 1 - r else p - 1 - r + m;
      SlaveShift(c, j, length);
      if p - 1 >= r {
        ModUnique(r + j, m, 0, p - 1);
      } else {
        ModUnique(r + j, m, 1, p - 1);
      }
      assert t[j] == SlavePosition(c + j, length) == p;
    }
  }

  /** Round robin fails where the counter wraps around: with four
      connections counted active, the read that sets the counter to 2^64-1
      and the next one, which sets it to 0, both go to position 1. */
  lemma SlaveRepeatsAtWrap()
    ensures NextCount(Wrap - 2) == Wrap - 1 && NextCount(Wrap - 1) == 0
    ensures SlavePosition(NextCount(Wrap - 2), 4) == SlavePosition(NextCount(Wrap - 1), 4) == 1
  {
    ModUnique(Wrap - 1, 3, 0x5555_5555_5555_5555, 0);
  }

  /** The calls of a DB, a Stmt and a Stmtx that send a query to one
      handle. Each context-taking variant (QueryContext, ExecContext, ...)
      routes like the call it wraps and is represented by it. */
  datatype Call =
    // on a DB
    | DbSlave | DbQuery | DbQueryRow | DbQueryx | DbQueryRowx | DbSelect | DbGet | DbRebind
    | DbMaster | DbExec | DbMustExec | DbSelectMaster | DbGetMaster | DbNamedExec
    | DbBegin | DbBeginx | DbMustBegin | DbRebindMaster
    // on a Stmt
    | StmtQuery | StmtQueryRow
    | StmtExec | StmtQueryMaster | StmtQueryRowMaster
    // on a Stmtx
    | StmtxQuery | StmtxQueryRow | StmtxQueryx | StmtxQueryRowx | StmtxGet | StmtxSelect
    | StmtxExec | StmtxMustExec | StmtxQueryMaster | StmtxQueryRowMaster | StmtxQueryRowxMaster
    | StmtxGetMaster | StmtxSelectMaster

  /** The calls that pick a replica with slave(); every other call uses
      handle 0. */
  predicate UsesSlave(c: Call)
  {
    c in {DbSlave, DbQuery, DbQueryRow, DbQueryx, DbQueryRowx, DbSelect, DbGet, DbRebind,
          StmtQuery, StmtQueryRow,
          StmtxQuery, StmtxQueryRow, StmtxQueryx, StmtxQueryRowx, StmtxGet, StmtxSelect}
  }
}

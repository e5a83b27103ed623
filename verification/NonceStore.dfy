/** The swept nonce table (verifier_service/nonce_store.py) and the unbounded log it stands for. */
module Nonces {
  type NonceTable = map<string, real>

  function Sweep(seen: NonceTable, now: real, ttl: real): NonceTable {
    map nonce | nonce in seen && now - seen[nonce] <= ttl :: seen[nonce]
  }

  class NonceStore {
    const ttl: real
    var seen: NonceTable

    constructor (ttl: real)
      requires ttl > 0.0
      ensures this.ttl == ttl && seen == map[]
    {
      this.ttl := ttl;
      seen := map[];
    }

    method SweepExpired(now: real)
      modifies this
      ensures seen == Sweep(old(seen), now, ttl)
    {
      seen := map nonce | nonce in seen && now - seen[nonce] <= ttl :: seen[nonce];
    }

    method HasSeen(nonce: string, now: real) returns (known: bool)
      modifies this
      ensures seen == Sweep(old(seen), now, ttl)
      ensures known <==> nonce in old(seen) && now - old(seen)[nonce] <= ttl
    {
      SweepExpired(now);
      known := nonce in seen;
    }

    /** The clock is read twice: once for the sweep, once for the mark. */
    method MarkSeen(nonce: string, sweepAt: real, markAt: real)
      modifies this
      ensures seen == Sweep(old(seen), sweepAt, ttl)[nonce := markAt]
    {
      SweepExpired(sweepAt);
      seen := seen[nonce := markAt];
    }
  }

  // ---- Refinement of an unbounded log ----

  datatype Op = HasSeenOp(nonce: string, now: real) | MarkSeenOp(nonce: string, sweepAt: real, markAt: real) {
    function Start(): real { if HasSeenOp? then now else sweepAt }
    function End(): real { if HasSeenOp? then now else markAt }
  }

  datatype Mark = Mark(nonce: string, at: real)

  function Step(ttl: real, seen: NonceTable, op: Op): NonceTable {
    match op
    case HasSeenOp(_, now) => Sweep(seen, now, ttl)
    case MarkSeenOp(nonce, sweepAt, markAt) => Sweep(seen, sweepAt, ttl)[nonce := markAt]
  }

  /** The table before operation `i`. */
  function Before(ttl: real, ops: seq<Op>, i: nat): NonceTable
    requires i <= |ops|
  {
    if i == 0 then map[] else Step(ttl, Before(ttl, ops, i - 1), ops[i - 1])
  }

  /** Every mark made before operation `i`, never forgotten. */
  function Log(ops: seq<Op>, i: nat): seq<Mark>
    requires i <= |ops|
  {
    if i == 0 then []
    else match ops[i - 1]
      case HasSeenOp(_, _) => Log(ops, i - 1)
      case MarkSeenOp(nonce, _, at) => Log(ops, i - 1) + [Mark(nonce, at)]
  }

  predicate InWindow(log: seq<Mark>, nonce: string, now: real, ttl: real) {
    exists m :: m in log && m.nonce == nonce && now - m.at <= ttl
  }

  predicate ClockOrdered(ops: seq<Op>) {
    && (forall i :: 0 <= i < |ops| ==> ops[i].Start() <= ops[i].End())
    && (forall i, j :: 0 <= i < j < |ops| ==> ops[i].End() <= ops[j].Start())
  }

  /** What the table keeps of a log, seen from any later moment. */
  ghost predicate Represents(seen: NonceTable, log: seq<Mark>, ttl: real, since: real) {
    && (forall nonce :: nonce in seen ==> Mark(nonce, seen[nonce]) in log)
    && (forall m :: m in log && since - m.at <= ttl ==> m.nonce in seen && seen[m.nonce] >= m.at)
    && (forall m :: m in log ==> m.at <= since)
  }

  lemma SweepRepresents(seen: NonceTable, log: seq<Mark>, ttl: real, since: real, now: real)
    requires ttl > 0.0 && since <= now && Represents(seen, log, ttl, since)
    ensures Represents(Sweep(seen, now, ttl), log, ttl, now)
  {
  }

  lemma MarkRepresents(seen: NonceTable, log: seq<Mark>, ttl: real, since: real, nonce: string, at: real)
    requires ttl > 0.0 && since <= at && Represents(seen, log, ttl, since)
    ensures Represents(seen[nonce := at], log + [Mark(nonce, at)], ttl, at)
  {
    var seen', log' := seen[nonce := at], log + [Mark(nonce, at)];
    assert Mark(nonce, at) in log';
    forall n | n in seen' ensures Mark(n, seen'[n]) in log' {
      if n != nonce { assert Mark(n, seen[n]) in log; }
    }
    forall m | m in log' && at - m.at <= ttl ensures m.nonce in seen' && seen'[m.nonce] >= m.at {
      if m in log { assert m.at <= since && since - m.at <= ttl; }
    }
  }

  lemma {:induction false} TableRepresentsLog(ttl: real, ops: seq<Op>, i: nat, since: real)
    requires ttl > 0.0 && ClockOrdered(ops) && i <= |ops|
    requires forall j :: 0 <= j < i ==> ops[j].End() <= since
    ensures Represents(Before(ttl, ops, i), Log(ops, i), ttl, since)
    decreases i
  {
    if i > 0 {
      var op := ops[i - 1];
      TableRepresentsLog(ttl, ops, i - 1, op.Start());
      var seen, log := Before(ttl, ops, i - 1), Log(ops, i - 1);
      SweepRepresents(seen, log, ttl, op.Start(), op.Start());
      if op.MarkSeenOp? {
        MarkRepresents(Sweep(seen, op.sweepAt, ttl), log, ttl, op.sweepAt, op.nonce, op.markAt);
      }
      assert Represents(Before(ttl, ops, i), Log(ops, i), ttl, op.End());
    }
  }

  /** The swept table answers every question as the unbounded log would. */
  lemma AnswersAsLog(ttl: real, ops: seq<Op>, i: nat)
    requires ttl > 0.0 && ClockOrdered(ops) && i < |ops| && ops[i].HasSeenOp?
    ensures ops[i].nonce in Step(ttl, Before(ttl, ops, i), ops[i]) <==>
              InWindow(Log(ops, i), ops[i].nonce, ops[i].now, ttl)
  {
    var now := ops[i].now;
    TableRepresentsLog(ttl, ops, i, now);
    SweepRepresents(Before(ttl, ops, i), Log(ops, i), ttl, now, now);
    var swept := Sweep(Before(ttl, ops, i), now, ttl);
    if ops[i].nonce in swept {
      assert Mark(ops[i].nonce, swept[ops[i].nonce]) in Log(ops, i);
    }
  }

  /** After a sweep exactly the nonces with a mark in the window are retained. */
  lemma RetainsExactlyTheWindow(ttl: real, ops: seq<Op>, i: nat, nonce: string)
    requires ttl > 0.0 && ClockOrdered(ops) && i < |ops|
    ensures nonce in Sweep(Before(ttl, ops, i), ops[i].Start(), ttl) <==>
              InWindow(Log(ops, i), nonce, ops[i].Start(), ttl)
  {
    var now := ops[i].Start();
    TableRepresentsLog(ttl, ops, i, now);
    var swept := Sweep(Before(ttl, ops, i), now, ttl);
    if nonce in swept {
      assert Mark(nonce, swept[nonce]) in Log(ops, i);
    }
  }
}

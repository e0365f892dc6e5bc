/**
 The lease semaphore for GPU cards (e2e_workflow/e2e_workflow.js, makeSem): `acquire` takes
 its cards at once or queues, `release` returns cards and pumps the queue.

 `GpuPool` is the object; `Pool` adds to its two lists the leases handed out and the order of
 the grants, and the laws are proved over every run of requests and releases.
 */
module GpuPool {

  type Card = string

  datatype Waiter = Waiter(ticket: nat, n: nat)

  datatype Lease = Lease(ticket: nat, cards: seq<Card>)

  /** `granted` lists tickets in the order they were served; `next` is the next ticket number. */
  datatype Pool = Pool(free: seq<Card>, waiters: seq<Waiter>, leases: seq<Lease>, granted: seq<nat>, next: nat)

  function Grant(s: Pool, ticket: nat, n: nat): Pool
    requires n <= |s.free|
  {
    s.(free := s.free[n..], leases := s.leases + [Lease(ticket, s.free[..n])], granted := s.granted + [ticket])
  }

  function Pump(s: Pool): Pool
    decreases |s.waiters|
  {
    if s.waiters == [] || s.waiters[0].n > |s.free| then s
    else Pump(Grant(s.(waiters := s.waiters[1..]), s.waiters[0].ticket, s.waiters[0].n))
  }

  function Acquire(s: Pool, n: nat): Pool {
    var t := s.(next := s.next + 1);
    if n <= |s.free| then Grant(t, s.next, n)
    else t.(waiters := s.waiters + [Waiter(s.next, n)])
  }

  /** A lease is returned once, by the holder it was given to. */
  function Release(s: Pool, i: nat): Pool
    requires i < |s.leases|
  {
    Pump(s.(free := s.free + s.leases[i].cards, leases := s.leases[..i] + s.leases[i + 1..]))
  }

  class Semaphore {
    var free: seq<Card>
    var waiters: seq<Waiter>
    ghost var leases: seq<Lease>
    ghost var granted: seq<nat>
    var next: nat

    ghost function Model(): Pool reads this { Pool(free, waiters, leases, granted, next) }

    constructor (ids: seq<Card>)
      ensures Model() == Start(ids)
    {
      free, waiters, leases, granted, next := ids, [], [], [], 0;
    }

    /** Resolves at once, or leaves a waiter behind. */
    method Take(n: nat) returns (now: bool, cards: seq<Card>)
      modifies this
      ensures Model() == Acquire(old(Model()), n)
      ensures now <==> n <= |old(free)|
      ensures now ==> cards == old(free)[..n] && granted == old(granted) + [old(next)]
    {
      var ticket := next;
      next := next + 1;
      if n <= |free| {
        now, cards := true, free[..n];
        free := free[n..];
        leases := leases + [Lease(ticket, cards)];
        granted := granted + [ticket];
      } else {
        now, cards := false, [];
        waiters := waiters + [Waiter(ticket, n)];
      }
    }

    method GiveBack(got: seq<Card>, ghost i: nat)
      requires i < |leases| && leases[i].cards == got
      modifies this
      ensures Model() == Release(old(Model()), i)
    {
      free := free + got;
      leases := leases[..i] + leases[i + 1..];
      PumpQueue();
    }

    method PumpQueue()
      modifies this
      ensures Model() == Pump(old(Model()))
    {
      while waiters != [] && waiters[0].n <= |free|
        invariant Pump(Model()) == Pump(old(Model()))
        decreases |waiters|
      {
        var w := waiters[0];
        waiters := waiters[1..];
        leases := leases + [Lease(w.ticket, free[..w.n])];
        granted := granted + [w.ticket];
        free := free[w.n..];
      }
    }
  }

  // ---- runs ------------------------------------------------------------------------

  datatype Op = Request(n: nat) | Return(lease: nat)

  function Start(ids: seq<Card>): Pool { Pool(ids, [], [], [], 0) }

  /** A return of a lease that is not outstanding does not happen. */
  predicate Returns(s: Pool, op: Op) { op.Return? && op.lease < |s.leases| }

  function Step(s: Pool, op: Op): Pool {
    match op
    case Request(n) => Acquire(s, n)
    case Return(i) => if i < |s.leases| then Release(s, i) else s
  }

  function Run(s: Pool, ops: seq<Op>): Pool
    decreases |ops|
  {
    if ops == [] then s else Run(Step(s, ops[0]), ops[1..])
  }

  // ---- cards are conserved and the head waiter really has to wait ---------------------

  function Held(leases: seq<Lease>): multiset<Card> {
    if leases == [] then multiset{} else Held(leases[..|leases| - 1]) + multiset(leases[|leases| - 1].cards)
  }

  ghost predicate Sound(s: Pool, ids: seq<Card>) {
    && multiset(s.free) + Held(s.leases) == multiset(ids)
    && (s.waiters != [] ==> s.waiters[0].n > |s.free|)
  }

  lemma {:induction false} HeldRemove(leases: seq<Lease>, i: nat)
    requires i < |leases|
    ensures Held(leases) == Held(leases[..i] + leases[i + 1..]) + multiset(leases[i].cards)
  {
    var n := |leases| - 1;
    var rest := leases[..i] + leases[i + 1..];
    if i == n {
      assert rest == leases[..n];
    } else {
      HeldRemove(leases[..n], i);
      RemoveBeforeLast(leases, i);
    }
  }

  lemma {:induction false} RemoveBeforeLast(leases: seq<Lease>, i: nat)
    requires i < |leases| - 1
    ensures var n, rest := |leases| - 1, leases[..i] + leases[i + 1..];
            && |rest| == n && rest[n - 1] == leases[n]
            && rest[..n - 1] == leases[..n][..i] + leases[..n][i + 1..]
            && leases[..n][i] == leases[i]
  {
  }

  lemma {:induction false} GrantConserves(s: Pool, ticket: nat, n: nat)
    requires n <= |s.free|
    ensures var t := Grant(s, ticket, n);
            multiset(t.free) + Held(t.leases) == multiset(s.free) + Held(s.leases)
  {
    var t := Grant(s, ticket, n);
    assert s.free == s.free[..n] + s.free[n..];
    assert t.leases[..|s.leases|] == s.leases;
  }

  lemma {:induction false} PumpSound(s: Pool)
    ensures var t := Pump(s);
            && multiset(t.free) + Held(t.leases) == multiset(s.free) + Held(s.leases)
            && (t.waiters != [] ==> t.waiters[0].n > |t.free|)
    decreases |s.waiters|
  {
    if !(s.waiters == [] || s.waiters[0].n > |s.free|) {
      var u := s.(waiters := s.waiters[1..]);
      GrantConserves(u, s.waiters[0].ticket, s.waiters[0].n);
      PumpSound(Grant(u, s.waiters[0].ticket, s.waiters[0].n));
    }
  }

  lemma {:induction false} StepSound(s: Pool, op: Op, ids: seq<Card>)
    requires Sound(s, ids)
    ensures Sound(Step(s, op), ids)
  {
    match op
    case Request(n) =>
      if n <= |s.free| { GrantConserves(s.(next := s.next + 1), s.next, n); }
    case Return(i) =>
      if i < |s.leases| { ReleaseSound(s, i); }
  }

  lemma {:induction false} ReleaseSound(s: Pool, i: nat)
    requires i < |s.leases|
    ensures var t := Release(s, i);
            && multiset(t.free) + Held(t.leases) == multiset(s.free) + Held(s.leases)
            && (t.waiters != [] ==> t.waiters[0].n > |t.free|)
  {
    HeldRemove(s.leases, i);
    PumpSound(s.(free := s.free + s.leases[i].cards, leases := s.leases[..i] + s.leases[i + 1..]));
  }

  /**
   In every reachable state the free cards and the outstanding leases make up exactly the pool, and
   the head waiter asks for more than is free.
   */
  lemma {:induction false} RunSound(s: Pool, ops: seq<Op>, ids: seq<Card>)
    requires Sound(s, ids)
    ensures Sound(Run(s, ops), ids)
    decreases |ops|
  {
    if ops != [] {
      StepSound(s, ops[0], ids);
      RunSound(Step(s, ops[0]), ops[1..], ids);
    }
  }

  /** While nothing is leased, a queue can only be held up by a request for more than the whole pool. */
  lemma {:induction false} IdleQueueIsOversized(ids: seq<Card>, ops: seq<Op>)
    ensures var s := Run(Start(ids), ops);
            s.leases == [] && s.waiters != [] ==> s.waiters[0].n > |ids|
  {
    RunSound(Start(ids), ops, ids);
    var s := Run(Start(ids), ops);
    if s.leases == [] { assert |multiset(s.free)| == |multiset(ids)|; }
  }

  ghost predicate Fits(s: Pool, size: nat) { forall w :: w in s.waiters ==> w.n <= size }

  lemma {:induction false} PumpFits(s: Pool, size: nat)
    requires Fits(s, size)
    ensures Fits(Pump(s), size)
    decreases |s.waiters|
  {
    if !(s.waiters == [] || s.waiters[0].n > |s.free|) {
      assert forall w :: w in s.waiters[1..] ==> w in s.waiters;
      PumpFits(Grant(s.(waiters := s.waiters[1..]), s.waiters[0].ticket, s.waiters[0].n), size);
    }
  }

  lemma {:induction false} RunFits(s: Pool, ops: seq<Op>, size: nat)
    requires Fits(s, size) && forall op :: op in ops && op.Request? ==> op.n <= size
    ensures Fits(Run(s, ops), size)
    decreases |ops|
  {
    if ops != [] {
      assert ops[0] in ops && forall op :: op in ops[1..] ==> op in ops;
      if Returns(s, ops[0]) {
        var i := ops[0].lease;
        PumpFits(s.(free := s.free + s.leases[i].cards, leases := s.leases[..i] + s.leases[i + 1..]), size);
      }
      RunFits(Step(s, ops[0]), ops[1..], size);
    }
  }

  /** If no request exceeds the pool, nobody ever waits while nothing is leased: there is no deadlock. */
  lemma {:induction false} NoDeadlock(ids: seq<Card>, ops: seq<Op>)
    requires forall op :: op in ops && op.Request? ==> op.n <= |ids|
    ensures Run(Start(ids), ops).leases == [] ==> Run(Start(ids), ops).waiters == []
  {
    var s := Run(Start(ids), ops);
    IdleQueueIsOversized(ids, ops);
    RunFits(Start(ids), ops, |ids|);
    assert s.waiters == [] || s.waiters[0] in s.waiters;
  }

  // ---- a request larger than the pool ------------------------------------------------

  lemma {:induction false} PumpKeepsHead(s: Pool, w: Waiter)
    requires s.waiters != [] && s.waiters[0] == w && w.n > |s.free|
    ensures Pump(s) == s
  {
  }

  /** A head waiter that asks for more than the pool stays at the head for ever, and nobody behind it is served. */
  lemma {:induction false} OversizedBlocks(s: Pool, ops: seq<Op>, ids: seq<Card>)
    requires Sound(s, ids) && s.waiters != [] && s.waiters[0].n > |ids|
    ensures s.waiters <= Run(s, ops).waiters
    decreases |ops|
  {
    if ops != [] {
      var t := Step(s, ops[0]);
      StepSound(s, ops[0], ids);
      if Returns(s, ops[0]) {
        var i := ops[0].lease;
        var u := s.(free := s.free + s.leases[i].cards, leases := s.leases[..i] + s.leases[i + 1..]);
        HeldRemove(s.leases, i);
        assert multiset(u.free) + Held(u.leases) == multiset(ids);
        assert |multiset(u.free)| <= |multiset(ids)|;
        PumpKeepsHead(u, s.waiters[0]);
      }
      assert s.waiters <= t.waiters;
      OversizedBlocks(t, ops[1..], ids);
    }
  }

  // ---- fairness when all requests have one size ------------------------------------------

  function Tickets(ws: seq<Waiter>): (r: seq<nat>)
    ensures |r| == |ws| && forall i :: 0 <= i < |ws| ==> r[i] == ws[i].ticket
  {
    seq(|ws|, i requires 0 <= i < |ws| => ws[i].ticket)
  }

  function Upto(n: nat): (r: seq<nat>)
    ensures |r| == n && forall i :: 0 <= i < n ==> r[i] == i
  {
    seq(n, i => i)
  }

  /** Everybody asks for `k` cards, and tickets are served strictly in the order they were drawn. */
  ghost predicate Fair(s: Pool, k: nat) {
    && (forall w :: w in s.waiters ==> w.n == k)
    && (forall l :: l in s.leases ==> |l.cards| == k)
    && (s.waiters != [] ==> |s.free| < k)
    && s.granted + Tickets(s.waiters) == Upto(s.next)
  }

  predicate Asks(op: Op, k: nat) { op.Request? ==> op.n == k }

  lemma {:induction false} RequestFair(s: Pool, k: nat)
    requires Fair(s, k) && k >= 1
    ensures Fair(Acquire(s, k), k)
    ensures k > |s.free| ==> Acquire(s, k).waiters == s.waiters + [Waiter(s.next, k)]
    ensures k <= |s.free| ==> s.waiters == [] && Acquire(s, k).granted == s.granted + [s.next]
  {
    var t := Acquire(s, k);
    if k <= |s.free| {
      assert Tickets(s.waiters) == [];
      assert t.granted + Tickets(t.waiters) == s.granted + Tickets(s.waiters) + [s.next];
    } else {
      assert Tickets(t.waiters) == Tickets(s.waiters) + [s.next];
      assert t.granted + Tickets(t.waiters) == (s.granted + Tickets(s.waiters)) + [s.next];
    }
    assert Upto(s.next) + [s.next] == Upto(s.next + 1);
  }

  /** With one request size a return serves exactly the head waiter. */
  lemma {:induction false} ReturnServesHead(s: Pool, k: nat, i: nat)
    requires Fair(s, k) && k >= 1 && i < |s.leases|
    ensures Fair(Release(s, i), k)
    ensures s.waiters != [] ==>
              && Release(s, i).waiters == s.waiters[1..]
              && Release(s, i).granted == s.granted + [s.waiters[0].ticket]
    ensures s.waiters == [] ==> Release(s, i).waiters == [] && Release(s, i).granted == s.granted
  {
    assert s.leases[i] in s.leases;
    var u := s.(free := s.free + s.leases[i].cards, leases := s.leases[..i] + s.leases[i + 1..]);
    assert forall l :: l in u.leases ==> l in s.leases;
    if s.waiters != [] { PumpServesHead(u, k); }
  }

  lemma {:induction false} PumpServesHead(u: Pool, k: nat)
    requires u.waiters != [] && k >= 1 && k <= |u.free| < 2 * k
    requires forall w :: w in u.waiters ==> w.n == k
    requires forall l :: l in u.leases ==> |l.cards| == k
    requires u.granted + Tickets(u.waiters) == Upto(u.next)
    ensures Pump(u).waiters == u.waiters[1..] && Pump(u).granted == u.granted + [u.waiters[0].ticket]
    ensures Fair(Pump(u), k)
  {
    var w, rest := u.waiters[0], u.waiters[1..];
    assert w in u.waiters && forall x :: x in rest ==> x in u.waiters;
    var v := Grant(u.(waiters := rest), w.ticket, w.n);
    assert v.waiters == [] || v.waiters[0] in rest;
    assert Pump(u) == Pump(v) == v;
    TicketsMoveUp(u.granted, u.waiters);
    forall l | l in v.leases ensures |l.cards| == k {
      if l !in u.leases { assert l == Lease(w.ticket, u.free[..k]); }
    }
  }

  lemma {:induction false} TicketsMoveUp(granted: seq<nat>, ws: seq<Waiter>)
    requires ws != []
    ensures granted + [ws[0].ticket] + Tickets(ws[1..]) == granted + Tickets(ws)
  {
    assert Tickets(ws) == [ws[0].ticket] + Tickets(ws[1..]);
  }

  lemma {:induction false} StepFair(s: Pool, op: Op, k: nat)
    requires Fair(s, k) && k >= 1 && Asks(op, k)
    ensures Fair(Step(s, op), k)
  {
    match op
    case Request(n) => RequestFair(s, k);
    case Return(i) => if i < |s.leases| { ReturnServesHead(s, k, i); }
  }

  /**
   If every request asks for the same number of cards, then in every reachable state the queue is
   non-empty only if fewer than that many cards are free, and tickets have been served exactly in the
   order they were drawn.
   */
  lemma {:induction false} UniformIsFair(s: Pool, ops: seq<Op>, k: nat)
    requires Fair(s, k) && k >= 1 && forall op :: op in ops ==> Asks(op, k)
    ensures Fair(Run(s, ops), k)
    decreases |ops|
  {
    if ops != [] {
      assert ops[0] in ops && forall op :: op in ops[1..] ==> op in ops;
      StepFair(s, ops[0], k);
      UniformIsFair(Step(s, ops[0]), ops[1..], k);
    }
  }

  lemma {:induction false} StartIsFair(ids: seq<Card>, k: nat)
    ensures Fair(Start(ids), k) && Sound(Start(ids), ids) && InOrder(Start(ids))
  {
    assert Tickets([]) == [] && Upto(0) == [];
  }

  function ReturnCount(s: Pool, ops: seq<Op>): nat
    decreases |ops|
  {
    if ops == [] then 0
    else (if Returns(s, ops[0]) then 1 else 0) + ReturnCount(Step(s, ops[0]), ops[1..])
  }

  lemma {:induction false} GrantedStays(s: Pool, ops: seq<Op>, k: nat)
    requires Fair(s, k) && k >= 1 && forall op :: op in ops ==> Asks(op, k)
    ensures s.granted <= Run(s, ops).granted
    decreases |ops|
  {
    if ops != [] {
      assert ops[0] in ops && forall op :: op in ops[1..] ==> op in ops;
      StepFair(s, ops[0], k);
      match ops[0] {
        case Request(n) => RequestFair(s, k);
        case Return(i) => if i < |s.leases| { ReturnServesHead(s, k, i); }
      }
      GrantedStays(Step(s, ops[0]), ops[1..], k);
    }
  }

  /** The waiter at position `p` of the queue has been served once `p + 1` leases have been returned. */
  lemma {:induction false} ServedWithin(s: Pool, ops: seq<Op>, k: nat, p: nat)
    requires Fair(s, k) && k >= 1 && forall op :: op in ops ==> Asks(op, k)
    requires p < |s.waiters| && ReturnCount(s, ops) > p
    ensures s.waiters[p].ticket in Run(s, ops).granted
    decreases |ops|
  {
    assert ops[0] in ops && forall op :: op in ops[1..] ==> op in ops;
    var t := Step(s, ops[0]);
    StepFair(s, ops[0], k);
    if Returns(s, ops[0]) {
      ReturnServesHead(s, k, ops[0].lease);
      if p == 0 {
        GrantedStays(t, ops[1..], k);
        assert t.granted[|s.granted|] == s.waiters[0].ticket;
      } else {
        assert t.waiters[p - 1] == s.waiters[p];
        ServedWithin(t, ops[1..], k, p - 1);
      }
    } else {
      if ops[0].Request? { RequestFair(s, k); }
      ServedWithin(t, ops[1..], k, p);
    }
  }

  // ---- and not otherwise: small requests overtake a large one ------------------------------

  /** A pool of two cards with both leased singly and a request for two waiting. */
  ghost predicate Stuck(s: Pool) {
    && s.free == [] && s.waiters == [Waiter(2, 2)]
    && |s.leases| == 2 && |s.leases[0].cards| == 1 && |s.leases[1].cards| == 1
  }

  function Overtaking(m: nat): seq<Op> { if m == 0 then [] else [Return(0), Request(1)] + Overtaking(m - 1) }

  lemma {:induction false} OvertakeOnce(s: Pool)
    requires Stuck(s)
    ensures Stuck(Step(Step(s, Return(0)), Request(1)))
    ensures Returns(s, Return(0))
  {
    var t := Step(s, Return(0));
    var u := s.(free := s.free + s.leases[0].cards, leases := s.leases[..0] + s.leases[1..]);
    PumpKeepsHead(u, Waiter(2, 2));
    assert t == u && t.free == s.leases[0].cards;
  }

  lemma {:induction false} OvertakenForEver(s: Pool, m: nat)
    requires Stuck(s)
    ensures Stuck(Run(s, Overtaking(m))) && ReturnCount(s, Overtaking(m)) == m
    decreases m
  {
    if m > 0 {
      OvertakeOnce(s);
      var t := Step(s, Return(0));
      var ops := Overtaking(m);
      assert ops[1..] == [Request(1)] + Overtaking(m - 1) && ops[1..][1..] == Overtaking(m - 1);
      OvertakenForEver(Step(t, Request(1)), m - 1);
      assert Run(s, ops) == Run(Step(t, Request(1)), Overtaking(m - 1));
      assert ReturnCount(t, ops[1..]) == ReturnCount(Step(t, Request(1)), Overtaking(m - 1));
    }
  }

  /**
   With mixed sizes no number of returns serves a waiter: after any `m` returns the request for two
   cards can still be waiting, because `acquire` does not look at the queue before it takes free cards.
   */
  lemma {:induction false} MixedSizesStarve(a: Card, b: Card, m: nat)
    ensures var ops := [Request(1), Request(1), Request(2)];
            var s := Run(Start([a, b]), ops);
            s.waiters == [Waiter(2, 2)] && ReturnCount(s, Overtaking(m)) == m
            && Run(s, Overtaking(m)).waiters == [Waiter(2, 2)]
  {
    var s0 := Start([a, b]);
    var s1 := Step(s0, Request(1));
    var s2 := Step(s1, Request(1));
    var s3 := Step(s2, Request(2));
    var ops := [Request(1), Request(1), Request(2)];
    assert ops[1..] == [Request(1), Request(2)] && ops[1..][1..] == [Request(2)] && ops[1..][1..][1..] == [];
    assert Run(s0, ops) == Run(s1, ops[1..]) == Run(s2, ops[1..][1..]) == Run(s3, []) == s3;
    assert s1.free == [b] && s2.free == [];
    assert Stuck(s3);
    OvertakenForEver(s3, m);
  }

  // ---- exactly when grants follow the order of the requests ---------------------------------

  /** Tickets have been served in the order they were drawn, and the queue continues that order. */
  ghost predicate InOrder(s: Pool) { s.granted + Tickets(s.waiters) == Upto(s.next) }

  /** A request that finds others waiting and is served at once all the same. */
  predicate JumpsQueue(s: Pool, op: Op) { op.Request? && s.waiters != [] && op.n <= |s.free| }

  predicate Overtakes(s: Pool, ops: seq<Op>)
    decreases |ops|
  {
    ops != [] && (JumpsQueue(s, ops[0]) || Overtakes(Step(s, ops[0]), ops[1..]))
  }

  /** Somebody was served out of turn. */
  ghost predicate Spoiled(s: Pool) { exists i :: 0 <= i < |s.granted| && s.granted[i] != i }

  lemma {:induction false} PumpOrder(s: Pool)
    ensures Pump(s).granted + Tickets(Pump(s).waiters) == s.granted + Tickets(s.waiters)
    ensures s.granted <= Pump(s).granted && Pump(s).next == s.next
    decreases |s.waiters|
  {
    if !(s.waiters == [] || s.waiters[0].n > |s.free|) {
      TicketsMoveUp(s.granted, s.waiters);
      PumpOrder(Grant(s.(waiters := s.waiters[1..]), s.waiters[0].ticket, s.waiters[0].n));
    }
  }

  lemma {:induction false} GrantedGrows(s: Pool, op: Op)
    ensures s.granted <= Step(s, op).granted
  {
    if Returns(s, op) {
      var i := op.lease;
      PumpOrder(s.(free := s.free + s.leases[i].cards, leases := s.leases[..i] + s.leases[i + 1..]));
    }
  }

  lemma {:induction false} SpoiledIsNotInOrder(s: Pool)
    requires Spoiled(s)
    ensures !InOrder(s)
  {
    var i :| 0 <= i < |s.granted| && s.granted[i] != i;
    assert (s.granted + Tickets(s.waiters))[i] == s.granted[i];
  }

  lemma {:induction false} QueueInOrder(s: Pool, n: nat)
    requires InOrder(s) && !JumpsQueue(s, Request(n))
    ensures InOrder(Acquire(s, n))
  {
    var t := Acquire(s, n);
    if n <= |s.free| {
      assert Tickets(s.waiters) == [];
      assert t.granted + Tickets(t.waiters) == s.granted + Tickets(s.waiters) + [s.next];
    } else {
      assert Tickets(t.waiters) == Tickets(s.waiters) + [s.next];
      assert t.granted + Tickets(t.waiters) == (s.granted + Tickets(s.waiters)) + [s.next];
    }
    assert Upto(s.next) + [s.next] == Upto(s.next + 1);
  }

  lemma {:induction false} StepOrder(s: Pool, op: Op)
    requires InOrder(s)
    ensures if JumpsQueue(s, op) then Spoiled(Step(s, op)) else InOrder(Step(s, op))
  {
    if JumpsQueue(s, op) {
      assert |Upto(s.next)| == |s.granted| + |s.waiters|;
      assert Step(s, op).granted[|s.granted|] == s.next != |s.granted|;
    } else if op.Request? {
      QueueInOrder(s, op.n);
    } else if Returns(s, op) {
      var i := op.lease;
      PumpOrder(s.(free := s.free + s.leases[i].cards, leases := s.leases[..i] + s.leases[i + 1..]));
    }
  }

  lemma {:induction false} SpoiledStays(s: Pool, ops: seq<Op>)
    requires Spoiled(s)
    ensures Spoiled(Run(s, ops))
    decreases |ops|
  {
    if ops != [] {
      GrantedGrows(s, ops[0]);
      var i :| 0 <= i < |s.granted| && s.granted[i] != i;
      assert Step(s, ops[0]).granted[i] != i;
      SpoiledStays(Step(s, ops[0]), ops[1..]);
    }
  }

  /**
   Over any run, grants follow the order of the requests exactly if no request finds others waiting and
   still few enough cards asked for to be served at once.
   */
  lemma {:induction false} InOrderIff(s: Pool, ops: seq<Op>)
    requires InOrder(s)
    ensures InOrder(Run(s, ops)) <==> !Overtakes(s, ops)
    decreases |ops|
  {
    if ops != [] {
      StepOrder(s, ops[0]);
      if JumpsQueue(s, ops[0]) {
        SpoiledStays(Step(s, ops[0]), ops[1..]);
        SpoiledIsNotInOrder(Run(s, ops));
      } else {
        InOrderIff(Step(s, ops[0]), ops[1..]);
      }
    }
  }

  // ---- exactly when the queue can come to a standstill ----------------------------------------

  predicate ReturnsOnly(ops: seq<Op>) { forall op :: op in ops ==> op.Return? }

  lemma {:induction false} PumpMeasure(s: Pool)
    ensures 2 * |Pump(s).waiters| + |Pump(s).leases| <= 2 * |s.waiters| + |s.leases|
    decreases |s.waiters|
  {
    if !(s.waiters == [] || s.waiters[0].n > |s.free|) {
      PumpMeasure(Grant(s.(waiters := s.waiters[1..]), s.waiters[0].ticket, s.waiters[0].n));
    }
  }

  lemma {:induction false} RunConcat(s: Pool, a: seq<Op>, b: seq<Op>)
    ensures Run(s, a + b) == Run(Run(s, a), b)
    decreases |a|
  {
    if a == [] {
      assert a + b == b;
    } else {
      assert (a + b)[1..] == a[1..] + b;
      RunConcat(Step(s, a[0]), a[1..], b);
    }
  }

  /** Returning what is leased, again and again, ends with nothing leased. */
  lemma {:induction false} Drain(s: Pool) returns (ops: seq<Op>)
    ensures ReturnsOnly(ops) && Run(s, ops).leases == []
    decreases 2 * |s.waiters| + |s.leases|
  {
    if s.leases == [] {
      ops := [];
    } else {
      var u := s.(free := s.free + s.leases[0].cards, leases := s.leases[..0] + s.leases[1..]);
      PumpMeasure(u);
      var rest := Drain(Step(s, Return(0)));
      ops := [Return(0)] + rest;
      assert ops[1..] == rest;
    }
  }

  /** Somebody waits for more than the whole pool. */
  predicate Hopeless(s: Pool, size: nat) { exists w :: w in s.waiters && w.n > size }

  lemma {:induction false} PumpHopeless(s: Pool, size: nat)
    requires Hopeless(s, size) && |multiset(s.free) + Held(s.leases)| <= size
    ensures Hopeless(Pump(s), size)
    decreases |s.waiters|
  {
    if !(s.waiters == [] || s.waiters[0].n > |s.free|) {
      var w :| w in s.waiters && w.n > size;
      assert |multiset(s.free)| <= size;
      assert w in s.waiters[1..];
      var u := s.(waiters := s.waiters[1..]);
      GrantConserves(u, s.waiters[0].ticket, s.waiters[0].n);
      PumpHopeless(Grant(u, s.waiters[0].ticket, s.waiters[0].n), size);
    }
  }

  lemma {:induction false} StepHopeless(s: Pool, op: Op, ids: seq<Card>)
    requires Sound(s, ids)
    requires Hopeless(s, |ids|) || (op.Request? && op.n > |ids|)
    ensures Hopeless(Step(s, op), |ids|)
  {
    assert |multiset(s.free)| <= |multiset(ids)|;
    if Returns(s, op) {
      var i := op.lease;
      HeldRemove(s.leases, i);
      PumpHopeless(s.(free := s.free + s.leases[i].cards, leases := s.leases[..i] + s.leases[i + 1..]), |ids|);
    } else if op.Request? && op.n > |ids| {
      assert Waiter(s.next, op.n) in Step(s, op).waiters;
    } else {
      var w :| w in s.waiters && w.n > |ids|;
      assert w in Step(s, op).waiters;
    }
  }

  lemma {:induction false} RunHopeless(s: Pool, ops: seq<Op>, ids: seq<Card>)
    requires Sound(s, ids)
    requires Hopeless(s, |ids|) || exists op :: op in ops && op.Request? && op.n > |ids|
    ensures Hopeless(Run(s, ops), |ids|)
    decreases |ops|
  {
    if ops != [] {
      StepSound(s, ops[0], ids);
      if Hopeless(s, |ids|) || (ops[0].Request? && ops[0].n > |ids|) { StepHopeless(s, ops[0], ids); }
      assert forall op :: op in ops <==> op == ops[0] || op in ops[1..];
      RunHopeless(Step(s, ops[0]), ops[1..], ids);
    }
  }

  /** After these operations, returns alone can lead to a state with nothing leased and somebody waiting. */
  ghost predicate CanStall(ids: seq<Card>, ops: seq<Op>) {
    exists more ::
      ReturnsOnly(more) && Run(Start(ids), ops + more).leases == [] && Run(Start(ids), ops + more).waiters != []
  }

  /** A run can come to a standstill exactly if some request in it asks for more than the whole pool. */
  lemma {:induction false} StallsIff(ids: seq<Card>, ops: seq<Op>)
    ensures CanStall(ids, ops) <==> exists op :: op in ops && op.Request? && op.n > |ids|
  {
    if op :| op in ops && op.Request? && op.n > |ids| {
      StartIsFair(ids, 1);
      RunHopeless(Start(ids), ops, ids);
      RunSound(Start(ids), ops, ids);
      var more := Drain(Run(Start(ids), ops));
      RunConcat(Start(ids), ops, more);
      RunHopeless(Run(Start(ids), ops), more, ids);
    } else {
      forall more | ReturnsOnly(more)
        ensures Run(Start(ids), ops + more).leases == [] ==> Run(Start(ids), ops + more).waiters == []
      {
        assert forall op :: op in ops + more ==> op in ops || op in more;
        NoDeadlock(ids, ops + more);
      }
    }
  }
}

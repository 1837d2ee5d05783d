/** Clients that sleep until a time: a queue ordered by time, drained by two handlers. */
module SleepUntil {
  import opened TimeStamps

  /** `ticket` numbers the requests in order of arrival; it is not stored by the server. */
  datatype Request = Request(id: nat, client: nat, revive: TimeStamp, ticket: nat)

  /** Earlier time first, and first come first served among equal times. */
  predicate Before(a: Request, b: Request) {
    Abs(a.revive) < Abs(b.revive) || (Abs(a.revive) == Abs(b.revive) && a.ticket < b.ticket)
  }

  predicate InOrder(q: seq<Request>) {
    forall i, j | 0 <= i < j < |q| :: Before(q[i], q[j])
  }

  predicate DistinctIds(q: seq<Request>) {
    forall i, j | 0 <= i < j < |q| :: q[i].id != q[j].id
  }

  /** The requests that are due at `now`, in queue order. */
  function Due(q: seq<Request>, now: TimeStamp): seq<Request> {
    if q == [] then []
    else if !Later(q[0].revive, now) then [q[0]] + Due(q[1..], now)
    else Due(q[1..], now)
  }

  /** The requests that are not. */
  function NotDue(q: seq<Request>, now: TimeStamp): seq<Request> {
    if q == [] then []
    else if !Later(q[0].revive, now) then NotDue(q[1..], now)
    else [q[0]] + NotDue(q[1..], now)
  }

  /** The queue with a new request: in front of the first one that is later. */
  function Insert(q: seq<Request>, r: Request): seq<Request> {
    if q == [] || Later(q[0].revive, r.revive) then [r] + q
    else [q[0]] + Insert(q[1..], r)
  }

  /** The walk along the queue stops at the place of the new request. */
  lemma {:induction false} InsertedAt(q: seq<Request>, k: nat, r: Request)
    requires k <= |q| && forall i | 0 <= i < k :: !Later(q[i].revive, r.revive)
    requires k < |q| ==> Later(q[k].revive, r.revive)
    ensures Insert(q, r) == q[..k] + [r] + q[k..]
  {
    if k == 0 {
      assert q[..k] == [] && q[k..] == q;
    } else {
      InsertedAt(q[1..], k - 1, r);
      assert q[..k] == [q[0]] + q[1..][..k - 1] && q[k..] == q[1..][k - 1..];
    }
  }

  /** In an ordered queue the first request that is not due ends the due ones. */
  lemma {:induction false} NoneDue(q: seq<Request>, now: TimeStamp)
    requires forall i | 0 <= i < |q| :: Later(q[i].revive, now)
    ensures Due(q, now) == [] && NotDue(q, now) == q
  {
    if q != [] {
      NoneDue(q[1..], now);
    }
  }

  /** A handler stops at the first request that is later than now: so are all behind it. */
  lemma FirstLater(q: seq<Request>, now: TimeStamp)
    requires InOrder(q) && (q != [] ==> Later(q[0].revive, now))
    ensures Due(q, now) == [] && NotDue(q, now) == q
  {
    forall i | 0 <= i < |q|
      ensures Later(q[i].revive, now)
    {
      assert i > 0 ==> Before(q[0], q[i]);
    }
    NoneDue(q, now);
  }

  /** The clients of the requests. */
  function Clients(q: seq<Request>): (c: seq<nat>)
    ensures |c| == |q| && forall i | 0 <= i < |q| :: c[i] == q[i].client
  {
    seq(|q|, i requires 0 <= i < |q| => q[i].client)
  }

  lemma OneReleased(q: seq<Request>, now: TimeStamp, woken: seq<nat>)
    requires q != [] && !Later(q[0].revive, now)
    ensures q[..0] + q[0 + 1..] == q[1..]
    ensures woken + [q[0].client] + Clients(Due(q[1..], now)) == woken + Clients(Due(q, now))
    ensures NotDue(q, now) == NotDue(q[1..], now) && Due(q, now) != []
  {
    assert Clients(Due(q, now)) == [q[0].client] + Clients(Due(q[1..], now));
  }

  lemma NobodyLeft(woken: seq<nat>)
    ensures woken + Clients([]) == woken
  {}

  lemma {:induction false} StillLater(q: seq<Request>, now: TimeStamp)
    ensures forall i | 0 <= i < |NotDue(q, now)| :: Later(NotDue(q, now)[i].revive, now)
  {
    if q != [] {
      StillLater(q[1..], now);
    }
  }

  lemma InFront(a: Request, q: seq<Request>)
    requires InOrder(q) && DistinctIds(q)
    requires q != [] ==> Before(a, q[0]) || forall x | x in q :: Before(a, x)
    requires forall x | x in q :: a.id != x.id
    ensures InOrder([a] + q) && DistinctIds([a] + q)
  {
    forall i | 0 <= i < |q|
      ensures Before(a, q[i])
    {
      assert q[i] in q;
      assert i > 0 ==> Before(q[0], q[i]);
    }
  }

  lemma {:induction false} Inserted(q: seq<Request>, r: Request)
    requires InOrder(q) && DistinctIds(q)
    requires forall x | x in q :: x.ticket < r.ticket && x.id != r.id
    ensures InOrder(Insert(q, r)) && DistinctIds(Insert(q, r))
    ensures forall x :: x in Insert(q, r) <==> x in q || x == r
  {
    if q != [] && !Later(q[0].revive, r.revive) {
      assert q == [q[0]] + q[1..];
      Inserted(q[1..], r);
      forall x | x in q[1..]
        ensures Before(q[0], x) && q[0].id != x.id
      {}
      InFront(q[0], Insert(q[1..], r));
    } else {
      InFront(r, q);
    }
  }

  class Sleepers {
    var pending: seq<Request>
    var handlerRegistered: bool
    // the clients that were woken, in order
    var notified: seq<nat>
    ghost var nextTicket: nat

    ghost predicate Valid()
      reads this
    {
      && InOrder(pending) && DistinctIds(pending)
      && (pending != [] ==> handlerRegistered)
      && forall r | r in pending :: r.ticket < nextTicket
    }

    constructor ()
      ensures Valid() && pending == [] && notified == [] && !handlerRegistered
    {
      pending, handlerRegistered, notified, nextTicket := [], false, [], 0;
    }

    /** ClientSleepUntil; `canRegister` tells whether the handlers can be registered. */
    method ClientSleepUntil(client: nat, revive: TimeStamp, id: nat, ticket: nat, canRegister: bool) returns (ok: bool)
      requires Valid() && ticket == nextTicket
      requires forall r | r in pending :: r.id != id
      modifies this
      ensures Valid() && notified == old(notified)
      ensures ok == (old(handlerRegistered) || canRegister)
      ensures !ok ==> pending == old(pending) && handlerRegistered == old(handlerRegistered)
      ensures ok ==> pending == Insert(old(pending), Request(id, client, revive, ticket))
    {
      if !handlerRegistered {
        if !canRegister {
          return false;
        }
        handlerRegistered := true;
      }
      hide InOrder, DistinctIds;
      var request := Request(id, client, revive, ticket);
      var k := 0;
      while k < |pending| && !Later(pending[k].revive, revive)
        invariant k <= |pending|
        invariant forall i | 0 <= i < k :: !Later(pending[i].revive, revive)
      {
        k := k + 1;
      }
      Inserted(pending, request);
      InsertedAt(pending, k, request);
      pending := pending[..k] + [request] + pending[k..];
      nextTicket := nextTicket + 1;
      return true;
    }

    /** SertafiedDelete: the request leaves the queue and its client is woken. */
    method Delete(ghost k: nat, request: Request)
      requires Valid() && k < |pending| && pending[k] == request
      modifies `pending, `notified
      ensures Valid()
      ensures pending == old(pending)[..k] + old(pending)[k + 1..]
      ensures notified == old(notified) + [request.client]
    {
      var i := 0;
      while pending[i].id != request.id
        invariant i <= k
        decreases k - i
      {
        i := i + 1;
      }
      assert i == k;
      pending := pending[..i] + pending[i + 1..];
      notified := notified + [request.client];
    }

    lemma RestIsLater(now: TimeStamp)
      requires Valid() && (pending != [] ==> Later(pending[0].revive, now))
      ensures Due(pending, now) == [] && NotDue(pending, now) == pending
    {
      FirstLater(pending, now);
    }

    /** The loop of both handlers: requests are released from the front until one is later than now. */
    method Release(now: TimeStamp) returns (woken: bool)
      requires Valid()
      modifies `pending, `notified
      ensures Valid()
      ensures pending == NotDue(old(pending), now)
      ensures notified == old(notified) + Clients(Due(old(pending), now))
      ensures woken <==> Due(old(pending), now) != []
    {
      hide InOrder, DistinctIds, Due, NotDue, Clients, Valid, Later;
      woken := false;
      while pending != [] && !Later(pending[0].revive, now)
        invariant Valid()
        invariant notified + Clients(Due(pending, now)) == old(notified) + Clients(Due(old(pending), now))
        invariant NotDue(pending, now) == NotDue(old(pending), now)
        invariant if woken then Due(old(pending), now) != [] else pending == old(pending)
        decreases |pending|
      {
        OneReleased(pending, now, notified);
        woken := true;
        Delete(0, pending[0]);
      }
      RestIsLater(now);
      NobodyLeft(notified);
    }

    /**
      * SertafiedBlockHandler. The server must not sleep if a client was woken; it may sleep for `delay`
      * if anything is still pending (`wait`).
      */
    method BlockHandler(now: TimeStamp) returns (woken: bool, wait: bool, delay: Milliseconds)
      requires Valid()
      modifies `pending, `notified
      ensures Valid()
      ensures pending == NotDue(old(pending), now)
      ensures notified == old(notified) + Clients(Due(old(pending), now))
      ensures woken <==> Due(old(pending), now) != []
      ensures wait <==> pending != []
      // the sleep never lasts longer than until the first request comes due, and as long if that is less than a month away
      ensures wait ==>
                && Abs(now) + delay <= Abs(pending[0].revive)
                && (Abs(now) + delay == Abs(pending[0].revive) <==> Abs(pending[0].revive) < Abs(now) + MONTH)
    {
      woken := Release(now);
      wait, delay := false, 0;
      if pending != [] {
        assert pending[0] in pending;
        StillLater(old(pending), now);
        UntilIs(now, pending[0].revive);
        wait, delay := true, (pending[0].revive.milliseconds - now.milliseconds) % MONTH;
      }
    }

    /** SertafiedWakeupHandler; the handlers go away with the last request. */
    method WakeupHandler(now: TimeStamp)
      requires Valid()
      modifies `pending, `notified, `handlerRegistered
      ensures Valid()
      ensures pending == NotDue(old(pending), now)
      ensures notified == old(notified) + Clients(Due(old(pending), now))
      ensures handlerRegistered == (old(handlerRegistered) && pending != [])
    {
      var _ := Release(now);
      if pending == [] {
        handlerRegistered := false;
      }
    }
  }

  /** A handler pass releases exactly the requests not later than now: none is lost, none comes twice. */
  lemma {:induction false} Partition(q: seq<Request>, now: TimeStamp)
    ensures multiset(q) == multiset(Due(q, now)) + multiset(NotDue(q, now))
    ensures forall r | r in Due(q, now) :: Abs(r.revive) <= Abs(now)
    ensures forall r | r in NotDue(q, now) :: Abs(r.revive) > Abs(now)
  {
    if q != [] {
      Partition(q[1..], now);
      assert q == [q[0]] + q[1..];
    }
  }

  /** In an ordered queue the released requests are the front, in order. */
  lemma {:induction false} DueIsFront(q: seq<Request>, now: TimeStamp)
    requires InOrder(q)
    ensures q == Due(q, now) + NotDue(q, now)
  {
    if q != [] {
      DueIsFront(q[1..], now);
      if Later(q[0].revive, now) {
        FirstLater(q, now);
      }
    }
  }
}

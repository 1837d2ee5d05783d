/** Which procedures XTrap puts in the place of the server's, for several clients at once. */
module XTrap {
  const REQUESTS: nat := 256
  const KEY_PRESS: nat := 2
  const MOTION_NOTIFY: nat := 6
  /** The event table ends some way behind MotionNotify. */
  const CORE_EVENTS: nat := KEY_PRESS + MOTION_NOTIFY
  const MIN_PACKET_SIZE: nat := 32
  const ANY_PACKET_SIZE: nat := 0xFFFF

  datatype Kind = Requests | Events

  /** A procedure: what the server had for entry i, or what XTrap hooks in there. */
  datatype Proc = Real(kind: Kind, i: nat) | Hook(kind: Kind, i: nat)

  datatype Status = Success | BadValue | BadImplementation

  /** The flags of the configuration that come before the request flags; `valid` says which a request is about. */
  datatype Bits = Bits(event: bool, request: bool, cmd: bool, maxPacket: bool)

  datatype Config = Config(valid: Bits, data: Bits, requests: set<nat>, events: set<nat>, packetSize: nat, cmdKey: nat)

  /** What XTrap keeps of a client. */
  datatype Env = Env(requests: set<nat>, events: set<nat>, cmd: bool, cmdKey: nat, maxPacket: bool, packetSize: nat)

  function Size(kind: Kind): nat {
    if kind.Requests? then REQUESTS else CORE_EVENTS
  }

  function Flags(env: Env, kind: Kind): set<nat> {
    if kind.Requests? then env.requests else env.events
  }

  predicate EnvOk(env: Env) {
    (forall i | i in env.requests :: i < REQUESTS) && forall i | i in env.events :: i < CORE_EVENTS
  }

  /** The flags that `mask` names are set or cleared, as far as the table goes. */
  function Chosen(flags: set<nat>, mask: set<nat>, want: bool, size: nat): set<nat> {
    if want then flags + (set i | i in mask && i < size) else flags - (set i | i in mask && i < size)
  }

  predicate Within(i: nat, low: nat, high: nat) {
    low <= i < high
  }

  function Range(low: nat, high: nat): (r: set<nat>)
    ensures forall i :: i in r <==> low <= i < high
  {
    set i: nat | low <= i < high && Within(i, low, high)
  }

  /** Of these events the devices can be told. */
  function DeviceEvents(): set<nat> {
    Range(KEY_PRESS, MOTION_NOTIFY + 1)
  }

  /** One of the first `size` flags changes that is not one of a device's events. */
  predicate Odd(flags: set<nat>, mask: set<nat>, want: bool, size: nat) {
    exists i | i in mask && i < size :: (i in flags) != want && i !in DeviceEvents()
  }

  // ---------- What a configuration does to its client ----------

  function AfterEvents(env: Env, r: Config): Env {
    if r.valid.event then env.(events := Chosen(env.events, r.events, r.data.event, CORE_EVENTS)) else env
  }

  /** A flag that changes has to be one of a device's events. */
  function EventStatus(env: Env, r: Config): Status {
    if r.valid.event && Odd(env.events, r.events, r.data.event, CORE_EVENTS)
    then BadImplementation else Success
  }

  function AfterCmd(env: Env, r: Config): Env {
    if r.valid.cmd && env.cmd != r.data.cmd
    then env.(cmd := r.data.cmd, cmdKey := if r.data.cmd then r.cmdKey else 0) else env
  }

  function PacketStatus(env: Env, r: Config): Status {
    if r.valid.maxPacket && env.maxPacket != r.data.maxPacket && r.data.maxPacket && r.packetSize < MIN_PACKET_SIZE
    then BadValue else Success
  }

  /** The flag has changed even if the size is refused. */
  function AfterPacket(env: Env, r: Config): Env {
    if r.valid.maxPacket && env.maxPacket != r.data.maxPacket
    then
      var flagged := env.(maxPacket := r.data.maxPacket);
      if !r.data.maxPacket then flagged.(packetSize := ANY_PACKET_SIZE)
      else if r.packetSize < MIN_PACKET_SIZE then flagged
      else flagged.(packetSize := r.packetSize)
    else env
  }

  function AfterRequests(env: Env, r: Config): Env {
    if r.valid.request then env.(requests := Chosen(env.requests, r.requests, r.data.request, REQUESTS)) else env
  }

  function ConfigStatus(env: Env, r: Config): Status {
    if EventStatus(env, r) != Success then EventStatus(env, r) else PacketStatus(env, r)
  }

  /** XETrapConfig, as far as the vectoring goes. */
  function Configured(env: Env, r: Config): Env {
    var e := AfterEvents(env, r);
    if EventStatus(env, r) != Success then e
    else
      var p := AfterPacket(AfterCmd(e, r), r);
      if PacketStatus(env, r) != Success then p else AfterRequests(p, r)
  }

  /** The flags below `size` that the mask names are as wanted, and no other has changed. */
  ghost predicate FlagsSet(before: set<nat>, after: set<nat>, mask: set<nat>, want: bool, size: nat) {
    forall i: nat :: i in after <==> if i in mask && i < size then want else i in before
  }

  /** A flag that is to change is of an event that no device has. */
  ghost predicate AsksTooMuch(env: Env, r: Config) {
    r.valid.event && exists i | i in r.events && i < CORE_EVENTS :: (i in env.events) != r.data.event && (i < KEY_PRESS || i > MOTION_NOTIFY)
  }

  /** Packets are to be limited from now on, to less than an event holds. */
  ghost predicate TooSmall(env: Env, r: Config) {
    r.valid.maxPacket && r.data.maxPacket && !env.maxPacket && r.packetSize < MIN_PACKET_SIZE
  }

  /**
    * What a configuration does: the events first, then the command key and the packet size, and the requests last; an
    * error ends it, but does not undo what comes before.
    */
  ghost predicate ConfigDone(env: Env, r: Config, env': Env, status: Status) {
    && status == (if AsksTooMuch(env, r) then BadImplementation else if TooSmall(env, r) then BadValue else Success)
    && (if r.valid.event then FlagsSet(env.events, env'.events, r.events, r.data.event, CORE_EVENTS) else env'.events == env.events)
    && (if r.valid.request && status == Success then FlagsSet(env.requests, env'.requests, r.requests, r.data.request, REQUESTS)
        else env'.requests == env.requests)
    && (if status == BadImplementation then env' == env.(events := env'.events)
        else
          && env'.cmd == (if r.valid.cmd then r.data.cmd else env.cmd)
          && env'.cmdKey == (if !r.valid.cmd || env.cmd == r.data.cmd then env.cmdKey else if env'.cmd then r.cmdKey else 0)
          && env'.maxPacket == (if r.valid.maxPacket then r.data.maxPacket else env.maxPacket)
          && env'.packetSize == (if env'.maxPacket == env.maxPacket || TooSmall(env, r) then env.packetSize
                                 else if env'.maxPacket then r.packetSize else ANY_PACKET_SIZE))
  }

  lemma OddMeans(env: Env, r: Config)
    ensures r.valid.event && Odd(env.events, r.events, r.data.event, CORE_EVENTS) <==> AsksTooMuch(env, r)
  {}

  lemma ChosenMeans(flags: set<nat>, mask: set<nat>, want: bool, size: nat)
    ensures FlagsSet(flags, Chosen(flags, mask, want, size), mask, want, size)
  {}

  lemma ConfiguredMeans(env: Env, r: Config)
    ensures ConfigDone(env, r, Configured(env, r), ConfigStatus(env, r))
  {
    OddMeans(env, r);
    ChosenMeans(env.events, r.events, r.data.event, CORE_EVENTS);
    ChosenMeans(env.requests, r.requests, r.data.request, REQUESTS);
    hide Odd, AsksTooMuch, Chosen, FlagsSet;
  }

  /** The request with which XETrapReset clears everything. */
  function Clearing(): Config {
    Config(Bits(true, true, true, true), Bits(false, false, false, false),
           Range(0, REQUESTS), Range(0, CORE_EVENTS), 0, 0)
  }

  function Cleared(env: Env): Env {
    Configured(env, Clearing()).(packetSize := ANY_PACKET_SIZE)
  }

  /**
    * A reset always clears the event flags. It clears the request flags unless one of the event flags was of
    * an event that no device has: then it gives up before.
    */
  lemma ClearedIff(env: Env)
    requires EnvOk(env)
    ensures Cleared(env).events == {}
    ensures Cleared(env).requests == if env.events <= DeviceEvents() then {} else env.requests
    ensures Cleared(env).packetSize == ANY_PACKET_SIZE
    ensures env.events <= DeviceEvents() ==> !Cleared(env).cmd && !Cleared(env).maxPacket && (env.cmd ==> Cleared(env).cmdKey == 0)
  {
    if !(env.events <= DeviceEvents()) {
      var i :| i in env.events && i !in DeviceEvents();
      assert i in Clearing().events && i < CORE_EVENTS;
      assert EventStatus(env, Clearing()) == BadImplementation;
    }
  }

  /** Clients that ask for device events only keep to device events. */
  lemma StaysWithDevices(env: Env, r: Config)
    requires env.events <= DeviceEvents()
    requires r.valid.event && r.data.event ==> r.events <= DeviceEvents()
    ensures Configured(env, r).events <= DeviceEvents()
    ensures EventStatus(env, r) == Success || !r.data.event
  {}

  // ---------- Who wants what ----------

  type Clients = map<nat, Env>

  ghost predicate AllOk(clients: Clients) {
    forall c | c in clients :: EnvOk(clients[c])
  }

  ghost function Wanting(clients: Clients, kind: Kind, i: nat): set<nat> {
    set c | c in clients && i in Flags(clients[c], kind)
  }

  /** The flags differ in that one. */
  ghost predicate OnlyFlag(a: Env, b: Env, kind: Kind, i: nat) {
    && (i in Flags(a, kind)) != (i in Flags(b, kind))
    && forall k, j | k != kind || j != i :: j in Flags(a, k) <==> j in Flags(b, k)
  }

  /** A flag that changes makes its client one more, or one less, that wants the entry. */
  lemma OneChanges(clients: Clients, c: nat, env: Env, kind: Kind, i: nat)
    requires c in clients && OnlyFlag(env, clients[c], kind, i)
    ensures |Wanting(clients[c := env], kind, i)| == |Wanting(clients, kind, i)| + if i in Flags(env, kind) then 1 else -1
    ensures forall k, j | k != kind || j != i :: Wanting(clients[c := env], k, j) == Wanting(clients, k, j)
  {
    var before, after := Wanting(clients, kind, i), Wanting(clients[c := env], kind, i);
    if i in Flags(env, kind) {
      assert after == before + {c};
    } else {
      assert before == after + {c};
    }
    forall k, j | k != kind || j != i
      ensures Wanting(clients[c := env], k, j) == Wanting(clients, k, j)
    {
      assert j in Flags(env, k) <==> j in Flags(clients[c], k);
    }
  }

  // ---------- The tables ----------

  /** The table that the server dispatches by, the one with the procedures put aside, and how many clients want entry i. */
  class Vector {
    const kind: Kind
    const proc: array<Proc>
    const trap: array<Proc>
    const count: array<int>

    /** Entry i is trapped exactly if someone wants it: then the server's own procedure is the one put aside. */
    ghost predicate EntryOk(i: nat, wanted: int)
      reads this, proc, trap, count
      requires i < proc.Length == trap.Length == count.Length
    {
      && count[i] == wanted
      && (proc[i], trap[i]) == if wanted > 0 then (Hook(kind, i), Real(kind, i)) else (Real(kind, i), Hook(kind, i))
    }

    ghost predicate Valid(wanted: seq<int>)
      reads this, proc, trap, count
    {
      && proc.Length == trap.Length == count.Length == |wanted| == Size(kind) && proc != trap
      && forall i: nat | i < Size(kind) :: EntryOk(i, wanted[i])
    }

    constructor (kind: Kind)
      ensures this.kind == kind && Valid(seq(Size(kind), i => 0))
      ensures fresh(proc) && fresh(trap) && fresh(count)
    {
      this.kind := kind;
      var size := Size(kind);
      proc := new Proc[size](i requires i >= 0 => Real(kind, i));
      trap := new Proc[size](i requires i >= 0 => Hook(kind, i));
      count := new int[size](i => 0);
    }

    /** One more client wants entry i, or one less: the procedures change places with the first and with the last. */
    method Change(i: nat, want: bool, ghost wanted: seq<int>)
      requires Valid(wanted) && i < |wanted| && wanted[i] >= (if want then 0 else 1)
      modifies proc, trap, count
      ensures Valid(wanted[i := if want then wanted[i] + 1 else wanted[i] - 1])
    {
      assert EntryOk(i, wanted[i]);
      if want {
        count[i] := count[i] + 1;
        if count[i] <= 1 {
          proc[i], trap[i] := trap[i], proc[i];
        }
      } else {
        count[i] := count[i] - 1;
        if count[i] <= 0 {
          proc[i], trap[i] := trap[i], proc[i];
        }
      }
      assert EntryOk(i, if want then wanted[i] + 1 else wanted[i] - 1);
      forall j: nat | j < Size(kind) && j != i
        ensures EntryOk(j, wanted[j])
      {
        assert old(EntryOk(j, wanted[j]));
      }
    }

    /** Dispatching entry i gets to the server's own procedure, through the hook if that is in its place. */
    method Dispatch(i: nat, ghost wanted: seq<int>) returns (called: seq<Proc>)
      requires Valid(wanted) && i < |wanted|
      ensures called == if wanted[i] > 0 then [Hook(kind, i), Real(kind, i)] else [Real(kind, i)]
    {
      assert EntryOk(i, wanted[i]);
      called := [proc[i]];
      if proc[i].Hook? {
        called := called + [trap[i]];
      }
    }
  }

  ghost function Interest(clients: Clients, leaked: multiset<nat>, kind: Kind): (r: seq<int>)
    ensures |r| == Size(kind)
  {
    seq(Size(kind), i requires 0 <= i => |Wanting(clients, kind, i)| + if kind.Requests? then leaked[i] else 0)
  }

  function WithFlags(env: Env, kind: Kind, flags: set<nat>): Env {
    if kind.Requests? then env.(requests := flags) else env.(events := flags)
  }

  function Toggled(env: Env, kind: Kind, i: nat, want: bool): Env {
    WithFlags(env, kind, if want then Flags(env, kind) + {i} else Flags(env, kind) - {i})
  }

  const NEW_ENV: Env := Env({}, {}, false, 0, false, 0)

  /** The request flags of a departing client that stay counted: all, if it had flagged an event that no device has. */
  function LeftBehind(env: Env): multiset<nat> {
    if env.events <= DeviceEvents() then multiset{} else multiset(env.requests)
  }

  /** The events have no say in the packet size. */
  lemma PacketStatusIs(env: Env, r: Config)
    ensures PacketStatus(AfterEvents(env, r), r) == PacketStatus(env, r)
  {}

  lemma SelfUpdate(clients: Clients, c: nat)
    requires c in clients
    ensures clients[c := clients[c]] == clients
  {}

  lemma SameInterest(clients: Clients, leaked: multiset<nat>, c: nat, env: Env, kind: Kind)
    requires c in clients && Flags(env, kind) == Flags(clients[c], kind)
    ensures Interest(clients[c := env], leaked, kind) == Interest(clients, leaked, kind)
  {
    forall i
      ensures Wanting(clients[c := env], kind, i) == Wanting(clients, kind, i)
    {}
  }

  lemma NewInterest(clients: Clients, leaked: multiset<nat>, c: nat, kind: Kind)
    requires c !in clients
    ensures Interest(clients[c := NEW_ENV], leaked, kind) == Interest(clients, leaked, kind)
  {
    forall i
      ensures Wanting(clients[c := NEW_ENV], kind, i) == Wanting(clients, kind, i)
    {}
  }

  lemma GoneInterest(clients: Clients, leaked: multiset<nat>, c: nat)
    requires c in clients && clients[c].events == {}
    ensures Interest(clients - {c}, leaked + multiset(clients[c].requests), Requests) == Interest(clients, leaked, Requests)
    ensures Interest(clients - {c}, leaked + multiset(clients[c].requests), Events) == Interest(clients, leaked, Events)
  {
    forall k, i
      ensures |Wanting(clients, k, i)| == |Wanting(clients - {c}, k, i)| + if i in Flags(clients[c], k) then 1 else 0
    {
      assert Wanting(clients - {c}, k, i) == Wanting(clients, k, i) - {c};
    }
  }

  lemma ToggledOk(clients: Clients, c: nat, kind: Kind, i: nat, want: bool)
    requires AllOk(clients) && c in clients && i < Size(kind)
    ensures AllOk(clients[c := Toggled(clients[c], kind, i, want)])
  {
    assert EnvOk(clients[c]);
  }

  lemma NothingChosen(clients: Clients, c: nat, kind: Kind, mask: set<nat>, want: bool)
    requires c in clients
    ensures clients == clients[c := WithFlags(clients[c], kind, Chosen(Flags(clients[c], kind), mask, want, 0))]
    ensures !Odd(Flags(clients[c], kind), mask, want, 0)
  {
    assert Chosen(Flags(clients[c], kind), mask, want, 0) == Flags(clients[c], kind);
  }

  /** One flag more has been looked at. */
  lemma OneMore(before: Clients, c: nat, kind: Kind, mask: set<nat>, want: bool, i: nat)
    requires c in before
    ensures var flags := Flags(before[c], kind);
            var now := before[c := WithFlags(before[c], kind, Chosen(flags, mask, want, i))];
            var changes := i in mask && want != (i in Flags(now[c], kind));
            && before[c := WithFlags(before[c], kind, Chosen(flags, mask, want, i + 1))]
               == (if changes then now[c := Toggled(now[c], kind, i, want)] else now)
            && (Odd(flags, mask, want, i + 1) <==> Odd(flags, mask, want, i) || (changes && i !in DeviceEvents()))
  {
    var flags := Flags(before[c], kind);
    var chosen := Chosen(flags, mask, want, i);
    assert i in chosen <==> i in flags;
    assert Chosen(flags, mask, want, i + 1) == if i !in mask then chosen else if want then chosen + {i} else chosen - {i};
    if i in mask && want == (i in flags) {
      assert chosen == if want then chosen + {i} else chosen - {i};
    }
  }

  /** A flag that changes is one change to the table, and leaves the other table alone. */
  lemma FlagChanges(clients: Clients, leaked: multiset<nat>, c: nat, kind: Kind, i: nat, want: bool)
    requires c in clients && i < Size(kind) && want != (i in Flags(clients[c], kind))
    ensures var after := clients[c := Toggled(clients[c], kind, i, want)];
            var wanted := Interest(clients, leaked, kind);
            && Interest(after, leaked, kind) == wanted[i := if want then wanted[i] + 1 else wanted[i] - 1]
            && (forall k | k != kind :: Interest(after, leaked, k) == Interest(clients, leaked, k))
            && wanted[i] >= (if want then 0 else 1)
  {
    var env := Toggled(clients[c], kind, i, want);
    OneChanges(clients, c, env, kind, i);
    assert !want ==> c in Wanting(clients, kind, i);
  }

  lemma NobodyWants(kind: Kind)
    ensures Interest(map[], multiset{}, kind) == seq(Size(kind), i => 0)
  {
    forall i: nat | i < Size(kind)
      ensures Interest(map[], multiset{}, kind)[i] == 0
    {
      assert Wanting(map[], kind, i) == {};
    }
  }

  /** Query stands for the requests that change no flag. */
  datatype Op = Query(c: nat) | Configure(c: nat, r: Config) | Clear(c: nat) | Depart(c: nat)

  datatype State = State(clients: Clients, leaked: multiset<nat>)

  function Known(clients: Clients, c: nat): (r: Clients)
    ensures c in r
  {
    if c in clients then clients else clients[c := Cleared(NEW_ENV)]
  }

  function Step(s: State, op: Op): State {
    match op
    case Query(c) => s.(clients := Known(s.clients, c))
    case Configure(c, r) => var known := Known(s.clients, c); s.(clients := known[c := Configured(known[c], r)])
    case Clear(c) => var known := Known(s.clients, c); s.(clients := known[c := Cleared(known[c])])
    case Depart(c) =>
      if c in s.clients then State(s.clients - {c}, s.leaked + LeftBehind(s.clients[c])) else s
  }

  class Trap {
    var clients: Clients
    const requests: Vector
    const events: Vector
    // flags that departed clients have left behind, one for each client and request
    ghost var leaked: multiset<nat>

    ghost predicate Separate()
      reads this, requests, events
    {
      && requests != events
      && requests.count != events.count
      && requests.proc != events.proc && requests.proc != events.trap
      && requests.trap != events.proc && requests.trap != events.trap
    }

    ghost predicate Valid()
      reads this, requests, requests.proc, requests.trap, requests.count, events, events.proc, events.trap, events.count
    {
      && requests.kind == Requests && events.kind == Events && Separate()
      && AllOk(clients)
      && requests.Valid(Interest(clients, leaked, Requests))
      && events.Valid(Interest(clients, leaked, Events))
    }

    constructor ()
      ensures Valid() && clients == map[] && leaked == multiset{}
    {
      clients, leaked := map[], multiset{};
      requests := new Vector(Requests);
      events := new Vector(Events);
      new;
      NobodyWants(Requests);
      NobodyWants(Events);
    }

    function Of(kind: Kind): Vector
      reads this
    {
      if kind.Requests? then requests else events
    }

    /** One flag of client c changes: it is counted, and the procedures change places if need be. */
    method ChangeFlag(kind: Kind, c: nat, i: nat, want: bool)
      requires Valid() && c in clients && i < Size(kind) && want != (i in Flags(clients[c], kind))
      modifies `clients, Of(kind).proc, Of(kind).trap, Of(kind).count
      ensures Valid()
      ensures clients == old(clients)[c := Toggled(old(clients)[c], kind, i, want)]
    {
      FlagChanges(clients, leaked, c, kind, i, want);
      ToggledOk(clients, c, kind, i, want);
      hide Interest, Toggled, AllOk, Flags;
      Of(kind).Change(i, want, Interest(clients, leaked, kind));
      clients := clients[c := Toggled(clients[c], kind, i, want)];
    }

    /**
      * The loops of XETrapConfig over the events and over the requests. `odd` tells that a flag has changed
      * that is not one of a device's events.
      */
    method ChangeFlags(kind: Kind, c: nat, mask: set<nat>, want: bool) returns (odd: bool)
      requires Valid() && c in clients
      modifies `clients, Of(kind).proc, Of(kind).trap, Of(kind).count
      ensures Valid()
      ensures clients == old(clients)[c := WithFlags(old(clients)[c], kind, Chosen(Flags(old(clients)[c], kind), mask, want, Size(kind)))]
      ensures odd <==> Odd(Flags(old(clients)[c], kind), mask, want, Size(kind))
    {
      hide Valid, Chosen, Odd, Toggled;
      ghost var before := clients;
      odd := false;
      NothingChosen(clients, c, kind, mask, want);
      for i: int := 0 to Size(kind)
        invariant Valid()
        invariant c in before && clients == before[c := WithFlags(before[c], kind, Chosen(Flags(before[c], kind), mask, want, i))]
        invariant odd <==> Odd(Flags(before[c], kind), mask, want, i)
      {
        OneMore(before, c, kind, mask, want, i);
        if i in mask && want != (i in Flags(clients[c], kind)) {
          ChangeFlag(kind, c, i, want);
          odd := odd || i !in DeviceEvents();
        }
      }
    }

    lemma OfKind()
      ensures Of(Requests) == requests && Of(Events) == events
    {}

    /** What else there is to a client can change without the tables. */
    method SetEnv(c: nat, env: Env)
      requires Valid() && c in clients && env.requests == clients[c].requests && env.events == clients[c].events
      modifies `clients
      ensures Valid() && clients == old(clients)[c := env]
    {
      SameInterest(clients, leaked, c, env, Requests);
      SameInterest(clients, leaked, c, env, Events);
      clients := clients[c := env];
    }

    method ConfigCmdAndPacket(c: nat, r: Config) returns (status: Status)
      requires Valid() && c in clients
      modifies `clients
      ensures Valid()
      ensures status == PacketStatus(old(clients)[c], r)
      ensures clients == old(clients)[c := AfterPacket(AfterCmd(old(clients)[c], r), r)]
    {
      hide Valid;
      status := Success;
      var env := clients[c];
      if r.valid.cmd && env.cmd != r.data.cmd {
        env := env.(cmd := r.data.cmd, cmdKey := if r.data.cmd then r.cmdKey else 0);
      }
      if r.valid.maxPacket && env.maxPacket != r.data.maxPacket {
        env := env.(maxPacket := r.data.maxPacket);
        if !r.data.maxPacket {
          env := env.(packetSize := ANY_PACKET_SIZE);
        } else if r.packetSize < MIN_PACKET_SIZE {
          status := BadValue;
        } else {
          env := env.(packetSize := r.packetSize);
        }
      }
      SetEnv(c, env);
    }

    method ConfigEvents(c: nat, r: Config) returns (status: Status)
      requires Valid() && c in clients
      modifies `clients, events.proc, events.trap, events.count
      ensures Valid()
      ensures status == EventStatus(old(clients)[c], r)
      ensures clients == old(clients)[c := AfterEvents(old(clients)[c], r)]
    {
      status := Success;
      SelfUpdate(clients, c);
      if r.valid.event {
        assert Of(Events) == events by { OfKind(); }
        var odd := ChangeFlags(Events, c, r.events, r.data.event);
        if odd {
          status := BadImplementation;
        }
      }
    }

    method ConfigRequests(c: nat, r: Config)
      requires Valid() && c in clients
      modifies `clients, requests.proc, requests.trap, requests.count
      ensures Valid()
      ensures clients == old(clients)[c := AfterRequests(old(clients)[c], r)]
    {
      SelfUpdate(clients, c);
      if r.valid.request {
        assert Of(Requests) == requests by { OfKind(); }
        var _ := ChangeFlags(Requests, c, r.requests, r.data.request);
      }
    }

    /** XETrapConfig. */
    method Config(c: nat, r: Config) returns (status: Status)
      requires Valid() && c in clients
      modifies `clients, requests.proc, requests.trap, requests.count, events.proc, events.trap, events.count
      ensures Valid()
      ensures status == ConfigStatus(old(clients)[c], r)
      ensures clients == old(clients)[c := Configured(old(clients)[c], r)]
      ensures ConfigDone(old(clients)[c], r, clients[c], status)
    {
      ConfiguredMeans(clients[c], r);
      hide ConfigDone, Valid, EventStatus, PacketStatus, AfterEvents, AfterCmd, AfterPacket, AfterRequests;
      PacketStatusIs(clients[c], r);
      status := ConfigEvents(c, r);
      if status == Success {
        status := ConfigCmdAndPacket(c, r);
      }
      if status == Success {
        ConfigRequests(c, r);
      }
    }

    /** XETrapReset. */
    method Reset(c: nat) returns (status: Status)
      requires Valid() && c in clients
      modifies `clients, requests.proc, requests.trap, requests.count, events.proc, events.trap, events.count
      ensures Valid()
      ensures clients == old(clients)[c := Cleared(old(clients)[c])]
      ensures clients[c].events == {} && clients[c].packetSize == ANY_PACKET_SIZE
      ensures clients[c].requests == if old(clients)[c].events <= DeviceEvents() then {} else old(clients)[c].requests
    {
      ClearedIff(clients[c]);
      status := Config(c, Clearing());
      SetEnv(c, clients[c].(packetSize := ANY_PACKET_SIZE));
    }

    /** XETrapCreateEnv. */
    method CreateEnv(c: nat) returns (status: Status)
      requires Valid() && c !in clients
      modifies `clients, requests.proc, requests.trap, requests.count, events.proc, events.trap, events.count
      ensures Valid()
      ensures clients == old(clients)[c := Cleared(NEW_ENV)]
    {
      NewInterest(clients, leaked, c, Requests);
      NewInterest(clients, leaked, c, Events);
      clients := clients[c := NEW_ENV];
      status := Reset(c);
    }

    /** XETrapDestroyEnv: whatever flags a reset does not clear stay counted. */
    method DestroyEnv(c: nat)
      requires Valid() && c in clients
      modifies `clients, `leaked, requests.proc, requests.trap, requests.count, events.proc, events.trap, events.count
      ensures Valid()
      ensures clients == old(clients) - {c}
      ensures leaked == old(leaked) + LeftBehind(old(clients)[c])
    {
      ClearedIff(clients[c]);
      var _ := Reset(c);
      GoneInterest(clients, leaked, c);
      leaked := leaked + multiset(clients[c].requests);
      clients := clients - {c};
    }

    /** A request of a client, or its departure; a client that has not been seen before is taken in first. */
    method Perform(op: Op)
      requires Valid()
      modifies `clients, `leaked, requests.proc, requests.trap, requests.count, events.proc, events.trap, events.count
      ensures Valid()
      ensures State(clients, leaked) == Step(old(State(clients, leaked)), op)
    {
      hide Valid, Cleared, Configured, LeftBehind;
      if op.Depart? {
        if op.c in clients {
          DestroyEnv(op.c);
        }
        return;
      }
      if op.c !in clients {
        var _ := CreateEnv(op.c);
      }
      match op {
        case Configure(c, r) => var _ := Config(c, r);
        case Clear(c) => var _ := Reset(c);
        case Query(_) =>
      }
    }

    /** A request is trapped exactly if a client has its flag or a departed one has left it behind, and can still be forwarded. */
    lemma TrappedIffWanted(i: nat)
      requires Valid() && i < REQUESTS
      ensures requests.proc[i] == Hook(Requests, i) <==> i in leaked || exists c | c in clients :: i in clients[c].requests
      ensures requests.proc[i] == Hook(Requests, i) ==> requests.trap[i] == Real(Requests, i)
      ensures requests.proc[i] != Hook(Requests, i) ==> requests.proc[i] == Real(Requests, i)
    {
      var wanting := Wanting(clients, Requests, i);
      assert requests.EntryOk(i, Interest(clients, leaked, Requests)[i]);
      if c :| c in clients && i in clients[c].requests {
        assert c in wanting;
      } else {
        assert wanting == {};
      }
      if |wanting| > 0 {
        var c :| c in wanting;
      }
    }

    /** The same for the events; no flag for an event is ever left behind. */
    lemma EventTrappedIffWanted(i: nat)
      requires Valid() && i < CORE_EVENTS
      ensures events.proc[i] == Hook(Events, i) <==> exists c | c in clients :: i in clients[c].events
      ensures events.proc[i] == Hook(Events, i) ==> events.trap[i] == Real(Events, i)
      ensures events.proc[i] != Hook(Events, i) ==> events.proc[i] == Real(Events, i)
    {
      var wanting := Wanting(clients, Events, i);
      assert events.EntryOk(i, Interest(clients, leaked, Events)[i]);
      if c :| c in clients && i in clients[c].events {
        assert c in wanting;
      } else {
        assert wanting == {};
      }
      if |wanting| > 0 {
        var c :| c in wanting;
      }
    }
  }

  // ---------- Runs ----------

  function Run(s: State, ops: seq<Op>): State
    decreases ops
  {
    if ops == [] then s else Run(Step(s, ops[0]), ops[1..])
  }

  /** It asks for no event that no device has. */
  predicate Modest(op: Op) {
    op.Configure? && op.r.valid.event && op.r.data.event ==> op.r.events <= DeviceEvents()
  }

  ghost predicate Clean(s: State) {
    s.leaked == multiset{} && forall c | c in s.clients :: s.clients[c].events <= DeviceEvents()
  }

  lemma ClearedEvents(env: Env)
    requires env.events <= DeviceEvents()
    ensures Cleared(env).events <= DeviceEvents()
  {
    StaysWithDevices(env, Clearing());
  }

  lemma StepStaysClean(s: State, op: Op)
    requires Clean(s) && Modest(op)
    ensures Clean(Step(s, op))
  {
    hide Configured, Cleared, DeviceEvents;
    ClearedEvents(NEW_ENV);
    if op.Configure? {
      StaysWithDevices(Known(s.clients, op.c)[op.c], op.r);
    } else if op.Clear? {
      ClearedEvents(Known(s.clients, op.c)[op.c]);
    }
  }

  /** Over any run of requests that ask for device events only, no departed client leaves a flag behind. */
  lemma {:induction false} NothingIsLeftBehind(s: State, ops: seq<Op>)
    requires Clean(s) && forall k | 0 <= k < |ops| :: Modest(ops[k])
    ensures Clean(Run(s, ops))
    decreases ops
  {
    if ops != [] {
      StepStaysClean(s, ops[0]);
      NothingIsLeftBehind(Step(s, ops[0]), ops[1..]);
    }
  }

  /** Asking for event 7 and for request 1 is enough to have request 1 trapped for good. */
  lemma DepartedClientStillTraps()
    ensures var event := Config(Bits(true, false, false, false), Bits(true, false, false, false), {}, {7}, 0, 0);
            var request := Config(Bits(false, true, false, false), Bits(false, true, false, false), {1}, {}, 0, 0);
            var asked := Step(Step(State(map[], multiset{}), Configure(0, event)), Configure(0, request));
            Step(asked, Depart(0)).clients == map[] && 1 in Step(asked, Depart(0)).leaked
  {
    var event := Config(Bits(true, false, false, false), Bits(true, false, false, false), {}, {7}, 0, 0);
    var request := Config(Bits(false, true, false, false), Bits(false, true, false, false), {1}, {}, 0, 0);
    ClearedIff(NEW_ENV);
    hide Cleared;
    var s1 := Step(State(map[], multiset{}), Configure(0, event));
    assert 7 in s1.clients[0].events;
    var s2 := Step(s1, Configure(0, request));
    assert 7 in s2.clients[0].events && 1 in s2.clients[0].requests;
    assert 7 !in DeviceEvents();
    assert Step(s2, Depart(0)).clients == map[];
  }
}

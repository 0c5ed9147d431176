/**
 The focus observer and its daemon as one state machine. What the desktop, the accessibility bus, the
 sockets and the clock answer is chosen freely at every step, so each contract holds for every run.
 */
module Daemon {
  import opened Common
  import opened Framing
  import opened Protocol
  import opened Verdicts
  import opened FramePump

  const MAX_CLIENTS: nat := 4

  /** The owner is a connected client. */
  ghost predicate OwnerLive(owner: Option<Owner>, clients: map<int, Client>) {
    owner.Some? ==> owner.value.fd in clients && clients[owner.value.fd].id == owner.value.id
  }

  /** What a readable descriptor turns out to offer. */
  datatype ReadEvent = Gone | WouldBlock | Data(bytes: Bytes)

  /** Identities are never reused, and only the owner among the connected clients ever got a focus reply. */
  ghost predicate IdsOk(clients: map<int, Client>, nextId: nat, owner: Option<Owner>, delivered: seq<Delivery>) {
    && (forall fd :: fd in clients ==> clients[fd].id < nextId)
    && (forall fd, gd :: fd in clients && gd in clients && fd != gd ==> clients[fd].id != clients[gd].id)
    && (forall d :: d in delivered ==> d.client < nextId)
    && forall d, fd :: d in delivered && fd in clients && clients[fd].id == d.client ==> owner == Some(Owner(fd, d.client))
  }

  lemma IdsShrink(clients: map<int, Client>, nextId: nat, owner: Option<Owner>, delivered: seq<Delivery>, fd: int)
    requires IdsOk(clients, nextId, owner, delivered)
    ensures IdsOk(clients - {fd}, nextId, if owner.Some? && owner.value.fd == fd then None else owner, delivered)
  {
  }

  lemma FirstService(clients: map<int, Client>, nextId: nat, fd: int, epoch: nat, delivered: seq<Delivery>, notices: set<Notice>)
    requires fd in clients && IdsOk(clients, nextId, None, delivered) && OwnedOk(epoch, None, delivered)
    ensures var owner := Some(Owner(fd, clients[fd].id));
      && IdsOk(clients, nextId, owner, delivered) && OwnedOk(epoch, owner, delivered) && ToldOk(epoch, owner, delivered, notices)
  {
  }

  lemma Served(clients: map<int, Client>, nextId: nat, owner: Owner, delivered: seq<Delivery>, d: Delivery)
    requires IdsOk(clients, nextId, Some(owner), delivered) && OwnerLive(Some(owner), clients) && d.client == owner.id
    ensures IdsOk(clients, nextId, Some(owner), delivered + [d])
  {
  }

  /** One frame more was answered, for client `id` and no other. */
  ghost predicate OneMore(before: map<nat, seq<Bytes>>, now: map<nat, seq<Bytes>>, id: nat) {
    && id in before && id in now && now == before[id := now[id]]
    && |now[id]| == |before[id]| + 1 && before[id] <= now[id]
  }

  /** Streams by client only grow at their end. */
  ghost predicate Appended<T(!new)>(before: map<nat, seq<T>>, now: map<nat, seq<T>>) {
    forall id :: id in before ==> id in now && before[id] <= now[id]
  }

  /** No two frames were answered. */
  ghost predicate OneAtMost(before: map<nat, seq<Bytes>>, now: map<nat, seq<Bytes>>) {
    forall a, b :: a in before && b in before && a in now && b in now ==>
      |now[a]| <= |before[a]| + 1 && (a != b && |now[a]| > |before[a]| ==> now[b] == before[b])
  }

  /** What a dispatch found before it answered a frame; `undisturbed` says that nothing refuses or interrupts the answer. */
  datatype Before = Before(epoch: nat, standing: Standing, owner: Option<Owner>, connected: set<int>, answered: map<nat, seq<Bytes>>,
                           replies: map<nat, seq<Reply>>, delivered: seq<Delivery>, undisturbed: bool)

  /** No client is new. */
  ghost predicate Fewer(before: map<int, Client>, now: map<int, Client>) {
    forall fd :: fd in now ==> fd in before && now[fd].id == before[fd].id
  }

  /** How one frame's answer ends. */
  datatype Answered = WellFormed | IllFormed | Escaped

  function FirstFrame(buffer: Bytes): Bytes {
    if NEWLINE in buffer then buffer[..FirstNewline(buffer)] else []
  }

  function AfterFirst(buffer: Bytes): Bytes {
    if NEWLINE in buffer then buffer[FirstNewline(buffer) + 1..] else buffer
  }

  class Daemon {
    // The observer: contract.py's fields.
    var epoch: nat
    var tracked: Option<Identity>
    var edges: Edges
    var hold: Option<Hold>
    var place: Option<Place>

    // The daemon: daemon.py's fields.
    var clients: map<int, Client>
    var owner: Option<Owner>
    var fieldBinding: Option<Binding>
    var fieldSubscription: Option<nat>
    var ancestorSubscriptions: seq<nat>
    var producer: Option<string>
    var watching: bool

    // The main loop's queue of idle callbacks, and the next identity a client gets.
    var idle: multiset<Callback>
    var nextClient: nat

    // The world: what is drawn, the time, the bus's live subscriptions and the registry's registrations.
    var visible: bool
    var clock: real
    ghost var live: map<nat, (string, string)>
    var used: nat
    ghost var registered: set<(string, string)>
    const policy: Policy
    const decode: Bytes -> Decoded
    /** Every client takes at once what it is sent; otherwise `takes` says which of all documents are taken. */
    const obliging: bool
    const takes: nat -> bool
    var sends: nat

    // History: focus replies that reached a client, all replies by client, the invalidations, the bytes received and
    // frames answered by client, and where the caret line came from.
    ghost var delivered: seq<Delivery>
    ghost var replies: map<nat, seq<Reply>>
    ghost var notices: set<Notice>
    ghost var received: map<nat, Bytes>
    ghost var answered: map<nat, seq<Bytes>>
    ghost var origin: Origin

    constructor (rules: Policy, json: Bytes -> Decoded, prompt: bool, sockets: nat -> bool)
      ensures Valid() && Accounts() && epoch == 1 && tracked.None? && clients == map[] && owner.None? && delivered == [] && replies == map[]
      ensures fieldBinding.None? && policy == rules && decode == json && obliging == prompt && takes == sockets
      ensures edges == NO_EDGES && hold.None? && !visible && !watching && live == map[] && registered == {}
    {
      epoch, tracked, edges, hold, place := 1, None, NO_EDGES, None, None;
      clients, owner, fieldBinding, fieldSubscription, ancestorSubscriptions := map[], None, None, None, [];
      producer, watching, idle, nextClient, visible, clock := None, false, multiset{}, 0, false, 0.0;
      live, used, registered, policy, decode, obliging := map[], 0, {}, rules, json, prompt;
      takes, sends := sockets, 0;
      delivered, replies, notices, received, answered, origin := [], map[], {}, map[], map[], Origin(1, false, false);
    }

    // -------------------------------------------------------------- invariants

    /** The bus and the registry agree with the daemon's fields. */
    ghost predicate Ledger()
      reads this
    {
      && SubscriptionsOk(live, used, fieldSubscription, ancestorSubscriptions)
      && ArmedOk(live, fieldSubscription, ancestorSubscriptions, fieldBinding, producer)
      && registered == Registrations(producer)
    }

    /** What holds even while an operation is being carried out. */
    ghost predicate Steady()
      reads this
    {
      && Ledger()
      && BoundOk(epoch, tracked, hold, fieldBinding, clock)
      && LogOk(epoch, tracked, delivered, policy)
      && OwnerLive(owner, clients) && IdsOk(clients, nextClient, owner, delivered)
      && CaretLineOk(edges, origin, epoch)
      && (visible ==> hold.Some?)
    }

    /** Replies of the current epoch went to the owner, who has been told of the epoch if it holds older ones. */
    ghost predicate Owned()
      reads this
    {
      OwnedOk(epoch, owner, delivered) && ToldOk(epoch, owner, delivered, notices)
    }

    /** What holds whenever no operation failed half-way. */
    ghost predicate Sound()
      reads this
    {
      Untold() && ToldOk(epoch, owner, delivered, notices)
    }

    /** The same while the owner has still to be told of a new epoch. */
    ghost predicate Untold()
      reads this
    {
      && Steady() && OwnedOk(epoch, owner, delivered)
      && (fieldBinding.Some? ==> fieldSubscription.Some?)
    }

    /** What one dispatch relies on besides the frame pump: a held preview is being watched. */
    ghost predicate Working()
      reads this
    {
      Sound() && (hold.Some? ==> watching) && |clients| <= MAX_CLIENTS
    }

    /** What holds between dispatches. */
    ghost predicate Valid()
      reads this
    {
      && Working() && PumpOk(clients, {}, idle, received, answered, nextClient, decode)
    }

    /** No preview, no held preview, no subscription and no verified caret line. */
    ghost predicate Withdrawn()
      reads this
    {
      && !visible && hold.None? && edges == NO_EDGES
      && fieldBinding.None? && fieldSubscription.None? && ancestorSubscriptions == [] && live == map[]
    }

    /** An operation may raise the epoch and lose the owner, which then is disconnected; nothing else about clients. */
    twostate predicate Advanced()
      reads this
    {
      Progressed() && unchanged(`replies)
    }

    /** The same when something is sent to a client. */
    twostate predicate Progressed()
      reads this
    {
      Lost() && (obliging ==> clients == old(clients) && owner == old(owner))
    }

    /** The same when a client is closed for another reason. */
    twostate predicate Lost()
      reads this
    {
      && old(epoch) <= epoch && Shrunk(old(clients), clients)
      && (owner == old(owner) || (owner.None? && old(epoch) < epoch))
      && (old(owner).Some? && owner.None? ==> old(owner).value.fd !in clients)
      && old(notices) <= notices
      && (owner.Some? && old(epoch) < epoch ==> Notice(owner.value.id, epoch) in notices)
      && (epoch == old(epoch) && old(tracked).Some? ==> tracked == old(tracked))
      && unchanged(`idle, `nextClient, `received, `answered, `delivered)
      && old(clock) <= clock
    }

    /** What the answers to requests depend on. */
    ghost function Stands(): Standing
      reads this`epoch, this`tracked, this`fieldBinding, this`producer
    {
      Standing(epoch, tracked, fieldBinding, producer, policy)
    }

    /** Nothing but the tracked field may have changed. */
    twostate predicate Quiet()
      reads this
    {
      unchanged(`epoch, `edges, `hold, `visible, `fieldBinding, `fieldSubscription, `ancestorSubscriptions, `live, `used,
                `clients, `owner, `origin, `delivered)
    }

    // -------------------------------------------------------------- subscriptions and registrations

    /** End one live subscription; it must be live, so none is ever ended twice. */
    method Unsubscribe(subscription: nat)
      requires subscription in live
      modifies this`live
      ensures live == old(live) - {subscription}
    {
      live := live - {subscription};
    }

    /** One more live subscription under an identity never used before, unless the bus refuses it. */
    method Subscribe(bus: string, path: string, granted: bool) returns (r: Option<nat>)
      requires forall s :: s in live ==> s < used
      modifies this`live, this`used
      ensures r.Some? <==> granted
      ensures r.None? ==> live == old(live) && used == old(used)
      ensures r.Some? ==> r.value == old(used) && used == old(used) + 1 && live == old(live)[r.value := (bus, path)]
    {
      if !granted {
        return None;
      }
      r := Some(used);
      live := live[used := (bus, path)];
      used := used + 1;
    }

    method DisarmFieldEvents()
      requires Ledger()
      modifies this`live, this`ancestorSubscriptions, this`fieldSubscription, this`fieldBinding
      ensures Ledger() && live == map[]
      ensures fieldBinding.None? && fieldSubscription.None? && ancestorSubscriptions == []
    {
      hide ArmedOk, Subscriptions, Registrations;
      var ancestors := ancestorSubscriptions;
      assert ancestors[0..] == ancestors;
      for i := 0 to |ancestors|
        invariant unchanged(`ancestorSubscriptions, `fieldSubscription, `fieldBinding)
        invariant live.Keys == Subscriptions(fieldSubscription, ancestors[i..])
      {
        NextSubscription(fieldSubscription, ancestors, i);
        Unsubscribe(ancestors[i]);
      }
      assert ancestors[|ancestors|..] == [];
      NoSubscriptions(fieldSubscription);
      ancestorSubscriptions := [];
      if fieldSubscription.Some? {
        Unsubscribe(fieldSubscription.value);
        fieldSubscription := None;
      }
      fieldBinding := None;
      assert live.Keys == {};
      NoSubscriptions(None);
      NothingArmed(live, producer);
    }

    method WithdrawProducer()
      requires registered == Registrations(producer)
      modifies this`registered, this`producer
      ensures producer.None? && registered == Registrations(None)
    {
      if producer.Some? {
        for i := 0 to |FIELD_EVENTS|
          invariant unchanged(`producer)
          invariant registered == set e | e in FIELD_EVENTS[i..] :: (e, producer.value)
        {
          assert FIELD_EVENTS[i..] == [FIELD_EVENTS[i]] + FIELD_EVENTS[i + 1..];
          DistinctEvents();
          registered := registered - {(FIELD_EVENTS[i], producer.value)};
        }
        producer := None;
      }
    }

    /** All of the field events or none are registered with the application; `granted` is how many it would accept. */
    method RegisterProducer(bus: string, granted: nat) returns (registeredAll: bool)
      requires producer.None? && registered == Registrations(None)
      modifies this`registered, this`producer
      ensures registered == Registrations(producer)
      ensures producer == if registeredAll then Some(bus) else None
      ensures registeredAll <==> granted >= |FIELD_EVENTS|
    {
      for i := 0 to |FIELD_EVENTS|
        invariant producer.None?
        invariant registered == set e | e in FIELD_EVENTS[..i] :: (e, bus)
        invariant i <= granted
      {
        if i >= granted {
          DeregisterFirst(bus, i);
          return false;
        }
        assert FIELD_EVENTS[..i + 1] == FIELD_EVENTS[..i] + [FIELD_EVENTS[i]];
        registered := registered + {(FIELD_EVENTS[i], bus)};
      }
      assert FIELD_EVENTS[..|FIELD_EVENTS|] == FIELD_EVENTS;
      producer := Some(bus);
      return true;
    }

    /** Take back the first `n` registrations. */
    method DeregisterFirst(bus: string, n: nat)
      requires n <= |FIELD_EVENTS| && registered == set e | e in FIELD_EVENTS[..n] :: (e, bus)
      modifies this`registered
      ensures registered == {}
    {
      assert FIELD_EVENTS[0..n] == FIELD_EVENTS[..n];
      for j := 0 to n
        invariant registered == set e | e in FIELD_EVENTS[j..n] :: (e, bus)
      {
        assert FIELD_EVENTS[j..n] == [FIELD_EVENTS[j]] + FIELD_EVENTS[j + 1..n];
        DistinctEvents();
        registered := registered - {(FIELD_EVENTS[j], bus)};
      }
    }

    /**
     One subscription for the field itself and one for each scroll pane above it, and the full registration
     of its application. A bus that is closed denies; one that refuses part way leaves what it had granted,
     still on record. It succeeds exactly when the bus grants everything that is missing.
     */
    method ArmFieldEvents(binding: Binding, ancestors: seq<string>, bus: BusAnswer) returns (r: Outcome<()>)
      requires Ledger() && (fieldBinding.Some? ==> fieldSubscription.Some?)
      modifies this`live, this`used, this`ancestorSubscriptions, this`fieldSubscription, this`fieldBinding
      modifies this`registered, this`producer
      ensures Ledger() && fieldBinding in {None, Some(binding)}
      ensures old(fieldBinding) == Some(binding) ==> r == Got(()) && unchanged(this)
      ensures r.Got? ==> fieldBinding == Some(binding) && fieldSubscription.Some?
      ensures r.Refused? ==> r.reason == AccessibilityUnavailable && fieldBinding.None?
      ensures r.Got? && old(fieldBinding) != Some(binding) ==> Covers(live, binding, ancestors, |ancestors|)
      ensures r == ArmVerdict(old(Stands()), binding, ancestors, bus)
    {
      hide Registrations, Subscriptions, SubscriptionsOk, ArmedOk, Covers;
      if fieldBinding == Some(binding) {
        return Got(());
      }
      DisarmFieldEvents();
      if !bus.open {
        return Refused(AccessibilityUnavailable);
      }
      if producer != Some(binding.id.bus) {
        WithdrawProducer();
        var registeredAll := RegisterProducer(binding.id.bus, bus.registrations);
        NothingArmed(live, producer);
        if !registeredAll {
          return Raised;
        }
      }
      fieldBinding := Some(binding);
      var field := Subscribe(binding.id.bus, binding.id.path, bus.subscriptions > 0);
      if field.None? {
        ArmedWithoutSubscription(binding);
        return Raised;
      }
      fieldSubscription := field;
      FieldArmed(field.value, binding);
      assert live == map[field.value := (binding.id.bus, binding.id.path)];
      CoversField(field.value, binding, ancestors);
      var armed := ArmAncestors(binding, ancestors, bus);
      return if armed then Got(()) else Raised;
    }

    /** One subscription for each object above the armed field that is not the field itself. */
    method ArmAncestors(binding: Binding, ancestors: seq<string>, bus: BusAnswer) returns (armed: bool)
      requires Ledger() && fieldBinding == Some(binding) && fieldSubscription.Some? && producer == Some(binding.id.bus)
      requires ancestorSubscriptions == [] && Covers(live, binding, ancestors, 0) && bus.subscriptions > 0
      modifies this`live, this`used, this`ancestorSubscriptions
      ensures Ledger() && (armed ==> Covers(live, binding, ancestors, |ancestors|))
      ensures armed <==> bus.subscriptions > Panes(ancestors, binding.id.path)
    {
      hide Registrations, Subscriptions, SubscriptionsOk, ArmedOk, Covers, Panes;
      assert ancestors[..|ancestors|] == ancestors;
      NoPanes(binding.id.path);
      for i := 0 to |ancestors|
        invariant Ledger()
        invariant Covers(live, binding, ancestors, i) && |ancestorSubscriptions| == Panes(ancestors[..i], binding.id.path)
        invariant bus.subscriptions > |ancestorSubscriptions|
      {
        PanesGrow(ancestors, i, binding.id.path);
        CoversOwnPath(live, binding, ancestors, i);
        if ancestors[i] != binding.id.path {
          AncestorArmed(live, used, fieldSubscription.value, ancestorSubscriptions, binding, ancestors[i]);
          AllBelow(live, used, fieldSubscription, ancestorSubscriptions);
          CoversMore(live, used, binding, ancestors, i);
          var added := Subscribe(binding.id.bus, ancestors[i], bus.subscriptions > |ancestorSubscriptions| + 1);
          if added.None? {
            return false;
          }
          ancestorSubscriptions := ancestorSubscriptions + [added.value];
        }
      }
      return true;
    }

    // -------------------------------------------------------------- withdrawal, invalidation and clients

    /** Afterwards nothing is shown, held, subscribed to or known of the caret line. */
    method Withdraw()
      requires Ledger()
      modifies this`visible, this`edges, this`hold
      modifies this`live, this`ancestorSubscriptions, this`fieldSubscription, this`fieldBinding
      ensures Ledger() && Withdrawn()
    {
      visible := false;
      DisarmFieldEvents();
      edges, hold := NO_EDGES, None;
    }

    /**
     End the epoch: withdraw everything, forget the field and tell the owner. An owner that cannot be
     told is disconnected, which ends one more epoch; the recursion stops there.
     */
    method Invalidate()
      requires Steady()
      modifies this
      ensures Sound() && Withdrawn() && tracked.None?
      ensures old(epoch) < epoch && Advanced()
      ensures owner.Some? ==> epoch == old(epoch) + 1 && clients == old(clients)
      ensures old(owner).Some? && owner.None? ==> epoch == old(epoch) + 2 && clients == old(clients) - {old(owner).value.fd}
      ensures old(owner).None? ==> epoch == old(epoch) + 1 && clients == old(clients)
      ensures unchanged(`watching, `clock, `producer, `registered, `place)
      decreases owner.Some?, 3
    {
      hide Ledger, BoundOk, LogOk, OwnedOk, IdsOk, ToldOk, OwnerLive;
      EndEpoch();
      Broadcast();
    }

    method EndEpoch()
      requires Steady()
      modifies this`visible, this`edges, this`hold, this`epoch, this`tracked
      modifies this`live, this`ancestorSubscriptions, this`fieldSubscription, this`fieldBinding
      ensures Untold() && Withdrawn() && tracked.None? && epoch == old(epoch) + 1
    {
      hide SubscriptionsOk, ArmedOk, Registrations, BoundOk, LogOk, OwnedOk, IdsOk, ToldOk, OwnerLive;
      Withdraw();
      NewEpoch(epoch, tracked, owner, delivered, policy);
      NothingBound(epoch + 1, None, clock);
      epoch := epoch + 1;
      tracked := None;
    }

    /** Send the invalidation to the owner, if there is one. */
    method Broadcast()
      requires Untold() && Withdrawn() && tracked.None?
      modifies this
      ensures Sound() && Withdrawn() && tracked.None? && Advanced()
      ensures owner.Some? ==> Notice(owner.value.id, epoch) in notices
      ensures owner.Some? || old(owner).None? ==> epoch == old(epoch) && clients == old(clients)
      ensures old(owner).Some? && owner.None? ==> epoch == old(epoch) + 1 && clients == old(clients) - {old(owner).value.fd}
      ensures unchanged(`watching, `clock, `producer, `registered, `place)
      decreases owner.Some?, 2
    {
      hide Posted;
      if owner.Some? {
        var _ := Send(owner.value.fd, Invalidation, true);
      }
    }

    /** Whether the socket takes the next document at once. */
    method Attempt() returns (taken: bool)
      requires Untold()
      modifies this`sends
      ensures Untold() && sends == old(sends) + 1 && (taken <==> obliging || takes(old(sends)))
    {
      hide SubscriptionsOk, ArmedOk, Registrations, BoundOk, LogOk, OwnedOk, IdsOk, ToldOk, OwnerLive, CaretLineOk;
      sends := sends + 1;
      return obliging || takes(sends - 1);
    }

    /** What was sent to a client is on record. */
    ghost method Record(id: nat, document: Document)
      requires Untold()
      requires ToldOk(epoch, owner, delivered, notices) || (document.Invalidation? && owner.Some? && owner.value.id == id)
      modifies this`notices, this`replies
      ensures Sound()
      ensures if document.Invalidation? then notices == old(notices) + {Notice(id, epoch)} && unchanged(`replies)
              else unchanged(`notices) && replies == Posted(old(replies), id, [document.reply])
    {
      hide SubscriptionsOk, ArmedOk, Registrations, BoundOk, LogOk, OwnedOk, IdsOk, OwnerLive, CaretLineOk;
      match document
      case Invalidation =>
        notices := notices + {Notice(id, epoch)};
      case Response(reply) =>
        replies := Posted(replies, id, [reply]);
    }

    /**
     Send one document, and with it a reply on record. A client that cannot take it at once is disconnected; a
     document that cannot be encoded changes nothing, but ends in an exception.
     */
    method Send(fd: int, document: Document, encodable: bool) returns (r: Sending)
      requires Untold() && (document.Invalidation? ==> encodable)
      requires ToldOk(epoch, owner, delivered, notices) || (document.Invalidation? && owner.Some? && owner.value.fd == fd)
      modifies this
      ensures Sound() && Progressed()
      ensures r.Unencodable? <==> fd in old(clients) && !encodable
      ensures r.Unencodable? || fd !in old(clients) ==> unchanged(this)
      ensures r.Taken? ==> fd in clients && fd in old(clients)
      ensures r.Taken? <==> fd in old(clients) && encodable && (obliging || takes(old(sends)))
      ensures r.Taken? && document.Invalidation? ==> notices == old(notices) + {Notice(clients[fd].id, epoch)} && unchanged(`replies)
      ensures r.Taken? && document.Response? ==>
        unchanged(`notices) && replies == Posted(old(replies), clients[fd].id, [document.reply])
      ensures !r.Taken? ==> unchanged(`replies)
      ensures r.Taken? ==> unchanged(`epoch, `tracked, `owner, `hold, `visible, `edges, `fieldBinding, `fieldSubscription,
                                     `ancestorSubscriptions, `live, `clients, `used, `origin)
      ensures r.NotTaken? ==> fd !in clients && clients == old(clients) - {fd}
      ensures r.NotTaken? && old(owner).Some? && old(owner).value.fd == fd ==>
        owner.None? && epoch == old(epoch) + 1 && Withdrawn() && tracked.None?
      ensures !(old(owner).Some? && old(owner).value.fd == fd) ==>
        unchanged(`epoch, `tracked, `owner, `hold, `visible, `edges, `origin, `fieldBinding, `fieldSubscription,
                  `ancestorSubscriptions, `live)
      ensures unchanged(`watching, `clock, `producer, `registered, `place)
      decreases owner.Some?, 1
    {
      hide Ledger, BoundOk, LogOk, OwnedOk, IdsOk, ToldOk, CaretLineOk, Posted;
      if fd !in clients {
        assert clients - {fd} == clients;
        return NotTaken;
      }
      if !encodable {
        return Unencodable;
      }
      var taken := Attempt();
      if !taken {
        CloseClient(fd);
        return NotTaken;
      }
      Record(clients[fd].id, document);
      return Taken;
    }

    /** Disconnect a client; losing the owner ends the epoch. */
    method CloseClient(fd: int)
      requires Untold()
      requires ToldOk(epoch, owner, delivered, notices) || (owner.Some? && owner.value.fd == fd)
      modifies this
      ensures Sound() && Lost() && clients == old(clients) - {fd} && unchanged(`replies)
      ensures fd !in old(clients) ==> unchanged(this)
      ensures old(owner).Some? && old(owner).value.fd == fd ==>
        owner.None? && epoch == old(epoch) + 1 && Withdrawn() && tracked.None?
      ensures !(old(owner).Some? && old(owner).value.fd == fd) ==>
        unchanged(`epoch, `tracked, `owner, `hold, `visible, `edges, `origin, `fieldBinding, `fieldSubscription,
                  `ancestorSubscriptions, `live)
      ensures unchanged(`watching, `clock, `producer, `registered, `place)
      decreases owner.Some?, 0
    {
      hide SubscriptionsOk, ArmedOk, Registrations, BoundOk, LogOk, OwnedOk, IdsOk, ToldOk;
      if fd in clients {
        IdsShrink(clients, nextClient, owner, delivered, fd);
        clients := clients - {fd};
        if owner.Some? && owner.value.fd == fd {
          owner := None;
          Invalidate();
        }
      } else {
        assert clients - {fd} == clients;
      }
    }

    // -------------------------------------------------------------- one operation of the observer

    /** Invalidations that arrive while the backend is being asked. */
    method Interrupted(times: nat)
      requires Sound()
      modifies this
      ensures Sound() && Advanced()
      ensures times == 0 ==> unchanged(this)
      ensures times > 0 ==> old(epoch) < epoch && Withdrawn() && tracked.None?
      ensures unchanged(`watching, `clock, `producer, `registered, `place)
    {
      hide SubscriptionsOk, ArmedOk, Registrations, BoundOk, LogOk, OwnedOk, IdsOk, ToldOk, CaretLineOk;
      for i := 0 to times
        invariant Sound() && Advanced()
        invariant i == 0 ==> unchanged(this)
        invariant i > 0 ==> old(epoch) < epoch && Withdrawn() && tracked.None?
        invariant unchanged(`watching, `clock, `producer, `registered, `place)
      {
        Invalidate();
      }
    }

    /** The focused field's metadata for `app`, or the backend's own denial or failure. */
    method ReadField(app: string, a: FieldAnswer) returns (r: Outcome<Metadata>)
      requires Sound()
      modifies this
      ensures Sound() && Advanced()
      ensures a.interruptions == 0 ==> unchanged(this)
      ensures a.interruptions > 0 ==> old(epoch) < epoch && Withdrawn() && tracked.None?
      ensures unchanged(`watching, `clock, `producer, `registered, `place)
      ensures r == Named(app, a.read)
    {
      Interrupted(a.interruptions);
      match a.read
      case Got(metadata) => r := Got(metadata.(id := metadata.id.(app := app)));
      case _ => r := Failure(a.read);
    }

    /** Whether a focus with this binding and target may still be answered. */
    ghost predicate Fits(b: Binding, t: Target)
      reads this
    {
      FocusFits(b, t, epoch, tracked, delivered, policy)
    }

    /** The answer is an uninterrupted reading of exactly this field, which policy allows. */
    ghost predicate Finds(a: FieldAnswer, id: Identity)
      reads this`epoch
    {
      && a.interruptions == 0 && a.read.Got? && a.read.value.id.(app := id.app) == id
      && policy.TargetOf(Binding(epoch, id)).Some?
    }

    /** What is found becomes the tracked field, and its binding is of the epoch that is current then. */
    method Describe(app: string, a: FieldAnswer) returns (r: Outcome<Described>)
      requires Sound()
      modifies this
      ensures Sound() && Advanced()
      ensures unchanged(`watching, `clock, `producer, `registered, `place)
      ensures epoch == old(epoch) ==> Quiet()
      ensures r.Refused? ==> !Malformed(r.reason)
      ensures r.Got? ==> r.value.binding.epoch == epoch && tracked == Some(r.value.binding.id)
      ensures r.Got? ==> r.value.binding.id.app == app && Fits(r.value.binding, r.value.target)
      ensures r.Got? ==> r.value.binding.id == r.value.metadata.id && policy.TargetOf(r.value.binding) == Some(r.value.target)
      ensures r.Got? ==> a.read.Got? && r.value.metadata == a.read.value.(id := r.value.binding.id)
      ensures forall id: Identity :: (old(tracked).None? || old(tracked) == Some(id)) && id.app == app && old(Finds(a, id)) ==>
        r.Got? && epoch == old(epoch) && r.value.binding.id == id
      ensures r.Got? && epoch == old(epoch) ==>
        (old(tracked).None? || old(tracked) == Some(r.value.binding.id)) && old(Finds(a, r.value.binding.id))
      ensures r == Description(policy, epoch, app, a.read)
      ensures a.read.Got? ==> (epoch == old(epoch) <==> !Outdated(old(Stands()), a, a.read.value.id.(app := app)))
      ensures !a.read.Got? ==> (epoch == old(epoch) <==> a.interruptions == 0)
    {
      hide SubscriptionsOk, ArmedOk, Registrations, BoundOk, LogOk, OwnedOk, IdsOk, ToldOk, FocusFits, CaretLineOk;
      var read := ReadField(app, a);
      if !read.Got? {
        return Passed(read);
      }
      var key := read.value.id;
      if tracked.Some? && tracked.value != key {
        Invalidate();
      }
      FieldTracked(epoch, tracked, key, hold, fieldBinding, clock, delivered, policy);
      tracked := Some(key);
      var binding := Binding(epoch, key);
      var target := policy.TargetOf(binding);
      if target.None? {
        return Refused(UnsupportedOrigin);
      }
      return Got(Described(read.value, binding, target.value));
    }

    /** The answer finds the field of a request's binding and target, the only one tracked in this epoch. */
    ghost predicate StillBound(binding: Option<Binding>, target: Option<Target>, a: FieldAnswer)
      reads this`epoch, this`tracked
    {
      && binding.Some? && binding.value.epoch == epoch && ValidAppId(binding.value.id.app)
      && (tracked.None? || tracked == Some(binding.value.id))
      && Finds(a, binding.value.id) && target == policy.TargetOf(binding.value)
    }

    /** Success comes exactly when the request repeats the binding and target of what is found, in an epoch that did not end. */
    method BoundFocus(binding: Option<Binding>, target: Option<Target>, a: FieldAnswer) returns (r: Outcome<Described>)
      requires Sound()
      modifies this
      ensures Sound() && Advanced()
      ensures unchanged(`watching, `clock, `producer, `registered, `place)
      ensures epoch == old(epoch) ==> Quiet()
      ensures r.Refused? && Malformed(r.reason) ==> unchanged(this)
      ensures r == Refused(InvalidRequest) <==> MalformedBinding(binding, old(epoch))
      ensures r != Refused(InvalidPreview)
      ensures binding.Some? && binding.value.epoch != old(epoch) ==> r == Refused(StaleBinding) && unchanged(this)
      ensures r.Got? ==> binding == Some(r.value.binding) && target == Some(r.value.target)
      ensures r.Got? ==> epoch == old(epoch) == r.value.binding.epoch && tracked == Some(r.value.binding.id)
      ensures r.Got? ==> Fits(r.value.binding, r.value.target) && ValidAppId(r.value.binding.id.app)
      ensures r.Got? ==> a.read.Got? && r.value.metadata == a.read.value.(id := r.value.binding.id)
      ensures r.Got? <==> old(StillBound(binding, target, a))
      ensures r == BoundVerdict(old(Stands()), binding, target, a)
      ensures a.read.Got? ==> !r.Raised?
    {
      hide Ledger, BoundOk, LogOk, OwnedOk, IdsOk, ToldOk, FocusFits, ValidAppId, CaretLineOk;
      if binding.None? {
        return Refused(InvalidRequest);
      }
      if binding.value.epoch != epoch {
        return Refused(StaleBinding);
      }
      if !ValidAppId(binding.value.id.app) {
        return Refused(InvalidRequest);
      }
      r := Describe(binding.value.id.app, a);
      if r.Got? {
        if binding.value != r.value.binding {
          return Refused(StaleBinding);
        }
        if target != Some(r.value.target) {
          return Refused(TargetMismatch);
        }
      }
    }

    /** A binding for the focused field, in the epoch that is current once it is read. */
    method InspectField(app: string, a: FieldAnswer) returns (r: Outcome<Focus>)
      requires Sound()
      modifies this
      ensures Sound() && Advanced() && unchanged(`watching)
      ensures r.Refused? && Malformed(r.reason) ==> unchanged(this)
      ensures r == Refused(InvalidRequest) <==> !ValidAppId(app)
      ensures r != Refused(InvalidPreview)
      ensures r.Got? ==> Fits(r.value.binding, r.value.target) && old(epoch) <= r.value.binding.epoch
      ensures r.Got? ==> r.value.binding.id.app == app && !r.value.rendered && policy.TargetOf(r.value.binding) == Some(r.value.target)
      ensures forall id: Identity :: old(tracked).None? && ValidAppId(app) && id.app == app && old(Finds(a, id)) ==>
        r.Got? && epoch == old(epoch) && tracked == Some(id) && Quiet() && r.value.binding == Binding(epoch, id)
      ensures r == Inspection(policy, epoch, app, a)
    {
      hide Ledger, BoundOk, LogOk, OwnedOk, IdsOk, ToldOk, FocusFits, ValidAppId, CaretLineOk;
      if !ValidAppId(app) {
        return Refused(InvalidRequest);
      }
      var d := Describe(app, a);
      return if d.Got? then Got(Focus(d.value.binding, d.value.target, false)) else Passed(d);
    }

    /**
     The text read twice. An invalidation during the first read makes the binding stale; nothing asks about
     one that comes during the second.
     */
    method StableReads(binding: Binding, a: TextAnswer) returns (r: Outcome<()>)
      requires Sound() && epoch == binding.epoch
      modifies this
      ensures Sound() && Advanced() && unchanged(`watching)
      ensures r.Refused? ==> !Malformed(r.reason)
      ensures r == if !a.read.Got? then Failure(a.read) else if a.interruptions > 0 then Refused(StaleBinding)
                   else if !a.again.Got? then Failure(a.again) else Got(())
      ensures r.Got? ==> (epoch == old(epoch) <==> a.reread == 0)
      ensures r.Got? && a.reread == 0 ==> unchanged(this)
    {
      hide Ledger, BoundOk, LogOk, OwnedOk, IdsOk, ToldOk, CaretLineOk;
      Interrupted(a.interruptions);
      if !a.read.Got? {
        return Failure(a.read);
      }
      if epoch != binding.epoch {
        return Refused(StaleBinding);
      }
      Interrupted(a.reread);
      return if a.again.Got? then Got(()) else Failure(a.again);
    }

    method SetCaretLine(line: Edges, from: Origin)
      requires Sound() && CaretLineOk(line, from, epoch)
      modifies this`edges, this`origin
      ensures Sound() && edges == line && origin == from
    {
      hide SubscriptionsOk, ArmedOk, Registrations, BoundOk, LogOk, OwnedOk, IdsOk, ToldOk, OwnerLive, CaretLineOk;
      edges, origin := line, from;
    }

    /**
     Set the caret line from the text that was read. A rich editor's blocks are asked once more to serialize
     them. The line is of this epoch exactly when no invalidation came since the check for them: while the
     text was read again or, for a rich editor, while it was serialized.
     */
    method VerifyCaretLine(binding: Binding, rich: bool, window: bool, a: TextAnswer) returns (r: Outcome<()>)
      requires Sound() && binding.epoch <= epoch && (binding.epoch == epoch <==> a.reread == 0)
      modifies this
      ensures Sound() && Advanced() && unchanged(`watching)
      ensures r.Refused? ==> !Malformed(r.reason)
      ensures r == if rich && !a.serialized.Got? then Failure(a.serialized)
                   else if window && !a.words.Got? then Failure(a.words) else Got(())
      ensures r.Got? && (!window || a.afterwards == 0) ==> LineSet(binding, rich, a)
      ensures r.Got? && (!window || a.afterwards == 0) ==> (epoch == binding.epoch <==> !TooLate(a, rich))
      ensures r.Got? && window && a.afterwards > 0 ==> edges == NO_EDGES && old(epoch) < epoch
      ensures epoch == old(epoch) ==> unchanged(`fieldBinding, `tracked)
    {
      hide Ledger, BoundOk, LogOk, OwnedOk, IdsOk, ToldOk, OwnerLive;
      if rich {
        Interrupted(a.late);
        if !a.serialized.Got? {
          return Failure(a.serialized);
        }
      }
      SetCaretLine(EdgesOf(a.sides, rich, policy.blank), Origin(binding.epoch, rich, TooLate(a, rich)));
      if window {
        Interrupted(a.afterwards);
        if !a.words.Got? {
          return Failure(a.words);
        }
      }
      return Got(());
    }

    /** A selection is read again once its text is. */
    method VerifySelection(a: TextAnswer) returns (r: Outcome<()>)
      requires Sound()
      modifies this
      ensures Sound() && Advanced() && unchanged(`watching)
      ensures r.Refused? ==> !Malformed(r.reason)
      ensures r == if a.serialized.Got? then Got(()) else Failure(a.serialized)
      ensures epoch == old(epoch) <==> a.late == 0
      ensures a.late == 0 ==> unchanged(this)
    {
      Interrupted(a.late);
      return if a.serialized.Got? then Got(()) else Failure(a.serialized);
    }

    /** Arm the events of the field that is tracked in this epoch. */
    method ArmBound(d: Described, bus: BusAnswer) returns (r: Outcome<()>)
      requires Sound() && epoch == d.binding.epoch && tracked == Some(d.binding.id)
      modifies this`live, this`used, this`ancestorSubscriptions, this`fieldSubscription, this`fieldBinding
      modifies this`registered, this`producer
      ensures Steady() && Owned()
      ensures r.Refused? ==> !Malformed(r.reason)
      ensures r.Got? ==> Sound() && fieldBinding == Some(d.binding)
      ensures r == ArmVerdict(old(Stands()), d.binding, d.metadata.ancestors, bus)
    {
      hide SubscriptionsOk, ArmedOk, Registrations, LogOk, OwnedOk, IdsOk, ToldOk, CaretLineOk;
      r := ArmFieldEvents(d.binding, d.metadata.ancestors, bus);
    }

    /** The caret line was set for a field of this kind, in the epoch of `binding`. */
    ghost predicate LineSet(binding: Binding, rich: bool, a: TextAnswer)
      reads this`edges, this`origin
    {
      edges == EdgesOf(a.sides, rich, policy.blank) && origin == Origin(binding.epoch, rich, TooLate(a, rich))
    }

    /** Read a bound field's text once its events are armed. */
    method ReadBound(d: Described, window: bool, selection: bool, a: Answers) returns (r: Outcome<Focus>)
      requires Sound() && epoch == d.binding.epoch && tracked == Some(d.binding.id)
      modifies this
      ensures Steady() && Owned() && Advanced() && unchanged(`watching)
      ensures r.Refused? ==> !Malformed(r.reason)
      ensures r.Got? ==> Sound() && r.value == Focus(d.binding, d.target, false)
      ensures r.Got? && epoch == d.binding.epoch ==> fieldBinding == Some(d.binding)
      ensures r.Got? && !selection && (!window || a.text.afterwards == 0) ==> LineSet(d.binding, d.metadata.rich, a.text)
      ensures r.Got? && !selection && (!window || a.text.afterwards == 0) ==>
        (epoch == old(epoch) <==> !TooLate(a.text, d.metadata.rich))
      ensures r.Got? && selection && a.text.reread == 0 && a.text.late == 0 ==> unchanged(`edges, `origin)
      ensures var armed := ArmVerdict(old(Stands()), d.binding, d.metadata.ancestors, a.bus);
        var text := TextVerdict(d.metadata.rich, window, selection, a.text);
        r == if !armed.Got? then Passed(armed) else if text.Got? then Got(Focus(d.binding, d.target, false)) else Passed(text)
    {
      hide Ledger, BoundOk, LogOk, OwnedOk, IdsOk, ToldOk, OwnerLive, CaretLineOk, ArmVerdict, EdgesOf;
      var armed := ArmBound(d, a.bus);
      if !armed.Got? {
        return Passed(armed);
      }
      if selection && d.metadata.rich {
        return Refused(FieldDenied("unsupported_selection"));
      }
      var read := StableReads(d.binding, a.text);
      if !read.Got? {
        return Passed(read);
      }
      var verified: Outcome<()>;
      if selection {
        verified := VerifySelection(a.text);
      } else {
        verified := VerifyCaretLine(d.binding, d.metadata.rich, window, a.text);
      }
      if !verified.Got? {
        return Passed(verified);
      }
      return Got(Focus(d.binding, d.target, false));
    }

    /**
     Bounded text for a bound field: its events are armed, the text is read twice, and only then the caret
     line is set; it is of the binding's epoch exactly when no invalidation came too late to be noticed.
     */
    method SnapshotField(binding: Option<Binding>, target: Option<Target>, window: bool, selection: bool, a: Answers)
      returns (r: Outcome<Focus>)
      requires Sound()
      modifies this
      ensures Steady() && Owned() && Advanced() && unchanged(`watching)
      ensures r.Refused? && Malformed(r.reason) ==> unchanged(this)
      ensures r == Refused(InvalidRequest) <==> (selection && window) || MalformedBinding(binding, old(epoch))
      ensures r != Refused(InvalidPreview)
      ensures r.Got? ==> Sound() && Fits(r.value.binding, r.value.target) && r.value.binding.epoch == old(epoch)
      ensures r.Got? ==> binding == Some(r.value.binding) && target == Some(r.value.target) && !r.value.rendered
      ensures r.Got? && epoch == r.value.binding.epoch ==> fieldBinding == Some(r.value.binding)
      ensures r.Got? && !selection && (!window || a.text.afterwards == 0) ==>
        a.field.read.Got? && LineSet(r.value.binding, a.field.read.value.rich, a.text)
        && (epoch == old(epoch) <==> !TooLate(a.text, a.field.read.value.rich))
      ensures !selection && old(StillBound(binding, target, a.field)) && Forthcoming(a) ==> r.Got?
      ensures r == SnapshotVerdict(old(Stands()), binding, target, window, selection, a)
    {
      hide Ledger, BoundOk, LogOk, OwnedOk, IdsOk, ToldOk, ValidAppId, CaretLineOk, OwnerLive, BoundVerdict;
      if selection && window {
        return Refused(InvalidRequest);
      }
      var bound := BoundFocus(binding, target, a.field);
      if !bound.Got? {
        return Passed(bound);
      }
      r := ReadBound(bound.value, window, selection, a);
    }

    /** The time now, as the clock is read; never earlier than before. */
    method Monotonic(reading: real) returns (now: real)
      modifies this`clock
      ensures old(clock) <= clock == now && (reading >= old(clock) ==> now == reading)
    {
      clock := if reading > clock then reading else clock;
      now := clock;
    }

    /** Draw the preview, or leave nothing visible; invalidations may arrive meanwhile. */
    method Render(drawing: Drawing)
      requires Sound()
      modifies this
      ensures Advanced() && visible == drawing.drawn
      ensures epoch == old(epoch) <==> drawing.interruptions == 0
      ensures epoch == old(epoch) ==> unchanged(`tracked, `edges, `hold, `fieldBinding, `fieldSubscription,
                                                `ancestorSubscriptions, `live, `clients, `owner, `used, `origin)
      ensures !visible ==> Sound()
      ensures unchanged(`watching, `clock, `producer, `registered, `place)
      ensures Drawn()
    {
      hide SubscriptionsOk, ArmedOk, Registrations, LogOk, OwnedOk, IdsOk, ToldOk, BoundOk, OwnerLive;
      Interrupted(drawing.interruptions);
      visible := drawing.drawn;
    }

    /** What holds right after drawing, when a preview may be visible that is not held yet. */
    ghost predicate Drawn()
      reads this
    {
      && Ledger() && BoundOk(epoch, tracked, hold, fieldBinding, clock) && LogOk(epoch, tracked, delivered, policy)
      && OwnerLive(owner, clients) && IdsOk(clients, nextClient, owner, delivered) && Owned()
      && CaretLineOk(edges, origin, epoch) && (fieldBinding.Some? ==> fieldSubscription.Some?)
    }

    method DropDrawn()
      requires Drawn()
      modifies this`visible, this`hold
      ensures Sound() && !visible && hold.None?
    {
      hide SubscriptionsOk, ArmedOk, Registrations, LogOk, OwnedOk, IdsOk, ToldOk, OwnerLive, BoundOk;
      visible, hold := false, None;
      HoldDropped(epoch, tracked, old(hold), fieldBinding, clock);
    }

    /** Hold a drawn preview until its lifetime ends; drop what was held when nothing was drawn. */
    method HoldPreview(request: PreviewRequest, rendered: bool, where: Option<Place>)
      requires Drawn() && visible == rendered
      requires tracked.Some? && request.binding == Some(Binding(epoch, tracked.value))
      requires WellFormedPreview(request) && ValidAppId(tracked.value.app)
      modifies this`clock, this`hold, this`place
      ensures Sound() && old(clock) <= clock
      ensures Held(request, where, rendered)
    {
      hide SubscriptionsOk, ArmedOk, Registrations, LogOk, OwnedOk, IdsOk, ToldOk, OwnerLive, ValidAppId, WellFormedPreview;
      var reading: real := *;
      var now := Monotonic(reading);
      hold := if rendered then Some(Hold(now + request.ttl as real / 1000.0, request)) else None;
      place := if rendered then where else None;
    }

    /** A preview that was drawn is held from now on for its lifetime, at this place; one that was not is not held. */
    ghost predicate Held(request: PreviewRequest, where: Option<Place>, drawn: bool)
      reads this`hold, this`place, this`clock
    {
      if drawn then hold == Some(Hold(clock + request.ttl as real / 1000.0, request)) && place == where
      else hold.None? && place.None?
    }

    /** Draw for a field that still is bound, and hold the preview only if its epoch outlives the drawing. */
    method DrawBound(d: Described, request: PreviewRequest, drawing: Drawing) returns (r: Outcome<Focus>)
      requires Sound() && epoch == d.binding.epoch && tracked == Some(d.binding.id)
      requires request.binding == Some(d.binding) && WellFormedPreview(request) && ValidAppId(d.binding.id.app)
      modifies this
      ensures Sound() && Advanced() && unchanged(`watching)
      ensures r == if drawing.interruptions == 0 then Got(Focus(d.binding, d.target, drawing.drawn)) else Refused(StaleBinding)
      ensures r.Got? ==> epoch == old(epoch) && tracked == old(tracked) && visible == drawing.drawn
      ensures r.Got? ==> Held(request, d.metadata.place, drawing.drawn)
      ensures !r.Got? ==> old(epoch) < epoch && !visible && hold.None?
    {
      hide Ledger, BoundOk, LogOk, OwnedOk, IdsOk, ToldOk, OwnerLive, ValidAppId, WellFormedPreview;
      Render(drawing);
      if d.binding.epoch != epoch {
        DropDrawn();
        return Refused(StaleBinding);
      }
      HoldPreview(request, drawing.drawn, d.metadata.place);
      return Got(Focus(d.binding, d.target, drawing.drawn));
    }

    /** The answer finds the field that a well-formed preview is for, with its caret and length still the expected ones. */
    ghost predicate Shows(request: PreviewRequest, a: FieldAnswer)
      reads this`epoch, this`tracked
    {
      && WellFormedPreview(request) && StillBound(request.binding, request.target, a)
      && request.caret == a.read.value.caret && request.total == a.read.value.total
    }

    /** Draw a preview for a bound field whose caret and length are still the expected ones. */
    method ShowPreview(request: PreviewRequest, a: FieldAnswer, drawing: Drawing) returns (r: Outcome<Focus>)
      requires Sound()
      modifies this
      ensures Sound() && Advanced() && unchanged(`watching)
      ensures r == Refused(InvalidPreview) <==> !WellFormedPreview(request) && !Overflowing(request)
      ensures Overflowing(request) ==> r == Raised && unchanged(this)
      ensures r.Refused? && Malformed(r.reason) ==> unchanged(this)
      ensures r == Refused(InvalidRequest) <==> WellFormedPreview(request) && MalformedBinding(request.binding, old(epoch))
      ensures r.Got? ==> request.binding == Some(r.value.binding) && request.target == Some(r.value.target)
      ensures r.Got? ==> Fits(r.value.binding, r.value.target) && epoch == old(epoch) == r.value.binding.epoch
      ensures r.Got? <==> old(Shows(request, a)) && drawing.interruptions == 0
      ensures r.Got? ==> r.value.rendered == visible == drawing.drawn && tracked == Some(r.value.binding.id)
      ensures r.Got? ==> Held(request, a.read.value.place, drawing.drawn)
      ensures old(Shows(request, a)) && drawing.interruptions > 0 ==>
        r == Refused(StaleBinding) && old(epoch) < epoch && !visible && hold.None?
      ensures r == PreviewVerdict(old(Stands()), request, a, drawing)
      ensures a.read.Got? && !Overflowing(request) ==> !r.Raised?
    {
      hide Ledger, BoundOk, LogOk, OwnedOk, IdsOk, ToldOk, ValidAppId, WellFormedPreview, Held;
      OverflowIsMalformed(request);
      if Overflowing(request) {
        r := Raised;
        return;
      }
      if !WellFormedPreview(request) {
        r := Refused(InvalidPreview);
        return;
      }
      var bound := BoundFocus(request.binding, request.target, a);
      if !bound.Got? {
        r := Passed(bound);
        return;
      }
      var d := bound.value;
      if request.caret != d.metadata.caret || request.total != d.metadata.total {
        r := Refused(StaleBinding);
        return;
      }
      r := DrawBound(d, request, drawing);
    }

    /** Everything about the field: what is tracked, shown, held, armed and subscribed to, and in which epoch. */
    twostate predicate FieldKept()
      reads this
    {
      unchanged(`epoch, `tracked, `edges, `origin, `hold, `place, `visible, `fieldBinding, `fieldSubscription,
                `ancestorSubscriptions, `live, `producer, `registered)
    }

    /** A held preview's request for what is left of its lifetime at a time, in whole milliseconds. */
    ghost function Rest(now: real): PreviewRequest
      requires hold.Some?
      reads this`hold
    {
      hold.value.request.(ttl := ((hold.value.expires - now) * 1000.0).Floor)
    }

    /**
     What a scroll comes to at time `now`. With at least 50 ms of its lifetime left the preview is drawn again,
     for what is left, where the caret is found; when it cannot be found or drawn, the suggestion ends. With
     less, or nothing held, nothing changes.
     */
    twostate predicate Followed(a: FieldAnswer, drawing: Drawing, now: real)
      reads this
    {
      if old(hold).None? then FieldKept()
      else
        && old(clock) <= now <= clock
        && var rest := old(Rest(now));
        if rest.ttl < 50 then FieldKept()
        else if old(Shows(rest, a)) && drawing == Drawing(0, true) then
          epoch == old(epoch) && tracked.Some? && rest.binding == Some(Binding(epoch, tracked.value)) && visible
          && Held(rest, a.read.value.place, true)
        else old(epoch) < epoch && Withdrawn()
    }

    /** A scroll: draw a held preview again, or end the suggestion. A backend's failure is all that keeps it from either. */
    method RepositionPreview(a: FieldAnswer, drawing: Drawing) returns (completed: bool, ghost now: real)
      requires Sound()
      modifies this
      ensures Sound() && Advanced() && unchanged(`watching)
      ensures completed ==> Followed(a, drawing, now)
      ensures old(hold).Some? && old(Rest(now)).ttl >= 50 ==> old(Rest(now)).ttl <= old(hold).value.request.ttl
      ensures !completed ==> old(hold).Some? && old(clock) <= now <= clock && old(Rest(now)).ttl >= 50 && !a.read.Got?
    {
      hide SubscriptionsOk, ArmedOk, Registrations, LogOk, OwnedOk, IdsOk, ToldOk, ValidAppId, StillBound, BoundVerdict, PreviewVerdict;
      hide Shows, Held, Stands, CaretLineOk, OwnerLive;
      completed, now := true, clock;
      if hold.None? {
        return;
      }
      var reading: real := *;
      var time := Monotonic(reading);
      now := time;
      var held := hold.value;
      var remaining := ((held.expires - time) * 1000.0).Floor;
      if remaining < 50 {
        return;
      }
      var nudged := held.request.(ttl := remaining);
      NudgedIsWellFormed(held, time, remaining);
      completed := DrawAgain(nudged, a, drawing);
    }

    /** Draw a held preview again, or end the suggestion. */
    method DrawAgain(nudged: PreviewRequest, a: FieldAnswer, drawing: Drawing) returns (completed: bool)
      requires Sound() && tracked.Some? && nudged.binding == Some(Binding(epoch, tracked.value))
      requires WellFormedPreview(nudged) && ValidAppId(tracked.value.app)
      modifies this
      ensures Sound() && Advanced() && unchanged(`watching)
      ensures !completed ==> !a.read.Got?
      ensures completed ==>
        if old(Shows(nudged, a)) && drawing == Drawing(0, true)
        then epoch == old(epoch) && tracked == old(tracked) && visible && Held(nudged, a.read.value.place, true)
        else old(epoch) < epoch && Withdrawn()
    {
      hide SubscriptionsOk, ArmedOk, Registrations, LogOk, OwnedOk, IdsOk, ToldOk, BoundOk, ValidAppId, StillBound;
      hide BoundVerdict, PreviewVerdict, Shows, Held, Stands, CaretLineOk, OwnerLive;
      completed := true;
      OverflowIsMalformed(nudged);
      var shown := ShowPreview(nudged, a, drawing);
      match shown
      case Raised => completed := false;
      case Refused(reason) =>
        assert !Malformed(reason);
        Invalidate();
      case Got(focus) =>
        if !focus.rendered {
          Invalidate();
        }
    }

    /** The answer finds a held preview's field with its caret where the preview was drawn. */
    ghost predicate InPlace(a: FieldAnswer)
      requires hold.Some?
      reads this`epoch, this`tracked, this`hold, this`place
    {
      StillBound(hold.value.request.binding, hold.value.request.target, a) && a.read.value.place == place
    }

    /**
     End a held preview whose caret moved unreported; true when it ended. It stays exactly while the field is
     still bound and its caret is where the preview was drawn, or once its lifetime is over.
     */
    method PreviewMoved(a: FieldAnswer) returns (r: Outcome<bool>)
      requires Sound()
      modifies this
      ensures Sound() && Advanced() && unchanged(`watching)
      ensures !r.Refused? && (a.read.Got? ==> !r.Raised?)
      ensures r.Got? && r.value ==> Withdrawn() && old(epoch) < epoch
      ensures r.Got? && !r.value ==> FieldKept()
      ensures (r.Got? && !r.value) <==> (old(hold).None? || old(hold).value.expires <= clock || old(InPlace(a)))
    {
      hide SubscriptionsOk, ArmedOk, Registrations, LogOk, OwnedOk, IdsOk, ToldOk, ValidAppId, StillBound, BoundVerdict, PreviewVerdict;
      r := Got(false);
      if hold.None? {
        return;
      }
      var reading: real := *;
      var now := Monotonic(reading);
      var held := hold.value;
      if held.expires <= now {
        return;
      }
      var bound := BoundFocus(held.request.binding, held.request.target, a);
      if bound.Raised? {
        r := Raised;
      } else if bound.Refused? || bound.value.metadata.place != place {
        Invalidate();
        r := Got(true);
      }
    }

    /** How an operation's outcome becomes a reply: a denial that is not malformed withdraws everything. */
    method Replied(done: Outcome<Focus>) returns (r: Outcome<Reply>)
      requires Steady() && Owned() && (done.Got? ==> Sound() && Fits(done.value.binding, done.value.target))
      modifies this`visible, this`edges, this`hold
      modifies this`live, this`ancestorSubscriptions, this`fieldSubscription, this`fieldBinding
      ensures Steady() && Owned() && !r.Refused?
      ensures done.Got? ==> r == Got(Focused(done.value)) && unchanged(this)
      ensures done.Refused? ==> r == Got(Denied(done.reason))
      ensures done.Refused? ==> if Malformed(done.reason) then unchanged(this) else Sound() && Withdrawn()
      ensures done.Raised? ==> r == Raised && unchanged(this)
    {
      hide SubscriptionsOk, ArmedOk, Registrations, LogOk, OwnedOk, IdsOk, ToldOk, BoundOk, FocusFits;
      match done
      case Got(focus) =>
        return Got(Focused(focus));
      case Raised =>
        return Raised;
      case Refused(reason) =>
        if !Malformed(reason) {
          Withdraw();
          NothingBound(epoch, tracked, clock);
        }
        return Got(Denied(reason));
    }

    /** Nothing is visible, and nothing held that a scroll could draw again. */
    method HidePreview()
      requires Sound()
      modifies this`visible, this`hold
      ensures Sound() && !visible && hold.None?
    {
      hide SubscriptionsOk, ArmedOk, Registrations, LogOk, OwnedOk, IdsOk, ToldOk, BoundOk;
      visible, hold := false, None;
      HoldDropped(epoch, tracked, old(hold), fieldBinding, clock);
    }

    /** An uninterrupted inspection of a field that nothing tracks yet. */
    ghost predicate Inspecting(request: Request, a: Answers)
      reads this`epoch, this`tracked
    {
      && request.Inspect? && ValidAppId(request.app) && tracked.None? && a.field.read.Got?
      && Finds(a.field, a.field.read.value.id.(app := request.app))
    }

    /** The field is tracked, the epoch still is `was`, and the reply names both. */
    ghost predicate Inspected(request: Request, a: Answers, was: nat, focus: Focus)
      requires request.Inspect? && a.field.read.Got?
      reads this`epoch, this`tracked
    {
      && tracked == Some(a.field.read.value.id.(app := request.app)) && epoch == was
      && focus.binding == Binding(was, tracked.value) && policy.TargetOf(focus.binding) == Some(focus.target)
    }

    /** A caret snapshot of the tracked field, which nothing refuses. */
    ghost predicate Snapshotting(request: Request, a: Answers)
      reads this`epoch, this`tracked
    {
      && request.Snapshot? && !request.window && !request.selection && StillBound(request.binding, request.target, a.field)
      && Forthcoming(a)
    }

    /** The caret line is set, and the epoch still is `was` unless an invalidation came too late. */
    ghost predicate Snapshotted(request: Request, a: Answers, was: nat)
      requires request.Snapshot? && request.binding.Some? && a.field.read.Got?
      reads this`epoch, this`edges, this`origin
    {
      var rich := a.field.read.value.rich;
      was <= epoch && LineSet(request.binding.value, rich, a.text) && (epoch == was <==> !TooLate(a.text, rich))
    }

    /** An owner's acquisition or drawing. */
    method Acquire(request: Request, a: Answers) returns (r: Outcome<Focus>)
      requires Sound() && (request.Inspect? || request.Snapshot? || request.Preview?)
      modifies this
      ensures Steady() && Owned() && Advanced() && unchanged(`watching)
      ensures r.Refused? && Malformed(r.reason) <==> MalformedRequest(request, old(epoch)) && !Disruptive(request, false)
      ensures r == Refused(InvalidPreview) <==> request.Preview? && !WellFormedPreview(request.preview) && !Overflowing(request.preview)
      ensures MalformedRequest(request, old(epoch)) ==> unchanged(this)
      ensures Disruptive(request, false) ==> r == Raised
      ensures old(Inspecting(request, a)) ==> r.Got? && Inspected(request, a, old(epoch), r.value)
      ensures old(Snapshotting(request, a)) ==> r.Got? && Snapshotted(request, a, old(epoch))
      ensures r.Got? ==> Sound() && Fits(r.value.binding, r.value.target) && old(epoch) <= r.value.binding.epoch
      ensures r.Got? ==> Repeats(request, r.value) && (request.Inspect? || r.value.binding.epoch == old(epoch))
      ensures r == AcquisitionVerdict(old(Stands()), request, a, epoch)
    {
      hide BoundVerdict, SnapshotVerdict, PreviewVerdict, Inspection;
      hide Ledger, LogOk, OwnedOk, IdsOk, ToldOk, BoundOk, ValidAppId, FocusFits, WellFormedPreview, CaretLineOk, LineSet, Finds;
      hide GrantsAll, OwnerLive;
      match request {
        case Inspect(app, _) =>
          r := InspectField(app, a.field);
        case Snapshot(binding, target, window, selection) =>
          r := SnapshotField(binding, target, window, selection, a);
        case Preview(preview) =>
          r := ShowPreview(preview, a.field, a.drawing);
      }
    }

    /**
     Answer one decoded request. A malformed one leaves everything as it was; a malformed denial comes
     exactly for one of them, unless it raises; every other denial leaves nothing shown, held or armed.
     */
    method Request(request: Request, a: Answers) returns (r: Outcome<Reply>)
      requires Sound()
      modifies this
      ensures Steady() && Owned() && Advanced() && unchanged(`watching)
      ensures !r.Refused? && (r.Got? ==> Sound())
      ensures (r.Got? && r.value.Denied? && Malformed(r.value.denial)) <==>
        MalformedRequest(request, old(epoch)) && !(request.Preview? && Overflowing(request.preview))
      ensures MalformedRequest(request, old(epoch)) ==> unchanged(this)
      ensures request.Preview? && Overflowing(request.preview) ==> r == Raised && unchanged(this)
      ensures r.Got? && r.value.Denied? ==> if Malformed(r.value.denial) then unchanged(this) else Withdrawn()
      ensures r.Got? && r.value.Focused? ==> Fits(r.value.focus.binding, r.value.focus.target)
      ensures r.Got? && r.value.Focused? ==> old(epoch) <= r.value.focus.binding.epoch
      ensures old(Inspecting(request, a)) ==> r.Got? && r.value.Focused? && Inspected(request, a, old(epoch), r.value.focus)
      ensures old(Snapshotting(request, a)) ==> r.Got? && r.value.Focused? && Snapshotted(request, a, old(epoch))
      ensures request.Status? ==> r == Got(Ready) && unchanged(this)
      ensures request.Hide? ==> r == Got(Hidden) && !visible && hold.None?
      ensures Judged(old(Stands()), request, a, r)
    {
      hide Judged, AcquisitionVerdict;
      hide Ledger, LogOk, OwnedOk, IdsOk, ToldOk, BoundOk, OwnerLive, ValidAppId, FocusFits, WellFormedPreview, CaretLineOk;
      hide MalformedBinding, Inspected, Snapshotted, Withdrawn, Finds, StillBound, Forthcoming, Suits, Repeats;
      hide MalformedRequest, Steady;
      PlainlyMalformed(request, epoch);
      PlainlyJudged(Stands(), request, a);
      match request {
        case Envelope(_, _) =>
          return Got(Denied(InvalidRequest));
        case Status =>
          return Got(Ready);
        case Hide =>
          HidePreview();
          return Got(Hidden);
        case _ =>
          var done := Acquire(request, a);
          OutcomeIsJudged(old(Stands()), request, a, epoch);
          r := Replied(done);
      }
    }

    lemma PlainlyMalformed(request: Request, was: nat)
      ensures request.Envelope? ==> MalformedRequest(request, was)
      ensures request.Status? || request.Hide? ==> !MalformedRequest(request, was)
      ensures request.Preview? && Overflowing(request.preview) ==> MalformedRequest(request, was)
    {
      if request.Preview? {
        OverflowIsMalformed(request.preview);
      }
    }

    // -------------------------------------------------------------- clients' frames

    /** Only the owner acquires or draws, and the first client to ask becomes it; an operation that cannot be looked up raises. */
    method Respond(fd: int, request: Request, a: Answers) returns (r: Outcome<Option<Reply>>)
      requires Sound() && fd in clients
      modifies this
      ensures Steady() && Owned() && unchanged(`watching)
      ensures old(epoch) <= epoch && Shrunk(old(clients), clients)
      ensures unchanged(`idle, `nextClient, `received, `answered, `delivered)
      ensures !r.Refused? && (r.Got? ==> Sound())
      ensures r.Got? && r.value.Some? && r.value.value.Focused? ==>
        Fits(r.value.value.focus.binding, r.value.value.focus.target)
      ensures r.Got? && r.value.Some? && r.value.value.Focused? && fd in clients ==>
        owner == Some(Owner(fd, old(clients)[fd].id))
        && (r.value.value.focus.binding.epoch < epoch ==> Notice(old(clients)[fd].id, epoch) in notices)
      ensures !Busy(request, old(owner), old(clients)[fd].id) && Hashable(request) ==>
        (r.Got? ==> r.value.Some?) && Judged(old(Stands()), request, a, if r.Got? then Got(r.value.value) else Raised)
      ensures r.Got? ==> (r.value.None? <==> Busy(request, old(owner), old(clients)[fd].id))
      ensures replies == if Busy(request, old(owner), old(clients)[fd].id) && r.Got? && fd in clients
        then Posted(old(replies), old(clients)[fd].id, [Denied(ObserverBusy)]) else old(replies)
      ensures r.Got? && r.value.Some? && OwnerOperation(request) && fd in clients ==>
        owner == Some(Owner(fd, old(clients)[fd].id))
      ensures !Hashable(request) ==> r == Raised && unchanged(this)
      ensures obliging ==> clients == old(clients)
      ensures old(Inspecting(request, a)) && !Busy(request, old(owner), old(clients)[fd].id) ==>
        r.Got? && r.value.Some? && r.value.value.Focused? && Inspected(request, a, old(epoch), r.value.value.focus)
      ensures old(Snapshotting(request, a)) && !Busy(request, old(owner), old(clients)[fd].id) ==>
        r.Got? && r.value.Some? && r.value.value.Focused? && Snapshotted(request, a, old(epoch))
      ensures Busy(request, old(owner), old(clients)[fd].id) && Hashable(request) ==>
        r == (if Encodable(request) then Got(None) else Raised) && FieldKept() && owner == old(owner)
      ensures Disruptive(request, Busy(request, old(owner), old(clients)[fd].id)) ==>
        clients == old(clients) && FieldKept() && (r.Raised? || (!Encodable(request) && r.Got? && r.value.Some?))
      ensures !OwnerOperation(request) && Disruptive(request, false) ==> owner == old(owner)
      ensures MalformedRequest(request, old(epoch)) && !Disruptive(request, Busy(request, old(owner), old(clients)[fd].id)) ==>
        FieldKept() && !r.Raised?
      ensures MalformedRequest(request, old(epoch)) && !Disruptive(request, false) && !Busy(request, old(owner), old(clients)[fd].id) ==>
        r.value.Some? && r.value.value.Denied? && Malformed(r.value.value.denial) && clients == old(clients)
      ensures r.Got? && r.value.Some? && r.value.value.Focused? && !request.Inspect? ==>
        forall d :: d in delivered && d.binding == r.value.value.focus.binding ==> d.client == old(clients)[fd].id
    {
      hide Ledger, LogOk, OwnedOk, IdsOk, ToldOk, BoundOk, FocusFits, CaretLineOk, ValidAppId, WellFormedPreview, MalformedBinding;
      hide Finds, Forthcoming, Withdrawn, Judged, Inspected, Snapshotted, Posted, MalformedRequest;
      PlainlyMalformed(request, epoch);
      if !Hashable(request) {
        return Raised;
      }
      var id := clients[fd].id;
      if OwnerOperation(request) {
        if owner.Some? && owner.value.id != id {
          var sent := Send(fd, Response(Denied(ObserverBusy)), Encodable(request));
          return if sent.Unencodable? then Raised else Got(None);
        }
        BecomeOwner(fd);
        OwnRepliesOnly(epoch, owner.value, delivered);
      }
      var reply := Request(request, a);
      JudgedSuits(old(Stands()), request, a, reply);
      SuitsFocus(request, old(epoch));
      match reply
      case Got(value) => return Got(Some(value));
      case _ => return Raised;
    }

    /** Another client owns the observer. */
    ghost predicate Busy(request: Request, owner: Option<Owner>, id: nat) {
      OwnerOperation(request) && owner.Some? && owner.value.id != id
    }

    method BecomeOwner(fd: int)
      requires Sound() && fd in clients
      requires owner.None? || owner.value.id == clients[fd].id
      modifies this`owner
      ensures Sound() && owner == Some(Owner(fd, clients[fd].id))
    {
      hide SubscriptionsOk, ArmedOk, Registrations, LogOk, BoundOk, OwnedOk, ToldOk;
      if owner.None? {
        FirstService(clients, nextClient, fd, epoch, delivered, notices);
        owner := Some(Owner(fd, clients[fd].id));
      }
    }

    /** Reply to a client and, when a focus reached it, remember which client holds which binding. */
    method Deliver(fd: int, reply: Reply, encodable: bool) returns (sent: Sending)
      requires Sound()
      requires fd in clients && reply.Focused? ==>
        Fits(reply.focus.binding, reply.focus.target) && owner == Some(Owner(fd, clients[fd].id))
        && (reply.focus.binding.epoch < epoch ==> Notice(clients[fd].id, epoch) in notices)
      modifies this
      ensures Sound() && Shrunk(old(clients), clients) && old(epoch) <= epoch
      ensures unchanged(`idle, `nextClient, `received, `answered, `watching)
      ensures hold == old(hold) || hold.None?
      ensures sent.Unencodable? <==> fd in old(clients) && !encodable
      ensures sent.Unencodable? ==> unchanged(this)
      ensures obliging && fd in old(clients) && encodable ==> sent.Taken?
      ensures sent.Taken? ==> fd in clients && fd in old(clients) && clients == old(clients) && FieldKept() && owner == old(owner)
      ensures sent.NotTaken? ==> fd !in clients
      ensures fd in old(clients) ==>
        var said := if sent.Taken? then [reply] else [];
        replies == Posted(old(replies), old(clients)[fd].id, said) && delivered == old(delivered) + Focuses(old(clients)[fd].id, said)
      ensures fd !in old(clients) ==> unchanged(this)
    {
      hide Ledger, LogOk, OwnedOk, IdsOk, ToldOk, BoundOk, FocusFits, CaretLineOk;
      if fd in clients {
        FocusesOf(clients[fd].id, reply);
      }
      sent := Send(fd, Response(reply), encodable);
      if sent.Taken? && reply.Focused? {
        Log(Delivery(clients[fd].id, reply.focus.binding, reply.focus.target));
      }
    }

    ghost method Log(d: Delivery)
      requires Sound() && Fits(d.binding, d.target) && owner.Some? && owner.value.id == d.client
      requires d.binding.epoch < epoch ==> Notice(d.client, epoch) in notices
      modifies this`delivered
      ensures Sound() && delivered == old(delivered) + [d]
    {
      hide SubscriptionsOk, ArmedOk, Registrations, LogOk, OwnedOk, IdsOk, ToldOk, BoundOk, FocusFits;
      Served(clients, nextClient, owner.value, delivered, d);
      Logged(d, epoch, tracked, owner, delivered, notices, policy);
      delivered := delivered + [d];
    }

    /** An inspection or snapshot that nothing disturbs, by the owner or a client that may become it. */
    ghost predicate Undisturbed(frame: Decoded, a: Answers, id: nat)
      reads this`epoch, this`tracked, this`owner
    {
      && frame.Meant? && !Busy(frame.request, owner, id)
      && (Inspecting(frame.request, a) || Snapshotting(frame.request, a))
    }

    /** What it comes to: one focus reply, the field tracked or its caret line set, and the epoch kept. */
    ghost predicate Effects(a: Answers, undisturbed: bool, frame: Decoded, was: nat, said: seq<Reply>)
      reads this`epoch, this`tracked, this`edges, this`origin
    {
      undisturbed && frame.Meant? && a.field.read.Got? ==>
        && |said| == 1 && said[0].Focused? && Repeats(frame.request, said[0].focus)
        && (frame.request.Inspect? ==> Inspected(frame.request, a, was, said[0].focus))
        && (frame.request.Snapshot? && frame.request.binding.Some? ==> Snapshotted(frame.request, a, was))
    }

    lemma NoEffects(a: Answers, undisturbed: bool, frame: Decoded, was: nat, said: seq<Reply>)
      ensures !frame.Meant? ==> Effects(a, undisturbed, frame, was, said)
    {
    }

    /** End the epoch after a failure and report it, to a client that may be gone by then. */
    method Fail(fd: int, denial: Denial, encodable: bool) returns (escaped: bool)
      requires Steady() && Owned()
      modifies this
      ensures Sound() && Withdrawn() && old(epoch) < epoch && Shrunk(old(clients), clients)
      ensures unchanged(`idle, `nextClient, `received, `answered, `watching, `delivered)
      ensures escaped <==> !encodable && fd in clients
      ensures obliging ==> clients == old(clients)
      ensures old(owner).None? ==> clients == old(clients) || encodable
      ensures replies == if fd in clients && encodable
        then Posted(old(replies), old(clients)[fd].id, [Denied(denial)]) else old(replies)
    {
      hide Ledger, LogOk, OwnedOk, IdsOk, ToldOk, BoundOk, CaretLineOk, OwnerLive;
      Invalidate();
      var again := Send(fd, Response(Denied(denial)), encodable);
      escaped := again.Unencodable?;
    }

    /** Another client is told that this one owns the observer; otherwise it answers. Nothing else is said before a failure. */
    ghost predicate Unsaid(request: Request, said: seq<Reply>) {
      said == [] || (OwnerOperation(request) && said == [Denied(ObserverBusy)])
    }

    /** Respond to a request in time and send the reply; the denial to report when that fails. */
    method Converse(fd: int, request: Request, w: World) returns (failed: Option<Denial>, ghost late: bool, ghost said: seq<Reply>)
      requires Sound() && fd in clients
      modifies this
      ensures Steady() && Owned() && (failed.None? ==> Sound())
      ensures old(epoch) <= epoch && Shrunk(old(clients), clients)
      ensures unchanged(`idle, `nextClient, `received, `answered, `watching)
      ensures replies == Posted(old(replies), old(clients)[fd].id, said)
      ensures delivered == old(delivered) + Focuses(old(clients)[fd].id, said)
      ensures late ==> failed == Some(OperationTimeout)
      ensures failed.Some? ==> Unsaid(request, said) && delivered == old(delivered)
      ensures var busy, report := Busy(request, old(owner), old(clients)[fd].id), if failed.Some? then [Denied(failed.value)] else [];
        fd in clients ==>
          if Encodable(request) then AnsweredWith(old(Stands()), Meant(request), busy, w, said + report)
          else failed.Some? && said == []
      ensures obliging ==> clients == old(clients)
      ensures obliging && !w.slow && old(Undisturbed(Meant(request), w.answers, clients[fd].id)) ==>
        failed.None? && Effects(w.answers, true, Meant(request), old(epoch), said)
      ensures Disruptive(request, Busy(request, old(owner), old(clients)[fd].id)) ==> failed.Some?
      ensures Ownerless(Meant(request), old(owner)) ==> clients == old(clients) && owner.None?
      ensures MalformedRequest(request, old(epoch)) && !late && fd in clients ==>
        Disruptive(request, Busy(request, old(owner), old(clients)[fd].id)) || (failed.None? && FieldKept())
      ensures !late && Hashable(request) && Encodable(request) && Busy(request, old(owner), old(clients)[fd].id) ==>
        failed.None? && FieldKept() && owner == old(owner) && delivered == old(delivered)
    {
      hide Ledger, LogOk, OwnedOk, IdsOk, ToldOk, BoundOk, FocusFits, CaretLineOk, OwnerLive, MalformedRequest, OwnerOperation;
      hide Finds, StillBound, Forthcoming, LineSet, Posted, Suits, Focuses, Repeats, Verdict;
      Silence(replies, clients[fd].id);
      SuitsFocus(request, epoch);
      var response := Respond(fd, request, w.answers);
      if Hashable(request) && !Busy(request, old(owner), old(clients)[fd].id) {
        JudgedSuits(old(Stands()), request, w.answers, if response.Got? then Got(response.value.value) else Raised);
      }
      late := w.slow && !response.Raised?;
      said := if response == Got(None) && fd in clients then [Denied(ObserverBusy)] else [];
      if response.Raised? {
        failed := Some(AccessibilityUnavailable);
      } else if w.slow {
        failed := Some(OperationTimeout);
      } else {
        failed := None;
        if response.value.Some? {
          var sent := Deliver(fd, response.value.value, Encodable(request));
          failed := if sent.Unencodable? then Some(AccessibilityUnavailable) else None;
          said := if sent.Taken? then [response.value.value] else [];
        }
      }
    }

    lemma SuitsFocus(request: Request, was: nat)
      ensures forall reply: Reply :: Suits(request, was, reply) && reply.Focused? ==>
        Repeats(request, reply.focus) && (request.Inspect? || reply.focus.binding.epoch == was)
    {
    }

    lemma ReportedAlone(id: nat, request: Request, said: seq<Reply>, denial: Denial)
      requires Unsaid(request, said)
      ensures Focuses(id, said + [Denied(denial)]) == Focuses(id, said) == []
    {
      FocusesOf(id, Denied(denial));
      FocusesOf(id, Denied(ObserverBusy));
      assert [] + [Denied(denial)] == [Denied(denial)];
      assert [Denied(ObserverBusy)] + [Denied(denial)] == [Denied(ObserverBusy), Denied(denial)];
    }

    /** Without an undisturbed request nothing is expected. */
    lemma NoneExpected(a: Answers, frame: Decoded, was: nat, said: seq<Reply>)
      ensures Effects(a, false, frame, was, said)
    {
    }

    /**
     One request, its deadline, and its reply. An unexpected failure or a missed deadline ends the epoch,
     and so does a reply that cannot be encoded; the reply that reports the failure then raises once more.
     */
    method Serve(fd: int, request: Request, w: World) returns (escaped: bool, ghost late: bool, ghost said: seq<Reply>)
      requires Sound() && fd in clients
      modifies this
      ensures Sound() && Shrunk(old(clients), clients) && old(epoch) <= epoch
      ensures unchanged(`idle, `nextClient, `received, `answered, `watching)
      ensures replies == Posted(old(replies), old(clients)[fd].id, said)
      ensures delivered == old(delivered) + Focuses(old(clients)[fd].id, said)
      ensures fd in clients ==>
        AnsweredWith(old(Stands()), Meant(request), Busy(request, old(owner), old(clients)[fd].id), w, said)
      ensures escaped <==> !Encodable(request) && fd in clients
      ensures obliging ==> clients == old(clients)
      ensures obliging && !w.slow ==>
        Effects(w.answers, old(Undisturbed(Meant(request), w.answers, clients[fd].id)), Meant(request), old(epoch), said)
      ensures escaped || late || Disruptive(request, Busy(request, old(owner), old(clients)[fd].id)) ==>
        old(epoch) < epoch && Withdrawn() && delivered == old(delivered)
      ensures Ownerless(Meant(request), old(owner)) ==> clients == old(clients)
      ensures MalformedRequest(request, old(epoch)) && !late && fd in clients ==>
        (epoch == old(epoch) <==> !Disruptive(request, Busy(request, old(owner), old(clients)[fd].id)))
        && (epoch == old(epoch) ==> FieldKept())
      ensures !late && Hashable(request) && Encodable(request) && Busy(request, old(owner), old(clients)[fd].id) ==>
        FieldKept() && owner == old(owner) && delivered == old(delivered)
    {
      hide Ledger, LogOk, OwnedOk, IdsOk, ToldOk, BoundOk, FocusFits, CaretLineOk, OwnerLive, MalformedRequest, OwnerOperation;
      hide Posted, Focuses, Says, Inspected, Snapshotted, Undisturbed, Busy, Effects;
      ghost var id, busy := clients[fd].id, Busy(request, owner, clients[fd].id);
      var failed: Option<Denial>;
      failed, late, said := Converse(fd, request, w);
      assert said + [] == said;
      escaped := false;
      if failed.Some? {
        PostedTwice(old(replies), id, said, [Denied(failed.value)]);
        ReportedAlone(id, request, said, failed.value);
        escaped := Fail(fd, failed.value, Encodable(request));
        if fd in clients && !escaped {
          said := said + [Denied(failed.value)];
        }
      }
      NoneExpected(w.answers, Meant(request), old(epoch), said);
    }

    /** A request that client `id` cannot send without ending the epoch, whatever it names. */
    ghost predicate Disrupting(frame: Decoded, owner: Option<Owner>, id: nat) {
      frame.Meant? && Disruptive(frame.request, Busy(frame.request, owner, id))
    }

    /** A malformed request ends the epoch that no client owns, so none is disconnected for it. */
    ghost predicate Ownerless(frame: Decoded, owner: Option<Owner>) {
      frame.Meant? && !Encodable(frame.request) && !OwnerOperation(frame.request) && owner.None?
    }

    /** A frame that is malformed in itself, or means a request that is malformed in this epoch. */
    ghost predicate MalformedFrame(frame: Decoded, epoch: nat) {
      !frame.Meant? || MalformedRequest(frame.request, epoch)
    }

    /**
     Reply to one frame. It ends in an exception exactly when the frame cannot be answered and its client is
     still connected. Answered in time and while its client stays, a malformed frame keeps the epoch and
     everything about the field if and only if it is no request, or one with a usable `op` and `id` and no
     rectangle that overflows once its client may draw.
     */
    method Answer(fd: int, frame: Bytes, w: World) returns (r: Answered, ghost late: bool, ghost said: seq<Reply>)
      requires Working() && fd in clients
      modifies this
      ensures Working() && Shrunk(old(clients), clients) && old(epoch) <= epoch
      ensures unchanged(`idle, `nextClient, `received, `answered)
      ensures replies == Posted(old(replies), old(clients)[fd].id, said)
      ensures delivered == old(delivered) + Focuses(old(clients)[fd].id, said)
      ensures fd in clients ==> AnsweredIn(old(Stands()), decode(frame), old(owner), old(clients)[fd].id, w, said)
      ensures r.IllFormed? <==> decode(frame).NotJson?
      ensures obliging ==> clients == old(clients)
      ensures obliging && !w.slow ==>
        Effects(w.answers, old(Undisturbed(decode(frame), w.answers, clients[fd].id)), decode(frame), old(epoch), said)
      ensures r.Escaped? <==> Unanswerable(decode(frame)) && fd in clients
      ensures r.IllFormed? || decode(frame).TooDeep? ==> unchanged(this)
      ensures Disrupting(decode(frame), old(owner), old(clients)[fd].id) ==> old(epoch) < epoch
      ensures Ownerless(decode(frame), old(owner)) ==> clients == old(clients) && r.Escaped?
      ensures MalformedFrame(decode(frame), old(epoch)) && !late && fd in clients ==>
        (epoch == old(epoch) <==> !Disrupting(decode(frame), old(owner), old(clients)[fd].id))
        && (epoch == old(epoch) ==> FieldKept())
    {
      hide Ledger, LogOk, OwnedOk, IdsOk, ToldOk, BoundOk, FocusFits, CaretLineOk, OwnerLive, MalformedRequest, Posted, Says;
      late, said := false, [];
      Silence(replies, clients[fd].id);
      match decode(frame)
      case NotJson =>
        r := IllFormed;
      case TooDeep =>
        r := Escaped;
      case Ambiguous =>
        FocusesOf(clients[fd].id, Denied(InvalidRequest));
        var sent := Send(fd, Response(Denied(InvalidRequest)), true);
        said := if sent.Taken? then [Denied(InvalidRequest)] else [];
        ClientsShrink(old(clients), clients);
        r := WellFormed;
      case Meant(request) =>
        var escaped: bool;
        escaped, late, said := Serve(fd, request, w);
        ClientsShrink(old(clients), clients);
        if escaped {
          r := Escaped;
        } else {
          WatchPreview();
          r := WellFormed;
        }
    }

    /** The frame was answered as it has to be for client `id`, with this owner. */
    ghost predicate AnsweredIn(s: Standing, frame: Decoded, owner: Option<Owner>, id: nat, w: World, said: seq<Reply>) {
      AnsweredWith(s, frame, frame.Meant? && Busy(frame.request, owner, id), w, said)
    }

    /** In time, a status request is answered to every client, and the owner's operations of another client with the busy denial. */
    lemma WhoIsAnswered(s: Standing, request: Request, who: Option<Owner>, id: nat, w: World, said: seq<Reply>)
      requires AnsweredIn(s, Meant(request), who, id, w, said) && !w.slow && !request.Envelope?
      ensures request.Status? ==> said == [Ready]
      ensures !request.Status? && who.Some? && who.value.id != id ==> said == [Denied(ObserverBusy)]
      ensures (request.Hide? && (who.None? || who.value.id == id)) ==> said == [Hidden]
    {
    }

    /** A held preview has a timer. */
    method WatchPreview()
      requires Sound()
      modifies this`watching
      ensures Sound() && watching == (old(watching) || hold.Some?)
    {
      hide SubscriptionsOk, ArmedOk, Registrations, LogOk, OwnedOk, IdsOk, ToldOk, BoundOk;
      if hold.Some? && !watching {
        watching := true;
      }
    }

    /** Drop a client in the middle of its own dispatch. */
    method Disconnect(fd: int)
      requires Working() && PumpOk(clients, {fd}, idle, received, answered, nextClient, decode)
      modifies this
      ensures Valid() && clients == old(clients) - {fd} && old(epoch) <= epoch
      ensures unchanged(`idle, `nextClient, `received, `answered, `delivered, `replies)
    {
      hide Ledger, LogOk, OwnedOk, IdsOk, ToldOk, BoundOk, ClientOk;
      CloseClient(fd);
      ClientsShrink(old(clients), clients);
      PumpShrinks(old(clients), clients, {fd}, idle, received, answered, nextClient, decode);
      PumpSettles(clients, fd, idle, received, answered, nextClient, decode);
    }

    /** The first frame of a client's buffer leaves it and counts as answered. */
    method TakeFrame(fd: int) returns (frame: Bytes)
      requires Working() && PumpOk(clients, {fd}, idle, received, answered, nextClient, decode)
      requires fd in clients && Unsettled(fd, clients[fd], idle, received, answered) && NEWLINE in clients[fd].buffer
      modifies this`clients, this`answered
      ensures Working() && PumpOk(clients, {fd}, idle, received, answered, nextClient, decode)
      ensures var c := old(clients)[fd]; var k := FirstNewline(c.buffer);
        && frame == c.buffer[..k]
        && clients == old(clients)[fd := c.(scheduled := false, buffer := c.buffer[k + 1..])]
        && answered == old(answered)[c.id := old(answered)[c.id] + [frame]]
        && Unsettled(fd, clients[fd], idle, received, answered)
    {
      hide SubscriptionsOk, ArmedOk, Registrations, LogOk, OwnedOk, IdsOk, ToldOk, BoundOk, PumpOk;
      var client := clients[fd];
      var k := FirstNewline(client.buffer);
      frame := client.buffer[..k];
      FrameTaken(client.buffer, received[client.id], answered[client.id]);
      SuffixWithinLimits(client.buffer, k + 1);
      PumpSkips(clients, fd, client.(scheduled := false, buffer := client.buffer[k + 1..]), idle, received, answered,
                received[client.id], answered[client.id] + [frame], nextClient, decode);
      assert received[client.id := received[client.id]] == received;
      answered := answered[client.id := answered[client.id] + [frame]];
      ReplaceClient(fd, client.(scheduled := false, buffer := client.buffer[k + 1..]));
    }

    method ReplaceClient(fd: int, next: Client)
      requires Working() && fd in clients && next.id == clients[fd].id
      modifies this`clients
      ensures Working() && clients == old(clients)[fd := next]
    {
      hide SubscriptionsOk, ArmedOk, Registrations, LogOk, OwnedOk, IdsOk, ToldOk, BoundOk;
      ClientReplaced(clients, fd, next, nextClient, owner, delivered);
      clients := clients[fd := next];
    }

    /** What is to be remembered before client `id`'s first frame in `buffer` is answered. */
    ghost function Now(buffer: Bytes, id: nat, w: World): Before
      reads this`epoch, this`owner, this`clients, this`answered, this`tracked, this`fieldBinding, this`producer, this`replies, this`delivered
    {
      Before(epoch, Stands(), owner, clients.Keys, answered, replies, delivered, Undisturbed(decode(FirstFrame(buffer)), w.answers, id))
    }

    /**
     The first frame of `buffer` was answered for client `id` on `fd`, and no other; nothing was said to another
     client, and to this one, while it stays, what the frame has to be answered with. The dispatch ends in an
     exception exactly when that frame cannot be answered and the client stays, which then keeps the rest.
     */
    ghost predicate TookFirst(before: Before, fd: int, id: nat, buffer: Bytes, escaped: bool, w: World)
      reads this
    {
      var frame := decode(FirstFrame(buffer));
      && OneMore(before.answered, answered, id) && answered[id] == before.answered[id] + [FirstFrame(buffer)]
      && (escaped <==> fd in clients && Unanswerable(frame))
      && var said := Said(before.replies, replies, id);
      && replies == Posted(before.replies, id, said) && delivered == before.delivered + Focuses(id, said)
      && (fd in clients ==> AnsweredIn(before.standing, frame, before.owner, id, w, said))
      && (Disrupting(frame, before.owner, id) ==> before.epoch < epoch)
      && (Ownerless(frame, before.owner) ==> fd in clients && !clients[fd].scheduled)
      && (fd in clients ==> clients[fd].buffer == AfterFirst(buffer) && clients[fd].id == id)
      && (fd in clients && clients[fd].scheduled ==> NEWLINE in clients[fd].buffer)
      && (obliging && frame.Meant? ==> clients.Keys == before.connected)
      && (obliging && !w.slow ==> Effects(w.answers, before.undisturbed, frame, before.epoch, said))
    }

    /**
     Answer one buffered frame: exactly one when the expected client has a whole one. Afterwards each client
     with a whole frame has exactly one callback, unless its last frame could not be answered; that frame is
     the one just taken exactly when this dispatch ended in an exception.
     */
    method ProcessNext(fd: int, expected: Option<nat>, w: World) returns (escaped: bool)
      requires Working() && PumpOk(clients, {fd}, idle, received, answered, nextClient, decode)
      requires fd in clients && (expected.None? || expected.value == clients[fd].id) ==>
        Unsettled(fd, clients[fd], idle, received, answered)
      requires fd !in clients || (expected.Some? && expected.value != clients[fd].id) ==> Valid()
      modifies this
      ensures Valid() && old(epoch) <= epoch && unchanged(`received, `nextClient) && Fewer(old(clients), clients)
      ensures fd !in old(clients) || (expected.Some? && expected.value != old(clients)[fd].id) ==> unchanged(this)
      ensures var due := fd in old(clients) && (expected.None? || expected.value == old(clients)[fd].id)
                 && NEWLINE in old(clients)[fd].buffer;
        if due
        then TookFirst(old(Now(clients[fd].buffer, clients[fd].id, w)), fd, old(clients)[fd].id, old(clients)[fd].buffer, escaped, w)
        else !escaped && unchanged(`answered, `replies, `delivered)
    {
      hide Ledger, LogOk, OwnedOk, IdsOk, ToldOk, BoundOk, PumpOk, WithinFrameLimits, Conserved, CaretLineOk, OwnerLive;
      hide Unanswerable, Disrupting, Ownerless, Steady, TookFirst, Undisturbed;
      escaped := false;
      if fd !in clients || (expected.Some? && expected.value != clients[fd].id) {
        return;
      }
      if NEWLINE !in clients[fd].buffer {
        Unschedule(fd);
        return;
      }
      escaped := AnswerFirst(fd, w);
    }

    /** Without a whole frame nothing is scheduled. */
    method Unschedule(fd: int)
      requires Working() && PumpOk(clients, {fd}, idle, received, answered, nextClient, decode)
      requires fd in clients && Unsettled(fd, clients[fd], idle, received, answered) && NEWLINE !in clients[fd].buffer
      modifies this`clients
      ensures Valid() && clients == old(clients)[fd := old(clients)[fd].(scheduled := false)]
    {
      hide Ledger, LogOk, OwnedOk, IdsOk, ToldOk, BoundOk, PumpOk, WithinFrameLimits, Conserved, CaretLineOk, OwnerLive, Unanswerable;
      ghost var id := clients[fd].id;
      PumpSkips(clients, fd, clients[fd].(scheduled := false), idle, received, answered,
                received[id], answered[id], nextClient, decode);
      assert received[id := received[id]] == received && answered[id := answered[id]] == answered;
      ReplaceClient(fd, clients[fd].(scheduled := false));
      UnsettledIsOk(fd, clients[fd], idle, received, answered, decode);
      PumpSettles(clients, fd, idle, received, answered, nextClient, decode);
    }

    /** Take the first frame of a client's buffer and answer it. */
    method AnswerFirst(fd: int, w: World) returns (escaped: bool)
      requires Working() && PumpOk(clients, {fd}, idle, received, answered, nextClient, decode)
      requires fd in clients && Unsettled(fd, clients[fd], idle, received, answered) && NEWLINE in clients[fd].buffer
      modifies this
      ensures Valid() && old(epoch) <= epoch && unchanged(`received, `nextClient) && Fewer(old(clients), clients)
      ensures TookFirst(old(Now(clients[fd].buffer, clients[fd].id, w)), fd, old(clients)[fd].id, old(clients)[fd].buffer, escaped, w)
    {
      hide Ledger, LogOk, OwnedOk, IdsOk, ToldOk, BoundOk, PumpOk, WithinFrameLimits, Conserved, CaretLineOk, OwnerLive;
      hide Unanswerable, Disrupting, Ownerless, Working, MalformedFrame, Effects, Undisturbed, AnsweredIn, Posted, Said, Focuses, FieldKept;
      var frame := TakeFrame(fd);
      ghost var before := clients;
      var reply, late, said := Answer(fd, frame, w);
      SaidIs(old(replies), old(clients)[fd].id, said);
      PumpShrinks(before, clients, {fd}, idle, received, answered, nextClient, decode);
      escaped := reply.Escaped?;
      match reply
      case IllFormed =>
        Disconnect(fd);
        NoEffects(w.answers, old(Undisturbed(decode(FirstFrame(clients[fd].buffer)), w.answers, clients[fd].id)),
                  decode(frame), old(epoch), said);
      case Escaped =>
        UnsettledIsOk(fd, clients[fd], idle, received, answered, decode);
        PumpSettles(clients, fd, idle, received, answered, nextClient, decode);
      case WellFormed =>
        Reschedule(fd);
    }

    /** After an answer, a client that is still connected and has a whole frame left gets a callback. */
    method Reschedule(fd: int)
      requires Working() && PumpOk(clients, {fd}, idle, received, answered, nextClient, decode)
      requires fd in clients ==> !clients[fd].scheduled && Unsettled(fd, clients[fd], idle, received, answered)
      requires fd in clients ==> !Stopped(answered[clients[fd].id], decode)
      modifies this`clients, this`idle
      ensures Valid() && clients.Keys == old(clients).Keys && Fewer(old(clients), clients)
      ensures fd in clients && clients[fd].scheduled ==> NEWLINE in clients[fd].buffer
      ensures fd in clients ==> clients[fd] == old(clients)[fd].(scheduled := clients[fd].scheduled)
    {
      hide SubscriptionsOk, ArmedOk, Registrations, LogOk, OwnedOk, IdsOk, ToldOk, BoundOk, PumpOk, WithinFrameLimits, Conserved;
      if fd in clients && NEWLINE in clients[fd].buffer {
        PumpSchedules(clients, fd, clients[fd].(scheduled := true), idle, received, answered, nextClient, decode);
        idle := idle + multiset{Callback(fd, clients[fd].id)};
        ReplaceClient(fd, clients[fd].(scheduled := true));
      } else {
        if fd in clients {
          UnsettledIsOk(fd, clients[fd], idle, received, answered, decode);
        }
        PumpSettles(clients, fd, idle, received, answered, nextClient, decode);
      }
    }

    /** The main loop runs one idle callback; a stale one, on a descriptor since reused, changes nothing else. */
    method DispatchIdle(callback: Callback, w: World) returns (escaped: bool)
      requires Valid() && callback in idle
      modifies this
      ensures Valid() && old(epoch) <= epoch && unchanged(`received, `nextClient) && Fewer(old(clients), clients)
      ensures var due := callback.fd in old(clients) && old(clients)[callback.fd].id == callback.id
                 && NEWLINE in old(clients)[callback.fd].buffer;
        if due
        then TookFirst(old(Now(clients[callback.fd].buffer, callback.id, w)), callback.fd, callback.id,
                   old(clients)[callback.fd].buffer, escaped, w)
        else !escaped && unchanged(`answered, `replies, `delivered)
      ensures callback.fd !in old(clients) || old(clients)[callback.fd].id != callback.id ==>
        idle == old(idle) - multiset{callback} && unchanged(`clients, `answered, `epoch, `tracked, `hold, `delivered, `owner)
    {
      hide SubscriptionsOk, ArmedOk, Registrations, LogOk, OwnedOk, IdsOk, ToldOk, BoundOk, PumpOk, WithinFrameLimits, Conserved;
      hide Unanswerable, CaretLineOk, OwnerLive, TookFirst, Undisturbed, Disrupting, Ownerless;
      PumpDispatches(clients, callback, idle, received, answered, nextClient, decode);
      idle := idle - multiset{callback};
      assert Working();
      escaped := ProcessNext(callback.fd, Some(callback.id), w);
    }

    /** Everything about one dispatch but the frames a client sends: no stream grew and no frame was answered. */
    twostate predicate NoFrames()
      reads this
    {
      old(epoch) <= epoch && unchanged(`nextClient, `received, `answered, `delivered, `replies) && Fewer(old(clients), clients)
    }

    /**
     A client's descriptor is readable: buffer the bytes and answer the first whole frame. A watch for a
     client that is gone does nothing; too much, or too long a frame, disconnects; a frame that cannot be
     answered raises.
     */
    method Read(fd: int, expected: Option<nat>, event: ReadEvent, w: World) returns (r: Outcome<bool>)
      requires Valid()
      modifies this
      ensures Valid() && old(epoch) <= epoch && unchanged(`nextClient) && Fewer(old(clients), clients)
      ensures Appended(old(received), received)
      ensures expected.Some? && (fd !in old(clients) || old(clients)[fd].id != expected.value) ==>
        r == Got(false) && unchanged(this)
      ensures !r.Refused? && (r.Got? && r.value ==> fd in clients)
      ensures if fd in old(clients) && (expected.None? || old(clients)[fd].id == expected.value) && event.Data? && event.bytes != []
        then old(clients)[fd].id in old(received)
          && received == old(received)[old(clients)[fd].id := old(received)[old(clients)[fd].id] + event.bytes]
        else received == old(received)
      ensures var known := fd in old(clients) && (expected.None? || old(clients)[fd].id == expected.value);
        var buffer := if known && event.Data? then old(clients)[fd].buffer + event.bytes else [];
        var within := known && event.Data? && event.bytes != [] && WithinFrameLimits(buffer);
        var due := within && NEWLINE in buffer && !old(clients)[fd].scheduled;
        && (known && event.WouldBlock? ==> r == Got(true) && unchanged(this))
        && (known && (event.Gone? || (event.Data? && !within)) ==> fd !in clients)
        && (within && !due ==> r == Got(true) && clients == old(clients)[fd := old(clients)[fd].(buffer := buffer)])
        && (if due then TookFirst(old(Now(buffer, clients[fd].id, w)), fd, old(clients)[fd].id, buffer, r.Raised?, w)
            else r.Got? && unchanged(`answered, `replies, `delivered))
    {
      hide SubscriptionsOk, ArmedOk, Registrations, LogOk, OwnedOk, IdsOk, ToldOk, BoundOk, WithinFrameLimits, Conserved, ClientOk;
      hide TookFirst, Undisturbed, FirstFrame, AfterFirst, Working;
      if expected.Some? && (fd !in clients || clients[fd].id != expected.value) {
        return Got(false);
      }
      if fd !in clients {
        return Got(false);
      }
      match event
      case WouldBlock =>
        return Got(true);
      case Gone =>
        Disconnect(fd);
        return Got(false);
      case Data(bytes) =>
        if bytes == [] {
          Disconnect(fd);
          return Got(false);
        }
        Receive(fd, bytes);
        if !WithinFrameLimits(clients[fd].buffer) {
          Disconnect(fd);
          return Got(false);
        }
        ScheduledOnce(fd, clients[fd], old(clients)[fd], idle, old(received), received, answered, decode);
        if NEWLINE in clients[fd].buffer && !clients[fd].scheduled {
          assert clients.Keys == old(clients).Keys;
          var escaped := ProcessNext(fd, None, w);
          if escaped {
            return Raised;
          }
        } else {
          PumpSettles(clients, fd, idle, received, answered, nextClient, decode);
        }
        return Got(fd in clients);
    }

    /** Bytes join a client's buffer. */
    method Receive(fd: int, bytes: Bytes)
      requires Valid() && fd in clients
      modifies this`clients, this`received
      ensures Working() && PumpOk(clients, {fd}, idle, received, answered, nextClient, decode)
      ensures clients == old(clients)[fd := old(clients)[fd].(buffer := old(clients)[fd].buffer + bytes)]
      ensures old(clients)[fd].id in old(received)
      ensures received == old(received)[clients[fd].id := old(received)[clients[fd].id] + bytes]
      ensures ClientOk(fd, old(clients)[fd], idle, old(received), answered, decode)
    {
      hide SubscriptionsOk, ArmedOk, Registrations, LogOk, OwnedOk, IdsOk, ToldOk, BoundOk, WithinFrameLimits, Conserved;
      var client := clients[fd];
      var next := client.(buffer := client.buffer + bytes);
      assert ClientOk(fd, client, idle, received, answered, decode);
      PumpSkips(clients, fd, next, idle, received, answered, received[client.id] + bytes, answered[client.id], nextClient, decode);
      assert answered[client.id := answered[client.id]] == answered;
      received := received[client.id := received[client.id] + bytes];
      ReplaceClient(fd, next);
    }

    /** A new connection of this user, on a descriptor no connected client has, unless there are enough. */
    method Accept(fd: int, sameUser: bool)
      requires Valid() && fd !in clients
      modifies this`clients, this`received, this`answered, this`nextClient
      ensures Valid()
      ensures clients == if sameUser && |old(clients)| < MAX_CLIENTS
                         then old(clients)[fd := Client(old(nextClient), [], false)] else old(clients)
      ensures Appended(old(received), received) && Appended(old(answered), answered) && OneAtMost(old(answered), answered)
      ensures if clients == old(clients) then unchanged(`answered, `nextClient)
              else answered == old(answered)[old(nextClient) := []] && nextClient == old(nextClient) + 1
    {
      hide Appended, OneAtMost, Valid;
      StreamAdded(received, nextClient);
      StreamAdded(answered, nextClient);
      FramesUnanswered(answered, nextClient);
      if sameUser && |clients| < MAX_CLIENTS {
        NewIdentity();
        Connect(fd);
      }
    }

    lemma NewIdentity()
      requires Valid()
      ensures nextClient !in received && nextClient !in answered
    {
      hide SubscriptionsOk, ArmedOk, Registrations, LogOk, OwnedOk, IdsOk, ToldOk, BoundOk, OwnerLive, CaretLineOk, ClientOk;
    }

    method Connect(fd: int)
      requires Valid() && fd !in clients && |clients| < MAX_CLIENTS
      modifies this`clients, this`received, this`answered, this`nextClient
      ensures Valid() && clients == old(clients)[fd := Client(old(nextClient), [], false)]
      ensures received == old(received)[old(nextClient) := []] && answered == old(answered)[old(nextClient) := []]
      ensures nextClient == old(nextClient) + 1
    {
      hide SubscriptionsOk, ArmedOk, Registrations, LogOk, OwnedOk, IdsOk, ToldOk, BoundOk, PumpOk, OwnerLive, CaretLineOk;
      PumpAccepts(clients, fd, idle, received, answered, nextClient, decode);
      ClientAdded(clients, fd, nextClient, owner, delivered);
      received, answered, clients, nextClient :=
        received[nextClient := []], answered[nextClient := []], clients[fd := Client(nextClient, [], false)], nextClient + 1;
    }

    // -------------------------------------------------------------- events from the desktop

    /** End the epoch between dispatches. */
    method InvalidateNow()
      requires Sound() && |clients| <= MAX_CLIENTS && PumpOk(clients, {}, idle, received, answered, nextClient, decode)
      modifies this
      ensures Valid() && Withdrawn() && tracked.None? && old(epoch) < epoch && NoFrames() && unchanged(`idle, `nextClient)
      ensures unchanged(`producer, `registered, `clock)
    {
      hide Ledger, LogOk, OwnedOk, IdsOk, ToldOk, BoundOk, ClientOk;
      Invalidate();
      ClientsShrink(old(clients), clients);
      PumpShrinks(old(clients), clients, {}, idle, received, answered, nextClient, decode);
    }

    /** Any focus change ends the epoch of a tracked field. */
    method FocusEvent()
      requires Valid()
      modifies this
      ensures Valid() && NoFrames() && tracked.None?
      ensures if old(tracked).Some? then old(epoch) < epoch && Withdrawn() else unchanged(this)
    {
      if tracked.Some? {
        InvalidateNow();
      }
    }

    /** Another window is active: no field, and no application asked for events. */
    method WindowChanged()
      requires Valid()
      modifies this
      ensures Valid() && NoFrames() && tracked.None? && fieldBinding.None? && live == map[] && registered == {}
      ensures if old(tracked).Some? then old(epoch) < epoch else unchanged(`epoch, `clients, `owner)
    {
      hide LogOk, OwnedOk, IdsOk, ToldOk, ClientOk, PumpOk;
      if tracked.Some? {
        InvalidateNow();
      }
      NothingTracked(live, used, fieldSubscription, ancestorSubscriptions, epoch, tracked, hold, fieldBinding, clock, producer);
      WithdrawUnarmed();
    }

    /** A scroll of the armed field or of a pane above it; a failure ends the suggestion. */
    method Scrolled(a: FieldAnswer, drawing: Drawing) returns (ghost now: real)
      requires Valid()
      modifies this
      ensures Valid() && NoFrames() && Followed(a, drawing, now) && Outlives(old(Seen()), Seen())
    {
      hide Ledger, LogOk, OwnedOk, IdsOk, ToldOk, BoundOk, ClientOk;
      var completed: bool;
      completed, now := RepositionPreview(a, drawing);
      ClientsShrink(old(clients), clients);
      PumpShrinks(old(clients), clients, {}, idle, received, answered, nextClient, decode);
      if !completed {
        InvalidateNow();
      }
    }

    /** The armed field reports a scroll, a change of text attributes, or anything else. */
    method FieldEvent(signal: string, a: FieldAnswer, drawing: Drawing) returns (ghost now: real)
      requires Valid()
      modifies this
      ensures Valid() && NoFrames()
      ensures signal == "TextAttributesChanged" ==> unchanged(this)
      ensures signal in {"BoundsChanged", "VisibleDataChanged"} ==> Followed(a, drawing, now) && Outlives(old(Seen()), Seen())
      ensures signal !in {"BoundsChanged", "VisibleDataChanged", "TextAttributesChanged"} ==> Withdrawn() && old(epoch) < epoch
    {
      hide Followed, Outlives;
      now := clock;
      if signal == "BoundsChanged" || signal == "VisibleDataChanged" {
        now := Scrolled(a, drawing);
      } else if signal != "TextAttributesChanged" {
        InvalidateNow();
      }
    }

    /** The timer of a held preview; it stops itself once nothing is held. */
    method CheckPreview(a: FieldAnswer) returns (again: bool)
      requires Valid()
      modifies this
      ensures Valid() && NoFrames() && watching == again == hold.Some?
      ensures again <==> old(hold).Some? && (old(hold).value.expires <= clock || old(InPlace(a)))
      ensures if again || old(hold).None? then FieldKept() else Withdrawn() && old(epoch) < epoch
    {
      hide Ledger, LogOk, OwnedOk, IdsOk, ToldOk, BoundOk, ClientOk, InPlace, PumpOk, OwnerLive, CaretLineOk;
      if hold.Some? {
        var moved := PreviewMoved(a);
        ClientsShrink(old(clients), clients);
        PumpShrinks(old(clients), clients, {}, idle, received, answered, nextClient, decode);
        if moved.Raised? {
          InvalidateNow();
        }
      }
      again := hold.Some?;
      SetWatching(again);
    }

    method SetWatching(on: bool)
      requires Valid() && (hold.Some? ==> on)
      modifies this`watching
      ensures Valid() && watching == on
    {
      hide SubscriptionsOk, ArmedOk, Registrations, LogOk, OwnedOk, IdsOk, ToldOk, BoundOk, PumpOk;
      watching := on;
    }

    /** The preview's own lifetime ends. */
    method PreviewExpires()
      requires Valid()
      modifies this`visible
      ensures Valid() && !visible
    {
      hide SubscriptionsOk, ArmedOk, Registrations, LogOk, OwnedOk, IdsOk, ToldOk, BoundOk, PumpOk;
      visible := false;
    }

    /** Leave nothing behind: no client, no subscription and, while the bus is open, no registration. */
    method Shutdown(busOpen: bool)
      requires Valid()
      modifies this
      ensures Valid() && NoFrames() && clients == map[] && owner.None? && live == map[]
      ensures if busOpen then registered == {} else unchanged(`registered, `producer)
    {
      hide PumpOk, LogOk, OwnedOk, IdsOk, ToldOk, BoundOk, Ledger, OwnerLive;
      var fds := clients.Keys;
      while fds != {}
        invariant Valid() && NoFrames() && clients.Keys == fds && unchanged(`registered, `producer)
      {
        SomeDescriptor(fds);
        var fd :| fd in fds;
        CloseConnected(fd);
        fds := fds - {fd};
      }
      assert clients == map[];
      NoClients();
      Disarm();
      if busOpen {
        WithdrawUnarmed();
      }
    }

    /** Without clients there is no owner. */
    lemma NoClients()
      requires Valid() && clients == map[]
      ensures owner.None?
    {
    }

    method WithdrawUnarmed()
      requires Valid() && fieldBinding.None?
      modifies this`registered, this`producer
      ensures Valid() && registered == {}
    {
      hide LogOk, OwnedOk, IdsOk, ToldOk, PumpOk, SubscriptionsOk, Registrations, BoundOk;
      WithdrawProducer();
      NoRegistrations();
    }

    method CloseConnected(fd: int)
      requires Valid() && fd in clients
      modifies this
      ensures Valid() && NoFrames() && clients == old(clients) - {fd} && unchanged(`registered, `producer)
    {
      hide Ledger, LogOk, OwnedOk, IdsOk, ToldOk, BoundOk, ClientOk;
      CloseClient(fd);
      ClientsShrink(old(clients), clients);
      PumpShrinks(old(clients), clients, {}, idle, received, answered, nextClient, decode);
    }

    method Disarm()
      requires Valid()
      modifies this`live, this`ancestorSubscriptions, this`fieldSubscription, this`fieldBinding
      ensures Valid() && live == map[] && fieldBinding.None? && fieldSubscription.None? && ancestorSubscriptions == []
    {
      hide LogOk, OwnedOk, IdsOk, ToldOk, PumpOk, SubscriptionsOk, ArmedOk, Registrations;
      DisarmFieldEvents();
    }

    // -------------------------------------------------------------- whole runs

    /** The epoch never goes back, and no reply, byte or answer once logged is lost or changed. */
    twostate predicate Later()
      reads this
    {
      && old(epoch) <= epoch && old(delivered) <= delivered
      && Appended(old(received), received) && Appended(old(answered), answered) && Appended(old(replies), replies)
    }

    /**
     Any events in any order, each of which does what it has to. Afterwards, still, two replies of one epoch name one field and
     one target; every frame of a connected client was answered, in order, with a reply that fits it, unless
     it could not be answered; what a client sent is its answered frames, in order, and its buffer; a whole frame waits for
     exactly one callback if and only if the client's last frame could be answered; the owner is a connected
     client; a held preview and an armed field are the tracked field's, in this epoch; and so is the caret
     line, if and only if no invalidation came while its text was read again or serialized.
     */
    method Run(events: seq<Event>) returns (ghost states: seq<State>)
      requires Valid() && Accounts()
      modifies this
      ensures Valid() && Accounts() && Later()
      ensures |states| == |events| + 1 && states[0] == old(Seen()) && states[|events|] == Seen()
      ensures forall i, next :: 0 <= i < |events| && next == i + 1 ==> Handled(events[i], states[i], states[next])
      ensures OneField() && RepliesKept() && StreamsKept() && WaitingIsScheduled()
      ensures owner.Some? ==> owner.value.fd in clients && clients[owner.value.fd].id == owner.value.id
      ensures hold.Some? ==> tracked.Some? && hold.value.request.binding == Some(Binding(epoch, tracked.value))
      ensures fieldBinding.Some? ==> tracked.Some? && fieldBinding.value == Binding(epoch, tracked.value)
      ensures edges != NO_EDGES ==> origin.epoch <= epoch && (origin.epoch == epoch <==> !origin.late)
      ensures edges.textEnds ==> !origin.rich
    {
      hide Valid, Accounts, Appended, OneField, RepliesKept, StreamsKept, WaitingIsScheduled, Handled;
      states := [Seen()];
      AppendedRefl(received);
      AppendedRefl(answered);
      AppendedRefl(replies);
      for i := 0 to |events|
        invariant Valid() && Accounts() && Later()
        invariant |states| == i + 1 && states[0] == old(Seen()) && states[i] == Seen()
        invariant forall j, next :: 0 <= j < i && next == j + 1 ==> Handled(events[j], states[j], states[next])
      {
        ghost var r, a, s := received, answered, replies;
        Dispatch(events[i]);
        states := states + [Seen()];
        AppendedTrans(old(received), r, received);
        AppendedTrans(old(answered), a, answered);
        AppendedTrans(old(replies), s, replies);
      }
      Consequences();
      Accountable();
    }

    /** Each frame of a connected client was answered with its own replies, one after the other; every focus reply is on record. */
    ghost predicate RepliesKept()
      reads this
    {
      && (forall fd :: fd in clients ==> var id := clients[fd].id;
            id in answered && Accounted(answered[id], To(replies, id), decode))
      && forall id: nat :: DeliveredTo(delivered, id) == Focuses(id, To(replies, id))
    }

    lemma Accountable()
      requires Accounts()
      ensures RepliesKept()
    {
    }

    /** Two replies of one epoch name one field and one target. */
    ghost predicate OneField()
      reads this
    {
      forall d, e :: d in delivered && e in delivered && d.binding.epoch == e.binding.epoch ==>
        d.binding == e.binding && d.target == e.target
    }

    /** What a connected client sent is its answered frames, in order, and its buffer. */
    ghost predicate StreamsKept()
      reads this
    {
      forall fd :: fd in clients ==>
        var id := clients[fd].id;
        id in received && id in answered && received[id] == Joined(answered[id]) + clients[fd].buffer
    }

    /** A whole frame waits for exactly one callback if and only if its client's last frame could be answered. */
    ghost predicate WaitingIsScheduled()
      reads this
    {
      forall fd :: fd in clients && NEWLINE in clients[fd].buffer ==>
        var id := clients[fd].id;
        id in answered && idle[Callback(fd, id)] <= 1
        && (Callback(fd, id) in idle <==> !Stopped(answered[id], decode)) && (clients[fd].scheduled <==> Callback(fd, id) in idle)
    }

    lemma Consequences()
      requires Valid()
      ensures OneField() && StreamsKept() && WaitingIsScheduled()
      ensures owner.Some? ==> owner.value.fd in clients && clients[owner.value.fd].id == owner.value.id
      ensures hold.Some? ==> tracked.Some? && hold.value.request.binding == Some(Binding(epoch, tracked.value))
      ensures fieldBinding.Some? ==> tracked.Some? && fieldBinding.value == Binding(epoch, tracked.value)
      ensures edges != NO_EDGES ==> origin.epoch <= epoch && (origin.epoch == epoch <==> !origin.late)
      ensures edges.textEnds ==> !origin.rich
    {
      hide SubscriptionsOk, ArmedOk, OwnedOk, ToldOk, IdsOk, WithinFrameLimits, Unanswerable;
      forall d, e | d in delivered && e in delivered && d.binding.epoch == e.binding.epoch
        ensures d.target == e.target
      {
        assert policy.TargetOf(d.binding) == Some(d.target) && policy.TargetOf(e.binding) == Some(e.target);
      }
    }

    /** Each frame of a connected client was answered with its own replies, and focus replies are those that were delivered. */
    ghost predicate Accounts()
      reads this
    {
      AccountsOk(clients, replies, answered, delivered, nextClient, decode)
    }

    /** One answered frame keeps the accounts. */
    lemma TookAccounts(before: Before, was: map<int, Client>, fd: int, id: nat, buffer: Bytes, escaped: bool, w: World)
      requires AccountsOk(was, before.replies, before.answered, before.delivered, nextClient, decode) && Fewer(was, clients)
      requires fd in was && was[fd].id == id < nextClient && forall gd :: gd in was && gd != fd ==> was[gd].id != id
      requires TookFirst(before, fd, id, buffer, escaped, w)
      ensures Accounts() && OneMore(before.answered, answered, id) && before.delivered <= delivered
      ensures Appended(before.replies, replies)
    {
      hide FirstFrame, AfterFirst, Unanswerable, Disrupting, Ownerless, Effects, Busy, AccountsOk, Posted, Focuses, Said, OneMore;
      hide AnsweredWith, Fitting;
      var said := Said(before.replies, replies, id);
      if fd in clients {
        BusyMeansOwner(before.owner, id);
        var frame := decode(FirstFrame(buffer));
        AnswerFits(before.standing, frame, frame.Meant? && Busy(frame.request, before.owner, id), w, said);
      }
      AccountsAnswered(was, clients, before.replies, before.answered, answered, before.delivered, nextClient, decode, fd,
                       FirstFrame(buffer), said);
      PostedAppends(before.replies, id, said);
    }

    /** An inspection that nothing disturbs is answered with the field that was found, and that is on record. */
    lemma InspectionIsDelivered(before: Before, fd: int, id: nat, buffer: Bytes, escaped: bool, w: World)
      requires TookFirst(before, fd, id, buffer, escaped, w) && before.undisturbed && obliging && !w.slow
      requires decode(FirstFrame(buffer)).Meant? && decode(FirstFrame(buffer)).request.Inspect? && w.answers.field.read.Got?
      ensures var key := w.answers.field.read.value.id.(app := decode(FirstFrame(buffer)).request.app);
        var b := Binding(before.epoch, key);
        && tracked == Some(key) && epoch == before.epoch && policy.TargetOf(b).Some?
        && replies == Posted(before.replies, id, [Focused(Focus(b, policy.TargetOf(b).value, false))])
        && delivered == before.delivered + [Delivery(id, b, policy.TargetOf(b).value)]
    {
      hide OneMore, FirstFrame, AfterFirst, Unanswerable, Disrupting, Ownerless, AnsweredIn, Posted, Said;
      var said := Said(before.replies, replies, id);
      FocusesOf(id, said[0]);
      assert said == [said[0]];
    }

    lemma BusyMeansOwner(who: Option<Owner>, id: nat)
      ensures forall request: Request :: Busy(request, who, id) ==> OwnerOperation(request)
    {
    }

    lemma DistinctClients(fd: int)
      requires Valid() && fd in clients
      ensures clients[fd].id < nextClient && forall gd :: gd in clients && gd != fd ==> clients[gd].id != clients[fd].id
    {
      hide Working, ClientOk;
    }

    /** A readable descriptor, with the accounts kept. */
    method ReadOne(fd: int, expected: Option<nat>, event: ReadEvent, w: World)
      requires Valid() && Accounts()
      modifies this
      ensures Valid() && Accounts() && Later() && OneAtMost(old(answered), answered)
      ensures Handled(Readable(fd, expected, event, w), old(Seen()), Seen())
    {
      hide Valid, TookFirst, AccountsOk, FirstFrame, AfterFirst, WithinFrameLimits, OneAtMost, Appended, Undisturbed, Fewer, OneMore;
      if fd in clients {
        DistinctClients(fd);
      }
      var read := Read(fd, expected, event, w);
      AppendedRefl(replies);
      AnsweredOnce(old(answered), answered);
      if !unchanged(`answered) || !unchanged(`replies) || !unchanged(`delivered) {
        ghost var buffer := old(clients)[fd].buffer + event.bytes;
        TookAccounts(old(Now(buffer, clients[fd].id, w)), old(clients), fd, old(clients)[fd].id, buffer, read.Raised?, w);
      } else {
        AccountsFewer(old(clients), clients, replies, answered, delivered, nextClient, decode);
      }
    }

    /** An idle callback, with the accounts kept. */
    method CallbackOne(callback: Callback, w: World)
      requires Valid() && Accounts() && callback in idle
      modifies this
      ensures Valid() && Accounts() && Later() && OneAtMost(old(answered), answered)
      ensures Handled(Called(callback, w), old(Seen()), Seen())
    {
      hide Valid, TookFirst, AccountsOk, FirstFrame, AfterFirst, OneAtMost, Appended, Undisturbed, Fewer, OneMore;
      if callback.fd in clients {
        DistinctClients(callback.fd);
      }
      var escaped := DispatchIdle(callback, w);
      AppendedRefl(received);
      AppendedRefl(replies);
      AnsweredOnce(old(answered), answered);
      if callback.fd in old(clients) && old(clients)[callback.fd].id == callback.id && NEWLINE in old(clients)[callback.fd].buffer {
        TookAccounts(old(Now(clients[callback.fd].buffer, callback.id, w)), old(clients), callback.fd, callback.id,
                     old(clients)[callback.fd].buffer, escaped, w);
      } else {
        AccountsFewer(old(clients), clients, replies, answered, delivered, nextClient, decode);
      }
    }

    /** A new connection, with the accounts kept. */
    method ConnectOne(fd: int, sameUser: bool)
      requires Valid() && Accounts() && fd !in clients
      modifies this
      ensures Valid() && Accounts() && Later() && OneAtMost(old(answered), answered)
      ensures clients == if sameUser && |old(clients)| < MAX_CLIENTS
                         then old(clients)[fd := Client(old(nextClient), [], false)] else old(clients)
    {
      hide Valid, AccountsOk, OneAtMost, Appended, Fewer;
      AppendedRefl(replies);
      NewIdentity();
      Accept(fd, sameUser);
      if clients != old(clients) {
        AccountsAccept(old(clients), fd, replies, old(answered), delivered, old(nextClient), decode);
      }
    }

    /** What a run can be seen to do. */
    ghost function Seen(): State
      reads this
    {
      State(epoch, tracked, hold, visible, watching, clients, idle, received, answered, replies, nextClient)
    }

    /** No frame was sent or answered. */
    lemma NoFramesKept(was: map<int, Client>)
      requires AccountsOk(was, replies, answered, delivered, nextClient, decode) && Fewer(was, clients)
      ensures Accounts()
      ensures Appended(received, received) && Appended(answered, answered) && Appended(replies, replies) && OneAtMost(answered, answered)
    {
      AccountsFewer(was, clients, replies, answered, delivered, nextClient, decode);
    }

    /** One dispatch of the main loop answers one frame at most. */
    method Dispatch(e: Event)
      requires Valid() && Accounts()
      modifies this
      ensures Valid() && Accounts() && Later() && OneAtMost(old(answered), answered) && Handled(e, old(Seen()), Seen())
    {
      hide Valid, OneAtMost, Appended, Fewer, AccountsOk, WithinFrameLimits, OneMore;
      NothingAnswered(received, answered);
      AppendedRefl(replies);
      if e.Connecting? && e.fd !in clients {
        ConnectOne(e.fd, e.sameUser);
      } else if e.Readable? {
        ReadOne(e.fd, e.expected, e.event, e.w);
      } else if e.Called? && e.callback in idle {
        CallbackOne(e.callback, e.w);
      } else {
        DispatchEvent(e);
        NoFramesKept(old(clients));
      }
    }

    /** An event from the desktop, or a timer. */
    method DispatchEvent(e: Event)
      requires Valid()
      modifies this
      ensures Valid() && NoFrames() && Happened(e, old(Seen()), Seen())
    {
      hide Valid;
      match e
      case FocusMoved => FocusEvent();
      case WindowMoved => WindowChanged();
      case Signalled(signal, a, drawing) =>
        var _ := FieldEvent(signal, a, drawing);
      case PaneScrolled(a, drawing) =>
        var _ := Scrolled(a, drawing);
      case Ticked(a) =>
        if watching {
          var _ := CheckPreview(a);
        }
      case Expired => PreviewExpires();
      case _ =>
    }
  }

  /** What reaches the main loop: sockets, its own callbacks, the desktop, the armed field and timers. */
  datatype Event =
    | Connecting(fd: int, sameUser: bool)
    | Readable(fd: int, expected: Option<nat>, event: ReadEvent, w: World)
    | Called(callback: Callback, w: World)
    | FocusMoved
    | WindowMoved
    | Signalled(signal: string, a: FieldAnswer, drawing: Drawing)
    | PaneScrolled(a: FieldAnswer, drawing: Drawing)
    | Ticked(a: FieldAnswer)
    | Expired

  datatype State = State(epoch: nat, tracked: Option<Identity>, hold: Option<Hold>, visible: bool, watching: bool, clients: map<int, Client>,
                         idle: multiset<Callback>, received: map<nat, Bytes>, answered: map<nat, seq<Bytes>>, replies: map<nat, seq<Reply>>, nextId: nat)

  /** A suggestion that outlives an event was there before, with no shorter a lifetime. */
  predicate Outlives(s: State, t: State) {
    t.hold.Some? ==>
      s.hold.Some? && (
        var before, after := s.hold.value.request, t.hold.value.request;
        after == before || (after == before.(ttl := after.ttl) && 50 <= after.ttl <= before.ttl))
  }

  /** What an event that sends no frame comes to. */
  ghost predicate Happened(e: Event, s: State, t: State) {
    match e
    case FocusMoved => t.tracked.None? && (if s.tracked.Some? then s.epoch < t.epoch && t.hold.None? && !t.visible else s == t)
    case WindowMoved => t.tracked.None? && (if s.tracked.Some? then s.epoch < t.epoch else t.epoch == s.epoch && t.clients == s.clients)
    case Signalled(signal, _, _) =>
      if signal == "TextAttributesChanged" then s == t
      else if signal in {"BoundsChanged", "VisibleDataChanged"} then Outlives(s, t)
      else s.epoch < t.epoch && t.hold.None? && !t.visible
    case PaneScrolled(_, _) => Outlives(s, t)
    case Ticked(_) =>
      if !s.watching then s == t else t.watching == t.hold.Some? && (t.hold == s.hold || (t.hold.None? && s.epoch < t.epoch))
    case Expired => !t.visible && t == s.(visible := false)
    case _ => true
  }

  /** What any event comes to. */
  ghost predicate Handled(e: Event, s: State, t: State) {
    match e
    case Connecting(fd, sameUser) =>
      fd !in s.clients ==> t.clients == if sameUser && |s.clients| < MAX_CLIENTS
        then s.clients[fd := Client(s.nextId, [], false)] else s.clients
    case Readable(fd, expected, event, _) =>
      if fd !in s.clients || (expected.Some? && s.clients[fd].id != expected.value) then t.received == s.received
      else
        var id := s.clients[fd].id;
        if event.Data? && event.bytes != [] then id in s.received && t.received == s.received[id := s.received[id] + event.bytes]
        else t.received == s.received && (event.Gone? || event.Data? ==> fd !in t.clients)
    case Called(callback, _) =>
      var fd := callback.fd;
      callback in s.idle && fd in s.clients && s.clients[fd].id == callback.id && NEWLINE in s.clients[fd].buffer ==>
        OneMore(s.answered, t.answered, callback.id)
    case _ => Happened(e, s, t)
  }

  /**
   Each of these frames in turn was answered with its own of these replies: none when it could not be
   answered, otherwise one that fits it, or two for a busy request past its deadline.
   */
  ghost predicate Accounted(frames: seq<Bytes>, said: seq<Reply>, decode: Bytes -> Decoded) {
    if frames == [] then said == []
    else
      var earlier, last := frames[..|frames| - 1], decode(frames[|frames| - 1]);
      exists k :: 0 <= k <= |said| && Fitting(last, said[k..]) && Accounted(earlier, said[..k], decode)
  }

  lemma AccountedMore(frames: seq<Bytes>, said: seq<Reply>, frame: Bytes, more: seq<Reply>, decode: Bytes -> Decoded)
    requires Accounted(frames, said, decode) && Fitting(decode(frame), more)
    ensures Accounted(frames + [frame], said + more, decode)
  {
    hide Fitting;
    var all := said + more;
    assert (frames + [frame])[..|frames|] == frames && all[..|said|] == said;
    assert all[|said|..] == more;
  }

  /** What was delivered to one client. */
  function DeliveredTo(delivered: seq<Delivery>, id: nat): seq<Delivery> {
    if delivered == [] then []
    else DeliveredTo(delivered[..|delivered| - 1], id)
         + if delivered[|delivered| - 1].client == id then [delivered[|delivered| - 1]] else []
  }

  lemma {:induction false} FocusesAppend(id: nat, a: seq<Reply>, b: seq<Reply>)
    ensures Focuses(id, a + b) == Focuses(id, a) + Focuses(id, b)
  {
    if b == [] {
      assert a + b == a;
    } else {
      assert (a + b)[..|a + b| - 1] == a + b[..|b| - 1];
      FocusesAppend(id, a, b[..|b| - 1]);
    }
  }

  lemma DeliveredOne(delivered: seq<Delivery>, d: Delivery, id: nat)
    ensures DeliveredTo(delivered + [d], id) == DeliveredTo(delivered, id) + if id == d.client then [d] else []
  {
    assert (delivered + [d])[..|delivered|] == delivered;
  }

  lemma {:induction false} DeliveredMore(delivered: seq<Delivery>, client: nat, said: seq<Reply>, id: nat)
    ensures DeliveredTo(delivered + Focuses(client, said), id)
      == DeliveredTo(delivered, id) + if id == client then Focuses(client, said) else []
  {
    hide DeliveredTo;
    if said == [] {
      assert delivered + [] == delivered && DeliveredTo(delivered, id) + [] == DeliveredTo(delivered, id);
    } else {
      var init, last := said[..|said| - 1], said[|said| - 1];
      var all := delivered + Focuses(client, init);
      DeliveredMore(delivered, client, init, id);
      if last.Focused? {
        var d := Delivery(client, last.focus.binding, last.focus.target);
        Assoc(delivered, Focuses(client, init), [d]);
        DeliveredOne(all, d, id);
        assert DeliveredTo(all, id) + [] == DeliveredTo(all, id);
      } else {
        assert Focuses(client, init) + [] == Focuses(client, init);
      }
    }
  }

  /** The accounts of connected clients, and of the focus replies to all clients there ever were. */
  ghost predicate AccountsOk(clients: map<int, Client>, replies: map<nat, seq<Reply>>, answered: map<nat, seq<Bytes>>,
                             delivered: seq<Delivery>, nextId: nat, decode: Bytes -> Decoded) {
    && (forall fd :: fd in clients ==> var id := clients[fd].id;
          id in answered && Accounted(answered[id], To(replies, id), decode))
    && (forall id :: id in replies ==> id < nextId)
    && forall id: nat :: DeliveredTo(delivered, id) == Focuses(id, To(replies, id))
  }

  lemma AccountsFewer(clients: map<int, Client>, now: map<int, Client>, replies: map<nat, seq<Reply>>,
                      answered: map<nat, seq<Bytes>>, delivered: seq<Delivery>, nextId: nat, decode: Bytes -> Decoded)
    requires AccountsOk(clients, replies, answered, delivered, nextId, decode) && Fewer(clients, now)
    ensures AccountsOk(now, replies, answered, delivered, nextId, decode)
  {
  }

  lemma AccountsAccept(clients: map<int, Client>, fd: int, replies: map<nat, seq<Reply>>, answered: map<nat, seq<Bytes>>,
                       delivered: seq<Delivery>, nextId: nat, decode: Bytes -> Decoded)
    requires AccountsOk(clients, replies, answered, delivered, nextId, decode)
    requires nextId !in answered
    ensures AccountsOk(clients[fd := Client(nextId, [], false)], replies, answered[nextId := []], delivered, nextId + 1, decode)
  {
    assert Accounted([], [], decode);
  }

  lemma AccountsAnswered(clients: map<int, Client>, now: map<int, Client>, replies: map<nat, seq<Reply>>,
                         answered: map<nat, seq<Bytes>>, answeredNow: map<nat, seq<Bytes>>, delivered: seq<Delivery>,
                         nextId: nat, decode: Bytes -> Decoded, fd: int, frame: Bytes, said: seq<Reply>)
    requires AccountsOk(clients, replies, answered, delivered, nextId, decode) && Fewer(clients, now)
    requires fd in clients && clients[fd].id < nextId && forall gd :: gd in clients && gd != fd ==> clients[gd].id != clients[fd].id
    requires OneMore(answered, answeredNow, clients[fd].id)
    requires answeredNow[clients[fd].id] == answered[clients[fd].id] + [frame]
    requires fd in now ==> Fitting(decode(frame), said)
    ensures AccountsOk(now, Posted(replies, clients[fd].id, said), answeredNow, delivered + Focuses(clients[fd].id, said),
                       nextId, decode)
  {
    hide Fitting, Accounted, Focuses, DeliveredTo, To, Posted;
    var id := clients[fd].id;
    PostedTo(replies, id, said);
    PostedKeys(replies, id, said);
    if fd in now {
      AccountedMore(answered[id], To(replies, id), frame, said, decode);
    }
    forall x: nat
      ensures DeliveredTo(delivered + Focuses(id, said), x) == Focuses(x, To(Posted(replies, id, said), x))
    {
      DeliveredMore(delivered, id, said, x);
      FocusesAppend(id, To(replies, id), said);
    }
  }

  lemma PostedKeys(replies: map<nat, seq<Reply>>, id: nat, said: seq<Reply>)
    ensures forall x :: x in Posted(replies, id, said) ==> x in replies || x == id
  {
  }

  lemma PostedAppends(replies: map<nat, seq<Reply>>, id: nat, said: seq<Reply>)
    ensures Appended(replies, Posted(replies, id, said))
  {
  }

  lemma NothingAnswered(received: map<nat, Bytes>, answered: map<nat, seq<Bytes>>)
    ensures Appended(received, received) && Appended(answered, answered) && OneAtMost(answered, answered)
  {
  }

  lemma AnsweredOnce(before: map<nat, seq<Bytes>>, now: map<nat, seq<Bytes>>)
    ensures before == now || (exists id :: OneMore(before, now, id)) ==> Appended(before, now) && OneAtMost(before, now)
  {
  }

  lemma AppendedRefl<T(!new)>(m: map<nat, seq<T>>)
    ensures Appended(m, m)
  {
  }

  lemma AppendedTrans<T(!new)>(a: map<nat, seq<T>>, b: map<nat, seq<T>>, c: map<nat, seq<T>>)
    requires Appended(a, b) && Appended(b, c)
    ensures Appended(a, c)
  {
  }

  // ---------------------------------------------------------------- two runs

  /**
   A run, from the start, that leaves a caret line of an ended epoch: a client inspects a field and asks for
   a snapshot, and one invalidation comes while a plain field's text is read again, or while a rich editor's
   is serialized. For the plain field even the end of its text is taken for known.
   */
  method LateLine(json: Bytes -> Decoded, rich: bool, first: Bytes, second: Bytes) returns (d: Daemon)
    requires json(first) == Meant(Inspect("a", false)) && json(second) == Meant(SnapshotOf(THE_FIELD))
    requires NEWLINE !in first && NEWLINE !in second && |first| < MAX_FRAME && |second| < MAX_FRAME
    ensures fresh(d) && d.Valid()
    ensures d.edges != NO_EDGES && d.origin == Origin(1, rich, true) && d.origin.epoch < d.epoch && d.edges.textEnds == !rich
    ensures |d.delivered| == 2
  {
    hide Alone, WithinFrameLimits, Daemon.Valid;
    d := Connected(json);
    var field := FieldAnswer(0, Got(Metadata(THE_FIELD, 0, 4, None, [], rich)));
    var text := TextAnswer(0, Got(()), if rich then 0 else 1, Got(()), if rich then 1 else 0, Got(()), Sides(true, "", true), 0, Got(()));
    var w := World(Answers(field, BusAnswer(true, 9, 1), text, Drawing(0, true)), false);
    assert ValidAppId("a") && d.Inspecting(Inspect("a", false), w.answers);
    AskAlone(d, first, Inspect("a", false), w);
    assert d.Snapshotting(SnapshotOf(THE_FIELD), w.answers);
    AskAlone(d, second, SnapshotOf(THE_FIELD), w);
    AloneIsValid(d);
  }

  lemma AloneIsValid(d: Daemon)
    requires Alone(d)
    ensures d.Valid()
  {
  }

  /** A new observer for native fields with its first client. */
  method Connected(json: Bytes -> Decoded) returns (d: Daemon)
    ensures fresh(d) && Alone(d) && d.decode == json && d.policy == Policy({}, map[], {' '})
    ensures d.epoch == 1 && d.tracked.None? && d.delivered == []
  {
    hide WithinFrameLimits, PumpOk, Daemon.Steady;
    d := new Daemon(Policy({}, map[], {' '}), json, true, _ => true);
    d.Accept(3, true);
    assert d.clients.Keys == {3};
    OwnerAlone(d);
  }

  /** One client is connected, has no bytes waiting, and owns the observer if any does. */
  ghost predicate Alone(d: Daemon)
    reads d
  {
    && d.Valid() && d.obliging && d.clients.Keys == {3} && d.clients[3].buffer == [] && !d.clients[3].scheduled
    && (d.owner.None? || d.owner.value.id == d.clients[3].id)
  }

  /** That client sends one frame. */
  method AskAlone(d: Daemon, frame: Bytes, request: Request, w: World)
    requires Alone(d) && d.decode(frame) == Meant(request) && NEWLINE !in frame && |frame| < MAX_FRAME
    requires !w.slow && w.answers.field.read.Got? && (d.Inspecting(request, w.answers) || d.Snapshotting(request, w.answers))
    modifies d
    ensures Alone(d) && d.Effects(w.answers, true, Meant(request), old(d.epoch), Said(old(d.replies), d.replies, d.clients[3].id))
    ensures |d.delivered| == |old(d.delivered)| + 1 && old(d.delivered) <= d.delivered
  {
    hide WithinFrameLimits, Unanswerable, Daemon.Inspecting, Daemon.Snapshotting, Daemon.Effects, FirstFrame, AfterFirst;
    hide Daemon.Valid, Daemon.AnsweredIn, Posted, Said, Focuses, OneMore, Daemon.Disrupting, Daemon.Ownerless;
    OneFrame(frame);
    assert d.Undisturbed(Meant(request), w.answers, d.clients[3].id);
    ghost var id := d.clients[3].id;
    var read := d.Read(3, None, Data(frame + [NEWLINE]), w);
    OneFocus(d, Said(old(d.replies), d.replies, id), w.answers, request, old(d.epoch), id);
    OwnerAlone(d);
  }

  /** An undisturbed request is answered with one focus. */
  lemma OneFocus(d: Daemon, said: seq<Reply>, a: Answers, request: Request, was: nat, id: nat)
    requires d.Effects(a, true, Meant(request), was, said) && a.field.read.Got?
    ensures |Focuses(id, said)| == 1
  {
    assert said == [said[0]];
    FocusesOf(id, said[0]);
  }

  lemma OwnerAlone(d: Daemon)
    requires d.Valid() && d.clients.Keys == {3}
    ensures d.owner.None? || d.owner.value.id == d.clients[3].id
  {
    if d.owner.Some? {
      assert d.owner.value.fd in d.clients.Keys;
    }
  }

  const THE_FIELD: Identity := Identity(":1.2", "/field", 7, "a", "")

  /** A caret snapshot of a native field in the first epoch. */
  function SnapshotOf(id: Identity): Request {
    Snapshot(Some(Binding(1, id)), Some(Application(id.app, id.bus, id.path, 1)), false, false)
  }

  /** A frame and its newline, in an empty buffer. */
  lemma OneFrame(frame: Bytes)
    requires NEWLINE !in frame && |frame| < MAX_FRAME
    ensures var chunk := [] + (frame + [NEWLINE]);
      && chunk != [] && WithinFrameLimits(chunk) && NEWLINE in chunk && FirstFrame(chunk) == frame && AfterFirst(chunk) == []
  {
    assert [] + (frame + [NEWLINE]) == frame + [NEWLINE] + [];
    FirstOfTwo(frame, []);
    var chunk := frame + [NEWLINE];
    assert chunk[|frame|] == NEWLINE;
  }

  /** A run that ends the epoch for a malformed preview: its client may draw, and its caret rectangle's scale overflows. */
  method OverflowingScale(d: Daemon, fd: int, frame: Bytes, preview: PreviewRequest, w: World)
    requires d.Valid() && fd in d.clients && d.clients[fd] == Client(d.clients[fd].id, [], false)
    requires d.owner.None? || d.owner.value.id == d.clients[fd].id
    requires d.decode(frame) == Meant(Preview(preview)) && Overflowing(preview) && NEWLINE !in frame && |frame| < MAX_FRAME
    modifies d
    ensures d.Valid() && MalformedRequest(Preview(preview), old(d.epoch)) && old(d.epoch) < d.epoch
  {
    hide WithinFrameLimits, Unanswerable, Daemon.Valid, Daemon.Effects, FirstFrame, AfterFirst;
    OneFrame(frame);
    OverflowIsMalformed(preview);
    var read := d.Read(fd, None, Data(frame + [NEWLINE]), w);
  }

  /**
   A run that leaves a whole frame waiting for nothing: a malformed request whose `id` no reply can repeat,
   then any second frame, in one chunk. Its client stays, the epoch ends, and nothing is scheduled.
   */
  method UnencodableId(d: Daemon, fd: int, first: Bytes, second: Bytes, w: World)
    requires d.Valid() && d.owner.None? && fd in d.clients && d.clients[fd] == Client(d.clients[fd].id, [], false)
    requires d.decode(first) == Meant(Envelope(OtherOp, false)) && NEWLINE !in first && NEWLINE !in second
    requires WithinFrameLimits(first + [NEWLINE] + (second + [NEWLINE]))
    modifies d
    ensures d.Valid() && fd in d.clients && old(d.epoch) < d.epoch
    ensures d.clients[fd] == old(d.clients)[fd].(buffer := second + [NEWLINE])
    ensures Callback(fd, d.clients[fd].id) !in d.idle
  {
    hide Unanswerable, WithinFrameLimits, Disruptive, Daemon.Valid, Daemon.Effects, FirstFrame, AfterFirst;
    var rest := second + [NEWLINE];
    var chunk := first + [NEWLINE] + rest;
    FirstOfTwo(first, rest);
    assert [] + chunk == chunk;
    Disrupts(d.decode(first), d.owner);
    var read := d.Read(fd, None, Data(chunk), w);
    WaitsForNothing(d, fd);
  }

  lemma Disrupts(frame: Decoded, owner: Option<Owner>)
    requires frame == Meant(Envelope(OtherOp, false)) && owner.None?
    ensures Disruptive(frame.request, false) && Disruptive(frame.request, true) && Unanswerable(frame)
  {
  }

  lemma FirstOfTwo(first: Bytes, rest: Bytes)
    requires NEWLINE !in first
    ensures var chunk := first + [NEWLINE] + rest;
      NEWLINE in chunk && FirstFrame(chunk) == first && AfterFirst(chunk) == rest
  {
    var chunk := first + [NEWLINE] + rest;
    assert chunk[|first|] == NEWLINE && chunk[..|first|] == first && chunk[|first| + 1..] == rest;
    FirstNewlineIs(chunk, |first|);
  }

  lemma WaitsForNothing(d: Daemon, fd: int)
    requires d.Valid() && fd in d.clients && !d.clients[fd].scheduled
    ensures Callback(fd, d.clients[fd].id) !in d.idle
  {
    hide Unanswerable, WithinFrameLimits, Conserved;
    assert ClientOk(fd, d.clients[fd], d.idle, d.received, d.answered, d.decode);
  }

  lemma StreamAdded<T(!new)>(m: map<nat, seq<T>>, id: nat)
    ensures Appended(m, m)
    ensures id !in m ==> Appended(m, m[id := []])
  {
  }

  lemma FramesUnanswered(answered: map<nat, seq<Bytes>>, id: nat)
    ensures OneAtMost(answered, answered)
    ensures id !in answered ==> OneAtMost(answered, answered[id := []])
  {
  }

  lemma SomeDescriptor(fds: set<int>)
    requires fds != {}
    ensures exists fd :: fd in fds
  {
    assert (forall fd :: fd !in fds) ==> fds == {};
  }

  lemma ClientsShrink(before: map<int, Client>, now: map<int, Client>)
    requires Shrunk(before, now)
    ensures |now| <= |before|
  {
    forall fd | fd in now.Keys
      ensures fd in before.Keys
    {
      assert fd in now;
    }
    SmallerSet(now.Keys, before.Keys);
  }

  lemma ClientAdded(clients: map<int, Client>, fd: int, nextId: nat, owner: Option<Owner>, delivered: seq<Delivery>)
    requires fd !in clients && OwnerLive(owner, clients) && IdsOk(clients, nextId, owner, delivered)
    ensures var more := clients[fd := Client(nextId, [], false)];
      |more| == |clients| + 1 && OwnerLive(owner, more) && IdsOk(more, nextId + 1, owner, delivered)
  {
    var more := clients[fd := Client(nextId, [], false)];
    assert more.Keys == clients.Keys + {fd};
    assert |more| == |more.Keys|;
  }

  lemma ClientReplaced(clients: map<int, Client>, fd: int, next: Client, nextId: nat, owner: Option<Owner>,
                       delivered: seq<Delivery>)
    requires fd in clients && next.id == clients[fd].id && OwnerLive(owner, clients) && IdsOk(clients, nextId, owner, delivered)
    ensures var now := clients[fd := next];
      |now| == |clients| && OwnerLive(owner, now) && IdsOk(now, nextId, owner, delivered)
  {
    var now := clients[fd := next];
    assert now.Keys == clients.Keys;
    assert |now| == |now.Keys|;
  }

  /** Without a tracked field nothing is armed. */
  lemma NothingTracked(live: map<nat, (string, string)>, used: nat, field: Option<nat>, ancestors: seq<nat>, epoch: nat,
                       tracked: Option<Identity>, hold: Option<Hold>, armed: Option<Binding>, clock: real, producer: Option<string>)
    requires tracked.None? && BoundOk(epoch, tracked, hold, armed, clock)
    requires SubscriptionsOk(live, used, field, ancestors) && ArmedOk(live, field, ancestors, armed, producer)
    ensures armed.None? && hold.None? && live == map[] && field.None? && ancestors == []
  {
    NoSubscriptions(None);
    assert live.Keys == {};
  }

  lemma FocusesOf(id: nat, reply: Reply)
    ensures Focuses(id, [reply]) == if reply.Focused? then [Delivery(id, reply.focus.binding, reply.focus.target)] else []
    ensures Focuses(id, []) == []
    ensures !reply.Focused? ==> Focuses(id, [Denied(ObserverBusy), reply]) == []
  {
    assert [reply][..0] == [] && [Denied(ObserverBusy), reply][..1] == [Denied(ObserverBusy)];
    assert [Denied(ObserverBusy)][..0] == [];
  }

  /** Nothing said changes nothing. */
  lemma Silence(replies: map<nat, seq<Reply>>, id: nat)
    ensures Posted(replies, id, []) == replies && Focuses(id, []) == [] && Focuses(id, [Denied(ObserverBusy)]) == []
  {
    FocusesOf(id, Denied(ObserverBusy));
  }

  /** Every reply of the owner's epoch went to the owner. */
  lemma OwnRepliesOnly(epoch: nat, owner: Owner, delivered: seq<Delivery>)
    requires OwnedOk(epoch, Some(owner), delivered)
    ensures forall d :: d in delivered && d.binding.epoch == epoch ==> d.client == owner.id
  {
  }

  /** The subscriptions are to the field and to each of the first `n` objects above it, and to nothing else. */
  ghost predicate Covers(live: map<nat, (string, string)>, binding: Binding, ancestors: seq<string>, n: nat)
    requires n <= |ancestors|
  {
    && (exists s :: s in live && live[s] == (binding.id.bus, binding.id.path))
    && (forall i :: 0 <= i < n ==> exists s :: s in live && live[s] == (binding.id.bus, ancestors[i]))
    && forall s :: s in live ==> live[s].0 == binding.id.bus && (live[s].1 == binding.id.path || live[s].1 in ancestors[..n])
  }

  lemma NoPanes(path: string)
    ensures Panes([], path) == 0
  {
  }

  lemma PanesGrow(ancestors: seq<string>, i: nat, path: string)
    requires i < |ancestors|
    ensures Panes(ancestors[..i + 1], path) == Panes(ancestors[..i], path) + (if ancestors[i] == path then 0 else 1)
    ensures Panes(ancestors[..i + 1], path) <= Panes(ancestors, path)
    decreases |ancestors| - i
  {
    assert ancestors[..i + 1][..i] == ancestors[..i];
    if i + 1 < |ancestors| {
      PanesGrow(ancestors, i + 1, path);
    } else {
      assert ancestors[..i + 1] == ancestors;
    }
  }

  lemma CoversField(used: nat, binding: Binding, ancestors: seq<string>)
    ensures Covers(map[used := (binding.id.bus, binding.id.path)], binding, ancestors, 0)
  {
    var live := map[used := (binding.id.bus, binding.id.path)];
    assert used in live;
  }

  lemma CoversOwnPath(live: map<nat, (string, string)>, binding: Binding, ancestors: seq<string>, i: nat)
    requires i < |ancestors| && Covers(live, binding, ancestors, i)
    ensures ancestors[i] == binding.id.path ==> Covers(live, binding, ancestors, i + 1)
  {
    assert ancestors[..i + 1] == ancestors[..i] + [ancestors[i]];
  }

  lemma CoversMore(live: map<nat, (string, string)>, used: nat, binding: Binding, ancestors: seq<string>, i: nat)
    requires i < |ancestors| && Covers(live, binding, ancestors, i) && used !in live
    ensures Covers(live[used := (binding.id.bus, ancestors[i])], binding, ancestors, i + 1)
  {
    var more := live[used := (binding.id.bus, ancestors[i])];
    assert ancestors[..i + 1] == ancestors[..i] + [ancestors[i]];
    assert used in more;
    forall j | 0 <= j < i
      ensures exists s :: s in more && more[s] == (binding.id.bus, ancestors[j])
    {
      var s :| s in live && live[s] == (binding.id.bus, ancestors[j]);
      assert s in more;
    }
    var s :| s in live && live[s] == (binding.id.bus, binding.id.path);
    assert s in more;
  }

  lemma ArmedWithoutSubscription(binding: Binding)
    ensures ArmedOk(map[], None, [], Some(binding), Some(binding.id.bus))
    ensures forall used: nat :: SubscriptionsOk(map[], used, None, [])
  {
  }

  lemma AllBelow(live: map<nat, (string, string)>, used: nat, field: Option<nat>, ancestors: seq<nat>)
    requires SubscriptionsOk(live, used, field, ancestors)
    ensures forall s :: s in live ==> s < used
  {
  }

  lemma NoSubscriptions(field: Option<nat>)
    ensures Subscriptions(field, []) == if field.Some? then {field.value} else {}
  {
  }

  lemma NothingArmed(live: map<nat, (string, string)>, producer: Option<string>)
    ensures ArmedOk(live, None, [], None, producer)
  {
  }

  lemma NoRegistrations()
    ensures Registrations(None) == {}
  {
  }

  lemma DistinctEvents()
    ensures forall i, j :: 0 <= i < j < |FIELD_EVENTS| ==> FIELD_EVENTS[i] != FIELD_EVENTS[j]
  {
  }
}

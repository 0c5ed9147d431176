/** The observer's requests, bindings and previews, and the invariants its state keeps. */
module Protocol {
  import opened Common

  const MAX_PREVIEW_TTL_MS: int := 15000
  const MAX_POSITION: int := 0x7FFF_FFFF

  const FIELD_EVENTS: seq<string> := [
    "object:text-changed", "object:text-caret-moved", "object:text-selection-changed",
    "object:bounds-changed", "object:visible-data-changed",
    "object:state-changed:editable", "object:state-changed:showing",
    "object:state-changed:defunct", "object:property-change:accessible-role"]

  // ---------------------------------------------------------------- requests

  /** One accessible field: its bus, object path, process, app and page address. */
  datatype Identity = Identity(bus: string, path: string, process: int, app: string, uri: string)

  datatype Binding = Binding(epoch: nat, id: Identity)

  /** The broker target; `target_id` hashes bus, path and epoch, which stand here for the hash. */
  datatype Target =
    | Browser(app: string, bus: string, path: string, epoch: nat, origin: string)
    | Application(app: string, bus: string, path: string, epoch: nat)

  /** Which apps are browsers, the canonical origin of every address that has one, and what is white space. */
  datatype Policy = Policy(browsers: set<string>, origins: map<string, string>, blank: set<char>) {
    function TargetOf(b: Binding): Option<Target> {
      if b.id.app !in browsers then Some(Application(b.id.app, b.id.bus, b.id.path, b.epoch))
      else if b.id.uri in origins then
        Some(Browser(b.id.app, b.id.bus, b.id.path, b.epoch, origins[b.id.uri]))
      else None
    }
  }

  /** A target is of its binding's app, field and epoch; a browser's also has its page's origin, and none without one. */
  lemma TargetMeans(p: Policy, b: Binding)
    ensures var target := p.TargetOf(b);
      && (target.None? <==> b.id.app in p.browsers && b.id.uri !in p.origins)
      && (target.Some? ==>
            var t := target.value;
            && t.app == b.id.app && t.bus == b.id.bus && t.path == b.id.path && t.epoch == b.epoch
            && (t.Browser? <==> b.id.app in p.browsers) && (t.Browser? ==> t.origin == p.origins[b.id.uri]))
  {
  }

  /** Equal targets are of one app and field, in one epoch and, in a browser, of pages of one origin. */
  lemma TargetsTell(p: Policy, a: Binding, b: Binding)
    requires p.TargetOf(a).Some? && p.TargetOf(a) == p.TargetOf(b)
    ensures a.epoch == b.epoch && a.id.bus == b.id.bus && a.id.path == b.id.path && a.id.app == b.id.app
    ensures a.id.app in p.browsers ==>
      a.id.uri in p.origins && b.id.uri in p.origins && p.origins[a.id.uri] == p.origins[b.id.uri]
  {
    TargetMeans(p, a);
    TargetMeans(p, b);
  }

  datatype Denial = InvalidRequest | InvalidPreview | StaleBinding | TargetMismatch | UnsupportedOrigin
                  | OperationTimeout | AccessibilityUnavailable | ObserverBusy | FieldDenied(reason: string)

  /** The denials that blame the request alone. */
  predicate Malformed(d: Denial) {
    d == InvalidRequest || d == InvalidPreview
  }

  /** A caret rectangle that is absent or has the allowed shape, one that has not, or one whose integer scale no float holds. */
  datatype Rectangle = Fits | Misfits | Overflows

  /** `suggestion` says that the text is one that may be drawn. */
  datatype PreviewRequest = PreviewRequest(binding: Option<Binding>, target: Option<Target>, suggestion: bool, length: nat,
                                           rectangle: Rectangle,
                                           ttl: int, caret: int, total: int, strong: Option<int>)

  /** The checks that come before the rectangle's. */
  predicate TimelyText(r: PreviewRequest) {
    r.suggestion && 1 <= r.ttl <= MAX_PREVIEW_TTL_MS && 0 <= r.caret <= r.total <= MAX_POSITION
  }

  /** Checking the rectangle raises. */
  predicate Overflowing(r: PreviewRequest) {
    TimelyText(r) && r.rectangle.Overflows?
  }

  lemma OverflowIsMalformed(r: PreviewRequest)
    ensures Overflowing(r) ==> !WellFormedPreview(r)
  {
  }

  predicate WellFormedPreview(r: PreviewRequest) {
    && TimelyText(r) && r.rectangle.Fits?
    && (r.strong.None? || 1 <= r.strong.value < r.length)
  }

  /** A lifetime of 1 to 15000 ms, a caret from 0 up to the length, and a strong part that is neither nothing nor all. */
  lemma PreviewShape(r: PreviewRequest)
    ensures WellFormedPreview(r) <==>
      && r.suggestion && 0 < r.ttl < 15001 && !(r.caret < 0) && !(r.total < r.caret) && r.total < 0x8000_0000
      && r.rectangle == Fits && (r.strong.None? || 0 < r.strong.value <= r.length - 1)
    ensures Overflowing(r) <==> r.rectangle == Overflows && WellFormedPreview(r.(rectangle := Fits, strong := None))
  {
  }

  /** The `op` of a request that is malformed by its own shape. */
  datatype Op = Unhashable | OwnerOp | OtherOp

  /**
   A decoded request. An envelope is malformed by its own shape, whatever operation it names; its `id` is
   unchecked, and `encodable` says whether a reply that repeats that `id` can be encoded.
   */
  datatype Request =
    | Envelope(op: Op, encodable: bool)
    | Status
    | Hide
    | Inspect(app: string, selection: bool)
    | Snapshot(binding: Option<Binding>, target: Option<Target>, window: bool, selection: bool)
    | Preview(preview: PreviewRequest)

  predicate OwnerOperation(r: Request) {
    match r
    case Envelope(op, _) => op.OwnerOp?
    case Status => false
    case _ => true
  }

  predicate Hashable(r: Request) {
    r.Envelope? ==> !r.op.Unhashable?
  }

  predicate Encodable(r: Request) {
    r.Envelope? ==> r.encodable
  }

  /** What a frame's bytes are: no JSON, JSON with a repeated key or a number too long, nested too deeply to decode, or a request. */
  datatype Decoded = NotJson | Ambiguous | TooDeep | Meant(request: Request)

  /** A frame that cannot be answered: an exception ends its dispatch unless its client is gone by then. */
  predicate Unanswerable(d: Decoded) {
    d.TooDeep? || (d.Meant? && !Encodable(d.request))
  }

  /** A request that ends the epoch although it is malformed; one sent while another client owns is not checked as far. */
  predicate Disruptive(r: Request, busy: bool) {
    !Hashable(r) || !Encodable(r) || (r.Preview? && !busy && Overflowing(r.preview))
  }

  /** A binding that is missing, or one of this epoch with an app id of the wrong shape. */
  predicate MalformedBinding(b: Option<Binding>, epoch: nat) {
    b.None? || (b.value.epoch == epoch && !ValidAppId(b.value.id.app))
  }

  /** A request that only a malformed denial answers, in this epoch. */
  predicate MalformedRequest(r: Request, epoch: nat) {
    match r
    case Envelope(_, _) => true
    case Inspect(app, _) => !ValidAppId(app)
    case Snapshot(binding, _, window, selection) => (selection && window) || MalformedBinding(binding, epoch)
    case Preview(p) => !WellFormedPreview(p) || MalformedBinding(p.binding, epoch)
    case _ => false
  }

  predicate AppIdCharacter(c: char) {
    'a' <= c <= 'z' || 'A' <= c <= 'Z' || '0' <= c <= '9' || c == '_' || c == '.' || c == '-'
  }

  predicate ValidAppId(app: string) {
    1 <= |app| <= 128 && forall i :: 0 <= i < |app| ==> AppIdCharacter(app[i])
  }

  /** Every part of an app id is one, and parts of no more than 128 characters make one. */
  lemma AppIdsJoin(a: string, b: string)
    requires a != "" && b != ""
    ensures ValidAppId(a + b) <==> ValidAppId(a) && ValidAppId(b) && |a| + |b| <= 128
  {
    hide AppIdCharacter;
    if ValidAppId(a + b) {
      assert forall i :: 0 <= i < |a| ==> a[i] == (a + b)[i];
      assert forall i :: 0 <= i < |b| ==> b[i] == (a + b)[|a| + i];
    }
  }

  /** The screen position, window and monitor of a calibrated caret. */
  datatype Place = Place(x: real, y: real, window: string, monitor: int)

  /** `rich` says that the field is a rich editor, whose text is read in blocks. */
  datatype Metadata = Metadata(id: Identity, caret: int, total: int, place: Option<Place>, ancestors: seq<string>, rich: bool)

  /** A reading of the field, and what names it to clients and to the broker. */
  datatype Described = Described(metadata: Metadata, binding: Binding, target: Target)

  datatype Focus = Focus(binding: Binding, target: Target, rendered: bool)

  /** How a step ends: with a value, a denial, or any other exception. */
  datatype Outcome<+T> = Got(value: T) | Refused(reason: Denial) | Raised

  /** What answers a request: that the observer is ready, that nothing is shown, a focus, or a denial. */
  datatype Reply = Ready | Hidden | Focused(focus: Focus) | Denied(denial: Denial)

  /** What is sent to a client. */
  datatype Document = Invalidation | Response(reply: Reply)

  /** What a client was answered so far. */
  function To(replies: map<nat, seq<Reply>>, id: nat): seq<Reply> {
    if id in replies then replies[id] else []
  }

  /** The same after `said` was sent to one client, and nothing to any other. */
  function Posted(replies: map<nat, seq<Reply>>, id: nat, said: seq<Reply>): map<nat, seq<Reply>> {
    if said == [] then replies else replies[id := To(replies, id) + said]
  }

  lemma PostedTo(replies: map<nat, seq<Reply>>, id: nat, said: seq<Reply>)
    ensures forall x :: To(Posted(replies, id, said), x) == if x == id then To(replies, id) + said else To(replies, x)
  {
    assert To(replies, id) + [] == To(replies, id);
  }

  lemma PostedTwice(replies: map<nat, seq<Reply>>, id: nat, a: seq<Reply>, b: seq<Reply>)
    ensures Posted(Posted(replies, id, a), id, b) == Posted(replies, id, a + b)
  {
    assert a + [] == a && [] + b == b;
    Assoc(To(replies, id), a, b);
  }

  /** What was sent to a client between two moments. */
  function Said(before: map<nat, seq<Reply>>, now: map<nat, seq<Reply>>, id: nat): seq<Reply> {
    if To(before, id) <= To(now, id) then To(now, id)[|To(before, id)|..] else []
  }

  lemma SaidIs(before: map<nat, seq<Reply>>, id: nat, said: seq<Reply>)
    ensures Said(before, Posted(before, id, said), id) == said
  {
  }

  /** The focus replies among these, as deliveries to a client. */
  function Focuses(id: nat, said: seq<Reply>): seq<Delivery> {
    if said == [] then []
    else Focuses(id, said[..|said| - 1]) + match said[|said| - 1]
      case Focused(focus) => [Delivery(id, focus.binding, focus.target)]
      case _ => []
  }

  /** A reply that repeats what the request named; an inspection names the app alone. */
  predicate Repeats(request: Request, focus: Focus) {
    match request
    case Inspect(app, _) => focus.binding.id.app == app && !focus.rendered
    case Snapshot(binding, target, _, _) => Some(focus.binding) == binding && Some(focus.target) == target && !focus.rendered
    case Preview(preview) => Some(focus.binding) == preview.binding && Some(focus.target) == preview.target
    case _ => false
  }

  /** A reply of the kind that this request is answered with. */
  predicate Kindred(request: Request, reply: Reply) {
    match reply
    case Ready => request.Status?
    case Hidden => request.Hide?
    case Focused(focus) => Repeats(request, focus)
    case Denied(_) => true
  }

  /** A reply that the observer gives to this request when it came in this epoch. */
  predicate Suits(request: Request, epoch: nat, reply: Reply) {
    match reply
    case Denied(denial) =>
      && !request.Status? && !request.Hide?
      && (Malformed(denial) <==> MalformedRequest(request, epoch))
      && (denial == InvalidPreview <==> request.Preview? && !WellFormedPreview(request.preview))
    case Focused(focus) =>
      !MalformedRequest(request, epoch) && Repeats(request, focus) && (request.Inspect? || focus.binding.epoch == epoch)
    case _ => Kindred(request, reply)
  }

  /** Answering this request may fail; nothing that is malformed and checked in full does. */
  predicate MayFail(request: Request, epoch: nat) {
    !request.Status? && !request.Hide? && (MalformedRequest(request, epoch) ==> Disruptive(request, false))
  }

  /** The same whatever the moment was: one reply of its kind, or two to a busy request past its deadline. */
  predicate Fitting(frame: Decoded, said: seq<Reply>) {
    match frame
    case Ambiguous => said == [Denied(InvalidRequest)]
    case Meant(request) =>
      if !Encodable(request) then said == []
      else
        || (|said| == 1 && Kindred(request, said[0]))
        || (OwnerOperation(request) && said == [Denied(ObserverBusy), Denied(OperationTimeout)])
    case _ => said == []
  }

  // ---------------------------------------------------------------- state

  datatype Edges = Edges(caretRight: bool, textFollows: bool, textEnds: bool)

  const NO_EDGES := Edges(false, false, false)

  /** The text past the caret and whether it is the last of the field; whether the line before it runs left to right. */
  datatype Sides = Sides(leftToRight: bool, after: string, reachesEnd: bool)

  predicate Inked(s: string, blank: set<char>) {
    exists i :: 0 <= i < |s| && s[i] !in blank
  }

  /** How many characters the caret's own line still has. */
  function LineRest(s: string): (n: nat)
    ensures n <= |s| && '\n' !in s[..n] && (n < |s| ==> s[n] == '\n')
  {
    if s == [] || s[0] == '\n' then 0
    else
      var n := LineRest(s[1..]);
      assert s[..n + 1] == [s[0]] + s[1..][..n];
      n + 1
  }

  /** The caret line's facts: which side is free, whether words follow on it, whether nothing follows at all. */
  function EdgesOf(sides: Sides, rich: bool, blank: set<char>): Edges {
    Edges(sides.leftToRight, Inked(sides.after[..LineRest(sides.after)], blank),
          !rich && sides.reachesEnd && !Inked(sides.after, blank))
  }

  /** Some character of the text is no white space, before any line break of it. */
  ghost predicate WordsFollow(after: string, blank: set<char>) {
    exists i :: 0 <= i < |after| && after[i] !in blank && forall k :: 0 <= k <= i ==> after[k] != '\n'
  }

  /**
   Words follow when the rest of the caret's line has some, and nothing does when a plain field's last text is
   white space; the two exclude each other.
   */
  lemma EdgesAgree(sides: Sides, rich: bool, blank: set<char>)
    ensures var e := EdgesOf(sides, rich, blank);
      && (e.caretRight <==> sides.leftToRight)
      && (e.textFollows <==> WordsFollow(sides.after, blank))
      && (e.textEnds <==> !rich && sides.reachesEnd && forall c :: c in sides.after ==> c in blank)
      && !(e.textFollows && e.textEnds)
  {
    var rest := LineRest(sides.after);
    if i :| 0 <= i < |sides.after| && sides.after[i] !in blank && forall k :: 0 <= k <= i ==> sides.after[k] != '\n' {
      assert sides.after[..rest][i] == sides.after[i];
    }
    if Inked(sides.after[..rest], blank) {
      var i :| 0 <= i < rest && sides.after[..rest][i] !in blank;
      assert sides.after[i] !in blank && forall k :: 0 <= k <= i ==> sides.after[k] == sides.after[..rest][k];
    }
    var e, line := EdgesOf(sides, rich, blank), sides.after[..LineRest(sides.after)];
    if e.textFollows {
      var i :| 0 <= i < |line| && line[i] !in blank;
      assert sides.after[i] == line[i];
    }
  }

  // ---------------------------------------------------------------- what the world answers

  /** Invalidations that arrive while the field is read, and what the reading gives. */
  datatype FieldAnswer = FieldAnswer(interruptions: nat, read: Outcome<Metadata>)

  /** Whether the bus is open, and how many registrations and subscriptions it grants before it refuses one. */
  datatype BusAnswer = BusAnswer(open: bool, registrations: nat, subscriptions: nat)

  /**
   The text reads, in order, each with the invalidations that arrive meanwhile and what it gives: the text
   and position before the check for invalidations; the same text again; a rich editor's serialization, or
   a selection again; the window's text. `sides` are those of the caret.
   */
  datatype TextAnswer = TextAnswer(interruptions: nat, read: Outcome<()>, reread: nat, again: Outcome<()>,
                                   late: nat, serialized: Outcome<()>, sides: Sides, afterwards: nat, words: Outcome<()>)

  /** An invalidation past the check for them, before the caret line of this kind of field is set. */
  predicate TooLate(a: TextAnswer, rich: bool) {
    a.reread > 0 || (rich && a.late > 0)
  }

  /** The bus grants everything that a field with these objects above it needs. */
  predicate GrantsAll(bus: BusAnswer, ancestors: seq<string>) {
    bus.open && bus.registrations >= |FIELD_EVENTS| && bus.subscriptions > |ancestors|
  }

  /** Invalidations that arrive while a preview is drawn, and whether it is. */
  datatype Drawing = Drawing(interruptions: nat, drawn: bool)

  datatype Answers = Answers(field: FieldAnswer, bus: BusAnswer, text: TextAnswer, drawing: Drawing)

  /** Nothing is refused and nothing interrupts the text reads before they are checked. */
  predicate Forthcoming(a: Answers) {
    && a.field.read.Got? && GrantsAll(a.bus, a.field.read.value.ancestors)
    && a.text.interruptions == 0 && a.text.read.Got? && a.text.again.Got? && a.text.serialized.Got? && a.text.words.Got?
  }

  /** The answers for one request, and whether its deadline passes meanwhile. */
  datatype World = World(answers: Answers, slow: bool)

  /** What became of a document for a client. */
  datatype Sending = Taken | NotTaken | Unencodable

  /** Where the caret line came from: the epoch and kind of the field, and whether an invalidation came too late for it. */
  datatype Origin = Origin(epoch: nat, rich: bool, late: bool)

  /** A caret line is current exactly when no invalidation came too late; the end of a rich editor is never known. */
  ghost predicate CaretLineOk(edges: Edges, origin: Origin, epoch: nat) {
    edges != NO_EDGES ==>
      origin.epoch <= epoch && (origin.epoch == epoch <==> !origin.late) && (origin.rich ==> !edges.textEnds)
  }

  datatype Hold = Hold(expires: real, request: PreviewRequest)

  datatype Owner = Owner(fd: int, id: nat)

  /** A focus reply that reached a client. */
  datatype Delivery = Delivery(client: nat, binding: Binding, target: Target)

  /** An invalidation that reached a client. */
  datatype Notice = Notice(client: nat, epoch: nat)

  // ---------------------------------------------------------------- invariants

  /** A held preview and an armed field are bound to the current epoch and the tracked field. */
  ghost predicate BoundOk(epoch: nat, tracked: Option<Identity>, hold: Option<Hold>, armed: Option<Binding>, clock: real) {
    && (hold.Some? ==>
         && tracked.Some? && hold.value.request.binding == Some(Binding(epoch, tracked.value))
         && WellFormedPreview(hold.value.request) && ValidAppId(tracked.value.app)
         && hold.value.expires <= clock + hold.value.request.ttl as real / 1000.0)
    && (armed.Some? ==> tracked.Some? && armed.value == Binding(epoch, tracked.value))
  }

  function Registrations(producer: Option<string>): set<(string, string)> {
    if producer.None? then {} else set e | e in FIELD_EVENTS :: (e, producer.value)
  }

  function Subscriptions(field: Option<nat>, ancestors: seq<nat>): set<nat> {
    (if field.Some? then {field.value} else {}) + set a | a in ancestors
  }

  lemma NextSubscription(field: Option<nat>, ancestors: seq<nat>, i: nat)
    requires i < |ancestors| && (field.Some? ==> field.value !in ancestors)
    requires forall j, k :: 0 <= j < k < |ancestors| ==> ancestors[j] != ancestors[k]
    ensures ancestors[i] in Subscriptions(field, ancestors[i..])
    ensures Subscriptions(field, ancestors[i..]) - {ancestors[i]} == Subscriptions(field, ancestors[i + 1..])
  {
    assert ancestors[i..] == [ancestors[i]] + ancestors[i + 1..];
    assert ancestors[i] !in ancestors[i + 1..];
    assert field.Some? ==> field.value != ancestors[i];
  }

  /** Exactly the field's and its ancestors' subscriptions live on the bus, each under its own id. */
  ghost predicate SubscriptionsOk(live: map<nat, (string, string)>, used: nat, field: Option<nat>, ancestors: seq<nat>) {
    && live.Keys == Subscriptions(field, ancestors)
    && (forall i, j :: 0 <= i < j < |ancestors| ==> ancestors[i] != ancestors[j])
    && (field.Some? ==> field.value !in ancestors)
    && forall s :: s in live ==> s < used
  }

  lemma SubscriptionAdded(live: map<nat, (string, string)>, used: nat, field: Option<nat>, ancestors: seq<nat>,
                          place: (string, string))
    requires SubscriptionsOk(live, used, field, ancestors)
    ensures SubscriptionsOk(live[used := place], used + 1, field, ancestors + [used])
  {
    assert Subscriptions(field, ancestors + [used]) == Subscriptions(field, ancestors) + {used};
  }

  /** An armed field has its own subscription and its application's full registration; an unarmed one has neither. */
  ghost predicate ArmedOk(live: map<nat, (string, string)>, field: Option<nat>, ancestors: seq<nat>, armed: Option<Binding>,
                          producer: Option<string>) {
    && (armed.None? ==> field.None? && ancestors == [])
    && (armed.Some? ==> producer == Some(armed.value.id.bus))
    && (armed.Some? && field.Some? ==> field.value in live && live[field.value] == (armed.value.id.bus, armed.value.id.path))
    && (armed.Some? ==> forall a :: a in ancestors && a in live ==>
          live[a].0 == armed.value.id.bus && live[a].1 != armed.value.id.path)
  }

  /** Focus replies of one epoch name one field, and none is ahead of the current epoch. */
  ghost predicate LogOk(epoch: nat, tracked: Option<Identity>, delivered: seq<Delivery>, policy: Policy) {
    && (forall d :: d in delivered ==> d.binding.epoch <= epoch && policy.TargetOf(d.binding) == Some(d.target))
    && (forall d :: d in delivered && d.binding.epoch == epoch ==> tracked == Some(d.binding.id))
    && forall d, e :: d in delivered && e in delivered && d.binding.epoch == e.binding.epoch ==> d.binding == e.binding
  }

  /** Replies of the current epoch went to the current owner only. */
  ghost predicate OwnedOk(epoch: nat, owner: Option<Owner>, delivered: seq<Delivery>) {
    forall d :: d in delivered && d.binding.epoch == epoch ==> owner.Some? && owner.value.id == d.client
  }

  /** Raising the epoch leaves no reply of the new epoch behind. */
  lemma NewEpoch(epoch: nat, tracked: Option<Identity>, owner: Option<Owner>, delivered: seq<Delivery>, policy: Policy)
    requires LogOk(epoch, tracked, delivered, policy)
    ensures LogOk(epoch + 1, None, delivered, policy) && OwnedOk(epoch + 1, owner, delivered)
  {
  }

  /** A focus reply that may still be delivered: it names the only field its epoch has ever named. */
  ghost predicate FocusFits(b: Binding, t: Target, epoch: nat, tracked: Option<Identity>, delivered: seq<Delivery>,
                            policy: Policy) {
    && b.epoch <= epoch && policy.TargetOf(b) == Some(t)
    && (b.epoch == epoch ==> tracked == Some(b.id))
    && forall d :: d in delivered && d.binding.epoch == b.epoch ==> d.binding == b
  }

  /** Tracking a field for the first time in an epoch, or again, keeps the log and makes a fitting focus. */
  lemma FieldTracked(epoch: nat, tracked: Option<Identity>, key: Identity, hold: Option<Hold>, armed: Option<Binding>,
                     clock: real, delivered: seq<Delivery>, policy: Policy)
    requires LogOk(epoch, tracked, delivered, policy) && BoundOk(epoch, tracked, hold, armed, clock)
    requires tracked.None? || tracked == Some(key)
    ensures LogOk(epoch, Some(key), delivered, policy) && BoundOk(epoch, Some(key), hold, armed, clock)
    ensures var b := Binding(epoch, key);
      policy.TargetOf(b).Some? ==> FocusFits(b, policy.TargetOf(b).value, epoch, Some(key), delivered, policy)
  {
  }

  /** A delivered reply joins the log. */
  lemma Logged(d: Delivery, epoch: nat, tracked: Option<Identity>, owner: Option<Owner>, delivered: seq<Delivery>,
               notices: set<Notice>, policy: Policy)
    requires LogOk(epoch, tracked, delivered, policy) && OwnedOk(epoch, owner, delivered)
    requires FocusFits(d.binding, d.target, epoch, tracked, delivered, policy)
    requires owner.Some? && owner.value.id == d.client && ToldOk(epoch, owner, delivered, notices)
    requires d.binding.epoch < epoch ==> Notice(d.client, epoch) in notices
    ensures LogOk(epoch, tracked, delivered + [d], policy) && OwnedOk(epoch, owner, delivered + [d])
    ensures ToldOk(epoch, owner, delivered + [d], notices)
  {
  }

  /** Less than the held lifetime is left, since the clock never goes back. */
  lemma NudgedIsWellFormed(held: Hold, now: real, remaining: int)
    requires WellFormedPreview(held.request) && held.expires <= now + held.request.ttl as real / 1000.0
    requires remaining == ((held.expires - now) * 1000.0).Floor && 50 <= remaining
    ensures remaining <= held.request.ttl && WellFormedPreview(held.request.(ttl := remaining))
  {
    assert (held.expires - now) * 1000.0 <= held.request.ttl as real;
  }

  lemma HoldDropped(epoch: nat, tracked: Option<Identity>, hold: Option<Hold>, armed: Option<Binding>, clock: real)
    requires BoundOk(epoch, tracked, hold, armed, clock)
    ensures BoundOk(epoch, tracked, None, armed, clock)
  {
  }

  lemma NothingBound(epoch: nat, tracked: Option<Identity>, clock: real)
    ensures BoundOk(epoch, tracked, None, None, clock)
  {
  }

  /** An owner that holds a reply of an earlier epoch has been told of the current one. */
  ghost predicate ToldOk(epoch: nat, owner: Option<Owner>, delivered: seq<Delivery>, notices: set<Notice>) {
    forall d :: d in delivered && owner.Some? && d.client == owner.value.id && d.binding.epoch < epoch ==>
      Notice(d.client, epoch) in notices
  }

  /** The first subscription of a newly armed field. */
  lemma FieldArmed(used: nat, binding: Binding)
    ensures var live := map[used := (binding.id.bus, binding.id.path)];
      && SubscriptionsOk(live, used + 1, Some(used), [])
      && ArmedOk(live, Some(used), [], Some(binding), Some(binding.id.bus))
  {
  }

  /** One more subscription, to an object above the armed field. */
  lemma AncestorArmed(live: map<nat, (string, string)>, used: nat, field: nat, ancestors: seq<nat>, binding: Binding, path: string)
    requires SubscriptionsOk(live, used, Some(field), ancestors)
    requires ArmedOk(live, Some(field), ancestors, Some(binding), Some(binding.id.bus)) && path != binding.id.path
    ensures var more := live[used := (binding.id.bus, path)];
      && SubscriptionsOk(more, used + 1, Some(field), ancestors + [used])
      && ArmedOk(more, Some(field), ancestors + [used], Some(binding), Some(binding.id.bus))
  {
    SubscriptionAdded(live, used, Some(field), ancestors, (binding.id.bus, path));
  }
}

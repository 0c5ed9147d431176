/**
 What each operation of the observer answers, as a function of the state it is asked in and of what the
 world answers: the checks in their order, each with its denial.
 */
module Verdicts {
  import opened Common
  import opened Protocol

  /** The part of the observer's state that its answers depend on. */
  datatype Standing = Standing(epoch: nat, tracked: Option<Identity>, armed: Option<Binding>, producer: Option<string>,
                               policy: Policy)

  /** A step that ended without a value, passed on. */
  function Passed<T, U>(o: Outcome<T>): (r: Outcome<U>)
    requires !o.Got?
    ensures !r.Got? && (r.Raised? <==> o.Raised?) && (r.Refused? ==> r.reason == o.reason)
  {
    if o.Refused? then Refused(o.reason) else Raised
  }

  /** What a backend's failure comes to: its denial, or an exception; it never blames the request. */
  function Failure<T, U>(o: Outcome<T>): (r: Outcome<U>)
    requires !o.Got?
    ensures !r.Got? && (r.Refused? ==> !Malformed(r.reason))
    ensures o.Raised? ==> r.Raised?
  {
    if o.Refused? && !Malformed(o.reason) then Refused(o.reason) else Raised
  }

  /** The metadata of the field that was read, for the app that asked. */
  function Named(app: string, read: Outcome<Metadata>): (r: Outcome<Metadata>)
    ensures r.Got? <==> read.Got?
  {
    if read.Got? then Got(read.value.(id := read.value.id.(app := app))) else Failure(read)
  }

  /** The field that was read, as one of this epoch. */
  function Description(policy: Policy, epoch: nat, app: string, read: Outcome<Metadata>): Outcome<Described> {
    var named := Named(app, read);
    if !named.Got? then Passed(named)
    else
      var binding := Binding(epoch, named.value.id);
      var target := policy.TargetOf(binding);
      if target.None? then Refused(UnsupportedOrigin) else Got(Described(named.value, binding, target.value))
  }

  /** An inspection, whose binding is of the epoch that is current once the field is read. */
  function Inspection(policy: Policy, epoch: nat, app: string, a: FieldAnswer): Outcome<Focus> {
    if !ValidAppId(app) then Refused(InvalidRequest)
    else
      var d := Description(policy, epoch, app, a.read);
      if d.Got? then Got(Focus(d.value.binding, d.value.target, false)) else Passed(d)
  }

  /** Reading ended this epoch: an invalidation arrived, or another field than the tracked one was found. */
  predicate Outdated(s: Standing, a: FieldAnswer, found: Identity) {
    a.interruptions > 0 || (s.tracked.Some? && s.tracked.value != found)
  }

  /** The field that a request's binding and target name, as it is now. */
  function BoundVerdict(s: Standing, binding: Option<Binding>, target: Option<Target>, a: FieldAnswer): Outcome<Described> {
    if binding.None? then Refused(InvalidRequest)
    else if binding.value.epoch != s.epoch then Refused(StaleBinding)
    else if !ValidAppId(binding.value.id.app) then Refused(InvalidRequest)
    else
      var d := Description(s.policy, s.epoch, binding.value.id.app, a.read);
      if !d.Got? then d
      else if Outdated(s, a, d.value.binding.id) || d.value.binding != binding.value then Refused(StaleBinding)
      else if target != Some(d.value.target) then Refused(TargetMismatch)
      else d
  }

  /** How many of these objects are others than the field itself. */
  function Panes(ancestors: seq<string>, path: string): (n: nat)
    ensures n <= |ancestors|
  {
    if ancestors == [] then 0
    else Panes(ancestors[..|ancestors| - 1], path) + if ancestors[|ancestors| - 1] == path then 0 else 1
  }

  /** Arming asks the bus for nothing when this binding is armed, and for registrations only in another application. */
  function ArmVerdict(s: Standing, binding: Binding, ancestors: seq<string>, bus: BusAnswer): Outcome<()> {
    if s.armed == Some(binding) then Got(())
    else if !bus.open then Refused(AccessibilityUnavailable)
    else if s.producer != Some(binding.id.bus) && bus.registrations < |FIELD_EVENTS| then Raised
    else if bus.subscriptions < 1 + Panes(ancestors, binding.id.path) then Raised
    else Got(())
  }

  /** The text reads: an invalidation counts when it comes before the check for one. */
  function TextVerdict(rich: bool, window: bool, selection: bool, a: TextAnswer): Outcome<()> {
    if selection && rich then Refused(FieldDenied("unsupported_selection"))
    else if !a.read.Got? then Failure(a.read)
    else if a.interruptions > 0 then Refused(StaleBinding)
    else if !a.again.Got? then Failure(a.again)
    else if (rich || selection) && !a.serialized.Got? then Failure(a.serialized)
    else if window && !selection && !a.words.Got? then Failure(a.words)
    else Got(())
  }

  /** A snapshot: the request's shape, the binding, the events, the text. */
  function SnapshotVerdict(s: Standing, binding: Option<Binding>, target: Option<Target>, window: bool, selection: bool,
                           a: Answers): Outcome<Focus> {
    if selection && window then Refused(InvalidRequest)
    else
      var bound := BoundVerdict(s, binding, target, a.field);
      if !bound.Got? then Passed(bound)
      else
        var d := bound.value;
        var armed := ArmVerdict(s, d.binding, d.metadata.ancestors, a.bus);
        if !armed.Got? then Passed(armed)
        else
          var text := TextVerdict(d.metadata.rich, window, selection, a.text);
          if text.Got? then Got(Focus(d.binding, d.target, false)) else Passed(text)
  }

  /** A preview: the request's shape, the binding, the caret and length, the drawing. */
  function PreviewVerdict(s: Standing, request: PreviewRequest, a: FieldAnswer, drawing: Drawing): Outcome<Focus> {
    if Overflowing(request) then Raised
    else if !WellFormedPreview(request) then Refused(InvalidPreview)
    else
      var bound := BoundVerdict(s, request.binding, request.target, a);
      if !bound.Got? then Passed(bound)
      else
        var d := bound.value;
        if request.caret != d.metadata.caret || request.total != d.metadata.total || drawing.interruptions > 0
        then Refused(StaleBinding)
        else Got(Focus(d.binding, d.target, drawing.drawn))
  }

  /** An owner's acquisition or drawing; `epoch` is the one that is current once an inspected field is read. */
  function AcquisitionVerdict(s: Standing, request: Request, a: Answers, epoch: nat): Outcome<Focus> {
    match request
    case Inspect(app, _) => Inspection(s.policy, epoch, app, a.field)
    case Snapshot(binding, target, window, selection) => SnapshotVerdict(s, binding, target, window, selection, a)
    case Preview(preview) => PreviewVerdict(s, preview, a.field, a.drawing)
    case _ => Raised
  }

  /** How an operation's outcome becomes a reply. */
  function Replying(o: Outcome<Focus>): Outcome<Reply> {
    match o
    case Got(focus) => Got(Focused(focus))
    case Refused(reason) => Got(Denied(reason))
    case Raised => Raised
  }

  /** The observer's reply to a request. */
  function Verdict(s: Standing, request: Request, a: Answers, epoch: nat): Outcome<Reply> {
    match request
    case Envelope(_, _) => Got(Denied(InvalidRequest))
    case Status => Got(Ready)
    case Hide => Got(Hidden)
    case _ => Replying(AcquisitionVerdict(s, request, a, epoch))
  }

  /** The outcome is the verdict; an inspection's in the epoch that its own binding names. */
  predicate Judged(s: Standing, request: Request, a: Answers, o: Outcome<Reply>) {
    o == Verdict(s, request, a, if o.Got? && o.value.Focused? then o.value.focus.binding.epoch else s.epoch)
  }

  // ---------------------------------------------------------------- what the verdicts are

  /** A verdict suits its request; it raises for no request that is malformed and checked in full. */
  lemma VerdictSuits(s: Standing, request: Request, a: Answers, epoch: nat)
    ensures var v := Verdict(s, request, a, epoch);
      && !v.Refused? && (v.Got? ==> Suits(request, s.epoch, v.value)) && (v.Raised? ==> MayFail(request, s.epoch))
  {
    hide ValidAppId, WellFormedPreview, Description, ArmVerdict, TextVerdict;
    DescriptionBlamesNot(s.policy, epoch, if request.Inspect? then request.app else "", a.field.read);
    match request {
      case Snapshot(binding, target, window, selection) =>
        BoundVerdictMeans(s, binding, target, a.field);
        StepsBlameNot(s, a);
      case Preview(preview) =>
        BoundVerdictMeans(s, preview.binding, preview.target, a.field);
        OverflowIsMalformed(preview);
      case _ =>
    }
  }

  lemma DescriptionBlamesNot(policy: Policy, epoch: nat, app: string, read: Outcome<Metadata>)
    ensures var d := Description(policy, epoch, app, read);
      && (d.Refused? ==> !Malformed(d.reason))
      && (d.Got? ==> d.value.binding.epoch == epoch && d.value.binding.id.app == app)
  {
  }

  lemma StepsBlameNot(s: Standing, a: Answers)
    ensures forall b: Binding, ancestors: seq<string> ::
      var v := ArmVerdict(s, b, ancestors, a.bus); v.Refused? ==> !Malformed(v.reason)
    ensures forall rich: bool, window: bool, selection: bool ::
      var v := TextVerdict(rich, window, selection, a.text); v.Refused? ==> !Malformed(v.reason)
  {
  }

  lemma BoundVerdictMeans(s: Standing, binding: Option<Binding>, target: Option<Target>, a: FieldAnswer)
    ensures var v := BoundVerdict(s, binding, target, a);
      && (v.Got? ==> Some(v.value.binding) == binding && Some(v.value.target) == target && v.value.binding.epoch == s.epoch)
      && (v.Refused? ==> v.reason != InvalidPreview)
      && (v == Refused(InvalidRequest) <==> MalformedBinding(binding, s.epoch))
  {
    hide ValidAppId, Description;
    if binding.Some? {
      DescriptionBlamesNot(s.policy, s.epoch, binding.value.id.app, a.read);
    }
  }

  // ---------------------------------------------------------------- what a frame is answered with

  /**
   What one request is answered with: the busy denial while another client owns, and otherwise the
   observer's reply, or in its place the denial of a failure or of a missed deadline. A deadline missed
   after the busy denial is reported too.
   */
  predicate Says(s: Standing, request: Request, busy: bool, w: World, said: seq<Reply>) {
    if !Hashable(request) then said == [Denied(AccessibilityUnavailable)]
    else if busy then said == [Denied(ObserverBusy)] + if w.slow then [Denied(OperationTimeout)] else []
    else
      if Verdict(s, request, w.answers, s.epoch).Raised? then said == [Denied(AccessibilityUnavailable)]
      else if w.slow then said == [Denied(OperationTimeout)]
      else |said| == 1 && Judged(s, request, w.answers, Got(said[0]))
  }

  /** What one frame is answered with. A frame that cannot be answered, or is no JSON, gets no reply. */
  predicate AnsweredWith(s: Standing, frame: Decoded, busy: bool, w: World, said: seq<Reply>) {
    match frame
    case Ambiguous => said == [Denied(InvalidRequest)]
    case Meant(request) => if Encodable(request) then Says(s, request, busy, w, said) else said == []
    case _ => said == []
  }

  /** A request that can be answered gets one reply, unless it is told that another client owns and its deadline passes too. */
  lemma OneReplyIff(s: Standing, request: Request, busy: bool, w: World, said: seq<Reply>)
    requires AnsweredWith(s, Meant(request), busy, w, said) && Encodable(request)
    ensures |said| == 1 <==> !(busy && Hashable(request) && w.slow)
    ensures 1 <= |said| <= 2
  {
  }

  /** Such an answer fits its frame, whatever the state and the world were. */
  lemma AnswerFits(s: Standing, frame: Decoded, busy: bool, w: World, said: seq<Reply>)
    requires AnsweredWith(s, frame, busy, w, said) && (busy ==> frame.Meant? && OwnerOperation(frame.request))
    ensures Fitting(frame, said)
  {
    hide Verdict, MalformedRequest, WellFormedPreview, Disruptive;
    if frame.Meant? && Encodable(frame.request) && !busy && Hashable(frame.request) && |said| == 1 {
      VerdictSuits(s, frame.request, w.answers, if said[0].Focused? then said[0].focus.binding.epoch else s.epoch);
    }
  }

  /** Only an inspection's binding depends on the epoch that is current once the field is read. */
  lemma EpochIsNamed(s: Standing, request: Request, a: Answers, e: nat)
    ensures var v, w := Verdict(s, request, a, e), Verdict(s, request, a, s.epoch);
      && (v.Raised? <==> w.Raised?) && (v.Got? && !v.value.Focused? ==> v == w)
      && (v.Got? && v.value.Focused? && request.Inspect? ==> v.value.focus.binding.epoch == e)
      && (!request.Inspect? ==> v == w)
  {
    hide ValidAppId, SnapshotVerdict, PreviewVerdict;
  }

  lemma OutcomeIsJudged(s: Standing, request: Request, a: Answers, e: nat)
    requires request.Inspect? || request.Snapshot? || request.Preview?
    ensures Judged(s, request, a, Replying(AcquisitionVerdict(s, request, a, e)))
  {
    hide ValidAppId, SnapshotVerdict, PreviewVerdict, Inspection;
    EpochIsNamed(s, request, a, e);
  }

  lemma PlainlyJudged(s: Standing, request: Request, a: Answers)
    ensures request.Envelope? ==> Judged(s, request, a, Got(Denied(InvalidRequest)))
    ensures request.Status? ==> Judged(s, request, a, Got(Ready))
    ensures request.Hide? ==> Judged(s, request, a, Got(Hidden))
  {
  }

  lemma JudgedSuits(s: Standing, request: Request, a: Answers, o: Outcome<Reply>)
    requires Judged(s, request, a, o)
    ensures !o.Refused? && (o.Got? ==> Suits(request, s.epoch, o.value)) && (o.Raised? ==> MayFail(request, s.epoch))
    ensures o.Raised? <==> Verdict(s, request, a, s.epoch).Raised?
  {
    hide Verdict, Suits, MayFail;
    var e := if o.Got? && o.value.Focused? then o.value.focus.binding.epoch else s.epoch;
    VerdictSuits(s, request, a, e);
    EpochIsNamed(s, request, a, e);
  }
}

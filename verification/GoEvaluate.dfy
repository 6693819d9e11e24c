/** The Go runtime's read path: four checks in a fixed order, then the adapter. */
module GoEvaluate {
  import opened Optional
  import opened ContextGraph
  import opened ContextMerge

  datatype State = Uninitialized | Initializing | Ready | Stale | Failed | Fatal | Shutdown

  datatype Kind =
    | ControlPointNotFound | TypeMismatch | InvalidContext | AlreadyClosed | NotReady | Configuration | OtherKind(name: string)

  datatype Error = Error(kind: Kind, targetingKeyMissing: bool)

  datatype FlagType = BooleanFlag | TextFlag | NumberFlag | ObjectFlag | UnknownFlag

  datatype Reason = ErrorReason | OtherReason(name: string)

  /** `kindMeta` is the `fireweave.errorKind` metadata entry. */
  datatype Decision = Decision(key: string, value: Value, reason: Reason, error: Option<Error>, kindMeta: Option<Kind>)

  datatype Request = Request(key: string, flagType: FlagType, defaultValue: Value, context: Layer)

  /** The context bounds; sizes are whatever the JSON encoder says they are. */
  datatype Limits = Limits(maxAttributes: int, maxKeyBytes: int, maxValueBytes: int, maxDepth: int, maxBytes: int)

  datatype Sizes = Sizes(valueSize: Tree -> nat, contextSize: Layer -> nat)

  datatype Config = Config(limits: Limits, requireTargetingKey: bool, global: Layer, sizes: Sizes)

  // ---- the checks ----

  predicate IsControl(c: char) { c <= '\U{1f}' || '\U{7f}' <= c <= '\U{9f}' }

  predicate KeyValid(key: string) {
    key != "" && |key| <= 256 && forall i :: 0 <= i < |key| ==> !IsControl(key[i])
  }

  predicate MatchesExpectedType(v: Value, expected: FlagType) {
    match v
    case Scalar(kind, _) =>
      (match expected
       case BooleanFlag => kind == Boolean
       case TextFlag => kind == Text
       case NumberFlag => kind == Number
       case _ => false)
    case Ref(_) => expected == ObjectFlag
    case NilMap => expected == ObjectFlag
    case NilList => expected == ObjectFlag
    case _ => false
  }

  function WithDefaults(l: Limits): Limits {
    Limits(if l.maxAttributes <= 0 then 128 else l.maxAttributes,
           if l.maxKeyBytes <= 0 then 256 else l.maxKeyBytes,
           if l.maxValueBytes <= 0 then 4096 else l.maxValueBytes,
           if l.maxDepth <= 0 then 6 else l.maxDepth,
           if l.maxBytes <= 0 then 65536 else l.maxBytes)
  }

  const RESERVED := "fireweave."

  predicate KeyAllowed(k: string, v: Tree) {
    && k != "targetingKey" && k != "kind"
    && (RESERVED <= k ==> (k == "fireweave.groups" || k == "fireweave.groupProperties") && v.Branch?)
  }

  ghost predicate Bounded(c: Layer, limits: Limits, sizes: Sizes) {
    && (forall k :: k in c.entries ==> KeyAllowed(k, c.entries[k]))
    && |c.entries| <= limits.maxAttributes
    && (forall k :: k in c.entries ==>
          |k| <= limits.maxKeyBytes && sizes.valueSize(c.entries[k]) <= limits.maxValueBytes
          && Depth(c.entries[k]) <= limits.maxDepth)
    && sizes.contextSize(c) <= limits.maxBytes
  }

  /** The cycle flag is looked at before anything else. */
  ghost function ValidateContext(c: Layer, cfg: Config): Option<Error> {
    if c.cyclic then Some(Error(InvalidContext, false))
    else if cfg.requireTargetingKey && c.targetingKey == "" then Some(Error(InvalidContext, true))
    else if !Bounded(c, WithDefaults(cfg.limits), cfg.sizes) then Some(Error(InvalidContext, false))
    else None
  }

  // ---- Evaluate ----

  function ErrorDecision(key: string, defaultValue: Value, e: Error): Decision {
    Decision(key, defaultValue, ErrorReason, Some(e), Some(e.kind))
  }

  /** What is done with the adapter's answer. */
  function Settle(d: Decision, key: string): Decision {
    var named := if d.key == "" then d.(key := key) else d;
    match named.error
    case None => named
    case Some(e) =>
      named.(reason := ErrorReason, kindMeta := if named.kindMeta.Some? then named.kindMeta else Some(e.kind))
  }

  type Adapter = Request -> Decision

  datatype Evaluation = Evaluation(decision: Decision, asked: Option<Request>)

  ghost function Evaluate(cfg: Config, state: State, req: Request, adapter: Adapter): Evaluation {
    if !KeyValid(req.key) then
      Evaluation(ErrorDecision(req.key, req.defaultValue, Error(ControlPointNotFound, false)), None)
    else if !MatchesExpectedType(req.defaultValue, req.flagType) then
      Evaluation(ErrorDecision(req.key, req.defaultValue, Error(TypeMismatch, false)), None)
    else
      var merged := Merge([cfg.global, req.context]);
      match ValidateContext(merged, cfg)
      case Some(e) => Evaluation(ErrorDecision(req.key, req.defaultValue, e), None)
      case None =>
        match state
        case Shutdown => Evaluation(ErrorDecision(req.key, req.defaultValue, Error(AlreadyClosed, false)), None)
        case Ready => Asked(req, merged, adapter)
        case Stale => Asked(req, merged, adapter)
        case _ => Evaluation(ErrorDecision(req.key, req.defaultValue, Error(NotReady, false)), None)
  }

  function Asked(req: Request, merged: Layer, adapter: Adapter): Evaluation {
    var r := req.(context := merged);
    Evaluation(Settle(adapter(r), req.key), Some(r))
  }

  // ---- what a read promises ----

  /** The checks of one read, in the order the design names: key, default, context, lifecycle. */
  ghost function Checks(cfg: Config, state: State, req: Request): seq<Option<Kind>> {
    [ if KeyValid(req.key) then None else Some(ControlPointNotFound),
      if MatchesExpectedType(req.defaultValue, req.flagType) then None else Some(TypeMismatch),
      if ValidateContext(Merge([cfg.global, req.context]), cfg).None? then None else Some(InvalidContext),
      if state == Ready || state == Stale then None else Some(if state == Shutdown then AlreadyClosed else NotReady)
    ]
  }

  /** The adapter is asked exactly when every check passes, whatever it would answer; a read that does not ask
      it is the caller's default with reason ERROR, the same for every adapter. An error never goes unmarked,
      whoever found it. */
  lemma AskedIffAllPass(cfg: Config, state: State, req: Request, adapter: Adapter, other: Adapter)
    ensures var e := Evaluate(cfg, state, req, adapter);
            && (e.asked.Some? <==> forall i :: 0 <= i < 4 ==> Checks(cfg, state, req)[i].None?)
            && e.asked == Evaluate(cfg, state, req, other).asked
            && (e.asked.None? ==>
                  && e == Evaluate(cfg, state, req, other)
                  && e.decision.reason == ErrorReason && e.decision.value == req.defaultValue)
            && (e.decision.error.Some? ==> e.decision.reason == ErrorReason && e.decision.kindMeta.Some?)
  {
    hide KeyValid, MatchesExpectedType, Merge, Bounded;
    var checks := Checks(cfg, state, req);
    assert |checks| == 4;
    if Evaluate(cfg, state, req, adapter).asked.Some? {
      assert checks[0].None? && checks[1].None? && checks[2].None? && checks[3].None?;
    } else {
      assert checks[0].Some? || checks[1].Some? || checks[2].Some? || checks[3].Some?;
    }
  }

  /** A cycle in either layer, even in an attribute the other layer overrides, fails the read before
      any adapter sees it. */
  lemma CycleNeverReachesAdapter(h: Heap, global: Context, context: Context, cfg: Config, state: State,
                                 req: Request, adapter: Adapter)
    requires Closed(h) && ContextIn(h, global) && ContextIn(h, context)
    requires cfg.global == LayerOf(h, global) && req.context == LayerOf(h, context)
    requires (global.attributes.Ref? && CycleReachable(h, global.attributes.id)) ||
             (context.attributes.Ref? && CycleReachable(h, context.attributes.id))
    ensures var e := Evaluate(cfg, state, req, adapter);
            && e.asked == None && e.decision.value == req.defaultValue && e.decision.reason == ErrorReason
            && (KeyValid(req.key) && MatchesExpectedType(req.defaultValue, req.flagType) ==>
                  e.decision == ErrorDecision(req.key, req.defaultValue, Error(InvalidContext, false)))
  {
    hide KeyValid, MatchesExpectedType, Bounded, Unfold;
    if global.attributes.Ref? { FlagIffCycleReachable(h, global.attributes.id); }
    if context.attributes.Ref? { FlagIffCycleReachable(h, context.attributes.id); }
    MergeTwo(cfg.global, req.context);
  }

  /** Without a cycle and within the bounds, the adapter sees the two layers merged. */
  lemma AdapterSeesMerge(cfg: Config, state: State, req: Request, adapter: Adapter)
    ensures var e := Evaluate(cfg, state, req, adapter);
            e.asked.Some? ==>
              && !cfg.global.cyclic && !req.context.cyclic
              && e.asked.value == req.(context := Over(cfg.global, req.context))
              && e.decision == Settle(adapter(e.asked.value), req.key)
  {
    hide KeyValid, MatchesExpectedType, Bounded, Merge;
    MergeTwo(cfg.global, req.context);
  }
}

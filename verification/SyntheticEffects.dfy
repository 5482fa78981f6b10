/**
  What callers of the synthetic operations API observe: when each call is refused and
  how, what a call that takes effect leaves in the ledgers, and what inspections come to.
 */
module SyntheticEffects {
  import opened Prelude
  import opened Idempotency
  import opened SyntheticOperations

  /******* Identifiers *******/

  /** Non-empty, and without a dash. */
  predicate IsWord(s: string) {
    s != "" && forall i | 0 <= i < |s| :: 'a' <= s[i] <= 'z' || '0' <= s[i] <= '9'
  }

  function Dashed(words: seq<string>): string
    requires words != []
  {
    if |words| == 1 then words[0] else Dashed(words[..|words| - 1]) + "-" + words[|words| - 1]
  }

  ghost predicate IsDashedWords(s: string) {
    exists words :: IsListOfWords(words) && s == Dashed(words)
  }

  predicate IsListOfWords(words: seq<string>) {
    words != [] && forall i | 0 <= i < |words| :: IsWord(words[i])
  }

  /** An identifier, but for its length. */
  predicate IsSpelled(s: string) {
    && s != "" && (forall i | 0 <= i < |s| :: IsIdentifierCharacter(s[i]))
    && s[0] != '-' && s[|s| - 1] != '-'
    && (forall i | 0 < i < |s| :: s[i] == '-' ==> s[i - 1] != '-')
  }

  lemma {:induction false} DashedIsSpelled(words: seq<string>)
    requires IsListOfWords(words)
    ensures IsSpelled(Dashed(words))
  {
    var last := words[|words| - 1];
    assert IsWord(last);
    if |words| > 1 {
      DashedIsSpelled(words[..|words| - 1]);
      var front := Dashed(words[..|words| - 1]);
      var s := front + "-" + last;
      assert s[|front|] == '-' && s[|s| - 1] == last[|last| - 1] && s[0] == front[0];
      forall i | 0 <= i < |s|
        ensures IsIdentifierCharacter(s[i]) && (i > 0 && s[i] == '-' ==> s[i - 1] != '-')
      {
        if i < |front| {
          assert s[i] == front[i];
          assert i > 0 ==> s[i - 1] == front[i - 1];
        } else if i > |front| {
          assert s[i] == last[i - |front| - 1];
        } else {
          assert s[i - 1] == front[|front| - 1];
        }
      }
    }
  }

  /** The word that a spelled string ends in, and what comes before it. */
  lemma {:induction false} SpelledIsDashed(s: string, from: nat) returns (words: seq<string>)
    requires IsSpelled(s) && from <= |s| && forall i | from <= i < |s| :: s[i] != '-'
    ensures IsListOfWords(words) && s == Dashed(words)
    decreases |s|, from
  {
    if from == 0 {
      words := [s];
    } else if s[from - 1] != '-' {
      words := SpelledIsDashed(s, from - 1);
    } else {
      var front, last := s[..from - 1], s[from..];
      assert front[|front| - 1] == s[from - 2];
      var before := SpelledIsDashed(front, |front|);
      words := before + [last];
      assert words[..|words| - 1] == before;
      assert s == front + "-" + last;
    }
  }

  /** Identifiers are words joined by dashes, up to a hundred characters long. */
  lemma IdentifiersAreDashedWords(s: string)
    ensures IsIdentifier(s) <==> |s| <= 100 && IsDashedWords(s)
  {
    if IsIdentifier(s) {
      var words := SpelledIsDashed(s, |s|);
    }
    if IsDashedWords(s) {
      var words :| IsListOfWords(words) && s == Dashed(words);
      DashedIsSpelled(words);
    }
  }

  ghost predicate IsName(s: string) {
    |s| <= 100 && IsDashedWords(s)
  }

  /******* Refusals *******/

  /** The body is one that the API's contract describes. */
  ghost predicate IsWellFormed(request: Request) {
    match request
    case CreateReturn(id, orderId, _) => IsName(id) && IsName(orderId)
    case CreateWork(id, returnId) => IsName(id) && IsName(returnId)
    case CreateRefund(id, returnId, amount) => IsName(id) && IsName(returnId) && amount > 0.0 && !(amount > 10_000_000.0)
    case CreateInspection(id, location, _, submittedBy) => IsName(id) && IsName(location) && IsName(submittedBy)
    case DecideInspection(_, _, rationale) => |rationale| >= 10 && |rationale| <= 1_000
  }

  /** It refers to an order or a return that there is. */
  predicate RefersToKnown(api: Api, request: Request) {
    && (request.CreateReturn? ==> request.orderId in api.orders)
    && (request.CreateWork? || request.CreateRefund? ==> request.returnId in api.store.customerReturns)
  }

  /** A refund that it asks for is of an eligible return, over the very amount. */
  predicate RefundsRightly(api: Api, request: Request) {
    request.CreateRefund? && request.returnId in api.store.customerReturns ==>
      && api.store.customerReturns[request.returnId].eligible
      && api.store.customerReturns[request.returnId].refundAmount == request.amount
  }

  predicate MayFail(request: Request) {
    request.CreateReturn? || request.CreateRefund? || request.CreateInspection?
  }

  lemma SchemaIsWellFormedness(request: Request)
    ensures MatchesSchema(request) <==> IsWellFormed(request)
  {
    hide IsIdentifier, IsDashedWords;
    match request
    case CreateReturn(id, orderId, _) => IdentifiersAreDashedWords(id); IdentifiersAreDashedWords(orderId);
    case CreateWork(id, returnId) => IdentifiersAreDashedWords(id); IdentifiersAreDashedWords(returnId);
    case CreateRefund(id, returnId, _) => IdentifiersAreDashedWords(id); IdentifiersAreDashedWords(returnId);
    case CreateInspection(id, location, _, submittedBy) =>
      IdentifiersAreDashedWords(id); IdentifiersAreDashedWords(location); IdentifiersAreDashedWords(submittedBy);
    case DecideInspection(_, _, _) =>
  }

  /** The errors before the replay cache is asked, in their order; a call so refused changes nothing. */
  lemma RefusalsBeforeTheCache(api: Api, call: Call)
    ensures var (api', answer) := Handle(api, call);
            && (answer == Err(Before(BadRequest)) <==> !IsWellFormed(call.request))
            && (answer == Err(Before(NotFound)) <==> IsWellFormed(call.request) && !RefersToKnown(api, call.request))
            && (answer == Err(Before(Conflict)) <==>
                  IsWellFormed(call.request) && RefersToKnown(api, call.request) && !RefundsRightly(api, call.request))
            && (answer == Err(Before(ServiceUnavailable)) <==>
                  Passes(api, call.request) && MayFail(call.request) && call.mode == Transient)
            && (answer == Err(Before(GatewayTimeout)) <==>
                  Passes(api, call.request) && MayFail(call.request) && call.mode == Timeout)
            && (answer.Err? && answer.error.Before? ==> api' == api)
  {
    SchemaIsWellFormedness(call.request);
    hide IsWellFormed, MatchesSchema, Execute, Act, OperationOf;
  }

  ghost predicate Passes(api: Api, request: Request) {
    IsWellFormed(request) && RefersToKnown(api, request) && RefundsRightly(api, request)
  }

  /** Nothing before the cache refuses the call. */
  ghost predicate ReachesCache(api: Api, call: Call) {
    Passes(api, call.request) && !(MayFail(call.request) && call.mode in {Transient, Timeout})
  }

  /** Between eight and two hundred letters, digits, dots, underscores, colons and dashes. */
  predicate IsGoodKey(key: Option<string>) {
    match key
    case None => false
    case Some(k) =>
      |k| >= 8 && !(|k| > 200)
      && forall c | c in k :: 'A' <= c <= 'Z' || 'a' <= c <= 'z' || '0' <= c <= '9' || c == '.' || c == '_' || c == ':' || c == '-'
  }

  lemma ValidKeysAreGood(key: Option<string>)
    ensures IsValidKey(key) <==> IsGoodKey(key)
  {
    if IsGoodKey(key) {
      forall i | 0 <= i < |key.value|
        ensures IsKeyCharacter(key.value[i])
      {
        assert key.value[i] in key.value;
      }
    }
    if IsValidKey(key) {
      forall c | c in key.value
        ensures IsKeyCharacter(c)
      {
        var i :| 0 <= i < |key.value| && key.value[i] == c;
      }
    }
  }

  lemma PassedChecks(api: Api, call: Call)
    requires ReachesCache(api, call)
    ensures CheckBefore(api, call.request).None?
    ensures Handle(api, call)
         == var executed := ExecuteCall(api, call);
            (api.(records := executed.records, store := executed.store),
             match executed.response
             case Err(failure) => Err(During(failure))
             case Ok(response) => if MayFail(call.request) && call.mode == Uncertain then Err(After) else Ok(response))
  {
    SchemaIsWellFormedness(call.request);
    hide IsWellFormed, MatchesSchema, Execute, Act, OperationOf;
  }

  /** What the replay cache does with a call: a bad key, a key used for something else, a repetition. */
  lemma RefusalsAndReplays(api: Api, call: Call)
    requires ReachesCache(api, call)
    ensures var (api', answer) := Handle(api, call);
            && (answer == Err(During(InvalidKey)) <==> !IsGoodKey(call.key))
            && (IsGoodKey(call.key) && RecordKeyOf(call) in api.records ==>
                  && api' == api
                  && var known := api.records[RecordKeyOf(call)];
                     answer == if known.request != BodyOf(call.request) then Err(During(KeyReused))
                               else if MayFail(call.request) && call.mode == Uncertain then Err(After)
                               else Ok(Response(true, known.value)))
  {
    PassedChecks(api, call);
    ValidKeysAreGood(call.key);
    hide IsGoodKey, IsValidKey, Act, OperationOf, Passes, CheckBefore, Handle;
  }

  /** The resource exists already, or, for a decision, is not there or not to be decided. */
  function Obstacle(store: Store, request: Request): Option<ApiError> {
    match request
    case CreateReturn(id, _, _) => if id in store.customerReturns then Some(Conflict) else None
    case CreateRefund(id, _, _) => if id in store.refunds then Some(Conflict) else None
    case CreateInspection(id, _, _, _) => if id in store.inspections then Some(Conflict) else None
    case DecideInspection(id, _, _) =>
      if id !in store.inspections then Some(NotFound)
      else if store.inspections[id].approval in {Approved, Rejected} then Some(Conflict)
      else None
    case CreateWork(_, _) => None
  }

  /******* Effects *******/

  /** The ledgers after the call that made the value, against those before. */
  predicate Made(before: Store, after: Store, orders: map<string, Order>, request: Request, key: string, now: Instant, value: Value) {
    match request
    case CreateReturn(id, orderId, reason) =>
      && id !in before.customerReturns && orderId in orders && value.OfReturn? && value.returnId == id
      && var r := value.asReturn;
         && r.orderId == orderId && r.reason == reason && r.createdAt == now
         && (r.eligible <==> orders[orderId].status == Delivered && reason in {Damaged, IncorrectItem})
         && (r.eligible ==> r.refundAmount == orders[orderId].paidAmount)
         && (!r.eligible ==> r.refundAmount == 0.0)
         && (r.status == ReturnRejected <==> !r.eligible)
         && (r.status == ApprovalRequired <==> r.eligible && r.refundAmount > 100_000.0)
         && after == before.(customerReturns := before.customerReturns[id := r])
    case CreateWork(id, returnId) =>
      && value == OfWork(id, Work(returnId, now))
      && after == before.(warehouseWork := before.warehouseWork[id := Work(returnId, now)])
    case CreateRefund(id, returnId, amount) =>
      && id !in before.refunds && value == OfRefund(id, Refund(amount, returnId, now))
      && after == before.(refunds := before.refunds[id := Refund(amount, returnId, now)],
                          callbacks := before.callbacks[key := RefundCallback(id)])
    case CreateInspection(id, location, outcome, submittedBy) =>
      && id !in before.inspections && value.OfInspection? && value.inspectionId == id
      && var made := value.inspection;
         && made.location == location && made.outcome == outcome && made.submittedBy == submittedBy && made.createdAt == now
         && (made.approval == Approved <==> outcome == Pass) && (made.approval == Pending <==> outcome == RequiresRemediation)
         && after == before.(inspections := before.inspections[id := made],
                             callbacks := before.callbacks[key := InspectionCallback(id, made.approval)])
    case DecideInspection(id, approve, _) =>
      && id in before.inspections && before.inspections[id].approval == Pending
      && value.OfInspection? && value.inspectionId == id
      && var made := value.inspection;
         && made == before.inspections[id].(approval := made.approval)
         && (made.approval == Approved <==> approve) && (made.approval == Rejected <==> !approve)
         && after == before.(inspections := before.inspections[id := made],
                             callbacks := before.callbacks[key := InspectionCallback(id, made.approval)])
  }

  lemma ActMakes(api: Api, request: Request, key: string, now: Instant)
    requires CheckBefore(api, request).None?
    ensures Act(api, request, key, now).Err? <==> Obstacle(api.store, request).Some?
    ensures Act(api, request, key, now).Err? ==> Some(Act(api, request, key, now).error) == Obstacle(api.store, request)
    ensures Act(api, request, key, now).Ok? ==>
              Made(api.store, Act(api, request, key, now).value.0, api.orders, request, key, now, Act(api, request, key, now).value.1)
  {
    hide IsIdentifier, MatchesSchema;
  }

  /**
    A call with a new key does what its request says, records the value under the key
    and answers with it, or meets an obstacle and changes nothing.
   */
  lemma NewKeysTakeEffect(api: Api, call: Call)
    requires ReachesCache(api, call) && IsGoodKey(call.key) && RecordKeyOf(call) !in api.records
    ensures var (api', answer) := Handle(api, call);
            match Obstacle(api.store, call.request)
            case Some(error) => api' == api && answer == Err(During(ActionFailed(error)))
            case None =>
              && RecordKeyOf(call) in api'.records && api'.orders == api.orders
              && var made := api'.records[RecordKeyOf(call)];
                 && api'.records == api.records[RecordKeyOf(call) := Record(BodyOf(call.request), made.value)]
                 && Made(api.store, api'.store, api.orders, call.request, call.key.value, call.now, made.value)
                 && answer == if MayFail(call.request) && call.mode == Uncertain then Err(After) else Ok(Response(false, made.value))
  {
    PassedChecks(api, call);
    ValidKeysAreGood(call.key);
    ActMakes(api, call.request, call.key.value, call.now);
    hide IsGoodKey, IsValidKey, Act, OperationOf, Passes, CheckBefore, Handle, Made, Obstacle;
  }

  /** Two requests are the same to the replay cache exactly if their bodies are; a path is no part of a body. */
  lemma SameBodies(r: Request, r': Request)
    ensures BodyOf(r) == BodyOf(r') <==>
              if r.DecideInspection? && r'.DecideInspection? then r.approve == r'.approve && r.rationale == r'.rationale
              else r == r'
  {
  }

  /** A successful answer that is no replay comes with the ledgers changed as the request says. */
  lemma FreshAnswersAreMade(api: Api, call: Call)
    requires Handle(api, call).1.Ok? && !Handle(api, call).1.value.replayed
    ensures call.key.Some?
    ensures Made(api.store, Handle(api, call).0.store, api.orders, call.request, call.key.value, call.now, Handle(api, call).1.value.value)
  {
    RefusalsBeforeTheCache(api, call);
    assert ReachesCache(api, call) by { hide Handle, IsWellFormed; AnsweredCallsPass(api, call); }
    RefusalsAndReplays(api, call);
    NewKeysTakeEffect(api, call);
    hide Handle, ReachesCache, OperationOf, Made;
  }

  lemma AnsweredCallsPass(api: Api, call: Call)
    requires !(Handle(api, call).1.Err? && Handle(api, call).1.error.Before?)
    ensures ReachesCache(api, call)
  {
    SchemaIsWellFormedness(call.request);
    hide Execute, Act, OperationOf, IsWellFormed, MatchesSchema;
  }

  /** Whatever takes effect, is of that kind: it comes from a call that reaches the cache with a good and new key. */
  lemma OnlyNewKeysTakeEffect(api: Api, call: Call)
    requires TakesEffect(api, call)
    ensures ReachesCache(api, call) && IsGoodKey(call.key) && RecordKeyOf(call) !in api.records
    ensures Obstacle(api.store, call.request).None?
  {
    RefusalsBeforeTheCache(api, call);
    SchemaIsWellFormedness(call.request);
    assert ReachesCache(api, call) by { hide Execute, Act, OperationOf, IsWellFormed, MatchesSchema; }
    RefusalsAndReplays(api, call);
    ValidKeysAreGood(call.key);
    KeyWasValid(api, call);
    CallChangesOnlyByRecording(api, call);
    ActMakes(api, call.request, call.key.value, call.now);
    hide Handle, Act, OperationOf, IsGoodKey, IsValidKey, ReachesCache;
  }

  /******* What inspections come to *******/

  function AfterAll(orders: map<string, Order>, calls: seq<Call>): Api {
    HandleAll(NewApi(orders), calls)
  }

  /** Call i of the sequence decides this inspection. */
  predicate DecidesAt(orders: map<string, Order>, calls: seq<Call>, i: nat, id: string, approve: bool) {
    && i < |calls| && calls[i].request.DecideInspection? && calls[i].request.inspectionId == id
    && calls[i].request.approve == approve && TakesEffect(AfterAll(orders, calls[..i]), calls[i])
  }

  predicate IsDecided(orders: map<string, Order>, calls: seq<Call>, id: string, approve: bool) {
    exists i | 0 <= i < |calls| :: DecidesAt(orders, calls, i, id, approve)
  }

  lemma DecidedByLast(orders: map<string, Order>, calls: seq<Call>, id: string, approve: bool)
    requires calls != []
    ensures var before, last := calls[..|calls| - 1], calls[|calls| - 1];
            IsDecided(orders, calls, id, approve) <==>
              || IsDecided(orders, before, id, approve)
              || (last.request.DecideInspection? && last.request.inspectionId == id && last.request.approve == approve
                  && TakesEffect(AfterAll(orders, before), last))
  {
    hide TakesEffect, AfterAll;
    var before := calls[..|calls| - 1];
    assert forall i | 0 <= i < |before| :: before[i] == calls[i] && before[..i] == calls[..i];
    if IsDecided(orders, before, id, approve) {
      var i :| 0 <= i < |before| && DecidesAt(orders, before, i, id, approve);
      assert DecidesAt(orders, calls, i, id, approve);
    }
    if IsDecided(orders, calls, id, approve) {
      var i :| 0 <= i < |calls| && DecidesAt(orders, calls, i, id, approve);
      assert i < |before| ==> DecidesAt(orders, before, i, id, approve);
    }
    assert DecidesAt(orders, calls, |before|, id, approve) <==>
        (calls[|before|].request.DecideInspection? && calls[|before|].request.inspectionId == id
         && calls[|before|].request.approve == approve && TakesEffect(AfterAll(orders, before), calls[|before|]));
  }

  /** How an inspection stands, against the decisions on it. */
  predicate StandsAsDecided(store: Store, id: string, approved: bool, rejected: bool) {
    if id in store.inspections then
      && (store.inspections[id].approval == Approved <==> store.inspections[id].outcome == Pass || approved)
      && (store.inspections[id].approval == Rejected <==> rejected)
    else
      !approved && !rejected
  }

  lemma MadeKeepsStanding(before: Store, after: Store, orders: map<string, Order>, request: Request, key: string, now: Instant,
                          value: Value, id: string, approved: bool, rejected: bool)
    requires StandsAsDecided(before, id, approved, rejected) && Made(before, after, orders, request, key, now, value)
    ensures var decides := request.DecideInspection? && request.inspectionId == id;
            StandsAsDecided(after, id, approved || (decides && request.approve), rejected || (decides && !request.approve))
  {
  }

  /** One effective call, seen by one inspection. */
  lemma EffectOnInspection(before: Api, call: Call, id: string, approved: bool, rejected: bool)
    requires StandsAsDecided(before.store, id, approved, rejected)
    ensures var decides := TakesEffect(before, call) && call.request.DecideInspection? && call.request.inspectionId == id;
            StandsAsDecided(Handle(before, call).0.store, id,
                            approved || (decides && call.request.approve), rejected || (decides && !call.request.approve))
  {
    if TakesEffect(before, call) {
      OnlyNewKeysTakeEffect(before, call);
      NewKeysTakeEffect(before, call);
      var after := Handle(before, call).0;
      MadeKeepsStanding(before.store, after.store, before.orders, call.request, call.key.value, call.now,
                        after.records[RecordKeyOf(call)].value, id, approved, rejected);
    }
    hide Handle, OperationOf, ReachesCache, IsGoodKey, Made, StandsAsDecided;
  }

  /**
    After any calls: an inspection is approved exactly if it passed or a decision that
    took effect approved it, and rejected exactly if one rejected it.
   */
  lemma {:induction false} InspectionsFollowDecisions(orders: map<string, Order>, calls: seq<Call>, id: string)
    ensures StandsAsDecided(AfterAll(orders, calls).store, id, IsDecided(orders, calls, id, true), IsDecided(orders, calls, id, false))
  {
    hide TakesEffect, Handle, StandsAsDecided, IsDecided;
    if calls == [] {
      NothingDecidedAtFirst(orders, id);
    } else {
      var before, last := calls[..|calls| - 1], calls[|calls| - 1];
      InspectionsFollowDecisions(orders, before, id);
      DecidedByLast(orders, calls, id, true);
      DecidedByLast(orders, calls, id, false);
      EffectOnInspection(AfterAll(orders, before), last, id, IsDecided(orders, before, id, true), IsDecided(orders, before, id, false));
    }
  }

  lemma NothingDecidedAtFirst(orders: map<string, Order>, id: string)
    ensures StandsAsDecided(AfterAll(orders, []).store, id, IsDecided(orders, [], id, true), IsDecided(orders, [], id, false))
  {
  }
}

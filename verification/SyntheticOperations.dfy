/**
  The synthetic operations API as a function from calls to answers: commerce and
  field inspections over in-memory ledgers, behind the replay cache and under
  injected failures.
 */
module SyntheticOperations {
  import opened Prelude
  import opened Idempotency

  /******* Ledgers *******/

  datatype OrderStatus = Delivered | Fulfilled

  datatype Order = Order(paidAmount: real, status: OrderStatus)

  datatype Reason = Damaged | IncorrectItem | NotRequired

  datatype ReturnStatus = ApprovalRequired | Eligible | ReturnRejected

  datatype Return = Return(
    orderId: string, reason: Reason, createdAt: Instant, eligible: bool, refundAmount: real, status: ReturnStatus)

  datatype Refund = Refund(amount: real, returnId: string, createdAt: Instant)

  datatype Work = Work(returnId: string, createdAt: Instant)

  datatype InspectionOutcome = Pass | RequiresRemediation

  datatype Approval = Pending | Approved | Rejected

  datatype Inspection = Inspection(
    location: string, outcome: InspectionOutcome, submittedBy: string, approval: Approval, createdAt: Instant)

  datatype Callback = RefundCallback(refundId: string) | InspectionCallback(inspectionId: string, approval: Approval)

  datatype Store = Store(
    customerReturns: map<string, Return>,
    refunds: map<string, Refund>,
    warehouseWork: map<string, Work>,
    inspections: map<string, Inspection>,
    callbacks: map<string, Callback>)

  /******* Calls *******/

  datatype Request =
    | CreateReturn(returnId: string, orderId: string, reason: Reason)
    | CreateWork(workId: string, returnId: string)
    | CreateRefund(refundId: string, returnId: string, amount: real)
    | CreateInspection(inspectionId: string, location: string, outcome: InspectionOutcome, submittedBy: string)
    | DecideInspection(inspectionId: string, approve: bool, rationale: string)

  datatype FailureMode = NoFailure | Transient | Timeout | Uncertain

  /** `mode` is the x-synthetic-failure header, which work and decisions do not read. */
  datatype Call = Call(request: Request, key: Option<string>, mode: FailureMode, now: Instant)

  datatype ApiError = BadRequest | NotFound | Conflict | ServiceUnavailable | GatewayTimeout

  /** What is hashed: the body. The inspection that a decision is about is in its path. */
  datatype Body = Whole(request: Request) | Decision(approve: bool, rationale: string)

  datatype Value =
    | OfReturn(returnId: string, asReturn: Return)
    | OfWork(workId: string, work: Work)
    | OfRefund(refundId: string, refund: Refund)
    | OfInspection(inspectionId: string, inspection: Inspection)

  datatype CallError = Before(error: ApiError) | During(failure: ExecuteError<ApiError>) | After

  type Answer = Result<Response<Value>, CallError>

  type Records = map<string, Record<Body, Value>>

  datatype Api = Api(orders: map<string, Order>, records: Records, store: Store)

  function NewApi(orders: map<string, Order>): Api {
    Api(orders, map[], Store(map[], map[], map[], map[], map[]))
  }

  function OperationOf(request: Request): string {
    match request
    case CreateReturn(_, _, _) => "create-return"
    case CreateWork(_, _) => "create-warehouse-work"
    case CreateRefund(_, _, _) => "create-refund"
    case CreateInspection(_, _, _, _) => "create-field-inspection"
    case DecideInspection(id, _, _) => DecideOperation("decide-field-inspection", id)
  }

  function BodyOf(request: Request): Body {
    if request.DecideInspection? then Decision(request.approve, request.rationale) else Whole(request)
  }

  predicate ReadsMode(request: Request) {
    !request.CreateWork? && !request.DecideInspection?
  }

  predicate IsIdentifierCharacter(c: char) {
    'a' <= c <= 'z' || '0' <= c <= '9' || c == '-'
  }

  /** Words of lower-case letters and digits, with a dash between two words. */
  predicate IsIdentifier(s: string) {
    && 0 < |s| <= 100
    && (forall i | 0 <= i < |s| :: IsIdentifierCharacter(s[i]))
    && s[0] != '-' && s[|s| - 1] != '-'
    && (forall i | 0 < i < |s| :: s[i] == '-' ==> s[i - 1] != '-')
  }

  /** The request schemas. They see bodies only, so not the id in the path of a decision. */
  predicate MatchesSchema(request: Request) {
    match request
    case CreateReturn(id, orderId, _) => IsIdentifier(id) && IsIdentifier(orderId)
    case CreateWork(id, returnId) => IsIdentifier(id) && IsIdentifier(returnId)
    case CreateRefund(id, returnId, amount) => IsIdentifier(id) && IsIdentifier(returnId) && 0.0 < amount <= 10_000_000.0
    case CreateInspection(id, location, _, submittedBy) => IsIdentifier(id) && IsIdentifier(location) && IsIdentifier(submittedBy)
    case DecideInspection(_, _, rationale) => 10 <= |rationale| <= 1_000
  }

  /** An error injected before the side effect. */
  function FailBeforeSideEffect(mode: FailureMode): (error: Option<ApiError>)
    ensures error == Some(ServiceUnavailable) <==> mode == Transient
    ensures error == Some(GatewayTimeout) <==> mode == Timeout
    ensures error == None <==> mode in {NoFailure, Uncertain}
  {
    match mode
    case Transient => Some(ServiceUnavailable)
    case Timeout => Some(GatewayTimeout)
    case _ => None
  }

  /** The checks before the cache is asked. */
  function CheckBefore(api: Api, request: Request): Option<ApiError> {
    if MatchesSchema(request) then CheckLedgers(api, request) else Some(BadRequest)
  }

  function CheckLedgers(api: Api, request: Request): Option<ApiError> {
    match request
    case CreateReturn(_, orderId, _) => if orderId in api.orders then None else Some(NotFound)
    case CreateWork(_, returnId) => if returnId in api.store.customerReturns then None else Some(NotFound)
    case CreateRefund(_, returnId, amount) =>
      if returnId !in api.store.customerReturns then Some(NotFound)
      else if !api.store.customerReturns[returnId].eligible || amount != api.store.customerReturns[returnId].refundAmount then Some(Conflict)
      else None
    case _ => None
  }

  function NewReturn(order: Order, orderId: string, reason: Reason, now: Instant): Return {
    var eligible := order.status.Delivered? && !reason.NotRequired?;
    Return(orderId, reason, now, eligible, if eligible then order.paidAmount else 0.0,
           if !eligible then ReturnRejected else if order.paidAmount > 100_000.0 then ApprovalRequired else Eligible)
  }

  /** What the action does to the store: it throws before it changes anything, or not at all. */
  function Act(api: Api, request: Request, key: string, now: Instant): Result<(Store, Value), ApiError>
    requires CheckBefore(api, request).None?
  {
    var store := api.store;
    match request
    case CreateReturn(id, orderId, reason) =>
      if id in store.customerReturns then Err(Conflict)
      else
        var created := NewReturn(api.orders[orderId], orderId, reason, now);
        Ok((store.(customerReturns := store.customerReturns[id := created]), OfReturn(id, created)))
    case CreateWork(id, returnId) =>
      var work := Work(returnId, now);
      Ok((store.(warehouseWork := store.warehouseWork[id := work]), OfWork(id, work)))
    case CreateRefund(id, returnId, amount) =>
      if id in store.refunds then Err(Conflict)
      else
        var refund := Refund(amount, returnId, now);
        Ok((store.(refunds := store.refunds[id := refund], callbacks := store.callbacks[key := RefundCallback(id)]),
            OfRefund(id, refund)))
    case CreateInspection(id, location, outcome, submittedBy) =>
      if id in store.inspections then Err(Conflict)
      else
        var inspection := Inspection(location, outcome, submittedBy, if outcome.Pass? then Approved else Pending, now);
        Ok((store.(inspections := store.inspections[id := inspection],
            callbacks := store.callbacks[key := InspectionCallback(id, inspection.approval)]),
            OfInspection(id, inspection)))
    case DecideInspection(id, approve, _) =>
      if id !in store.inspections then Err(NotFound)
      else if !store.inspections[id].approval.Pending? then Err(Conflict)
      else
        var inspection := store.inspections[id].(approval := if approve then Approved else Rejected);
        Ok((store.(inspections := store.inspections[id := inspection],
            callbacks := store.callbacks[key := InspectionCallback(id, inspection.approval)]),
            OfInspection(id, inspection)))
  }

  /** The cache and the action together, once the checks have passed. */
  function ExecuteCall(api: Api, call: Call): Executed<Store, Body, Value, ApiError>
    requires CheckBefore(api, call.request).None?
  {
    Execute(api.records, api.store, OperationOf(call.request), call.key, BodyOf(call.request),
            Act(api, call.request, if call.key.Some? then call.key.value else "", call.now))
  }

  function Handle(api: Api, call: Call): (Api, Answer) {
    var check := CheckBefore(api, call.request);
    if check.Some? then (api, Err(Before(check.value)))
    else if ReadsMode(call.request) && FailBeforeSideEffect(call.mode).Some? then
      (api, Err(Before(FailBeforeSideEffect(call.mode).value)))
    else
      var executed := ExecuteCall(api, call);
      var changed := api.(records := executed.records, store := executed.store);
      match executed.response
      case Err(failure) => (changed, Err(During(failure)))
      case Ok(response) =>
        if ReadsMode(call.request) && call.mode.Uncertain? then (changed, Err(After)) else (changed, Ok(response))
  }

  function HandleAll(api: Api, calls: seq<Call>): Api {
    if calls == [] then api else Handle(HandleAll(api, calls[..|calls| - 1]), calls[|calls| - 1]).0
  }

  function RecordKeyOf(call: Call): string
    requires call.key.Some?
  {
    RecordKey(OperationOf(call.request), call.key.value)
  }

  /******* What every call keeps *******/

  predicate ReturnIsSound(orders: map<string, Order>, r: Return) {
    r.orderId in orders && r == NewReturn(orders[r.orderId], r.orderId, r.reason, r.createdAt)
  }

  /** A refund pays an eligible return exactly what its order paid. */
  predicate RefundIsBacked(api: Api, refund: Refund) {
    && refund.returnId in api.store.customerReturns
    && var r := api.store.customerReturns[refund.returnId];
       && r.eligible
       && r.orderId in api.orders
       && refund.amount == r.refundAmount == api.orders[r.orderId].paidAmount
       && api.orders[r.orderId].status.Delivered? && !r.reason.NotRequired?
  }

  predicate CallbackIsTrue(store: Store, c: Callback) {
    match c
    case RefundCallback(id) => id in store.refunds
    case InspectionCallback(id, approval) =>
      id in store.inspections && (approval.Pending? || store.inspections[id].approval == approval)
  }

  predicate ReturnsAreSound(api: Api) {
    forall id | id in api.store.customerReturns :: ReturnIsSound(api.orders, api.store.customerReturns[id])
  }

  predicate RefundsAreBacked(api: Api) {
    forall id | id in api.store.refunds :: RefundIsBacked(api, api.store.refunds[id])
  }

  /** An inspection that passed is approved from the start. */
  predicate InspectionsAreSound(store: Store) {
    forall id | id in store.inspections ::
      && ':' !in id
      && (store.inspections[id].outcome.Pass? ==> store.inspections[id].approval.Approved?)
  }

  predicate CallbacksAreTrue(store: Store) {
    forall key | key in store.callbacks :: CallbackIsTrue(store, store.callbacks[key])
  }

  predicate LedgersAreSound(api: Api) {
    ReturnsAreSound(api) && RefundsAreBacked(api) && InspectionsAreSound(api.store) && CallbacksAreTrue(api.store)
  }

  /** How ledgers may change: returns and refunds are written once, an inspection is decided once. */
  predicate OnlyGrows(before: Store, after: Store) {
    && (forall id | id in before.customerReturns :: id in after.customerReturns && after.customerReturns[id] == before.customerReturns[id])
    && (forall id | id in before.refunds :: id in after.refunds && after.refunds[id] == before.refunds[id])
    && (forall id | id in before.inspections ::
          && id in after.inspections
          && after.inspections[id] == before.inspections[id].(approval := after.inspections[id].approval)
          && (!before.inspections[id].approval.Pending? ==> after.inspections[id] == before.inspections[id]))
  }

  lemma ActOnlyGrows(api: Api, request: Request, key: string, now: Instant)
    requires CheckBefore(api, request).None? && Act(api, request, key, now).Ok?
    ensures OnlyGrows(api.store, Act(api, request, key, now).value.0)
  {
    hide IsIdentifier, IsIdentifierCharacter, MatchesSchema;
  }

  lemma ActKeepsReturnsAndInspections(api: Api, request: Request, key: string, now: Instant)
    requires LedgersAreSound(api) && CheckBefore(api, request).None? && Act(api, request, key, now).Ok?
    ensures ReturnsAreSound(api.(store := Act(api, request, key, now).value.0))
    ensures InspectionsAreSound(Act(api, request, key, now).value.0)
  {
    hide IsIdentifier, IsIdentifierCharacter, RefundIsBacked, CallbackIsTrue;
    if request.CreateInspection? {
      IdentifiersHaveNoColon(request.inspectionId);
    }
  }

  lemma ActKeepsRefunds(api: Api, request: Request, key: string, now: Instant)
    requires LedgersAreSound(api) && CheckBefore(api, request).None? && Act(api, request, key, now).Ok?
    ensures RefundsAreBacked(api.(store := Act(api, request, key, now).value.0))
  {
    hide IsIdentifier, IsIdentifierCharacter, MatchesSchema, InspectionsAreSound, CallbacksAreTrue;
    ActOnlyGrows(api, request, key, now);
  }

  lemma ActKeepsCallbacks(api: Api, request: Request, key: string, now: Instant)
    requires LedgersAreSound(api) && CheckBefore(api, request).None? && Act(api, request, key, now).Ok?
    ensures CallbacksAreTrue(Act(api, request, key, now).value.0)
  {
    hide IsIdentifier, IsIdentifierCharacter, MatchesSchema, ReturnsAreSound, RefundsAreBacked, NewReturn;
    ActOnlyGrows(api, request, key, now);
  }

  lemma ActKeepsLedgers(api: Api, request: Request, key: string, now: Instant)
    requires LedgersAreSound(api) && CheckBefore(api, request).None? && Act(api, request, key, now).Ok?
    ensures LedgersAreSound(api.(store := Act(api, request, key, now).value.0))
    ensures OnlyGrows(api.store, Act(api, request, key, now).value.0)
  {
    ActOnlyGrows(api, request, key, now);
    ActKeepsReturnsAndInspections(api, request, key, now);
    ActKeepsRefunds(api, request, key, now);
    ActKeepsCallbacks(api, request, key, now);
    hide Act, OnlyGrows, ReturnsAreSound, RefundsAreBacked, InspectionsAreSound, CallbacksAreTrue;
  }

  /** A call changes nothing, or it records its key and makes the one change of its action. */
  lemma CallChangesOnlyByRecording(api: Api, call: Call)
    ensures var api' := Handle(api, call).0;
            api' == api ||
            (&& call.key.Some? && CheckBefore(api, call.request).None?
             && RecordKeyOf(call) !in api.records
             && Act(api, call.request, call.key.value, call.now).Ok?
             && var (store, value) := Act(api, call.request, call.key.value, call.now).value;
                api' == Api(api.orders, api.records[RecordKeyOf(call) := Record(BodyOf(call.request), value)], store))
  {
    hide OperationOf;
  }

  /** Over any sequence of calls the ledgers stay sound and only grow. */
  lemma {:induction false} LedgersOverAllCalls(api: Api, calls: seq<Call>)
    requires LedgersAreSound(api)
    ensures LedgersAreSound(HandleAll(api, calls))
    ensures OnlyGrows(api.store, HandleAll(api, calls).store)
    ensures HandleAll(api, calls).orders == api.orders
    ensures forall recordKey | recordKey in api.records ::
              recordKey in HandleAll(api, calls).records && HandleAll(api, calls).records[recordKey] == api.records[recordKey]
  {
    hide OperationOf, Handle, Act;
    if calls != [] {
      var call := calls[|calls| - 1];
      var before := HandleAll(api, calls[..|calls| - 1]);
      LedgersOverAllCalls(api, calls[..|calls| - 1]);
      CallChangesOnlyByRecording(before, call);
      if Handle(before, call).0 != before {
        ActKeepsLedgers(before, call.request, call.key.value, call.now);
        LedgersIgnoreRecords(before.(store := Act(before, call.request, call.key.value, call.now).value.0), Handle(before, call).0);
      }
    }
  }

  lemma LedgersIgnoreRecords(api: Api, api': Api)
    requires LedgersAreSound(api) && api'.orders == api.orders && api'.store == api.store
    ensures LedgersAreSound(api')
  {
    forall id | id in api'.store.refunds
      ensures RefundIsBacked(api', api'.store.refunds[id])
    {
      assert RefundIsBacked(api, api.store.refunds[id]);
    }
  }

  /******* Exactly once, under injected failures *******/

  /** The call's action took effect. */
  predicate TakesEffect(api: Api, call: Call) {
    Handle(api, call).0 != api
  }

  function Effects(api: Api, calls: seq<Call>, recordKey: string): nat {
    if calls == [] then 0
    else
      var call := calls[|calls| - 1];
      Effects(api, calls[..|calls| - 1], recordKey)
      + if call.key.Some? && RecordKeyOf(call) == recordKey && TakesEffect(HandleAll(api, calls[..|calls| - 1]), call) then 1 else 0
  }

  /** The effects of a record key are counted by whether the cache has it: none or one. */
  lemma {:induction false} EffectsAreRecorded(orders: map<string, Order>, calls: seq<Call>, recordKey: string)
    ensures Effects(NewApi(orders), calls, recordKey)
         == if recordKey in HandleAll(NewApi(orders), calls).records then 1 else 0
  {
    hide OperationOf, Handle, Act;
    if calls != [] {
      EffectsAreRecorded(orders, calls[..|calls| - 1], recordKey);
      CallChangesOnlyByRecording(HandleAll(NewApi(orders), calls[..|calls| - 1]), calls[|calls| - 1]);
    }
  }

  /** A call that took effect is answered with an error exactly if a failure was injected after its effect. */
  lemma ErrorsHideEffectsOnlyWhenUncertain(api: Api, call: Call)
    requires TakesEffect(api, call)
    ensures Handle(api, call).1.Err? <==> call.mode.Uncertain? && ReadsMode(call.request)
    ensures Handle(api, call).1.Err? ==> Handle(api, call).1.error.After?
  {
    hide OperationOf;
  }

  lemma ChecksStayPassed(api: Api, api': Api, request: Request)
    requires api'.orders == api.orders && OnlyGrows(api.store, api'.store)
    requires CheckBefore(api, request).None?
    ensures CheckBefore(api', request).None?
  {
  }

  /**
    Once a call has taken effect, whatever it was told and whatever came in between,
    the same request without injected failures gets the value of that effect and
    changes nothing.
   */
  lemma RetryReturnsTheFirstValue(api: Api, call: Call, between: seq<Call>, retry: Call)
    requires LedgersAreSound(api) && TakesEffect(api, call)
    requires retry.request == call.request && retry.key == call.key && retry.mode.NoFailure?
    ensures call.key.Some? && CheckBefore(api, call.request).None?
            && Act(api, call.request, call.key.value, call.now).Ok?
    ensures Handle(HandleAll(Handle(api, call).0, between), retry)
         == (HandleAll(Handle(api, call).0, between), Ok(Response(true, Act(api, call.request, call.key.value, call.now).value.1)))
  {
    hide OperationOf, Act, IsValidKey;
    CallChangesOnlyByRecording(api, call);
    KeyWasValid(api, call);
    var first := Handle(api, call).0;
    ActKeepsLedgers(api, call.request, call.key.value, call.now);
    LedgersIgnoreRecords(api.(store := first.store), first);
    LedgersOverAllCalls(first, between);
    var later := HandleAll(first, between);
    ChecksStayPassed(api, first, call.request);
    ChecksStayPassed(first, later, call.request);
    assert RecordKeyOf(call) in later.records;
  }

  lemma KeyWasValid(api: Api, call: Call)
    requires TakesEffect(api, call)
    ensures IsValidKey(call.key)
  {
    hide OperationOf;
  }

  /******* Whose answer it is *******/

  /** The id that a decision takes from its path has no colon. Other ids never have one. */
  predicate IsColonFree(request: Request) {
    request.DecideInspection? ==> ':' !in request.inspectionId
  }

  /** The value is about the resource that the request names. */
  predicate IsAbout(value: Value, request: Request) {
    match request
    case CreateReturn(id, _, _) => value.OfReturn? && value.returnId == id
    case CreateWork(id, _) => value.OfWork? && value.workId == id
    case CreateRefund(id, _, _) => value.OfRefund? && value.refundId == id
    case CreateInspection(id, _, _, _) => value.OfInspection? && value.inspectionId == id
    case DecideInspection(id, _, _) => value.OfInspection? && value.inspectionId == id
  }

  predicate RecordedFor(api: Api, request: Request, key: string) {
    var recordKey := RecordKey(OperationOf(request), key);
    recordKey in api.records && api.records[recordKey].request == BodyOf(request)
  }

  ghost predicate RecordsAreOwn(api: Api) {
    && (forall request, key | IsColonFree(request) && RecordedFor(api, request, key) ::
          IsAbout(api.records[RecordKey(OperationOf(request), key)].value, request))
    && (forall recordKey | recordKey in api.records && api.records[recordKey].value.OfInspection? ::
          ':' !in api.records[recordKey].value.inspectionId)
  }

  lemma ActIsAboutItsRequest(api: Api, request: Request, key: string, now: Instant)
    requires LedgersAreSound(api) && CheckBefore(api, request).None? && Act(api, request, key, now).Ok?
    ensures IsColonFree(request) && IsAbout(Act(api, request, key, now).value.1, request)
    ensures Act(api, request, key, now).value.1.OfInspection? ==> ':' !in Act(api, request, key, now).value.1.inspectionId
  {
    if request.CreateInspection? {
      IdentifiersHaveNoColon(request.inspectionId);
    }
  }

  lemma IdentifiersHaveNoColon(s: string)
    requires IsIdentifier(s)
    ensures ':' !in s
  {
  }

  lemma RecordingKeepsRecordsOwn(api: Api, call: Call, value: Value)
    requires RecordsAreOwn(api) && call.key.Some?
    requires IsColonFree(call.request) && IsAbout(value, call.request)
    requires value.OfInspection? ==> ':' !in value.inspectionId
    ensures RecordsAreOwn(api.(records := api.records[RecordKeyOf(call) := Record(BodyOf(call.request), value)]))
  {
    hide OperationOf;
    var api' := api.(records := api.records[RecordKeyOf(call) := Record(BodyOf(call.request), value)]);
    forall request, key | IsColonFree(request) && RecordedFor(api', request, key)
      ensures IsAbout(api'.records[RecordKey(OperationOf(request), key)].value, request)
    {
      if RecordKey(OperationOf(request), key) == RecordKeyOf(call) {
        RecordKeysAreInjective(request, key, call.request, call.key.value);
      } else {
        assert RecordedFor(api, request, key);
      }
    }
  }

  lemma {:induction false} RecordsStayOwn(orders: map<string, Order>, calls: seq<Call>)
    ensures LedgersAreSound(HandleAll(NewApi(orders), calls)) && RecordsAreOwn(HandleAll(NewApi(orders), calls))
  {
    hide OperationOf, Handle, Act, RecordsAreOwn;
    var api := HandleAll(NewApi(orders), calls);
    LedgersOverAllCalls(NewApi(orders), calls);
    if calls == [] {
      NothingIsRecordedAtFirst(orders);
    } else {
      var before, call := HandleAll(NewApi(orders), calls[..|calls| - 1]), calls[|calls| - 1];
      RecordsStayOwn(orders, calls[..|calls| - 1]);
      CallChangesOnlyByRecording(before, call);
      if api != before {
        ActIsAboutItsRequest(before, call.request, call.key.value, call.now);
        var (store, value) := Act(before, call.request, call.key.value, call.now).value;
        RecordingKeepsRecordsOwn(before, call, value);
        RecordsIgnoreStore(before.(records := api.records), api);
      }
    }
  }

  lemma NothingIsRecordedAtFirst(orders: map<string, Order>)
    ensures RecordsAreOwn(NewApi(orders))
  {
  }

  lemma RecordsIgnoreStore(api: Api, api': Api)
    requires RecordsAreOwn(api) && api'.records == api.records
    ensures RecordsAreOwn(api')
  {
    hide OperationOf;
    forall request, key | IsColonFree(request) && RecordedFor(api', request, key)
      ensures IsAbout(api'.records[RecordKey(OperationOf(request), key)].value, request)
    {
      assert RecordedFor(api, request, key);
    }
  }

  /**
    After any sequence of calls, a successful answer is about the resource that was
    asked for exactly when the id in the path has no colon: a record key joins the id
    and the caller's key with a colon, and the hash leaves the id out.
   */
  lemma AnswersAreOwnExactlyWithoutColons(orders: map<string, Order>, calls: seq<Call>, call: Call)
    requires Handle(HandleAll(NewApi(orders), calls), call).1.Ok?
    ensures IsAbout(Handle(HandleAll(NewApi(orders), calls), call).1.value.value, call.request)
       <==> IsColonFree(call.request)
  {
    hide OperationOf, RecordsAreOwn;
    RecordsStayOwn(orders, calls);
    var api := HandleAll(NewApi(orders), calls);
    AnswerIsRecordedOrActed(api, call);
    if RecordedFor(api, call.request, call.key.value) {
      OwnRecord(api, call.request, call.key.value);
    } else {
      ActIsAboutItsRequest(api, call.request, call.key.value, call.now);
    }
  }

  lemma OwnRecord(api: Api, request: Request, key: string)
    requires RecordsAreOwn(api) && RecordedFor(api, request, key)
    ensures IsAbout(api.records[RecordKey(OperationOf(request), key)].value, request) <==> IsColonFree(request)
  {
    hide OperationOf;
  }

  lemma AnswerIsRecordedOrActed(api: Api, call: Call)
    requires Handle(api, call).1.Ok?
    ensures call.key.Some? && CheckBefore(api, call.request).None?
    ensures if RecordedFor(api, call.request, call.key.value)
            then Handle(api, call).1.value == Response(true, api.records[RecordKeyOf(call)].value)
            else && Act(api, call.request, call.key.value, call.now).Ok?
                 && Handle(api, call).1.value == Response(false, Act(api, call.request, call.key.value, call.now).value.1)
  {
    hide OperationOf, Act;
  }

  /** The step that ColonsReachForeignAnswers repeats: a call whose key is new and whose action succeeds. */
  lemma NewKeyTakesEffect(api: Api, call: Call)
    requires CheckBefore(api, call.request).None? && call.mode.NoFailure? && IsValidKey(call.key)
    requires RecordKeyOf(call) !in api.records && Act(api, call.request, call.key.value, call.now).Ok?
    ensures var (store, value) := Act(api, call.request, call.key.value, call.now).value;
            && Handle(api, call).0 == Api(api.orders, api.records[RecordKeyOf(call) := Record(BodyOf(call.request), value)], store)
            && Handle(api, call).1 == Ok(Response(false, value))
  {
    assert call.key.Some?;
    hide OperationOf, IsValidKey, Act, CheckBefore;
  }

  lemma SameBodyIsReplayed(api: Api, call: Call)
    requires CheckBefore(api, call.request).None? && call.mode.NoFailure? && IsValidKey(call.key)
    requires RecordedFor(api, call.request, call.key.value)
    ensures Handle(api, call) == (api, Ok(Response(true, api.records[RecordKeyOf(call)].value)))
  {
    assert call.key.Some?;
    hide OperationOf, IsValidKey, Act, CheckBefore;
  }

  /** Such an answer exists: asking for a decision on an inspection that does not exist gives the decision on another. */
  lemma ColonsReachForeignAnswers(orders: map<string, Order>, id: string, rest: string, key: string, rationale: string, now: Instant)
    requires IsIdentifier(id) && IsValidKey(Some(key)) && IsValidKey(Some(rest + ":" + key)) && 10 <= |rationale| <= 1_000
    ensures var calls := [Call(CreateInspection(id, id, RequiresRemediation, id), Some(key), NoFailure, now),
                          Call(DecideInspection(id, true, rationale), Some(rest + ":" + key), NoFailure, now)];
            var call := Call(DecideInspection(id + ":" + rest, true, rationale), Some(key), NoFailure, now);
            var (api, answer) := Handle(HandleAll(NewApi(orders), calls), call);
            && answer.Ok? && answer.value.replayed
            && answer.value.value.OfInspection? && answer.value.value.inspectionId == id
            && id + ":" + rest !in api.store.inspections
  {
    hide OperationOf, IsValidKey, Handle;
    var create := Call(CreateInspection(id, id, RequiresRemediation, id), Some(key), NoFailure, now);
    var decide := Call(DecideInspection(id, true, rationale), Some(rest + ":" + key), NoFailure, now);
    var foreign := Call(DecideInspection(id + ":" + rest, true, rationale), Some(key), NoFailure, now);
    var api0 := NewApi(orders);
    var api1 := Handle(api0, create).0;
    var api2 := Handle(api1, decide).0;
    assert HandleAll(api0, [create, decide]) == api2 by {
      assert [create, decide][..1] == [create] && [create][..0] == [];
      assert HandleAll(api0, [create]) == Handle(HandleAll(api0, []), create).0;
    }
    NewKeyTakesEffect(api0, create);
    if RecordKeyOf(create) == RecordKeyOf(decide) {
      IdentifiersHaveNoColon(id);
      RecordKeysAreInjective(create.request, key, decide.request, rest + ":" + key);
      assert false;
    }
    NewKeyTakesEffect(api1, decide);
    ColonsMoveBetweenIdAndKey(id, rest, key, rationale);
    SameBodyIsReplayed(api2, foreign);
  }

  lemma ColonsMoveBetweenIdAndKey(id: string, rest: string, key: string, rationale: string)
    ensures RecordKey(OperationOf(DecideInspection(id, true, rationale)), rest + ":" + key)
         == RecordKey(OperationOf(DecideInspection(id + ":" + rest, true, rationale)), key)
  {
    hide OperationOf;
    SplitsIntoName(DecideInspection(id, true, rationale), rest + ":" + key);
    SplitsIntoName(DecideInspection(id + ":" + rest, true, rationale), key);
    assert id + ":" + (rest + ":" + key) == (id + ":" + rest) + ":" + key;
  }

  /** The fixed operation names contain no colon, so only decisions can share records, and only over colons in ids. */
  lemma RecordKeysAreInjective(r: Request, key: string, r': Request, key': string)
    requires RecordKey(OperationOf(r), key) == RecordKey(OperationOf(r'), key')
    requires r.DecideInspection? ==> ':' !in r.inspectionId
    requires r'.DecideInspection? ==> ':' !in r'.inspectionId
    ensures OperationOf(r) == OperationOf(r') && key == key'
    ensures if r.DecideInspection? then r'.DecideInspection? && r'.inspectionId == r.inspectionId else !r'.DecideInspection?
  {
    NamesHaveNoColon();
    var n, n' := NameOf(r), NameOf(r');
    var rest, rest' := RestOf(r, key), RestOf(r', key');
    SplitsIntoName(r, key);
    SplitsIntoName(r', key');
    FirstColonSplitsOneWay(n, rest, n', rest');
    NamesDiffer(r, r');
    if r.DecideInspection? {
      FirstColonSplitsOneWay(r.inspectionId, key, r'.inspectionId, key');
    }
  }

  function NameOf(r: Request): string {
    if r.DecideInspection? then "decide-field-inspection" else OperationOf(r)
  }

  function RestOf(r: Request, key: string): string {
    if r.DecideInspection? then r.inspectionId + ":" + key else key
  }

  lemma NamesHaveNoColon()
    ensures forall r: Request :: ':' !in NameOf(r)
  {
  }

  lemma NamesDiffer(r: Request, r': Request)
    requires NameOf(r) == NameOf(r')
    ensures r.DecideInspection? <==> r'.DecideInspection?
  {
    assert |"decide-field-inspection"| == 23 && |"create-field-inspection"| == 23;
    assert "decide-field-inspection"[0] != "create-field-inspection"[0];
  }

  lemma SplitsIntoName(r: Request, key: string)
    ensures RecordKey(OperationOf(r), key) == NameOf(r) + ":" + RestOf(r, key)
  {
    if r.DecideInspection? {
      assert RecordKey(OperationOf(r), key) == ("decide-field-inspection" + ":" + r.inspectionId) + ":" + key;
      assert NameOf(r) + ":" + RestOf(r, key) == "decide-field-inspection" + ":" + (r.inspectionId + ":" + key);
    }
  }
}

/**
  The synthetic operations API as it is written: two controllers over one replay
  cache and one store, whose maps they change in place.
 */
module SyntheticService {
  import opened Prelude
  import opened Idempotency
  import opened SyntheticOperations
  import opened SyntheticEffects

  class SyntheticStore {
    var customerReturns: map<string, Return>
    var refunds: map<string, Refund>
    var warehouseWork: map<string, Work>
    var inspections: map<string, Inspection>
    var callbacks: map<string, Callback>

    function Contents(): Store
      reads this
    {
      Store(customerReturns, refunds, warehouseWork, inspections, callbacks)
    }

    constructor ()
      ensures Contents() == Store(map[], map[], map[], map[], map[])
    {
      customerReturns, refunds, warehouseWork, inspections, callbacks := map[], map[], map[], map[], map[];
    }
  }

  class IdempotencyService {
    var records: Records

    constructor ()
      ensures records == map[]
    {
      records := map[];
    }

    /** The part of an execution before its action: a refusal, a recorded value, or nothing yet. */
    method Recall(operation: string, key: Option<string>, body: Body)
      returns (known: Result<Option<Value>, ExecuteError<ApiError>>)
      ensures known == match Execute(records, (), operation, key, body, Err(())).response
                       case Ok(response) => Ok(Some(response.value))
                       case Err(InvalidKey) => Err(InvalidKey)
                       case Err(KeyReused) => Err(KeyReused)
                       case Err(ActionFailed(_)) => Ok(None)
      ensures known.Ok? ==> key.Some?
    {
      if !IsValidKey(key) {
        return Err(InvalidKey);
      }
      var recordKey := RecordKey(operation, key.value);
      if recordKey !in records {
        return Ok(None);
      }
      var existing := records[recordKey];
      if existing.request != body {
        return Err(KeyReused);
      }
      return Ok(Some(existing.value));
    }

    /** The part after it. */
    method Remember(operation: string, key: string, body: Body, value: Value)
      modifies this
      ensures records == old(records)[RecordKey(operation, key) := Record(body, value)]
    {
      records := records[RecordKey(operation, key) := Record(body, value)];
    }
  }

  class CommerceController {
    const orders: map<string, Order>
    const idempotency: IdempotencyService
    const store: SyntheticStore

    constructor (orders: map<string, Order>, idempotency: IdempotencyService, store: SyntheticStore)
      ensures this.orders == orders && this.idempotency == idempotency && this.store == store
    {
      this.orders, this.idempotency, this.store := orders, idempotency, store;
    }

    function View(): Api
      reads idempotency, store
    {
      Api(orders, idempotency.records, store.Contents())
    }

    method CreateReturn(returnId: string, orderId: string, reason: Reason, key: Option<string>, mode: FailureMode, now: Instant)
      returns (answer: Answer)
      modifies idempotency, store
      ensures (View(), answer) == Handle(old(View()), Call(Request.CreateReturn(returnId, orderId, reason), key, mode, now))
      ensures answer.Ok? && !answer.value.replayed ==>
                && key.Some?
                && Made(old(store.Contents()), store.Contents(), orders, Request.CreateReturn(returnId, orderId, reason),
                        key.value, now, answer.value.value)
    {
      hide IsIdentifier, IsValidKey, Made;
      var request := Request.CreateReturn(returnId, orderId, reason);
      ghost var before := View();
      ghost var call := Call(request, key, mode, now);
      if Handle(before, call).1.Ok? && !Handle(before, call).1.value.replayed {
        FreshAnswersAreMade(before, call);
      }
      if !MatchesSchema(request) {
        return Err(Before(BadRequest));
      }
      if orderId !in orders {
        return Err(Before(NotFound));
      }
      var order := orders[orderId];
      var injected := FailBeforeSideEffect(mode);
      if injected.Some? {
        return Err(Before(injected.value));
      }
      var known := idempotency.Recall("create-return", key, BodyOf(request));
      if known.Err? {
        return Err(During(known.error));
      }
      if known.value.None? {
        if returnId in store.customerReturns {
          return Err(During(ActionFailed(Conflict)));
        }
        var eligible := order.status.Delivered? && !reason.NotRequired?;
        var status := if !eligible then ReturnRejected else if order.paidAmount > 100_000.0 then ApprovalRequired else Eligible;
        var created := Return(orderId, reason, now, eligible, if eligible then order.paidAmount else 0.0, status);
        store.customerReturns := store.customerReturns[returnId := created];
        idempotency.Remember("create-return", key.value, BodyOf(request), OfReturn(returnId, created));
        answer := Ok(Response(false, OfReturn(returnId, created)));
      } else {
        answer := Ok(Response(true, known.value.value));
      }
      if mode.Uncertain? {
        return Err(After);
      }
    }

    method CreateWarehouseWork(workId: string, returnId: string, key: Option<string>, mode: FailureMode, now: Instant)
      returns (answer: Answer)
      modifies idempotency, store
      ensures (View(), answer) == Handle(old(View()), Call(CreateWork(workId, returnId), key, mode, now))
      ensures answer.Ok? && !answer.value.replayed ==>
                && key.Some?
                && Made(old(store.Contents()), store.Contents(), orders, CreateWork(workId, returnId),
                        key.value, now, answer.value.value)
    {
      hide IsIdentifier, IsValidKey, Made;
      var request := CreateWork(workId, returnId);
      ghost var before := View();
      ghost var call := Call(request, key, mode, now);
      if Handle(before, call).1.Ok? && !Handle(before, call).1.value.replayed {
        FreshAnswersAreMade(before, call);
      }
      if !MatchesSchema(request) {
        return Err(Before(BadRequest));
      }
      if returnId !in store.customerReturns {
        return Err(Before(NotFound));
      }
      var known := idempotency.Recall("create-warehouse-work", key, BodyOf(request));
      if known.Err? {
        return Err(During(known.error));
      }
      if known.value.Some? {
        return Ok(Response(true, known.value.value));
      }
      var work := Work(returnId, now);
      store.warehouseWork := store.warehouseWork[workId := work];
      idempotency.Remember("create-warehouse-work", key.value, BodyOf(request), OfWork(workId, work));
      return Ok(Response(false, OfWork(workId, work)));
    }

    method CreateRefund(refundId: string, returnId: string, amount: real, key: Option<string>, mode: FailureMode, now: Instant)
      returns (answer: Answer)
      modifies idempotency, store
      ensures (View(), answer) == Handle(old(View()), Call(Request.CreateRefund(refundId, returnId, amount), key, mode, now))
      ensures answer.Ok? && !answer.value.replayed ==>
                && key.Some?
                && Made(old(store.Contents()), store.Contents(), orders, Request.CreateRefund(refundId, returnId, amount),
                        key.value, now, answer.value.value)
    {
      hide IsIdentifier, IsValidKey, Made;
      var request := Request.CreateRefund(refundId, returnId, amount);
      ghost var before := View();
      ghost var call := Call(request, key, mode, now);
      if Handle(before, call).1.Ok? && !Handle(before, call).1.value.replayed {
        FreshAnswersAreMade(before, call);
      }
      if !MatchesSchema(request) {
        return Err(Before(BadRequest));
      }
      if returnId !in store.customerReturns {
        return Err(Before(NotFound));
      }
      var customerReturn := store.customerReturns[returnId];
      if !customerReturn.eligible || amount != customerReturn.refundAmount {
        return Err(Before(Conflict));
      }
      var injected := FailBeforeSideEffect(mode);
      if injected.Some? {
        return Err(Before(injected.value));
      }
      var known := idempotency.Recall("create-refund", key, BodyOf(request));
      if known.Err? {
        return Err(During(known.error));
      }
      if known.value.None? {
        if refundId in store.refunds {
          return Err(During(ActionFailed(Conflict)));
        }
        var refund := Refund(amount, returnId, now);
        store.refunds := store.refunds[refundId := refund];
        store.callbacks := store.callbacks[key.value := RefundCallback(refundId)];
        idempotency.Remember("create-refund", key.value, BodyOf(request), OfRefund(refundId, refund));
        answer := Ok(Response(false, OfRefund(refundId, refund)));
      } else {
        answer := Ok(Response(true, known.value.value));
      }
      if mode.Uncertain? {
        return Err(After);
      }
    }
  }

  class FieldInspectionsController {
    ghost const orders: map<string, Order>
    const idempotency: IdempotencyService
    const store: SyntheticStore

    constructor (ghost orders: map<string, Order>, idempotency: IdempotencyService, store: SyntheticStore)
      ensures this.orders == orders && this.idempotency == idempotency && this.store == store
    {
      this.orders, this.idempotency, this.store := orders, idempotency, store;
    }

    ghost function View(): Api
      reads idempotency, store
    {
      Api(orders, idempotency.records, store.Contents())
    }

    method Create(inspectionId: string, location: string, outcome: InspectionOutcome, submittedBy: string,
                  key: Option<string>, mode: FailureMode, now: Instant)
      returns (answer: Answer)
      modifies idempotency, store
      ensures (View(), answer)
           == Handle(old(View()), Call(CreateInspection(inspectionId, location, outcome, submittedBy), key, mode, now))
      ensures answer.Ok? && !answer.value.replayed ==>
                && key.Some?
                && Made(old(store.Contents()), store.Contents(), orders, CreateInspection(inspectionId, location, outcome, submittedBy),
                        key.value, now, answer.value.value)
    {
      hide IsIdentifier, IsValidKey, Made;
      var request := CreateInspection(inspectionId, location, outcome, submittedBy);
      ghost var before := View();
      ghost var call := Call(request, key, mode, now);
      if Handle(before, call).1.Ok? && !Handle(before, call).1.value.replayed {
        FreshAnswersAreMade(before, call);
      }
      if !MatchesSchema(request) {
        return Err(Before(BadRequest));
      }
      var injected := FailBeforeSideEffect(mode);
      if injected.Some? {
        return Err(Before(injected.value));
      }
      var known := idempotency.Recall("create-field-inspection", key, BodyOf(request));
      if known.Err? {
        return Err(During(known.error));
      }
      if known.value.None? {
        if inspectionId in store.inspections {
          return Err(During(ActionFailed(Conflict)));
        }
        var inspection := Inspection(location, outcome, submittedBy, if outcome.Pass? then Approved else Pending, now);
        store.inspections := store.inspections[inspectionId := inspection];
        RecordCallback(key.value, inspectionId, inspection);
        idempotency.Remember("create-field-inspection", key.value, BodyOf(request), OfInspection(inspectionId, inspection));
        answer := Ok(Response(false, OfInspection(inspectionId, inspection)));
      } else {
        answer := Ok(Response(true, known.value.value));
      }
      if mode.Uncertain? {
        return Err(After);
      }
    }

    method Decide(inspectionId: string, approve: bool, rationale: string, key: Option<string>, mode: FailureMode, now: Instant)
      returns (answer: Answer)
      modifies idempotency, store
      ensures (View(), answer) == Handle(old(View()), Call(DecideInspection(inspectionId, approve, rationale), key, mode, now))
      ensures answer.Ok? && !answer.value.replayed ==>
                && key.Some?
                && Made(old(store.Contents()), store.Contents(), orders, DecideInspection(inspectionId, approve, rationale),
                        key.value, now, answer.value.value)
    {
      hide IsIdentifier, IsValidKey, Made;
      var request := DecideInspection(inspectionId, approve, rationale);
      ghost var before := View();
      ghost var call := Call(request, key, mode, now);
      if Handle(before, call).1.Ok? && !Handle(before, call).1.value.replayed {
        FreshAnswersAreMade(before, call);
      }
      if !MatchesSchema(request) {
        return Err(Before(BadRequest));
      }
      var operation := "decide-field-inspection" + ":" + inspectionId;
      var known := idempotency.Recall(operation, key, BodyOf(request));
      if known.Err? {
        return Err(During(known.error));
      }
      if known.value.Some? {
        return Ok(Response(true, known.value.value));
      }
      if inspectionId !in store.inspections {
        return Err(During(ActionFailed(NotFound)));
      }
      var current := store.inspections[inspectionId];
      if !current.approval.Pending? {
        return Err(During(ActionFailed(Conflict)));
      }
      var updated := current.(approval := if approve then Approved else Rejected);
      store.inspections := store.inspections[inspectionId := updated];
      RecordCallback(key.value, inspectionId, updated);
      idempotency.Remember(operation, key.value, BodyOf(request), OfInspection(inspectionId, updated));
      return Ok(Response(false, OfInspection(inspectionId, updated)));
    }

    method RecordCallback(operationId: string, inspectionId: string, inspection: Inspection)
      modifies store
      ensures store.Contents() == old(store.Contents()).(
                callbacks := old(store.callbacks)[operationId := InspectionCallback(inspectionId, inspection.approval)])
    {
      store.callbacks := store.callbacks[operationId := InspectionCallback(inspectionId, inspection.approval)];
    }
  }
}

/**
 * The tables that availability reports (M2), fault reports (M3), work orders and the
 * equipment service share. A row without deletions is identified by its position, so
 * a later position also means a later `createdAt`; availability events keep an explicit
 * id and `createdAt`, because their order is the subject of the timeline.
 */
module Tables {
  import opened Common

  type TenantId = nat
  type EquipmentId = nat
  type UserId = nat
  type ContractId = nat

  datatype OperationalStatus = Operational | Standby | ReserveNoOperator | DownFailure | DownMaintenance
  datatype FaultCriticality = High | Medium | Low
  datatype FaultStatus = FaultOpen | FaultLinked | FaultClosed
  datatype OtStatus = OtOpen | OtInProgress | OtOnHold | OtClosed
  datatype AvailabilityImpact = Si | No | Stp
  datatype ShiftType = Day | Night
  datatype MeterType = Hours | Kilometers
  datatype MeterSource = ManualEntry | OrderClosure | AvailabilityReport | FaultReading
  datatype EventSource = Manual | Ot | FromFault | LegacySnapshot

  datatype Equipment = Equipment(tenant: TenantId, contract: Option<ContractId>, isOperational: bool,
                                 currentMeter: int, meterType: MeterType)

  datatype Fault = Fault(tenant: TenantId, equipmentId: EquipmentId, contract: ContractId, correlative: string,
                         criticality: FaultCriticality, status: FaultStatus, workOrderId: Option<nat>,
                         meterAtFault: Option<int>)

  datatype WorkOrder = WorkOrder(tenant: TenantId, equipmentId: EquipmentId, impact: Option<AvailabilityImpact>,
                                 status: OtStatus)

  datatype Cell = Cell(tenant: TenantId, equipmentId: EquipmentId, contract: Option<ContractId>, reportedBy: UserId,
                       date: int, shift: ShiftType, status: OperationalStatus, meterReading: Option<int>,
                       comments: Option<string>)

  datatype MeterLog = MeterLog(tenant: TenantId, equipmentId: EquipmentId, oldValue: int, newValue: int,
                               source: MeterSource, sourceId: Option<nat>, userId: UserId)

  datatype Adjustment = Adjustment(equipmentId: EquipmentId, userId: UserId, oldValue: int, newValue: int)

  datatype Event = Event(id: int, tenant: TenantId, equipmentId: EquipmentId, availabilityId: Option<nat>,
                         faultReportId: Option<nat>, reportedBy: Option<UserId>, status: OperationalStatus,
                         previousStatus: Option<OperationalStatus>, meterReading: Option<int>,
                         comments: Option<string>, eventAt: int, source: EventSource,
                         elapsedMinutes: Option<int>, createdAt: int)

  /** The value of all tables: what a transaction reads, and what it leaves when it commits. */
  datatype State = State(equipment: map<EquipmentId, Equipment>, faults: seq<Fault>, orders: seq<WorkOrder>,
                         cells: seq<Cell>, events: seq<Event>, meterLog: seq<MeterLog>,
                         counters: map<(TenantId, string), nat>, adjustments: seq<Adjustment>)

  datatype Blocker =
    | HighFault(sourceId: nat, correlative: string, faultStatus: FaultStatus)
    | AvailabilityWorkOrder(sourceId: nat, orderStatus: OtStatus)

  /** The exceptions of the modelled services. */
  datatype Error =
    | EquipmentNotFound
    | NoContract
    | DuplicateReport
    | ReturnToServiceBlocked(blockers: seq<Blocker>)
    | InvalidEvent(reason: EventError)
    | ReportNotFound
    | ReportNotOpen
    | ReportNotLow
    | OrderNotFound
    | OrderAlreadyClosed
    | MeterBelowCurrent
    | MeterJumpNotConfirmed
    | OtherGuard
    | UniqueConflict
    | NothingToUpdate
    | EmptyRequest
    | TooManyReadings
    | InvalidItem
    | InvalidReading
    | NegativeMeter
    | ReasonRequired

  datatype EventError =
    | FaultReportIdRequired
    | AvailabilityIdNotAllowed
    | FaultReportMismatch
    | AvailabilityIdRequired
    | FaultReportIdNotAllowed
    | SourceNotSupported
    | UniqueViolation

  /** A transaction either commits a new state with its result, or aborts and leaves the state alone. */
  datatype Tx<+R> = Committed(state: State, value: R) | Aborted(error: Error)

  /** The state after a transaction started in `s`. */
  function After<R>(s: State, tx: Tx<R>): State {
    match tx
    case Committed(s', _) => s'
    case Aborted(_) => s
  }

  /** What a service call returns to its caller. */
  datatype Outcome<+R> = Success(value: R) | Failure(error: Error)

  /** A service call that ended in `after` with `out` did what the transaction `tx` does from `before`. */
  predicate Follows<R(==)>(before: State, tx: Tx<R>, after: State, out: Outcome<R>) {
    match tx
    case Committed(s, v) => after == s && out == Success(v)
    case Aborted(e) => after == before && out == Failure(e)
  }

  /** Does the equipment exist in the tenant? */
  predicate Owns(s: State, tenant: TenantId, e: EquipmentId) {
    e in s.equipment && s.equipment[e].tenant == tenant
  }

  /** The database: one field per table, updated in place by the services. */
  class Database {
    var equipment: map<EquipmentId, Equipment>
    var faults: seq<Fault>
    var orders: seq<WorkOrder>
    var cells: seq<Cell>
    var events: seq<Event>
    var meterLog: seq<MeterLog>
    var counters: map<(TenantId, string), nat>
    var adjustments: seq<Adjustment>

    function Snapshot(): State
      reads this
    {
      State(equipment, faults, orders, cells, events, meterLog, counters, adjustments)
    }

    /** Undo every write of the transaction that started in `s`. */
    method Rollback(s: State)
      modifies this
      ensures Snapshot() == s
    {
      equipment, faults, orders := s.equipment, s.faults, s.orders;
      cells, events, meterLog := s.cells, s.events, s.meterLog;
      counters, adjustments := s.counters, s.adjustments;
    }
  }
}

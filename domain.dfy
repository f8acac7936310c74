/** The entities of the capacity matrix: hospitals, the capacity and service
    items that form the matrix columns, the status cell of one
    (hospital, item) pair, and the patient pre-notifications (PVA) of a cell.
    Ids and timestamps are integers (milliseconds); the dashboard derives
    them from the clock, the model receives them from its caller. */
module Domain {

  datatype Option<+T> = None | Some(value: T)

  /** The closed set of cell states (the `STATUS` constants). */
  datatype StatusKind =
    | Free
    | Overloaded
    | Limited
    | Incapacitated
    | NotAvailable
    | FutureOverload
    | Inactive

  /** Identifies a matrix cell; the dashboard writes it `${hospitalId}-${itemId}`,
      which is injective for the non-negative ids it uses. */
  datatype CellKey = CellKey(hospitalId: int, itemId: int)

  /** A planned overload window of a cell. */
  datatype Interval = Interval(start: int, end: int)

  /** One cell of the matrix. `skipAutoFree` and `pvaCount` are absent until
      the first status update and the first PVA save respectively; an absent
      `skipAutoFree` reads as false, an absent `pvaCount` is `None`. */
  datatype Cell = Cell(
    status: StatusKind,
    available: bool,
    lastUpdate: int,
    updatedBy: string,
    comment: string,
    skipAutoFree: bool,
    futureOverloads: seq<Interval>,
    pvaCount: Option<nat>)

  /** What spreading a missing cell (`...undefined`) contributes: every field
      absent, so `available` reads as false and the status is never observed. */
  const Blank: Cell := Cell(NotAvailable, false, 0, "", "", false, [], None)

  datatype Hospital = Hospital(
    id: int,
    name: string,
    alias: string,
    active: bool,
    address: string,
    phone: string,
    email: string,
    contactPerson: string)

  /** A capacity type (category "capacity") or a service group (category "service"). */
  datatype Item = Item(id: int, name: string, description: string, category: string)

  datatype PatientInfo = PatientInfo(name: string, age: string, gender: string, symptoms: string)

  /** `category` is the empty string (`None`) until a triage category is chosen. */
  datatype MedicalInfo = MedicalInfo(diagnosis: string, vitals: string, treatments: string, category: Option<int>)

  /** `arrivalTime` is the arrival instant carried by the generated sample
      notifications, which sort on it; the form never sets it. */
  datatype LogisticsInfo = LogisticsInfo(
    transportMethod: string,
    estimatedArrival: string,
    priority: string,
    specialRequirements: string,
    arrivalTime: int)

  /** A patient pre-notification; `triageCategory` 1 is the most urgent. */
  datatype Pva = Pva(
    id: int,
    triageCategory: int,
    patient: PatientInfo,
    medical: MedicalInfo,
    logistics: LogisticsInfo,
    arrivalTime: int,
    hospital: string,
    capacity: string,
    status: string)

  datatype SystemConfig = SystemConfig(
    autoFreeTimes: seq<string>,
    backupEmail: string,
    refreshInterval: int,
    externalUrl: string,
    enablePushNotifications: bool,
    enableEmailAlerts: bool,
    maxPvaPerDay: int,
    emergencyContacts: seq<string>)

  function HospitalId(h: Hospital): int { h.id }
  function ItemId(i: Item): int { i.id }
  function PvaId(p: Pva): int { p.id }
}

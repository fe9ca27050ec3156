/** The records of the inventory ledger (types.ts).
    Every optional field of the source becomes an Option; every date string becomes a
    Timestamp in milliseconds, so that comparing two dates compares two integers. */
module Types {

  datatype Option<T> = None | Some(value: T)

  /** Milliseconds since the epoch. */
  type Timestamp = int

  const DayMs: int := 86_400_000

  datatype FabricCategory = Woven | NonWoven

  /** A usage request's approval state: exactly three values. */
  datatype UsageStatus = Pending | Confirmed | Rejected

  /** The three kinds of notification. */
  datatype NotificationType = LowStock | PendingApproval | ShipmentReminder

  datatype Submitter = User | Admin

  /** One bag line of a usage request; a quantity the user left empty (or that is
      not a number) is None. */
  datatype Bag = Bag(size: string, quantity: Option<real>)

  datatype Purchase = Purchase(id: string, date: Timestamp, quantity: real, invoiceNumber: Option<string>)

  /** A usage request. The five deletion-audit fields are optional; a usage whose
      isDeleted is absent (or false) is not deleted. */
  datatype Usage = Usage(
    id: string,
    date: Timestamp,
    submittedBy: Submitter,
    clientName: string,
    poNumber: string,
    machineNameAndCapacity: string,
    drawingNumber: string,
    orderNumber: string,
    shipmentDate: Timestamp,
    orderReceivedDate: Timestamp,
    bags: seq<Bag>,
    fabricConsumptionPerPiece: real,
    totalFabricUsed: real,
    status: UsageStatus,
    actionBy: Option<string>,
    actionDate: Option<Timestamp>,
    isDeleted: Option<bool>,
    deletedBy: Option<string>,
    deletedAt: Option<Timestamp>,
    originalStatusBeforeDelete: Option<UsageStatus>,
    deletionReason: Option<string>)
  {
    /** The source's truthiness test `tx.isDeleted`. */
    predicate Deleted() {
      isDeleted == Some(true)
    }

    /** None of the five deletion-audit fields is present. */
    predicate HasNoDeletionFields() {
      isDeleted.None? && deletedBy.None? && deletedAt.None?
      && originalStatusBeforeDelete.None? && deletionReason.None?
    }
  }

  /** A transaction is exactly one of a purchase or a usage; the constructor is the
      source's `type` tag. */
  datatype Transaction = PurchaseTx(purchase: Purchase) | UsageTx(usage: Usage)
  {
    /** The source's test `t.id === id && t.type === TransactionType.USAGE`. */
    predicate IsUsageWithId(id: string) {
      UsageTx? && usage.id == id
    }
  }

  datatype Fabric = Fabric(
    id: string,
    code: string,
    name: string,
    category: FabricCategory,
    initialStock: real,
    transactions: seq<Transaction>,
    isDeleted: Option<bool>)
  {
    predicate Deleted() {
      isDeleted == Some(true)
    }
  }

  /** The facts a notification's message is rendered from; the rendering of the text
      itself (number formatting, locale dates) is not modelled. */
  datatype Message =
    | LowStockMessage(code: string, stock: real)
    | PendingMessage(code: string, clientName: string)
    | ShipmentMessage(orderNumber: string, code: string, shipmentDate: Timestamp)

  /** A notification always names its fabric; the transaction is optional. */
  datatype Notification = Notification(
    id: string,
    kind: NotificationType,
    message: Message,
    isRead: bool,
    createdAt: Timestamp,
    relatedFabricId: string,
    relatedTransactionId: Option<string>)

  /** The ids of a list of notifications, as a set. */
  function Ids(ns: seq<Notification>): set<string> {
    set n | n in ns :: n.id
  }

  /** No id occurs twice. */
  predicate UniqueIds(ns: seq<Notification>) {
    forall i, j :: 0 <= i < j < |ns| ==> ns[i].id != ns[j].id
  }
}

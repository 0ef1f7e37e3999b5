/** The notification record: who it is for, its text and kind, the entity it
    points at (both parts nullable), its read flag and its creation time. */
module NotificationModel {
  import opened Wrappers

  /** The read flag of a freshly stored notification. */
  const DEFAULT_IS_READ := false

  /** `userId`, `message` and `notificationType` are required columns, so
      they carry no null; `entityId` and `entityType` may be null. */
  datatype Notification = Notification(
    id: int,
    userId: int,
    message: string,
    notificationType: string,
    entityId: Option<int>,
    entityType: Option<string>,
    isRead: bool,
    createdAt: int)

  /** The row `Notification.create` stores from the given columns: the
      read flag takes its default. */
  function NewNotification(id: int, userId: int, message: string, notificationType: string,
                           entityId: Option<int>, entityType: Option<string>, now: int): (n: Notification)
    ensures !n.isRead
    ensures n.id == id && n.userId == userId && n.message == message && n.createdAt == now
    ensures n.notificationType == notificationType && n.entityId == entityId && n.entityType == entityType
  {
    Notification(id, userId, message, notificationType, entityId, entityType, DEFAULT_IS_READ, now)
  }

  function CreatedAt(n: Notification): int {
    n.createdAt
  }
}

/** The stored rows. A row's id is its index in its table, except for watches, which are deleted and so are keyed. */
module Entities {
  import opened Wrappers

  datatype Status = ACTIVE | SUSPENDED | CANCELLED

  datatype Reservation = Reservation(
    user: int, gpu: nat, start: int, end: int, ram: int, description: string,
    status: Status, cancelledAt: Option<int>)

  datatype Server = Server(name: string, isActive: bool, deletedAt: Option<int>)

  datatype Gpu = Gpu(
    server: nat, index: int, model: string, totalRam: int, isActive: bool, deletedAt: Option<int>)

  datatype Watch = Watch(
    user: int, gpu: nat, rangeStart: int, rangeEnd: int, minRam: int, description: string,
    autoBook: bool, isActive: bool, createdAt: int, notifiedAt: Option<int>)

  /** The lab's booking limits. The delay is nullable on databases older than the column. */
  datatype Regulation = Regulation(
    maxRamGb: int, maxDurationHours: int, horizonDays: int, slotMinutes: int,
    maxActivePerUser: int, delayMinutes: Option<int>)

  const DEFAULT_REACTIVATION_DELAY_MINUTES: int := 60

  function ReactivationDelay(reg: Regulation): int {
    if reg.delayMinutes.Some? then reg.delayMinutes.value else DEFAULT_REACTIVATION_DELAY_MINUTES
  }
}

/** The record shapes shared by the dashboard. NetworkDevice, Building and
    Alert follow src/lib/types.ts. Role and User are rebuilt from how the auth
    service constructs and compares them. */
module Types {

  datatype Option<+T> = None | Some(value: T)

  /** Milliseconds since the epoch: what `Date.getTime()` returns for the
      ISO strings the services store (toISOString keeps millisecond precision). */
  type Timestamp = int

  /** Device, building and alert health. */
  datatype Status = Healthy | Warning | Critical

  function StatusName(s: Status): string {
    match s
    case Healthy => "healthy"
    case Warning => "warning"
    case Critical => "critical"
  }

  datatype DeviceType = Router | Switch | AccessPoint | Server

  datatype NetworkDevice = NetworkDevice(
    id: string,
    name: string,
    kind: DeviceType,
    location: string,
    status: Status,
    ipAddress: string,
    lastUpdated: Timestamp,
    responseTime: int)

  datatype Building = Building(
    id: string,
    name: string,
    x: int,
    y: int,
    devices: seq<string>,
    status: Status)

  datatype Alert = Alert(
    id: string,
    deviceId: string,
    deviceName: string,
    message: string,
    timestamp: Timestamp,
    severity: Status,
    resolved: bool)

  /** The closed role hierarchy: admin > staff > student. */
  datatype Role = Student | Staff | Admin

  datatype User = User(id: string, name: string, email: string, role: Role, createdAt: Timestamp)
}

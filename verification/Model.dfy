/** The records shared by the control plane and the data planes. */
module Model {

  datatype Option<+T> = None | Some(value: T)

  datatype Result<+T, +E> = Ok(value: T) | Err(error: E)

  datatype Protocol = Tcp | Udp | Both

  newtype Byte = b: int | 0 <= b < 256

  newtype Port = p: int | 0 <= p < 65536

  /** An address as the octets a register or a set element carries. */
  datatype IpAddr = V4(octets: seq<Byte>) | V6(octets: seq<Byte>) {
    ghost predicate WellFormed() {
      |octets| == if V4? then 4 else 16
    }
  }

  datatype Allocation = Allocation(
    id: string,
    protocol: Protocol,
    port: Port,
    targetPort: Option<Port>,
    host: Option<string>,
    createdAtMs: int,
    updatedAtMs: int)

  datatype Binding = Binding(
    allocationId: string,
    targetPort: Port,
    host: Option<string>,
    createdAtMs: int,
    updatedAtMs: int)

  datatype RuntimeStatus =
    | Active
    | RejectingNoHost
    | DegradedBindFailed
    | DegradedApplyFailed
    | DegradedCloseFailed

  datatype ErrorKind = BindFailed | ApplyFailed | CloseFailed | RestoreFailed | InvalidInput

  datatype RuntimeError =
    | RuntimeCreateFailed
    | RuntimeUpdateFailed
    | RuntimeDeleteFailed
    | RuntimeRestoreFailed
    | RuntimeApplyFailed
    | RuntimeTimeout

  datatype ObservedState = ObservedState(
    effectiveTargetPort: Option<Port>,
    effectiveHost: Option<string>,
    runtimeStatus: RuntimeStatus,
    errorKind: Option<ErrorKind>,
    lastError: Option<string>)

  /** The concrete transport protocols an allocation occupies; Both covers two. */
  predicate Covers(requested: Protocol, concrete: Protocol) {
    requested == concrete || requested == Both
  }
}

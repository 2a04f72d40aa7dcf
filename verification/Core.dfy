// Vocabulary shared by the whole model: optional values, error codes, attribute paths.

module Core {

  datatype Option<+T> = None | Some(value: T)

  // The CHIP_ERROR values that the modelled code distinguishes.
  datatype ChipError =
    | NoError
    | NoMemory
    | BufferTooSmall
    | IncorrectState
    | InvalidArgument
    | InvalidFabricIndex
    | InvalidTlvElement
    | InvalidTlvTag
    | InvalidMessageType
    | AccessDenied
    | NotImplemented
    | Sentinel
    | Timeout
    | OtherError(code: nat)

  // The reporting engine treats exactly these two errors as "the packet is full".
  predicate IsOutOfWriterSpace(err: ChipError) {
    err == NoMemory || err == BufferTooSmall
  }

  const UINT8_MAX := 0xFF
  const UINT16_MAX := 0xFFFF
  const INVALID_ENDPOINT_ID := 0xFFFF
  const INVALID_CLUSTER_ID := 0xFFFF_FFFF
  const INVALID_ATTRIBUTE_ID := 0xFFFF_FFFF
  const INVALID_LIST_INDEX := 0xFFFF

  datatype ClusterPath = ClusterPath(endpoint: nat, cluster: nat) {
    predicate IsValid() {
      endpoint != INVALID_ENDPOINT_ID && cluster != INVALID_CLUSTER_ID
    }
  }

  datatype AttributePath = AttributePath(endpoint: nat, cluster: nat, attribute: nat) {
    function Cluster(): ClusterPath {
      ClusterPath(endpoint, cluster)
    }
  }

  datatype CommandPath = CommandPath(endpoint: nat, cluster: nat, command: nat)

  datatype ListOp = NotList | ReplaceAll | ReplaceItem | DeleteItem | AppendItem {
    predicate IsListOperation() {
      !NotList?
    }
    predicate IsListItemOperation() {
      !NotList? && !ReplaceAll?
    }
  }

  // A ConcreteDataAttributePath: an attribute path as reports and writes carry it.
  datatype DataPath = DataPath(path: AttributePath, op: ListOp, version: Option<nat>)

  // A StatusIB: the interaction model status (0 is success) and an optional cluster status.
  datatype StatusIB = StatusIB(status: nat, clusterStatus: Option<nat>) {
    predicate IsSuccess() {
      status == 0
    }
  }

  const SUCCESS := StatusIB(0, None)
  // What a StatusIB built from a CHIP_ERROR that is not an interaction model status holds.
  const FAILURE := StatusIB(1, None)

  predicate Distinct<T(==)>(xs: seq<T>) {
    forall i, j :: 0 <= i < j < |xs| ==> xs[i] != xs[j]
  }

  // The successor of a uint16_t.
  function Next16(i: nat): nat {
    (i + 1) % 0x1_0000
  }

  function Min(a: int, b: int): int {
    if a <= b then a else b
  }
}

// The records of the bridge protocol: exports, pushed HA states and queued commands.
module Model {
  import opened Wrappers

  // A 128-bit export id; numeric order is the byte order used by the catalog map.
  type Uuid = nat

  type Byte = x: int | 0 <= x <= 0xFF
  type U16 = x: int | 0 <= x <= 0xFFFF
  type U32 = x: int | 0 <= x <= 0xFFFF_FFFF

  const U16_MAX: U16 := 0xFFFF

  datatype DeviceType = Light | OnOffSwitch | OnOffPlug | Outlet | Contact | Motion | Cover | Garage

  // Names are UTF-8 bytes, because every length limit on them counts bytes.
  datatype Export = Export(
    exportId: Uuid,
    name: seq<Byte>,
    type_: DeviceType,
    primaryEntityId: string,
    linked: map<string, string>,
    areaId: Option<string>,
    enabled: bool,
    endpointId: Option<U16>)

  // The catalog in memory: a BTreeMap keyed by export id.
  type Exports = map<Uuid, Export>

  // The `current_position` attribute as JSON delivers it.
  datatype JsonPosition =
    | Absent
    | Unsigned(n: nat)
    | Number(r: real)
    | Text(parsed: Option<nat>)
    | Other

  datatype HaStateValue = HaStateValue(entityId: string, state: string, currentPosition: JsonPosition)

  datatype CommandKind = OnOffCommand | LevelCommand | CoverPosition | CoverOpen | CoverClose | CoverStop

  datatype CommandRequest = CommandRequest(
    exportId: Uuid,
    kind: CommandKind,
    on: Option<bool>,
    level: Option<int>,
    position: Option<int>)

  predicate DistinctIds(exports: seq<Export>) {
    forall i, j :: 0 <= i < j < |exports| ==> exports[i].exportId != exports[j].exportId
  }

  function Min(a: int, b: int): int { if a <= b then a else b }

  function Max(a: int, b: int): int { if a <= b then b else a }
}

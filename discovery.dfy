/**
 * Resolving the write handle from the peer's GATT table after service
 * discovery: the service and the characteristic UUIDs are each tried in two
 * byte orders.
 */
module Discovery {
  import opened Wrappers
  import opened Protocol

  type Uuid = seq<byte>

  /** A GATT attribute handle (uint16_t). */
  type Handle = x: int | 0 <= x < 0x1_0000

  /** The characteristics of one service, by UUID. */
  type Characteristics = map<Uuid, Handle>

  /** The services the transport found on the peer, by UUID. */
  type ServiceTable = map<Uuid, Characteristics>

  const SERVICE_BE: Uuid :=
    [0x69, 0x40, 0x00, 0x01, 0xB5, 0xA3, 0xF3, 0x93, 0xE0, 0xA9, 0xE5, 0x0E, 0x24, 0xDC, 0xCA, 0x99]
  const SERVICE_LE: Uuid :=
    [0x99, 0xCA, 0xDC, 0x24, 0x0E, 0xE5, 0xA9, 0xE0, 0x93, 0xF3, 0xA3, 0xB5, 0x01, 0x00, 0x40, 0x69]
  const CHARACTERISTIC_BE: Uuid :=
    [0x69, 0x40, 0x00, 0x02, 0xB5, 0xA3, 0xF3, 0x93, 0xE0, 0xA9, 0xE5, 0x0E, 0x24, 0xDC, 0xCA, 0x99]
  const CHARACTERISTIC_LE: Uuid :=
    [0x99, 0xCA, 0xDC, 0x24, 0x0E, 0xE5, 0xA9, 0xE0, 0x93, 0xF3, 0xA3, 0xB5, 0x02, 0x00, 0x40, 0x69]

  /** `t` is `s` with its bytes in the opposite order. */
  predicate IsReversal(s: Uuid, t: Uuid) {
    |s| == |t| && forall i :: 0 <= i < |s| ==> t[i] == s[|s| - 1 - i]
  }

  /** The little-endian constants are the big-endian ones byte-reversed, and the four are distinct. */
  lemma ByteOrders()
    ensures IsReversal(SERVICE_BE, SERVICE_LE)
    ensures IsReversal(CHARACTERISTIC_BE, CHARACTERISTIC_LE)
    ensures SERVICE_BE != SERVICE_LE && CHARACTERISTIC_BE != CHARACTERISTIC_LE
    ensures SERVICE_BE != CHARACTERISTIC_BE && SERVICE_LE != CHARACTERISTIC_LE
  {
  }

  /** Index of the first candidate key present in `m`. */
  function FirstPresent<V>(m: map<Uuid, V>, keys: seq<Uuid>): (r: Option<nat>)
    ensures r.None? <==> forall i :: 0 <= i < |keys| ==> keys[i] !in m
    ensures r.Some? ==> r.value < |keys| && keys[r.value] in m
    ensures r.Some? ==> forall j :: 0 <= j < r.value ==> keys[j] !in m
  {
    if keys == [] then None
    else if keys[0] in m then Some(0)
    else match FirstPresent(m, keys[1..])
      case None => None
      case Some(i) => Some(i + 1)
  }

  const SERVICE_ORDER: seq<Uuid> := [SERVICE_BE, SERVICE_LE]

  /** The characteristic orders: the one matching the service's byte order first. */
  function CharacteristicOrder(serviceIsBE: bool): seq<Uuid> {
    if serviceIsBE then [CHARACTERISTIC_BE, CHARACTERISTIC_LE]
    else [CHARACTERISTIC_LE, CHARACTERISTIC_BE]
  }

  /** The characteristic UUID in the same byte order as a service UUID. */
  function MatchingCharacteristic(service: Uuid): Uuid {
    if service == SERVICE_BE then CHARACTERISTIC_BE else CHARACTERISTIC_LE
  }

  function OtherCharacteristic(service: Uuid): Uuid {
    if service == SERVICE_BE then CHARACTERISTIC_LE else CHARACTERISTIC_BE
  }

  datatype Lookup =
    | NoService
    | NoCharacteristic(service: Uuid)
    | Found(service: Uuid, characteristic: Uuid, handle: Handle)

  /** Where the write characteristic sits in a service table, if anywhere. */
  function LookupWriteHandle(table: ServiceTable): (r: Lookup)
    ensures r.NoService? <==> SERVICE_BE !in table && SERVICE_LE !in table
    ensures !r.NoService? ==> r.service in table
    ensures !r.NoService? ==> (r.service == SERVICE_BE <==> SERVICE_BE in table)
    ensures !r.NoService? ==> r.service == SERVICE_BE || r.service == SERVICE_LE
    ensures r.NoCharacteristic? ==>
      CHARACTERISTIC_BE !in table[r.service] && CHARACTERISTIC_LE !in table[r.service]
    ensures r.Found? ==>
      && r.characteristic in table[r.service]
      && r.handle == table[r.service][r.characteristic]
      && (r.characteristic == MatchingCharacteristic(r.service)
          <==> MatchingCharacteristic(r.service) in table[r.service])
      && (r.characteristic == MatchingCharacteristic(r.service)
          || r.characteristic == OtherCharacteristic(r.service))
  {
    assert SERVICE_ORDER[0] == SERVICE_BE && SERVICE_ORDER[1] == SERVICE_LE;
    match FirstPresent(table, SERVICE_ORDER)
    case None => NoService
    case Some(s) =>
      var service := SERVICE_ORDER[s];
      var order := CharacteristicOrder(s == 0);
      assert order[0] == MatchingCharacteristic(service) && order[1] == OtherCharacteristic(service);
      match FirstPresent(table[service], order)
      case None => NoCharacteristic(service)
      case Some(c) => Found(service, order[c], table[service][order[c]])
  }

  /** A peer that reports only little-endian UUIDs yields the same handle as one reporting big-endian UUIDs. */
  lemma LittleEndianOnlySameHandle(h: Handle)
    ensures LookupWriteHandle(map[SERVICE_LE := map[CHARACTERISTIC_LE := h]]).Found?
    ensures LookupWriteHandle(map[SERVICE_LE := map[CHARACTERISTIC_LE := h]]).handle == h
    ensures LookupWriteHandle(map[SERVICE_BE := map[CHARACTERISTIC_BE := h]]).Found?
    ensures LookupWriteHandle(map[SERVICE_BE := map[CHARACTERISTIC_BE := h]]).handle == h
  {
  }

  /** The two identities fall back independently: a big-endian service with a little-endian characteristic is found. */
  lemma MixedOrderFound(chars: Characteristics)
    requires CHARACTERISTIC_LE in chars && CHARACTERISTIC_BE !in chars
    ensures LookupWriteHandle(map[SERVICE_BE := chars])
            == Found(SERVICE_BE, CHARACTERISTIC_LE, chars[CHARACTERISTIC_LE])
  {
  }
}

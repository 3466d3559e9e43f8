/**
 * What the BLE service publishes: the advertisement and the GATT application with
 * its two services, and how a GATT server answers reads and writes against it.
 */
module BleGatt {
  import opened Basics

  /**
   * Bluetooth UUIDs. The four qaul identifiers are distinct constants; `Nil` is the
   * all-zero UUID that `unwrap_or_default()` yields; every other UUID is `Other`.
   */
  datatype Uuid = Nil | MainService | MsgService | ReadChar | MsgChar | Other(bits: nat)

  /** The advertisement fields this code sets; every other field keeps its default. */
  datatype Advertisement = Advertisement(
    serviceUuids: set<Uuid>,
    txPower: Option<i16>,
    discoverable: Option<bool>,
    localName: Option<string>)

  const LocalName: string := "qaul.net"

  /** Read side of a characteristic: its flag, and the bytes its read callback answers with. */
  datatype CharacteristicRead = CharacteristicRead(read: bool, answer: Bytes)

  datatype WriteMethod = Io

  datatype CharacteristicWrite = CharacteristicWrite(write: bool, writeWithoutResponse: bool, writeMethod: WriteMethod)

  datatype Characteristic = Characteristic(
    uuid: Uuid,
    read: Option<CharacteristicRead>,
    write: Option<CharacteristicWrite>)

  datatype Service = Service(uuid: Uuid, primary: bool, characteristics: seq<Characteristic>)

  datatype Application = Application(services: seq<Service>)

  /** A remote read request; the read callback ignores all of it. */
  datatype ReadRequest = ReadRequest(offset: nat, mtu: nat)

  /** The advertisement built at the start of `advertise_scan_listen`. */
  function BuildAdvertisement(advertMode: Option<i16>): (adv: Advertisement)
    ensures adv.serviceUuids == {MainService}
    ensures MsgService !in adv.serviceUuids
    ensures adv.txPower == advertMode
    ensures adv.discoverable == Some(true)
    ensures adv.localName == Some(LocalName)
  {
    Advertisement({MainService}, advertMode, Some(true), Some(LocalName))
  }

  /** The read callback of the identity characteristic: a copy of the captured bytes. */
  function AnswerRead(r: CharacteristicRead, req: ReadRequest): Bytes {
    r.answer
  }

  /** The main service: one readable characteristic answering with `qaulId`. */
  function MainGattService(qaulId: Bytes): Service {
    Service(MainService, true, [Characteristic(ReadChar, Some(CharacteristicRead(true, qaulId)), None)])
  }

  /** The message service: one characteristic taking writes with and without response. */
  function MsgGattService(): Service {
    Service(MsgService, true, [Characteristic(MsgChar, None, Some(CharacteristicWrite(true, true, Io)))])
  }

  /** The application served by `advertise_scan_listen`. */
  function BuildApplication(qaulId: Bytes): Application {
    Application([MainGattService(qaulId), MsgGattService()])
  }

  /** The first service of `services` with identifier `u`. */
  function FindService(services: seq<Service>, u: Uuid): (r: Option<Service>)
    ensures r.Some? ==> r.value in services && r.value.uuid == u
    ensures r.None? <==> forall i :: 0 <= i < |services| ==> services[i].uuid != u
    ensures r.Some? ==> exists i :: 0 <= i < |services| && services[i] == r.value
                          && forall j :: 0 <= j < i ==> services[j].uuid != u
  {
    if services == [] then None
    else if services[0].uuid == u then Some(services[0])
    else
      var r := FindService(services[1..], u);
      assert r.Some? ==> services[1..][0] == services[1];
      r
  }

  /** The first characteristic of `chars` with identifier `u`. */
  function FindCharacteristic(chars: seq<Characteristic>, u: Uuid): (r: Option<Characteristic>)
    ensures r.Some? ==> r.value in chars && r.value.uuid == u
    ensures r.None? <==> forall i :: 0 <= i < |chars| ==> chars[i].uuid != u
  {
    if chars == [] then None
    else if chars[0].uuid == u then Some(chars[0])
    else FindCharacteristic(chars[1..], u)
  }

  /**
   * How a GATT server running `app` answers a read of characteristic `c` in service
   * `s`: `None` when there is no such readable characteristic.
   */
  function ServeRead(app: Application, s: Uuid, c: Uuid, req: ReadRequest): Option<Bytes> {
    match FindService(app.services, s)
    case None => None
    case Some(svc) =>
      match FindCharacteristic(svc.characteristics, c)
      case None => None
      case Some(ch) =>
        if ch.read.Some? && ch.read.value.read then Some(AnswerRead(ch.read.value, req)) else None
  }

  /** Does `app` accept a write (with or without response) to characteristic `c` of service `s`? */
  predicate AcceptsWrite(app: Application, s: Uuid, c: Uuid, withoutResponse: bool) {
    match FindService(app.services, s)
    case None => false
    case Some(svc) =>
      match FindCharacteristic(svc.characteristics, c)
      case None => false
      case Some(ch) =>
        ch.write.Some? && (if withoutResponse then ch.write.value.writeWithoutResponse else ch.write.value.write)
  }

  /**
   * The application declares exactly two primary services, main then message,
   * each with exactly one characteristic.
   */
  lemma ApplicationShape(qaulId: Bytes)
    ensures var app := BuildApplication(qaulId);
      && |app.services| == 2
      && (forall i :: 0 <= i < 2 ==> app.services[i].primary && |app.services[i].characteristics| == 1)
      && app.services[0].uuid == MainService && app.services[0].characteristics[0].uuid == ReadChar
      && app.services[1].uuid == MsgService && app.services[1].characteristics[0].uuid == MsgChar
  {
  }

  /**
   * Every read of the identity characteristic answers with `qaulId`, whatever the
   * request; the message characteristic cannot be read, and takes writes both with
   * and without response; the identity characteristic takes no writes.
   */
  lemma ApplicationServesIdentity(qaulId: Bytes, req: ReadRequest)
    ensures ServeRead(BuildApplication(qaulId), MainService, ReadChar, req) == Some(qaulId)
    ensures ServeRead(BuildApplication(qaulId), MsgService, MsgChar, req) == None
    ensures AcceptsWrite(BuildApplication(qaulId), MsgService, MsgChar, true)
    ensures AcceptsWrite(BuildApplication(qaulId), MsgService, MsgChar, false)
    ensures !AcceptsWrite(BuildApplication(qaulId), MainService, ReadChar, true)
    ensures !AcceptsWrite(BuildApplication(qaulId), MainService, ReadChar, false)
  {
    var app := BuildApplication(qaulId);
    assert FindService(app.services, MainService) == Some(MainGattService(qaulId));
    assert FindService(app.services, MsgService) == Some(MsgGattService());
  }
}

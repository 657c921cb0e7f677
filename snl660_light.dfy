/**
 * The SNL660 light output: the cached write handle with its readiness flag,
 * the change filter's memory, the GATT event handler that maintains the
 * first, and the light-state update that consults and maintains the second.
 */
module Snl660 {
  import opened Protocol
  import opened Discovery
  import opened ChangeFilter
  import opened Transport

  /** The GATT client events; every other event is ignored by the handler. */
  datatype GattcEvent = DisconnectEvt | CloseEvt | SearchCmplEvt | OtherEvt

  class Snl660Light {
    var client: BleClient?
    var writeHandle: Handle
    var handlesReady: bool
    var lastOn: bool
    var lastBri: int
    var lastTemp: int

    /**
     * The handle is only ever marked ready with a non-zero value, and the
     * remembered levels are unset or within the protocol's ranges.
     */
    ghost predicate Valid()
      reads this
    {
      && (handlesReady ==> writeHandle != 0)
      && InRange(Memory())
    }

    /** The change filter's memory. */
    function Memory(): Applied
      reads this
    {
      Applied(lastOn, lastBri, lastTemp)
    }

    /** The gate of `write_packet_`: a connected client and a usable handle. */
    predicate CanWrite()
      reads this, client
    {
      client != null && client.connected && handlesReady && writeHandle != 0
    }

    /** The gate of `write_state`: a connected client and a ready handle. */
    predicate CanUpdate()
      reads this, client
    {
      client != null && client.connected && handlesReady
    }

    /** No client, no handle, nothing applied yet. */
    constructor ()
      ensures Valid()
      ensures client == null && writeHandle == 0 && !handlesReady
      ensures Memory() == UNKNOWN
    {
      client := null;
      writeHandle := 0;
      handlesReady := false;
      lastOn := false;
      lastBri := UNSET;
      lastTemp := UNSET;
    }

    method SetBleClient(c: BleClient?)
      requires Valid()
      modifies this
      ensures Valid()
      ensures client == c
      ensures writeHandle == old(writeHandle) && handlesReady == old(handlesReady)
      ensures Memory() == old(Memory())
    {
      client := c;
    }

    /**
     * `gattc_event_handler`: a disconnect or close drops the handle and the
     * filter's memory; a completed service search caches the handle found, if
     * any. Without a client nothing happens.
     */
    method GattcEventHandler(event: GattcEvent)
      requires Valid()
      modifies this
      ensures Valid()
      ensures client == old(client)
      ensures old(client) == null || event.OtherEvt? ==> unchanged(this)
      ensures client != null && (event.DisconnectEvt? || event.CloseEvt?) ==>
        writeHandle == 0 && !handlesReady && Memory() == UNKNOWN
      ensures client != null && event.SearchCmplEvt? ==>
        && Memory() == old(Memory())
        && match LookupWriteHandle(client.services)
           case Found(_, _, h) => writeHandle == h && handlesReady == (h != 0)
           case _ => writeHandle == old(writeHandle) && handlesReady == old(handlesReady)
    {
      if client == null {
        return;
      }

      if event == DisconnectEvt || event == CloseEvt {
        handlesReady := false;
        writeHandle := 0;
        lastOn := false;
        lastBri := UNSET;
        lastTemp := UNSET;
        return;
      }

      if event == SearchCmplEvt {
        var services := client.services;
        ByteOrders();
        var service := SERVICE_BE;
        var useBE := true;
        if service !in services {
          service := SERVICE_LE;
          useBE := false;
        }
        if service !in services {
          return;
        }

        var chars := services[service];
        var characteristic := if useBE then CHARACTERISTIC_BE else CHARACTERISTIC_LE;
        if characteristic !in chars {
          characteristic := if useBE then CHARACTERISTIC_LE else CHARACTERISTIC_BE;
        }
        if characteristic !in chars {
          return;
        }

        writeHandle := chars[characteristic];
        handlesReady := writeHandle != 0;
      }
    }

    /**
     * `write_packet_`: when the link and the handle allow it, build the frame
     * for (prefix, value) and hand it to the stack; report the stack's status.
     */
    method WritePacket(prefix: byte, value: byte) returns (ok: bool)
      modifies client
      ensures ok ==> old(CanWrite())
      ensures client != null ==>
        client.connected == old(client.connected) && client.services == old(client.services)
      ensures old(CanWrite()) ==>
        client.written == old(client.written) + [Write(writeHandle, Encode(Command(prefix, value)))]
      ensures !old(CanWrite()) && client != null ==> client.written == old(client.written)
    {
      if client == null || !client.connected {
        return false;
      }
      if !handlesReady || writeHandle == 0 {
        return false;
      }

      var pkt := new byte[PACKET_LENGTH];
      pkt[0] := HEADER;
      pkt[1] := prefix;
      pkt[2] := MARKER;
      pkt[3] := value;
      pkt[4] := Checksum(pkt[0], pkt[1], pkt[2], pkt[3]);

      assert pkt[..] == Encode(Command(prefix, value));
      ok := client.WriteCharNoRsp(writeHandle, pkt[..]);
    }

    /**
     * `write_state` on the rounded brightness percentage and colour-temperature
     * code: when the link is up and the handle ready, write the frames the
     * change filter selects and remember the new state, whatever the writes
     * returned; otherwise do nothing.
     */
    method WriteState(on: bool, brightness: int, temperature: int)
      requires Valid()
      modifies this, client
      ensures Valid()
      ensures client == old(client) && writeHandle == old(writeHandle)
      ensures handlesReady == old(handlesReady)
      ensures client != null ==>
        client.connected == old(client.connected) && client.services == old(client.services)
      ensures !old(CanUpdate()) ==>
        Memory() == old(Memory()) && (client != null ==> client.written == old(client.written))
      ensures old(CanUpdate()) ==>
        var o := Update(old(Memory()), on, brightness, temperature);
        Memory() == o.next && client.written == old(client.written) + Frames(writeHandle, o.commands)
    {
      if client == null || !client.connected {
        return;
      }
      if !handlesReady {
        return;
      }

      ghost var before := Memory();
      ghost var emitted: seq<Command> := [];

      var bri := BrightnessCode(brightness);
      var tempVal := TemperatureCode(temperature);

      if on != lastOn {
        var _ := WritePacket(POWER_PREFIX, PowerValue(on));
        emitted := emitted + [Command(POWER_PREFIX, PowerValue(on))];
        lastOn := on;
      }

      if !on {
        assert emitted == Update(before, on, brightness, temperature).commands;
        return;
      }

      if bri != lastBri {
        var _ := WritePacket(BRIGHTNESS_PREFIX, bri);
        emitted := emitted + [Command(BRIGHTNESS_PREFIX, bri)];
        lastBri := bri;
      }

      if tempVal != lastTemp {
        var _ := WritePacket(TEMPERATURE_PREFIX, tempVal);
        emitted := emitted + [Command(TEMPERATURE_PREFIX, tempVal)];
        lastTemp := tempVal;
      }
      assert emitted == Update(before, on, brightness, temperature).commands;
    }
  }

  /** The writes that carry a list of commands to one handle. */
  function Frames(h: Handle, cmds: seq<Command>): (r: seq<Write>)
    ensures |r| == |cmds|
    ensures forall i :: 0 <= i < |cmds| ==> r[i] == Write(h, Encode(cmds[i]))
  {
    if cmds == [] then [] else [Write(h, Encode(cmds[0]))] + Frames(h, cmds[1..])
  }

  /** The frames of the first update to on/73%/code 40 after a (re)discovery that found handle `h`. */
  lemma FirstApplyFrames(h: Handle)
    ensures Frames(h, Update(UNKNOWN, true, 73, 40).commands) == [
      Write(h, [0x78, 0x81, 0x01, 0x01, 0xFB]),
      Write(h, [0x78, 0x82, 0x01, 0x49, 0x44]),
      Write(h, [0x78, 0x83, 0x01, 0x28, 0x24])]
  {
  }

  /**
   * Service discovery on a link whose peer reports only the little-endian
   * UUIDs, followed by the same update to on/73%/code 40 applied twice.
   */
  method DiscoverAndApplyTwice(light: Snl660Light, client: BleClient, h: Handle)
    requires light.Valid() && light.client == client && light.Memory() == UNKNOWN
    requires client.connected && client.services == map[SERVICE_LE := map[CHARACTERISTIC_LE := h]]
    requires h != 0
    modifies light, client
    ensures light.Valid() && light.client == client && light.CanUpdate()
    ensures client.services == old(client.services)
    ensures client.written == old(client.written) + Frames(h, Update(UNKNOWN, true, 73, 40).commands)
  {
    LittleEndianOnlySameHandle(h);
    light.GattcEventHandler(SearchCmplEvt);
    assert light.writeHandle == h && light.CanUpdate();
    light.WriteState(true, 73, 40);
    Idempotent(UNKNOWN, true, 73, 40);
    light.WriteState(true, 73, 40);
  }

  /**
   * A client of the driver: before a client is set and before discovery,
   * updates write nothing; discovery, then the same update twice (written
   * once); the link drops and an update while disconnected writes nothing;
   * after reconnect and rediscovery the same update writes all three frames
   * again.
   */
  method ReconnectScenario(h: Handle) returns (log: seq<Write>)
    requires h != 0
    ensures |log| == 6 && log[3..] == log[..3]
    ensures log[..3] == [
      Write(h, [0x78, 0x81, 0x01, 0x01, 0xFB]),
      Write(h, [0x78, 0x82, 0x01, 0x49, 0x44]),
      Write(h, [0x78, 0x83, 0x01, 0x28, 0x24])]
  {
    ghost var first := Frames(h, Update(UNKNOWN, true, 73, 40).commands);
    FirstApplyFrames(h);

    var client := new BleClient(true, map[SERVICE_LE := map[CHARACTERISTIC_LE := h]]);
    var light := new Snl660Light();
    light.GattcEventHandler(SearchCmplEvt);
    light.WriteState(true, 73, 40);
    light.SetBleClient(client);
    light.WriteState(true, 73, 40);
    assert client.written == [];

    DiscoverAndApplyTwice(light, client, h);
    assert client.written == first;

    light.GattcEventHandler(DisconnectEvt);
    client.connected := false;
    assert !light.CanUpdate();
    light.WriteState(true, 73, 40);
    assert client.written == first;

    client.connected := true;
    DiscoverAndApplyTwice(light, client, h);
    log := client.written;
    assert log[..3] == first && log[3..] == first;
  }
}

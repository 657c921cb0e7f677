/**
 * The BLE client the driver borrows: the link state, the GATT table found by
 * service discovery, and the writes handed to the stack. All of it belongs to
 * the transport; the driver only reads the first two and appends to the third.
 */
module Transport {
  import opened Protocol
  import opened Discovery

  /** One write-without-response handed to the stack. */
  datatype Write = Write(handle: Handle, data: seq<byte>)

  class BleClient {
    var connected: bool
    var services: ServiceTable
    /** Every write the driver attempted, oldest first. */
    var written: seq<Write>

    constructor (connected: bool, services: ServiceTable)
      ensures this.connected == connected && this.services == services && written == []
    {
      this.connected := connected;
      this.services := services;
      written := [];
    }

    /**
     * `esp_ble_gattc_write_char` with no response: the write is recorded and
     * the stack's status is whatever the stack says, which nothing here decides.
     */
    method WriteCharNoRsp(handle: Handle, data: seq<byte>) returns (ok: bool)
      modifies this
      ensures written == old(written) + [Write(handle, data)]
      ensures connected == old(connected) && services == old(services)
    {
      written := written + [Write(handle, data)];
      ok := *;
    }
  }
}

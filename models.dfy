/**
 * The values the two views display. Their defining module (models/device_manager.py)
 * is not part of this model; only the attributes the views read are kept.
 */
module Models {

  /** One file on the device: its name, its size in bytes and its modification time. */
  datatype File = File(name: string, size: nat, date: int)

  /**
   * A discovered device. The views tell the variants apart with
   * `isinstance(device, USBDevice)`; every other device is treated as Wi-Fi.
   */
  datatype Device =
    | USBDevice(id: string, name: string, model: string, iosVersion: string)
    | WiFiDevice(id: string, name: string, ipAddress: string, port: nat)
}

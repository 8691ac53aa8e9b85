/** Modes and constants of the slave firmware (RF24-Slave). */
module SlaveConfig {
  import opened Text

  /** DEVICE_ID when the build does not set one. */
  const DefaultDeviceId: Byte := 1

  /** Address the slave listens on for commands (master -> slaves). */
  const CommandPipe: string := "CMD01"

  /** Address the slave announces itself on (slave -> master). */
  const DiscoveryPipe: string := "DISC1"

  /** Prefix of the URL the NFC emulator serves. */
  const NdefBaseUrl: string := "https://socialtag.io/user/"

  /** Longest run of a reader or emulator task, in milliseconds. */
  const TaskTimeoutMs: nat := 20000

  /** The slave's mode. */
  datatype SystemMode =
    | Joining          // announcing itself on the discovery pipe
    | ConfirmBlinking  // join acknowledged, blinking once
    | ChannelTest      // sending one test frame on its reply pipe
    | Idle
    | Reader           // one-shot NFC reader task
    | Emulator         // one-shot NFC emulator task
    | TeamWaiting      // yellow light
    | Spotlight        // rainbow light
    | ScoreEmulator    // score mode: waiting to be read
    | ScoreReader      // score mode: reading a tag
    | Cooldown         // score mode: cooling down

  /** my_uid: the NFC UID the emulator presents, fixed per DEVICE_ID. */
  function MyUid(deviceId: Byte): (uid: seq<Byte>)
    ensures |uid| == 3
  {
    if 1 <= deviceId <= 4 then [deviceId, deviceId, deviceId] else [0xDE, 0xAD, 0xBE]
  }

  /** Devices 1..4 present pairwise different UIDs, each different from the
      one every other id shares. */
  lemma MyUidDistinct(a: Byte, b: Byte)
    requires 1 <= a <= 4 && a != b
    ensures MyUid(a) != MyUid(b)
  {
    assert MyUid(a)[0] == a;
    if 1 <= b <= 4 { assert MyUid(b)[0] == b; } else { assert MyUid(b)[0] == 0xDE; }
  }
}

/** Modes and constants of the master firmware (RF24-MasterForControlUI). */
module MasterConfig {

  /** The master's global mode. */
  datatype SystemMode = Discovery | Idle | GameRunning

  /** Quorum: the fewest slaves the master accepts outside discovery. */
  const MinDevicesRequired: nat := 2

  /** Address every command is broadcast on (master -> slaves). */
  const CommandPipe: string := "CMD01"

  /** Address slaves announce themselves on (slaves -> master). */
  const DiscoveryPipe: string := "DISC1"
}

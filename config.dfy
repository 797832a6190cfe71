/** Build-time settings from `project_config.h` that the modelled
    components share. */
module Config {
  import opened Bytes

  const LORA_NODE_SENDER: Byte := 1
  const LORA_NODE_RECEIVER: Byte := 2
  const DEFAULT_RUN_MINUTES: Byte := 30
  const RX_IDLE_LISTEN_WINDOW_MS: U32 := 400
  const RX_IDLE_SLEEP_MS: U32 := 4000
  const SENDER_CMD_ACK_TIMEOUT_MS: U32 := 10000
  const SENDER_CMD_RETRY_INTERVAL_MS: U32 := 1000
}

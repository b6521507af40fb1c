/** The buffer sizes that all parts of the daemon share. */
module Limits {
  const MAX_BUF := 40960
  const MAX_CMD_OUT_BUF := 20480
}

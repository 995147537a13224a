/** Machine integers, result codes and the Option type shared by all modules. */
module Common {
  type byte = x: int | 0 <= x < 0x100
  type uint16 = x: int | 0 <= x < 0x1_0000
  type uint32 = x: int | 0 <= x < 0x1_0000_0000
  type uint64 = x: int | 0 <= x < 0x1_0000_0000_0000_0000

  const TWO_32: int := 0x1_0000_0000

  // Result codes of the framework (interfaces/inner_api/common/common_info.h).
  const SUCCESS: int := 0
  const FAIL: int := 1
  const GENERAL_ERROR: int := 2
  const CANCELED: int := 3
  const TIMEOUT: int := 4
  const TRUST_LEVEL_NOT_SUPPORT: int := 6
  const BUSY: int := 7
  const INVALID_PARAMETERS: int := 8
  const LOCKED: int := 9
  const E_RET_UNDONE: int := 16
  const E_CHECK_PERMISSION_FAILED: int := 18

  datatype Option<+T> = None | Some(value: T)
}

/**
 Machine integers at the widths the Rust sources use. Arithmetic on these types is
 checked by the verifier, so a method that uses them is proved free of overflow.
 */
module MachineInts {
  newtype u8 = x: int | 0 <= x < 0x100
  newtype u16 = x: int | 0 <= x < 0x1_0000
  newtype u32 = x: int | 0 <= x < 0x1_0000_0000
  newtype u64 = x: int | 0 <= x < 0x1_0000_0000_0000_0000
  newtype i32 = x: int | -0x8000_0000 <= x < 0x8000_0000
  newtype i64 = x: int | -0x8000_0000_0000_0000 <= x < 0x8000_0000_0000_0000

  /** A planar vector of wire coordinates. */
  datatype Vec2 = Vec2(x: i32, y: i32)

  /** The four buttons of one tick. */
  datatype ActionButtons = ActionButtons(fire: bool, jump: bool, ability: bool, reload: bool)

  /** One tick's control request. */
  datatype ActionIntent = ActionIntent(moveDir: Vec2, aim: u16, buttons: ActionButtons)
}

/** The layout of flash and of the image files burned into it. */
module FlashImage {
  import opened Basics
  import opened Bytes

  const SECTOR: nat := 4096
  const MAX_FILE: nat := 400 * 1024
  const START_AT: nat := 16
  const BL_HEADER: nat := 32
  const CALIB_SIZE: nat := 4096
  const READ_CHUNK: nat := 2048

  /** The most read_flash_capacity can return: a 16-bit number of kilobytes. */
  const CAPACITY: nat := 65535 * 1024

  type Capacity = n: nat | n <= CAPACITY
  type Address = n: nat | n < WRAP32

  /** The address an image asks to be burned at. */
  function StartOf(image: seq<byte>): (a: nat)
    requires |image| >= START_AT + 4
    ensures a < WRAP32
  {
    U16(image, START_AT) + 0x1_0000 * U16(image, START_AT + 2)
  }

  /** The start address as the code reads it, least significant byte first; behind the end of a short file
      there may be anything. */
  function StartOr(file: seq<byte>, wild: Address): (a: nat)
    ensures a < WRAP32 && (|file| < 20 ==> a == wild)
    ensures |file| >= 20 ==>
      a == file[16] as int + 0x100 * file[17] as int + 0x1_0000 * file[18] as int + 0x100_0000 * file[19] as int
  {
    if |file| >= START_AT + 4 then StartOf(file) else wild
  }
}

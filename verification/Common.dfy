// Constants of param.h, memlayout.h and pipe.c, and types shared by the
// modules.
module Common {
  const MAXOPBLOCKS := 10         // blocks a file system operation may log
  const LOGSIZE := 30             // MAXOPBLOCKS * 3
  const NBUF := 30                // MAXOPBLOCKS * 3
  const PIPESIZE := 512
  const KERNBASE := 0x8000_0000

  const WORD := 0x1_0000_0000
  type Word = x: int | 0 <= x < WORD // unsigned int

  datatype Option<T> = None | Some(value: T)
}
